/** Attribute extraction (`getAttributes`, `getAttribute`): each Attribute
    element's Name maps to the text of its child nodes, and a later element
    with the same Name replaces an earlier one (`HashMap.put`). */
module Attributes {
  import opened Wrappers
  import opened Exceptions
  import opened SamlDocument

  /** The map after putting every attribute, in document order, into an empty map. */
  function AttributeMap(attrs: seq<Attribute>): map<string, seq<string>>
    decreases |attrs|
  {
    if attrs == [] then map[]
    else
      var last := attrs[|attrs| - 1];
      AttributeMap(attrs[..|attrs| - 1])[last.name := last.values]
  }

  /** The keys are exactly the Names that occur. */
  lemma {:induction false} AttributeMapKeys(attrs: seq<Attribute>)
    ensures AttributeMap(attrs).Keys == set a | a in attrs :: a.name
    decreases |attrs|
  {
    if attrs != [] {
      var n := |attrs|;
      AttributeMapKeys(attrs[..n - 1]);
      assert attrs == attrs[..n - 1] + [attrs[n - 1]];
    }
  }

  /** Each Name maps to the values of the LAST Attribute carrying it. */
  lemma {:induction false} LastWins(attrs: seq<Attribute>, i: nat)
    requires i < |attrs|
    requires forall j :: i < j < |attrs| ==> attrs[j].name != attrs[i].name
    ensures attrs[i].name in AttributeMap(attrs)
    ensures AttributeMap(attrs)[attrs[i].name] == attrs[i].values
    decreases |attrs|
  {
    var n := |attrs|;
    if i < n - 1 {
      LastWins(attrs[..n - 1], i);
    }
  }

  /** Two Attributes sharing a Name: the second one's values replace the
      first one's instead of being merged with them. */
  lemma DuplicateOverwrites(first: Attribute, second: Attribute)
    requires first.name == second.name
    ensures AttributeMap([first, second]) == map[first.name := second.values]
  {
    assert [first, second][..1] == [first];
    assert [first][..0] == [];
    assert AttributeMap([first]) == map[first.name := first.values];
  }

  /** `String.join`-style concatenation with a separator between items. */
  function Join(items: seq<string>, separator: string): (r: string)
    ensures |items| == 1 ==> r == items[0]
    decreases |items|
  {
    if items == [] then ""
    else if |items| == 1 then items[0]
    else items[0] + separator + Join(items[1..], separator)
  }

  /** `ArrayList.toString()`: the items in brackets, separated by ", ". */
  function ListText(items: seq<string>): (r: string)
    ensures |r| >= 2 && r[0] == '[' && r[|r| - 1] == ']'
  {
    "[" + Join(items, ", ") + "]"
  }

  /** Appending an item to a non-empty list appends the separator and the item
      to its text: the items appear in order, separated by `separator`. */
  lemma {:induction false} JoinSnoc(items: seq<string>, x: string, separator: string)
    requires items != []
    ensures Join(items + [x], separator) == Join(items, separator) + separator + x
    decreases |items|
  {
    if |items| > 1 {
      JoinSnoc(items[1..], x, separator);
      assert (items + [x])[1..] == items[1..] + [x];
    } else {
      assert items + [x] == [items[0], x];
      assert [items[0], x][1..] == [x];
    }
  }

  /** `ArrayList.toString()` on zero, one and two items. */
  lemma ListTextExamples(a: string, b: string)
    ensures ListText([]) == "[]"
    ensures ListText([a]) == "[" + a + "]"
    ensures ListText([a, b]) == "[" + a + ", " + b + "]"
  {
    JoinSnoc([a], b, ", ");
    assert [a] + [b] == [a, b];
  }

  /** `getAttribute(name)`: with no Attribute at all `getAttributes()` is null and
      `isEmpty()` throws; with a Name that does not occur `get(name)` is null and
      `toString()` throws. The `return null` branch is unreachable, because a
      non-null map always holds at least one entry. */
  function Lookup(attrs: seq<Attribute>, name: string): Outcome<string> {
    if attrs == [] then Threw(NullPointerException)
    else
      var m := AttributeMap(attrs);
      if name in m then Returned(ListText(m[name])) else Threw(NullPointerException)
  }

  /** Looking up the Name of the last Attribute that carries it yields that
      Attribute's values; a Name that never occurs throws. */
  lemma LookupSpec(attrs: seq<Attribute>, name: string)
    ensures (exists a :: a in attrs && a.name == name) <==> Lookup(attrs, name).Returned?
    ensures forall i :: 0 <= i < |attrs| && attrs[i].name == name &&
                        (forall j :: i < j < |attrs| ==> attrs[j].name != name)
                        ==> Lookup(attrs, name) == Returned(ListText(attrs[i].values))
  {
    AttributeMapKeys(attrs);
    forall i | 0 <= i < |attrs| && attrs[i].name == name &&
               (forall j :: i < j < |attrs| ==> attrs[j].name != name)
      ensures Lookup(attrs, name) == Returned(ListText(attrs[i].values))
    {
      LastWins(attrs, i);
    }
  }
}
