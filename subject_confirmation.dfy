/** The SubjectConfirmation loop of `Response.isValid`. As written, a flag starts
    true and ANY failing SubjectConfirmationData of a bearer (or method-less)
    confirmation clears it, so every entry must pass; a NotBefore already in the
    past fails an entry; and a text child makes `getLocalName()` null, so the
    loop throws a NullPointerException. */
module SubjectConfirmation {
  import opened Wrappers
  import opened Exceptions
  import opened SamlDocument

  const BEARER := "urn:oasis:names:tc:SAML:2.0:cm:bearer"
  const DATA := "SubjectConfirmationData"

  /** A confirmation the loop inspects: its Method is absent or is bearer. */
  predicate Inspected(c: Confirmation) {
    c.confirmationMethod.None? || c.confirmationMethod.value == BEARER
  }

  predicate IsData(child: ConfirmationChild) {
    child.Element? && child.localName == DATA
  }

  /** The three tests one SubjectConfirmationData must pass. `currentUrl` is
      None while no destination URL was set, and `equals(null)` is false. */
  predicate DataPasses(a: ConfirmationAttributes, currentUrl: Option<string>, now: int) {
    && (a.recipient.Some? ==> Some(a.recipient.value) == currentUrl)
    && (a.notOnOrAfter.Some? ==> !(a.notOnOrAfter.value < now))
    && (a.notBefore.Some? ==> !(a.notBefore.value < now))
  }

  predicate ChildPasses(child: ConfirmationChild, currentUrl: Option<string>, now: int) {
    IsData(child) ==> DataPasses(child.attributes, currentUrl, now)
  }

  /** The flag after visiting `children` in order, starting from true. */
  function ChildrenPass(children: seq<ConfirmationChild>, currentUrl: Option<string>, now: int): bool
    decreases |children|
  {
    children == [] ||
    (ChildrenPass(children[..|children| - 1], currentUrl, now) &&
     ChildPasses(children[|children| - 1], currentUrl, now))
  }

  /** The flag after visiting `confs` in order, starting from true. */
  function AllPass(confs: seq<Confirmation>, currentUrl: Option<string>, now: int): bool
    decreases |confs|
  {
    var n := |confs|;
    n == 0 ||
    (AllPass(confs[..n - 1], currentUrl, now) &&
     (Inspected(confs[n - 1]) ==> ChildrenPass(confs[n - 1].children, currentUrl, now)))
  }

  /** Some inspected confirmation has a text child: the loop dereferences its
      null local name. */
  predicate MeetsText(confs: seq<Confirmation>) {
    exists i, k :: 0 <= i < |confs| && Inspected(confs[i]) && 0 <= k < |confs[i].children|
                   && confs[i].children[k].TextNode?
  }

  /** What the loop does: throw on a text child, else yield the flag. */
  function Evaluation(confs: seq<Confirmation>, currentUrl: Option<string>, now: int): Outcome<bool> {
    if MeetsText(confs) then Threw(NullPointerException) else Returned(AllPass(confs, currentUrl, now))
  }

  /** The nested loop of `isValid` over all SubjectConfirmation elements. */
  method EvaluateConfirmations(confs: seq<Confirmation>, currentUrl: Option<string>, now: int)
    returns (r: Outcome<bool>)
    ensures r == Evaluation(confs, currentUrl, now)
  {
    var valid := true;
    for i := 0 to |confs|
      invariant !MeetsText(confs[..i])
      invariant valid == AllPass(confs[..i], currentUrl, now)
    {
      assert confs[..i + 1][..i] == confs[..i];
      var conf := confs[i];
      if conf.confirmationMethod.Some? && conf.confirmationMethod.value != BEARER {
        continue;
      }
      var children := conf.children;
      for c := 0 to |children|
        invariant forall k :: 0 <= k < c ==> children[k].Element?
        invariant valid == (AllPass(confs[..i], currentUrl, now) && ChildrenPass(children[..c], currentUrl, now))
      {
        assert children[..c + 1][..c] == children[..c];
        var child := children[c];
        if child.TextNode? {
          assert confs[i].children[c].TextNode?;
          return Threw(NullPointerException);
        }
        if child.localName == DATA {
          var a := child.attributes;
          if a.recipient.Some? && Some(a.recipient.value) != currentUrl {
            valid := false;
          }
          if a.notOnOrAfter.Some? && a.notOnOrAfter.value < now {
            valid := false;
          }
          if a.notBefore.Some? && a.notBefore.value < now {
            valid := false;
          }
        }
      }
      assert children[..|children|] == children;
    }
    assert confs[..|confs|] == confs;
    return Returned(valid);
  }

  lemma {:induction false} ChildrenPassIff(children: seq<ConfirmationChild>, currentUrl: Option<string>, now: int)
    ensures ChildrenPass(children, currentUrl, now) <==>
            forall k :: 0 <= k < |children| ==> ChildPasses(children[k], currentUrl, now)
    decreases |children|
  {
    if children != [] {
      var n := |children|;
      ChildrenPassIff(children[..n - 1], currentUrl, now);
      assert forall k :: 0 <= k < n - 1 ==> children[..n - 1][k] == children[k];
    }
  }

  /** The flag survives exactly when every SubjectConfirmationData of every
      inspected confirmation passes all three tests: "all must pass", not
      "at least one", whatever the comment above the loop says. */
  lemma {:induction false} AllPassIff(confs: seq<Confirmation>, currentUrl: Option<string>, now: int)
    ensures AllPass(confs, currentUrl, now) <==>
            forall i, k :: 0 <= i < |confs| && Inspected(confs[i]) && 0 <= k < |confs[i].children|
                           ==> ChildPasses(confs[i].children[k], currentUrl, now)
    decreases |confs|
  {
    if confs != [] {
      var n := |confs|;
      AllPassIff(confs[..n - 1], currentUrl, now);
      ChildrenPassIff(confs[n - 1].children, currentUrl, now);
      assert forall i :: 0 <= i < n - 1 ==> confs[..n - 1][i] == confs[i];
    }
  }

  /** With no SubjectConfirmation at all the check passes. */
  lemma NoConfirmationsPass(currentUrl: Option<string>, now: int)
    ensures Evaluation([], currentUrl, now) == Returned(true)
  {
  }

  /** A confirmation whose Method is present and not bearer is skipped entirely,
      wherever it stands and whatever its children. */
  lemma NonBearerSkipped(pre: seq<Confirmation>, c: Confirmation, post: seq<Confirmation>,
                         currentUrl: Option<string>, now: int)
    requires c.confirmationMethod.Some? && c.confirmationMethod.value != BEARER
    ensures Evaluation(pre + [c] + post, currentUrl, now) == Evaluation(pre + post, currentUrl, now)
  {
    var all, rest := pre + [c] + post, pre + post;
    var n := |pre|;
    assert forall j :: 0 <= j < |rest| ==> rest[j] == all[if j < n then j else j + 1];
    assert forall i :: 0 <= i < |all| && i != n ==> all[i] == rest[if i < n then i else i - 1];
    assert !Inspected(all[n]);
    if MeetsText(all) {
      var i, k :| 0 <= i < |all| && Inspected(all[i]) && 0 <= k < |all[i].children| && all[i].children[k].TextNode?;
      var j := if i < n then i else i - 1;
      assert rest[j].children[k].TextNode?;
    }
    if MeetsText(rest) {
      var j, k :| 0 <= j < |rest| && Inspected(rest[j]) && 0 <= k < |rest[j].children| && rest[j].children[k].TextNode?;
      var i := if j < n then j else j + 1;
      assert all[i].children[k].TextNode?;
    }
    AllPassIff(all, currentUrl, now);
    AllPassIff(rest, currentUrl, now);
  }

  /** One failing entry of an inspected confirmation rejects, even when other
      confirmations are perfectly valid. */
  lemma OneFailureRejects(confs: seq<Confirmation>, i: nat, k: nat, currentUrl: Option<string>, now: int)
    requires i < |confs| && Inspected(confs[i]) && k < |confs[i].children|
    requires IsData(confs[i].children[k])
    requires !DataPasses(confs[i].children[k].attributes, currentUrl, now)
    ensures Evaluation(confs, currentUrl, now) != Returned(true)
  {
    AllPassIff(confs, currentUrl, now);
  }

  /** The window check as written: NotOnOrAfter equal to now passes, one
      instant earlier fails. */
  lemma NotOnOrAfterBoundary(recipient: Option<string>, currentUrl: Option<string>, now: int)
    ensures DataPasses(ConfirmationAttributes(recipient, Some(now), None), currentUrl, now)
            == (recipient.None? || Some(recipient.value) == currentUrl)
    ensures !DataPasses(ConfirmationAttributes(recipient, Some(now - 1), None), currentUrl, now)
  {
  }

  /** A bearer confirmation whose window properly contains now, with the right
      recipient, is rejected because its NotBefore lies in the past; one whose
      NotBefore lies in the future is accepted. */
  lemma NotBeforeInverted(url: string, notBefore: int, notOnOrAfter: int, now: int)
    requires notOnOrAfter >= now
    ensures var conf := Confirmation(Some(BEARER),
                [Element(DATA, ConfirmationAttributes(Some(url), Some(notOnOrAfter), Some(notBefore)))]);
            Evaluation([conf], Some(url), now) == Returned(notBefore >= now)
  {
    var conf := Confirmation(Some(BEARER),
                [Element(DATA, ConfirmationAttributes(Some(url), Some(notOnOrAfter), Some(notBefore)))]);
    AllPassIff([conf], Some(url), now);
    assert !MeetsText([conf]) by {
      assert forall i, k :: 0 <= i < 1 && 0 <= k < |[conf][i].children| ==> [conf][i].children[k].Element?;
    }
  }
}
