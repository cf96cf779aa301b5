/** The Response class: the parsed document it was built from, the URL set by
    `setDestinationUrl`, and the error buffer that `isValid` appends to and
    never clears. */
module Saml {
  import opened Wrappers
  import opened Exceptions
  import opened SamlDocument
  import opened Status
  import opened SubjectConfirmation
  import opened Attributes
  import opened Validation

  class Response {
    var doc: Document
    var currentUrl: Option<string>
    var error: string

    /** `new Response(accountSettings, response)` once the response is decoded
        and parsed: no URL yet and an empty error buffer. */
    constructor (doc: Document)
      ensures this.doc == doc && currentUrl == None && error == ""
    {
      this.doc := doc;
      currentUrl := None;
      error := "";
    }

    method SetDestinationUrl(url: string)
      modifies this`currentUrl
      ensures currentUrl == Some(url)
    {
      currentUrl := Some(url);
    }

    /** The catch blocks: append the exception's message and answer false. */
    method Reject(e: Exception) returns (valid: bool)
      modifies this`error
      ensures !valid && error == old(error) + MessageText(e)
    {
      error := error + MessageText(e);
      valid := false;
    }

    /** `isValid()`, with the clock and the cryptographic check of the first
        Signature as inputs. The answer is true exactly when every check passes
        and the verifier accepts; a thrown failure appends exactly its message,
        a verifier that answers false appends nothing. */
    method IsValid(now: int, verify: Verifier) returns (valid: bool)
      modifies this`error
      ensures valid <==> Check(doc, currentUrl, now, verify) == Returned(true)
      ensures error == old(error) + Appended(Check(doc, currentUrl, now, verify))
    {
      if AttributeText(doc.version) != "2.0" {
        valid := Reject(Exception(UNSUPPORTED_VERSION));
        return;
      }
      if doc.id.None? {
        valid := Reject(Exception(MISSING_ID));
        return;
      }
      var status := CheckStatus(doc.status);
      if status.Threw? {
        valid := Reject(status.exception);
        return;
      }
      if |doc.assertions| != 1 {
        valid := Reject(Exception(ONE_ASSERTION));
        return;
      }
      if |doc.signatures| == 0 {
        valid := Reject(Exception(NO_SIGNATURE));
        return;
      }
      var destination := DestinationCheck(doc.destination, currentUrl);
      if destination.Threw? {
        valid := Reject(destination.exception);
        return;
      }
      var audience := AudienceCheck(doc.audiences, currentUrl);
      if audience.Threw? {
        valid := Reject(audience.exception);
        return;
      }
      var confirmed := EvaluateConfirmations(doc.confirmations, currentUrl, now);
      if confirmed.Threw? {
        valid := Reject(confirmed.exception);
        return;
      }
      if !confirmed.value {
        valid := Reject(Exception(NO_VALID_CONFIRMATION));
        return;
      }
      var verdict := verify(doc, doc.signatures[0]);
      if verdict.Threw? {
        valid := Reject(verdict.exception);
        return;
      }
      valid := verdict.value;
    }

    /** `getNameId()`: the text of the first NameID, or an exception when the
        document has none. */
    function GetNameId(): (r: Outcome<string>)
      reads this
      ensures r.Returned? <==> |doc.nameIds| > 0
      ensures r.Returned? ==> r.value == doc.nameIds[0]
      ensures r.Threw? ==> r.exception == Exception("No name id found in Document.")
    {
      if |doc.nameIds| == 0 then Threw(Exception("No name id found in Document."))
      else Returned(doc.nameIds[0])
    }

    /** `getAttributes()`: null (None) without Attribute elements, otherwise the
        map built by putting each Attribute's Name and child texts in turn. */
    method GetAttributes() returns (r: Option<map<string, seq<string>>>)
      ensures doc.attributes == [] <==> r.None?
      ensures r.Some? ==> r.value == AttributeMap(doc.attributes)
    {
      var nodes := doc.attributes;
      if |nodes| == 0 {
        return None;
      }
      var attributes: map<string, seq<string>> := map[];
      for i := 0 to |nodes|
        invariant attributes == AttributeMap(nodes[..i])
      {
        assert nodes[..i + 1][..i] == nodes[..i];
        var children := nodes[i].values;
        var values: seq<string> := [];
        for j := 0 to |children|
          invariant values == children[..j]
        {
          values := values + [children[j]];
        }
        assert children[..|children|] == children;
        attributes := attributes[nodes[i].name := values];
      }
      assert nodes[..|nodes|] == nodes;
      return Some(attributes);
    }

    /** `getAttribute(name)`: the list stored under `name`, as text. */
    method GetAttribute(name: string) returns (r: Outcome<string>)
      ensures r == Lookup(doc.attributes, name)
    {
      var attributes := GetAttributes();
      if attributes.None? {
        return Threw(NullPointerException);
      }
      var m := attributes.value;
      if name !in m {
        return Threw(NullPointerException);
      }
      return Returned(ListText(m[name]));
    }

    /** `getError()`: the whole buffer, everything appended since construction
        (the buffer is never null, so the "" branch is not taken). */
    function GetError(): (s: string)
      reads this
      ensures s == error
    {
      error
    }
  }

  /** Two failing validations on one Response: the buffer is never cleared, so
      `getError()` returns the concatenation of both messages. */
  method RepeatedRejection(doc: Document, url: string, now: int, verify: Verifier)
    returns (first: string, second: string)
    requires Check(doc, Some(url), now, verify).Threw?
    ensures first == MessageText(Check(doc, Some(url), now, verify).exception)
    ensures second == first + first
  {
    var response := new Response(doc);
    response.SetDestinationUrl(url);
    var valid := response.IsValid(now, verify);
    first := response.GetError();
    valid := response.IsValid(now, verify);
    second := response.GetError();
  }
}
