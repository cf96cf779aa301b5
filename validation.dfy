/** The checks of `Response.isValid`, in their fixed order, as one function of
    the document, the current URL, the time and the signature verifier. The try
    block either returns a boolean (only the signature check can return false)
    or throws; the catch blocks turn a thrown exception into `false`. */
module Validation {
  import opened Wrappers
  import opened Exceptions
  import opened SamlDocument
  import opened Status
  import opened SubjectConfirmation

  const UNSUPPORTED_VERSION := "Unsupported SAML Version."
  const MISSING_ID := "Missing ID attribute on SAML Response."
  const ONE_ASSERTION := "SAML Response must contain 1 Assertion."
  const NO_SIGNATURE := "Can't find signature in Document."
  const NO_VALID_CONFIRMATION := "A valid SubjectConfirmation was not found on this Response"

  /** Java string concatenation of a String that may be null. */
  function UrlText(url: Option<string>): string {
    if url.Some? then url.value else "null"
  }

  /** The Destination check: the root's Destination, "" when absent, must equal
      the current URL (`equals(null)` is false). */
  function DestinationCheck(destination: Option<string>, currentUrl: Option<string>): (r: Outcome<()>)
    ensures r.Returned? <==> Some(AttributeText(destination)) == currentUrl
  {
    var destinationUrl := AttributeText(destination);
    ThrowUnless(Some(destinationUrl) == currentUrl,
      Exception("The response was received at " + UrlText(currentUrl) + " instead of " + destinationUrl))
  }

  /** The audience check passes: the first Audience exists and has a first child,
      and that child is an element (value null, check skipped) or has the
      current URL as its value. */
  predicate AudiencePasses(audiences: seq<AudienceHead>, currentUrl: Option<string>) {
    |audiences| > 0 && !audiences[0].NoChild? &&
    (audiences[0].ValueChild? ==> Some(audiences[0].value) == currentUrl)
  }

  /** The Audience check on the FIRST Audience element only: a missing element
      or a missing first child is a null dereference. */
  function AudienceCheck(audiences: seq<AudienceHead>, currentUrl: Option<string>): (r: Outcome<()>)
    ensures r.Returned? <==> AudiencePasses(audiences, currentUrl)
  {
    if |audiences| == 0 then Threw(NullPointerException)
    else
      match audiences[0]
      case NoChild => Threw(NullPointerException)
      case ElementChild => Returned(())
      case ValueChild(audienceUrl) =>
        ThrowUnless(Some(audienceUrl) == currentUrl,
          Exception(audienceUrl + " is not a valid audience for this Response"))
  }

  /** The cryptographic check of `isValid`: `validate` on a context built from
      the given Signature element of the given document, which resolves the
      Signature's Reference inside that document and digests what it finds. */
  type Verifier = (Document, Signature) -> Outcome<bool>

  /** The body of the try block of `isValid`. Whenever it returns instead of
      throwing, the structural checks held and the answer is the verifier's,
      on the first Signature. */
  function Check(doc: Document, currentUrl: Option<string>, now: int, verify: Verifier)
    : (r: Outcome<bool>)
    ensures r.Returned? ==> && AttributeText(doc.version) == "2.0" && doc.id.Some?
                            && |doc.assertions| == 1 && |doc.signatures| > 0
                            && Some(AttributeText(doc.destination)) == currentUrl
                            && r == verify(doc, doc.signatures[0])
  {
    var _ :- ThrowUnless(AttributeText(doc.version) == "2.0", Exception(UNSUPPORTED_VERSION));
    var _ :- ThrowUnless(doc.id.Some?, Exception(MISSING_ID));
    var _ :- CheckStatus(doc.status);
    var _ :- ThrowUnless(|doc.assertions| == 1, Exception(ONE_ASSERTION));
    var _ :- ThrowUnless(|doc.signatures| != 0, Exception(NO_SIGNATURE));
    var _ :- DestinationCheck(doc.destination, currentUrl);
    var _ :- AudienceCheck(doc.audiences, currentUrl);
    var confirmed :- Evaluation(doc.confirmations, currentUrl, now);
    var _ :- ThrowUnless(confirmed, Exception(NO_VALID_CONFIRMATION));
    verify(doc, doc.signatures[0])
  }

  /** What a call appends to the error buffer: the message of the thrown
      exception, or nothing when the try block returned. */
  function Appended(o: Outcome<bool>): string {
    if o.Threw? then MessageText(o.exception) else ""
  }

  // ---------------------------------------------------------------------------
  // The order of the checks, as an independent list of gates

  /** The exception a throwing outcome carries. */
  function Failure<T>(o: Outcome<T>): (r: Option<Exception>)
    ensures r.Some? <==> o.Threw?
  {
    if o.Threw? then Some(o.exception) else None
  }

  /** The SubjectConfirmation step: the loop's exception, or the one thrown
      when the flag ended false. */
  function ConfirmationGate(doc: Document, currentUrl: Option<string>, now: int): Option<Exception> {
    var confirmations := Evaluation(doc.confirmations, currentUrl, now);
    if confirmations.Threw? then Some(confirmations.exception)
    else if confirmations.value then None
    else Some(Exception(NO_VALID_CONFIRMATION))
  }

  /** Each non-cryptographic check evaluated on its own, in source order. */
  function Gates(doc: Document, currentUrl: Option<string>, now: int): (gates: seq<Option<Exception>>)
    ensures |gates| == 8
  {
    [ Failure(ThrowUnless(AttributeText(doc.version) == "2.0", Exception(UNSUPPORTED_VERSION))),
      Failure(ThrowUnless(doc.id.Some?, Exception(MISSING_ID))),
      Failure(CheckStatus(doc.status)),
      Failure(ThrowUnless(|doc.assertions| == 1, Exception(ONE_ASSERTION))),
      Failure(ThrowUnless(|doc.signatures| != 0, Exception(NO_SIGNATURE))),
      Failure(DestinationCheck(doc.destination, currentUrl)),
      Failure(AudienceCheck(doc.audiences, currentUrl)),
      ConfirmationGate(doc, currentUrl, now) ]
  }

  /** The first failing gate of a list, if any. */
  function FirstFailure(gates: seq<Option<Exception>>): (r: Option<Exception>)
    ensures r.None? <==> forall g :: g in gates ==> g.None?
    ensures r.Some? ==> r in gates
  {
    if gates == [] then None
    else if gates[0].Some? then gates[0]
    else FirstFailure(gates[1..])
  }

  /** Fail-fast in the fixed order: the exception thrown is that of the first
      failing gate, and the signature verifier is consulted, on the first
      Signature, only when every gate passes. */
  lemma CheckIsFirstFailingGate(doc: Document, currentUrl: Option<string>, now: int,
                                verify: Verifier)
    ensures var first := FirstFailure(Gates(doc, currentUrl, now));
            && (first.Some? ==> Check(doc, currentUrl, now, verify) == Threw(first.value))
            && (first.None? ==> |doc.signatures| > 0 &&
                                Check(doc, currentUrl, now, verify) == verify(doc, doc.signatures[0]))
  {
    var g := Gates(doc, currentUrl, now);
    if j :| 0 <= j < |g| && g[j].Some? && forall i :: 0 <= i < j ==> g[i].None? {
      FirstFailureAt(g, j);
      ThrowsAtGate(doc, currentUrl, now, verify, j);
    } else {
      NoGateFails(doc, currentUrl, now, verify);
    }
  }

  /** When gate j is the first to fail, its exception is what is thrown. */
  lemma ThrowsAtGate(doc: Document, currentUrl: Option<string>, now: int,
                     verify: Verifier, j: nat)
    requires j < 8
    requires Gates(doc, currentUrl, now)[j].Some?
    requires forall i :: 0 <= i < j ==> Gates(doc, currentUrl, now)[i].None?
    ensures Check(doc, currentUrl, now, verify) == Threw(Gates(doc, currentUrl, now)[j].value)
  {
    var g := Gates(doc, currentUrl, now);
    assert j > 0 ==> g[0].None?;
    assert j > 1 ==> g[1].None?;
    assert j > 2 ==> g[2].None?;
    assert j > 3 ==> g[3].None?;
    assert j > 4 ==> g[4].None?;
    assert j > 5 ==> g[5].None?;
    assert j > 6 ==> g[6].None?;
  }

  /** When no gate fails, the verifier's answer on the first Signature is the result. */
  lemma NoGateFails(doc: Document, currentUrl: Option<string>, now: int,
                     verify: Verifier)
    requires forall i :: 0 <= i < 8 ==> Gates(doc, currentUrl, now)[i].None?
    ensures |doc.signatures| > 0 && Check(doc, currentUrl, now, verify) == verify(doc, doc.signatures[0])
  {
    var g := Gates(doc, currentUrl, now);
    assert g[0].None? && g[1].None? && g[2].None? && g[3].None?;
    assert g[4].None? && g[5].None? && g[6].None? && g[7].None?;
  }

  /** The first failing gate is the one at the smallest failing index. */
  lemma {:induction false} FirstFailureAt(gates: seq<Option<Exception>>, j: nat)
    requires j < |gates| && gates[j].Some?
    requires forall i :: 0 <= i < j ==> gates[i].None?
    ensures FirstFailure(gates) == gates[j]
  {
    if j > 0 {
      FirstFailureAt(gates[1..], j - 1);
    }
  }

  /** Every check that precedes the signature verifier passes (the conditions
      spelled out, with the subject confirmations quantified). */
  predicate PassesStructuralChecks(doc: Document, currentUrl: Option<string>, now: int) {
    && AttributeText(doc.version) == "2.0"
    && doc.id.Some?
    && (doc.status.code.None? || doc.status.code.value == SUCCESS)
    && |doc.assertions| == 1
    && |doc.signatures| > 0
    && Some(AttributeText(doc.destination)) == currentUrl
    && AudiencePasses(doc.audiences, currentUrl)
    && !MeetsText(doc.confirmations)
    && (forall i, k :: 0 <= i < |doc.confirmations| && Inspected(doc.confirmations[i])
                       && 0 <= k < |doc.confirmations[i].children|
                       ==> ChildPasses(doc.confirmations[i].children[k], currentUrl, now))
  }

  /** `isValid` returns true exactly when every check passes and the verifier
      accepts the FIRST Signature element. */
  lemma AcceptedIff(doc: Document, currentUrl: Option<string>, now: int, verify: Verifier)
    ensures Check(doc, currentUrl, now, verify) == Returned(true) <==>
            PassesStructuralChecks(doc, currentUrl, now) && verify(doc, doc.signatures[0]) == Returned(true)
  {
    AllPassIff(doc.confirmations, currentUrl, now);
  }

  /** The only way to be rejected without an exception, and so without any
      message in the error buffer, is a verifier that returns false. */
  lemma SilentRejection(doc: Document, currentUrl: Option<string>, now: int, verify: Verifier)
    ensures Check(doc, currentUrl, now, verify) == Returned(false) <==>
            PassesStructuralChecks(doc, currentUrl, now) && verify(doc, doc.signatures[0]) == Returned(false)
  {
    AllPassIff(doc.confirmations, currentUrl, now);
  }

  /** The first two checks and their messages; an empty ID is present, so it
      passes the ID check. */
  lemma VersionAndId(doc: Document, currentUrl: Option<string>, now: int, verify: Verifier)
    ensures AttributeText(doc.version) != "2.0" ==>
            Check(doc, currentUrl, now, verify) == Threw(Exception(UNSUPPORTED_VERSION))
    ensures AttributeText(doc.version) == "2.0" && doc.id.None? ==>
            Check(doc, currentUrl, now, verify) == Threw(Exception(MISSING_ID))
    ensures doc.id == Some("") ==> Gates(doc, currentUrl, now)[1].None?
  {
  }

  /** Any number of Assertions other than one, or no Signature, rejects. */
  lemma CardinalityRejects(doc: Document, currentUrl: Option<string>, now: int, verify: Verifier)
    requires |doc.assertions| != 1 || |doc.signatures| == 0
    ensures Check(doc, currentUrl, now, verify).Threw?
  {
  }

  /** An absent Destination is compared as "": unless the current URL is the
      empty string, a Response without Destination that got this far is
      rejected with a message naming an empty destination. */
  lemma AbsentDestinationCompared(doc: Document, url: string, now: int, verify: Verifier)
    requires AttributeText(doc.version) == "2.0" && doc.id.Some?
    requires doc.status.code.None? && |doc.assertions| == 1 && |doc.signatures| > 0
    requires doc.destination.None? && url != ""
    ensures Check(doc, Some(url), now, verify)
         == Threw(Exception("The response was received at " + url + " instead of "))
  {
  }

  /** Without a destination URL ever set, no Response is accepted. */
  lemma UnsetUrlRejects(doc: Document, now: int, verify: Verifier)
    ensures Check(doc, None, now, verify) != Returned(true)
  {
  }

  /** No Audience element: the null dereference is caught, so the call fails
      closed with the message "null". */
  lemma MissingAudienceFailsClosed(doc: Document, currentUrl: Option<string>, now: int,
                                   verify: Verifier)
    requires doc.audiences == []
    ensures Check(doc, currentUrl, now, verify) != Returned(true)
    ensures Appended(Check(doc, currentUrl, now, verify)) != ""
  {
  }

  /** An Audience whose first child is an element has a null value, and the
      audience check is then skipped: every check gives what it gives with
      an Audience equal to the current URL, and so does the verdict when the
      verifier answers alike on the two documents. */
  lemma ElementAudienceUnchecked(doc: Document, url: string, now: int, verify: Verifier)
    requires |doc.audiences| > 0 && doc.audiences[0] == ElementChild
    ensures var doc' := doc.(audiences := [ValueChild(url)] + doc.audiences[1..]);
            && Gates(doc, Some(url), now) == Gates(doc', Some(url), now)
            && (|doc.signatures| == 0 || verify(doc, doc.signatures[0]) == verify(doc', doc.signatures[0]) ==>
                  Check(doc, Some(url), now, verify) == Check(doc', Some(url), now, verify))
  {
  }

  // ---------------------------------------------------------------------------
  // Loose signature binding

  /** The checks before the verifier read no Assertion ID and no Signature but
      the count: replacing every later Signature and every Assertion (keeping
      their number) leaves every check as it was and hands the verifier the
      same first Signature. The verdict then changes only if the verifier's
      answer on the new document does. */
  lemma OnlyFirstSignatureInspected(doc: Document, laterSignatures: seq<Signature>,
                                    assertions: seq<Assertion>, currentUrl: Option<string>, now: int,
                                    verify: Verifier)
    requires |doc.signatures| > 0 && |assertions| == |doc.assertions|
    ensures var doc' := doc.(signatures := [doc.signatures[0]] + laterSignatures, assertions := assertions);
            && Gates(doc', currentUrl, now) == Gates(doc, currentUrl, now)
            && doc'.signatures[0] == doc.signatures[0]
            && (verify(doc', doc.signatures[0]) == verify(doc, doc.signatures[0]) ==>
                  Check(doc', currentUrl, now, verify) == Check(doc, currentUrl, now, verify))
  {
  }

  /** A wrapped document: the only Assertion has ID "forged" while the only
      Signature's Reference points at "#signed" elsewhere. No check compares
      the two, so it is accepted as soon as the verifier validates that
      Signature in that document. */
  function WrappedResponse(url: string): Document {
    Document(Some("2.0"), Some("response"), Some(url), Status(None, None),
             [Assertion(Some("forged"))], [Signature("#signed")], [ValueChild(url)],
             [], ["attacker"], [])
  }

  lemma WrappedAssertionAccepted(url: string, now: int, verify: Verifier)
    requires verify(WrappedResponse(url), Signature("#signed")) == Returned(true)
    ensures var doc := WrappedResponse(url);
            doc.signatures[0].referenceUri != "#" + doc.assertions[0].id.value
            && Check(doc, Some(url), now, verify) == Returned(true)
  {
    assert "#signed"[1] != ("#" + "forged")[1];
  }

  /** The minimal well-formed Response: version 2.0, an ID, a success status,
      one Assertion, one Signature, Destination and Audience equal to the
      current URL, one bearer confirmation for that recipient whose
      NotOnOrAfter is not yet past. The verdict is the verifier's. */
  lemma MinimalResponse(url: string, now: int, notOnOrAfter: int, sig: Signature,
                        verify: Verifier)
    requires notOnOrAfter >= now
    ensures var conf := Confirmation(Some(BEARER),
              [Element(DATA, ConfirmationAttributes(Some(url), Some(notOnOrAfter), None))]);
            var doc := Document(Some("2.0"), Some("id"), Some(url), Status(Some(SUCCESS), None),
              [Assertion(Some("a"))], [sig], [ValueChild(url)], [conf], ["subject"], []);
            Check(doc, Some(url), now, verify) == verify(doc, sig)
  {
    var conf := Confirmation(Some(BEARER),
      [Element(DATA, ConfirmationAttributes(Some(url), Some(notOnOrAfter), None))]);
    var doc := Document(Some("2.0"), Some("id"), Some(url), Status(Some(SUCCESS), None),
      [Assertion(Some("a"))], [sig], [ValueChild(url)], [conf], ["subject"], []);
    AllPassIff([conf], Some(url), now);
    assert !MeetsText([conf]) by {
      assert forall i, k :: 0 <= i < 1 && 0 <= k < |[conf][i].children| ==> [conf][i].children[k].Element?;
    }
  }
}
