# SAML 2.0 Response acceptance (java-saml `Response`)

This project models the `com.onelogin.saml.Response` class of java-saml. A
service provider uses it to decide whether a SAML 2.0 Response from an
identity provider is acceptable, and then to read the subject's NameID and
attributes.

`isValid` runs a fixed sequence of checks over an already-parsed document,
and the first failure wins:

1. the Version is "2.0";
2. the root carries an ID;
3. the status code is absent or is Success;
4. there is exactly one Assertion;
5. at least one Signature exists;
6. the Destination equals the current URL;
7. the first Audience equals the current URL;
8. the SubjectConfirmation loop passes;
9. the first Signature is verified cryptographically.

A thrown failure is caught. Its message is appended to an error buffer that
is never cleared, and the answer is `false`.

The model is written in Dafny:

- `SamlDocument.Document` is the parsed document. Every list in it (Audiences,
  SubjectConfirmations, NameIDs, Attributes, Signatures) is gathered from the
  whole document, because the source uses `getElementsByTagNameNS` on the
  document and not on the Assertion.
- `Exceptions.Outcome` stands for a Java call that either returns or throws.
- `Validation.Check` is the body of the try block of `isValid`.
- `Saml.Response` is the class. It has the document, the URL set by
  `setDestinationUrl` and the error buffer. Its `IsValid` method runs the
  checks step by step. The SubjectConfirmation loop is the nested loop of
  `SubjectConfirmation.EvaluateConfirmations`. `GetAttributes` builds the
  attribute map in a loop, and `GetError` returns the buffer.
- The clock (`now`) is a parameter, and so is the cryptographic check
  (`verify`). It is applied to the document and its first Signature, because
  `validate` resolves that Signature's Reference inside the document and
  digests what it finds there.

The model follows the code as written, including where it departs from what
a correct SAML validator does. Each such place is stated as a lemma:

- **All confirmations must pass.** Every SubjectConfirmationData of every
  bearer or method-less confirmation must pass. One failing entry rejects,
  even though the comment above the loop says at least one must be valid
  (`AllPassIff`, `OneFailureRejects`).
- **NotBefore is inverted.** A NotBefore already in the past rejects. A
  NotBefore in the future passes (`NotBeforeInverted`).
- **NotOnOrAfter equal to now passes** (`NotOnOrAfterBoundary`).
- **The status message is lost.** The failure message carries the flag
  "true" instead of the message text (`NotSuccessText`, `MessageTextIgnored`).
- **Duplicate attribute names overwrite.** A later Attribute with the same
  Name replaces the earlier one; the values are not merged (`LastWins`,
  `DuplicateOverwrites`).
- **The signature is bound loosely.**
  - Any Signature element satisfies the presence check.
  - Only the first Signature is handed to the verifier.
  - No Assertion ID is ever compared with a Reference.

  So no check before the cryptographic one looks at which element is signed
  (`OnlyFirstSignatureInspected`). A wrapped document whose Reference does not
  point at its Assertion is accepted whenever the cryptographic check
  validates that Signature (`WrappedAssertionAccepted`).
- **An absent Destination is compared as "".** `getAttribute` returns "" for
  an absent attribute, so it still gets compared (`AbsentDestinationCompared`).
- **An element in the Audience skips the check.** If the first child of the
  Audience is an element, its node value is null, and the audience check is
  skipped (`ElementAudienceUnchecked`).
- **Null dereferences fail closed.** A missing Audience and a text child
  inside an inspected SubjectConfirmation are null dereferences. They are
  caught, so the call fails with the message "null"
  (`MissingAudienceFailsClosed`, `EvaluateConfirmations`).
- **A rejected signature appends nothing.** A signature the cryptographic check rejects
  without throwing gives `false`, and nothing is appended to the error
  buffer (`SilentRejection`).

## Model

| member | source | states |
|---|---|---|
| `Status.LastIndexOf` | src/main/java/com/onelogin/saml/Response.java:214 | the result is -1 or an index holding the character, and no later index holds it |
| `Status.Fragment` | src/main/java/com/onelogin/saml/Response.java:213-214 | the fragment holds no ':' and is the suffix of the code that starts it or follows a ':' |
| `Status.LastColonOfSplit` | src/main/java/com/onelogin/saml/Response.java:214 | in a code split after its last ':', `lastIndexOf(':')` is the end of the first part (-1 when it is empty) |
| `Status.FragmentUnique` | src/main/java/com/onelogin/saml/Response.java:214 | those two properties determine the fragment uniquely |
| `Status.RequesterFragment` | src/main/java/com/onelogin/saml/Response.java:213-214 | the message for `...:status:Requester` names "Requester" |
| `Status.FragmentOfPlainCode` | src/main/java/com/onelogin/saml/Response.java:214 | a code without ':' is reported whole |
| `Status.CheckStatus` | src/main/java/com/onelogin/saml/Response.java:210-222 | passes (returning the status) iff there is no code or the code is Success; otherwise throws a message that starts with the "not Success" text |
| `Status.NotSuccessText` | src/main/java/com/onelogin/saml/Response.java:212-218 | the full failure message is the fixed text, the fragment, then " -> true" exactly when a message is present |
| `Status.MessageTextIgnored` | src/main/java/com/onelogin/saml/Response.java:215-217 | two statuses differing only in message text fail identically |
| `SubjectConfirmation.EvaluateConfirmations` | src/main/java/com/onelogin/saml/Response.java:105-141 | the nested loop throws a null dereference iff an inspected confirmation has a text child, and otherwise yields the flag `AllPass` |
| `SubjectConfirmation.ChildrenPassIff` | src/main/java/com/onelogin/saml/Response.java:113-139 | the flag over one confirmation's children survives iff every SubjectConfirmationData child passes |
| `SubjectConfirmation.AllPassIff` | src/main/java/com/onelogin/saml/Response.java:104-144 | the flag survives iff every SubjectConfirmationData of every bearer or method-less confirmation passes all three tests |
| `SubjectConfirmation.NoConfirmationsPass` | src/main/java/com/onelogin/saml/Response.java:105-107 | with no SubjectConfirmation the loop passes |
| `SubjectConfirmation.NonBearerSkipped` | src/main/java/com/onelogin/saml/Response.java:108-111 | inserting a confirmation with a non-bearer Method anywhere in the list changes nothing, whatever its children |
| `SubjectConfirmation.OneFailureRejects` | src/main/java/com/onelogin/saml/Response.java:119-142 | one failing entry rejects even when others are valid |
| `SubjectConfirmation.NotOnOrAfterBoundary` | src/main/java/com/onelogin/saml/Response.java:123-130 | NotOnOrAfter equal to now passes (given the recipient matches); one instant earlier fails |
| `SubjectConfirmation.NotBeforeInverted` | src/main/java/com/onelogin/saml/Response.java:131-138 | with a matching recipient and a live NotOnOrAfter, the confirmation passes iff NotBefore is not before now |
| `Attributes.AttributeMapKeys` | src/main/java/com/onelogin/saml/Response.java:187-198 | the map's keys are exactly the Names of the Attribute elements |
| `Attributes.LastWins` | src/main/java/com/onelogin/saml/Response.java:188-198 | each Name maps to the child texts of the last Attribute carrying it |
| `Attributes.DuplicateOverwrites` | src/main/java/com/onelogin/saml/Response.java:197 | two Attributes sharing a Name leave only the second one's values |
| `Attributes.ListText` | src/main/java/com/onelogin/saml/Response.java:178 | the list's text is bracketed |
| `Attributes.JoinSnoc` | src/main/java/com/onelogin/saml/Response.java:178 | appending an item appends ", " and the item to the joined text, so the items appear in order, separated by ", " |
| `Attributes.ListTextExamples` | src/main/java/com/onelogin/saml/Response.java:178 | zero, one and two items print as "[]", "[a]" and "[a, b]" |
| `Attributes.LookupSpec` | src/main/java/com/onelogin/saml/Response.java:175-181 | `getAttribute` returns iff the Name occurs, and then gives the text of the last such Attribute's values |
| `Validation.DestinationCheck` | src/main/java/com/onelogin/saml/Response.java:88-93 | passes iff the Destination, "" when absent, equals the current URL (never when the URL is unset) |
| `Validation.AudienceCheck` | src/main/java/com/onelogin/saml/Response.java:96-102 | passes iff the first Audience exists and has a first child, which either is an element or has the current URL as value |
| `Validation.Check` | src/main/java/com/onelogin/saml/Response.java:59-156 | the try block of `isValid`; whenever it returns instead of throwing, the Version is "2.0", an ID is present, there is one Assertion and a Signature, the Destination matches, and the answer is the verifier's on the first Signature |
| `Validation.CheckIsFirstFailingGate` | src/main/java/com/onelogin/saml/Response.java:62-156 | the exception thrown is that of the first failing check in source order; the verifier decides, on the document and its first Signature, only when every check passes |
| `Validation.AcceptedIff` | src/main/java/com/onelogin/saml/Response.java:58-164 | `isValid` is true iff every check passes (confirmations quantified) and the verifier accepts the first Signature |
| `Validation.SilentRejection` | src/main/java/com/onelogin/saml/Response.java:151-156 | the try block returns false (appending nothing) iff every check passes and the verifier answers false |
| `Validation.VersionAndId` | src/main/java/com/onelogin/saml/Response.java:66-74 | a Version other than "2.0" throws "Unsupported SAML Version."; then a missing ID throws "Missing ID attribute on SAML Response."; an empty ID passes |
| `Validation.CardinalityRejects` | src/main/java/com/onelogin/saml/Response.java:78-85 | not exactly one Assertion, or no Signature, always throws |
| `Validation.AbsentDestinationCompared` | src/main/java/com/onelogin/saml/Response.java:88-93 | an absent Destination is compared as "" and rejected with the "received at" message |
| `Validation.UnsetUrlRejects` | src/main/java/com/onelogin/saml/Response.java:89-92 | without a destination URL set, no Response is accepted |
| `Validation.MissingAudienceFailsClosed` | src/main/java/com/onelogin/saml/Response.java:96-97 | with no Audience element the call fails and appends a message |
| `Validation.ElementAudienceUnchecked` | src/main/java/com/onelogin/saml/Response.java:97-102 | with an element as first Audience child, every check gives what it gives with an Audience equal to the current URL; so does the verdict when the verifier answers alike on both documents |
| `Validation.OnlyFirstSignatureInspected` | src/main/java/com/onelogin/saml/Response.java:82-85 | replacing every later Signature and every Assertion (same count) leaves every check before the verifier unchanged and hands the verifier the same first Signature; the verdict changes only if the verifier's answer does |
| `Validation.WrappedAssertionAccepted` | src/main/java/com/onelogin/saml/Response.java:151-156 | a Response whose only Signature references another ID than its Assertion's is accepted once the verifier validates that Signature in that document |
| `Validation.MinimalResponse` | src/main/java/com/onelogin/saml/Response.java:58-156 | a minimal well-formed Response (matching Destination, Audience and bearer recipient, live window) gets exactly the verifier's verdict |
| `Saml.Response.constructor` | src/main/java/com/onelogin/saml/Response.java:37-47 | a new Response holds the document, no URL and an empty error buffer |
| `Saml.Response.SetDestinationUrl` | src/main/java/com/onelogin/saml/Response.java:238-240 | sets the current URL and nothing else |
| `Saml.Response.Reject` | src/main/java/com/onelogin/saml/Response.java:157-164 | a caught exception appends its message to the buffer and answers false |
| `Saml.Response.IsValid` | src/main/java/com/onelogin/saml/Response.java:58-165 | the answer is true iff `Check` returns true; the buffer grows by exactly the thrown message, or by nothing |
| `Saml.Response.GetNameId` | src/main/java/com/onelogin/saml/Response.java:167-173 | returns the first NameID iff there is one, and throws "No name id found in Document." otherwise |
| `Saml.Response.GetAttributes` | src/main/java/com/onelogin/saml/Response.java:183-203 | null iff there is no Attribute element; otherwise the map of `AttributeMap`, built by the two loops |
| `Saml.Response.GetAttribute` | src/main/java/com/onelogin/saml/Response.java:175-181 | equals `Lookup`: a null dereference without attributes or without the Name, otherwise the list's text |
| `Saml.Response.GetError` | src/main/java/com/onelogin/saml/Response.java:242-246 | returns the whole error buffer, everything appended since construction (it is never null) |
| `Saml.RepeatedRejection` | src/main/java/com/onelogin/saml/Response.java:242-246 | two failed validations on one Response leave the message twice in `getError()`: the buffer is never cleared |

## Left out

- Base64 decoding and XML parsing (`loadXmlFromBase64`, `Utils.loadXML`, Response.java:49-55) are library I/O. The constructor takes the parsed document, taken after `normalize()`.
- A Response built without a document, on which `isValid` would dereference a null document, is not modelled.
- Certificate loading and `AccountSettings` (Response.java:37-42) are not part of this model. The `Certificate` class is not shown.
- The cryptographic check is not modelled. It covers `DOMValidateContext`, `XMLSignatureFactory` and `validate` at Response.java:151-156, which are foreign XML-DSig calls. It is the parameter `verify`, applied to the document and its first Signature; an exception it throws is its `Threw` outcome. What it answers for a given document (reference resolution, digests, the key) is not modelled.
- `xs:dateTime` parsing (Response.java:125-126, 133-134) is not modelled. Times are integer instants. A malformed date, which would throw, is not modelled.
- The source reads the clock once per comparison; the model uses one `now` for the whole call.
- `Utils.getStatus` and `Constants.STATUS_SUCCESS` are not part of this model. The status is an optional code and message, and Success is the SAML 2.0 URI `urn:oasis:names:tc:SAML:2.0:status:Success`.
- `setIdAttributeExists` and `tagIdAttributes` (Response.java:225-236) are left out. They are reflection and an unimplemented method, and their only call is commented out.
- `System.out.println` and `printStackTrace` are left out. They write to the console only.
- The `catch (Error e)` branch is covered only by its effect. `com.onelogin.Error` is not part of this model, and nothing modelled throws it. Both catch blocks act the same on the buffer.
- The private fields `rootElement` and `assertions`, which `isValid` assigns (Response.java:62-63), are not modelled. No other method reads them.
- Some null dereferences are not modelled:
  - an Attribute element without a Name (Response.java:190);
  - a null text content;
  - `setDestinationUrl(null)`.
- The message of a runtime null dereference is rendered as "null". This is what `StringBuffer.append` writes for a null message. Newer JDKs with detailed null-pointer messages write other text.
- The commented-out InResponseTo check (Response.java:115-118) is not modelled, because the code never uses the attribute.
