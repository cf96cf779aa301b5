/** An already-parsed SAML 2.0 Response, reduced to what the Response class
    reads from its DOM. Every list is what `getElementsByTagNameNS` returns over
    the WHOLE document, in document order: nothing ties an Audience, a
    SubjectConfirmation, a NameID or an Attribute to the one Assertion. */
module SamlDocument {
  import opened Wrappers

  /** The status of the Response: its code and message, each possibly absent. */
  datatype Status = Status(code: Option<string>, message: Option<string>)

  /** An Assertion element; only its count is checked, its ID is never read. */
  datatype Assertion = Assertion(id: Option<string>)

  /** A Signature element anywhere in the document, with the URI of the element
      its Reference claims to cover. */
  datatype Signature = Signature(referenceUri: string)

  /** The first child node of an Audience element, as `getChildNodes().item(0)`
      sees it: missing (null), a node with a value (text, CDATA or comment), or
      an element, whose `getNodeValue()` is null. */
  datatype AudienceHead = NoChild | ValueChild(value: string) | ElementChild

  /** The attributes read from a SubjectConfirmationData element; times are
      already-parsed instants on one integer clock. */
  datatype ConfirmationAttributes = ConfirmationAttributes(
    recipient: Option<string>,
    notOnOrAfter: Option<int>,
    notBefore: Option<int>)

  /** A child node of a SubjectConfirmation: an element (with its local name and
      the attributes above) or a text node, whose local name is null. */
  datatype ConfirmationChild =
    | Element(localName: string, attributes: ConfirmationAttributes)
    | TextNode

  /** A SubjectConfirmation element: its Method attribute and its child nodes. */
  datatype Confirmation = Confirmation(confirmationMethod: Option<string>, children: seq<ConfirmationChild>)

  /** An Attribute element: its Name and the text content of each child node. */
  datatype Attribute = Attribute(name: string, values: seq<string>)

  datatype Document = Document(
    version: Option<string>,
    id: Option<string>,
    destination: Option<string>,
    status: Status,
    assertions: seq<Assertion>,
    signatures: seq<Signature>,
    audiences: seq<AudienceHead>,
    confirmations: seq<Confirmation>,
    nameIds: seq<string>,
    attributes: seq<Attribute>)

  /** DOM `Element.getAttribute`: the empty string when the attribute is absent,
      never null. */
  function AttributeText(a: Option<string>): (r: string)
    ensures a.Some? ==> r == a.value
    ensures a.None? ==> r == ""
  {
    a.GetOr("")
  }
}
