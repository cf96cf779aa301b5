/** `Response.checkStatus`: a non-success status code becomes an exception whose
    message names the fragment of the code after its last ':'. */
module Status {
  import opened Wrappers
  import opened Exceptions
  import opened SamlDocument

  /** The success status URI of SAML 2.0 (Constants.STATUS_SUCCESS). */
  const SUCCESS := "urn:oasis:names:tc:SAML:2.0:status:Success"

  const NOT_SUCCESS := "The status code of the Response was not Success, was "

  /** `s.lastIndexOf(c)`: the largest index holding `c`, or -1 when there is none. */
  function LastIndexOf(s: string, c: char): (r: int)
    ensures -1 <= r < |s|
    ensures r >= 0 ==> s[r] == c
    ensures forall k :: r < k < |s| ==> s[k] != c
    decreases |s|
  {
    if s == [] then -1
    else if s[|s| - 1] == c then |s| - 1
    else LastIndexOf(s[..|s| - 1], c)
  }

  /** `code.substring(code.lastIndexOf(':') + 1)`: the part of the code after its
      last ':', or the whole code when it has none. */
  function Fragment(code: string): (r: string)
    ensures ':' !in r
    ensures exists p :: code == p + r && (p == [] || p[|p| - 1] == ':')
  {
    var i := LastIndexOf(code, ':');
    var p, r := code[..i + 1], code[i + 1..];
    assert code == p + r;
    assert p == [] || p[|p| - 1] == ':';
    assert forall k :: 0 <= k < |r| ==> r[k] == code[i + 1 + k];
    r
  }

  /** Java's rendering of a boolean in string concatenation. */
  function BoolText(b: bool): string {
    if b then "true" else "false"
  }

  /** The message thrown for a non-success code. As written, it appends the
      boolean `containsKey("msg")`, not the message itself. */
  function NotSuccessMessage(code: string, message: Option<string>): string {
    NOT_SUCCESS + Fragment(code) + (if message.Some? then " -> " + BoolText(message.Some?) else "")
  }

  /** `checkStatus()`: returns the status when it has no code or the success
      code, and throws otherwise. */
  function CheckStatus(s: Status): (r: Outcome<Status>)
    ensures r.Returned? <==> s.code.None? || s.code.value == SUCCESS
    ensures r.Returned? ==> r.value == s
    ensures r.Threw? ==> r.exception.Exception? && |NOT_SUCCESS| <= |r.exception.message|
                         && r.exception.message[..|NOT_SUCCESS|] == NOT_SUCCESS
  {
    if s.code.Some? && s.code.value != SUCCESS then
      Threw(Exception(NotSuccessMessage(s.code.value, s.message)))
    else
      Returned(s)
  }

  /** In a code split as `p + r`, with `r` free of ':' and `p` empty or ending
      in ':', the last ':' is the last character of `p`. */
  lemma LastColonOfSplit(p: string, r: string)
    requires ':' !in r
    requires p == [] || p[|p| - 1] == ':'
    ensures LastIndexOf(p + r, ':') == |p| - 1
  {
    var code := p + r;
    var i := LastIndexOf(code, ':');
    assert forall k :: |p| <= k < |code| ==> code[k] == r[k - |p|];
    assert i < |p|;
    assert p != [] ==> code[|p| - 1] == ':';
  }

  /** The fragment is determined by its two properties: it is the ':'-free
      suffix that starts the code or follows a ':'. */
  lemma FragmentUnique(code: string, p: string, r: string)
    requires code == p + r
    requires ':' !in r
    requires p == [] || p[|p| - 1] == ':'
    ensures Fragment(code) == r
  {
    LastColonOfSplit(p, r);
    assert code[|p|..] == r;
  }

  /** For a full status URI the message names its last component. */
  lemma RequesterFragment()
    ensures Fragment("urn:oasis:names:tc:SAML:2.0:status:Requester") == "Requester"
  {
  }

  /** A code without ':' is named whole. */
  lemma FragmentOfPlainCode(code: string)
    requires ':' !in code
    ensures Fragment(code) == code
  {
  }

  /** The failure message of a non-success status, in full: the message text
      never appears, only the flag "true" when a message is present. */
  lemma NotSuccessText(code: string, message: Option<string>)
    requires code != SUCCESS
    ensures CheckStatus(Status(Some(code), message))
         == Threw(Exception(NOT_SUCCESS + Fragment(code) + (if message.Some? then " -> true" else "")))
  {
    assert " -> " + BoolText(true) == " -> true";
  }

  /** Two statuses that differ only in their message text fail identically:
      the text has no influence on what is reported. */
  lemma MessageTextIgnored(code: string, m1: string, m2: string)
    requires code != SUCCESS
    ensures CheckStatus(Status(Some(code), Some(m1))) == CheckStatus(Status(Some(code), Some(m2)))
  {
  }
}
