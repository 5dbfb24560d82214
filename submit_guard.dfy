/** When the form's submit button is enabled. */
module SubmitGuard {

  /**
   * The characters a JavaScript string trim removes: the WhiteSpace
   * production (tab, vertical tab, form feed, space, no-break space,
   * byte order mark and the other space separators of category Zs) and
   * the LineTerminator production (line feed, carriage return, line and
   * paragraph separators).
   */
  function IsWhitespace(c: char): (ws: bool)
    ensures c as int < 128 ==> (ws <==> c in {'\t', '\n', '\U{000B}', '\U{000C}', '\r', ' '})
    ensures ws ==> !('0' <= c <= '9' || 'a' <= c <= 'z' || 'A' <= c <= 'Z')
  {
    || c == '\t' || c == '\U{000B}' || c == '\U{000C}' || c == ' '
    || c == '\U{00A0}' || c == '\U{FEFF}' || c == '\U{1680}'
    || ('\U{2000}' <= c <= '\U{200A}')
    || c == '\U{202F}' || c == '\U{205F}' || c == '\U{3000}'
    || c == '\n' || c == '\r' || c == '\U{2028}' || c == '\U{2029}'
  }

  /** `s` without its leading whitespace. */
  function TrimStart(s: string): (r: string)
    ensures |r| <= |s| && r == s[|s| - |r|..]
    ensures forall i | 0 <= i < |s| - |r| :: IsWhitespace(s[i])
    ensures r == [] || !IsWhitespace(r[0])
  {
    if s != [] && IsWhitespace(s[0]) then TrimStart(s[1..]) else s
  }

  /** `s` without its trailing whitespace. */
  function TrimEnd(s: string): (r: string)
    ensures |r| <= |s| && r == s[..|r|]
    ensures forall i | |r| <= i < |s| :: IsWhitespace(s[i])
    ensures r == [] || !IsWhitespace(r[|r| - 1])
  {
    if s != [] && IsWhitespace(s[|s| - 1]) then TrimEnd(s[..|s| - 1]) else s
  }

  /** `s` without leading and trailing whitespace; empty exactly when `s` is all whitespace. */
  function Trim(s: string): (r: string)
    ensures r == [] <==> forall i | 0 <= i < |s| :: IsWhitespace(s[i])
  {
    TrimEnd(TrimStart(s))
  }

  /**
   * The submit button is enabled when the trimmed answer is not empty and
   * no submission is in flight: exactly when nothing is in flight and the
   * answer holds some character that is not whitespace.
   */
  function SubmitEnabled(answer: string, isSubmitting: bool): (enabled: bool)
    ensures enabled <==> !isSubmitting && exists i | 0 <= i < |answer| :: !IsWhitespace(answer[i])
  {
    !(Trim(answer) == [] || isSubmitting)
  }
}
