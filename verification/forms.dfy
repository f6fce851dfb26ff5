/**
 * The JavaScript semantics that the route handlers use to validate form
 * fields: falsiness of an optional string and `String.prototype.trim`.
 */
module Forms {
  import opened Wrappers

  /** A character that `trim` removes: the WhiteSpace and LineTerminator
      code points of ECMA-262 (section 12.2 and 12.3 of the 2023 edition). */
  predicate IsSpace(c: char)
  {
    || c == '\t' || c == '\U{000B}' || c == '\U{000C}' || c == ' '
    || c == '\U{00A0}' || c == '\U{FEFF}' || c == '\U{1680}'
    || ('\U{2000}' <= c <= '\U{200A}')
    || c == '\U{202F}' || c == '\U{205F}' || c == '\U{3000}'
    || c == '\n' || c == '\r' || c == '\U{2028}' || c == '\U{2029}'
  }

  /** Every character of `s` is one that `trim` removes. */
  predicate Blank(s: string)
  {
    forall i :: 0 <= i < |s| ==> IsSpace(s[i])
  }

  /** Drops leading spaces: the result is the suffix of `s` that starts at
      the first non-space character. */
  function TrimStart(s: string): (r: string)
    ensures |r| <= |s| && r == s[|s| - |r|..]
    ensures forall i :: 0 <= i < |s| - |r| ==> IsSpace(s[i])
    ensures |r| > 0 ==> !IsSpace(r[0])
    decreases |s|
  {
    if |s| > 0 && IsSpace(s[0]) then TrimStart(s[1..]) else s
  }

  /** Drops trailing spaces: the result is the prefix of `s` that ends at
      the last non-space character. */
  function TrimEnd(s: string): (r: string)
    ensures |r| <= |s| && r == s[..|r|]
    ensures forall i :: |r| <= i < |s| ==> IsSpace(s[i])
    ensures |r| > 0 ==> !IsSpace(r[|r| - 1])
    decreases |s|
  {
    if |s| > 0 && IsSpace(s[|s| - 1]) then TrimEnd(s[..|s| - 1]) else s
  }

  /** `s.trim()`: empty exactly when `s` consists of spaces only, and
      otherwise starting and ending with a character that is not a space. */
  function Trim(s: string): (r: string)
    ensures r == "" <==> Blank(s)
    ensures |r| > 0 ==> !IsSpace(r[0]) && !IsSpace(r[|r| - 1])
    ensures |r| <= |s|
  {
    var t := TrimStart(s);
    var r := TrimEnd(t);
    assert |r| > 0 ==> r[0] == t[0] == s[|s| - |t|];
    assert r == "" ==> t == "";
    r
  }

  /** JavaScript truthiness of an optional form field: present and not "". */
  predicate Truthy(field: Option<string>)
  {
    field.Some? && field.value != ""
  }

  /** `!content || !content.trim()`: true exactly for an absent field and a
      field made of spaces only (the empty string included). */
  function MissingOrBlank(field: Option<string>): (r: bool)
    ensures r <==> field.None? || Blank(field.value)
  {
    !Truthy(field) || Trim(field.value) == ""
  }
}
