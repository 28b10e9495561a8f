/** NUL-terminated strings and the character classes of the C locale. */
module CStrings {
  const NUL := '\0'

  /** The text up to the first NUL. */
  function CString(s: string): (r: string)
    ensures NUL !in r && (r == s <==> NUL !in s)
  {
    if s == "" || s[0] == NUL then "" else [s[0]] + CString(s[1..])
  }

  lemma {:induction false} CStringStops(text: string, rest: string)
    requires NUL !in text
    ensures CString(text + [NUL] + rest) == text
  {
    if text != "" {
      assert (text + [NUL] + rest)[1..] == text[1..] + [NUL] + rest;
      CStringStops(text[1..], rest);
    }
  }

  /** strcmp(a, b) < 0. */
  predicate TextLess(a: string, b: string) {
    if b == "" then false
    else if a == "" then true
    else if a[0] != b[0] then a[0] < b[0]
    else TextLess(a[1..], b[1..])
  }

  predicate IsAlnum(c: char) {
    '0' <= c <= '9' || 'A' <= c <= 'Z' || 'a' <= c <= 'z'
  }

  predicate IsBlank(c: char) {
    c == ' ' || c == '\t'
  }

  predicate IsGraph(c: char) {
    '!' <= c <= '~'
  }

  predicate IsSpace(c: char) {
    c == ' ' || '\t' <= c <= '\r'
  }
}
