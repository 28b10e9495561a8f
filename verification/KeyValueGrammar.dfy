/**
  The grammar of key-value lines as a function on text: no cursor, no buffer, and escapes
  read by looking one character ahead.
 */
module KeyValueGrammar {
  import opened Wrappers
  import opened CStrings

  datatype Entry = Entry(key: string, value: string)

  predicate IsKeyChar(c: char) {
    IsAlnum(c) || c == '_' || c == '-' || c == '.'
  }

  /** A character a quoted value may hold, apart from the quote itself. */
  predicate IsPrintable(c: char) {
    IsGraph(c) || IsBlank(c)
  }

  function SkipBlanks(s: string): string {
    if s != "" && IsBlank(s[0]) then SkipBlanks(s[1..]) else s
  }

  /** The longest run of key characters, and what follows it. */
  function SpanKey(s: string): (string, string) {
    if s != "" && IsKeyChar(s[0]) then
      var (k, rest) := SpanKey(s[1..]);
      ([s[0]] + k, rest)
    else ("", s)
  }

  /** The longest run of graphic characters, and what follows it. */
  function SpanGraph(s: string): (string, string) {
    if s != "" && IsGraph(s[0]) then
      var (v, rest) := SpanGraph(s[1..]);
      ([s[0]] + v, rest)
    else ("", s)
  }

  /** The unescaped value up to the closing quote, and what follows that quote. */
  function Quoted(s: string): Option<(string, string)> {
    if s == "" then None
    else if s[0] == '"' then Some(("", s[1..]))
    else if s[0] == '\\' && |s| > 1 && s[1] == '"' then Prefixed("\"", Quoted(s[2..]))
    else if IsPrintable(s[0]) then Prefixed([s[0]], Quoted(s[1..]))
    else None
  }

  function Prefixed(p: string, r: Option<(string, string)>): Option<(string, string)> {
    match r
    case None => None
    case Some((v, rest)) => Some((p + v, rest))
  }

  /** Only blanks may follow the value, then a comment or the end of the line. */
  predicate AtEnd(s: string) {
    var r := SkipBlanks(s);
    r == "" || r[0] == '#'
  }

  function Finished(key: string, value: string, rest: string): Option<Entry> {
    if AtEnd(rest) then Some(Entry(key, value)) else None
  }

  /** Everything after the equality sign. */
  function ParseValue(key: string, s: string): Option<Entry> {
    var t := SkipBlanks(s);
    if t != "" && t[0] == '"' then
      match Quoted(t[1..])
      case None => None
      case Some((v, rest)) => Finished(key, v, rest)
    else
      var (v, rest) := SpanGraph(t);
      Finished(key, v, rest)
  }

  /** One line. */
  function Parse(s: string): Option<Entry> {
    var (key, rest) := SpanKey(SkipBlanks(s));
    var t := SkipBlanks(rest);
    if t != "" && t[0] == '=' then ParseValue(key, t[1..]) else None
  }

  // ----- printing and reading back -----

  predicate AllBlank(s: string) {
    forall c | c in s :: IsBlank(c)
  }

  predicate ValidKey(key: string) {
    key != "" && forall c | c in key :: IsKeyChar(c)
  }

  predicate Printable(s: string) {
    forall c | c in s :: IsPrintable(c)
  }

  /** Quotes are escaped, everything else stands for itself. */
  function Escape(v: string): string {
    if v == "" then ""
    else (if v[0] == '"' then "\\\"" else [v[0]]) + Escape(v[1..])
  }

  predicate EndsInBackslash(v: string) {
    v != "" && v[|v| - 1] == '\\'
  }

  lemma {:induction false} SkipBlanksOf(b: string, s: string)
    requires AllBlank(b) && (s == "" || !IsBlank(s[0]))
    ensures SkipBlanks(b + s) == s
  {
    if b == "" {
      assert b + s == s;
    } else {
      assert (b + s)[1..] == b[1..] + s;
      SkipBlanksOf(b[1..], s);
    }
  }

  lemma {:induction false} SpanKeyOf(k: string, s: string)
    requires (forall c | c in k :: IsKeyChar(c)) && (s == "" || !IsKeyChar(s[0]))
    ensures SpanKey(k + s) == (k, s)
  {
    if k == "" {
      assert k + s == s;
    } else {
      assert (k + s)[1..] == k[1..] + s;
      SpanKeyOf(k[1..], s);
      assert [k[0]] + k[1..] == k;
    }
  }

  lemma {:induction false} SpanGraphOf(v: string, s: string)
    requires (forall c | c in v :: IsGraph(c)) && (s == "" || !IsGraph(s[0]))
    ensures SpanGraph(v + s) == (v, s)
  {
    if v == "" {
      assert v + s == s;
    } else {
      assert (v + s)[1..] == v[1..] + s;
      SpanGraphOf(v[1..], s);
      assert [v[0]] + v[1..] == v;
    }
  }

  /** An escaped value is read back, unless its last backslash swallows the closing quote. */
  predicate ReadsBack(v: string, rest: string) {
    var r := Quoted(Escape(v) + "\"" + rest);
    if EndsInBackslash(v) then r.None? || !(v <= r.value.0) else r == Some((v, rest))
  }

  lemma {:induction false} QuotedEscape(v: string, rest: string)
    requires Printable(v)
    ensures !EndsInBackslash(v) ==> Quoted(Escape(v) + "\"" + rest) == Some((v, rest))
    ensures EndsInBackslash(v) ==>
              Quoted(Escape(v) + "\"" + rest).None? ||
              !(v <= Quoted(Escape(v) + "\"" + rest).value.0)
  {
    EscapedReadsBack(v, rest);
  }

  lemma {:induction false} EscapedReadsBack(v: string, rest: string)
    requires Printable(v)
    ensures ReadsBack(v, rest)
  {
    if v == "" {
      assert ("" + "\"" + rest)[1..] == rest;
    } else {
      EscapedReadsBack(v[1..], rest);
      assert v == [v[0]] + v[1..];
      if v[0] == '"' {
        QuoteReadsBack(v[1..], rest);
      } else if v == "\\" {
        BackslashSwallows(rest);
      } else {
        PlainReadsBack(v[0], v[1..], rest);
      }
    }
  }

  lemma QuoteReadsBack(v: string, rest: string)
    requires ReadsBack(v, rest)
    ensures ReadsBack(['"'] + v, rest)
  {
    var more, tail := ['"'] + v, Escape(v) + "\"" + rest;
    assert more[1..] == v;
    assert Escape(more) + "\"" + rest == "\\\"" + tail;
    QuotedQuote(tail);
    assert v == "" ==> more == "\"";
  }

  lemma BackslashSwallows(rest: string)
    ensures ReadsBack("\\", rest)
  {
    assert "\\"[1..] == "";
    assert Escape("\\") + "\"" + rest == "\\\"" + rest;
    QuotedQuote(rest);
  }

  lemma PlainReadsBack(c: char, v: string, rest: string)
    requires c != '"' && IsPrintable(c) && (v == "" ==> c != '\\') && ReadsBack(v, rest)
    ensures ReadsBack([c] + v, rest)
  {
    var more, tail := [c] + v, Escape(v) + "\"" + rest;
    assert more[1..] == v;
    assert Escape(more) + "\"" + rest == [c] + tail;
    assert tail[0] != '"' || c != '\\' by {
      if v != "" { assert tail[0] == Escape(v)[0] != '"'; }
    }
    QuotedPlain(c, tail);
  }

  lemma QuotedQuote(tail: string)
    ensures Quoted("\\\"" + tail) == Prefixed("\"", Quoted(tail))
  {
    var s := "\\\"" + tail;
    assert s[0] == '\\' && s[1] == '"' && s[2..] == tail;
  }

  lemma QuotedPlain(c: char, tail: string)
    requires c != '"' && IsPrintable(c) && tail != "" && (c != '\\' || tail[0] != '"')
    ensures Quoted([c] + tail) == Prefixed([c], Quoted(tail))
  {
    var s := [c] + tail;
    assert s[0] == c && s[1] == tail[0] && s[1..] == tail;
  }

  /** A printed entry: any blanks around the tokens, and perhaps a comment. */
  function Line(key: string, b: seq<string>, value: string, tail: string): string
    requires |b| == 4
  {
    b[0] + key + b[1] + "=" + b[2] + value + b[3] + tail
  }

  predicate Blanks(b: seq<string>) {
    |b| == 4 && forall i | 0 <= i < 4 :: AllBlank(b[i])
  }

  lemma AtEndOf(b: string, tail: string)
    requires AllBlank(b) && (tail == "" || tail[0] == '#')
    ensures AtEnd(b + tail)
  {
    SkipBlanksOf(b, tail);
  }

  lemma ParseLine(key: string, b: seq<string>, value: string, tail: string)
    requires ValidKey(key) && Blanks(b)
    requires value != "" && !IsBlank(value[0])
    ensures Parse(Line(key, b, value, tail)) == ParseValue(key, value + (b[3] + tail))
  {
    var s := value + (b[3] + tail);
    var s2 := b[1] + ("=" + (b[2] + s));
    assert Line(key, b, value, tail) == b[0] + (key + s2);
    assert key[0] in key && IsKeyChar(key[0]);
    SkipBlanksOf(b[0], key + s2);
    assert !IsKeyChar(s2[0]) by {
      if b[1] != "" { assert s2[0] == b[1][0] && b[1][0] in b[1]; }
    }
    SpanKeyOf(key, s2);
    SkipBlanksOf(b[1], "=" + (b[2] + s));
    assert ("=" + (b[2] + s))[1..] == b[2] + s;
    SkipBlanksOf(b[2], s);
    SkipBlanksOf("", s);
    assert "" + s == s;
  }

  /** Only printable text is ever read as a quoted value. */
  lemma {:induction false} QuotedIsPrintable(s: string)
    ensures Quoted(s).Some? ==> Printable(Quoted(s).value.0)
  {
    if s == "" || s[0] == '"' {
    } else if s[0] == '\\' && |s| > 1 && s[1] == '"' {
      QuotedIsPrintable(s[2..]);
    } else if IsPrintable(s[0]) {
      QuotedIsPrintable(s[1..]);
    }
  }

  /**
    A quoted value survives printing and parsing exactly when it does not end in a
    backslash, whatever quotes, comment signs and inner backslashes it holds.
   */
  lemma QuotedRoundTrip(key: string, b: seq<string>, value: string, tail: string)
    requires ValidKey(key) && Blanks(b)
    requires tail == "" || tail[0] == '#'
    ensures Parse(Line(key, b, "\"" + Escape(value) + "\"", tail)) == Some(Entry(key, value))
            <==> Printable(value) && !EndsInBackslash(value)
  {
    var rest := b[3] + tail;
    var text := "\"" + Escape(value) + "\"";
    ParseLine(key, b, text, tail);
    assert (text + rest)[1..] == Escape(value) + "\"" + rest;
    if Printable(value) {
      QuotedEscape(value, rest);
    }
    QuotedIsPrintable(Escape(value) + "\"" + rest);
    AtEndOf(b[3], tail);
    assert SkipBlanks(text + rest) == text + rest;
  }

  /** An unquoted value of graphic characters is read as it stands; a comment needs a blank before it. */
  lemma PlainRoundTrip(key: string, b: seq<string>, value: string, tail: string)
    requires ValidKey(key) && Blanks(b)
    requires value != "" && (forall c | c in value :: IsGraph(c)) && value[0] != '"'
    requires tail == "" || (tail[0] == '#' && b[3] != "")
    ensures Parse(Line(key, b, value, tail)) == Some(Entry(key, value))
  {
    var rest := b[3] + tail;
    assert value[0] in value;
    ParseLine(key, b, value, tail);
    assert rest != "" ==> IsBlank(rest[0]) by {
      if b[3] != "" { assert rest[0] == b[3][0]; }
    }
    SpanGraphOf(value, rest);
    AtEndOf(b[3], tail);
    assert SkipBlanks(value + rest) == value + rest;
  }
}
