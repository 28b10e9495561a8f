/**
  Exactly which lines the key-value grammar accepts, and as what: the shape of a line over
  its characters, without any recursion of the parser's.
 */
module KeyValueLines {
  import opened Wrappers
  import opened CStrings
  import opened KeyValueGrammar

  // ----- the alphabets -----

  /** Keys consist of letters, digits, underscores, dashes and dots; blanks are spaces and tabs. */
  lemma Alphabets(c: char)
    ensures IsKeyChar(c) <==>
            'a' <= c <= 'z' || 'A' <= c <= 'Z' || '0' <= c <= '9' || c == '_' || c == '-' || c == '.'
    ensures IsBlank(c) <==> c == ' ' || c == '\t'
    ensures IsGraph(c) <==> 33 <= c as int <= 126
    ensures IsPrintable(c) <==> 32 <= c as int <= 126 || c == '\t'
  {
  }

  // ----- the shape of a line -----

  /** Blanks, the key, blanks, an equality sign. */
  predicate KeyForm(s: string, key: string, b0: string, b1: string, behind: string) {
    s == b0 + (key + (b1 + ("=" + behind))) && AllBlank(b0) && AllBlank(b1) && forall c | c in key :: IsKeyChar(c)
  }

  /** Blanks, and behind them a comment or the end of the line. */
  predicate EndForm(s: string, b: string, tail: string) {
    s == b + tail && AllBlank(b) && (tail == "" || tail[0] == '#')
  }

  /** A printable value in quotes, its quotes escaped, that does not end in a backslash. */
  predicate QuotedForm(s: string, value: string, b2: string, rest: string) {
    s == b2 + ("\"" + (Escape(value) + "\"" + rest)) && AllBlank(b2) && Printable(value) && !EndsInBackslash(value)
  }

  /** A value of graphic characters that starts with no quote and ends where no graphic character follows. */
  predicate PlainForm(s: string, value: string, b2: string, rest: string) {
    && s == b2 + (value + rest) && AllBlank(b2) && (forall c | c in value :: IsGraph(c))
    && (value != "" ==> value[0] != '"')
    && (if value == "" then rest == "" else rest == "" || !IsGraph(rest[0]))
  }

  ghost predicate ValueForm(s: string, value: string) {
    exists b2, rest, b3, tail ::
      (QuotedForm(s, value, b2, rest) || PlainForm(s, value, b2, rest)) && EndForm(rest, b3, tail)
  }

  ghost predicate LineForm(s: string, e: Entry) {
    exists b0, b1, behind :: KeyForm(s, e.key, b0, b1, behind) && ValueForm(behind, e.value)
  }

  // ----- taking a line apart -----

  lemma {:induction false} SkipSplits(s: string) returns (b: string)
    ensures AllBlank(b) && s == b + SkipBlanks(s)
    ensures SkipBlanks(s) == "" || !IsBlank(SkipBlanks(s)[0])
  {
    if s != "" && IsBlank(s[0]) {
      var rest := SkipSplits(s[1..]);
      b := [s[0]] + rest;
      assert s == [s[0]] + s[1..];
    } else {
      b := "";
    }
  }

  lemma {:induction false} KeySplits(s: string)
    ensures var (k, rest) := SpanKey(s);
            s == k + rest && (forall c | c in k :: IsKeyChar(c)) && (rest == "" || !IsKeyChar(rest[0]))
  {
    if s != "" && IsKeyChar(s[0]) {
      KeySplits(s[1..]);
      assert s == [s[0]] + s[1..];
    }
  }

  lemma {:induction false} GraphSplits(s: string)
    ensures var (v, rest) := SpanGraph(s);
            s == v + rest && (forall c | c in v :: IsGraph(c)) && (rest == "" || !IsGraph(rest[0]))
  {
    if s != "" && IsGraph(s[0]) {
      GraphSplits(s[1..]);
      assert s == [s[0]] + s[1..];
    }
  }

  /** Whatever is read as a quoted value was its escaped form and a closing quote. */
  lemma {:induction false} QuotedSplits(s: string)
    requires Quoted(s).Some?
    ensures var (v, rest) := Quoted(s).value;
            s == Escape(v) + "\"" + rest && Printable(v) && !EndsInBackslash(v)
  {
    if s[0] == '"' {
      assert s == "" + "\"" + s[1..];
    } else if s[0] == '\\' && |s| > 1 && s[1] == '"' {
      QuotedSplits(s[2..]);
      var (v, rest) := Quoted(s[2..]).value;
      assert s == "\\\"" + s[2..];
      Longer('"', v, rest);
    } else {
      QuotedSplits(s[1..]);
      var (v, rest) := Quoted(s[1..]).value;
      assert s == [s[0]] + s[1..];
      assert v == "" ==> s[1..][0] == '"';
      Longer(s[0], v, rest);
    }
  }

  /** One more character in front of a quoted value. */
  lemma Longer(c: char, v: string, rest: string)
    requires Printable(v) && !EndsInBackslash(v) && IsPrintable(c) && (v == "" ==> c != '\\')
    ensures Escape([c] + v) + "\"" + rest == (if c == '"' then "\\\"" else [c]) + (Escape(v) + "\"" + rest)
    ensures Printable([c] + v) && !EndsInBackslash([c] + v)
  {
    assert ([c] + v)[1..] == v;
  }

  /** A line that parses has a key in front, and the rest parses as its value. */
  lemma KeyApart(s: string) returns (b0: string, b1: string, behind: string)
    requires Parse(s).Some?
    ensures KeyForm(s, Parse(s).value.key, b0, b1, behind)
    ensures Parse(s) == ParseValue(Parse(s).value.key, behind)
  {
    b0 := SkipSplits(s);
    KeySplits(SkipBlanks(s));
    var (key, rest) := SpanKey(SkipBlanks(s));
    b1 := SkipSplits(rest);
    var t := SkipBlanks(rest);
    behind := t[1..];
    assert t == "=" + behind;
  }

  lemma KeyTogether(s: string, key: string, b0: string, b1: string, behind: string)
    requires KeyForm(s, key, b0, b1, behind)
    ensures Parse(s) == ParseValue(key, behind)
  {
    var sign := "=" + behind;
    var t := b1 + sign;
    assert sign[1..] == behind;
    SkipBlanksOf(b1, sign);
    if key == "" {
      assert s == (b0 + b1) + sign && key + t == t;
      SkipBlanksOf(b0 + b1, sign);
      SpanKeyOf("", sign);
      assert "" + sign == sign;
      SkipBlanksOf("", sign);
    } else {
      assert key[0] in key;
      SkipBlanksOf(b0, key + t);
      assert !IsKeyChar(t[0]) by {
        if b1 != "" { assert t[0] == b1[0] && b1[0] in b1; }
      }
      SpanKeyOf(key, t);
    }
  }

  /** The end of a line. */
  lemma EndExactly(s: string)
    ensures AtEnd(s) <==> exists b, tail :: EndForm(s, b, tail)
  {
    var b := SkipSplits(s);
    if AtEnd(s) {
      assert EndForm(s, b, SkipBlanks(s));
    }
    if b, tail :| EndForm(s, b, tail) {
      SkipBlanksOf(b, tail);
    }
  }

  lemma ValueApart(key: string, s: string, value: string)
    requires ParseValue(key, s) == Some(Entry(key, value))
    ensures ValueForm(s, value)
  {
    var b2 := SkipSplits(s);
    var t := SkipBlanks(s);
    if t != "" && t[0] == '"' {
      QuotedSplits(t[1..]);
      var rest := Quoted(t[1..]).value.1;
      EndExactly(rest);
      var b3, tail :| EndForm(rest, b3, tail);
      assert t == "\"" + t[1..];
      assert QuotedForm(s, value, b2, rest);
    } else {
      GraphSplits(t);
      var rest := SpanGraph(t).1;
      EndExactly(rest);
      var b3, tail :| EndForm(rest, b3, tail);
      if value == "" {
        assert rest == t && SkipBlanks(t) == t;
        assert t == "";
      }
      assert PlainForm(s, value, b2, rest);
    }
  }

  lemma ValueTogether(key: string, s: string, value: string)
    requires ValueForm(s, value)
    ensures ParseValue(key, s) == Some(Entry(key, value))
  {
    var b2, rest, b3, tail :|
      (QuotedForm(s, value, b2, rest) || PlainForm(s, value, b2, rest)) && EndForm(rest, b3, tail);
    EndExactly(rest);
    if QuotedForm(s, value, b2, rest) {
      var t := "\"" + (Escape(value) + "\"" + rest);
      SkipBlanksOf(b2, t);
      QuotedEscape(value, rest);
      assert t[1..] == Escape(value) + "\"" + rest;
    } else {
      assert value != "" ==> value[0] in value && (value + rest)[0] == value[0];
      SkipBlanksOf(b2, value + rest);
      SpanGraphOf(value, rest);
    }
  }

  /** A line is accepted as an entry if and only if it has the entry's shape. */
  lemma ParsesExactly(s: string, e: Entry)
    ensures Parse(s) == Some(e) <==> LineForm(s, e)
  {
    if Parse(s) == Some(e) {
      var b0, b1, behind := KeyApart(s);
      ValueApart(e.key, behind, e.value);
    }
    if LineForm(s, e) {
      var b0, b1, behind :| KeyForm(s, e.key, b0, b1, behind) && ValueForm(behind, e.value);
      KeyTogether(s, e.key, b0, b1, behind);
      ValueTogether(e.key, behind, e.value);
    }
  }

  /** Text behind a closing quote, other than a comment, makes a line unacceptable. */
  lemma TextBehindRefused(key: string, b: seq<string>, value: string, behind: string)
    requires ValidKey(key) && Blanks(b) && Printable(value) && !EndsInBackslash(value)
    requires behind != "" && behind[0] != '#' && !IsBlank(behind[0])
    ensures Parse(Line(key, b, "\"" + Escape(value) + "\"", behind)).None?
  {
    var rest := b[3] + behind;
    var text := "\"" + Escape(value) + "\"";
    ParseLine(key, b, text, behind);
    assert (text + rest)[1..] == Escape(value) + "\"" + rest;
    QuotedEscape(value, rest);
    SkipBlanksOf(b[3], behind);
    assert SkipBlanks(text + rest) == text + rest;
  }

  /** So does a line without an equality sign, and one with a character no key can hold before it. */
  lemma NoEntryRefused(s: string)
    requires forall k | 0 <= k < |s| && s[k] == '=' :: exists j | 0 <= j < k :: !IsKeyChar(s[j]) && !IsBlank(s[j])
    ensures Parse(s).None?
  {
    if Parse(s).Some? {
      SignBehindKey(s);
    }
  }

  /** In a line that parses an equality sign has only key characters and blanks before it. */
  lemma SignBehindKey(s: string)
    requires Parse(s).Some?
    ensures exists k | 0 <= k < |s| :: s[k] == '=' && forall j | 0 <= j < k :: IsKeyChar(s[j]) || IsBlank(s[j])
  {
    var b0, b1, behind := KeyApart(s);
    var front := b0 + Parse(s).value.key + b1;
    assert s == front + ("=" + behind);
    assert s[|front|] == '=';
    forall j | 0 <= j < |front| ensures IsKeyChar(s[j]) || IsBlank(s[j]) {
      assert s[j] == front[j];
      assert front[j] in b0 || front[j] in Parse(s).value.key || front[j] in b1;
    }
  }
}
