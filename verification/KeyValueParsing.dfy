/**
  The key-value parser as it runs: a state machine with a cursor over a character buffer,
  which removes escapes by moving the rest of the buffer under its own cursor.
 */
module KeyValueParsing {
  import opened Wrappers
  import opened CStrings
  import opened KeyValueGrammar

  datatype State = Null | Ws | KeyPart | Equal | BeginQuote | ValuePart | EndQuote | Finish | Success | Fail

  const NULLPTR := -1

  /** The order in which the tokens have to follow each other. */
  function StateAt(idx: int): State
    requires 0 <= idx < 10
  {
    match idx
    case 0 => Ws
    case 1 => KeyPart
    case 2 => Ws
    case 3 => Equal
    case 4 => Ws
    case 5 => BeginQuote
    case 6 => ValuePart
    case 7 => EndQuote
    case 8 => Ws
    case 9 => Finish
  }

  // ----- the same machine without the buffer -----

  /** A parser's view of the line: the text stored so far and the text left. */
  datatype View =
    | At(idx: nat, quoted: bool, key: string, value: string, rest: string)
    | Accepted(key: string, value: string)
    | Rejected
  {
    predicate Running() {
      At? && idx < 10 && (quoted ==> idx >= 6)
    }
  }

  function Onward(v: View): View
    requires v.Running()
  {
    v.(idx := v.idx + 1)
  }

  function StepWs(v: View): View
    requires v.Running()
  {
    if v.rest != "" && IsBlank(v.rest[0]) then v.(rest := v.rest[1..]) else Onward(v)
  }

  function StepKey(v: View): View
    requires v.Running()
  {
    if v.rest != "" && IsKeyChar(v.rest[0]) then v.(key := v.key + [v.rest[0]], rest := v.rest[1..]) else Onward(v)
  }

  function StepEqual(v: View): View
    requires v.Running()
  {
    if v.rest != "" && v.rest[0] == '=' then v.(idx := v.idx + 1, rest := v.rest[1..]) else Rejected
  }

  function StepBeginQuote(v: View): View
    requires v.Running()
  {
    if v.rest != "" && v.rest[0] == '"' then v.(idx := v.idx + 1, quoted := true, rest := v.rest[1..]) else Onward(v)
  }

  /** In quotes, a quote behind a stored backslash replaces that backslash. */
  function StepValue(v: View): View
    requires v.Running()
  {
    if v.rest == "" then Onward(v)
    else
      var c, rest := v.rest[0], v.rest[1..];
      if v.quoted && c == '"' && EndsInBackslash(v.value) then
        v.(value := v.value[..|v.value| - 1] + [c], rest := rest)
      else if (if v.quoted then c != '"' && IsPrintable(c) else IsGraph(c)) then
        v.(value := v.value + [c], rest := rest)
      else Onward(v)
  }

  function StepEndQuote(v: View): View
    requires v.Running()
  {
    if v.quoted != (v.rest != "" && v.rest[0] == '"') then Rejected
    else if v.quoted then v.(idx := v.idx + 1, rest := v.rest[1..])
    else Onward(v)
  }

  function StepFinish(v: View): View
    requires v.Running()
  {
    if v.rest == "" || v.rest[0] == '#' then Accepted(v.key, v.value) else Rejected
  }

  /** One step of the machine. */
  function Step(v: View): View
    requires v.Running()
  {
    match StateAt(v.idx)
    case Ws => StepWs(v)
    case KeyPart => StepKey(v)
    case Equal => StepEqual(v)
    case BeginQuote => StepBeginQuote(v)
    case ValuePart => StepValue(v)
    case EndQuote => StepEndQuote(v)
    case Finish => StepFinish(v)
  }

  // ----- what a machine in the middle of a line still has to accept -----

  ghost function AfterKey(key: string, s: string): Option<Entry> {
    var t := SkipBlanks(s);
    if t != "" && t[0] == '=' then ParseValue(key, t[1..]) else None
  }

  /** The quoted rest, where a backslash already stored may still turn out to be an escape. */
  ghost function QuotedFrom(value: string, s: string): Option<(string, string)> {
    if EndsInBackslash(value) then Prefixed(value[..|value| - 1], Quoted("\\" + s))
    else Prefixed(value, Quoted(s))
  }

  ghost function Closed(key: string, r: Option<(string, string)>): Option<Entry> {
    match r
    case None => None
    case Some((v, rest)) => Finished(key, v, rest)
  }

  ghost function PlainFrom(key: string, value: string, s: string): Option<Entry> {
    var (v, rest) := SpanGraph(s);
    Finished(key, value + v, rest)
  }

  /** What the parse will have found in the end. */
  ghost function Meaning(v: View): Option<Entry>
    requires v.At? ==> v.Running()
  {
    match v
    case Rejected => None
    case Accepted(key, value) => Some(Entry(key, value))
    case At(idx, quoted, key, value, s) =>
      var more := s != "";
      match idx
      case 0 => var (k, rest) := SpanKey(SkipBlanks(s)); AfterKey(key + k, rest)
      case 1 => var (k, rest) := SpanKey(s); AfterKey(key + k, rest)
      case 2 => AfterKey(key, s)
      case 3 => if more && s[0] == '=' then ParseValue(key, s[1..]) else None
      case 4 => ParseValue(key, s)
      case 5 =>
        if more && s[0] == '"' then Closed(key, QuotedFrom(value, s[1..])) else PlainFrom(key, value, s)
      case 6 => if quoted then Closed(key, QuotedFrom(value, s)) else PlainFrom(key, value, s)
      case 7 =>
        if quoted != (more && s[0] == '"') then None
        else Finished(key, value, if quoted then s[1..] else s)
      case 8 => Finished(key, value, s)
      case _ => if !more || s[0] == '#' then Some(Entry(key, value)) else None
  }

  lemma PrefixedNothing(r: Option<(string, string)>)
    ensures Prefixed("", r) == r
  {
    if r.Some? {
      assert "" + r.value.0 == r.value.0;
    }
  }

  lemma PrefixedTwice(p: string, q: string, r: Option<(string, string)>)
    ensures Prefixed(p, Prefixed(q, r)) == Prefixed(p + q, r)
  {
    if r.Some? {
      assert p + (q + r.value.0) == (p + q) + r.value.0;
    }
  }

  /** A stored backslash followed by a quote is one quote. */
  lemma QuotedUnescapes(value: string, tail: string)
    requires EndsInBackslash(value)
    ensures QuotedFrom(value, "\"" + tail) == QuotedFrom(value[..|value| - 1] + "\"", tail)
  {
    var s := "\\" + ("\"" + tail);
    assert s[2..] == tail;
    PrefixedTwice(value[..|value| - 1], "\"", Quoted(tail));
  }

  lemma QuotedCloses(value: string, tail: string)
    requires !EndsInBackslash(value)
    ensures QuotedFrom(value, "\"" + tail) == Some((value, tail))
  {
    assert ("\"" + tail)[1..] == tail;
    assert value + "" == value;
  }

  lemma QuotedAdvances(value: string, c: char, tail: string)
    requires IsPrintable(c) && c != '"'
    ensures QuotedFrom(value, [c] + tail) == QuotedFrom(value + [c], tail)
  {
    var s := [c] + tail;
    assert s[1..] == tail;
    assert (value + [c])[..|value|] == value;
    if EndsInBackslash(value) {
      var front := value[..|value| - 1];
      assert value == front + "\\";
      assert ("\\" + s)[1..] == s;
      PrefixedTwice(front, "\\", Quoted(s));
    }
    if c == '\\' {
      assert "\\" + tail == s;
    } else {
      PrefixedTwice(value, [c], Quoted(tail));
    }
  }

  lemma QuotedStops(value: string, s: string)
    requires s == "" || (s[0] != '"' && !IsPrintable(s[0]))
    ensures QuotedFrom(value, s).None?
  {
    assert ("\\" + s)[1..] == s;
    assert Quoted(s).None?;
  }

  lemma QuotedStepKeepsMeaning(v: View)
    requires v.Running() && v.idx == 6 && v.quoted
    ensures Meaning(Step(v)) == Meaning(v)
  {
    var s := v.rest;
    if s != "" && s[0] == '"' {
      assert s == "\"" + s[1..];
      if EndsInBackslash(v.value) {
        QuotedUnescapes(v.value, s[1..]);
      } else {
        QuotedCloses(v.value, s[1..]);
      }
    } else if s != "" && IsPrintable(s[0]) {
      assert s == [s[0]] + s[1..];
      QuotedAdvances(v.value, s[0], s[1..]);
    } else {
      QuotedStops(v.value, s);
    }
  }

  lemma PlainStepKeepsMeaning(v: View)
    requires v.Running() && v.idx == 6 && !v.quoted
    ensures Meaning(Step(v)) == Meaning(v)
  {
    var s := v.rest;
    if s != "" && IsGraph(s[0]) {
      assert (v.value + [s[0]]) + SpanGraph(s[1..]).0 == v.value + ([s[0]] + SpanGraph(s[1..]).0);
    } else {
      assert v.value + "" == v.value;
    }
  }

  lemma KeyStepKeepsMeaning(v: View)
    requires v.Running() && v.idx <= 1
    ensures Meaning(Step(v)) == Meaning(v)
  {
    var s := v.rest;
    if v.idx == 1 {
      if s != "" && IsKeyChar(s[0]) {
        assert (v.key + [s[0]]) + SpanKey(s[1..]).0 == v.key + ([s[0]] + SpanKey(s[1..]).0);
      } else {
        assert v.key + "" == v.key;
      }
    }
  }

  /** At idx 5 nothing of the value has been stored yet. */
  predicate Fresh(v: View) {
    v.At? && v.idx <= 5 ==> v.value == ""
  }

  lemma ValueStartKeepsMeaning(v: View)
    requires v.Running() && (v.idx == 4 || v.idx == 5) && Fresh(v)
    ensures Meaning(Step(v)) == Meaning(v)
  {
    var s := v.rest;
    if v.idx == 4 && s != "" && !IsBlank(s[0]) {
      PrefixedNothing(Quoted(s[1..]));
    }
    if v.idx == 4 {
      assert "" + SpanGraph(s).0 == SpanGraph(s).0;
    }
  }

  lemma MeaningAtStart(s: string)
    ensures Meaning(At(0, false, "", "", s)) == Parse(s)
  {
    var k := SpanKey(SkipBlanks(s)).0;
    assert "" + k == k;
  }

  /** No step changes what the parse will have found. */
  lemma StepKeepsMeaning(v: View)
    requires v.Running() && Fresh(v)
    ensures Step(v).At? ==> Step(v).Running()
    ensures Fresh(Step(v)) && Meaning(Step(v)) == Meaning(v)
  {
    if v.idx <= 1 {
      KeyStepKeepsMeaning(v);
    } else if v.idx == 4 || v.idx == 5 {
      ValueStartKeepsMeaning(v);
    } else if v.idx == 6 {
      if v.quoted { QuotedStepKeepsMeaning(v); } else { PlainStepKeepsMeaning(v); }
    }
  }

  /** Everything from position n on has moved down by one. */
  lemma Shifted(a: string, b: string, n: nat, end: nat)
    requires 0 < n <= end && |a| == |b| && end + 1 < |b|
    requires a[..n - 1] == b[..n - 1] && a[n - 1..end + 1] == b[n..end + 2]
    requires b[end + 1] == NUL && NUL !in b[..end + 1]
    ensures a[n..end] == b[n + 1..end + 1] && a[n - 1] == b[n] && a[end] == NUL && NUL !in a[..end]
  {
    assert forall i | n - 1 <= i <= end :: a[i] == a[n - 1..end + 1][i - (n - 1)] == b[i + 1];
    forall i | 0 <= i < end ensures a[i] != NUL {
      if i < n - 1 {
        assert a[i] == a[..n - 1][i] == b[..n - 1][i] == b[..end + 1][i];
      } else {
        assert a[i] == b[..end + 1][i + 1];
      }
    }
  }

  lemma SameSlice(a: string, b: string, n: nat, lo: nat, hi: nat)
    requires n <= |a| && n <= |b| && a[..n] == b[..n] && lo <= hi <= n
    ensures a[lo..hi] == b[lo..hi]
  {
    assert a[lo..hi] == a[..n][lo..hi] && b[lo..hi] == b[..n][lo..hi];
  }

  class KeyValueParser {
    const line: array<char>
    var state: State
    var cur: nat
    var idx: int
    var quoted: bool
    var beginKey: int
    var endKey: int
    var beginValue: int
    var endValue: int
    /** Where the terminator of the line is now. */
    ghost var end: nat

    ghost predicate Terminated()
      reads this, line
    {
      end < line.Length && line[end] == NUL && NUL !in line[..end]
    }

    ghost predicate KeyStored()
      reads this
    {
      if beginKey == NULLPTR then endKey == NULLPTR else 0 <= beginKey < endKey <= cur <= end
    }

    ghost predicate ValueStored()
      reads this
    {
      if beginValue == NULLPTR then endValue == NULLPTR
      else 0 <= beginValue < endValue <= cur <= end && endKey < beginValue
    }

    ghost predicate Running()
      reads this, line
      requires Terminated()
    {
      && 0 <= idx < 10 && state == StateAt(idx) && cur <= end
      && KeyStored() && ValueStored()
      && (idx == 0 ==> beginKey == NULLPTR)
      && (idx == 1 && beginKey != NULLPTR ==> endKey == cur)
      && (idx >= 4 ==> endKey < cur)
      && (idx < 6 ==> beginValue == NULLPTR && !quoted)
      && (idx == 6 && beginValue != NULLPTR ==> endValue == cur)
      && (idx == 6 && quoted && beginValue == NULLPTR ==> 0 < cur && line[cur - 1] == '"')
    }

    ghost predicate Valid()
      reads this, line
    {
      Terminated() && (Running() || state == Fail || (state == Success && KeyStored() && ValueStored()))
    }

    /** The key stored so far. */
    ghost function KeySlice(): string
      reads this, line
      requires end < line.Length && KeyStored()
    {
      if beginKey == NULLPTR then "" else line[beginKey..endKey]
    }

    ghost function ValueSlice(): string
      reads this, line
      requires end < line.Length && ValueStored()
    {
      if beginValue == NULLPTR then "" else line[beginValue..endValue]
    }

    ghost function Rest(): string
      reads this, line
      requires Terminated() && cur <= end
    {
      line[cur..end]
    }

    /** The parser's state with the buffer forgotten. */
    ghost function Viewed(): (v: View)
      reads this, line
      requires Valid()
      ensures v.At? ==> v.Running() && Fresh(v)
    {
      if state == Fail then Rejected
      else if state == Success then Accepted(KeySlice(), ValueSlice())
      else At(idx, quoted, KeySlice(), ValueSlice(), Rest())
    }

    predicate Terminal()
      reads this
    {
      state == Success || state == Fail
    }

    /** The termination measure: states left, then characters left before the terminator. */
    ghost predicate Before(idx': int, left: int)
      reads this
    {
      Terminal() || idx' < idx || (idx' == idx && end - cur < left)
    }

    constructor (line: array<char>, ghost end: nat)
      requires end < line.Length && line[end] == NUL && NUL !in line[..end]
      ensures this.line == line && this.end == end && Terminated()
      ensures state == Null && idx == -1 && cur == 0 && !quoted
      ensures beginKey == endKey == beginValue == endValue == NULLPTR
    {
      this.line := line;
      this.end := end;
      state, idx, cur, quoted := Null, -1, 0, false;
      beginKey, endKey, beginValue, endValue := NULLPTR, NULLPTR, NULLPTR, NULLPTR;
    }

    /** The next state in the parser chain. */
    method Next() returns (s: State)
      requires -1 <= idx < 9
      modifies this`idx
      ensures idx == old(idx) + 1 && s == StateAt(idx)
    {
      idx := idx + 1;
      s := StateAt(idx);
    }

    /** Moves the rest of the line, terminator included, from src down to dest. */
    method StrMove(dest: nat, src: nat)
      requires Terminated() && dest < src <= end
      modifies line
      ensures line[..dest] == old(line[..dest])
      ensures line[dest..dest + end - src + 1] == old(line[src..end + 1])
    {
      ghost var before := line[..];
      var d, s := dest, src;
      while line[s] != NUL
        invariant src <= s <= end && d - dest == s - src
        invariant line[..dest] == before[..dest]
        invariant forall i :: dest <= i < d ==> line[i] == before[i + src - dest]
        invariant line[s..] == before[s..]
        decreases end - s
      {
        assert line[s] == before[s];
        line[d] := line[s];
        d, s := d + 1, s + 1;
      }
      assert line[s] == line[s..][0] == before[s];
      assert s == end;
      line[d] := NUL;
      assert before[src..end + 1][end - src] == before[end];
    }

    // ----- the states -----

    method SkipWhite()
      requires Valid() && state == Ws
      modifies this
      ensures Valid() && Viewed() == StepWs(old(Viewed())) && Before(old(idx), old(end - cur))
    {
      if IsBlank(line[cur]) {
        cur := cur + 1;
      } else {
        state := Next();
      }
    }

    method TakeKey()
      requires Valid() && state == KeyPart
      modifies this
      ensures Valid() && Viewed() == StepKey(old(Viewed())) && Before(old(idx), old(end - cur))
    {
      if IsKeyChar(line[cur]) {
        assert Rest()[0] == line[cur];
        StoreAndAdvanceKeyPtrs();
      } else {
        assert cur < end ==> Rest()[0] == line[cur];
        state := Next();
      }
    }

    method StoreAndAdvanceKeyPtrs()
      requires Terminated() && Running() && state == KeyPart && cur < end
      modifies this`beginKey, this`cur, this`endKey
      ensures Running() && cur == old(cur) + 1
      ensures KeySlice() == old(KeySlice()) + [line[old(cur)]]
      ensures Rest() == old(Rest())[1..]
    {
      if beginKey == NULLPTR {
        beginKey := cur;
      }
      cur := cur + 1;
      endKey := cur;
    }

    method TakeEqual()
      requires Valid() && state == Equal
      modifies this
      ensures Valid() && Viewed() == StepEqual(old(Viewed())) && Before(old(idx), old(end - cur))
    {
      if line[cur] == '=' {
        state := Next();
      } else {
        state := Fail;
      }
      cur := cur + 1;
    }

    method OpenQuote()
      requires Valid() && state == BeginQuote
      modifies this
      ensures Valid() && Viewed() == StepBeginQuote(old(Viewed())) && Before(old(idx), old(end - cur))
    {
      if line[cur] == '"' {
        quoted := true;
        cur := cur + 1;
      }
      state := Next();
    }

    method StoreAndAdvanceValuePtrs()
      requires Terminated() && Running() && state == ValuePart && cur < end
      modifies this`beginValue, this`cur, this`endValue
      ensures Running() && cur == old(cur) + 1
      ensures ValueSlice() == old(ValueSlice()) + [line[old(cur)]]
      ensures Rest() == old(Rest())[1..]
    {
      if beginValue == NULLPTR {
        beginValue := cur;
      }
      cur := cur + 1;
      endValue := cur;
    }

    /** The value ends before the character under the cursor. */
    method LeaveValue()
      requires Valid() && state == ValuePart
      modifies this`idx, this`state
      ensures Valid() && Viewed() == Onward(old(Viewed())) && Before(old(idx), old(end - cur))
    {
      state := Next();
    }

    method TakePlainValue()
      requires Valid() && state == ValuePart && !quoted
      modifies this
      ensures Valid() && Viewed() == StepValue(old(Viewed())) && Before(old(idx), old(end - cur))
    {
      assert line[cur] != NUL ==> Rest()[0] == line[cur];
      if IsGraph(line[cur]) {
        StoreAndAdvanceValuePtrs();
      } else {
        LeaveValue();
      }
    }

    /** Drops the character before the cursor: the rest of the line moves down by one. */
    method EraseBehind()
      requires Terminated() && 0 < cur < end
      modifies this`end, line
      ensures Terminated() && end == old(end) - 1
      ensures line[..cur - 1] == old(line[..cur - 1]) && line[cur - 1] == old(line[cur])
      ensures line[cur..end] == old(line[cur + 1..end])
    {
      ghost var before := line[..];
      StrMove(cur - 1, cur);
      end := end - 1;
      Shifted(line[..], before, cur, end);
    }

    /** The escape step: the backslash before the cursor gives way to the quote under it. */
    method Unescape()
      requires Valid() && state == ValuePart && quoted
      requires line[cur] == '"' && 0 < cur && line[cur - 1] == '\\'
      modifies this`end, line
      ensures Valid() && Viewed() == StepValue(old(Viewed())) && Before(old(idx), old(end - cur))
    {
      assert EndsInBackslash(ValueSlice()) && Rest()[0] == '"';
      EraseBackslash();
    }

    method EraseBackslash()
      requires Valid() && state == ValuePart && quoted && EndsInBackslash(ValueSlice())
      requires line[cur] == '"' && 0 < cur && line[cur - 1] == '\\'
      modifies this`end, line
      ensures Terminated() && Running() && end == old(end) - 1
      ensures KeySlice() == old(KeySlice()) && Rest() == old(Rest())[1..]
      ensures ValueSlice() == old(ValueSlice())[..|old(ValueSlice())| - 1] + ['"']
    {
      assert Rest()[1..] == line[cur + 1..end];
      ghost var before := line[..];
      EraseBehind();
      SameSlice(line[..], before, cur - 1, beginValue, cur - 1);
      if beginKey != NULLPTR {
        SameSlice(line[..], before, cur - 1, beginKey, endKey);
      }
      assert ValueSlice() == line[beginValue..cur - 1] + ['"'];
    }

    method TakeQuotedValue()
      requires Valid() && state == ValuePart && quoted
      modifies this, line
      ensures Valid() && Viewed() == StepValue(old(Viewed())) && Before(old(idx), old(end - cur))
    {
      if line[cur] == '"' {
        TakeQuote();
      } else if IsPrintable(line[cur]) {
        assert Rest()[0] == line[cur];
        StoreAndAdvanceValuePtrs();
      } else {
        assert cur < end ==> Rest()[0] == line[cur];
        LeaveValue();
      }
    }

    /** A quote inside quotes: part of the value if a backslash precedes it. */
    method TakeQuote()
      requires Valid() && state == ValuePart && quoted && line[cur] == '"'
      modifies this, line
      ensures Valid() && Viewed() == StepValue(old(Viewed())) && Before(old(idx), old(end - cur))
    {
      assert Rest()[0] == '"';
      if line[cur - 1] == '\\' {
        Unescape();
      } else {
        assert !EndsInBackslash(ValueSlice());
        LeaveValue();
      }
    }

    method CloseQuote()
      requires Valid() && state == EndQuote
      modifies this
      ensures Valid() && Viewed() == StepEndQuote(old(Viewed())) && Before(old(idx), old(end - cur))
    {
      if (quoted && line[cur] == '"') || (!quoted && line[cur] != '"') {
        state := Next();
      } else {
        state := Fail;
      }
      if quoted {
        cur := cur + 1;
      }
    }

    method Conclude()
      requires Valid() && state == Finish
      modifies this
      ensures Valid() && Viewed() == StepFinish(old(Viewed())) && Before(old(idx), old(end - cur))
    {
      state := if line[cur] == NUL || line[cur] == '#' then Success else Fail;
    }

    /**
      Runs the state machine on the whole line. It halts, it never moves the cursor past
      the terminator while it still reads, and it accepts exactly the grammar's lines, with
      the grammar's key and value.
     */
    method Run()
      requires Terminated() && state == Null && idx == -1 && cur == 0 && !quoted
      requires beginKey == endKey == beginValue == endValue == NULLPTR
      modifies this, line
      ensures Valid() && Terminal()
      ensures Good() <==> Parse(old(line[..end])).Some?
      ensures Good() ==> Stored()
      ensures Good() ==> Parse(old(line[..end])) == Some(Entry(KeySlice(), ValueSlice()))
    {
      state := Next();
      assert Rest() == line[..end];
      MeaningAtStart(line[..end]);
      while state != Fail && state != Success
        invariant Valid() && Meaning(Viewed()) == Parse(old(line[..end]))
        decreases if Terminal() then 0 else 1, 10 - idx, end - cur
      {
        StepKeepsMeaning(Viewed());
        match state
        case Ws => SkipWhite();
        case KeyPart => TakeKey();
        case Equal => TakeEqual();
        case BeginQuote => OpenQuote();
        case ValuePart =>
          if quoted { TakeQuotedValue(); } else { TakePlainValue(); }
        case EndQuote => CloseQuote();
        case Finish => Conclude();
      }
    }

    predicate Good()
      reads this
    {
      state == Success
    }

    /** After a successful parse: both slices lie in the line, the key before the value. */
    ghost predicate Stored()
      reads this, line
    {
      Good() && end < line.Length && KeyStored() && ValueStored() && NUL !in KeySlice() && NUL !in ValueSlice()
    }

    /** Terminates the key in place and hands it out; an empty key has no buffer to point to. */
    method Key() returns (key: string)
      requires Stored() && beginKey != NULLPTR
      modifies line
      ensures key == old(KeySlice())
      ensures Stored() && KeySlice() == old(KeySlice()) && ValueSlice() == old(ValueSlice())
    {
      ghost var k, v := KeySlice(), ValueSlice();
      line[endKey] := NUL;
      assert line[beginKey..] == k + [NUL] + line[endKey + 1..];
      CStringStops(k, line[endKey + 1..]);
      key := CString(line[beginKey..]);
      assert ValueSlice() == v && KeySlice() == k;
    }

    method Value() returns (value: string)
      requires Stored() && beginValue != NULLPTR
      modifies line
      ensures value == old(ValueSlice())
      ensures Stored() && KeySlice() == old(KeySlice()) && ValueSlice() == old(ValueSlice())
    {
      ghost var k, v := KeySlice(), ValueSlice();
      line[endValue] := NUL;
      assert line[beginValue..] == v + [NUL] + line[endValue + 1..];
      CStringStops(v, line[endValue + 1..]);
      value := CString(line[beginValue..]);
      assert ValueSlice() == v && KeySlice() == k;
    }
  }
}
