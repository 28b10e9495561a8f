/** The texts of match rules, as the dispatcher prints them, and how they read. */
module MatchStrings {
  import opened Wrappers

  /** One key='value' pair. */
  function Pair(key: string, value: string): string {
    key + "='" + value + "'"
  }

  /** Pairs one after the other, with a comma, and perhaps a space, between them. */
  function Rule(fields: seq<(string, string)>, space: bool): string {
    if fields == [] then ""
    else if |fields| == 1 then Pair(fields[0].0, fields[0].1)
    else Pair(fields[0].0, fields[0].1) + ("," + (Gap(space) + Rule(fields[1..], space)))
  }

  function Gap(space: bool): string {
    if space then " " else ""
  }

  function SignalMatch(busname: string, iface: string, signal: string): string {
    Rule([("type", "signal"), ("sender", busname), ("interface", iface), ("member", signal)], true)
  }

  function PropertyMatch(busname: string, objpath: string): string {
    Rule([("type", "signal"), ("sender", busname), ("interface", "org.freedesktop.DBus.Properties"),
          ("member", "PropertiesChanged"), ("path", objpath)], false)
  }

  // ----- reading a rule -----

  /** The text before the first such character, and the text behind it. */
  function Until(c: char, s: string): (r: Option<(string, string)>)
    ensures r.Some? ==> |r.value.1| < |s|
  {
    if s == "" then None
    else if s[0] == c then Some(("", s[1..]))
    else
      var r :- Until(c, s[1..]);
      Some(([s[0]] + r.0, r.1))
  }

  function SkipSpaces(s: string): (r: string)
    ensures |r| <= |s|
  {
    if s != "" && s[0] == ' ' then SkipSpaces(s[1..]) else s
  }

  /** The pairs of a rule in order: a key, an equality sign, a value in quotes, and a comma before the next pair. */
  function Fields(s: string): Option<seq<(string, string)>>
    decreases |s|
  {
    var key :- Until('=', SkipSpaces(s));
    if key.1 == "" || key.1[0] != '\'' then None
    else
      var value :- Until('\'', key.1[1..]);
      if value.1 == "" then Some([(key.0, value.0)])
      else if value.1[0] != ',' then None
      else
        var more :- Fields(value.1[1..]);
        Some([(key.0, value.0)] + more)
  }

  lemma {:induction false} UntilAt(c: char, a: string, b: string)
    requires c !in a
    ensures Until(c, a + [c] + b) == Some((a, b))
  {
    var s := a + [c] + b;
    if a == "" {
      assert s[1..] == b;
    } else {
      assert s[1..] == a[1..] + [c] + b;
      UntilAt(c, a[1..], b);
      assert [a[0]] + a[1..] == a;
    }
  }

  predicate IsKey(key: string) {
    key != "" && key[0] != ' ' && '=' !in key
  }

  /** A pair at the front reads as itself. */
  lemma PairReads(space: bool, key: string, value: string, rest: string)
    requires IsKey(key) && '\'' !in value
    ensures var s := Gap(space) + (Pair(key, value) + rest);
            && Until('=', SkipSpaces(s)) == Some((key, "'" + value + "'" + rest))
            && Until('\'', value + "'" + rest) == Some((value, rest))
  {
    var quoted := "'" + value + "'" + rest;
    var text := Pair(key, value) + rest;
    assert text == key + ['='] + quoted;
    UntilAt('=', key, quoted);
    UntilAt('\'', value, rest);
    assert value + "'" + rest == value + ['\''] + rest;
    assert SkipSpaces(text) == text;
    assert (" " + text)[1..] == text;
    assert "" + text == text;
  }

  /** The last pair of a rule, and a pair with more behind it. */
  lemma LastField(space: bool, key: string, value: string)
    requires IsKey(key) && '\'' !in value
    ensures Fields(Gap(space) + Pair(key, value)) == Some([(key, value)])
  {
    PairReads(space, key, value, "");
    assert Pair(key, value) + "" == Pair(key, value);
    assert ("'" + value + "'" + "")[1..] == value + "'" + "";
  }

  lemma NextField(space: bool, key: string, value: string, rest: string)
    requires IsKey(key) && '\'' !in value
    ensures Fields(Gap(space) + (Pair(key, value) + ("," + rest))) ==
            if Fields(rest).None? then None else Some([(key, value)] + Fields(rest).value)
  {
    var behind := "," + rest;
    PairReads(space, key, value, behind);
    assert ("'" + value + "'" + behind)[1..] == value + "'" + behind;
    assert behind[1..] == rest;
  }

  /** A rule reads as the pairs it was printed from. */
  lemma {:induction false} RuleReads(fields: seq<(string, string)>, space: bool, first: bool)
    requires fields != [] && forall f | f in fields :: IsKey(f.0) && '\'' !in f.1
    ensures Fields(Gap(first) + Rule(fields, space)) == Some(fields)
  {
    var f := fields[0];
    assert fields == [f] + fields[1..];
    if |fields| == 1 {
      LastField(first, f.0, f.1);
      assert fields == [(f.0, f.1)];
    } else {
      RuleReads(fields[1..], space, space);
      NextField(first, f.0, f.1, Gap(space) + Rule(fields[1..], space));
    }
  }

  /** A signal's rule reads as its type, sender, interface and member. */
  lemma SignalMatchReads(busname: string, iface: string, signal: string)
    requires '\'' !in busname && '\'' !in iface && '\'' !in signal
    ensures Fields(SignalMatch(busname, iface, signal)) ==
            Some([("type", "signal"), ("sender", busname), ("interface", iface), ("member", signal)])
  {
    var rule := SignalMatch(busname, iface, signal);
    RuleReads([("type", "signal"), ("sender", busname), ("interface", iface), ("member", signal)], true, false);
    assert Gap(false) + rule == rule;
  }

  /** A property rule reads as its type, sender, interface, member and path. */
  lemma PropertyMatchReads(busname: string, objpath: string)
    requires '\'' !in busname && '\'' !in objpath
    ensures Fields(PropertyMatch(busname, objpath)) ==
            Some([("type", "signal"), ("sender", busname), ("interface", "org.freedesktop.DBus.Properties"),
                  ("member", "PropertiesChanged"), ("path", objpath)])
  {
    var rule := PropertyMatch(busname, objpath);
    RuleReads([("type", "signal"), ("sender", busname), ("interface", "org.freedesktop.DBus.Properties"),
               ("member", "PropertiesChanged"), ("path", objpath)], false, false);
    assert Gap(false) + rule == rule;
  }

  /** What stands behind the first comma. */
  lemma BehindComma(fields: seq<(string, string)>, space: bool)
    requires |fields| > 1 && fields[0] == ("type", "signal") && fields[1].0 == "sender"
    ensures |Rule(fields, space)| > 14 && Rule(fields, space)[14] == if space then ' ' else 's'
  {
    var first, rest := Pair("type", "signal"), Rule(fields[1..], space);
    assert fields[1..][0] == fields[1] && |rest| > 0 && rest[0] == 's';
    assert |first| == 13;
    assert Rule(fields, space) == first + ("," + (Gap(space) + rest));
  }

  /** The two kinds of rules never coincide, whatever the names: one has a space where the other has none. */
  lemma MatchKindsDiffer(busname: string, iface: string, signal: string, busname': string, objpath: string)
    ensures SignalMatch(busname, iface, signal) != PropertyMatch(busname', objpath)
  {
    BehindComma([("type", "signal"), ("sender", busname), ("interface", iface), ("member", signal)], true);
    BehindComma([("type", "signal"), ("sender", busname'), ("interface", "org.freedesktop.DBus.Properties"),
                 ("member", "PropertiesChanged"), ("path", objpath)], false);
  }
}

/**
  The reference-counted match rules a dispatcher keeps for attached signals and properties,
  against what its stubs have attached.
 */
module Matches {

  /** What one stub has attached: match texts in list order, its property match, and a flag per property. */
  datatype StubMatches = StubMatches(signals: seq<string>, propertyMatch: string, properties: seq<bool>)

  function Attached(properties: seq<bool>): nat {
    if properties == [] then 0
    else Attached(properties[..|properties| - 1]) + if properties[|properties| - 1] then 1 else 0
  }

  /** signal_matches_, and the rules installed at the bus. */
  datatype Table = Table(counts: map<string, int>, rules: multiset<string>)

  function Register(t: Table, m: string): Table {
    if m !in t.counts then Table(t.counts[m := 1], t.rules + multiset{m})
    else t.(counts := t.counts[m := t.counts[m] + 1])
  }

  function Unregister(t: Table, m: string): Table {
    if m !in t.counts then t
    else if t.counts[m] - 1 == 0 then Table(t.counts - {m}, t.rules - multiset{m})
    else t.(counts := t.counts[m := t.counts[m] - 1])
  }

  function UnregisterAll(t: Table, signals: seq<string>): Table
    decreases signals
  {
    if signals == [] then t
    else UnregisterAll(Unregister(t, signals[0]), signals[1..])
  }

  datatype State = State(table: Table, stubs: seq<StubMatches>)

  datatype Event =
    | AddStub(propertyMatch: string, properties: nat)
    | RemoveStub(i: nat)
    | AttachSignal(i: nat, m: string)
    | DetachSignal(i: nat, k: nat)
    | AttachProperty(i: nat, p: nat)
    | DetachProperty(i: nat, p: nat)

  function NoneAttached(n: nat): (r: seq<bool>)
    ensures |r| == n
  {
    seq(n, _ => false)
  }

  /** The table after a stub's cleanup. */
  function CleanUp(t: Table, s: StubMatches): Table {
    var t' := UnregisterAll(t, s.signals);
    if Attached(s.properties) > 0 then Unregister(t', s.propertyMatch) else t'
  }

  function Step(st: State, e: Event): State {
    match e
    case AddStub(m, n) => st.(stubs := st.stubs + [StubMatches([], m, NoneAttached(n))])
    case RemoveStub(i) =>
      if i >= |st.stubs| then st
      else State(CleanUp(st.table, st.stubs[i]), st.stubs[..i] + st.stubs[i + 1..])
    case AttachSignal(i, m) =>
      if i >= |st.stubs| then st
      else
        var s := st.stubs[i];
        State(Register(st.table, m),
              st.stubs[i := s.(signals := [m] + s.signals)])
    case DetachSignal(i, k) =>
      if i >= |st.stubs| || k >= |st.stubs[i].signals| then st
      else
        var s := st.stubs[i];
        State(Unregister(st.table, s.signals[k]),
              st.stubs[i := s.(signals := s.signals[..k] + s.signals[k + 1..])])
    case AttachProperty(i, p) =>
      if i >= |st.stubs| || p >= |st.stubs[i].properties| || st.stubs[i].properties[p] then st
      else
        var s := st.stubs[i];
        State(if Attached(s.properties) == 0 then Register(st.table, s.propertyMatch) else st.table,
              st.stubs[i := s.(properties := s.properties[p := true])])
    case DetachProperty(i, p) =>
      if i >= |st.stubs| || p >= |st.stubs[i].properties| || !st.stubs[i].properties[p] then st
      else
        var s := st.stubs[i];
        State(if Attached(s.properties) == 1 then Unregister(st.table, s.propertyMatch) else st.table,
              st.stubs[i := s.(properties := s.properties[p := false])])
  }

  /** An event about one stub changes the table and that stub's entry. */
  lemma StubStep(st: State, e: Event, t: Table, s: StubMatches)
    requires !e.AddStub? && !e.RemoveStub? && e.i < |st.stubs|
    requires Step(st, e).table == t && Step(st, e).stubs[e.i] == s
    ensures Step(st, e) == State(t, st.stubs[e.i := s])
  {
    assert st.stubs[e.i := st.stubs[e.i]] == st.stubs;
  }

  const START := State(Table(map[], multiset{}), [])

  function Run(events: seq<Event>): State {
    if events == [] then START else Step(Run(events[..|events| - 1]), events[|events| - 1])
  }

  // ----- conservation -----

  function Occurrences(signals: seq<string>, m: string): nat {
    if signals == [] then 0 else (if signals[0] == m then 1 else 0) + Occurrences(signals[1..], m)
  }

  /** How often a stub needs a rule: once per attached signal, and once if any property is attached. */
  function Needs(s: StubMatches, m: string): nat {
    Occurrences(s.signals, m) + if Attached(s.properties) > 0 && s.propertyMatch == m then 1 else 0
  }

  function AllNeed(stubs: seq<StubMatches>, m: string): nat {
    if stubs == [] then 0 else Needs(stubs[0], m) + AllNeed(stubs[1..], m)
  }

  /** The counter of a rule is n, and the rule is installed at the bus once if n is positive. */
  predicate Holds(t: Table, m: string, n: nat) {
    if n == 0 then m !in t.counts && t.rules[m] == 0
    else m in t.counts && t.counts[m] == n && t.rules[m] == 1
  }

  /** Every counter is the number of attachments that need the rule. */
  ghost predicate Conserved(st: State) {
    forall m :: Holds(st.table, m, AllNeed(st.stubs, m))
  }

  lemma RegisterHolds(t: Table, x: string, m: string, n: nat)
    requires Holds(t, m, n)
    ensures Holds(Register(t, x), m, n + if x == m then 1 else 0)
  {
  }

  lemma UnregisterHolds(t: Table, x: string, m: string, n: nat)
    requires Holds(t, m, n) && (x == m ==> n > 0)
    ensures Holds(Unregister(t, x), m, n - if x == m then 1 else 0)
  {
  }

  lemma {:induction false} UnregisterAllHolds(t: Table, signals: seq<string>, m: string, n: nat)
    requires Holds(t, m, n + Occurrences(signals, m))
    ensures Holds(UnregisterAll(t, signals), m, n)
    decreases signals
  {
    if signals != [] {
      UnregisterHolds(t, signals[0], m, n + Occurrences(signals, m));
      UnregisterAllHolds(Unregister(t, signals[0]), signals[1..], m, n);
    }
  }

  lemma CleanUpHolds(t: Table, s: StubMatches, m: string, n: nat)
    requires Holds(t, m, n + Needs(s, m))
    ensures Holds(CleanUp(t, s), m, n)
  {
    var rest := n + Needs(s, m) - Occurrences(s.signals, m);
    UnregisterAllHolds(t, s.signals, m, rest);
    if Attached(s.properties) > 0 {
      UnregisterHolds(UnregisterAll(t, s.signals), s.propertyMatch, m, rest);
    }
  }

  lemma {:induction false} AllNeedConcat(a: seq<StubMatches>, b: seq<StubMatches>, m: string)
    ensures AllNeed(a + b, m) == AllNeed(a, m) + AllNeed(b, m)
  {
    if a == [] {
      assert a + b == b;
    } else {
      assert (a + b)[1..] == a[1..] + b;
      AllNeedConcat(a[1..], b, m);
    }
  }

  lemma {:induction false} AllNeedUpdate(stubs: seq<StubMatches>, i: nat, s: StubMatches, m: string)
    requires i < |stubs|
    ensures AllNeed(stubs[i := s], m) == AllNeed(stubs, m) - Needs(stubs[i], m) + Needs(s, m)
  {
    if i == 0 {
      assert stubs[i := s][1..] == stubs[1..];
    } else {
      assert stubs[i := s][1..] == stubs[1..][i - 1 := s];
      AllNeedUpdate(stubs[1..], i - 1, s, m);
    }
  }

  lemma {:induction false} AllNeedWithout(stubs: seq<StubMatches>, i: nat, m: string)
    requires i < |stubs|
    ensures AllNeed(stubs, m) == AllNeed(stubs[..i] + stubs[i + 1..], m) + Needs(stubs[i], m)
  {
    AllNeedConcat(stubs[..i], stubs[i + 1..], m);
    AllNeedConcat(stubs[..i], stubs[i..], m);
    assert stubs == stubs[..i] + stubs[i..];
    assert stubs[i..][1..] == stubs[i + 1..];
  }

  lemma {:induction false} OccurrencesWithout(signals: seq<string>, k: nat, m: string)
    requires k < |signals|
    ensures Occurrences(signals, m) ==
            Occurrences(signals[..k] + signals[k + 1..], m) + if signals[k] == m then 1 else 0
  {
    var without := signals[..k] + signals[k + 1..];
    if k == 0 {
      assert without == signals[1..];
    } else {
      OccurrencesWithout(signals[1..], k - 1, m);
      assert without[1..] == signals[1..][..k - 1] + signals[1..][k..];
    }
  }

  lemma {:induction false} AttachedUpdate(properties: seq<bool>, p: nat, b: bool)
    requires p < |properties| && properties[p] != b
    ensures Attached(properties[p := b]) == Attached(properties) + if b then 1 else -1
    ensures properties[p] ==> Attached(properties) > 0
  {
    var n := |properties| - 1;
    if p < n {
      AttachedUpdate(properties[..n], p, b);
      assert properties[p := b][..n] == properties[..n][p := b];
    } else {
      assert properties[p := b][..n] == properties[..n];
    }
  }

  lemma {:induction false} NothingAttached(n: nat)
    ensures Attached(NoneAttached(n)) == 0
  {
    if n > 0 {
      assert NoneAttached(n)[..n - 1] == NoneAttached(n - 1);
      NothingAttached(n - 1);
    }
  }

  /** What one event does to the stub it is about and to the table, seen from one rule. */
  lemma {:induction false} StubStepHolds(st: State, e: Event, m: string, n: nat)
    requires !e.AddStub? && !e.RemoveStub? && e.i < |st.stubs| && Step(st, e) != st
    requires Needs(st.stubs[e.i], m) <= n && Holds(st.table, m, n)
    ensures Holds(Step(st, e).table, m, n - Needs(st.stubs[e.i], m) + Needs(Step(st, e).stubs[e.i], m))
  {
    var s := st.stubs[e.i];
    match e
    case AttachSignal(_, x) =>
      assert ([x] + s.signals)[1..] == s.signals;
      RegisterHolds(st.table, x, m, n);
    case DetachSignal(_, k) =>
      OccurrencesWithout(s.signals, k, m);
      UnregisterHolds(st.table, s.signals[k], m, n);
    case AttachProperty(_, p) =>
      AttachedUpdate(s.properties, p, true);
      RegisterHolds(st.table, s.propertyMatch, m, n);
    case DetachProperty(_, p) =>
      AttachedUpdate(s.properties, p, false);
      if Attached(s.properties) == 1 {
        UnregisterHolds(st.table, s.propertyMatch, m, n);
      }
  }

  lemma {:induction false} NeedsBounded(stubs: seq<StubMatches>, i: nat, m: string)
    requires i < |stubs|
    ensures Needs(stubs[i], m) <= AllNeed(stubs, m)
  {
    AllNeedWithout(stubs, i, m);
  }

  lemma {:induction false} StepHolds(st: State, e: Event, m: string)
    requires Holds(st.table, m, AllNeed(st.stubs, m))
    ensures Holds(Step(st, e).table, m, AllNeed(Step(st, e).stubs, m))
  {
    if e.AddStub? {
      var s := StubMatches([], e.propertyMatch, NoneAttached(e.properties));
      AllNeedConcat(st.stubs, [s], m);
      NothingAttached(e.properties);
      assert AllNeed([s], m) == Needs(s, m) + AllNeed([], m);
    } else if Step(st, e) != st {
      NeedsBounded(st.stubs, e.i, m);
      if e.RemoveStub? {
        AllNeedWithout(st.stubs, e.i, m);
        CleanUpHolds(st.table, st.stubs[e.i], m, AllNeed(st.stubs[..e.i] + st.stubs[e.i + 1..], m));
      } else {
        StubStepHolds(st, e, m, AllNeed(st.stubs, m));
        AllNeedUpdate(st.stubs, e.i, Step(st, e).stubs[e.i], m);
      }
    }
  }

  /** In every run, each counter is the number of attachments behind it and each such rule is installed once. */
  lemma {:induction false} RunConserves(events: seq<Event>)
    ensures Conserved(Run(events))
  {
    if events != [] {
      var before, last := events[..|events| - 1], events[|events| - 1];
      RunConserves(before);
      forall m ensures Holds(Run(events).table, m, AllNeed(Run(events).stubs, m)) {
        assert Holds(Run(before).table, m, AllNeed(Run(before).stubs, m));
        StepHolds(Run(before), last, m);
      }
    }
  }

  /** Once the last stub is gone no counter is left and no rule is installed. */
  lemma NothingLeftBehind(events: seq<Event>)
    requires Run(events).stubs == []
    ensures Run(events).table == Table(map[], multiset{})
  {
    RunConserves(events);
    var t := Run(events).table;
    forall m ensures m !in t.counts && t.rules[m] == 0 {
      assert Holds(t, m, AllNeed(Run(events).stubs, m));
    }
    assert t.counts == map[];
    assert t.rules == multiset{};
  }
}
