/** What each attachment, detachment and removal does to the match rules, in numbers. */
module MatchEffects {
  import opened Matches

  /** The counter of a rule, zero if it has none. */
  function Count(t: Table, m: string): int {
    if m in t.counts then t.counts[m] else 0
  }

  /** Each counted rule has a positive counter and is installed once; no other is installed. */
  ghost predicate Consistent(t: Table) {
    forall m :: t.rules[m] == (if m in t.counts then 1 else 0) && (m in t.counts ==> t.counts[m] > 0)
  }

  /** Every counter has moved by what the rule is now needed more. */
  ghost predicate Moved(st: State, st': State, m: string, change: int) {
    && Consistent(st'.table)
    && Count(st'.table, m) == Count(st.table, m) + change
    && forall x | x != m :: Count(st'.table, x) == Count(st.table, x)
  }

  lemma CountNeeds(st: State, m: string)
    requires Conserved(st)
    ensures Count(st.table, m) == AllNeed(st.stubs, m)
  {
    assert Holds(st.table, m, AllNeed(st.stubs, m));
  }

  lemma StaysConserved(st: State, e: Event)
    requires Conserved(st)
    ensures Conserved(Step(st, e)) && Consistent(Step(st, e).table)
  {
    var st' := Step(st, e);
    forall m ensures Holds(st'.table, m, AllNeed(st'.stubs, m)) {
      assert Holds(st.table, m, AllNeed(st.stubs, m));
      StepHolds(st, e, m);
    }
    forall m ensures st'.table.rules[m] == (if m in st'.table.counts then 1 else 0)
      ensures m in st'.table.counts ==> st'.table.counts[m] > 0
    {
      assert Holds(st'.table, m, AllNeed(st'.stubs, m));
    }
  }

  /** One stub needs a rule more, or less, than before; then so does the table. */
  lemma StubMoved(st: State, e: Event, i: nat, m: string, change: int)
    requires Conserved(st) && i < |st.stubs| && |Step(st, e).stubs| == |st.stubs|
    requires Step(st, e).stubs == st.stubs[i := Step(st, e).stubs[i]]
    requires forall x :: Needs(Step(st, e).stubs[i], x) == Needs(st.stubs[i], x) + if x == m then change else 0
    ensures Moved(st, Step(st, e), m, change)
  {
    var st' := Step(st, e);
    StaysConserved(st, e);
    forall x ensures Count(st'.table, x) == Count(st.table, x) + if x == m then change else 0 {
      CountNeeds(st, x);
      CountNeeds(st', x);
      AllNeedUpdate(st.stubs, i, st'.stubs[i], x);
    }
  }

  /** Attaching puts the signal in front and counts its rule once more. */
  lemma AttachSignalExactly(st: State, i: nat, m: string)
    requires Conserved(st) && i < |st.stubs|
    ensures var st' := Step(st, AttachSignal(i, m));
            && st'.stubs == st.stubs[i := st.stubs[i].(signals := [m] + st.stubs[i].signals)]
            && Moved(st, st', m, 1)
  {
    var s := st.stubs[i];
    assert ([m] + s.signals)[1..] == s.signals;
    StubMoved(st, AttachSignal(i, m), i, m, 1);
  }

  /** Detaching takes the signal out and counts its rule once less. */
  lemma DetachSignalExactly(st: State, i: nat, k: nat)
    requires Conserved(st) && i < |st.stubs| && k < |st.stubs[i].signals|
    ensures var st', s := Step(st, DetachSignal(i, k)), st.stubs[i];
            && st'.stubs == st.stubs[i := s.(signals := s.signals[..k] + s.signals[k + 1..])]
            && Moved(st, st', s.signals[k], -1)
  {
    var s := st.stubs[i];
    forall x ensures Occurrences(s.signals, x) ==
                     Occurrences(s.signals[..k] + s.signals[k + 1..], x) + if s.signals[k] == x then 1 else 0 {
      OccurrencesWithout(s.signals, k, x);
    }
    StubMoved(st, DetachSignal(i, k), i, s.signals[k], -1);
  }

  lemma {:induction false} NoneExactly(properties: seq<bool>)
    ensures Attached(properties) == 0 <==> forall p | 0 <= p < |properties| :: !properties[p]
  {
    if properties != [] {
      var n := |properties| - 1;
      NoneExactly(properties[..n]);
      assert forall p | 0 <= p < n :: properties[..n][p] == properties[p];
    }
  }

  /** Attaching a property sets its flag; the rule is counted once more exactly for the stub's first property. */
  lemma AttachPropertyExactly(st: State, i: nat, p: nat)
    requires Conserved(st) && i < |st.stubs| && p < |st.stubs[i].properties|
    ensures var st', s := Step(st, AttachProperty(i, p)), st.stubs[i];
            && st'.stubs == st.stubs[i := s.(properties := s.properties[p := true])]
            && Moved(st, st', s.propertyMatch,
                     if forall q | 0 <= q < |s.properties| :: !s.properties[q] then 1 else 0)
  {
    var s := st.stubs[i];
    var flags := s.properties[p := true];
    NoneExactly(s.properties);
    NoneExactly(flags);
    assert flags[p];
    if s.properties[p] {
      assert flags == s.properties && st.stubs[i := s] == st.stubs;
    }
    StubMoved(st, AttachProperty(i, p), i, s.propertyMatch, if Attached(s.properties) == 0 then 1 else 0);
  }

  /** Detaching a property clears its flag; the rule is counted once less exactly for the stub's last property. */
  lemma DetachPropertyExactly(st: State, i: nat, p: nat)
    requires Conserved(st) && i < |st.stubs| && p < |st.stubs[i].properties|
    ensures var st', s := Step(st, DetachProperty(i, p)), st.stubs[i];
            && st'.stubs == st.stubs[i := s.(properties := s.properties[p := false])]
            && Moved(st, st', s.propertyMatch,
                     if s.properties[p] && forall q | 0 <= q < |s.properties| && q != p :: !s.properties[q] then -1 else 0)
  {
    var s := st.stubs[i];
    var flags := s.properties[p := false];
    NoneExactly(s.properties);
    NoneExactly(flags);
    assert forall q | 0 <= q < |flags| :: flags[q] <==> q != p && s.properties[q];
    if s.properties[p] {
      AttachedUpdate(s.properties, p, false);
    } else {
      assert flags == s.properties && st.stubs[i := s] == st.stubs;
    }
    StubMoved(st, DetachProperty(i, p), i, s.propertyMatch,
              if s.properties[p] && Attached(flags) == 0 then -1 else 0);
  }

  /** A new stub has nothing attached; no rule moves. */
  lemma AddStubExactly(st: State, m: string, n: nat, x: string)
    requires Conserved(st)
    ensures var st' := Step(st, AddStub(m, n));
            && |st'.stubs| == |st.stubs| + 1 && st'.stubs[..|st.stubs|] == st.stubs
            && st'.stubs[|st.stubs|].signals == [] && st'.stubs[|st.stubs|].propertyMatch == m
            && |st'.stubs[|st.stubs|].properties| == n
            && (forall p | 0 <= p < n :: !st'.stubs[|st.stubs|].properties[p])
            && Count(st'.table, x) == Count(st.table, x) && Consistent(st'.table)
  {
    StaysConserved(st, AddStub(m, n));
  }

  /** A removed stub takes with it each rule as often as it needed it: once per attached signal, once if any property is. */
  lemma RemoveStubExactly(st: State, i: nat, x: string)
    requires Conserved(st) && i < |st.stubs|
    ensures var st', s := Step(st, RemoveStub(i)), st.stubs[i];
            && st'.stubs == st.stubs[..i] + st.stubs[i + 1..] && Consistent(st'.table)
            && Count(st'.table, x) == Count(st.table, x) - Occurrences(s.signals, x)
                 - if s.propertyMatch == x && exists p | 0 <= p < |s.properties| :: s.properties[p] then 1 else 0
  {
    var st' := Step(st, RemoveStub(i));
    StaysConserved(st, RemoveStub(i));
    CountNeeds(st, x);
    CountNeeds(st', x);
    AllNeedWithout(st.stubs, i, x);
    NoneExactly(st.stubs[i].properties);
  }
}
