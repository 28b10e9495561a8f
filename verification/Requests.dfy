/**
  The life of a method call in a server: the current request, deferred requests in
  move-only descriptors, the replies sent and the references held on the call's message.
 */
module Requests {

  /** What a descriptor holds: a call, by its number, or nothing. */
  datatype Slot = Empty | Holding(call: nat)

  /**
    answers are replies sent by a response, faults are error replies for exceptions. silent
    lists the calls whose descriptor was cleared without a response, lost those whose
    descriptor was overwritten by a move assignment, which drops no reference.
   */
  datatype State = State(
    refs: seq<int>,
    current: Slot,
    slots: seq<Slot>,
    handling: Slot,
    answers: multiset<nat>,
    faults: multiset<nat>,
    silent: multiset<nat>,
    lost: multiset<nat>)

  datatype Event =
    | Call
    | Respond
    | Defer
    | DeferInto(i: nat)
    | RespondOn(i: nat)
    | MoveNew(i: nat)
    | MoveAssign(i: nat, j: nat)
    | Clear(i: nat)
    | Return
    | Throw

  /** The last reference a descriptor holds is dropped, or one more is taken. */
  function Referenced(refs: seq<int>, s: Slot, change: int): (r: seq<int>)
    ensures |r| == |refs|
  {
    if s.Holding? && s.call < |refs| then refs[s.call := refs[s.call] + change] else refs
  }

  function One(s: Slot): multiset<nat> {
    if s.Holding? then multiset{s.call} else multiset{}
  }

  /** handle_interface_request, up to the call of the handler. */
  function Dispatched(st: State): State {
    var call := Holding(|st.refs|);
    st.(refs := st.refs + [1], current := call, handling := call)
  }

  /** handle_interface_request, after the handler. */
  function Finished(st: State): State {
    st.(refs := Referenced(st.refs, st.current, -1), silent := st.silent + One(st.current),
        current := Empty, handling := Empty)
  }

  /** A response consumes the descriptor that it is given on. */
  function Answered(st: State, s: Slot): State {
    st.(refs := Referenced(st.refs, s, -1), answers := st.answers + One(s))
  }

  /** Move assignment: the target's own reference is not dropped. */
  function Assigned(st: State, i: nat, s: Slot): State
    requires i < |st.slots|
  {
    st.(slots := st.slots[i := s], lost := st.lost + One(st.slots[i]))
  }

  /** One step; events that are not possible now, or that an assertion forbids, change nothing. */
  function Step(st: State, e: Event): State {
    match e
    case Call => if st.handling.Holding? then st else Dispatched(st)
    case Respond =>
      if st.current.Empty? then st else Answered(st, st.current).(current := Empty)
    case Defer =>
      if st.current.Empty? then st else st.(slots := st.slots + [st.current], current := Empty)
    case DeferInto(i) =>
      if st.current.Empty? || i >= |st.slots| then st else Assigned(st, i, st.current).(current := Empty)
    case RespondOn(i) =>
      if i >= |st.slots| || st.slots[i].Empty? then st
      else Answered(st, st.slots[i]).(slots := st.slots[i := Empty])
    case MoveNew(i) =>
      if i >= |st.slots| then st else st.(slots := st.slots[i := Empty] + [st.slots[i]])
    case MoveAssign(i, j) =>
      if i >= |st.slots| || j >= |st.slots| || i == j then st
      else
        var st' := Assigned(st, i, st.slots[j]);
        st'.(slots := st'.slots[j := Empty])
    case Clear(i) =>
      if i >= |st.slots| then st
      else
        st.(refs := Referenced(st.refs, st.slots[i], -1), silent := st.silent + One(st.slots[i]),
            slots := st.slots[i := Empty])
    case Return => if st.handling.Empty? then st else Finished(st)
    case Throw =>
      if st.handling.Empty? then st
      else Finished(st.(faults := st.faults + One(st.handling)))
  }

  const START := State([], Empty, [], Empty, multiset{}, multiset{}, multiset{}, multiset{})

  function Run(events: seq<Event>): State {
    if events == [] then START else Step(Run(events[..|events| - 1]), events[|events| - 1])
  }

  // ----- conservation -----

  function Holds(s: Slot, c: nat): nat {
    if s == Holding(c) then 1 else 0
  }

  function Count(slots: seq<Slot>, c: nat): nat {
    if slots == [] then 0 else Count(slots[..|slots| - 1], c) + Holds(slots[|slots| - 1], c)
  }

  /** The live descriptors that name a call. */
  function Holders(st: State, c: nat): nat {
    Holds(st.current, c) + Count(st.slots, c)
  }

  /** Every call is held by one descriptor, or answered, or was dropped silently, or was overwritten: exactly one of these. */
  predicate Accounted(st: State, c: nat) {
    Holders(st, c) + st.answers[c] + st.silent[c] + st.lost[c] == if c < |st.refs| then 1 else 0
  }

  /** References are those of the live descriptors and of the overwritten ones. */
  predicate Referencing(st: State, c: nat) {
    c < |st.refs| ==> st.refs[c] == Holders(st, c) + st.lost[c]
  }

  /** A handler's exception is answered once; the call it is for is still the one being handled. */
  predicate Faulted(st: State, c: nat) {
    && st.faults[c] <= 1
    && (c >= |st.refs| || st.handling == Holding(c) ==> st.faults[c] == 0)
    && (st.current.Holding? ==> st.current == st.handling)
    && (st.handling.Holding? ==> st.handling.call < |st.refs|)
  }

  lemma {:induction false} CountUpdate(slots: seq<Slot>, i: nat, s: Slot, c: nat)
    requires i < |slots|
    ensures Count(slots[i := s], c) == Count(slots, c) - Holds(slots[i], c) + Holds(s, c)
  {
    var n := |slots| - 1;
    if i < n {
      assert slots[i := s][..n] == slots[..n][i := s];
      CountUpdate(slots[..n], i, s, c);
    } else {
      assert slots[i := s][..n] == slots[..n];
    }
  }

  lemma CountAppend(slots: seq<Slot>, s: Slot, c: nat)
    ensures Count(slots + [s], c) == Count(slots, c) + Holds(s, c)
  {
    assert (slots + [s])[..|slots|] == slots;
  }

  /** Nothing but its descriptors' moves changes where a call is held. */
  lemma DeferStep(st: State, e: Event, c: nat)
    requires Accounted(st, c) && Referencing(st, c)
    requires e.Defer? || e.DeferInto?
    ensures Accounted(Step(st, e), c) && Referencing(Step(st, e), c)
  {
    match e
    case Defer => CountAppend(st.slots, st.current, c);
    case DeferInto(i) => if i < |st.slots| { CountUpdate(st.slots, i, st.current, c); }
  }

  lemma MoveStep(st: State, e: Event, c: nat)
    requires Accounted(st, c) && Referencing(st, c)
    requires e.MoveNew? || e.MoveAssign?
    ensures Accounted(Step(st, e), c) && Referencing(Step(st, e), c)
  {
    match e
    case MoveNew(i) =>
      if i < |st.slots| {
        CountUpdate(st.slots, i, Empty, c);
        CountAppend(st.slots[i := Empty], st.slots[i], c);
      }
    case MoveAssign(i, j) =>
      if i < |st.slots| && j < |st.slots| && i != j {
        CountUpdate(st.slots, i, st.slots[j], c);
        CountUpdate(st.slots[i := st.slots[j]], j, Empty, c);
      }
  }

  /** Taking calls in, and finishing with them. */
  lemma HandlingStep(st: State, e: Event, c: nat)
    requires Accounted(st, c) && Referencing(st, c) && Faulted(st, c)
    requires e.Call? || e.Return? || e.Throw? || e.Respond?
    ensures Accounted(Step(st, e), c) && Referencing(Step(st, e), c)
  {
  }

  lemma UsingStep(st: State, e: Event, c: nat)
    requires Accounted(st, c) && Referencing(st, c)
    requires e.RespondOn? || e.Clear?
    ensures Accounted(Step(st, e), c) && Referencing(Step(st, e), c)
  {
    if e.i < |st.slots| {
      CountUpdate(st.slots, e.i, Empty, c);
    }
  }

  lemma StepConserves(st: State, e: Event, c: nat)
    requires Accounted(st, c) && Referencing(st, c) && Faulted(st, c)
    ensures Accounted(Step(st, e), c) && Referencing(Step(st, e), c)
  {
    if e.Call? || e.Return? || e.Throw? || e.Respond? {
      HandlingStep(st, e, c);
    } else if e.RespondOn? || e.Clear? {
      UsingStep(st, e, c);
    } else if e.Defer? || e.DeferInto? {
      DeferStep(st, e, c);
    } else {
      MoveStep(st, e, c);
    }
  }

  lemma StepFaults(st: State, e: Event, c: nat)
    requires Faulted(st, c)
    ensures Faulted(Step(st, e), c)
  {
  }

  ghost predicate Inv(st: State) {
    forall c: nat :: Accounted(st, c) && Referencing(st, c) && Faulted(st, c)
  }

  /**
    In every run each call is in exactly one place, and its references are those of the
    descriptors holding it and of the ones overwritten while they held it.
   */
  lemma {:induction false} Conservation(events: seq<Event>)
    ensures Inv(Run(events))
  {
    if events != [] {
      var st := Run(events[..|events| - 1]);
      Conservation(events[..|events| - 1]);
      forall c: nat ensures Accounted(Run(events), c) && Referencing(Run(events), c) && Faulted(Run(events), c) {
        assert Accounted(st, c);
        StepConserves(st, events[|events| - 1], c);
        StepFaults(st, events[|events| - 1], c);
      }
    }
  }

  // ----- replies -----

  function Replies(st: State, c: nat): nat {
    st.answers[c] + st.faults[c]
  }

  /** The event is a response given on a descriptor that holds the call. */
  predicate Responds(st: State, e: Event, c: nat) {
    match e
    case Respond => st.current == Holding(c)
    case RespondOn(i) => i < |st.slots| && st.slots[i] == Holding(c)
    case _ => false
  }

  function Responses(events: seq<Event>, c: nat): nat {
    if events == [] then 0
    else
      var before, e := events[..|events| - 1], events[|events| - 1];
      Responses(before, c) + if Responds(Run(before), e, c) then 1 else 0
  }

  /** How often the handler of the call ended with an exception. */
  function Throws(events: seq<Event>, c: nat): nat {
    if events == [] then 0
    else
      var before, e := events[..|events| - 1], events[|events| - 1];
      Throws(before, c) + if e.Throw? && Run(before).handling == Holding(c) then 1 else 0
  }

  /** Each call gets one reply per response that consumed it, and one if its handler throws; nothing else sends one. */
  lemma {:induction false} ExactReplies(events: seq<Event>, c: nat)
    ensures Replies(Run(events), c) == Responses(events, c) + Throws(events, c)
    ensures Responses(events, c) <= 1 && Throws(events, c) <= 1
  {
    RepliesByCause(events, c);
    ReplyCount(events, c);
  }

  lemma AnswersStep(st: State, e: Event, c: nat)
    ensures Step(st, e).answers[c] == st.answers[c] + if Responds(st, e, c) then 1 else 0
  {
  }

  lemma FaultsStep(st: State, e: Event, c: nat)
    ensures Step(st, e).faults[c] == st.faults[c] + if e.Throw? && st.handling == Holding(c) then 1 else 0
  {
  }

  lemma {:induction false} RepliesByCause(events: seq<Event>, c: nat)
    ensures Run(events).answers[c] == Responses(events, c)
    ensures Run(events).faults[c] == Throws(events, c)
  {
    if events != [] {
      var before, e := events[..|events| - 1], events[|events| - 1];
      RepliesByCause(before, c);
      AnswersStep(Run(before), e, c);
      FaultsStep(Run(before), e, c);
    }
  }

  /** A call is answered at most once and faulted at most once; while it is held it is not answered. */
  lemma {:induction false} ReplyCount(events: seq<Event>, c: nat)
    ensures var st := Run(events);
            && st.answers[c] <= 1 && st.faults[c] <= 1
            && (Holders(st, c) > 0 ==> Holders(st, c) == 1 && st.answers[c] == 0)
            && (Replies(st, c) == 2 <==> st.answers[c] == 1 && st.faults[c] == 1)
  {
    Conservation(events);
    assert Accounted(Run(events), c) && Faulted(Run(events), c);
  }

  /** A handler throws although its call is already answered, or deferred and still to be answered. */
  predicate Harmful(st: State, e: Event) {
    e.Throw? && st.handling.Holding? && (st.answers[st.handling.call] > 0 || st.handling in st.slots)
  }

  predicate Harmless(events: seq<Event>) {
    events != [] ==>
      var before := events[..|events| - 1];
      Harmless(before) && !Harmful(Run(before), events[|events| - 1])
  }

  /** A call whose handler threw harmlessly has been dropped, and so is not answered any more. */
  lemma {:induction false} HarmlessDrops(events: seq<Event>, c: nat)
    requires Harmless(events)
    ensures Run(events).faults[c] > 0 ==> Run(events).silent[c] + Run(events).lost[c] > 0
  {
    if events != [] {
      var before, e := events[..|events| - 1], events[|events| - 1];
      var st := Run(before);
      HarmlessDrops(before, c);
      Conservation(before);
      assert Accounted(st, c) && Faulted(st, c);
      if e.Throw? && st.handling == Holding(c) && Count(st.slots, c) > 0 {
        CountPositive(st.slots, c);
      }
      FaultsStep(st, e, c);
      LetGoStep(st, e, c);
    }
  }

  lemma {:induction false} AtMostOneReply(events: seq<Event>, c: nat)
    requires Harmless(events)
    ensures Replies(Run(events), c) <= 1
  {
    HarmlessDrops(events, c);
    Conservation(events);
    assert Accounted(Run(events), c) && Faulted(Run(events), c);
  }

  /** After a harmful throw there are two replies, or there are once the deferred call is answered. */
  lemma {:induction false} HarmfulRepliesTwice(events: seq<Event>)
    requires Harmful(Run(events), Throw)
    ensures var c, es := Run(events).handling.call, events + [Throw];
            Replies(Run(es), c) == 2 || exists i :: Replies(Run(es + [RespondOn(i)]), c) == 2
  {
    var st := Run(events);
    if st.answers[st.handling.call] > 0 {
      ReplyCount(events, st.handling.call);
      CarelessRepliesTwice(events);
    } else {
      var i :| 0 <= i < |st.slots| && st.slots[i] == st.handling;
      DeferredRepliesTwice(events, i);
    }
  }

  /** Throwing after the call was consumed makes a second reply, at once or when the deferred call is answered. */
  lemma {:induction false} CarelessRepliesTwice(events: seq<Event>)
    requires var st := Run(events);
             st.handling.Holding? && st.answers[st.handling.call] == 1
    ensures var st := Run(events);
            Replies(Run(events + [Throw]), st.handling.call) == 2
  {
    var st := Run(events);
    Conservation(events);
    assert Faulted(st, st.handling.call);
    assert (events + [Throw])[..|events|] == events;
  }

  lemma {:induction false} DeferredRepliesTwice(events: seq<Event>, i: nat)
    requires var st := Run(events);
             st.handling.Holding? && i < |st.slots| && st.slots[i] == st.handling
    ensures var st := Run(events);
            Replies(Run(events + [Throw] + [RespondOn(i)]), st.handling.call) == 2
  {
    var st := Run(events);
    var c := st.handling.call;
    Conservation(events);
    assert Faulted(st, c) && Accounted(st, c);
    CountUpdate(st.slots, i, Empty, c);
    assert (events + [Throw])[..|events|] == events;
    var es := events + [Throw];
    assert (es + [RespondOn(i)])[..|es|] == es;
  }

  /** What the event makes a descriptor let go of without a response. */
  function LetGo(st: State, e: Event): Slot {
    match e
    case DeferInto(i) => if st.current.Holding? && i < |st.slots| then st.slots[i] else Empty
    case MoveAssign(i, j) => if i < |st.slots| && j < |st.slots| && i != j then st.slots[i] else Empty
    case Clear(i) => if i < |st.slots| then st.slots[i] else Empty
    case Return => if st.handling.Holding? then st.current else Empty
    case Throw => if st.handling.Holding? then st.current else Empty
    case _ => Empty
  }

  /** A descriptor that holds a call is assigned to. */
  predicate Overwrites(st: State, e: Event) {
    (e.DeferInto? || e.MoveAssign?) && LetGo(st, e).Holding?
  }

  lemma LetGoStep(st: State, e: Event, c: nat)
    ensures Step(st, e).lost[c] == st.lost[c] + if Overwrites(st, e) then Holds(LetGo(st, e), c) else 0
    ensures Step(st, e).silent[c] == st.silent[c] + if Overwrites(st, e) then 0 else Holds(LetGo(st, e), c)
  {
  }

  /** No event lets go of the call. */
  predicate Kept(events: seq<Event>, c: nat) {
    events != [] ==>
      var before := events[..|events| - 1];
      Kept(before, c) && LetGo(Run(before), events[|events| - 1]) != Holding(c)
  }

  lemma {:induction false} KeptShows(events: seq<Event>, c: nat)
    ensures Kept(events, c) <==> Run(events).silent[c] == 0 && Run(events).lost[c] == 0
  {
    if events != [] {
      var before, e := events[..|events| - 1], events[|events| - 1];
      KeptShows(before, c);
      LetGoStep(Run(before), e, c);
    }
  }

  /** A call is answered, and then exactly once, if and only if it is not held any more and no event let go of it. */
  lemma {:induction false} EveryCallAnswered(events: seq<Event>, c: nat)
    requires c < |Run(events).refs|
    ensures Responses(events, c) == 1 <==> Holders(Run(events), c) == 0 && Kept(events, c)
    ensures Responses(events, c) <= 1
  {
    KeptShows(events, c);
    RepliesByCause(events, c);
    Conservation(events);
    assert Accounted(Run(events), c);
  }

  /** No descriptor is assigned to while it holds a call. */
  predicate Tidy(events: seq<Event>) {
    events != [] ==>
      var before := events[..|events| - 1];
      Tidy(before) && !Overwrites(Run(before), events[|events| - 1])
  }

  /** No call has been overwritten. */
  ghost predicate NoneLost(st: State) {
    forall c: nat :: st.lost[c] == 0
  }

  lemma TidyStep(st: State, e: Event)
    ensures NoneLost(Step(st, e)) <==> NoneLost(st) && !Overwrites(st, e)
  {
    var st' := Step(st, e);
    forall c: nat ensures st'.lost[c] == st.lost[c] + if Overwrites(st, e) then Holds(LetGo(st, e), c) else 0 {
      LetGoStep(st, e, c);
    }
    if Overwrites(st, e) {
      assert st'.lost[LetGo(st, e).call] > 0;
    }
  }

  lemma {:induction false} TidyShows(events: seq<Event>)
    ensures Tidy(events) <==> NoneLost(Run(events))
  {
    if events != [] {
      var before, e := events[..|events| - 1], events[|events| - 1];
      TidyShows(before);
      TidyStep(Run(before), e);
    }
  }

  /** Every reference on a message has a live descriptor behind it, exactly if no descriptor was overwritten. */
  lemma {:induction false} ReferencesExactly(events: seq<Event>)
    ensures (forall c: nat | c < |Run(events).refs| :: Run(events).refs[c] == Holders(Run(events), c)) <==> Tidy(events)
  {
    var st := Run(events);
    Conservation(events);
    TidyShows(events);
    forall c: nat ensures c < |st.refs| ==> (st.refs[c] == Holders(st, c) <==> st.lost[c] == 0) {
      assert Referencing(st, c);
    }
    forall c: nat ensures c >= |st.refs| ==> st.lost[c] == 0 {
      assert Accounted(st, c);
    }
  }

  /** A deferred call stays answerable, whatever happens, until it is answered or its descriptor lets go of it. */
  lemma {:induction false} DeferredStays(events: seq<Event>, c: nat)
    requires c < |Run(events).refs| && Run(events).current != Holding(c)
    ensures Holding(c) in Run(events).slots <==> Responses(events, c) == 0 && Kept(events, c)
  {
    var st := Run(events);
    KeptShows(events, c);
    RepliesByCause(events, c);
    Conservation(events);
    assert Accounted(st, c);
    if Count(st.slots, c) > 0 {
      CountPositive(st.slots, c);
    }
    if Holding(c) in st.slots {
      var i :| 0 <= i < |st.slots| && st.slots[i] == Holding(c);
      CountUpdate(st.slots, i, Empty, c);
    }
  }

  lemma {:induction false} CountPositive(slots: seq<Slot>, c: nat)
    requires Count(slots, c) > 0
    ensures exists i | 0 <= i < |slots| :: slots[i] == Holding(c)
  {
    var n := |slots| - 1;
    if slots[n] == Holding(c) {
    } else {
      CountPositive(slots[..n], c);
      var i :| 0 <= i < n && slots[..n][i] == Holding(c);
      assert slots[i] == Holding(c);
    }
  }

  /** Between requests there is no current one. */
  lemma {:induction false} IdleWithoutCurrent(events: seq<Event>)
    ensures Run(events).handling.Empty? ==> Run(events).current.Empty?
  {
    Conservation(events);
    assert Faulted(Run(events), 0);
  }
}
