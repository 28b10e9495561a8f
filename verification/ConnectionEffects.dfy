/**
  What each event of the connection protocol does to names, stubs and callbacks, in full, and
  what that makes of the calls of a callback over whole runs.
 */
module ConnectionEffects {
  import opened Connection

  // ----- one signal -----

  /** The signal is a notification the dispatcher passes on to the stubs at its path. */
  predicate Notifies(c: ClientState, m: Signal, s: StubState) {
    m.NotifyClient? && m.busname in c.busnames && m.objpath == s.objpath
  }

  /** A well-known name has got its first owner, or lost its last. */
  predicate Appears(m: Signal) {
    m.NameOwnerChanged? && WellKnown(m.name) && m.oldOwner == ""
  }

  predicate Disappears(m: Signal) {
    m.NameOwnerChanged? && WellKnown(m.name) && m.oldOwner != "" && m.newOwner == ""
  }

  /** Which state a signal puts a stub in. */
  lemma StateExactly(c: ClientState, m: Signal, i: nat)
    requires i < |c.stubs|
    ensures |Handle(c, m).stubs| == |c.stubs|
    ensures var s, s' := c.stubs[i], Handle(c, m).stubs[i];
            && s'.busname == s.busname && s'.objpath == s.objpath && s'.callback == s.callback
            && (Notifies(c, m, s) || (Appears(m) && m.name == s.busname) ==> s'.state == Connected)
            && (Disappears(m) && m.name == s.busname ==> s'.state == Disconnected)
            && (!Notifies(c, m, s) && !((Appears(m) || Disappears(m)) && m.name == s.busname) ==> s'.state == s.state)
  {
  }

  /**
    A callback is called at most once per signal, with the stub's new state: exactly if the
    state has changed, or the signal is a notification for the stub.
   */
  lemma ToldExactly(c: ClientState, m: Signal, i: nat)
    requires i < |c.stubs|
    ensures |Handle(c, m).stubs| == |c.stubs|
    ensures var s, s' := c.stubs[i], Handle(c, m).stubs[i];
            && (s.callback && (s'.state != s.state || Notifies(c, m, s)) ==> s'.told == s.told + [s'.state])
            && (!(s.callback && (s'.state != s.state || Notifies(c, m, s))) ==> s'.told == s.told)
  {
  }

  /** Which names are known after a signal; and a signal sends none. */
  lemma NamesExactly(c: ClientState, m: Signal)
    ensures Handle(c, m).outbox == c.outbox
    ensures forall name :: name in Handle(c, m).busnames <==>
              (name in c.busnames && !(Disappears(m) && m.name == name)) || (Appears(m) && m.name == name)
  {
  }

  // ----- what the program does -----

  /** A new stub is disconnected; a message tells it if its name is owned already. */
  lemma AddStubExactly(w: World, busname: string, objpath: string)
    requires w.phase.Running?
    ensures Step(w, AddStub(busname, objpath)) ==
            w.(client := ClientState(
                 w.client.busnames,
                 w.client.stubs + [StubState(busname, objpath, Disconnected, false, [])],
                 if busname in w.client.busnames then w.client.outbox + [NotifyClient(busname, objpath)]
                 else w.client.outbox))
  {
    assert w.client.outbox + [] == w.client.outbox;
  }

  /** Only the removed stub goes; the others keep their order and state. */
  lemma RemoveStubExactly(w: World, i: nat, j: nat)
    requires i < |w.client.stubs| && j < |w.client.stubs| && i != j
    ensures var w' := Step(w, RemoveStub(i));
            && |w'.client.stubs| == |w.client.stubs| - 1
            && w'.client.stubs[if j < i then j else j - 1] == w.client.stubs[j]
            && w' == w.(client := w.client.(stubs := w'.client.stubs))
  {
  }

  /** A new callback has not been called; a message tells it if the stub is connected. */
  lemma SetCallbackExactly(w: World, i: nat, present: bool)
    requires i < |w.client.stubs|
    ensures var s, w' := w.client.stubs[i], Step(w, SetStubCallback(i, present));
            && |w'.client.stubs| == |w.client.stubs|
            && w'.client.stubs[i] == StubState(s.busname, s.objpath, s.state, present, [])
            && (forall j | 0 <= j < |w.client.stubs| && j != i :: w'.client.stubs[j] == w.client.stubs[j])
            && w'.client.outbox ==
                 (if present && s.state == Connected then w.client.outbox + [NotifyClient(s.busname, s.objpath)]
                  else w.client.outbox)
            && w' == w.(client := w.client.(stubs := w'.client.stubs, outbox := w'.client.outbox))
  {
    assert w.client.outbox + [] == w.client.outbox;
  }

  // ----- whole runs -----

  /** The calls of a callback, from the events themselves: what a dispatch adds for the stub at a position. */
  function CallsOf(w: World, e: Event, i: nat): seq<ConnectionState> {
    if i >= |w.client.stubs| || !e.Dispatch? || !w.phase.Running? || w.inbox == [] || !w.client.stubs[i].callback then []
    else
      var s, m := w.client.stubs[i], w.inbox[0];
      if Notifies(w.client, m, s) then [Connected]
      else if Appears(m) && m.name == s.busname && s.state == Disconnected then [Connected]
      else if Disappears(m) && m.name == s.busname && s.state == Connected then [Disconnected]
      else []
  }

  /** Where the stub at a position is after an event that does not remove it. */
  function Moved(e: Event, i: nat): nat {
    if e.RemoveStub? && e.index < i then i - 1 else i
  }

  lemma CallsExactly(w: World, e: Event, i: nat)
    requires i < |w.client.stubs| && e != RemoveStub(i) && !(e.SetStubCallback? && e.index == i)
    ensures Moved(e, i) < |Step(w, e).client.stubs|
    ensures var s, s' := w.client.stubs[i], Step(w, e).client.stubs[Moved(e, i)];
            && s'.busname == s.busname && s'.objpath == s.objpath && s'.callback == s.callback
            && s'.told == s.told + CallsOf(w, e, i)
  {
    match e
    case Dispatch =>
      if w.phase.Running? && w.inbox != [] {
        StateExactly(w.client, w.inbox[0], i);
        ToldExactly(w.client, w.inbox[0], i);
      }
    case AddStub(b, o) => if w.phase.Running? { AddStubExactly(w, b, o); }
    case RemoveStub(k) => if k < |w.client.stubs| { RemoveStubExactly(w, k, i); }
    case SetStubCallback(k, p) => if k < |w.client.stubs| { SetCallbackExactly(w, k, p); }
    case _ =>
  }

  function After(w: World, events: seq<Event>): World {
    if events == [] then w else Step(After(w, events[..|events| - 1]), events[|events| - 1])
  }

  function PositionAfter(events: seq<Event>, i: nat): nat {
    if events == [] then i else Moved(events[|events| - 1], PositionAfter(events[..|events| - 1], i))
  }

  /** The event neither removes the stub at a position nor gives it another callback. */
  predicate Spares(e: Event, i: nat) {
    e != RemoveStub(i) && !(e.SetStubCallback? && e.index == i)
  }

  /** The stub at a position stays, with its callback, through some events. */
  predicate Kept(events: seq<Event>, i: nat) {
    events != [] ==>
      var before := events[..|events| - 1];
      Kept(before, i) && Spares(events[|events| - 1], PositionAfter(before, i))
  }

  /** The calls some events make, one after the other. */
  function AllCalls(w: World, events: seq<Event>, i: nat): seq<ConnectionState> {
    if events == [] then []
    else
      var before := events[..|events| - 1];
      AllCalls(w, before, i) + CallsOf(After(w, before), events[|events| - 1], PositionAfter(before, i))
  }

  /** Through any events that keep the stub and its callback, the callback is called exactly as each signal says. */
  lemma {:induction false} ToldOverRuns(w: World, events: seq<Event>, i: nat)
    requires i < |w.client.stubs| && Kept(events, i)
    ensures PositionAfter(events, i) < |After(w, events).client.stubs|
    ensures After(w, events).client.stubs[PositionAfter(events, i)].told == w.client.stubs[i].told + AllCalls(w, events, i)
  {
    if events == [] {
      assert w.client.stubs[i].told + [] == w.client.stubs[i].told;
    } else {
      var before, e := events[..|events| - 1], events[|events| - 1];
      ToldOverRuns(w, before, i);
      CallsExactly(After(w, before), e, PositionAfter(before, i));
    }
  }

  /** After carries a run on. */
  lemma {:induction false} AfterRun(before: seq<Event>, events: seq<Event>)
    ensures After(Run(before), events) == Run(before + events)
  {
    if events == [] {
      assert before + events == before;
    } else {
      var front, all := events[..|events| - 1], before + events;
      assert all[..|all| - 1] == before + front && all[|all| - 1] == events[|events| - 1];
      AfterRun(before, front);
    }
  }
}
