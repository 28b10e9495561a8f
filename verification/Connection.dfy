/**
  The connection protocol as a state machine over the bus, the two message queues between
  bus and client, and the client's view: owned names, stubs and their connection state.
 */
module Connection {

  datatype ConnectionState = Connected | Disconnected

  /** Signals the dispatcher itself acts on. */
  datatype Signal =
    | NotifyClient(busname: string, objpath: string)
    | NameOwnerChanged(name: string, oldOwner: string, newOwner: string)

  /** told lists the states the current callback has been called with. */
  datatype StubState = StubState(
    busname: string, objpath: string, state: ConnectionState, callback: bool, told: seq<ConnectionState>)

  datatype ClientState = ClientState(busnames: set<string>, stubs: seq<StubState>, outbox: seq<Signal>)

  /** Unique connection names start with a colon and are not tracked. */
  predicate WellKnown(name: string) {
    !(name != "" && name[0] == ':')
  }

  // ----- the client -----

  /** Connected::state_changed. */
  function StateChanged(s: StubState, state: ConnectionState, force: bool): StubState {
    if s.state != state || force then
      s.(state := state, told := if s.callback then s.told + [state] else s.told)
    else s
  }

  function NewStub(busname: string, objpath: string): StubState {
    StubState(busname, objpath, Disconnected, false, [])
  }

  /** notify_client: every stub at the path, whatever its bus name. */
  function NotifyPath(stubs: seq<StubState>, objpath: string): (r: seq<StubState>)
    ensures |r| == |stubs|
    ensures forall i | 0 <= i < |r| ::
              r[i] == if stubs[i].objpath == objpath then StateChanged(stubs[i], Connected, true) else stubs[i]
  {
    seq(|stubs|, i requires 0 <= i < |stubs| =>
      if stubs[i].objpath == objpath then StateChanged(stubs[i], Connected, true) else stubs[i])
  }

  /** notify_clients: every stub of the bus name. */
  function NotifyName(stubs: seq<StubState>, busname: string, state: ConnectionState): (r: seq<StubState>)
    ensures |r| == |stubs|
    ensures forall i | 0 <= i < |r| ::
              r[i] == if stubs[i].busname == busname then StateChanged(stubs[i], state, false) else stubs[i]
  {
    seq(|stubs|, i requires 0 <= i < |stubs| =>
      if stubs[i].busname == busname then StateChanged(stubs[i], state, false) else stubs[i])
  }

  /** try_handle_signal for the two signals of the protocol. */
  function Handle(c: ClientState, m: Signal): ClientState {
    match m
    case NotifyClient(busname, objpath) =>
      if busname in c.busnames then c.(stubs := NotifyPath(c.stubs, objpath)) else c
    case NameOwnerChanged(name, oldOwner, newOwner) =>
      if !WellKnown(name) then c
      else if oldOwner == "" then
        c.(busnames := c.busnames + {name}, stubs := NotifyName(c.stubs, name, Connected))
      else if newOwner == "" then
        c.(busnames := c.busnames - {name}, stubs := NotifyName(c.stubs, name, Disconnected))
      else c
  }

  /** add_client: a stub of a name already owned is told by a message to ourselves. */
  function AddClient(c: ClientState, busname: string, objpath: string): ClientState {
    c.(stubs := c.stubs + [NewStub(busname, objpath)],
       outbox := c.outbox + if busname in c.busnames then [NotifyClient(busname, objpath)] else [])
  }

  function RemoveClient(c: ClientState, i: nat): ClientState
    requires i < |c.stubs|
  {
    c.(stubs := c.stubs[..i] + c.stubs[i + 1..])
  }

  /** Connected::set_callback: a callback set late is told by a message to ourselves. */
  function SetCallback(c: ClientState, i: nat, present: bool): ClientState
    requires i < |c.stubs|
  {
    var s := c.stubs[i];
    c.(stubs := c.stubs[i := s.(callback := present, told := [])],
       outbox := c.outbox + if present && s.state == Connected then [NotifyClient(s.busname, s.objpath)] else [])
  }

  // ----- the bus and the whole system -----

  /** Start-up: the match rule first, then the list of names, then the event loop. */
  datatype Phase = Starting | Subscribed(owned: set<string>) | Running

  datatype World = World(phase: Phase, owners: map<string, string>, client: ClientState, inbox: seq<Signal>)

  datatype Event =
    | Acquire(name: string, owner: string)
    | HandOver(name: string, owner: string)
    | Release(name: string)
    | Subscribe
    | ListNames
    | Route
    | Dispatch
    | AddStub(busname: string, objpath: string)
    | RemoveStub(index: nat)
    | SetStubCallback(index: nat, present: bool)

  function Owned(owners: map<string, string>): set<string> {
    set name | name in owners && WellKnown(name)
  }

  /** The bus emits an owner change to everyone subscribed. */
  function Emit(w: World, m: Signal): World {
    if w.phase.Starting? then w else w.(inbox := w.inbox + [m])
  }

  /** One step; events that are not possible now change nothing. */
  function Step(w: World, e: Event): World {
    var c := w.client;
    match e
    case Acquire(name, owner) =>
      if owner == "" || name in w.owners then w
      else Emit(w, NameOwnerChanged(name, "", owner)).(owners := w.owners[name := owner])
    case HandOver(name, owner) =>
      if owner == "" || name !in w.owners || w.owners[name] == "" then w
      else Emit(w, NameOwnerChanged(name, w.owners[name], owner)).(owners := w.owners[name := owner])
    case Release(name) =>
      if name !in w.owners || w.owners[name] == "" then w
      else Emit(w, NameOwnerChanged(name, w.owners[name], "")).(owners := w.owners - {name})
    case Subscribe => if w.phase.Starting? then w.(phase := Subscribed(Owned(w.owners))) else w
    case ListNames =>
      if w.phase.Subscribed? then w.(phase := Running, client := c.(busnames := Owned(w.owners))) else w
    case Route =>
      if c.outbox == [] then w
      else w.(client := c.(outbox := c.outbox[1..]), inbox := w.inbox + [c.outbox[0]])
    case Dispatch =>
      if !w.phase.Running? || w.inbox == [] then w
      else w.(client := Handle(c, w.inbox[0]), inbox := w.inbox[1..])
    case AddStub(busname, objpath) =>
      if w.phase.Running? then w.(client := AddClient(c, busname, objpath)) else w
    case RemoveStub(i) => if i < |c.stubs| then w.(client := RemoveClient(c, i)) else w
    case SetStubCallback(i, present) => if i < |c.stubs| then w.(client := SetCallback(c, i, present)) else w
  }

  const START := World(Starting, map[], ClientState({}, [], []), [])

  function Run(events: seq<Event>): World {
    if events == [] then START else Step(Run(events[..|events| - 1]), events[|events| - 1])
  }

  // ----- subscribe, then snapshot -----

  /** The names owned after replaying owner changes in order; hand-overs change nothing. */
  function Replay(names: set<string>, log: seq<Signal>): set<string>
    decreases log
  {
    if log == [] then names else Replay(Tracked(names, log[0]), log[1..])
  }

  function Tracked(names: set<string>, m: Signal): set<string> {
    if m.NotifyClient? || !WellKnown(m.name) then names
    else if m.oldOwner == "" then names + {m.name}
    else if m.newOwner == "" then names - {m.name}
    else names
  }

  lemma {:induction false} ReplayAppend(names: set<string>, log: seq<Signal>, m: Signal)
    ensures Replay(names, log + [m]) == Tracked(Replay(names, log), m)
    decreases log
  {
    if log == [] {
      assert ([] + [m])[1..] == [];
    } else {
      assert (log + [m])[1..] == log[1..] + [m];
      ReplayAppend(Tracked(names, log[0]), log[1..], m);
    }
  }

  /** Whether a name is owned after a log depends on the start only if the log is silent about it. */
  lemma {:induction false} ReplayForgets(a: set<string>, b: set<string>, log: seq<Signal>, name: string)
    ensures || (name in Replay(a, log) <==> name in Replay(b, log))
            || ((name in Replay(a, log) <==> name in a) && (name in Replay(b, log) <==> name in b))
    decreases log
  {
    if log != [] {
      ReplayForgets(Tracked(a, log[0]), Tracked(b, log[0]), log[1..], name);
    }
  }

  /**
    Replaying onto a snapshot taken later the events that led to it changes nothing: the
    events queued between the match rule and the list of names do no harm.
   */
  lemma ReplayTwice(names: set<string>, log: seq<Signal>)
    ensures Replay(Replay(names, log), log) == Replay(names, log)
  {
    forall name ensures name in Replay(Replay(names, log), log) <==> name in Replay(names, log) {
      ReplayForgets(names, Replay(names, log), log, name);
    }
  }

  // ----- what holds in every reachable state -----

  /** Stub addresses a program uses: bus name and object path. */
  type Addresses = set<(string, string)>

  /** Stubs that share an object path also share the bus name. */
  predicate PathDeterminesName(addresses: Addresses) {
    forall a, b | a in addresses && b in addresses && a.1 == b.1 :: a.0 == b.0
  }

  predicate Creates(e: Event, addresses: Addresses) {
    e.AddStub? ==> (e.busname, e.objpath) in addresses
  }

  predicate AllCreate(events: seq<Event>, addresses: Addresses) {
    forall e | e in events :: Creates(e, addresses)
  }

  /** The name the last call of the callback left its owner with. */
  predicate ToldConnected(s: StubState) {
    s.told != [] && s.told[|s.told| - 1] == Connected
  }

  /** A stub that does not know, or whose callback has not been told, that it is connected. */
  predicate Unaware(s: StubState) {
    s.state == Disconnected || (s.callback && !ToldConnected(s))
  }

  /** Connected implies owned; owned but unaware implies that the notification is in flight. */
  predicate StubInv(s: StubState, busnames: set<string>, inFlight: seq<Signal>) {
    && (s.state == Connected ==> s.busname in busnames)
    && (s.busname in busnames && Unaware(s) ==> NotifyClient(s.busname, s.objpath) in inFlight)
    && (s.callback && s.state == Disconnected ==> !ToldConnected(s))
  }

  predicate InFlightInv(inFlight: seq<Signal>, addresses: Addresses) {
    forall m | m in inFlight && m.NotifyClient? :: (m.busname, m.objpath) in addresses
  }

  predicate ClientInv(c: ClientState, inbox: seq<Signal>, addresses: Addresses) {
    && InFlightInv(inbox + c.outbox, addresses)
    && forall i | 0 <= i < |c.stubs| ::
         (c.stubs[i].busname, c.stubs[i].objpath) in addresses && StubInv(c.stubs[i], c.busnames, inbox + c.outbox)
  }

  predicate TrackInv(w: World) {
    && (forall name | name in w.owners :: w.owners[name] != "")
    && (forall m | m in w.client.outbox :: m.NotifyClient?)
    && match w.phase
       case Starting => w.inbox == [] && w.client.stubs == [] && w.client.outbox == []
       case Subscribed(names) =>
         w.client.stubs == [] && w.client.outbox == [] && Replay(names, w.inbox) == Owned(w.owners)
         && forall m | m in w.inbox :: m.NameOwnerChanged?
       case Running => Replay(w.client.busnames, w.inbox) == Owned(w.owners)
  }

  predicate Inv(w: World, addresses: Addresses) {
    TrackInv(w) && ClientInv(w.client, w.inbox, addresses)
  }

  lemma OwnerChangeTracked(w: World, owners: map<string, string>, m: Signal)
    requires TrackInv(w) && m.NameOwnerChanged?
    requires forall name | name in owners :: owners[name] != ""
    requires Owned(owners) == Tracked(Owned(w.owners), m)
    ensures TrackInv(Emit(w, m).(owners := owners))
  {
    match w.phase
    case Starting =>
    case Subscribed(names) => ReplayAppend(names, w.inbox, m);
    case Running => ReplayAppend(w.client.busnames, w.inbox, m);
  }

  lemma TracksStep(w: World, e: Event)
    requires TrackInv(w)
    ensures TrackInv(Step(w, e))
  {
    var c := w.client;
    match e
    case Acquire(name, owner) =>
      if owner != "" && name !in w.owners {
        var owners := w.owners[name := owner];
        assert Owned(owners) == Tracked(Owned(w.owners), NameOwnerChanged(name, "", owner));
        OwnerChangeTracked(w, owners, NameOwnerChanged(name, "", owner));
      }
    case HandOver(name, owner) =>
      if owner != "" && name in w.owners && w.owners[name] != "" {
        var owners := w.owners[name := owner];
        assert Owned(owners) == Owned(w.owners);
        OwnerChangeTracked(w, owners, NameOwnerChanged(name, w.owners[name], owner));
      }
    case Release(name) =>
      if name in w.owners && w.owners[name] != "" {
        var m := NameOwnerChanged(name, w.owners[name], "");
        assert Owned(w.owners - {name}) == Tracked(Owned(w.owners), m);
        OwnerChangeTracked(w, w.owners - {name}, m);
      }
    case ListNames =>
      if w.phase.Subscribed? {
        ReplayTwice(w.phase.owned, w.inbox);
      }
    case Route =>
      if c.outbox != [] {
        ReplayAppend(c.busnames, w.inbox, c.outbox[0]);
        assert c.outbox[0] in c.outbox;
      }
    case _ =>
  }

  /** The callback's owner is told of the very last state it was called with. */
  lemma StateChangedInv(s: StubState, state: ConnectionState, force: bool)
    ensures var r := StateChanged(s, state, force);
            r.busname == s.busname && r.objpath == s.objpath && r.callback == s.callback && r.state == state
    ensures var r := StateChanged(s, state, force);
            (force || s.state != state) && s.callback ==> (ToldConnected(r) <==> state == Connected)
    ensures !force && s.state == state ==> StateChanged(s, state, force) == s
  {
  }

  lemma HandleKeeps(c: ClientState, m: Signal, rest: seq<Signal>, addresses: Addresses)
    requires PathDeterminesName(addresses) && ClientInv(c, [m] + rest, addresses)
    ensures ClientInv(Handle(c, m), rest, addresses)
  {
    var after := Handle(c, m);
    var before := [m] + rest + c.outbox;
    assert after.outbox == c.outbox;
    assert before == [m] + (rest + c.outbox);
    assert m in before;
    forall i | 0 <= i < |after.stubs|
      ensures (after.stubs[i].busname, after.stubs[i].objpath) in addresses
      ensures StubInv(after.stubs[i], after.busnames, rest + c.outbox)
    {
      var s := c.stubs[i];
      assert StubInv(s, c.busnames, before);
      StateChangedInv(s, Connected, true);
      StateChangedInv(s, Connected, false);
      StateChangedInv(s, Disconnected, false);
    }
  }

  /** What the client is asked to do by its program. */
  lemma ProgramKeeps(w: World, e: Event, addresses: Addresses)
    requires e.AddStub? || e.RemoveStub? || e.SetStubCallback?
    requires Inv(w, addresses) && PathDeterminesName(addresses) && Creates(e, addresses)
    ensures ClientInv(Step(w, e).client, Step(w, e).inbox, addresses)
  {
  }

  lemma ClientStep(w: World, e: Event, addresses: Addresses)
    requires Inv(w, addresses) && PathDeterminesName(addresses) && Creates(e, addresses)
    ensures ClientInv(Step(w, e).client, Step(w, e).inbox, addresses)
  {
    var c := w.client;
    match e
    case Dispatch =>
      if w.phase.Running? && w.inbox != [] {
        assert w.inbox == [w.inbox[0]] + w.inbox[1..];
        HandleKeeps(c, w.inbox[0], w.inbox[1..], addresses);
      }
    case Route =>
      if c.outbox != [] {
        var w' := Step(w, e);
        assert w'.inbox + w'.client.outbox == w.inbox + c.outbox;
      }
    case AddStub(_, _) => ProgramKeeps(w, e, addresses);
    case RemoveStub(_) => ProgramKeeps(w, e, addresses);
    case SetStubCallback(_, _) => ProgramKeeps(w, e, addresses);
    case _ =>
  }

  /** Every reachable state satisfies the invariant. */
  lemma {:induction false} Reachable(events: seq<Event>, addresses: Addresses)
    requires PathDeterminesName(addresses) && AllCreate(events, addresses)
    ensures Inv(Run(events), addresses)
  {
    if events != [] {
      var before, last := events[..|events| - 1], events[|events| - 1];
      Reachable(before, addresses);
      assert last in events;
      TracksStep(Run(before), last);
      ClientStep(Run(before), last, addresses);
    }
  }

  /**
    In every reachable state the dispatcher's names, once the owner changes still queued are
    replayed, are exactly the well-known names with an owner.
   */
  lemma NamesCatchUp(events: seq<Event>)
    ensures var w := Run(events); w.phase.Running? ==> Replay(w.client.busnames, w.inbox) == Owned(w.owners)
  {
    AllTracked(events);
  }

  lemma {:induction false} AllTracked(events: seq<Event>)
    ensures TrackInv(Run(events))
  {
    if events != [] {
      AllTracked(events[..|events| - 1]);
      TracksStep(Run(events[..|events| - 1]), events[|events| - 1]);
    }
  }

  /** No signal is queued on either side of a client that has started. */
  predicate Quiet(w: World) {
    w.phase.Running? && w.inbox == [] && w.client.outbox == []
  }

  /** Every stub is connected exactly when the bus has an owner for its name, and so was its callback told. */
  predicate Agrees(w: World) {
    forall s | s in w.client.stubs ::
      && (s.state == Connected <==> s.busname in w.owners)
      && (s.callback ==> (ToldConnected(s) <==> s.busname in w.owners))
  }

  /** In quiet states a stub is connected, and its callback told so, exactly if its name is well-known and owned. */
  lemma QuietStates(events: seq<Event>, addresses: Addresses)
    requires PathDeterminesName(addresses) && AllCreate(events, addresses) && Quiet(Run(events))
    ensures var w := Run(events);
            forall s | s in w.client.stubs ::
              && (s.busname, s.objpath) in addresses
              && (s.state == Connected <==> s.busname in Owned(w.owners))
              && (s.callback ==> (ToldConnected(s) <==> s.busname in Owned(w.owners)))
  {
    Reachable(events, addresses);
    var w := Run(events);
    assert w.inbox + w.client.outbox == [];
    forall s | s in w.client.stubs
      ensures (s.busname, s.objpath) in addresses
      ensures s.state == Connected <==> s.busname in Owned(w.owners)
      ensures s.callback ==> (ToldConnected(s) <==> s.busname in Owned(w.owners))
    {
      var i :| 0 <= i < |w.client.stubs| && w.client.stubs[i] == s;
      assert StubInv(s, w.client.busnames, w.inbox + w.client.outbox);
    }
  }

  /** Unique names are never tracked, so agreement needs well-known ones. */
  predicate AllWellKnown(addresses: Addresses) {
    forall a | a in addresses :: WellKnown(a.0)
  }

  lemma QuietAgrees(events: seq<Event>, addresses: Addresses)
    requires PathDeterminesName(addresses) && AllWellKnown(addresses)
    requires AllCreate(events, addresses) && Quiet(Run(events))
    ensures Agrees(Run(events))
  {
    QuietStates(events, addresses);
  }

  /** A stub on a unique name: the bus has an owner for it, but the stub is never told. */
  function Ignored(unique: string, path: string): seq<Event> {
    [Subscribe, ListNames, Acquire(unique, unique), Dispatch, AddStub(unique, path)]
  }

  /** The world with a unique name owned and its owner change dispatched. */
  function Ignoring(unique: string): World {
    World(Running, map[unique := unique], ClientState({}, [], []), [])
  }

  lemma IgnoredName(unique: string)
    requires !WellKnown(unique)
    ensures Step(Step(Step(Step(START, Subscribe), ListNames), Acquire(unique, unique)), Dispatch) == Ignoring(unique)
  {
    var w2 := Step(Step(START, Subscribe), ListNames);
    assert w2 == World(Running, map[], ClientState({}, [], []), []);
    var m := NameOwnerChanged(unique, "", unique);
    assert [m][1..] == [];
    assert Step(w2, Acquire(unique, unique)) == Ignoring(unique).(inbox := [m]);
  }

  lemma IgnoredDisagrees(unique: string, path: string)
    requires !WellKnown(unique)
    ensures Quiet(Run(Ignored(unique, path))) && !Agrees(Run(Ignored(unique, path)))
  {
    var es := Ignored(unique, path);
    assert Run(es[..4]) == Ignoring(unique) by {
      FourSteps(es, 0, Subscribe, ListNames, Acquire(unique, unique), Dispatch);
      IgnoredName(unique);
    }
    var w := Run(es);
    assert w.client == ClientState({}, [NewStub(unique, path)], []) && w.inbox == []
           && w.phase.Running? && unique in w.owners by {
      RunStep(es, 5);
      assert es[..5] == es;
    }
    assert w.client.stubs[0] in w.client.stubs;
  }

  /** Two names at one path: the owned one's notification connects the stub of the other. */
  function Misled(owned: string, other: string, path: string): seq<Event> {
    [Subscribe, ListNames, Acquire(owned, "owner"), Dispatch,
     AddStub(other, path), AddStub(owned, path), Route, Dispatch]
  }

  /** The world after the owned name has been taken up, before there are stubs. */
  function Watching(owned: string): World {
    World(Running, map[owned := "owner"], ClientState({owned}, [], []), [])
  }

  lemma MisledWatches(owned: string)
    requires WellKnown(owned)
    ensures Step(Step(Step(Step(START, Subscribe), ListNames), Acquire(owned, "owner")), Dispatch) == Watching(owned)
  {
    var w2 := Step(Step(START, Subscribe), ListNames);
    assert w2 == World(Running, map[], ClientState({}, [], []), []);
    var m := NameOwnerChanged(owned, "", "owner");
    assert [m][1..] == [];
    assert Step(w2, Acquire(owned, "owner")) == World(Running, map[owned := "owner"], ClientState({}, [], []), [m]);
  }

  lemma MisledConnects(owned: string, other: string, path: string)
    requires owned != other
    ensures var w := Step(Step(Step(Step(Watching(owned), AddStub(other, path)), AddStub(owned, path)), Route), Dispatch);
            Quiet(w) && w.owners.Keys == {owned}
            && |w.client.stubs| == 2 && w.client.stubs[0].busname == other && w.client.stubs[0].state == Connected
  {
    var m := NotifyClient(owned, path);
    var w5 := Step(Watching(owned), AddStub(other, path));
    assert w5.client == ClientState({owned}, [NewStub(other, path)], []);
    var w6 := Step(w5, AddStub(owned, path));
    assert w6.client == ClientState({owned}, [NewStub(other, path), NewStub(owned, path)], [m]);
    var w7 := Step(w6, Route);
    assert w7.inbox == [m] && w7.client.outbox == [];
  }

  lemma MisledDisagrees(owned: string, other: string, path: string)
    requires owned != other && WellKnown(owned)
    ensures Quiet(Run(Misled(owned, other, path))) && !Agrees(Run(Misled(owned, other, path)))
  {
    var es := Misled(owned, other, path);
    assert Run(es[..4]) == Watching(owned) by {
      FourSteps(es, 0, Subscribe, ListNames, Acquire(owned, "owner"), Dispatch);
      MisledWatches(owned);
    }
    var w := Run(es);
    assert Quiet(w) && other !in w.owners && w.client.stubs != []
           && w.client.stubs[0].busname == other && w.client.stubs[0].state == Connected by {
      FourSteps(es, 4, AddStub(other, path), AddStub(owned, path), Route, Dispatch);
      assert es[..8] == es;
      MisledConnects(owned, other, path);
      assert other !in w.owners.Keys;
    }
    assert w.client.stubs[0] in w.client.stubs;
  }

  lemma FourSteps(es: seq<Event>, n: nat, a: Event, b: Event, c: Event, d: Event)
    requires n + 4 <= |es| && es[n..n + 4] == [a, b, c, d]
    ensures Run(es[..n + 4]) == Step(Step(Step(Step(Run(es[..n]), a), b), c), d)
    ensures n == 0 ==> Run(es[..n]) == START
  {
    assert es[n] == es[n..n + 4][0] && es[n + 1] == es[n..n + 4][1];
    assert es[n + 2] == es[n..n + 4][2] && es[n + 3] == es[n..n + 4][3];
    RunStep(es, n + 1); RunStep(es, n + 2); RunStep(es, n + 3); RunStep(es, n + 4);
  }

  lemma RunStep(es: seq<Event>, n: nat)
    requires 0 < n <= |es|
    ensures Run(es[..n]) == Step(Run(es[..n - 1]), es[n - 1])
  {
    assert es[..n][..n - 1] == es[..n - 1];
  }

  /**
    A program whose stubs have the given addresses finds itself in agreement with the bus
    whenever it is quiet, in all its runs, exactly if no two addresses share a path only and
    none is on a unique name.
   */
  lemma AgreementExactly(addresses: Addresses)
    ensures (forall events | AllCreate(events, addresses) && Quiet(Run(events)) :: Agrees(Run(events)))
            <==> PathDeterminesName(addresses) && AllWellKnown(addresses)
  {
    if !AllWellKnown(addresses) {
      var a :| a in addresses && !WellKnown(a.0);
      var events := Ignored(a.0, a.1);
      IgnoredDisagrees(a.0, a.1);
      assert AllCreate(events, addresses);
    } else if PathDeterminesName(addresses) {
      forall events | AllCreate(events, addresses) && Quiet(Run(events)) ensures Agrees(Run(events)) {
        QuietAgrees(events, addresses);
      }
    } else {
      var a, b :| a in addresses && b in addresses && a.1 == b.1 && a.0 != b.0;
      var events := Misled(a.0, b.0, a.1);
      MisledDisagrees(a.0, b.0, a.1);
      assert AllCreate(events, addresses);
    }
  }
}
