/**
  Dispatcher and stubs as objects: connection states and callbacks, the intrusive list of
  attached signals, property flags, and the match table they share. Every method is proved
  against the state machines of Connection and Matches.
 */
module Dispatching {
  import opened Connection
  import C = Connection
  import opened MatchStrings
  import M = Matches
  import Types
  import Codec

  class ClientSignal {
    const stub: Stub
    const name: string
    /** The match rule generated for the signal; its parts never change. */
    const rule: string
    var next: ClientSignal?

    constructor (stub: Stub, name: string)
      ensures this.stub == stub && this.name == name && next == null
      ensures rule == SignalMatch(stub.busname, stub.iface, name)
    {
      this.stub, this.name, next := stub, name, null;
      rule := SignalMatch(stub.busname, stub.iface, name);
    }
  }

  class ClientProperty {
    const name: string
    const data: Types.Type
    var callback: bool
    /** The values the callback was called with, in order. */
    var calls: seq<Codec.Value>
    /** How often it was called with an error. */
    var errors: nat

    constructor (name: string, data: Types.Type)
      ensures this.name == name && this.data == data && !callback && calls == [] && errors == 0
    {
      this.name, this.data, callback, calls, errors := name, data, false, [], 0;
    }
  }

  /** The match texts of a list of signals. */
  ghost function Texts(chain: seq<ClientSignal>): (r: seq<string>)
    ensures |r| == |chain| && forall i | 0 <= i < |r| :: r[i] == chain[i].rule
  {
    seq(|chain|, i requires 0 <= i < |chain| => chain[i].rule)
  }

  /** Where a signal stands in the list; the list's length if it is not attached. */
  ghost function IndexOf(chain: seq<ClientSignal>, sig: ClientSignal): (k: nat)
    ensures k <= |chain| && (k < |chain| <==> sig in chain)
    ensures k < |chain| ==> chain[k] == sig
    ensures forall j | 0 <= j < k :: chain[j] != sig
  {
    if chain == [] || chain[0] == sig then 0 else 1 + IndexOf(chain[1..], sig)
  }

  class Stub {
    const busname: string
    const iface: string
    const objpath: string
    /** The match rule generated for the stub's property changes. */
    const propertyRule: string
    var disp: Dispatcher?

    var state: ConnectionState
    var callback: bool
    /** The calls of the current callback, in order. */
    var told: seq<ConnectionState>

    var signals: ClientSignal?
    /** The attached signals in list order. */
    ghost var chain: seq<ClientSignal>
    const properties: seq<ClientProperty>
    var flags: seq<bool>
    var attachedProperties: int

    ghost predicate ListValid()
      reads this`signals, this`chain, chain`next
    {
      && (signals == if chain == [] then null else chain[0])
      && (forall i | 0 <= i < |chain| :: chain[i].stub == this)
      && (forall i {:trigger chain[i].next} | 0 <= i < |chain| - 1 :: chain[i].next == chain[i + 1])
      && (chain != [] ==> chain[|chain| - 1].next == null)
      && (forall i, j | 0 <= i < j < |chain| :: chain[i] != chain[j])
    }

    ghost predicate Valid()
      reads this`signals, this`chain, this`flags, this`attachedProperties, chain`next
    {
      ListValid() && |flags| == |properties| && attachedProperties == M.Attached(flags)
    }

    ghost function ConnectionView(): StubState
      reads this`state, this`callback, this`told
    {
      StubState(busname, objpath, state, callback, told)
    }

    ghost function MatchView(): M.StubMatches
      reads this`chain, this`flags
    {
      M.StubMatches(Texts(chain), propertyRule, flags)
    }

    constructor (busname: string, iface: string, objpath: string, properties: seq<ClientProperty>)
      requires forall i, j | 0 <= i < j < |properties| :: properties[i] != properties[j]
      ensures this.busname == busname && this.iface == iface && this.objpath == objpath
      ensures this.properties == properties && disp == null && chain == []
      ensures Valid() && ConnectionView() == NewStub(busname, objpath)
      ensures propertyRule == PropertyMatch(busname, objpath)
      ensures MatchView() == M.StubMatches([], propertyRule, M.NoneAttached(|properties|))
    {
      this.busname, this.iface, this.objpath, this.properties := busname, iface, objpath, properties;
      propertyRule := PropertyMatch(busname, objpath);
      disp, state, callback, told := null, Disconnected, false, [];
      signals, chain, attachedProperties := null, [], 0;
      flags := M.NoneAttached(|properties|);
      M.NothingAttached(|properties|);
    }

    /** Neither the stub nor the hooks of its attached signals have changed. */
    twostate predicate Untouched()
      reads this, chain`next
    {
      && disp == old(disp) && signals == old(signals) && chain == old(chain)
      && flags == old(flags) && attachedProperties == old(attachedProperties)
      && forall c | c in chain :: c.next == old(c.next)
    }

    twostate lemma StaysValid()
      requires old(Valid()) && Untouched()
      ensures Valid()
    {
    }

    twostate lemma ViewAttached(sig: ClientSignal)
      requires chain == [sig] + old(chain) && flags == old(flags)
      ensures MatchView() == old(MatchView()).(signals := [sig.rule] + old(MatchView()).signals)
    {
      assert Texts(chain) == [sig.rule] + Texts(old(chain));
    }

    twostate lemma ViewDetached(k: nat)
      requires k < |old(chain)| && chain == old(chain)[..k] + old(chain)[k + 1..] && flags == old(flags)
      ensures var before := old(MatchView());
              before.signals[k] == old(chain)[k].rule &&
              MatchView() == before.(signals := before.signals[..k] + before.signals[k + 1..])
    {
      assert Texts(chain) == Texts(old(chain))[..k] + Texts(old(chain))[k + 1..];
    }

    /** Connected::set_callback: a connected stub's callback is called through the event loop. */
    method SetCallback(present: bool, ghost i: nat)
      requires disp != null && i < |disp.stubs| && disp.stubs[i] == this && disp.Distinct()
      modifies this`callback, this`told, disp`outbox
      ensures disp.Client() == C.SetCallback(old(disp.Client()), i, present)
    {
      ghost var before := disp.Connections();
      callback, told := present, [];
      assert disp.Connections() == before[i := ConnectionView()];
      if callback && state == Connected {
        disp.NotifyConnected(this);
      }
    }

    /** register_signal: a signal not yet in the list gets a match rule and becomes the list's head. */
    method RegisterSignal(sig: ClientSignal)
      requires disp != null && Valid() && sig.stub == this
      modifies this`signals, this`chain, sig`next, disp`signalMatches, disp`rules
      ensures Valid()
      ensures chain == if sig in old(chain) then old(chain) else [sig] + old(chain)
      ensures disp.Table() ==
              if sig in old(chain) then old(disp.Table()) else M.Register(old(disp.Table()), sig.rule)
    {
      var s := signals;
      ghost var k := 0;
      while s != null
        invariant 0 <= k <= |chain| && s == (if k < |chain| then chain[k] else null)
        invariant sig !in chain[..k]
        decreases |chain| - k
      {
        if sig == s {
          return;
        }
        s, k := s.next, k + 1;
      }
      disp.RegisterSignal(sig);
      sig.next := signals;
      signals := sig;
      chain := [sig] + chain;
    }

    /** Takes the signal at position k out of the list. */
    method Unlink(last: ClientSignal?, sig: ClientSignal, ghost k: nat)
      requires ListValid() && k < |chain| && chain[k] == sig
      requires last == if k == 0 then null else chain[k - 1]
      modifies this`signals, this`chain, chain`next
      ensures ListValid() && chain == old(chain)[..k] + old(chain)[k + 1..]
    {
      ghost var before := chain;
      if last != null {
        last.next := sig.next;
      } else {
        signals := sig.next;
      }
      sig.next := null;
      chain := chain[..k] + chain[k + 1..];
      assert forall j | 0 <= j < k :: chain[j] == before[j];
      assert forall j | k <= j < |chain| :: chain[j] == before[j + 1];
      assert forall j | 0 <= j < |chain| :: chain[j] != sig;
    }

    /** unregister_signal: finds the signal, drops its match rule and unlinks it. */
    method UnregisterSignal(sig: ClientSignal)
      requires disp != null && Valid()
      modifies this`signals, this`chain, chain`next, disp`signalMatches, disp`rules
      ensures Valid()
      ensures sig in old(chain) ==>
                var k := IndexOf(old(chain), sig);
                chain == old(chain)[..k] + old(chain)[k + 1..] &&
                disp.Table() == M.Unregister(old(disp.Table()), sig.rule)
      ensures sig !in old(chain) ==> chain == old(chain) && disp.Table() == old(disp.Table())
    {
      var last: ClientSignal? := null;
      var s := signals;
      ghost var k := 0;
      while s != null
        invariant 0 <= k <= |chain| && s == (if k < |chain| then chain[k] else null)
        invariant last == if k == 0 then null else chain[k - 1]
        invariant sig !in chain[..k]
        decreases |chain| - k
      {
        if sig == s {
          disp.UnregisterSignal(sig);
          assert IndexOf(chain, sig) == k;
          Unlink(last, sig, k);
          return;
        }
        last, s, k := s, s.next, k + 1;
      }
    }

    /** find_if over the properties. */
    method FindProperty(prop: ClientProperty) returns (p: nat)
      requires prop in properties
      ensures p < |properties| && properties[p] == prop
    {
      p := 0;
      while properties[p] != prop
        invariant p < |properties| && prop !in properties[..p]
        decreases |properties| - p
      {
        p := p + 1;
      }
    }

    /** attach_property: the first attached property of the stub brings in the stub's property rule. */
    method AttachProperty(prop: ClientProperty) returns (ghost p: nat)
      requires disp != null && Valid() && prop in properties
      modifies this`flags, this`attachedProperties, disp`signalMatches, disp`rules
      ensures Valid() && p < |properties| && properties[p] == prop && flags == old(flags)[p := true]
      ensures disp.Table() ==
              if !old(flags)[p] && M.Attached(old(flags)) == 0
              then M.Register(old(disp.Table()), propertyRule) else old(disp.Table())
    {
      var at := FindProperty(prop);
      p := at;
      if !flags[at] {
        M.AttachedUpdate(flags, at, true);
        flags := flags[at := true];
        attachedProperties := attachedProperties + 1;
        if attachedProperties == 1 {
          disp.RegisterProperties(this);
        }
      }
    }

    /** detach_property: the last attached property takes the rule away. */
    method DetachProperty(prop: ClientProperty) returns (ghost p: nat)
      requires disp != null && Valid() && prop in properties
      modifies this`flags, this`attachedProperties, disp`signalMatches, disp`rules
      ensures Valid() && p < |properties| && properties[p] == prop && flags == old(flags)[p := false]
      ensures disp.Table() ==
              if old(flags)[p] && M.Attached(old(flags)) == 1
              then M.Unregister(old(disp.Table()), propertyRule) else old(disp.Table())
    {
      var at := FindProperty(prop);
      p := at;
      if flags[at] {
        M.AttachedUpdate(flags, at, false);
        flags := flags[at := false];
        attachedProperties := attachedProperties - 1;
        if attachedProperties == 0 {
          disp.UnregisterProperties(this);
        }
      }
    }

    /** The loop of cleanup: drops the match rule of every attached signal. */
    method UnregisterSignals()
      requires disp != null && Valid()
      modifies disp`signalMatches, disp`rules
      ensures disp.Table() == M.UnregisterAll(old(disp.Table()), Texts(chain))
    {
      var s := signals;
      ghost var texts, k := Texts(chain), 0;
      assert texts[0..] == texts;
      while s != null
        invariant 0 <= k <= |chain| && s == (if k < |chain| then chain[k] else null)
        invariant M.UnregisterAll(disp.Table(), texts[k..]) == M.UnregisterAll(old(disp.Table()), texts)
        decreases |chain| - k
      {
        assert texts[k..][0] == s.rule && texts[k..][1..] == texts[k + 1..];
        disp.UnregisterSignal(s);
        s, k := s.next, k + 1;
      }
    }

    /** cleanup: every match rule of the stub goes, and the stub lets go of its dispatcher. */
    method Cleanup()
      requires disp != null && Valid()
      modifies this`signals, this`chain, this`attachedProperties, this`disp, disp`signalMatches, disp`rules
      ensures disp == null && signals == null && chain == []
      ensures old(disp).Table() == M.CleanUp(old(disp.Table()), old(MatchView()))
    {
      UnregisterSignals();
      signals := null;
      chain := [];
      if attachedProperties != 0 {
        disp.UnregisterProperties(this);
      }
      attachedProperties := 0;
      disp := null;
    }

    /** Connected::state_changed. */
    method ConnectionStateChanged(state: ConnectionState, force: bool)
      modifies this`state, this`told
      ensures ConnectionView() == StateChanged(old(ConnectionView()), state, force)
    {
      if this.state != state || force {
        this.state := state;
        if callback {
          told := told + [state];
        }
      }
    }
  }

  ghost function ConnectionsOf(stubs: seq<Stub>): (r: seq<StubState>)
    reads stubs`state, stubs`callback, stubs`told
    ensures |r| == |stubs| && forall i | 0 <= i < |r| :: r[i] == stubs[i].ConnectionView()
  {
    if stubs == [] then [] else [stubs[0].ConnectionView()] + ConnectionsOf(stubs[1..])
  }

  ghost function MatchesOf(stubs: seq<Stub>): (r: seq<M.StubMatches>)
    reads stubs`chain, stubs`flags
    ensures |r| == |stubs| && forall i | 0 <= i < |r| :: r[i] == stubs[i].MatchView()
  {
    if stubs == [] then [] else [stubs[0].MatchView()] + MatchesOf(stubs[1..])
  }

  class Dispatcher {
    var busnames: set<string>
    var stubs: seq<Stub>
    /** Messages handed to the connection and not yet at the bus. */
    var outbox: seq<Signal>
    var signalMatches: map<string, int>
    /** The rules installed at the bus for this connection. */
    var rules: multiset<string>

    ghost predicate Distinct()
      reads this`stubs
    {
      forall i, j | 0 <= i < j < |stubs| :: stubs[i] != stubs[j]
    }

    ghost function Connections(): (r: seq<StubState>)
      reads this`stubs, stubs`state, stubs`callback, stubs`told
      ensures |r| == |stubs| && forall i | 0 <= i < |r| :: r[i] == stubs[i].ConnectionView()
    {
      ConnectionsOf(stubs)
    }

    ghost function Client(): ClientState
      reads this`busnames, this`outbox, this`stubs, stubs`state, stubs`callback, stubs`told
    {
      ClientState(busnames, Connections(), outbox)
    }

    ghost function Table(): M.Table
      reads this`signalMatches, this`rules
    {
      M.Table(signalMatches, rules)
    }

    ghost function AllMatches(): (r: seq<M.StubMatches>)
      reads this`stubs, stubs`chain, stubs`flags
      ensures |r| == |stubs| && forall i | 0 <= i < |r| :: r[i] == stubs[i].MatchView()
    {
      MatchesOf(stubs)
    }

    ghost function MatchState(): M.State
      reads this`signalMatches, this`rules, this`stubs, stubs`chain, stubs`flags
    {
      M.State(Table(), AllMatches())
    }

    /** All attached signals of all stubs. */
    ghost function Attachments(): set<ClientSignal>
      reads this`stubs, stubs`chain
    {
      set s, c | s in stubs && c in s.chain :: c
    }

    ghost predicate Valid()
      reads this`stubs, stubs`disp, stubs`signals, stubs`chain, stubs`flags, stubs`attachedProperties
      reads Attachments()`next
    {
      Distinct() && forall s | s in stubs ::
        s.disp == this && (forall c | c in s.chain :: c in Attachments()) && s.Valid()
    }

    /** One stub changed itself and the hooks of its own signals; the dispatcher stays valid. */
    twostate lemma OthersUntouched(stub: Stub)
      requires old(Valid()) && stubs == old(stubs) && stub in stubs && stub.disp == this && stub.Valid()
      requires forall s | s in stubs && s != stub :: s.Untouched()
      ensures Valid()
    {
      forall s | s in stubs
        ensures s.disp == this && (forall c | c in s.chain :: c in Attachments()) && s.Valid()
      {
        if s != stub {
          s.StaysValid();
        }
      }
    }

    /** The table changed, and the entry of one stub. */
    twostate lemma MatchesUpdated(stub: Stub)
      requires stubs == old(stubs) && Distinct()
      requires forall s | s in stubs && s != stub :: s.Untouched()
      ensures forall i | 0 <= i < |stubs| && stubs[i] == stub ::
                && old(MatchState()).stubs[i] == old(stub.MatchView())
                && MatchState() == M.State(Table(), old(MatchState()).stubs[i := stub.MatchView()])
    {
      forall j | 0 <= j < |stubs| && stubs[j] != stub
        ensures stubs[j].MatchView() == old(stubs[j].MatchView())
      {
        assert stubs[j] in stubs;
      }
      forall i | 0 <= i < |stubs| && stubs[i] == stub
        ensures AllMatches() == old(AllMatches())[i := stub.MatchView()]
      {
      }
    }

    twostate lemma MatchesSame()
      requires stubs == old(stubs) && Table() == old(Table())
      requires forall s | s in stubs :: s.chain == old(s.chain) && s.flags == old(s.flags)
      ensures MatchState() == old(MatchState())
    {
      forall j | 0 <= j < |stubs| ensures stubs[j].MatchView() == old(stubs[j].MatchView()) {
        assert stubs[j] in stubs;
      }
      assert AllMatches() == old(AllMatches());
    }

    twostate lemma SignalAttached(sig: ClientSignal)
      requires Distinct() && sig.stub in stubs
      requires stubs == old(stubs) && forall s | s in stubs && s != sig.stub :: s.Untouched()
      requires sig.stub.chain == [sig] + old(sig.stub.chain) && sig.stub.flags == old(sig.stub.flags)
      requires Table() == M.Register(old(Table()), sig.rule)
      ensures forall i | 0 <= i < |stubs| && stubs[i] == sig.stub ::
                MatchState() == M.Step(old(MatchState()), M.AttachSignal(i, sig.rule))
    {
      MatchesUpdated(sig.stub);
      sig.stub.ViewAttached(sig);
    }

    twostate lemma SignalDetached(sig: ClientSignal)
      requires Distinct() && sig.stub in stubs
      requires stubs == old(stubs) && forall s | s in stubs && s != sig.stub :: s.Untouched()
      requires sig in old(sig.stub.chain) && sig.stub.flags == old(sig.stub.flags)
      requires var k := IndexOf(old(sig.stub.chain), sig);
               sig.stub.chain == old(sig.stub.chain)[..k] + old(sig.stub.chain)[k + 1..]
      requires Table() == M.Unregister(old(Table()), sig.rule)
      ensures forall i | 0 <= i < |stubs| && stubs[i] == sig.stub ::
                MatchState() == M.Step(old(MatchState()), M.DetachSignal(i, IndexOf(old(sig.stub.chain), sig)))
    {
      MatchesUpdated(sig.stub);
      sig.stub.ViewDetached(IndexOf(old(sig.stub.chain), sig));
    }

    twostate lemma Appended(clnt: Stub)
      requires old(Valid()) && clnt !in old(stubs) && stubs == old(stubs) + [clnt]
      requires clnt.disp == this && clnt.Valid()
      requires forall s | s in old(stubs) :: s.Untouched() && s.ConnectionView() == old(s.ConnectionView())
      ensures Valid()
      ensures Connections() == old(Connections()) + [clnt.ConnectionView()]
      ensures AllMatches() == old(AllMatches()) + [clnt.MatchView()]
    {
      forall s | s in stubs
        ensures s.disp == this && (forall c | c in s.chain :: c in Attachments()) && s.Valid()
      {
        if s != clnt {
          s.StaysValid();
        }
      }
      forall j | 0 <= j < |old(stubs)| ensures stubs[j].MatchView() == old(stubs[j].MatchView()) {
        assert stubs[j] in old(stubs);
      }
    }

    constructor ()
      ensures Valid() && stubs == [] && Client() == ClientState({}, [], [])
      ensures MatchState() == M.START
    {
      busnames, stubs, outbox, signalMatches, rules := {}, [], [], map[], multiset{};
    }

    /** The end of init: the reply to ListNames, without the unique names. */
    method TakeSnapshot(names: seq<string>)
      modifies this`busnames
      ensures busnames == old(busnames) + set name | name in names && WellKnown(name)
    {
      for k := 0 to |names|
        invariant busnames == old(busnames) + set name | name in names[..k] && WellKnown(name)
      {
        if WellKnown(names[k]) {
          busnames := busnames + {names[k]};
        }
      }
      assert names[..|names|] == names;
    }

    // ----- match rules -----

    method RegisterSignalMatch(m: string)
      modifies this`signalMatches, this`rules
      ensures Table() == M.Register(old(Table()), m)
    {
      if m !in signalMatches {
        rules := rules + multiset{m};
        signalMatches := signalMatches[m := 1];
      } else {
        signalMatches := signalMatches[m := signalMatches[m] + 1];
      }
    }

    method UnregisterSignalMatch(m: string)
      modifies this`signalMatches, this`rules
      ensures Table() == M.Unregister(old(Table()), m)
    {
      if m in signalMatches {
        signalMatches := signalMatches[m := signalMatches[m] - 1];
        if signalMatches[m] == 0 {
          signalMatches := signalMatches - {m};
          rules := rules - multiset{m};
        }
      }
    }

    method RegisterSignal(sig: ClientSignal)
      modifies this`signalMatches, this`rules
      ensures Table() == M.Register(old(Table()), sig.rule)
    {
      RegisterSignalMatch(sig.rule);
    }

    method UnregisterSignal(sig: ClientSignal)
      modifies this`signalMatches, this`rules
      ensures Table() == M.Unregister(old(Table()), sig.rule)
    {
      UnregisterSignalMatch(sig.rule);
    }

    method RegisterProperties(stub: Stub)
      modifies this`signalMatches, this`rules
      ensures Table() == M.Register(old(Table()), stub.propertyRule)
    {
      RegisterSignalMatch(stub.propertyRule);
    }

    method UnregisterProperties(stub: Stub)
      modifies this`signalMatches, this`rules
      ensures Table() == M.Unregister(old(Table()), stub.propertyRule)
    {
      UnregisterSignalMatch(stub.propertyRule);
    }

    // ----- connection state -----

    method NotifyConnected(stub: Stub)
      modifies this`outbox
      ensures outbox == old(outbox) + [NotifyClient(stub.busname, stub.objpath)]
    {
      outbox := outbox + [NotifyClient(stub.busname, stub.objpath)];
    }

    /** notify_client: walks the stubs registered at the path. */
    method NotifyStubsAt(objpath: string)
      requires Distinct()
      modifies stubs`state, stubs`told
      ensures Connections() == NotifyPath(old(Connections()), objpath)
    {
      ghost var before := Connections();
      ghost var after := NotifyPath(before, objpath);
      for k := 0 to |stubs|
        invariant forall i | 0 <= i < k :: stubs[i].ConnectionView() == after[i]
        invariant forall i | k <= i < |stubs| :: stubs[i].ConnectionView() == before[i]
      {
        if stubs[k].objpath == objpath {
          stubs[k].ConnectionStateChanged(Connected, true);
        }
      }
    }

    /** notify_clients: walks all stubs and picks those of the bus name. */
    method NotifyClients(busname: string, state: ConnectionState)
      requires Distinct()
      modifies stubs`state, stubs`told
      ensures Connections() == NotifyName(old(Connections()), busname, state)
    {
      ghost var before := Connections();
      ghost var after := NotifyName(before, busname, state);
      for k := 0 to |stubs|
        invariant forall i | 0 <= i < k :: stubs[i].ConnectionView() == after[i]
        invariant forall i | k <= i < |stubs| :: stubs[i].ConnectionView() == before[i]
      {
        assert forall i | 0 <= i < |stubs| && i != k :: stubs[i] != stubs[k];
        if busname == stubs[k].busname {
          stubs[k].ConnectionStateChanged(state, false);
        }
      }
    }

    /** try_handle_signal for the signals of the connection protocol. */
    method TryHandleSignal(msg: Signal)
      requires Distinct()
      modifies this`busnames, stubs`state, stubs`told
      ensures Client() == Handle(old(Client()), msg)
    {
      match msg
      case NotifyClient(busname, objpath) =>
        if busname in busnames {
          NotifyStubsAt(objpath);
        }
      case NameOwnerChanged(name, oldOwner, newOwner) =>
        if WellKnown(name) {
          if oldOwner == "" {
            busnames := busnames + {name};
            NotifyClients(name, Connected);
          } else if newOwner == "" {
            busnames := busnames - {name};
            NotifyClients(name, Disconnected);
          }
        }
    }

    /** The stub learns its dispatcher and joins the list of stubs. */
    method Enlist(clnt: Stub)
      requires Valid() && clnt !in stubs && clnt.Valid()
      modifies this`stubs, clnt`disp
      ensures stubs == old(stubs) + [clnt] && Valid()
      ensures Connections() == old(Connections()) + [clnt.ConnectionView()]
      ensures AllMatches() == old(AllMatches()) + [clnt.MatchView()]
    {
      clnt.disp := this;
      stubs := stubs + [clnt];
      forall s | s in old(stubs) ensures s.Untouched() && s.ConnectionView() == old(s.ConnectionView()) {
        assert s != clnt;
      }
      Appended(clnt);
    }

    method NotifyIfOwned(clnt: Stub)
      requires Valid()
      modifies this`outbox
      ensures Valid() && Connections() == old(Connections()) && AllMatches() == old(AllMatches())
      ensures outbox == old(outbox) + if clnt.busname in busnames then [NotifyClient(clnt.busname, clnt.objpath)] else []
    {
      if clnt.busname in busnames {
        NotifyConnected(clnt);
      } else {
        assert outbox + [] == outbox;
      }
    }

    /** add_client: a stub whose name is already owned is told by a message to ourselves. */
    method AddClient(clnt: Stub)
      requires Valid() && clnt !in stubs && clnt.Valid()
      requires clnt.ConnectionView() == NewStub(clnt.busname, clnt.objpath)
      requires clnt.chain == [] && clnt.flags == M.NoneAttached(|clnt.properties|)
      modifies this`stubs, this`outbox, clnt`disp
      ensures stubs == old(stubs) + [clnt] && Valid()
      ensures Client() == C.AddClient(old(Client()), clnt.busname, clnt.objpath)
      ensures MatchState() ==
              M.Step(old(MatchState()), M.AddStub(clnt.propertyRule, |clnt.properties|))
    {
      Enlist(clnt);
      NotifyIfOwned(clnt);
      AddedViews(clnt);
    }

    twostate lemma AddedViews(clnt: Stub)
      requires clnt.ConnectionView() == NewStub(clnt.busname, clnt.objpath)
      requires clnt.chain == [] && clnt.flags == M.NoneAttached(|clnt.properties|)
      requires Connections() == old(Connections()) + [clnt.ConnectionView()]
      requires AllMatches() == old(AllMatches()) + [clnt.MatchView()]
      requires busnames == old(busnames) && Table() == old(Table())
      requires outbox == old(outbox) + if clnt.busname in busnames then [NotifyClient(clnt.busname, clnt.objpath)] else []
      ensures Client() == C.AddClient(old(Client()), clnt.busname, clnt.objpath)
      ensures MatchState() ==
              M.Step(old(MatchState()), M.AddStub(clnt.propertyRule, |clnt.properties|))
    {
    }

    twostate lemma RemovedValid(i: nat)
      requires old(Valid()) && i < |old(stubs)| && stubs == old(stubs)[..i] + old(stubs)[i + 1..]
      requires forall s | s in stubs :: s in old(stubs) && s.Untouched()
      ensures Valid()
    {
      assert forall j | 0 <= j < |stubs| :: stubs[j] == old(stubs)[if j < i then j else j + 1];
      forall s | s in stubs
        ensures s.disp == this && (forall c | c in s.chain :: c in Attachments()) && s.Valid()
      {
        s.StaysValid();
      }
    }

    twostate lemma RemovedViews(i: nat)
      requires i < |old(stubs)| && stubs == old(stubs)[..i] + old(stubs)[i + 1..]
      requires forall s | s in stubs :: s in old(stubs) && s.Untouched() && s.ConnectionView() == old(s.ConnectionView())
      ensures Connections() == old(Connections())[..i] + old(Connections())[i + 1..]
      ensures AllMatches() == old(AllMatches())[..i] + old(AllMatches())[i + 1..]
    {
      assert forall j | 0 <= j < |stubs| :: stubs[j] == old(stubs)[if j < i then j else j + 1];
      forall s | s in stubs ensures s.MatchView() == old(s.MatchView()) {
      }
    }

    method FindClient(clnt: Stub) returns (k: nat)
      requires clnt in stubs
      ensures k < |stubs| && stubs[k] == clnt
    {
      k := 0;
      while stubs[k] != clnt
        invariant 0 <= k < |stubs| && clnt !in stubs[..k]
        decreases |stubs| - k
      {
        k := k + 1;
      }
    }

    /** remove_client: the first entry of the stub is cleaned up and erased. */
    method RemoveClient(clnt: Stub) returns (ghost i: nat)
      requires Valid() && clnt in stubs
      modifies this`stubs, this`signalMatches, this`rules
      modifies clnt`signals, clnt`chain, clnt`attachedProperties, clnt`disp
      ensures i < |old(stubs)| && old(stubs)[i] == clnt && clnt.disp == null
      ensures stubs == old(stubs)[..i] + old(stubs)[i + 1..] && Valid()
      ensures Client() == C.RemoveClient(old(Client()), i)
      ensures MatchState() == M.Step(old(MatchState()), M.RemoveStub(i))
    {
      var k := FindClient(clnt);
      i := k;
      clnt.Cleanup();
      stubs := stubs[..k] + stubs[k + 1..];
      WithoutOne(old(stubs), k);
      forall s | s in stubs ensures s.Untouched() && s.ConnectionView() == old(s.ConnectionView()) {
        assert old(s.Valid());
      }
      RemovedValid(k);
      RemovedViews(k);
    }
  }

  /** Taking one of several different objects out of a list leaves the others. */
  lemma WithoutOne<T>(all: seq<T>, k: nat)
    requires k < |all| && forall i, j | 0 <= i < j < |all| :: all[i] != all[j]
    ensures forall s | s in all[..k] + all[k + 1..] :: s in all && s != all[k]
  {
  }

  // ----- attach and detach, as the user calls them -----

  /** ClientSignal::attach. */
  method AttachSignal(sig: ClientSignal, ghost disp: Dispatcher, ghost i: nat)
    requires disp.Valid() && i < |disp.stubs| && disp.stubs[i] == sig.stub
    modifies sig.stub`signals, sig.stub`chain, sig`next, disp`signalMatches, disp`rules
    ensures disp.Valid() && sig in sig.stub.chain
    ensures sig in old(sig.stub.chain) ==> disp.MatchState() == old(disp.MatchState())
    ensures sig !in old(sig.stub.chain) ==>
              disp.MatchState() == M.Step(old(disp.MatchState()), M.AttachSignal(i, sig.rule))
  {
    var stub := sig.stub;
    stub.RegisterSignal(sig);
    forall s | s in disp.stubs && s != stub ensures s.Untouched() {
      assert old(s.Valid());
      assert sig !in s.chain;
    }
    assert disp.Valid() by {
      disp.OthersUntouched(stub);
    }
    if sig in old(stub.chain) {
      disp.MatchesSame();
    } else {
      disp.SignalAttached(sig);
    }
  }

  /** ClientSignal::detach. */
  method DetachSignal(sig: ClientSignal, ghost disp: Dispatcher, ghost i: nat)
    requires disp.Valid() && i < |disp.stubs| && disp.stubs[i] == sig.stub
    modifies sig.stub`signals, sig.stub`chain, sig.stub.chain`next, disp`signalMatches, disp`rules
    ensures disp.Valid() && sig !in sig.stub.chain
    ensures sig !in old(sig.stub.chain) ==> disp.MatchState() == old(disp.MatchState())
    ensures sig in old(sig.stub.chain) ==>
              disp.MatchState() == M.Step(old(disp.MatchState()), M.DetachSignal(i, IndexOf(old(sig.stub.chain), sig)))
  {
    var stub := sig.stub;
    stub.UnregisterSignal(sig);
    forall s | s in disp.stubs && s != stub ensures s.Untouched() {
      assert old(s.Valid());
    }
    assert disp.Valid() by {
      disp.OthersUntouched(stub);
    }
    if sig in old(stub.chain) {
      ghost var k := IndexOf(old(stub.chain), sig);
      WithoutOne(old(stub.chain), k);
      disp.SignalDetached(sig);
    } else {
      disp.MatchesSame();
    }
  }

  /** ClientProperty::attach, the part before the request for the value. */
  method AttachProperty(prop: ClientProperty, stub: Stub, ghost disp: Dispatcher, ghost i: nat) returns (ghost p: nat)
    requires disp.Valid() && i < |disp.stubs| && disp.stubs[i] == stub && prop in stub.properties
    modifies stub`flags, stub`attachedProperties, disp`signalMatches, disp`rules
    ensures disp.Valid() && p < |stub.properties| && stub.properties[p] == prop
    ensures disp.MatchState() == M.Step(old(disp.MatchState()), M.AttachProperty(i, p))
  {
    p := stub.AttachProperty(prop);
    assert disp.Valid() by {
      disp.OthersUntouched(stub);
    }
    disp.MatchesUpdated(stub);
    assert stub.MatchView() == old(stub.MatchView()).(properties := old(stub.flags)[p := true]);
    assert old(stub.flags)[p] ==> old(stub.flags)[p := true] == old(stub.flags);
    M.StubStep(old(disp.MatchState()), M.AttachProperty(i, p), disp.Table(), stub.MatchView());
  }

  /** ClientPropertyBase::detach. */
  method DetachProperty(prop: ClientProperty, stub: Stub, ghost disp: Dispatcher, ghost i: nat) returns (ghost p: nat)
    requires disp.Valid() && i < |disp.stubs| && disp.stubs[i] == stub && prop in stub.properties
    modifies stub`flags, stub`attachedProperties, disp`signalMatches, disp`rules
    ensures disp.Valid() && p < |stub.properties| && stub.properties[p] == prop
    ensures disp.MatchState() == M.Step(old(disp.MatchState()), M.DetachProperty(i, p))
  {
    p := stub.DetachProperty(prop);
    assert disp.Valid() by {
      disp.OthersUntouched(stub);
    }
    disp.MatchesUpdated(stub);
    assert stub.MatchView() == old(stub.MatchView()).(properties := old(stub.flags)[p := false]);
    assert !old(stub.flags)[p] ==> old(stub.flags)[p := false] == old(stub.flags);
    M.StubStep(old(disp.MatchState()), M.DetachProperty(i, p), disp.Table(), stub.MatchView());
  }
}
