/**
  Property coherence: a server that notifies on change, a bus that forwards what is
  subscribed, and clients' properties that subscribe first and ask for the value then.
 */
module Properties {
  import opened Wrappers
  import opened Types
  import opened Codec
  import opened CodecTheorems

  // ----- property values on the wire -----

  /** PropertyCodec::encode: the value inside a variant. */
  function Boxed(t: Type, v: Value): Wire
    requires HasType(t, v) && Sendable(v)
  {
    WVariant(Sig(t), [Enc(t, v)])
  }

  /** PropertyCodec::decode, as change signals are read: the variant's signature is not looked at. */
  function Unboxed(t: Type, w: Wire): Result<Value> {
    if w.WVariant? then DecHead(t, w.items) else Failed(false)
  }

  /** Replies to Get are read as a variant with one alternative instead. */
  function ReadReply(t: Type, w: Wire): Result<Value> {
    Dec(Variant(TypeList(t, NilType)), w)
  }

  /** A property value survives the trip on both ways exactly if its codec is faithful to it. */
  lemma ValueTravels(t: Type, v: Value)
    requires ValidElement(t) && HasType(t, v) && Sendable(v)
    ensures Unboxed(t, Boxed(t, v)) == Ok(Arrive(v)) <==> Faithful(t, v)
    ensures ReadReply(t, Boxed(t, v)) == Ok(Alt(0, Arrive(v))) <==> Faithful(t, v)
  {
    RoundTripExactly(t, v);
    assert DecHead(t, [Enc(t, v)]) == Dec(t, Enc(t, v));
    var alts := TypeList(t, NilType);
    assert DecAlt(alts, 0, Sig(t), [Enc(t, v)]) == Chosen(0, Dec(t, Enc(t, v)));
    assert Dec(Variant(alts), Boxed(t, v)) == DecAlt(alts, 0, Sig(t), [Enc(t, v)]);
  }

  // ----- the system -----

  /** A server property of a type; guarded if the program has set a callback for writes. */
  datatype Property = Property(data: Type, notifying: bool, always: bool, writable: bool, guarded: bool)

  /** A client's property object: which server property it is of, and the values its callback was given. */
  datatype Observer = Observer(target: nat, attached: bool, seen: seq<Value>)

  /** What a client sends. The match rule is shared by all properties of the path. */
  datatype Request =
    | AddMatch
    | RemoveMatch
    | Get(observer: nat)
    | Set(observer: nat, value: Value)

  /** What the server sends. */
  datatype Message =
    | Changed(property: nat, value: Value)
    | GetReply(observer: nat, value: Value)
    | SetReply(observer: nat, ok: bool)

  datatype Server = Server(properties: seq<Property>, values: seq<Value>, outbox: seq<Message>)

  datatype World = World(
    server: Server,
    observers: seq<Observer>,
    /** Whether the bus has the client's match rule. */
    installed: bool,
    /** Requests on their way to the bus, and from there to the server. */
    toBus: seq<Request>,
    toServer: seq<Request>,
    /** Messages from the bus to the client; the server's outbox is on its way to the bus. */
    toClient: seq<Message>)

  datatype Event =
    | Assign(property: nat, value: Value)
    | Attach(observer: nat)
    | Detach(observer: nat)
    | Write(observer: nat, value: Value)
    | Submit
    | Serve
    | Forward
    | Deliver

  // ----- the server -----

  /** operator= on a property that holds a value: Assigner and PropertyComparator. */
  function AssignTo(s: Server, p: nat, v: Value): Server
    requires p < |s.properties| && p < |s.values|
  {
    var property := s.properties[p];
    if !property.notifying then s.(values := s.values[p := v])
    else if property.always || s.values[p] != v then
      s.(values := s.values[p := v], outbox := s.outbox + [Changed(p, v)])
    else s
  }

  /** A program that has set a callback decides on its own whether, and what, to assign. */
  function HandleSet(s: Server, o: nat, p: nat, v: Value): Server
    requires p < |s.properties| && p < |s.values|
  {
    var s' := if s.properties[p].guarded then s else AssignTo(s, p, v);
    s'.(outbox := s'.outbox + [SetReply(o, true)])
  }

  function HandleGet(s: Server, o: nat, p: nat): Server
    requires p < |s.values|
  {
    s.(outbox := s.outbox + [GetReply(o, s.values[p])])
  }

  // ----- the client -----

  function Attached(observers: seq<Observer>): nat {
    if observers == [] then 0
    else Attached(observers[..|observers| - 1]) + if observers[|observers| - 1].attached then 1 else 0
  }

  predicate Concerns(m: Message, o: nat, target: nat) {
    match m
    case Changed(p, _) => p == target
    case GetReply(o', _) => o' == o
    case SetReply(_, _) => false
  }

  /** A change goes to every attached property of the name, a reply to the one that asked. */
  function Receive(observers: seq<Observer>, m: Message): (r: seq<Observer>)
    ensures |r| == |observers|
    ensures forall o | 0 <= o < |r| ::
              r[o] == if Concerns(m, o, observers[o].target) && (m.Changed? ==> observers[o].attached)
                      then observers[o].(seen := observers[o].seen + [m.value]) else observers[o]
  {
    seq(|observers|, o requires 0 <= o < |observers| =>
      if Concerns(m, o, observers[o].target) && (m.Changed? ==> observers[o].attached)
      then observers[o].(seen := observers[o].seen + [m.value]) else observers[o])
  }

  /** The messages ClientProperty::attach sends. */
  function AttachRequests(observers: seq<Observer>, o: nat): seq<Request>
    requires o < |observers|
  {
    (if !observers[o].attached && Attached(observers) == 0 then [AddMatch] else []) + [Get(o)]
  }

  function DetachRequests(observers: seq<Observer>, o: nat): seq<Request>
    requires o < |observers|
  {
    if observers[o].attached && Attached(observers) == 1 then [RemoveMatch] else []
  }

  // ----- steps -----

  /** The bus takes the client's oldest request. */
  function SubmitStep(w: World): World {
    if w.toBus == [] then w
    else
      var w' := w.(toBus := w.toBus[1..]);
      match w.toBus[0]
      case AddMatch => w'.(installed := true)
      case RemoveMatch => w'.(installed := false)
      case r => w'.(toServer := w.toServer + [r])
  }

  function ServeStep(w: World): World {
    if w.toServer == [] then w
    else
      var r := w.toServer[0];
      var w' := w.(toServer := w.toServer[1..]);
      if r.AddMatch? || r.RemoveMatch? || r.observer >= |w.observers| then w'
      else
        var p := w.observers[r.observer].target;
        if p >= |w.server.values| || p >= |w.server.properties| then w'
        else if r.Get? then w'.(server := HandleGet(w.server, r.observer, p))
        else w'.(server := HandleSet(w.server, r.observer, p, r.value))
  }

  /** The bus passes on replies always, and changes to a client that has its rule installed. */
  function ForwardStep(w: World): World {
    if w.server.outbox == [] then w
    else
      var m := w.server.outbox[0];
      var w' := w.(server := w.server.(outbox := w.server.outbox[1..]));
      if m.Changed? && !w.installed then w' else w'.(toClient := w.toClient + [m])
  }

  /** One step; events that are not possible now change nothing. */
  function Step(w: World, e: Event): World {
    match e
    case Assign(p, v) =>
      if p < |w.server.values| && p < |w.server.properties| && HasType(w.server.properties[p].data, v)
      then w.(server := AssignTo(w.server, p, v)) else w
    case Attach(o) =>
      if o >= |w.observers| then w
      else w.(observers := w.observers[o := w.observers[o].(attached := true)],
              toBus := w.toBus + AttachRequests(w.observers, o))
    case Detach(o) =>
      if o >= |w.observers| then w
      else w.(observers := w.observers[o := w.observers[o].(attached := false)],
              toBus := w.toBus + DetachRequests(w.observers, o))
    case Write(o, v) =>
      if o >= |w.observers| || w.observers[o].target >= |w.server.properties|
         || !w.server.properties[w.observers[o].target].writable
         || !HasType(w.server.properties[w.observers[o].target].data, v) then w
      else w.(toBus := w.toBus + [Set(o, v)])
    case Submit => SubmitStep(w)
    case Serve => ServeStep(w)
    case Forward => ForwardStep(w)
    case Deliver =>
      if w.toClient == [] then w
      else w.(observers := Receive(w.observers, w.toClient[0]), toClient := w.toClient[1..])
  }

  /** A program: its server properties with their first values, and what its clients observe. */
  datatype Program = Program(properties: seq<Property>, values: seq<Value>, targets: seq<nat>)
  {
    predicate Valid() {
      && |properties| == |values|
      && (forall i | 0 <= i < |values| :: Types.Valid(properties[i].data) && HasType(properties[i].data, values[i]))
      && forall o | 0 <= o < |targets| :: targets[o] < |properties|
    }
  }

  function Unattached(targets: seq<nat>): (r: seq<Observer>)
    ensures |r| == |targets| && forall o | 0 <= o < |r| :: r[o] == Observer(targets[o], false, [])
  {
    seq(|targets|, o requires 0 <= o < |targets| => Observer(targets[o], false, []))
  }

  function Start(p: Program): World {
    World(Server(p.properties, p.values, []), Unattached(p.targets), false, [], [], [])
  }

  function Run(p: Program, events: seq<Event>): World {
    if events == [] then Start(p) else Step(Run(p, events[..|events| - 1]), events[|events| - 1])
  }

  // ----- what holds in every reachable state -----

  /** Whether the rule will be installed once the bus has taken these requests. */
  function Installed(installed: bool, q: seq<Request>): bool {
    if q == [] then installed
    else
      match q[|q| - 1]
      case AddMatch => true
      case RemoveMatch => false
      case _ => Installed(installed, q[..|q| - 1])
  }

  predicate ChangesRule(r: Request) {
    r.AddMatch? || r.RemoveMatch?
  }

  /** Every change of the rule still underway is followed by a request for the observer's value. */
  predicate AsksLast(q: seq<Request>, o: nat) {
    forall i | 0 <= i < |q| && ChangesRule(q[i]) :: Get(o) in q[i + 1..]
  }

  /** The last value an observer has after these messages. */
  function Latest(o: nat, target: nat, last: Option<Value>, msgs: seq<Message>): Option<Value> {
    if msgs == [] then last
    else
      var m := msgs[|msgs| - 1];
      if Concerns(m, o, target) then Some(m.value) else Latest(o, target, last, msgs[..|msgs| - 1])
  }

  function Last(seen: seq<Value>): Option<Value> {
    if seen == [] then None else Some(seen[|seen| - 1])
  }

  predicate Asked(w: World, o: nat) {
    Get(o) in w.toBus || Get(o) in w.toServer
  }

  /** The observer's last value once all that is in flight has arrived. */
  function Settled(w: World, o: nat): Option<Value>
    requires o < |w.observers|
  {
    Latest(o, w.observers[o].target, Last(w.observers[o].seen), w.toClient + w.server.outbox)
  }

  predicate Coherent(w: World, o: nat)
    requires o < |w.observers| && w.observers[o].target < |w.server.values|
  {
    Asked(w, o) || Settled(w, o) == Some(w.server.values[w.observers[o].target])
  }

  predicate Shape(w: World) {
    && |w.server.properties| == |w.server.values|
    && forall o | 0 <= o < |w.observers| :: w.observers[o].target < |w.server.values|
  }

  /** The rule follows the number of attached properties; each attached one asks after it. */
  predicate RuleInv(w: World) {
    && (Installed(w.installed, w.toBus) <==> Attached(w.observers) > 0)
    && forall o | 0 <= o < |w.observers| && w.observers[o].attached :: AsksLast(w.toBus, o)
  }

  predicate CoherenceInv(w: World)
    requires Shape(w)
  {
    forall o | 0 <= o < |w.observers| && w.observers[o].attached
               && w.server.properties[w.observers[o].target].notifying :: Coherent(w, o)
  }

  predicate Inv(w: World) {
    Shape(w) && RuleInv(w) && CoherenceInv(w)
  }

  // ----- counting -----

  lemma {:induction false} AttachedUpdate(observers: seq<Observer>, o: nat, x: Observer)
    requires o < |observers|
    ensures Attached(observers[o := x]) ==
            Attached(observers) - (if observers[o].attached then 1 else 0) + if x.attached then 1 else 0
    ensures observers[o].attached ==> Attached(observers) > 0
  {
    var n := |observers| - 1;
    if o < n {
      assert observers[o := x][..n] == observers[..n][o := x];
      AttachedUpdate(observers[..n], o, x);
    } else {
      assert observers[o := x][..n] == observers[..n];
    }
  }

  lemma {:induction false} SameAttached(a: seq<Observer>, b: seq<Observer>)
    requires |a| == |b| && forall o | 0 <= o < |a| :: a[o].attached == b[o].attached
    ensures Attached(a) == Attached(b)
  {
    if a != [] {
      SameAttached(a[..|a| - 1], b[..|b| - 1]);
    }
  }

  lemma {:induction false} OnlyOne(observers: seq<Observer>, o: nat, o': nat)
    requires o < |observers| && o' < |observers| && o != o'
    requires observers[o].attached && observers[o'].attached
    ensures Attached(observers) > 1
  {
    AttachedUpdate(observers, o, observers[o].(attached := false));
    AttachedUpdate(observers[o := observers[o].(attached := false)], o', observers[o']);
  }

  lemma {:induction false} NoneAttached(targets: seq<nat>)
    ensures Attached(Unattached(targets)) == 0
  {
    if targets != [] {
      var n := |targets| - 1;
      assert Unattached(targets)[..n] == Unattached(targets[..n]);
      NoneAttached(targets[..n]);
    }
  }

  // ----- the rule -----

  lemma {:induction false} InstalledFront(installed: bool, r: Request, q: seq<Request>)
    ensures Installed(installed, [r] + q) ==
            Installed(if ChangesRule(r) then r.AddMatch? else installed, q)
  {
    var all := [r] + q;
    if q == [] {
      assert all[..|all| - 1] == [];
    } else {
      assert all[|all| - 1] == q[|q| - 1];
      assert all[..|all| - 1] == [r] + q[..|q| - 1];
      InstalledFront(installed, r, q[..|q| - 1]);
    }
  }

  lemma InstalledBack(installed: bool, q: seq<Request>, r: Request)
    ensures Installed(installed, q + [r]) ==
            if ChangesRule(r) then r.AddMatch? else Installed(installed, q)
  {
    assert (q + [r])[..|q|] == q;
  }

  lemma AsksLastFront(r: Request, q: seq<Request>, o: nat)
    requires AsksLast([r] + q, o)
    ensures AsksLast(q, o)
  {
    forall i | 0 <= i < |q| && ChangesRule(q[i]) ensures Get(o) in q[i + 1..] {
      assert ([r] + q)[i + 1] == q[i];
      assert ([r] + q)[i + 2..] == q[i + 1..];
    }
  }

  lemma AsksLastBack(q: seq<Request>, r: Request, o: nat)
    requires AsksLast(q, o) && !ChangesRule(r)
    ensures AsksLast(q + [r], o)
  {
    forall i | 0 <= i < |q + [r]| && ChangesRule((q + [r])[i]) ensures Get(o) in (q + [r])[i + 1..] {
      assert (q + [r])[i + 1..] == q[i + 1..] + [r];
    }
  }

  /** An attached observer that has asked last: everything underway is followed by its request. */
  lemma AskedLast(q: seq<Request>, o: nat)
    ensures AsksLast(q + [Get(o)], o)
  {
    forall i | 0 <= i < |q + [Get(o)]| && ChangesRule((q + [Get(o)])[i])
      ensures Get(o) in (q + [Get(o)])[i + 1..]
    {
      assert (q + [Get(o)])[i + 1..] == q[i + 1..] + [Get(o)];
    }
  }

  /** With no request underway that the observer still waits for, the rule is in place. */
  lemma {:induction false} RuleInPlace(installed: bool, q: seq<Request>, o: nat)
    requires AsksLast(q, o) && Get(o) !in q
    ensures Installed(installed, q) == installed
  {
    if q != [] {
      var n := |q| - 1;
      assert q[n] in q && q[n + 1..] == [];
      assert forall i | 0 <= i < |q| :: !ChangesRule(q[i]);
      RuleInPlace(installed, q[..n], o);
    }
  }

  // ----- values in flight -----

  lemma {:induction false} LatestFront(o: nat, target: nat, last: Option<Value>, m: Message, msgs: seq<Message>)
    ensures Latest(o, target, last, [m] + msgs) ==
            Latest(o, target, if Concerns(m, o, target) then Some(m.value) else last, msgs)
  {
    var all := [m] + msgs;
    if msgs == [] {
      assert all[..|all| - 1] == [];
    } else {
      assert all[|all| - 1] == msgs[|msgs| - 1];
      assert all[..|all| - 1] == [m] + msgs[..|msgs| - 1];
      LatestFront(o, target, last, m, msgs[..|msgs| - 1]);
    }
  }

  lemma LatestBack(o: nat, target: nat, last: Option<Value>, msgs: seq<Message>, m: Message)
    ensures Latest(o, target, last, msgs + [m]) ==
            if Concerns(m, o, target) then Some(m.value) else Latest(o, target, last, msgs)
  {
    assert (msgs + [m])[..|msgs|] == msgs;
  }

  /** Whatever the server appends settles an observer on the appended value if it concerns it. */
  lemma Emitted(w: World, s: Server, m: Message, o: nat)
    requires o < |w.observers|
    requires s.outbox == w.server.outbox + [m]
    ensures Settled(w.(server := s), o) ==
            if Concerns(m, o, w.observers[o].target) then Some(m.value) else Settled(w, o)
  {
    assert w.toClient + s.outbox == w.toClient + w.server.outbox + [m];
    LatestBack(o, w.observers[o].target, Last(w.observers[o].seen), w.toClient + w.server.outbox, m);
  }

  /** An assignment to a property keeps every observer of a notifying property coherent. */
  lemma AssignKeeps(w: World, p: nat, v: Value)
    requires Shape(w) && p < |w.server.values| && CoherenceInv(w)
    ensures CoherenceInv(w.(server := AssignTo(w.server, p, v)))
  {
    var s := AssignTo(w.server, p, v);
    forall o | 0 <= o < |w.observers| && w.observers[o].attached
               && w.server.properties[w.observers[o].target].notifying
      ensures Coherent(w.(server := s), o)
    {
      if s.outbox != w.server.outbox {
        Emitted(w, s, Changed(p, v), o);
      }
    }
  }

  /** A reply that carries no other value than the property's own keeps coherence. */
  lemma ReplyKeeps(w: World, m: Message)
    requires Shape(w) && CoherenceInv(w)
    requires !m.Changed? && (m.GetReply? && m.observer < |w.observers| ==>
               m.value == w.server.values[w.observers[m.observer].target])
    ensures CoherenceInv(w.(server := w.server.(outbox := w.server.outbox + [m])))
  {
    var s := w.server.(outbox := w.server.outbox + [m]);
    forall o | 0 <= o < |w.observers| && w.observers[o].attached
               && w.server.properties[w.observers[o].target].notifying
      ensures Coherent(w.(server := s), o)
    {
      Emitted(w, s, m, o);
    }
  }

  // ----- each step keeps the invariant -----

  lemma AttachKeeps(w: World, o: nat)
    requires Inv(w) && o < |w.observers|
    ensures Inv(Step(w, Attach(o)))
  {
    var w' := Step(w, Attach(o));
    var rs := AttachRequests(w.observers, o);
    var q := if |rs| == 2 then w.toBus + [AddMatch] else w.toBus;
    assert w'.toBus == q + [Get(o)];
    AttachedUpdate(w.observers, o, w'.observers[o]);
    InstalledBack(w.installed, w.toBus, AddMatch);
    InstalledBack(w.installed, q, Get(o));
    AskedLast(q, o);
    forall o' | 0 <= o' < |w.observers| && w'.observers[o'].attached ensures AsksLast(w'.toBus, o') {
      if o' != o {
        AttachedUpdate(w.observers, o', w.observers[o']);
        AsksLastBack(w.toBus, Get(o), o');
      }
    }
    AttachCoherent(w, o);
  }

  lemma AttachCoherent(w: World, o: nat)
    requires Inv(w) && o < |w.observers|
    ensures Shape(Step(w, Attach(o))) && CoherenceInv(Step(w, Attach(o)))
  {
    var w' := Step(w, Attach(o));
    assert Get(o) in AttachRequests(w.observers, o);
    assert forall r | r in w.toBus :: r in w'.toBus;
    forall o' | 0 <= o' < |w'.observers| && w'.observers[o'].attached
                && w'.server.properties[w'.observers[o'].target].notifying
      ensures Coherent(w', o')
    {
      if o' != o {
        assert Coherent(w, o');
      }
    }
  }

  lemma DetachKeeps(w: World, o: nat)
    requires Inv(w) && o < |w.observers|
    ensures Inv(Step(w, Detach(o)))
  {
    var w' := Step(w, Detach(o));
    AttachedUpdate(w.observers, o, w'.observers[o]);
    if DetachRequests(w.observers, o) != [] {
      InstalledBack(w.installed, w.toBus, RemoveMatch);
      forall o' | 0 <= o' < |w.observers| && o' != o ensures !w.observers[o'].attached {
        if w.observers[o'].attached {
          OnlyOne(w.observers, o, o');
        }
      }
    } else {
      assert w'.toBus == w.toBus;
    }
    forall o' | 0 <= o' < |w'.observers| && w'.observers[o'].attached
                && w'.server.properties[w'.observers[o'].target].notifying
      ensures Coherent(w', o')
    {
      assert Coherent(w, o') && w'.toBus == w.toBus;
    }
  }

  lemma WriteKeeps(w: World, o: nat, v: Value)
    requires Inv(w)
    ensures Inv(Step(w, Write(o, v)))
  {
    if o < |w.observers| && w.observers[o].target < |w.server.properties| {
      var property := w.server.properties[w.observers[o].target];
      if property.writable && HasType(property.data, v) {
        SetSent(w, o, v);
      }
    }
  }

  lemma SetSent(w: World, o: nat, v: Value)
    requires Inv(w)
    ensures Inv(w.(toBus := w.toBus + [Set(o, v)]))
  {
    var w' := w.(toBus := w.toBus + [Set(o, v)]);
    assert forall r | r in w.toBus :: r in w'.toBus;
    assert RuleInv(w') by {
      InstalledBack(w.installed, w.toBus, Set(o, v));
      forall o' | 0 <= o' < |w.observers| && w.observers[o'].attached ensures AsksLast(w'.toBus, o') {
        AsksLastBack(w.toBus, Set(o, v), o');
      }
    }
    forall o' | 0 <= o' < |w.observers| && w.observers[o'].attached
                && w.server.properties[w.observers[o'].target].notifying
      ensures Coherent(w', o')
    {
      assert Coherent(w, o');
    }
  }

  lemma SubmitKeeps(w: World)
    requires Inv(w)
    ensures Inv(Step(w, Submit))
  {
    var w' := Step(w, Submit);
    if w.toBus != [] {
      var r, q := w.toBus[0], w.toBus[1..];
      assert w.toBus == [r] + q;
      InstalledFront(w.installed, r, q);
      forall o | 0 <= o < |w.observers| && w.observers[o].attached ensures AsksLast(w'.toBus, o) {
        AsksLastFront(r, q, o);
      }
      forall o | 0 <= o < |w.observers| && w.observers[o].attached
                 && w.server.properties[w.observers[o].target].notifying
        ensures Coherent(w', o)
      {
        assert Coherent(w, o);
        assert Asked(w, o) ==> Asked(w', o);
      }
    }
  }

  lemma ServeKeeps(w: World)
    requires Inv(w)
    ensures Inv(Step(w, Serve))
  {
    if w.toServer != [] {
      var r := w.toServer[0];
      assert w.toServer == [r] + w.toServer[1..];
      var served := w.(toServer := w.toServer[1..]);
      if r.Get? && r.observer < |w.observers| {
        GetKeeps(w, r.observer);
      } else {
        assert CoherenceInv(served) by {
          forall o | 0 <= o < |w.observers| && w.observers[o].attached
                     && w.server.properties[w.observers[o].target].notifying
            ensures Coherent(served, o)
          {
            assert Coherent(w, o);
          }
        }
        if r.Set? && r.observer < |w.observers| {
          SetKeeps(served, r.observer, r.value);
        }
      }
    }
  }

  lemma SetKeeps(w: World, o: nat, v: Value)
    requires Shape(w) && CoherenceInv(w) && o < |w.observers|
    ensures CoherenceInv(w.(server := HandleSet(w.server, o, w.observers[o].target, v)))
  {
    var p := w.observers[o].target;
    AssignKeeps(w, p, v);
    var w' := if w.server.properties[p].guarded then w else w.(server := AssignTo(w.server, p, v));
    ReplyKeeps(w', SetReply(o, true));
  }

  lemma GetKeeps(w: World, o: nat)
    requires Shape(w) && CoherenceInv(w) && o < |w.observers|
    requires w.toServer != [] && w.toServer[0] == Get(o)
    ensures CoherenceInv(ServeStep(w))
  {
    var p := w.observers[o].target;
    var w' := ServeStep(w);
    assert w.toServer == [Get(o)] + w.toServer[1..];
    forall o' | 0 <= o' < |w.observers| && w.observers[o'].attached
                && w.server.properties[w.observers[o'].target].notifying
      ensures Coherent(w', o')
    {
      assert Coherent(w, o');
      Emitted(w, w'.server, GetReply(o, w.server.values[p]), o');
    }
  }

  lemma ForwardKeeps(w: World)
    requires Inv(w)
    ensures Inv(Step(w, Forward))
  {
    var w' := Step(w, Forward);
    if w.server.outbox != [] {
      forall o | 0 <= o < |w.observers| && w.observers[o].attached
                 && w.server.properties[w.observers[o].target].notifying
        ensures Coherent(w', o)
      {
        assert Coherent(w, o);
        if !Asked(w, o) {
          RuleInPlace(w.installed, w.toBus, o);
          AttachedUpdate(w.observers, o, w.observers[o]);
          assert w'.toClient + w'.server.outbox == w.toClient + w.server.outbox;
        }
      }
    }
  }

  lemma DeliverKeeps(w: World)
    requires Inv(w)
    ensures Inv(Step(w, Deliver))
  {
    var w' := Step(w, Deliver);
    if w.toClient != [] {
      SameAttached(w.observers, w'.observers);
      var m, rest := w.toClient[0], w.toClient[1..] + w.server.outbox;
      assert w.toClient + w.server.outbox == [m] + rest;
      forall o | 0 <= o < |w'.observers| && w'.observers[o].attached
                 && w'.server.properties[w'.observers[o].target].notifying
        ensures Coherent(w', o)
      {
        assert Coherent(w, o);
        LatestFront(o, w.observers[o].target, Last(w.observers[o].seen), m, rest);
      }
    }
  }

  /** The server's properties and what the observers are of never change. */
  predicate SameProgram(w: World, p: Program) {
    && w.server.properties == p.properties && |w.server.values| == |p.values|
    && |w.observers| == |p.targets|
    && forall o | 0 <= o < |w.observers| :: w.observers[o].target == p.targets[o]
  }

  lemma StepSameProgram(w: World, e: Event, p: Program)
    requires SameProgram(w, p)
    ensures SameProgram(Step(w, e), p)
  {
  }

  lemma StepKeeps(w: World, e: Event)
    requires Inv(w)
    ensures Inv(Step(w, e))
  {
    match e
    case Assign(p, v) => if p < |w.server.values| { AssignKeeps(w, p, v); }
    case Attach(o) => if o < |w.observers| { AttachKeeps(w, o); }
    case Detach(o) => if o < |w.observers| { DetachKeeps(w, o); }
    case Write(o, v) => WriteKeeps(w, o, v);
    case Submit => SubmitKeeps(w);
    case Serve => ServeKeeps(w);
    case Forward => ForwardKeeps(w);
    case Deliver => DeliverKeeps(w);
  }

  /**
    In every reachable state an attached observer of a notifying property has asked for the
    value, or what is in flight ends with the server's value.
   */
  lemma {:induction false} AlwaysCoherent(p: Program, events: seq<Event>)
    requires p.Valid()
    ensures SameProgram(Run(p, events), p) && Inv(Run(p, events))
  {
    if events == [] {
      NoneAttached(p.targets);
    } else {
      AlwaysCoherent(p, events[..|events| - 1]);
      StepSameProgram(Run(p, events[..|events| - 1]), events[|events| - 1], p);
      StepKeeps(Run(p, events[..|events| - 1]), events[|events| - 1]);
    }
  }

  /** Nothing is underway any more. */
  predicate Quiet(w: World) {
    w.toBus == [] && w.toServer == [] && w.toClient == [] && w.server.outbox == []
  }

  /** Every attached observer was last given the server's value. */
  predicate UpToDate(w: World) {
    forall o | 0 <= o < |w.observers| && w.observers[o].attached ::
      w.observers[o].target < |w.server.values| &&
      Last(w.observers[o].seen) == Some(w.server.values[w.observers[o].target])
  }

  /** Two different values of every type. */
  function Sample(t: Type, second: bool): Value {
    match t
    case Basic(p) => if p.Double? then Dbl(if second then 1.0 else 0.0) else Num(if second then 1 else 0)
    case Str => Text(if second then "x" else "")
    case Vector(e) => List(if second then [Sample(e, false)] else [])
    case Map(k, x) => Dict(if second then [PairV(Sample(k, false), Sample(x, false))] else [])
    case Pair(k, x) => PairV(Sample(k, second), Sample(x, false))
    case Tuple(ts) => Record(Samples(ts, second))
    case Struct(ts) => Record(Samples(ts, second))
    case Variant(ts) => if ts.NilType? then AnyEmpty else Alt(0, Sample(ts.head, second))
    case AnyType => AnyLocal(Basic(Int32), Num(if second then 1 else 0))
  }

  function Samples(ts: TypeList, second: bool): seq<Value> {
    if ts.NilType? then [] else [Sample(ts.head, second)] + Samples(ts.tail, false)
  }

  lemma ValidIsElement(t: Type)
    requires IsKeyType(t) || Types.Valid(t)
    ensures ValidElement(t)
  {
  }

  lemma {:induction false} SampleTyped(t: Type, second: bool)
    requires ValidElement(t)
    ensures HasType(t, Sample(t, second))
  {
    match t
    case Basic(_) =>
    case Str =>
    case AnyType =>
    case Vector(e) => SampleTyped(e, false);
    case Map(k, x) =>
      ValidIsElement(k);
      ValidIsElement(x);
      SampleTyped(k, false);
      SampleTyped(x, false);
      assert HasType(Pair(k, x), PairV(Sample(k, false), Sample(x, false)));
    case Pair(k, x) =>
      ValidIsElement(k);
      ValidIsElement(x);
      SampleTyped(k, second);
      SampleTyped(x, false);
    case Tuple(ts) => SamplesTyped(ts, second);
    case Struct(ts) => SamplesTyped(ts, second);
    case Variant(ts) =>
      assert ValidList(ts);
      ValidIsElement(ts.head);
      SampleTyped(ts.head, second);
  }

  lemma {:induction false} SamplesTyped(ts: TypeList, second: bool)
    requires ValidList(ts)
    ensures HaveTypes(ts, Samples(ts, second))
  {
    if ts.TypeList? {
      ValidIsElement(ts.head);
      SampleTyped(ts.head, second);
      SamplesTyped(ts.tail, false);
      assert Samples(ts, second)[1..] == Samples(ts.tail, false);
    }
  }

  lemma {:induction false} SamplesDiffer(t: Type)
    requires ValidElement(t)
    ensures Sample(t, true) != Sample(t, false)
  {
    match t
    case Pair(k, x) =>
      ValidIsElement(k);
      SamplesDiffer(k);
    case Tuple(ts) => HeadsDiffer(ts);
    case Struct(ts) => HeadsDiffer(ts);
    case Variant(ts) =>
      assert ValidList(ts);
      ValidIsElement(ts.head);
      SamplesDiffer(ts.head);
    case _ =>
  }

  lemma {:induction false} HeadsDiffer(ts: TypeList)
    requires ts.TypeList? && ValidList(ts)
    ensures Samples(ts, true) != Samples(ts, false)
  {
    ValidIsElement(ts.head);
    SamplesDiffer(ts.head);
    assert Samples(ts, true)[0] != Samples(ts, false)[0];
  }

  /** Shown the value once, and then left alone: a property that does not notify. */
  function Stale(o: nat, target: nat, v: Value): seq<Event> {
    [Attach(o), Submit, Submit, Serve, Forward, Deliver, Assign(target, v)]
  }

  /** The observer has been attached and the bus has its rule and its request. */
  function Watching(p: Program, o: nat): World
    requires p.Valid() && o < |p.targets|
  {
    World(Server(p.properties, p.values, []), Unattached(p.targets)[o := Observer(p.targets[o], true, [])],
          true, [], [Get(o)], [])
  }

  lemma StaleRequests(p: Program, o: nat)
    requires p.Valid() && o < |p.targets|
    ensures Step(Step(Step(Start(p), Attach(o)), Submit), Submit) == Watching(p, o)
  {
    NoneAttached(p.targets);
    assert [AddMatch] + [Get(o)] == [AddMatch, Get(o)];
    var w1 := Step(Start(p), Attach(o));
    assert w1 == Watching(p, o).(installed := false, toBus := [AddMatch, Get(o)], toServer := []) by {
      assert [] + [AddMatch, Get(o)] == [AddMatch, Get(o)];
    }
    var w2 := Step(w1, Submit);
    assert w2 == Watching(p, o).(toBus := [Get(o)], toServer := []) by {
      assert [AddMatch, Get(o)][1..] == [Get(o)];
    }
    assert [Get(o)][1..] == [];
  }

  lemma StaleReply(p: Program, o: nat)
    requires p.Valid() && o < |p.targets|
    ensures var w := Step(Step(Step(Watching(p, o), Serve), Forward), Deliver);
            Quiet(w) && w.server == Start(p).server && o < |w.observers|
            && w.observers[o] == Observer(p.targets[o], true, [p.values[p.targets[o]]])
  {
    var m := GetReply(o, p.values[p.targets[o]]);
    var w4 := Step(Watching(p, o), Serve);
    assert w4 == Watching(p, o).(toServer := [], server := Server(p.properties, p.values, [m]));
    var w5 := Step(w4, Forward);
    assert w5 == Watching(p, o).(toServer := [], toClient := [m]);
  }

  lemma RunStep(p: Program, es: seq<Event>, n: nat)
    requires 0 < n <= |es|
    ensures Run(p, es[..n]) == Step(Run(p, es[..n - 1]), es[n - 1])
  {
    assert es[..n][..n - 1] == es[..n - 1];
  }

  lemma StaleSeen(p: Program, o: nat, v: Value)
    requires p.Valid() && o < |p.targets| && !p.properties[p.targets[o]].notifying
    requires v != p.values[p.targets[o]] && HasType(p.properties[p.targets[o]].data, v)
    ensures Quiet(Run(p, Stale(o, p.targets[o], v))) && !UpToDate(Run(p, Stale(o, p.targets[o], v)))
  {
    var es := Stale(o, p.targets[o], v);
    assert Run(p, es[..3]) == Watching(p, o) by {
      RunStep(p, es, 1); RunStep(p, es, 2); RunStep(p, es, 3);
      StaleRequests(p, o);
    }
    var seen := Run(p, es[..6]);
    assert seen == Step(Step(Step(Watching(p, o), Serve), Forward), Deliver) by {
      RunStep(p, es, 4); RunStep(p, es, 5); RunStep(p, es, 6);
    }
    StaleReply(p, o);
    RunStep(p, es, 7);
    assert es[..7] == es;
    var w := Run(p, es);
    assert w.observers[o].attached && w.server.values[p.targets[o]] == v;
  }

  /**
    A program's attached observers are up to date whenever the system is quiet, in all runs,
    exactly if every observed property is a notifying one.
   */
  lemma CoherenceExactly(p: Program)
    requires p.Valid()
    ensures (forall events | Quiet(Run(p, events)) :: UpToDate(Run(p, events)))
            <==> (forall o | 0 <= o < |p.targets| :: p.properties[p.targets[o]].notifying)
  {
    if forall o | 0 <= o < |p.targets| :: p.properties[p.targets[o]].notifying {
      forall events | Quiet(Run(p, events)) ensures UpToDate(Run(p, events)) {
        AlwaysCoherent(p, events);
        var w := Run(p, events);
        assert w.toClient + w.server.outbox == [];
        forall o | 0 <= o < |w.observers| && w.observers[o].attached
          ensures w.observers[o].target < |w.server.values|
          ensures Last(w.observers[o].seen) == Some(w.server.values[w.observers[o].target])
        {
          assert Coherent(w, o);
        }
      }
    } else {
      var o :| 0 <= o < |p.targets| && !p.properties[p.targets[o]].notifying;
      var t := p.properties[p.targets[o]].data;
      ValidIsElement(t);
      SamplesDiffer(t);
      SampleTyped(t, true);
      SampleTyped(t, false);
      StaleSeen(p, o, Sample(t, p.values[p.targets[o]] == Sample(t, false)));
    }
  }
}
