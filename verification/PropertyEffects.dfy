/**
  What each event of the property protocol does, in full, and what that makes of whole runs:
  properties hold what was stored last, and no request or reply is lost or overtaken.
 */
module PropertyEffects {
  import opened Types
  import opened Codec
  import opened Properties

  // ----- the server's side -----

  /** An assignment stores the value, and is announced exactly if the property notifies and the value is news or always sent. */
  lemma AssignExactly(w: World, p: nat, v: Value)
    requires p < |w.server.values| && p < |w.server.properties| && HasType(w.server.properties[p].data, v)
    ensures var w', property := Step(w, Assign(p, v)), w.server.properties[p];
            && w'.server.values[p] == v && |w'.server.values| == |w.server.values|
            && (forall q | 0 <= q < |w.server.values| && q != p :: w'.server.values[q] == w.server.values[q])
            && (property.notifying && (property.always || w.server.values[p] != v) ==>
                  w'.server.outbox == w.server.outbox + [Changed(p, v)])
            && (!(property.notifying && (property.always || w.server.values[p] != v)) ==>
                  w'.server.outbox == w.server.outbox)
            && w' == w.(server := w.server.(values := w'.server.values, outbox := w'.server.outbox))
  {
  }

  /** The request is a Set the server can carry out. */
  predicate Settable(w: World, r: Request) {
    r.Set? && r.observer < |w.observers| && w.observers[r.observer].target < |w.server.values|
    && w.observers[r.observer].target < |w.server.properties|
  }

  predicate Gettable(w: World, r: Request) {
    r.Get? && r.observer < |w.observers| && w.observers[r.observer].target < |w.server.values|
    && w.observers[r.observer].target < |w.server.properties|
  }

  /** A served Set stores the value unless the program has a callback of its own, and is replied to last. */
  lemma SetExactly(w: World)
    requires w.toServer != [] && Settable(w, w.toServer[0])
    ensures var w', o, v := Step(w, Serve), w.toServer[0].observer, w.toServer[0].value;
            var p := w.observers[o].target;
            var property := w.server.properties[p];
            && |w'.server.values| == |w.server.values|
            && w'.server.values[p] == (if property.guarded then w.server.values[p] else v)
            && (forall q | 0 <= q < |w.server.values| && q != p :: w'.server.values[q] == w.server.values[q])
            && w'.server.outbox == w.server.outbox
                 + (if !property.guarded && property.notifying && (property.always || w.server.values[p] != v)
                    then [Changed(p, v), SetReply(o, true)] else [SetReply(o, true)])
            && w' == w.(toServer := w.toServer[1..],
                        server := w.server.(values := w'.server.values, outbox := w'.server.outbox))
  {
    var o, v := w.toServer[0].observer, w.toServer[0].value;
    var p := w.observers[o].target;
    assert [Changed(p, v)] + [SetReply(o, true)] == [Changed(p, v), SetReply(o, true)];
  }

  /** A served Get changes nothing and is replied to with the value the server holds now. */
  lemma GetExactly(w: World)
    requires w.toServer != [] && Gettable(w, w.toServer[0])
    ensures var o := w.toServer[0].observer;
            Step(w, Serve) ==
            w.(toServer := w.toServer[1..],
               server := w.server.(outbox :=
                 w.server.outbox + [GetReply(o, w.server.values[w.observers[o].target])]))
  {
  }

  /** The value stored last: by an assignment, or by a Set to a property without a callback. */
  function LastStored(p: Program, events: seq<Event>, i: nat): Value
    requires i < |p.values|
  {
    if events == [] then p.values[i]
    else
      var before, e := events[..|events| - 1], events[|events| - 1];
      var w := Run(p, before);
      if e.Assign? && e.property == i && i < |w.server.properties| && HasType(w.server.properties[i].data, e.value) then e.value
      else if e.Serve? && w.toServer != [] && Settable(w, w.toServer[0])
              && w.observers[w.toServer[0].observer].target == i && !w.server.properties[i].guarded then
        w.toServer[0].value
      else LastStored(p, before, i)
  }

  /** In every run each property holds the value stored last. */
  lemma {:induction false} HoldsLastStored(p: Program, events: seq<Event>, i: nat)
    requires p.Valid() && i < |p.values|
    ensures i < |Run(p, events).server.values| && Run(p, events).server.values[i] == LastStored(p, events, i)
  {
    if events != [] {
      var before, e := events[..|events| - 1], events[|events| - 1];
      var w := Run(p, before);
      HoldsLastStored(p, before, i);
      AlwaysCoherent(p, before);
      StoredStep(w, e, i);
    }
  }

  lemma StoredStep(w: World, e: Event, i: nat)
    requires |w.server.properties| == |w.server.values| && i < |w.server.values|
    ensures |Step(w, e).server.values| == |w.server.values|
    ensures Step(w, e).server.values[i] ==
            if e.Assign? && e.property == i && HasType(w.server.properties[i].data, e.value) then e.value
            else if e.Serve? && w.toServer != [] && Settable(w, w.toServer[0])
                    && w.observers[w.toServer[0].observer].target == i && !w.server.properties[i].guarded then
              w.toServer[0].value
            else w.server.values[i]
  {
    match e
    case Assign(p, v) =>
      if p < |w.server.values| && HasType(w.server.properties[p].data, v) {
        AssignExactly(w, p, v);
      }
    case Serve =>
      if w.toServer != [] && Settable(w, w.toServer[0]) {
        SetExactly(w);
      }
    case _ =>
  }

  // ----- the client's side -----

  /** Attaching asks for the value, and installs the rule first exactly if nothing was attached. */
  lemma AttachExactly(w: World, o: nat)
    requires o < |w.observers|
    ensures Step(w, Attach(o)) ==
            w.(observers := w.observers[o := w.observers[o].(attached := true)],
               toBus := w.toBus + if forall q | 0 <= q < |w.observers| :: !w.observers[q].attached
                                  then [AddMatch, Get(o)] else [Get(o)])
  {
    NoneAttachedExactly(w.observers);
    assert [AddMatch] + [Get(o)] == [AddMatch, Get(o)];
    assert [] + [Get(o)] == [Get(o)];
  }

  /** Detaching removes the rule exactly if this was the only one attached. */
  lemma DetachExactly(w: World, o: nat)
    requires o < |w.observers|
    ensures Step(w, Detach(o)) ==
            w.(observers := w.observers[o := w.observers[o].(attached := false)],
               toBus := w.toBus + if w.observers[o].attached &&
                                     forall q | 0 <= q < |w.observers| && q != o :: !w.observers[q].attached
                                  then [RemoveMatch] else [])
  {
    var without := w.observers[o := w.observers[o].(attached := false)];
    AttachedUpdate(w.observers, o, without[o]);
    NoneAttachedExactly(without);
    assert forall q | 0 <= q < |without| :: without[q].attached <==> q != o && w.observers[q].attached;
  }

  lemma {:induction false} NoneAttachedExactly(observers: seq<Observer>)
    ensures Attached(observers) == 0 <==> forall q | 0 <= q < |observers| :: !observers[q].attached
  {
    if observers != [] {
      var n := |observers| - 1;
      NoneAttachedExactly(observers[..n]);
      assert forall q | 0 <= q < n :: observers[..n][q] == observers[q];
    }
  }

  /** The message is for the observer: a reply it asked for, or a change of its property while it is attached. */
  predicate For(m: Message, o: nat, observer: Observer) {
    (m.GetReply? && m.observer == o) || (m.Changed? && m.property == observer.target && observer.attached)
  }

  /** A delivered message reaches exactly the callbacks it is for, once, with its value. */
  lemma DeliverExactly(w: World, o: nat)
    requires w.toClient != [] && o < |w.observers|
    ensures var w', m := Step(w, Deliver), w.toClient[0];
            && |w'.observers| == |w.observers|
            && w'.observers[o] == w.observers[o].(seen := w'.observers[o].seen)
            && (For(m, o, w.observers[o]) ==> w'.observers[o].seen == w.observers[o].seen + [m.value])
            && (!For(m, o, w.observers[o]) ==> w'.observers[o].seen == w.observers[o].seen)
            && w' == w.(observers := w'.observers, toClient := w.toClient[1..])
  {
  }

  /** No other event calls a callback. */
  lemma SeenElsewhere(w: World, e: Event, o: nat)
    requires !e.Deliver? && o < |w.observers|
    ensures |Step(w, e).observers| == |w.observers| && Step(w, e).observers[o].seen == w.observers[o].seen
    ensures Step(w, e).observers[o].target == w.observers[o].target
  {
  }

  // ----- nothing is lost on the way -----

  /** What an event of the client's program asks of the server. */
  function Asks(w: World, e: Event): seq<Request> {
    match e
    case Attach(o) => if o < |w.observers| then [Get(o)] else []
    case Write(o, v) =>
      if o < |w.observers| && w.observers[o].target < |w.server.properties|
         && w.server.properties[w.observers[o].target].writable
         && HasType(w.server.properties[w.observers[o].target].data, v)
      then [Set(o, v)] else []
    case _ => []
  }

  /** All requests of a run, in the order in which they were made. */
  function Asked(p: Program, events: seq<Event>): seq<Request> {
    if events == [] then []
    else
      var before := events[..|events| - 1];
      Asked(p, before) + Asks(Run(p, before), events[|events| - 1])
  }

  /** All requests the server has taken up, in the order in which it did. */
  function Served(p: Program, events: seq<Event>): seq<Request> {
    if events == [] then []
    else
      var before, e := events[..|events| - 1], events[|events| - 1];
      Served(p, before) + Taken(Run(p, before), e)
  }

  /** Without the requests that are for the bus itself. */
  function ForServer(q: seq<Request>): seq<Request> {
    if q == [] then []
    else (if ChangesRule(q[0]) then [] else [q[0]]) + ForServer(q[1..])
  }

  lemma {:induction false} ForServerConcat(a: seq<Request>, b: seq<Request>)
    ensures ForServer(a + b) == ForServer(a) + ForServer(b)
  {
    if a == [] {
      assert a + b == b;
    } else {
      assert (a + b)[1..] == a[1..] + b;
      ForServerConcat(a[1..], b);
    }
  }

  lemma ForServerOf(r: Request, s: Request)
    ensures ForServer([r]) == if ChangesRule(r) then [] else [r]
    ensures ChangesRule(r) && !ChangesRule(s) ==> ForServer([r, s]) == [s]
  {
    assert [r][1..] == [] && [r, s][1..] == [s] && [s][1..] == [];
  }

  /** The requests underway. */
  function Underway(w: World): seq<Request> {
    w.toServer + ForServer(w.toBus)
  }

  lemma UnderwayMore(w: World, rs: seq<Request>)
    ensures Underway(w.(toBus := w.toBus + rs)) == Underway(w) + ForServer(rs)
  {
    ForServerConcat(w.toBus, rs);
  }

  lemma UnderwayAttach(w: World, o: nat)
    requires o < |w.observers|
    ensures Underway(Step(w, Attach(o))) == Underway(w) + [Get(o)]
  {
    AttachExactly(w, o);
    UnderwayMore(w, [AddMatch, Get(o)]);
    UnderwayMore(w, [Get(o)]);
    ForServerOf(AddMatch, Get(o));
    ForServerOf(Get(o), Get(o));
  }

  lemma UnderwayDetach(w: World, o: nat)
    requires o < |w.observers|
    ensures Underway(Step(w, Detach(o))) == Underway(w)
  {
    DetachExactly(w, o);
    UnderwayMore(w, [RemoveMatch]);
    UnderwayMore(w, []);
    ForServerOf(RemoveMatch, Get(o));
  }

  lemma UnderwayWrite(w: World, o: nat, v: Value)
    ensures Underway(Step(w, Write(o, v))) == Underway(w) + Asks(w, Write(o, v))
  {
    UnderwayMore(w, [Set(o, v)]);
    ForServerOf(Set(o, v), Get(o));
    assert Underway(w) + [] == Underway(w);
  }

  lemma UnderwaySubmit(w: World)
    ensures Underway(Step(w, Submit)) == Underway(w)
  {
    if w.toBus != [] {
      var r, rest, w' := w.toBus[0], ForServer(w.toBus[1..]), Step(w, Submit);
      assert w'.toBus == w.toBus[1..];
      if ChangesRule(r) {
        assert w'.toServer == w.toServer && ForServer(w.toBus) == [] + rest == rest;
      } else {
        assert w'.toServer == w.toServer + [r] && ForServer(w.toBus) == [r] + rest;
        assert w.toServer + ([r] + rest) == (w.toServer + [r]) + rest;
      }
    }
  }

  lemma UnderwayServe(w: World)
    ensures (if w.toServer == [] then [] else [w.toServer[0]]) + Underway(Step(w, Serve)) == Underway(w)
  {
    if w.toServer != [] {
      assert Step(w, Serve).toServer == w.toServer[1..] && Step(w, Serve).toBus == w.toBus;
    }
  }

  /** The request a step of the server takes up. */
  function Taken(w: World, e: Event): seq<Request> {
    if e.Serve? && w.toServer != [] then [w.toServer[0]] else []
  }

  lemma UnderwayStep(w: World, e: Event)
    ensures Underway(w) + Asks(w, e) == Taken(w, e) + Underway(Step(w, e))
  {
    match e
    case Attach(o) => if o < |w.observers| { UnderwayAttach(w, o); }
    case Detach(o) => if o < |w.observers| { UnderwayDetach(w, o); }
    case Write(o, v) => UnderwayWrite(w, o, v);
    case Submit => UnderwaySubmit(w);
    case Serve => UnderwayServe(w);
    case _ =>
  }

  lemma Regroup<T>(a: seq<T>, b: seq<T>, c: seq<T>, d: seq<T>, e: seq<T>)
    requires b + c == d + e
    ensures (a + b) + c == (a + d) + e
  {
    assert (a + b) + c == a + (b + c) && (a + d) + e == a + (d + e);
  }

  /** In every run the requests made are those served and those underway, in this order. */
  lemma {:induction false} RequestsArriveInOrder(p: Program, events: seq<Event>)
    ensures Asked(p, events) == Served(p, events) + Underway(Run(p, events))
  {
    if events == [] {
      assert Underway(Start(p)) == [];
    } else {
      var before, e := events[..|events| - 1], events[|events| - 1];
      var w := Run(p, before);
      RequestsArriveInOrder(p, before);
      UnderwayStep(w, e);
      Regroup(Served(p, before), Underway(w), Asks(w, e), Taken(w, e), Underway(Step(w, e)));
    }
  }

  /** The observers the replies among some messages are for. */
  function RepliesTo(msgs: seq<Message>): seq<nat> {
    if msgs == [] then []
    else (if msgs[0].Changed? then [] else [msgs[0].observer]) + RepliesTo(msgs[1..])
  }

  lemma {:induction false} RepliesConcat(a: seq<Message>, b: seq<Message>)
    ensures RepliesTo(a + b) == RepliesTo(a) + RepliesTo(b)
  {
    if a == [] {
      assert a + b == b;
    } else {
      assert (a + b)[1..] == a[1..] + b;
      RepliesConcat(a[1..], b);
    }
  }

  lemma RepliesOf(m: Message, n: Message)
    ensures RepliesTo([m]) == if m.Changed? then [] else [m.observer]
    ensures m.Changed? && !n.Changed? ==> RepliesTo([m, n]) == [n.observer]
  {
    assert [m][1..] == [] && [m, n][1..] == [n] && [n][1..] == [];
  }

  function AskedBy(q: seq<Request>): seq<nat> {
    if q == [] then []
    else AskedBy(q[..|q| - 1]) + if ChangesRule(q[|q| - 1]) then [] else [q[|q| - 1].observer]
  }

  /** All replies the client has taken, by observer, in order. */
  function Replied(p: Program, events: seq<Event>): seq<nat> {
    if events == [] then []
    else
      var before, e := events[..|events| - 1], events[|events| - 1];
      Replied(p, before) + Heard(Run(p, before), e)
  }

  /** The reply a delivery hands to the client. */
  function Heard(w: World, e: Event): seq<nat> {
    if e.Deliver? && w.toClient != [] then RepliesTo([w.toClient[0]]) else []
  }

  function RepliesUnderway(w: World): seq<nat> {
    RepliesTo(w.toClient) + RepliesTo(w.server.outbox)
  }

  /** What the server adds to its outbox in a step. */
  lemma RepliesServed(w: World)
    requires w.toServer != [] && (Gettable(w, w.toServer[0]) || Settable(w, w.toServer[0]))
    ensures RepliesUnderway(Step(w, Serve)) == RepliesUnderway(w) + [w.toServer[0].observer]
  {
    var o := w.toServer[0].observer;
    var p := w.observers[o].target;
    if w.toServer[0].Get? {
      var m := GetReply(o, w.server.values[p]);
      GetExactly(w);
      RepliesConcat(w.server.outbox, [m]);
      RepliesOf(m, m);
    } else {
      var changed, m := Changed(p, w.toServer[0].value), SetReply(o, true);
      SetExactly(w);
      RepliesConcat(w.server.outbox, [changed, m]);
      RepliesConcat(w.server.outbox, [m]);
      RepliesOf(changed, m);
      RepliesOf(m, m);
    }
  }

  lemma RepliesForwarded(w: World)
    ensures RepliesUnderway(Step(w, Forward)) == RepliesUnderway(w)
  {
    if w.server.outbox != [] {
      var m, rest := w.server.outbox[0], w.server.outbox[1..];
      assert w.server.outbox == [m] + rest;
      RepliesConcat([m], rest);
      RepliesConcat(w.toClient, [m]);
      RepliesOf(m, m);
    }
  }

  lemma RepliesDelivered(w: World)
    requires w.toClient != []
    ensures RepliesTo([w.toClient[0]]) + RepliesUnderway(Step(w, Deliver)) == RepliesUnderway(w)
  {
    assert w.toClient == [w.toClient[0]] + w.toClient[1..];
    RepliesConcat([w.toClient[0]], w.toClient[1..]);
  }

  lemma RepliesAssigned(w: World, p: nat, v: Value)
    ensures RepliesUnderway(Step(w, Assign(p, v))) == RepliesUnderway(w)
  {
    var m := Changed(p, v);
    RepliesConcat(w.server.outbox, [m]);
    RepliesOf(m, m);
    if p < |w.server.values| && p < |w.server.properties| && HasType(w.server.properties[p].data, v) {
      AssignExactly(w, p, v);
    }
  }

  lemma RepliesElsewhere(w: World, e: Event)
    requires e.Attach? || e.Detach? || e.Write? || e.Submit?
    ensures RepliesUnderway(Step(w, e)) == RepliesUnderway(w)
  {
    var w' := Step(w, e);
    assert w'.toClient == w.toClient && w'.server.outbox == w.server.outbox by {
      ServerStays(w, e);
    }
  }

  lemma ServerStays(w: World, e: Event)
    requires e.Attach? || e.Detach? || e.Write? || e.Submit?
    ensures Step(w, e).toClient == w.toClient && Step(w, e).server == w.server
  {
  }

  /** Every request a client can make is one the server can serve. */
  predicate Servable(w: World) {
    && (forall r | r in w.toServer :: Gettable(w, r) || Settable(w, r))
    && forall r | r in w.toBus && !ChangesRule(r) :: Gettable(w, r) || Settable(w, r)
  }

  /** What makes a request servable never changes. */
  lemma StaysServable(w: World, e: Event, r: Request)
    requires Gettable(w, r) || Settable(w, r)
    ensures Gettable(Step(w, e), r) || Settable(Step(w, e), r)
  {
  }

  lemma AsksServable(w: World, e: Event)
    requires Shape(w)
    ensures forall r | r in Asks(w, e) :: Gettable(w, r) || Settable(w, r)
  {
  }

  lemma WhereFrom(w: World, e: Event, r: Request)
    requires !ChangesRule(r)
    ensures r in Step(w, e).toServer ==> r in w.toServer || r in w.toBus
    ensures r in Step(w, e).toBus ==> r in w.toBus || r in Asks(w, e)
  {
    if e.Attach? && e.observer < |w.observers| {
      AttachExactly(w, e.observer);
    }
  }

  lemma OnlyForServer(w: World, e: Event, r: Request)
    requires r in Step(w, e).toServer && ChangesRule(r)
    ensures r in w.toServer
  {
  }

  lemma ServableStep(w: World, e: Event)
    requires Servable(w) && Shape(w)
    ensures Servable(Step(w, e))
  {
    var w' := Step(w, e);
    AsksServable(w, e);
    forall r | r in w'.toServer ensures Gettable(w', r) || Settable(w', r) {
      if ChangesRule(r) { OnlyForServer(w, e, r); } else { WhereFrom(w, e, r); }
      StaysServable(w, e, r);
    }
    forall r | r in w'.toBus && !ChangesRule(r) ensures Gettable(w', r) || Settable(w', r) {
      WhereFrom(w, e, r);
      StaysServable(w, e, r);
    }
  }

  lemma {:induction false} AlwaysServable(p: Program, events: seq<Event>)
    requires p.Valid()
    ensures Servable(Run(p, events)) && Shape(Run(p, events))
  {
    AlwaysCoherent(p, events);
    if events != [] {
      AlwaysServable(p, events[..|events| - 1]);
      ServableStep(Run(p, events[..|events| - 1]), events[|events| - 1]);
    }
  }

  /** A step that neither takes up a request nor hands out a reply. */
  lemma RepliesStay(w: World, e: Event)
    requires e.Serve? ==> w.toServer == []
    requires e.Deliver? ==> w.toClient == []
    ensures RepliesUnderway(Step(w, e)) == RepliesUnderway(w)
  {
    match e
    case Assign(p, v) => RepliesAssigned(w, p, v);
    case Forward => RepliesForwarded(w);
    case Serve =>
    case Deliver =>
    case _ => RepliesElsewhere(w, e);
  }

  lemma AddNothing<T>(a: seq<T>)
    ensures a + [] == a && [] + a == a
  {
  }

  lemma RepliesStep(w: World, e: Event)
    requires Servable(w)
    ensures RepliesUnderway(w) + AskedBy(Taken(w, e)) == Heard(w, e) + RepliesUnderway(Step(w, e))
  {
    AddNothing(RepliesUnderway(w));
    if e.Serve? && w.toServer != [] {
      AddNothing(RepliesUnderway(Step(w, e)));
      assert w.toServer[0] in w.toServer;
      RepliesServed(w);
      ServedOneMore([], w.toServer[0]);
      AddNothing(Taken(w, e));
      AddNothing([w.toServer[0].observer]);
    } else if e.Deliver? && w.toClient != [] {
      RepliesDelivered(w);
    } else {
      RepliesStay(w, e);
    }
  }

  lemma {:induction false} AskedByConcat(a: seq<Request>, b: seq<Request>)
    requires |b| <= 1
    ensures AskedBy(a + b) == AskedBy(a) + AskedBy(b)
  {
    if b == [] {
      assert a + b == a;
    } else {
      assert (a + b)[..|a|] == a && b[..0] == [];
    }
  }

  /** In every run each request served has one reply, taken by the client or underway, in the order of the requests. */
  lemma {:induction false} RepliesArriveInOrder(p: Program, events: seq<Event>)
    requires p.Valid()
    ensures AskedBy(Served(p, events)) == Replied(p, events) + RepliesUnderway(Run(p, events))
  {
    if events == [] {
      assert RepliesUnderway(Start(p)) == [];
    } else {
      var before, e := events[..|events| - 1], events[|events| - 1];
      var w := Run(p, before);
      RepliesArriveInOrder(p, before);
      AlwaysServable(p, before);
      RepliesStep(w, e);
      AskedByConcat(Served(p, before), Taken(w, e));
      Regroup(Replied(p, before), RepliesUnderway(w), AskedBy(Taken(w, e)), Heard(w, e), RepliesUnderway(Step(w, e)));
    }
  }

  lemma ServedOneMore(served: seq<Request>, r: Request)
    requires !ChangesRule(r)
    ensures AskedBy(served + [r]) == AskedBy(served) + [r.observer]
  {
    assert (served + [r])[..|served|] == served;
  }
}
