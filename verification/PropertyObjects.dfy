/**
  Properties as objects: the server's assignment and Get/Set handlers, and the client's
  attach and change handling. Each method is proved against a step of Properties.
 */
module PropertyObjects {
  import opened Types
  import opened Codec
  import opened CodecImpl
  import opened Properties
  import opened Dispatching
  import M = Matches

  // ----- server -----

  class ServerProperty {
    const parent: Skeleton
    const id: nat
    const data: Type
    const notifying: bool
    const always: bool
    const writable: bool
    var value: Value
    var callback: bool
    /** The values the write callback was asked about. */
    var asked: seq<Value>

    constructor (parent: Skeleton, id: nat, data: Type, notifying: bool, always: bool, writable: bool, value: Value)
      ensures this.parent == parent && this.id == id && this.data == data && this.value == value
      ensures this.notifying == notifying && this.always == always && this.writable == writable
      ensures !callback && asked == []
    {
      this.parent, this.id, this.data, this.value := parent, id, data, value;
      this.notifying, this.always, this.writable := notifying, always, writable;
      callback, asked := false, [];
    }

    function Flags(): Property
      reads this`callback
    {
      Property(data, notifying, always, writable, callback)
    }

    /** PropertyComparator: a property that notifies always does not compare. */
    function Differs(v: Value): bool
      reads this`value
    {
      if always then true else value != v
    }

    method Notify(v: Value)
      modifies parent`outbox
      ensures parent.View() == old(parent.View()).(outbox := old(parent.outbox) + [Changed(id, v)])
    {
      parent.outbox := parent.outbox + [Changed(id, v)];
    }

    /** Overwrites the stored value. */
    method Store(v: Value)
      requires parent.Valid() && parent.Has(this)
      modifies this`value
      ensures parent.View() == old(parent.View()).(values := old(parent.View()).values[id := v])
    {
      value := v;
      parent.OneValue(this, old(parent.View()).values);
    }

    /** operator=, once the property holds a value. */
    method Assign(v: Value)
      requires parent.Valid() && parent.Has(this)
      modifies this`value, parent`outbox
      ensures parent.View() == AssignTo(old(parent.View()), id, v)
    {
      if notifying {
        if Differs(v) {
          Store(v);
          Notify(v);
        }
      } else {
        Store(v);
      }
    }

    /** __set: an installed callback takes the decision away. */
    method Set(v: Value) returns (assign: bool)
      modifies this`asked
      ensures assign == !callback && asked == if callback then old(asked) + [v] else old(asked)
    {
      if callback {
        asked := asked + [v];
        return false;
      }
      return true;
    }

    /** __eval_set: decodes the new value and assigns it unless the callback took over. */
    method EvalSet(w: Wire) returns (r: Result<Value>)
      requires parent.Valid() && parent.Has(this)
      modifies this`value, this`asked, parent`outbox
      ensures r == Unboxed(data, w)
      ensures parent.View() == (if r.Ok? && !callback then AssignTo(old(parent.View()), id, r.value) else old(parent.View()))
      ensures asked == if r.Ok? && callback then old(asked) + [r.value] else old(asked)
    {
      r := Unbox(data, w);
      if r.Ok? {
        var assign := Set(r.value);
        assert parent.View() == old(parent.View());
        if assign {
          Assign(r.value);
        }
      }
    }
  }

  /** PropertyCodec::decode: steps into the variant. */
  method Unbox(t: Type, w: Wire) returns (r: Result<Value>)
    ensures r == Unboxed(t, w)
  {
    if !w.WVariant? {
      return Failed(false);
    }
    var iter := new Reader(w.items);
    r := CodecImpl.Decode(t, iter);
  }

  class Skeleton {
    var properties: seq<ServerProperty>
    var outbox: seq<Message>

    ghost predicate Valid()
      reads this`properties
    {
      forall i | 0 <= i < |properties| :: properties[i].parent == this && properties[i].id == i
    }

    ghost predicate Has(p: ServerProperty)
      reads this`properties
    {
      p.id < |properties| && properties[p.id] == p
    }

    ghost function View(): Server
      reads this`properties, this`outbox, properties`value, properties`callback
    {
      Server(FlagsOf(properties), ValuesOf(properties), outbox)
    }

    /** Only the value of one property may have changed. */
    lemma OneValue(p: ServerProperty, before: seq<Value>)
      requires Valid() && Has(p) && |before| == |properties|
      requires forall i | 0 <= i < |properties| && properties[i] != p :: properties[i].value == before[i]
      ensures ValuesOf(properties) == before[p.id := p.value]
    {
    }

    /** Get: the reply carries the value. */
    method HandleGet(p: ServerProperty, o: nat)
      requires Valid() && Has(p)
      modifies this`outbox
      ensures View() == Properties.HandleGet(old(View()), o, p.id)
    {
      Reply(GetReply(o, p.value));
    }

    /** Set: an undecodable value changes nothing and is refused with an error reply; an abort sends none. */
    method HandleSet(p: ServerProperty, o: nat, w: Wire) returns (r: Result<Value>)
      requires Valid() && Has(p)
      modifies this`outbox, p`value, p`asked
      ensures r == Unboxed(p.data, w)
      ensures r.Ok? ==> View() == Properties.HandleSet(old(View()), o, p.id, r.value)
      ensures r.Failed? ==> View() == old(View()).(outbox := old(outbox) + [SetReply(o, false)])
      ensures r.Aborted? ==> View() == old(View())
    {
      r := p.EvalSet(w);
      if !r.Aborted? {
        Reply(SetReply(o, r.Ok?));
      }
    }

    method Reply(m: Message)
      modifies this`outbox
      ensures View() == old(View()).(outbox := old(outbox) + [m])
    {
      outbox := outbox + [m];
    }
  }

  ghost function FlagsOf(properties: seq<ServerProperty>): (r: seq<Property>)
    reads properties`callback
    ensures |r| == |properties| && forall i | 0 <= i < |r| :: r[i] == properties[i].Flags()
  {
    if properties == [] then [] else [properties[0].Flags()] + FlagsOf(properties[1..])
  }

  ghost function ValuesOf(properties: seq<ServerProperty>): (r: seq<Value>)
    reads properties`value
    ensures |r| == |properties| && forall i | 0 <= i < |r| :: r[i] == properties[i].value
  {
    if properties == [] then [] else [properties[0].value] + ValuesOf(properties[1..])
  }

  // ----- client -----

  /** ClientProperty::__eval with a value, from a change signal. */
  method EvalChange(prop: ClientProperty, w: Wire) returns (ok: bool)
    modifies prop`calls
    ensures ok == (prop.callback ==> Unboxed(prop.data, w).Ok?)
    ensures prop.calls == old(prop.calls) + Heard(prop.callback, prop.data, w)
  {
    if prop.callback {
      var r := Unbox(prop.data, w);
      if !r.Ok? {
        return false;
      }
      prop.calls := prop.calls + [r.value];
    }
    return true;
  }

  function Heard(callback: bool, t: Type, w: Wire): seq<Value> {
    if callback && Unboxed(t, w).Ok? then [Unboxed(t, w).value] else []
  }

  /** What change handling looks at in a client's property, besides its calls. */
  datatype PropertyView = PropertyView(name: string, data: Type, callback: bool, attached: bool)

  ghost predicate Shows(views: seq<PropertyView>, properties: seq<ClientProperty>, flags: seq<bool>)
    reads properties`callback
  {
    && |views| == |properties| == |flags|
    && forall i | 0 <= i < |views| ::
         views[i] == PropertyView(properties[i].name, properties[i].data, properties[i].callback, flags[i])
  }

  ghost function Calls(properties: seq<ClientProperty>): (r: seq<seq<Value>>)
    reads properties`calls
    ensures |r| == |properties| && forall i | 0 <= i < |r| :: r[i] == properties[i].calls
  {
    if properties == [] then [] else [properties[0].calls] + Calls(properties[1..])
  }

  /** A changed value is heard by the attached property of that name. */
  function HearOne(views: seq<PropertyView>, calls: seq<seq<Value>>, name: string, w: Wire):
      (r: seq<seq<Value>>)
    requires |views| == |calls|
    ensures |r| == |calls| && forall i | 0 <= i < |r| ::
              r[i] == if views[i].name == name && views[i].attached
                      then calls[i] + Heard(views[i].callback, views[i].data, w) else calls[i]
  {
    seq(|calls|, i requires 0 <= i < |calls| =>
      if views[i].name == name && views[i].attached
      then calls[i] + Heard(views[i].callback, views[i].data, w) else calls[i])
  }

  function HearAll(views: seq<PropertyView>, calls: seq<seq<Value>>, changed: seq<(string, Wire)>):
      (r: seq<seq<Value>>)
    requires |views| == |calls|
    ensures |r| == |calls|
  {
    if changed == [] then calls
    else
      var last := changed[|changed| - 1];
      HearOne(views, HearAll(views, calls, changed[..|changed| - 1]), last.0, last.1)
  }

  /** find_if over the property names of a stub. */
  method FindName(properties: seq<ClientProperty>, name: string) returns (i: nat)
    ensures i <= |properties| && forall j | 0 <= j < i :: properties[j].name != name
    ensures i < |properties| ==> properties[i].name == name
  {
    i := 0;
    while i < |properties| && properties[i].name != name
      invariant i <= |properties| && forall j | 0 <= j < i :: properties[j].name != name
    {
      i := i + 1;
    }
  }

  /** The names of an interface's properties differ, and so do the objects. */
  ghost predicate Distinct(properties: seq<ClientProperty>) {
    && (forall i, j | 0 <= i < j < |properties| :: properties[i] != properties[j])
    && forall i, j | 0 <= i < j < |properties| :: properties[i].name != properties[j].name
  }

  /** The value does not decode as the type of the property that is to hear it. */
  predicate Undecodable(views: seq<PropertyView>, name: string, w: Wire) {
    exists i | 0 <= i < |views| ::
      views[i].name == name && views[i].attached && views[i].callback && !Unboxed(views[i].data, w).Ok?
  }

  /** How many entries go by before one does not decode. */
  function Decodable(views: seq<PropertyView>, changed: seq<(string, Wire)>): (n: nat)
    ensures n <= |changed|
    ensures n < |changed| ==> Undecodable(views, changed[n].0, changed[n].1)
  {
    if changed == [] || Undecodable(views, changed[0].0, changed[0].1) then 0
    else 1 + Decodable(views, changed[1..])
  }

  /** Only the property found by name hears the entry. */
  lemma HeardBy(views: seq<PropertyView>, calls: seq<seq<Value>>, i: nat, name: string, w: Wire)
    requires |views| == |calls| && i < |views| && views[i].name == name
    requires forall j | 0 <= j < |views| && j != i :: views[j].name != name
    ensures HearOne(views, calls, name, w) ==
            if views[i].attached then calls[i := calls[i] + Heard(views[i].callback, views[i].data, w)] else calls
    ensures Undecodable(views, name, w) <==>
            views[i].attached && views[i].callback && !Unboxed(views[i].data, w).Ok?
  {
  }

  lemma HeardByNone(views: seq<PropertyView>, calls: seq<seq<Value>>, name: string, w: Wire)
    requires |views| == |calls| && forall j | 0 <= j < |views| :: views[j].name != name
    ensures HearOne(views, calls, name, w) == calls && !Undecodable(views, name, w)
  {
  }

  /** The property at position i is evaluated; the calls of the others stay. */
  method EvalAt(properties: seq<ClientProperty>, i: nat, w: Wire) returns (ok: bool)
    requires i < |properties| && forall j | 0 <= j < |properties| && j != i :: properties[j] != properties[i]
    modifies properties[i..i + 1]`calls
    ensures ok == (properties[i].callback ==> Unboxed(properties[i].data, w).Ok?)
    ensures Calls(properties) == var before := old(Calls(properties));
              before[i := before[i] + Heard(properties[i].callback, properties[i].data, w)]
    ensures !ok ==> Calls(properties) == old(Calls(properties))
  {
    assert properties[i].calls + [] == properties[i].calls;
    ok := EvalChange(properties[i], w);
  }

  /** One entry of a change signal. */
  method HandleEntry(properties: seq<ClientProperty>, flags: seq<bool>, name: string, w: Wire,
                     ghost views: seq<PropertyView>)
    returns (ok: bool)
    requires Distinct(properties) && Shows(views, properties, flags)
    modifies properties`calls
    ensures ok == !Undecodable(views, name, w)
    ensures Calls(properties) == HearOne(views, old(Calls(properties)), name, w)
    ensures !ok ==> Calls(properties) == old(Calls(properties))
  {
    var i := FindName(properties, name);
    if i == |properties| {
      HeardByNone(views, Calls(properties), name, w);
      ok := true;
    } else {
      ok := HandleFound(properties, flags, i, w, views);
    }
  }

  /** The entry is for the property at position i. */
  method HandleFound(properties: seq<ClientProperty>, flags: seq<bool>, i: nat, w: Wire, ghost views: seq<PropertyView>)
    returns (ok: bool)
    requires Distinct(properties) && Shows(views, properties, flags) && i < |properties|
    modifies properties`calls
    ensures ok == !Undecodable(views, properties[i].name, w)
    ensures Calls(properties) == HearOne(views, old(Calls(properties)), properties[i].name, w)
    ensures !ok ==> Calls(properties) == old(Calls(properties))
  {
    HeardBy(views, Calls(properties), i, properties[i].name, w);
    ok := true;
    if flags[i] {
      ok := EvalAt(properties, i, w);
    }
  }

  /**
    StubBase::try_handle_signal on the changed properties of a signal: entries are taken in
    order; decoding stops at the first value of the wrong type.
   */
  method HandleChanged(stub: Stub, changed: seq<(string, Wire)>, ghost views: seq<PropertyView>) returns (handled: nat)
    requires Distinct(stub.properties) && Shows(views, stub.properties, stub.flags)
    modifies stub.properties`calls
    ensures handled == Decodable(views, changed)
    ensures Calls(stub.properties) == HearAll(views, old(Calls(stub.properties)), changed[..handled])
  {
    ghost var before := Calls(stub.properties);
    handled := 0;
    while handled < |changed|
      invariant handled <= |changed| && Decodable(views, changed) == handled + Decodable(views, changed[handled..])
      invariant Calls(stub.properties) == HearAll(views, before, changed[..handled])
    {
      assert changed[..handled + 1][..handled] == changed[..handled];
      assert changed[handled..][1..] == changed[handled + 1..];
      var entry := changed[handled];
      var ok := HandleEntry(stub.properties, stub.flags, entry.0, entry.1, views);
      if !ok {
        return;
      }
      handled := handled + 1;
    }
  }

  // ----- against the state machine -----

  /** A stub's properties as observers; targets says which server property each name stands for. */
  function Observers(calls: seq<seq<Value>>, flags: seq<bool>, targets: seq<nat>): (r: seq<Observer>)
    requires |flags| == |calls| == |targets|
    ensures |r| == |calls|
    ensures forall i | 0 <= i < |r| :: r[i] == Observer(targets[i], flags[i], calls[i])
  {
    seq(|calls|, i requires 0 <= i < |calls| => Observer(targets[i], flags[i], calls[i]))
  }

  /**
    A change signal with the value of one property is received by a stub's properties as the
    state machine says.
   */
  lemma HearsAsReceived(views: seq<PropertyView>, calls: seq<seq<Value>>, flags: seq<bool>, targets: seq<nat>,
                        name: string, w: Wire, p: nat, v: Value)
    requires |views| == |calls| == |flags| == |targets|
    requires forall i | 0 <= i < |views| :: views[i].callback && views[i].attached == flags[i]
               && (views[i].name == name <==> targets[i] == p)
               && (views[i].name == name ==> Unboxed(views[i].data, w) == Ok(v))
    ensures Observers(HearAll(views, calls, [(name, w)]), flags, targets)
            == Receive(Observers(calls, flags, targets), Changed(p, v))
  {
    var changed := [(name, w)];
    assert changed[..0] == [] && HearAll(views, calls, []) == calls;
    var after := HearOne(views, calls, name, w);
    assert HearAll(views, calls, changed) == after;
  }

  /** The reply to a request for a value. */
  datatype Reply = ValueReply(content: Wire) | ErrorReply

  /**
    pending_notify and the lambda of attach: a value is read as a variant with one
    alternative, an error calls the callback with the error instead.
   */
  method HandleReply(prop: ClientProperty, reply: Reply)
    modifies prop`calls, prop`errors
    ensures reply.ErrorReply? ==>
              prop.calls == old(prop.calls) && prop.errors == old(prop.errors) + if prop.callback then 1 else 0
    ensures reply.ValueReply? ==>
              && prop.errors == old(prop.errors)
              && prop.calls == old(prop.calls) +
                   var r := ReadReply(prop.data, reply.content);
                   if prop.callback && r.Ok? then [Content(r.value)] else []
  {
    match reply
    case ErrorReply =>
      if prop.callback {
        prop.errors := prop.errors + 1;
      }
    case ValueReply(w) =>
      var iter := new Reader([w]);
      var r := CodecImpl.Decode(Variant(TypeList(prop.data, NilType)), iter);
      if r.Ok? && prop.callback {
        prop.calls := prop.calls + [Content(r.value)];
      }
  }

  /** std::get of the only alternative. */
  function Content(v: Value): Value {
    if v.Alt? then v.content else v
  }

  lemma ReplyReceived(calls: seq<seq<Value>>, flags: seq<bool>, targets: seq<nat>, i: nat, v: Value)
    requires |calls| == |flags| == |targets| && i < |calls|
    ensures Observers(calls[i := calls[i] + [v]], flags, targets)
            == Receive(Observers(calls, flags, targets), GetReply(i, v))
  {
  }

  lemma {:induction false} AttachedAgree(observers: seq<Observer>, flags: seq<bool>)
    requires |observers| == |flags| && forall i | 0 <= i < |flags| :: observers[i].attached == flags[i]
    ensures Properties.Attached(observers) == M.Attached(flags)
  {
    if flags != [] {
      AttachedAgree(observers[..|flags| - 1], flags[..|flags| - 1]);
    }
  }

  /**
    The match rule goes to the dispatcher in exactly the cases in which the state machine
    sends it, when a property is attached or detached.
   */
  lemma RuleAsSent(calls: seq<seq<Value>>, flags: seq<bool>, targets: seq<nat>, i: nat)
    requires |calls| == |flags| == |targets| && i < |calls|
    ensures AddMatch in AttachRequests(Observers(calls, flags, targets), i) <==> !flags[i] && M.Attached(flags) == 0
    ensures DetachRequests(Observers(calls, flags, targets), i) == [RemoveMatch] <==> flags[i] && M.Attached(flags) == 1
    ensures var os := Observers(calls, flags, targets);
            && Observers(calls, flags[i := true], targets) == os[i := os[i].(attached := true)]
            && Observers(calls, flags[i := false], targets) == os[i := os[i].(attached := false)]
  {
    AttachedAgree(Observers(calls, flags, targets), flags);
  }
}
