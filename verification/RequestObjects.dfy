/**
  Requests as objects: reference-counted messages, the move-only descriptor, and the server's
  request handling. Each operation is proved against a step of Requests.
 */
module RequestObjects {
  import opened Requests

  class ServerMethod {
    const name: string

    constructor (name: string)
      ensures this.name == name
    {
      this.name := name;
    }
  }

  /** A method call message; refs counts the references taken by descriptors. */
  class Message {
    const call: nat
    var refs: int

    constructor (call: nat)
      ensures this.call == call && refs == 0
    {
      this.call, refs := call, 0;
    }
  }

  function Just(msg: Message?): set<Message> {
    if msg == null then {} else {msg}
  }

  class ServerRequestDescriptor {
    var requestor: ServerMethod?
    var msg: Message?
    /** Where the program keeps the descriptor. */
    ghost const place: int

    ghost predicate Valid()
      reads this
    {
      requestor == null <==> msg == null
    }

    ghost function View(): Slot
      reads this`msg
    {
      if msg == null then Empty else Holding(msg.call)
    }

    ghost function Named(): set<Message>
      reads this`msg
    {
      Just(msg)
    }

    constructor (ghost place: int)
      ensures Valid() && msg == null && this.place == place
    {
      requestor, msg, this.place := null, null, place;
    }

    /** The move constructor. */
    constructor Move(rhs: ServerRequestDescriptor, ghost place: int)
      requires rhs.Valid()
      modifies rhs
      ensures this.place == place
      ensures Valid() && msg == old(rhs.msg) && requestor == old(rhs.requestor)
      ensures rhs.Valid() && rhs.msg == null
    {
      requestor, msg, this.place := rhs.requestor, rhs.msg, place;
      new;
      rhs.requestor, rhs.msg := null, null;
    }

    /** Move assignment: what this descriptor held is forgotten, with its reference. */
    method MoveAssign(rhs: ServerRequestDescriptor)
      requires Valid() && rhs.Valid()
      modifies this, rhs
      ensures Valid() && rhs.Valid() && msg == old(rhs.msg) && requestor == old(rhs.requestor)
      ensures rhs != this ==> rhs.msg == null
    {
      if this != rhs {
        msg := rhs.msg;
        requestor := rhs.requestor;
        rhs.msg := null;
        rhs.requestor := null;
      }
    }

    method Set(requestor: ServerMethod?, msg: Message?)
      modifies this, Named()`refs, Just(msg)`refs
      ensures this.msg == msg && this.requestor == requestor
      ensures msg != null ==> msg.refs == old(msg.refs) + 1 - if old(this.msg) == msg then 1 else 0
      ensures forall m | m in old(Named()) && m != msg :: m.refs == old(m.refs) - 1
    {
      Clear();
      this.requestor := requestor;
      this.msg := msg;
      if msg != null {
        msg.refs := msg.refs + 1;
      }
    }

    method Clear()
      modifies this, Named()`refs
      ensures Valid() && msg == null
      ensures forall m | m in old(Named()) :: m.refs == old(m.refs) - 1
    {
      if msg != null {
        msg.refs := msg.refs - 1;
        msg := null;
      }
      requestor := null;
    }
  }

  class Skeleton {
    const current: ServerRequestDescriptor
    /** The descriptors the program keeps for deferred calls. */
    var slots: seq<ServerRequestDescriptor>
    /** The calls so far. */
    var messages: seq<Message>
    var handling: Message?
    /** The calls replied to, by a response or for an exception. */
    var answers: multiset<nat>
    var faults: multiset<nat>
    /** The state of the machine this object is in. */
    ghost var view: State

    constructor ()
      ensures Valid() && view == START && fresh(current)
    {
      current := new ServerRequestDescriptor(-1);
      slots, messages, handling := [], [], null;
      answers, faults, view := multiset{}, multiset{}, START;
    }

    /** The descriptor is whole and holds what the machine says. */
    ghost predicate Is(d: ServerRequestDescriptor, s: Slot)
      reads this`messages, d
    {
      && d.Valid()
      && match s
         case Empty => d.msg == null
         case Holding(call) => call < |messages| && d.msg == messages[call]
    }

    ghost predicate Messages()
      reads this`messages, this`view, messages`refs
    {
      && |messages| == |view.refs|
      && forall i | 0 <= i < |messages| :: messages[i].call == i && messages[i].refs == view.refs[i]
    }

    ghost predicate Valid()
      reads this, current, slots, messages`refs
    {
      && Messages()
      && current.place == -1 && Is(current, view.current)
      && |slots| == |view.slots|
      && (forall i | 0 <= i < |slots| :: slots[i].place == i && Is(slots[i], view.slots[i]))
      && (if handling == null then view.handling == Empty
          else handling in messages && view.handling == Holding(handling.call))
      && answers == view.answers && faults == view.faults
    }

    /** respond_with: a reply, and the current request is over. */
    method RespondWith()
      requires Valid() && current.requestor != null
      modifies this`answers, this`view, current, current.Named()`refs
      ensures Valid() && view == Step(old(view), Respond)
    {
      answers := answers + multiset{current.msg.call};
      current.Clear();
      view := Step(view, Respond);
    }

    /** respond_on. */
    method RespondOn(i: nat)
      requires Valid() && i < |slots| && slots[i].requestor != null
      modifies this`answers, this`view, slots[i], slots[i].Named()`refs
      ensures Valid() && view == Step(old(view), Event.RespondOn(i))
    {
      answers := answers + multiset{slots[i].msg.call};
      slots[i].Clear();
      view := Step(view, Event.RespondOn(i));
    }

    /** defer_response, moved into a new descriptor. */
    method Defer()
      requires Valid() && current.requestor != null
      modifies this`slots, this`view, current
      ensures Valid() && view == Step(old(view), Event.Defer)
    {
      var d := new ServerRequestDescriptor.Move(current, |slots|);
      slots := slots + [d];
      view := Step(view, Event.Defer);
    }

    /** defer_response, moved into an existing descriptor by way of a temporary. */
    method DeferInto(i: nat)
      requires Valid() && current.requestor != null && i < |slots|
      modifies this`view, current, slots[i]
      ensures Valid() && view == Step(old(view), Event.DeferInto(i))
    {
      var d := new ServerRequestDescriptor.Move(current, -2);
      slots[i].MoveAssign(d);
      view := Step(view, Event.DeferInto(i));
    }

    method MoveNew(i: nat)
      requires Valid() && i < |slots|
      modifies this`slots, this`view, slots[i]
      ensures Valid() && view == Step(old(view), Event.MoveNew(i))
    {
      var d := new ServerRequestDescriptor.Move(slots[i], |slots|);
      slots := slots + [d];
      view := Step(view, Event.MoveNew(i));
    }

    method MoveAssign(i: nat, j: nat)
      requires Valid() && i < |slots| && j < |slots|
      modifies this`view, slots[i], slots[j]
      ensures Valid() && view == Step(old(view), Event.MoveAssign(i, j))
    {
      slots[i].MoveAssign(slots[j]);
      view := Step(view, Event.MoveAssign(i, j));
    }

    /** clear, which is also what the destructor does. */
    method Clear(i: nat)
      requires Valid() && i < |slots|
      modifies this`view, slots[i], slots[i].Named()`refs
      ensures Valid() && view == Step(old(view), Event.Clear(i))
    {
      slots[i].Clear();
      view := Step(view, Event.Clear(i));
    }

    /** handle_interface_request, up to the call of the handler. */
    method BeginRequest(requested: ServerMethod, msg: Message)
      requires Valid() && handling == null && current.msg == null
      requires msg.call == |messages| && msg.refs == 0 && msg !in messages
      modifies this`messages, this`handling, this`view, current, msg`refs
      ensures Valid() && view == Step(old(view), Call)
    {
      current.Set(requested, msg);
      messages := messages + [msg];
      handling := msg;
      view := Step(view, Call);
    }

    /**
      After the handler: an exception is answered on the message itself, then whatever is
      left of the request is cleared.
     */
    method EndRequest(threw: bool)
      requires Valid() && handling != null
      modifies this`handling, this`faults, this`view, current, current.Named()`refs
      ensures Valid() && view == Step(old(view), if threw then Throw else Return)
    {
      if threw {
        ReplyFault();
      }
      FinishRequest();
    }

    method ReplyFault()
      requires Valid() && handling != null
      modifies this`faults, this`view
      ensures Valid() && view == old(view).(faults := old(view).faults + One(old(view).handling))
    {
      faults := faults + multiset{handling.call};
      view := view.(faults := view.faults + One(view.handling));
    }

    method FinishRequest()
      requires Valid() && handling != null
      modifies this`handling, this`view, current, current.Named()`refs
      ensures Valid() && view == Finished(old(view))
    {
      if current.requestor != null {
        current.Clear();
      }
      handling := null;
      view := Finished(view);
    }

    /** What a handler does about its own call; assertions stop it when there is none. */
    method PerformOnCurrent(e: Event)
      requires Valid() && (e.Respond? || e.Defer? || e.DeferInto?)
      modifies this`slots, this`answers, this`view, current, slots, messages`refs
      ensures Valid() && view == Step(old(view), e)
    {
      if current.requestor == null {
        return;
      }
      match e
      case Respond => RespondWith();
      case Defer => Defer();
      case DeferInto(i) => if i < |slots| { DeferInto(i); }
    }

    /** What the program does, in a handler or between requests, with the descriptors it keeps. */
    method PerformOnSlots(e: Event)
      requires Valid() && (e.RespondOn? || e.MoveNew? || e.MoveAssign? || e.Clear?)
      modifies this`slots, this`answers, this`view, slots, messages`refs
      ensures Valid() && view == Step(old(view), e)
    {
      if e.i >= |slots| {
        return;
      }
      match e
      case RespondOn(i) => if slots[i].requestor != null { RespondOn(i); }
      case MoveNew(i) => MoveNew(i);
      case MoveAssign(i, j) => if j < |slots| { MoveAssign(i, j); }
      case Clear(i) => Clear(i);
    }
  }
}
