/**
  File descriptors held by owning and by borrowing objects: who is responsible for every open
  descriptor, over any run of constructions, copies, moves, assignments and destructions.
 */
module FileDescriptors {

  /** An object's descriptor, -1 for none, and whether destruction closes it. */
  datatype Handle = Handle(fd: int, owning: bool)

  /**
    open are the process's open descriptors, loose those the program holds as plain integers.
    misses counts calls of close on a descriptor that is not open.
   */
  datatype State = State(handles: seq<Handle>, open: set<int>, loose: set<int>, misses: nat)

  datatype Event =
    | Acquire(fd: int)
    | Dispose(fd: int)
    | NewEmpty
    | NewOwning(fd: int)
    | NewBorrowing(fd: int)
    | CopyNew(i: nat, dup: int)
    | CopyAssign(i: nat, j: nat, dup: int)
    | MoveNew(i: nat)
    | MoveAssign(i: nat, j: nat)
    | AssignInt(i: nat, fd: int)
    | Release(i: nat)
    | Destroy(i: nat)

  /** The object lets go of its descriptor: an owning one closes it. */
  function Closing(open: set<int>, h: Handle): set<int> {
    if h.fd == -1 || !h.owning then open else open - {h.fd}
  }

  function Let(st: State, h: Handle): State {
    st.(open := Closing(st.open, h),
        misses := st.misses + if h.fd == -1 || !h.owning || h.fd in st.open then 0 else 1)
  }

  /** What dup may give: a failure, or a descriptor not open before. */
  predicate Dups(open: set<int>, d: int) {
    d == -1 || (d >= 0 && d !in open)
  }

  /** A copy of an owning object duplicates its descriptor. */
  function Copied(h: Handle, dup: int): Handle {
    if h.fd == -1 || !h.owning then h else Handle(dup, true)
  }

  function Opening(open: set<int>, h: Handle, dup: int): set<int> {
    if h.fd == -1 || !h.owning || dup == -1 then open else open + {dup}
  }

  function Opened(st: State, h: Handle, dup: int): State {
    st.(open := Opening(st.open, h, dup))
  }

  function Put(st: State, i: nat, h: Handle): State
    requires i < |st.handles|
  {
    st.(handles := st.handles[i := h])
  }

  function Add(st: State, h: Handle): State {
    st.(handles := st.handles + [h])
  }

  function Owns(h: Handle, fd: int): nat {
    if h.owning && h.fd == fd then 1 else 0
  }

  /** The owning objects that hold the descriptor. */
  function Owners(handles: seq<Handle>, fd: int): nat {
    if handles == [] then 0 else Owns(handles[0], fd) + Owners(handles[1..], fd)
  }

  /** The descriptor is open, and neither an owning object nor the program will close it. */
  predicate Lost(st: State, fd: int) {
    fd in st.open && fd !in st.loose && Owners(st.handles, fd) == 0
  }

  /** One step; a number handed back by release is the program's if nobody else holds it. Events that are not possible now change nothing. */
  function Step(st: State, e: Event): State {
    match e
    case Acquire(fd) =>
      if fd < 0 || fd in st.open then st else st.(open := st.open + {fd}, loose := st.loose + {fd})
    case Dispose(fd) =>
      if fd !in st.loose then st else st.(open := st.open - {fd}, loose := st.loose - {fd})
    case NewEmpty => Add(st, Handle(-1, true))
    case NewOwning(fd) =>
      if fd !in st.loose then st else Add(st, Handle(fd, true)).(loose := st.loose - {fd})
    case NewBorrowing(fd) => if fd < 0 then st else Add(st, Handle(fd, false))
    case CopyNew(i, d) =>
      if i >= |st.handles| || !Dups(st.open, d) then st
      else Add(Opened(st, st.handles[i], d), Copied(st.handles[i], d))
    case CopyAssign(i, j, d) =>
      if i >= |st.handles| || j >= |st.handles| || i == j then st
      else
        var st' := Let(st, st.handles[i]);
        if !Dups(st'.open, d) then st
        else Put(Opened(st', st.handles[j], d), i, Copied(st.handles[j], d))
    case MoveNew(i) =>
      if i >= |st.handles| then st
      else Add(Put(st, i, st.handles[i].(fd := -1)), st.handles[i])
    case MoveAssign(i, j) =>
      if i >= |st.handles| || j >= |st.handles| then st
      else
        var st' := Put(Let(st, st.handles[i]), i, st.handles[j]);
        Put(st', j, st.handles[j].(fd := -1))
    case AssignInt(i, fd) =>
      if i >= |st.handles| || (fd >= 0 && fd !in st.loose) then st
      else
        var st' := Put(Let(st, st.handles[i]), i, st.handles[i].(fd := if fd < 0 then -1 else fd));
        st'.(loose := st'.loose - {fd})
    case Release(i) =>
      if i >= |st.handles| then st
      else
        var fd, st' := st.handles[i].fd, Put(st, i, st.handles[i].(fd := -1));
        if Lost(st', fd) then st'.(loose := st'.loose + {fd}) else st'
    case Destroy(i) =>
      if i >= |st.handles| then st
      else Let(st, st.handles[i]).(handles := st.handles[..i] + st.handles[i + 1..])
  }

  const START := State([], {}, {}, 0)

  function Run(events: seq<Event>): State {
    if events == [] then START else Step(Run(events[..|events| - 1]), events[|events| - 1])
  }

  // ----- who holds what -----

  function In(s: set<int>, fd: int): nat {
    if fd in s then 1 else 0
  }

  /** At most one object owns a descriptor, the program does not hold it then, and what is held is open. */
  predicate Accounted(st: State, fd: int) {
    fd >= 0 ==> Owners(st.handles, fd) + In(st.loose, fd) <= In(st.open, fd)
  }

  ghost predicate Inv(st: State) {
    && st.misses == 0
    && (forall i | 0 <= i < |st.handles| :: st.handles[i].fd >= -1)
    && (forall fd | fd in st.open || fd in st.loose :: fd >= 0)
    && forall fd: int :: Accounted(st, fd)
  }

  lemma {:induction false} OwnersConcat(a: seq<Handle>, b: seq<Handle>, fd: int)
    ensures Owners(a + b, fd) == Owners(a, fd) + Owners(b, fd)
  {
    if a == [] {
      assert a + b == b;
    } else {
      assert (a + b)[1..] == a[1..] + b;
      OwnersConcat(a[1..], b, fd);
    }
  }

  lemma OwnersAdd(a: seq<Handle>, h: Handle, fd: int)
    ensures Owners(a + [h], fd) == Owners(a, fd) + Owns(h, fd)
  {
    OwnersConcat(a, [h], fd);
    assert Owners([h], fd) == Owns(h, fd) + Owners([], fd);
  }

  lemma OwnersPut(a: seq<Handle>, i: nat, h: Handle, fd: int)
    requires i < |a|
    ensures Owners(a[i := h], fd) == Owners(a, fd) - Owns(a[i], fd) + Owns(h, fd)
    ensures Owns(a[i], fd) <= Owners(a, fd)
  {
    OwnersWithout(a, i, fd);
    OwnersWithout(a[i := h], i, fd);
    assert a[i := h][..i] == a[..i] && a[i := h][i + 1..] == a[i + 1..];
  }

  lemma OwnersWithout(a: seq<Handle>, i: nat, fd: int)
    requires i < |a|
    ensures Owners(a, fd) == Owners(a[..i] + a[i + 1..], fd) + Owns(a[i], fd)
  {
    OwnersConcat(a[..i], a[i + 1..], fd);
    OwnersConcat(a[..i], a[i..], fd);
    assert a == a[..i] + a[i..] && a[i..][1..] == a[i + 1..];
  }

  /** An owned descriptor is open, so letting go of it closes it once. */
  lemma LetsGo(st: State, i: nat, fd: int)
    requires Inv(st) && i < |st.handles|
    ensures Let(st, st.handles[i]).misses == 0
    ensures fd >= 0 ==> In(Let(st, st.handles[i]).open, fd) == In(st.open, fd) - Owns(st.handles[i], fd)
  {
    var h := st.handles[i];
    if h.fd >= 0 {
      assert Accounted(st, h.fd);
      OwnersPut(st.handles, i, h, h.fd);
    }
  }

  /** An integer is assigned to an object that borrows, and so will not close it. */
  predicate Misplaces(st: State, e: Event, fd: int) {
    e.AssignInt? && e.fd == fd && e.i < |st.handles| && !st.handles[e.i].owning && fd in st.loose
  }

  /** An object hands the number back. */
  predicate Releases(st: State, e: Event, fd: int) {
    e.Release? && e.i < |st.handles| && st.handles[e.i].fd == fd
  }

  /** How one event moves a descriptor between its holders. */
  predicate Moved(st: State, e: Event, fd: int) {
    var st' := Step(st, e);
    && (Accounted(st, fd) ==> Accounted(st', fd))
    && (Lost(st', fd) <==> Misplaces(st, e, fd) || (Lost(st, fd) && !Releases(st, e, fd)))
  }

  lemma CopyAssigns(st: State, i: nat, j: nat, d: int, fd: int)
    requires Inv(st) && fd >= 0
    ensures Moved(st, CopyAssign(i, j, d), fd)
  {
    assert Accounted(st, fd);
    if i < |st.handles| && j < |st.handles| && i != j {
      LetsGo(st, i, fd);
      OwnersPut(st.handles, i, Copied(st.handles[j], d), fd);
    }
  }

  lemma Moves(st: State, i: nat, j: nat, fd: int)
    requires Inv(st) && fd >= 0 && i < |st.handles| && j < |st.handles|
    ensures Moved(st, MoveAssign(i, j), fd)
  {
    assert Accounted(st, fd);
    LetsGo(st, i, fd);
    OwnersPut(st.handles, i, st.handles[j], fd);
    OwnersPut(st.handles[i := st.handles[j]], j, st.handles[j].(fd := -1), fd);
  }

  lemma Copies(st: State, i: nat, d: int, fd: int)
    requires Inv(st) && fd >= 0 && i < |st.handles|
    ensures Moved(st, CopyNew(i, d), fd)
  {
    assert Accounted(st, fd);
    OwnersAdd(st.handles, Copied(st.handles[i], d), fd);
  }

  lemma Assigns(st: State, i: nat, x: int, fd: int)
    requires Inv(st) && fd >= 0 && i < |st.handles|
    ensures Moved(st, AssignInt(i, x), fd)
  {
    assert Accounted(st, fd);
    LetsGo(st, i, fd);
    OwnersPut(st.handles, i, st.handles[i].(fd := if x < 0 then -1 else x), fd);
  }

  lemma Frees(st: State, i: nat, fd: int)
    requires Inv(st) && fd >= 0 && i < |st.handles|
    ensures Moved(st, Release(i), fd)
  {
    assert Accounted(st, fd);
    OwnersPut(st.handles, i, st.handles[i].(fd := -1), fd);
  }

  lemma StepMoves(st: State, e: Event, fd: int)
    requires Inv(st) && fd >= 0
    ensures Moved(st, e, fd)
  {
    assert Accounted(st, fd);
    match e
    case NewEmpty => OwnersAdd(st.handles, Handle(-1, true), fd);
    case NewOwning(x) => OwnersAdd(st.handles, Handle(x, true), fd);
    case NewBorrowing(x) => OwnersAdd(st.handles, Handle(x, false), fd);
    case CopyNew(i, d) => if i < |st.handles| { Copies(st, i, d, fd); }
    case CopyAssign(i, j, d) => CopyAssigns(st, i, j, d, fd);
    case MoveNew(i) =>
      if i < |st.handles| {
        OwnersPut(st.handles, i, st.handles[i].(fd := -1), fd);
        OwnersAdd(st.handles[i := st.handles[i].(fd := -1)], st.handles[i], fd);
      }
    case MoveAssign(i, j) => if i < |st.handles| && j < |st.handles| { Moves(st, i, j, fd); }
    case AssignInt(i, x) => if i < |st.handles| { Assigns(st, i, x, fd); }
    case Release(i) => if i < |st.handles| { Frees(st, i, fd); }
    case Destroy(i) =>
      if i < |st.handles| {
        LetsGo(st, i, fd);
        OwnersWithout(st.handles, i, fd);
      }
    case _ =>
  }

  lemma StepKeeps(st: State, e: Event)
    requires Inv(st)
    ensures Inv(Step(st, e))
  {
    forall fd: int ensures Accounted(Step(st, e), fd) {
      if fd >= 0 {
        assert Accounted(st, fd);
        StepMoves(st, e, fd);
      }
    }
    if (e.CopyAssign? || e.MoveAssign? || e.AssignInt? || e.Destroy?) && e.i < |st.handles| {
      LetsGo(st, e.i, 0);
    }
  }

  /**
    In every run each descriptor is owned by at most one object, the program does not hold
    what an object owns, what is held is open, and nothing is closed that is not.
   */
  lemma {:induction false} Ownership(events: seq<Event>)
    ensures Inv(Run(events))
  {
    if events != [] {
      Ownership(events[..|events| - 1]);
      StepKeeps(Run(events[..|events| - 1]), events[|events| - 1]);
    }
  }

  /** The descriptor was assigned to a borrowing object, and no object has handed it back since. */
  predicate Unreturned(events: seq<Event>, fd: int) {
    exists k | 0 <= k < |events| :: LastMisplaced(events, k, fd)
  }

  predicate LastMisplaced(events: seq<Event>, k: nat, fd: int)
    requires k < |events|
  {
    && Misplaces(Run(events[..k]), events[k], fd)
    && forall j | k < j < |events| :: !Releases(Run(events[..j]), events[j], fd)
  }

  lemma {:induction false} LastBefore(before: seq<Event>, e: Event, k: nat, fd: int)
    requires k < |before|
    ensures LastMisplaced(before + [e], k, fd) <==> LastMisplaced(before, k, fd) && !Releases(Run(before), e, fd)
  {
    var n, events := |before|, before + [e];
    assert events[n] == e && events[..n] == before;
    assert forall j | 0 <= j < n :: events[j] == before[j] && events[..j] == before[..j];
  }

  lemma {:induction false} UnreturnedStep(before: seq<Event>, e: Event, fd: int)
    ensures Unreturned(before + [e], fd) <==>
            Misplaces(Run(before), e, fd) || (Unreturned(before, fd) && !Releases(Run(before), e, fd))
  {
    var n, events := |before|, before + [e];
    assert events[n] == e && events[..n] == before;
    assert LastMisplaced(events, n, fd) <==> Misplaces(Run(before), e, fd);
    forall k | 0 <= k < n
      ensures LastMisplaced(events, k, fd) <==> LastMisplaced(before, k, fd) && !Releases(Run(before), e, fd)
    {
      LastBefore(before, e, k, fd);
    }
    if Unreturned(before, fd) && !Releases(Run(before), e, fd) {
      var k :| 0 <= k < n && LastMisplaced(before, k, fd);
      assert LastMisplaced(events, k, fd);
    }
  }

  /** A run ends with a descriptor lost exactly if it was assigned to a borrowing object and not handed back since. */
  lemma {:induction false} LostExactly(events: seq<Event>, fd: int)
    ensures Lost(Run(events), fd) <==> Unreturned(events, fd)
  {
    Ownership(events);
    if events != [] {
      var before := events[..|events| - 1];
      Ownership(before);
      LostExactly(before, fd);
      var e := events[|events| - 1];
      assert before + [e] == events;
      UnreturnedStep(before, e, fd);
      if fd >= 0 {
        StepMoves(Run(before), e, fd);
      }
    }
  }

  /** With all objects gone, the program holds all that is open exactly if nothing stayed with a borrowing object. */
  lemma {:induction false} NothingLeaks(events: seq<Event>)
    requires Run(events).handles == []
    ensures Run(events).open == Run(events).loose <==> forall fd: int :: !Unreturned(events, fd)
  {
    Ownership(events);
    var st := Run(events);
    forall fd: int ensures Lost(st, fd) <==> Unreturned(events, fd) {
      LostExactly(events, fd);
    }
    forall fd | fd in st.loose ensures fd in st.open {
      assert Accounted(st, fd);
    }
    if forall fd: int :: !Unreturned(events, fd) {
      forall fd | fd in st.open ensures fd in st.loose {
        assert !Lost(st, fd);
      }
    }
  }

  /** A number that was misplaced and then released is the program's again. */
  lemma {:induction false} ReleaseReturns(events: seq<Event>, i: nat)
    requires i < |Run(events).handles| && Lost(Run(events), Run(events).handles[i].fd)
    ensures Run(events).handles[i].fd in Run(events + [Release(i)]).loose
  {
    var st := Run(events);
    Ownership(events);
    assert (events + [Release(i)])[..|events|] == events;
    OwnersPut(st.handles, i, st.handles[i].(fd := -1), st.handles[i].fd);
  }

  // ----- the object and the system calls -----

  /** close and dup on the process's descriptors. */
  class Kernel {
    var open: set<int>
    var next: int

    ghost predicate Valid()
      reads this
    {
      next >= 0 && forall fd | fd in open :: fd < next
    }

    constructor ()
      ensures Valid() && open == {}
    {
      open, next := {}, 0;
    }

    method Close(fd: int)
      requires Valid()
      modifies this
      ensures Valid() && open == old(open) - {fd}
    {
      open := open - {fd};
    }

    method Dup(fd: int) returns (d: int)
      requires Valid()
      modifies this
      ensures Valid() && Dups(old(open), d)
      ensures open == old(open) + if d == -1 then {} else {d}
      ensures d == -1 <==> fd !in old(open)
    {
      if fd !in open {
        assert open + {} == open;
        return -1;
      }
      d := next;
      open, next := open + {d}, next + 1;
    }
  }

  class FileDescriptor {
    var fd: int
    var owning: bool

    function View(): Handle
      reads this
    {
      Handle(fd, owning)
    }

    constructor ()
      ensures View() == Handle(-1, true)
    {
      fd, owning := -1, true;
    }

    constructor Owning(fd: int)
      requires fd >= 0
      ensures View() == Handle(fd, true)
    {
      this.fd, owning := fd, true;
    }

    constructor Borrowing(fd: int)
      requires fd >= 0
      ensures View() == Handle(fd, false)
    {
      this.fd, owning := fd, false;
    }

    constructor Copy(rhs: FileDescriptor, kernel: Kernel)
      requires kernel.Valid()
      modifies kernel
      ensures kernel.Valid()
      ensures exists d :: Dups(old(kernel.open), d) && View() == Copied(rhs.View(), d)
                && kernel.open == Opening(old(kernel.open), rhs.View(), d)
    {
      fd, owning := -1, rhs.owning;
      new;
      ghost var d := -1;
      if rhs.fd != -1 {
        if !owning {
          fd := rhs.fd;
        } else {
          fd := kernel.Dup(rhs.fd);
          d := fd;
        }
      }
      assert Copied(rhs.View(), d) == View();
    }

    constructor Move(rhs: FileDescriptor)
      modifies rhs
      ensures View() == old(rhs.View()) && rhs.View() == old(rhs.View()).(fd := -1)
    {
      fd, owning := rhs.fd, rhs.owning;
      new;
      rhs.fd := -1;
    }

    method Let(kernel: Kernel)
      requires kernel.Valid()
      modifies kernel
      ensures kernel.Valid()
      ensures kernel.open == Closing(old(kernel.open), View())
    {
      if fd != -1 && owning {
        kernel.Close(fd);
      }
    }

    method CopyAssign(rhs: FileDescriptor, kernel: Kernel)
      requires kernel.Valid()
      modifies this, kernel
      ensures kernel.Valid()
      ensures this == rhs ==> View() == old(View()) && kernel.open == old(kernel.open)
      ensures this != rhs ==>
                exists d :: Dups(Closing(old(kernel.open), old(View())), d) && View() == Copied(rhs.View(), d)
                  && kernel.open == Opening(Closing(old(kernel.open), old(View())), rhs.View(), d)
    {
      if this != rhs {
        Let(kernel);
        ghost var d := -1;
        if rhs.fd != -1 {
          if !rhs.owning {
            fd := rhs.fd;
          } else {
            fd := kernel.Dup(rhs.fd);
            d := fd;
          }
        } else {
          fd := -1;
        }
        owning := rhs.owning;
        assert View() == Copied(rhs.View(), d);
      }
    }

    /** Assigned from itself, the object closes what it holds and is empty. */
    method MoveAssign(rhs: FileDescriptor, kernel: Kernel)
      requires kernel.Valid()
      modifies this, rhs, kernel
      ensures kernel.Valid()
      ensures this != rhs ==> View() == old(rhs.View())
      ensures rhs.View() == old(rhs.View()).(fd := -1)
      ensures kernel.open == Closing(old(kernel.open), old(View()))
    {
      Let(kernel);
      fd := rhs.fd;
      rhs.fd := -1;
      owning := rhs.owning;
    }

    method AssignInt(fd: int, kernel: Kernel)
      requires kernel.Valid()
      modifies this, kernel
      ensures kernel.Valid() && View() == old(View()).(fd := if fd < 0 then -1 else fd)
      ensures kernel.open == Closing(old(kernel.open), old(View()))
    {
      Let(kernel);
      this.fd := fd;
      if this.fd < 0 {
        this.fd := -1;
      }
    }

    method Release() returns (fd: int)
      modifies this
      ensures fd == old(this.fd) && View() == old(View()).(fd := -1)
    {
      fd := this.fd;
      this.fd := -1;
    }
  }
}
