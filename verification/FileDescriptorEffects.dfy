/** What each operation on a descriptor object does to the descriptors, in full. */
module FileDescriptorEffects {
  import opened FileDescriptors

  /** The object at a position owns an open descriptor; nobody else does, nor the program. */
  predicate OwnsAlone(st: State, i: nat, fd: int) {
    i < |st.handles| && st.handles[i] == Handle(fd, true) && fd in st.open && fd !in st.loose
    && Owners(st.handles, fd) == 1
  }

  lemma OwnerAlone(st: State, i: nat)
    requires Inv(st) && i < |st.handles| && st.handles[i].owning && st.handles[i].fd != -1
    ensures OwnsAlone(st, i, st.handles[i].fd)
  {
    var fd := st.handles[i].fd;
    assert Accounted(st, fd);
    OwnersPut(st.handles, i, st.handles[i], fd);
  }

  /** A descriptor given to a new owning object is the object's alone. */
  lemma NewOwningExactly(st: State, fd: int)
    requires Inv(st) && fd in st.loose
    ensures var st' := Step(st, NewOwning(fd));
            OwnsAlone(st', |st.handles|, fd) && st'.handles[..|st.handles|] == st.handles && st'.open == st.open
  {
    StepKeeps(st, NewOwning(fd));
    OwnerAlone(Step(st, NewOwning(fd)), |st.handles|);
  }

  /** A borrowing object has the number, and nothing else has changed. */
  lemma NewBorrowingExactly(st: State, fd: int)
    requires fd >= 0
    ensures Step(st, NewBorrowing(fd)) == st.(handles := st.handles + [Handle(fd, false)])
  {
  }

  /** A copy of an owning object owns a descriptor of its own: both are open, and they differ. */
  lemma CopyOwnsItsOwn(st: State, i: nat, d: int)
    requires Inv(st) && i < |st.handles| && st.handles[i].owning && st.handles[i].fd != -1
    requires d != -1 && Dups(st.open, d)
    ensures var st' := Step(st, CopyNew(i, d));
            && OwnsAlone(st', i, st.handles[i].fd) && OwnsAlone(st', |st.handles|, d) && d != st.handles[i].fd
            && st'.open == st.open + {d} && st'.loose == st.loose
  {
    StepKeeps(st, CopyNew(i, d));
    OwnerAlone(st, i);
    OwnerAlone(Step(st, CopyNew(i, d)), i);
    OwnerAlone(Step(st, CopyNew(i, d)), |st.handles|);
  }

  /** A copy of a borrowing object borrows the same number; a copy of an empty one is empty. */
  lemma CopyBorrows(st: State, i: nat, d: int)
    requires i < |st.handles| && (!st.handles[i].owning || st.handles[i].fd == -1) && Dups(st.open, d)
    ensures Step(st, CopyNew(i, d)) == st.(handles := st.handles + [st.handles[i]])
  {
  }

  /** A copy assignment closes what the target owned, and then copies. */
  lemma CopyAssignExactly(st: State, i: nat, j: nat, d: int)
    requires Inv(st) && i < |st.handles| && j < |st.handles| && i != j
    requires st.handles[j].owning && st.handles[j].fd != -1 && st.handles[i].owning && st.handles[i].fd != -1
    requires d != -1 && Dups(st.open - {st.handles[i].fd}, d)
    ensures var st', closed := Step(st, CopyAssign(i, j, d)), st.handles[i].fd;
            && OwnsAlone(st', i, d) && OwnsAlone(st', j, st.handles[j].fd) && d != st.handles[j].fd
            && st'.open == st.open - {closed} + {d} && st'.loose == st.loose
  {
    StepKeeps(st, CopyAssign(i, j, d));
    OwnerAlone(st, i);
    OwnerAlone(st, j);
    OwnersPut(st.handles, i, Handle(-1, true), st.handles[i].fd);
    OwnersPut(st.handles[i := Handle(-1, true)], j, Handle(-1, true), st.handles[i].fd);
    OwnerAlone(Step(st, CopyAssign(i, j, d)), i);
    OwnerAlone(Step(st, CopyAssign(i, j, d)), j);
  }

  /** Moving leaves the source without a descriptor and opens or closes none. */
  lemma MoveNewExactly(st: State, i: nat)
    requires i < |st.handles|
    ensures var st', h := Step(st, MoveNew(i)), st.handles[i];
            && st'.handles == st.handles[i := h.(fd := -1)] + [h]
            && st' == st.(handles := st'.handles)
  {
  }

  /** A move assignment closes what the target owned; assigned from itself, the object ends up empty. */
  lemma MoveAssignExactly(st: State, i: nat, j: nat)
    requires Inv(st) && i < |st.handles| && j < |st.handles|
    ensures var st', h := Step(st, MoveAssign(i, j)), st.handles[i];
            && |st'.handles| == |st.handles| && st'.handles[j] == st.handles[j].(fd := -1)
            && (i != j ==> st'.handles[i] == st.handles[j])
            && (forall k | 0 <= k < |st.handles| && k != i && k != j :: st'.handles[k] == st.handles[k])
            && st'.open == (if h.owning && h.fd != -1 then st.open - {h.fd} else st.open) && st'.loose == st.loose
  {
  }

  /** An integer takes the place of what the object held, which is closed if it was owned. */
  lemma AssignIntExactly(st: State, i: nat, fd: int)
    requires Inv(st) && i < |st.handles| && (fd < 0 || fd in st.loose)
    ensures var st', h := Step(st, AssignInt(i, fd)), st.handles[i];
            && st'.handles == st.handles[i := Handle(if fd < 0 then -1 else fd, h.owning)]
            && st'.open == (if h.owning && h.fd != -1 then st.open - {h.fd} else st.open)
            && st'.loose == st.loose - {fd}
  {
  }

  /** Releasing closes nothing; what an object owned is the program's. */
  lemma ReleaseExactly(st: State, i: nat)
    requires Inv(st) && i < |st.handles|
    ensures var st', h := Step(st, Release(i)), st.handles[i];
            && st'.handles == st.handles[i := h.(fd := -1)] && st'.open == st.open
            && (h.owning && h.fd != -1 ==> st'.loose == st.loose + {h.fd})
  {
    var h := st.handles[i];
    if h.owning && h.fd != -1 {
      OwnerAlone(st, i);
      OwnersPut(st.handles, i, h.(fd := -1), h.fd);
    }
  }

  /** A destroyed object is gone, and so is what it owned. */
  lemma DestroyExactly(st: State, i: nat)
    requires i < |st.handles|
    ensures var st', h := Step(st, Destroy(i)), st.handles[i];
            && st'.handles == st.handles[..i] + st.handles[i + 1..]
            && st'.open == (if h.owning && h.fd != -1 then st.open - {h.fd} else st.open) && st'.loose == st.loose
  {
  }
}
