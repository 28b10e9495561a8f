/** What each step of a request's life does in full, and that a call is answered wherever it was moved to. */
module RequestEffects {
  import opened Requests

  /** A dispatched call is new, held once, by the current request, and being handled. */
  lemma CallExactly(st: State)
    requires st.handling.Empty?
    ensures var st' := Step(st, Call);
            && st'.refs == st.refs + [1]
            && st'.current == Holding(|st.refs|) && st'.handling == Holding(|st.refs|)
            && st' == st.(refs := st'.refs, current := st'.current, handling := st'.handling)
  {
  }

  /** After the handler nothing is current and nothing is handled. */
  lemma FinishExactly(st: State, threw: bool)
    requires st.handling.Holding?
    ensures var st' := Step(st, if threw then Throw else Return);
            && st'.current.Empty? && st'.handling.Empty?
            && st'.slots == st.slots && st'.answers == st.answers && st'.lost == st.lost
  {
  }

  /** Deferring moves the current call behind the other descriptors, and nothing else. */
  lemma DeferExactly(st: State)
    requires st.current.Holding?
    ensures var st' := Step(st, Defer);
            && |st'.slots| == |st.slots| + 1 && st'.slots[|st.slots|] == st.current
            && (forall k | 0 <= k < |st.slots| :: st'.slots[k] == st.slots[k])
            && st' == st.(slots := st'.slots, current := Empty)
  {
  }

  lemma DeferIntoExactly(st: State, i: nat)
    requires st.current.Holding? && i < |st.slots|
    ensures var st' := Step(st, DeferInto(i));
            && |st'.slots| == |st.slots| && st'.slots[i] == st.current
            && (forall k | 0 <= k < |st.slots| && k != i :: st'.slots[k] == st.slots[k])
            && st' == st.(slots := st'.slots, current := Empty, lost := st'.lost)
  {
  }

  lemma MoveNewExactly(st: State, i: nat)
    requires i < |st.slots|
    ensures var st' := Step(st, MoveNew(i));
            && |st'.slots| == |st.slots| + 1 && st'.slots[|st.slots|] == st.slots[i] && st'.slots[i].Empty?
            && (forall k | 0 <= k < |st.slots| && k != i :: st'.slots[k] == st.slots[k])
            && st' == st.(slots := st'.slots)
  {
  }

  lemma MoveAssignExactly(st: State, i: nat, j: nat)
    requires i < |st.slots| && j < |st.slots|
    ensures var st' := Step(st, MoveAssign(i, j));
            && |st'.slots| == |st.slots| && st'.slots[i] == st.slots[j] && (i != j ==> st'.slots[j].Empty?)
            && (forall k | 0 <= k < |st.slots| && k != i && k != j :: st'.slots[k] == st.slots[k])
            && st' == st.(slots := st'.slots, lost := st'.lost)
  {
  }

  /** Responding to a descriptor empties it, drops its reference and answers its call; the others stay. */
  lemma RespondOnExactly(st: State, i: nat)
    requires i < |st.slots| && st.slots[i].Holding? && st.slots[i].call < |st.refs|
    ensures var st', c := Step(st, RespondOn(i)), st.slots[i].call;
            && |st'.slots| == |st.slots| && st'.slots[i].Empty?
            && (forall k | 0 <= k < |st.slots| && k != i :: st'.slots[k] == st.slots[k])
            && |st'.refs| == |st.refs| && st'.refs[c] == st.refs[c] - 1
            && (forall d: nat | d < |st.refs| && d != c :: st'.refs[d] == st.refs[d])
            && st'.answers[c] == st.answers[c] + 1
            && st' == st.(slots := st'.slots, refs := st'.refs, answers := st'.answers)
  {
  }

  /** Clearing does the same without an answer. */
  lemma ClearExactly(st: State, i: nat)
    requires i < |st.slots| && st.slots[i].Holding? && st.slots[i].call < |st.refs|
    ensures var st', c := Step(st, Clear(i)), st.slots[i].call;
            && |st'.slots| == |st.slots| && st'.slots[i].Empty?
            && (forall k | 0 <= k < |st.slots| && k != i :: st'.slots[k] == st.slots[k])
            && |st'.refs| == |st.refs| && st'.refs[c] == st.refs[c] - 1
            && (forall d: nat | d < |st.refs| && d != c :: st'.refs[d] == st.refs[d])
            && st' == st.(slots := st'.slots, refs := st'.refs, silent := st'.silent)
  {
  }

  /** A call deferred and moved on is answered, once, by responding on the descriptor it was moved to last. */
  lemma AnsweredWhereMoved(st: State, i: nat)
    requires st.current.Holding? && i < |st.slots| && st.current.call < |st.refs| && st.slots[i].Empty?
    ensures var c, n := st.current.call, |st.slots|;
            && Step(Step(Step(st, Defer), MoveAssign(i, n)), RespondOn(i)).answers[c] == st.answers[c] + 1
            && Step(Step(Step(st, Defer), MoveAssign(i, n)), RespondOn(n)).answers == st.answers
  {
    var st1 := Step(st, Defer);
    DeferExactly(st);
    MoveAssignExactly(st1, i, |st.slots|);
    RespondOnExactly(Step(st1, MoveAssign(i, |st.slots|)), i);
  }
}
