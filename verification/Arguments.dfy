/**
  From a method's parameter list to the message body and back to the handler: filtering
  with NilType padding, tuples, canonify, and the flattened decoding of arguments.
 */
module Arguments {
  import opened Wrappers
  import opened Types
  import opened Codec
  import opened CodecTheorems
  import opened CodecImpl

  datatype Param = In(t: Type) | Out(t: Type) | Throw(t: Type) | Oneway

  /** The two directions data travels in a call. */
  datatype Direction = Arguments | Results

  predicate Travels(d: Direction, p: Param) {
    if d.Arguments? then p.In? else p.Out?
  }

  /** A typelist as filter builds it: a cell's head may be NilType, here None. */
  datatype Cells = Nil | Cell(head: Option<Type>, tail: Cells)

  /** make_typelist<>: a single cell without content. */
  const EMPTY_LIST := Cell(None, Nil)

  function FirstType(d: Direction, p: Param): Option<Type> {
    if Travels(d, p) then Some(p.t) else None
  }

  /** PushFront: pushing NilType is a no-op. */
  function PushFront(list: Cells, t: Option<Type>): Cells {
    if t.None? then list else Cell(t, list)
  }

  /** filter: the last parameter makes a one-cell list, even one of NilType. */
  function Filter(d: Direction, ps: seq<Param>): (r: Cells)
    ensures r.Cell?
  {
    if ps == [] then EMPTY_LIST
    else if |ps| == 1 then Cell(FirstType(d, ps[0]), Nil)
    else PushFront(Filter(d, ps[1..]), FirstType(d, ps[0]))
  }

  /** make_tuple_from_list, make_function_from_list and make_serializer_from_list share this recursion. */
  function Unfold(list: Cells, acc: seq<Option<Type>>): seq<Option<Type>>
    requires list.Cell?
    decreases list
  {
    if list == EMPTY_LIST then acc
    else if list.tail.Nil? then acc + [list.head]
    else Unfold(list.tail, acc + [list.head])
  }

  /** The parameters of one direction, in declaration order. */
  function Select(d: Direction, ps: seq<Param>): seq<Type> {
    if ps == [] then []
    else (if Travels(d, ps[0]) then [ps[0].t] else []) + Select(d, ps[1..])
  }

  function Somes(ts: seq<Type>): (r: seq<Option<Type>>)
    ensures |r| == |ts| && forall i :: 0 <= i < |ts| ==> r[i] == Some(ts[i])
  {
    seq(|ts|, i requires 0 <= i < |ts| => Some(ts[i]))
  }

  /** The padding never shows: unfolding a filtered list gives the selected types in order, and no NilType. */
  lemma {:induction false} FilterSelects(d: Direction, ps: seq<Param>, acc: seq<Type>)
    ensures Unfold(Filter(d, ps), Somes(acc)) == Somes(acc + Select(d, ps))
    decreases ps
  {
    if ps == [] {
      assert acc + [] == acc;
    } else if |ps| == 1 {
      assert Select(d, ps[1..]) == [];
      if Travels(d, ps[0]) {
        assert Select(d, ps) == [ps[0].t];
        assert Somes(acc) + [Some(ps[0].t)] == Somes(acc + [ps[0].t]);
      } else {
        assert acc + Select(d, ps) == acc;
      }
    } else if Travels(d, ps[0]) {
      FilterSelects(d, ps[1..], acc + [ps[0].t]);
      assert Somes(acc) + [Some(ps[0].t)] == Somes(acc + [ps[0].t]);
      assert (acc + [ps[0].t]) + Select(d, ps[1..]) == acc + Select(d, ps);
    } else {
      FilterSelects(d, ps[1..], acc);
      assert Select(d, ps) == Select(d, ps[1..]);
    }
  }

  function ToList(ts: seq<Type>): (r: TypeList)
    ensures Length(r) == |ts|
  {
    if ts == [] then NilType else TypeList(ts[0], ToList(ts[1..]))
  }

  /** canonify: one element sheds its tuple, none at all is void. */
  datatype Canonical = Void | Lone(t: Type) | Pack(elems: TypeList)

  function Canonify(ts: TypeList): Canonical {
    if ts.NilType? then Void
    else if ts.tail.NilType? then Lone(ts.head)
    else Pack(ts)
  }

  /** The tuple of one direction, as the deduced typedefs name it. */
  function Deduced(d: Direction, ps: seq<Param>): Canonical {
    var cells := Unfold(Filter(d, ps), []);
    Canonify(ToList(seq(|cells|, i requires 0 <= i < |cells| =>
      if cells[i].Some? then cells[i].value else AnyType)))
  }

  lemma DeducedSelects(d: Direction, ps: seq<Param>)
    ensures Deduced(d, ps) == Canonify(ToList(Select(d, ps)))
  {
    FilterSelects(d, ps, []);
    var cells := Unfold(Filter(d, ps), []);
    assert Somes([]) == [] && [] + Select(d, ps) == Select(d, ps);
    assert cells == Somes(Select(d, ps));
    assert seq(|cells|, i requires 0 <= i < |cells| =>
             if cells[i].Some? then cells[i].value else AnyType) == Select(d, ps);
  }

  // ----- which parameters go which way -----

  /** Which parameters are in, and which are out. */
  function Ins(ps: seq<Param>): (r: seq<bool>)
    ensures |r| == |ps| && forall i | 0 <= i < |ps| :: r[i] == ps[i].In?
  {
    seq(|ps|, i requires 0 <= i < |ps| => ps[i].In?)
  }

  function Outs(ps: seq<Param>): (r: seq<bool>)
    ensures |r| == |ps| && forall i | 0 <= i < |ps| :: r[i] == ps[i].Out?
  {
    seq(|ps|, i requires 0 <= i < |ps| => ps[i].Out?)
  }

  /** All positions that are marked, ascending. */
  predicate Positions(marks: seq<bool>, at: seq<nat>) {
    && (forall k | 0 <= k < |at| :: at[k] < |marks| && marks[at[k]])
    && (forall k, l | 0 <= k < l < |at| :: at[k] < at[l])
    && forall i: nat | i < |marks| && marks[i] :: i in at
  }

  lemma PositionsBefore(marks: seq<bool>, at: seq<nat>)
    requires Positions(marks, at) && marks != []
    ensures var n := |marks| - 1;
            if marks[n] then at != [] && at[|at| - 1] == n && Positions(marks[..n], at[..|at| - 1])
            else Positions(marks[..n], at)
  {
    var n := |marks| - 1;
    if marks[n] {
      var k :| 0 <= k < |at| && at[k] == n;
      var m := |at| - 1;
      assert at[k] <= at[m] && at[m] <= n;
      forall i: nat | i < n && marks[i] ensures i in at[..m] {
        var l :| 0 <= l < |at| && at[l] == i;
        assert at[..m][l] == i;
      }
    } else {
      assert forall k | 0 <= k < |at| :: at[k] != n;
    }
  }

  lemma {:induction false} PositionsExist(marks: seq<bool>) returns (at: seq<nat>)
    ensures Positions(marks, at)
  {
    if marks == [] {
      at := [];
    } else {
      var n := |marks| - 1;
      at := PositionsExist(marks[..n]);
      if marks[n] {
        at := at + [n];
      }
      assert forall i | 0 <= i < n :: marks[..n][i] == marks[i];
    }
  }

  /** What a parameter contributes to a direction. */
  function Contributed(d: Direction, p: Param): seq<Type> {
    if Travels(d, p) then [p.t] else []
  }

  lemma {:induction false} SelectConcat(d: Direction, a: seq<Param>, b: seq<Param>)
    ensures Select(d, a + b) == Select(d, a) + Select(d, b)
  {
    if a == [] {
      assert a + b == b;
    } else {
      var all := a + b;
      assert all[0] == a[0] && all[1..] == a[1..] + b;
      SelectConcat(d, a[1..], b);
      assert Select(d, all) == Contributed(d, a[0]) + (Select(d, a[1..]) + Select(d, b));
    }
  }

  lemma SelectAppend(d: Direction, ps: seq<Param>, p: Param)
    ensures Select(d, ps + [p]) == Select(d, ps) + Contributed(d, p)
  {
    SelectConcat(d, ps, [p]);
    assert [p][1..] == [] && Select(d, [p]) == Contributed(d, p) + [];
  }

  /** The types of the parameters at some positions. */
  function TypesAt(ps: seq<Param>, at: seq<nat>): (r: seq<Type>)
    requires forall k | 0 <= k < |at| :: at[k] < |ps| && !ps[at[k]].Oneway?
    ensures |r| == |at| && forall k | 0 <= k < |at| :: r[k] == ps[at[k]].t
  {
    seq(|at|, k requires 0 <= k < |at| => ps[at[k]].t)
  }

  lemma {:induction false} SelectsAt(d: Direction, ps: seq<Param>, marks: seq<bool>, at: seq<nat>)
    requires |marks| == |ps| && Positions(marks, at)
    requires forall i | 0 <= i < |ps| :: marks[i] == Travels(d, ps[i]) && (marks[i] ==> !ps[i].Oneway?)
    ensures Select(d, ps) == TypesAt(ps, at)
  {
    if ps == [] {
      assert at == [];
    } else {
      var n := |ps| - 1;
      assert ps == ps[..n] + [ps[n]];
      SelectAppend(d, ps[..n], ps[n]);
      PositionsBefore(marks, at);
      if marks[n] {
        var front := at[..|at| - 1];
        SelectsAt(d, ps[..n], marks[..n], front);
        assert TypesAt(ps, at) == TypesAt(ps[..n], front) + [ps[n].t];
      } else {
        SelectsAt(d, ps[..n], marks[..n], at);
        assert TypesAt(ps, at) == TypesAt(ps[..n], at);
      }
    }
  }

  /** The arguments are exactly the in parameters, in declaration order. */
  lemma ArgumentsExactly(ps: seq<Param>, at: seq<nat>)
    requires Positions(Ins(ps), at)
    ensures Deduced(Arguments, ps) == Canonify(ToList(TypesAt(ps, at)))
  {
    DeducedSelects(Arguments, ps);
    SelectsAt(Arguments, ps, Ins(ps), at);
  }

  /** The results are exactly the out parameters, in declaration order. */
  lemma ResultsExactly(ps: seq<Param>, at: seq<nat>)
    requires Positions(Outs(ps), at)
    ensures Deduced(Results, ps) == Canonify(ToList(TypesAt(ps, at)))
  {
    DeducedSelects(Results, ps);
    SelectsAt(Results, ps, Outs(ps), at);
  }

  /** A parameter that does not go a way can be put in anywhere without changing what goes that way. */
  lemma OthersDoNotMatter(a: seq<Param>, p: Param, b: seq<Param>)
    ensures !p.In? ==> Deduced(Arguments, a + [p] + b) == Deduced(Arguments, a + b)
    ensures !p.Out? ==> Deduced(Results, a + [p] + b) == Deduced(Results, a + b)
  {
    WithoutOther(Arguments, a, p, b);
    WithoutOther(Results, a, p, b);
  }

  lemma WithoutOther(d: Direction, a: seq<Param>, p: Param, b: seq<Param>)
    ensures !Travels(d, p) ==> Deduced(d, a + [p] + b) == Deduced(d, a + b)
  {
    DeducedSelects(d, a + [p] + b);
    DeducedSelects(d, a + b);
    SelectAppend(d, a, p);
    SelectConcat(d, a + [p], b);
    SelectConcat(d, a, b);
    assert Select(d, a) + [] == Select(d, a);
  }

  /**
    What the receiving side decodes from the body. A lone std::tuple is taken for a pack
    of arguments, so its elements are decoded flattened.
   */
  function Received(c: Canonical, body: seq<Wire>): Result<seq<Value>> {
    match c
    case Void => Ok([])
    case Lone(Tuple(elems)) => DecEach(elems, body)
    case Lone(t) => DecEach(TypeList(t, NilType), body)
    case Pack(ts) => DecEach(ts, body)
  }

  /** The sending side: SerializerGenerator::eval encodes one argument after the other. */
  method Send(ts: TypeList, vs: seq<Value>) returns (body: seq<Wire>)
    requires HaveTypes(ts, vs) && AllSendable(vs)
    ensures body == EncEach(ts, vs)
  {
    var iter := new Writer();
    EncodeTuple(ts, vs, iter);
    body := iter.items;
  }

  /** FunctionCaller: peels the tuple onto the argument list and calls the handler with it. */
  function Unpack(n: int, tuple: seq<Value>, args: seq<Value>): seq<Value>
    requires n == -1 || 0 <= n < |tuple|
    decreases if n == -1 then 0 else |tuple| - n
  {
    if n == -1 then args
    else Unpack(if n + 1 == |tuple| then -1 else n + 1, tuple, args + [tuple[n]])
  }

  lemma {:induction false} UnpackKeepsOrder(n: nat, tuple: seq<Value>)
    requires n < |tuple|
    ensures Unpack(n, tuple, tuple[..n]) == tuple
    decreases |tuple| - n
  {
    assert tuple[..n] + [tuple[n]] == tuple[..n + 1];
    if n + 1 < |tuple| {
      UnpackKeepsOrder(n + 1, tuple);
    } else {
      assert tuple[..n + 1] == tuple;
    }
  }

  /** The receiving side: decode flattened, then call the handler with the unpacked arguments. */
  method Deliver(c: Canonical, body: seq<Wire>) returns (r: Result<seq<Value>>)
    ensures r == Received(c, body)
  {
    if c.Void? {
      return Ok([]);
    }
    var iter := new Reader(body);
    match c
    case Lone(t) =>
      if t.Tuple? {
        r := DecodeTuple(t.elems, iter);
      } else {
        r := DecodeTuple(TypeList(t, NilType), iter);
      }
    case Pack(ts) =>
      r := DecodeTuple(ts, iter);
    if r.Ok? && r.value != [] {
      UnpackKeepsOrder(0, r.value);
      assert r.value[..0] == [];
      r := Ok(Unpack(0, r.value, []));
    }
  }

  /** Decoding the elements of a tuple from the tuple itself always fails, however deep it nests. */
  lemma {:induction false} LoneTupleFails(elems: TypeList, vs: seq<Value>)
    requires elems.TypeList? && ValidList(elems)
    requires HaveTypes(elems, vs) && AllSendable(vs)
    ensures Dec(elems.head, WStruct(EncEach(elems, vs))).Failed?
    decreases elems
  {
    var t := elems.head;
    match t
    case Tuple(ts) =>
      LoneTupleFails(ts, vs[0].fields);
      assert EncEach(elems, vs)[0] == WStruct(EncEach(ts, vs[0].fields));
    case Struct(ts) =>
      LoneTupleFails(ts, vs[0].fields);
      assert EncEach(elems, vs)[0] == WStruct(EncEach(ts, vs[0].fields));
    case _ =>
  }

  /** The one parameter list that does not survive: a single tuple in that direction. */
  predicate LoneTuple(ts: seq<Type>) {
    |ts| == 1 && ts[0].Tuple?
  }

  /**
    Transport end to end, for arguments and for results: whatever else the parameter list
    holds, the values of one direction arrive in order, exactly unless they are a lone tuple.
   */
  lemma Transport(d: Direction, ps: seq<Param>, vs: seq<Value>)
    requires ValidList(ToList(Select(d, ps)))
    requires HaveTypes(ToList(Select(d, ps)), vs) && AllSendable(vs) && EachFaithful(ToList(Select(d, ps)), vs)
    ensures Received(Deduced(d, ps), EncEach(ToList(Select(d, ps)), vs)) == Ok(ArriveAll(vs))
            <==> !LoneTuple(Select(d, ps))
    ensures LoneTuple(Select(d, ps)) ==> Received(Deduced(d, ps), EncEach(ToList(Select(d, ps)), vs)).Failed?
  {
    var ts := ToList(Select(d, ps));
    DeducedSelects(d, ps);
    RoundTripEach(ts, vs);
    if LoneTuple(Select(d, ps)) {
      var elems := ts.head.elems;
      var body := EncEach(ts, vs);
      assert HasType(ts.head, vs[0]) && Valid(ts.head);
      LoneTupleFails(elems, vs[0].fields);
      assert body[0] == WStruct(EncEach(elems, vs[0].fields));
    } else if ts.NilType? {
      assert vs == [];
    }
  }
}
