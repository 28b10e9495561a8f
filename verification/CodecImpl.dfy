/**
  The codecs as the library runs them: iterators that are appended to or advanced step by
  step, containers opened and closed, element loops. Each method is proved against Codec.
 */
module CodecImpl {
  import opened Types
  import opened CStrings
  import opened Codec

  /** An appending iterator: the values written into one container so far. */
  class Writer {
    var items: seq<Wire>

    constructor ()
      ensures items == []
    {
      items := [];
    }

    method Append(w: Wire)
      modifies this
      ensures items == old(items) + [w]
    {
      items := items + [w];
    }
  }

  /** A reading iterator over one container. */
  class Reader {
    const items: seq<Wire>
    var pos: nat

    ghost predicate Valid()
      reads this
    {
      pos <= |items|
    }

    constructor (items: seq<Wire>)
      ensures Valid() && this.items == items && pos == 0 && Rest() == items
    {
      this.items := items;
      pos := 0;
    }

    ghost function Rest(): seq<Wire>
      reads this
      requires Valid()
    {
      items[pos..]
    }

    /** dbus_message_iter_get_arg_type: INVALID at the end of the container. */
    function ArgType(): char
      reads this
      requires Valid()
    {
      if pos == |items| then INVALID else items[pos].ArgType()
    }

    method Next()
      requires Valid()
      modifies this
      ensures Valid() && pos == (if old(pos) < |items| then old(pos) + 1 else old(pos))
    {
      if pos < |items| {
        pos := pos + 1;
      }
    }
  }

  // ----- structs: the serializer type is nested to the left, built by PopBack and Back -----

  datatype Serializer = Single(only: Type) | Nested(init: Serializer, last: Type)

  function PopBack(ts: TypeList): (r: TypeList)
    requires ts.TypeList?
    ensures Length(r) == Length(ts) - 1
  {
    if ts.tail.NilType? then NilType else TypeList(ts.head, PopBack(ts.tail))
  }

  function Back(ts: TypeList): Type
    requires ts.TypeList?
  {
    if ts.tail.NilType? then ts.head else Back(ts.tail)
  }

  function MakeSerializer(ts: TypeList): Serializer
    requires ts.TypeList?
    decreases Length(ts)
  {
    if ts.tail.NilType? then Single(ts.head)
    else Nested(MakeSerializer(TypeList(ts.head, PopBack(ts.tail))), Back(ts.tail))
  }

  function Snoc(ts: TypeList, t: Type): (r: TypeList)
    ensures r.TypeList? && Length(r) == Length(ts) + 1
  {
    if ts.NilType? then TypeList(t, NilType) else TypeList(ts.head, Snoc(ts.tail, t))
  }

  /** The order in which a serializer visits the fields. */
  function Visits(s: Serializer): (r: TypeList)
    ensures r.TypeList?
  {
    match s
    case Single(t) => TypeList(t, NilType)
    case Nested(init, t) => Snoc(Visits(init), t)
  }

  lemma {:induction false} PopBackBack(ts: TypeList)
    requires ts.TypeList?
    ensures Snoc(PopBack(ts), Back(ts)) == ts
  {
    if ts.tail.TypeList? {
      PopBackBack(ts.tail);
    }
  }

  /** The left-nested serializer visits the fields in declaration order. */
  lemma {:induction false} SerializerKeepsOrder(ts: TypeList)
    requires ts.TypeList?
    ensures Visits(MakeSerializer(ts)) == ts
    decreases Length(ts)
  {
    if ts.tail.TypeList? {
      SerializerKeepsOrder(TypeList(ts.head, PopBack(ts.tail)));
      PopBackBack(ts.tail);
    }
  }

  lemma {:induction false} EncEachSnoc(ts: TypeList, t: Type, vs: seq<Value>)
    requires HaveTypes(Snoc(ts, t), vs) && AllSendable(vs)
    ensures |vs| == Length(ts) + 1
    ensures HaveTypes(ts, vs[..|vs| - 1]) && AllSendable(vs[..|vs| - 1])
    ensures HasType(t, vs[|vs| - 1]) && Sendable(vs[|vs| - 1])
    ensures EncEach(Snoc(ts, t), vs) == EncEach(ts, vs[..|vs| - 1]) + [Enc(t, vs[|vs| - 1])]
  {
    if ts.TypeList? {
      EncEachSnoc(ts.tail, t, vs[1..]);
      assert vs[..|vs| - 1][1..] == vs[1..][..|vs[1..]| - 1];
    } else {
      assert vs[1..] == [];
      assert vs[..0] == [];
    }
  }

  /** Decoding the last field continues where the fields before it stopped. */
  lemma {:induction false} DecEachSnoc(ts: TypeList, t: Type, ws: seq<Wire>)
    ensures DecEach(Snoc(ts, t), ws) ==
            match DecEach(ts, ws) {
              case Ok(vs) =>
                (match DecHead(t, ws[Length(ts)..])
                 case Ok(v) => Ok(vs + [v])
                 case Failed(a) => Failed(a)
                 case Aborted => Aborted)
              case Failed(a) => Failed(a)
              case Aborted => Aborted
            }
  {
    if ts.NilType? {
      assert ws[0..] == ws;
      if ws != [] && Dec(t, ws[0]).Ok? {
        var v := Dec(t, ws[0]).value;
        assert DecEach(NilType, ws[1..]) == Ok([]);
        assert [v] + [] == [v] == [] + [v];
      }
    } else if ws != [] && Dec(ts.head, ws[0]).Ok? {
      DecEachSnoc(ts.tail, t, ws[1..]);
      if DecEach(ts.tail, ws[1..]).Ok? {
        assert ws[1..][Length(ts.tail)..] == ws[Length(ts)..];
        var v, vs := Dec(ts.head, ws[0]).value, DecEach(ts.tail, ws[1..]).value;
        if DecHead(t, ws[Length(ts)..]).Ok? {
          var x := DecHead(t, ws[Length(ts)..]).value;
          assert [v] + (vs + [x]) == ([v] + vs) + [x];
        }
      }
    }
  }

  // ----- encode -----

  method Encode(t: Type, v: Value, iter: Writer)
    requires HasType(t, v) && Sendable(v)
    modifies iter
    ensures iter.items == old(iter.items) + [Enc(t, v)]
    decreases v, 1, 0
  {
    match t
    case Basic(p) =>
      iter.Append(if p.Double? then WDouble(v.r) else WNum(TypeCode(p), ToWire(p, v.n)));
    case Str =>
      iter.Append(WString(CString(v.s)));
    case Vector(e) =>
      var inner := new Writer();
      EncodeElements(e, v.elems, inner);
      iter.Append(WArray(Sig(e), inner.items));
    case Map(k, x) =>
      var inner := new Writer();
      EncodeElements(Pair(k, x), v.entries, inner);
      iter.Append(WArray(Sig(Pair(k, x)), inner.items));
    case Pair(k, x) =>
      var inner := new Writer();
      Encode(k, v.first, inner);
      Encode(x, v.second, inner);
      assert inner.items == [Enc(k, v.first), Enc(x, v.second)];
      iter.Append(WEntry(inner.items));
    case Tuple(ts) =>
      var inner := new Writer();
      EncodeTuple(ts, v.fields, inner);
      iter.Append(WStruct(inner.items));
    case Struct(ts) =>
      var inner := new Writer();
      if ts.TypeList? {
        SerializerKeepsOrder(ts);
        EncodeSerializer(MakeSerializer(ts), v.fields, inner);
      }
      iter.Append(WStruct(inner.items));
    case Variant(ts) =>
      var u := At(ts, v.index);
      var inner := new Writer();
      Encode(u, v.content, inner);
      assert inner.items == [Enc(u, v.content)];
      iter.Append(WVariant(Sig(u), inner.items));
    case AnyType =>
      var inner := new Writer();
      Encode(v.heldType, v.held, inner);
      assert inner.items == [Enc(v.heldType, v.held)];
      iter.Append(WVariant(Sig(v.heldType), inner.items));
  }

  /** The range-based for loop over a vector or a map. */
  method EncodeElements(t: Type, vs: seq<Value>, iter: Writer)
    requires AllHaveType(t, vs) && AllSendable(vs)
    modifies iter
    ensures iter.items == old(iter.items) + EncAll(t, vs)
    ensures old(iter.items) == [] ==> iter.items == EncAll(t, vs)
    decreases vs, 2, 0
  {
    ghost var before := iter.items;
    for i := 0 to |vs|
      invariant AllHaveType(t, vs[i..]) && AllSendable(vs[i..])
      invariant iter.items + EncAll(t, vs[i..]) == before + EncAll(t, vs)
    {
      assert vs[i..][0] == vs[i] && vs[i..][1..] == vs[i + 1..];
      Encode(t, vs[i], iter);
    }
    assert vs[|vs|..] == [];
    assert [] + EncAll(t, vs) == EncAll(t, vs);
  }

  /** std_tuple_for_each with the tuple serializer. */
  method EncodeTuple(ts: TypeList, vs: seq<Value>, iter: Writer)
    requires HaveTypes(ts, vs) && AllSendable(vs)
    modifies iter
    ensures iter.items == old(iter.items) + EncEach(ts, vs)
    ensures old(iter.items) == [] ==> iter.items == EncEach(ts, vs)
    decreases vs, 2, 0
  {
    if ts.TypeList? {
      Encode(ts.head, vs[0], iter);
      EncodeTuple(ts.tail, vs[1..], iter);
    }
  }

  method EncodeSerializer(s: Serializer, vs: seq<Value>, iter: Writer)
    requires HaveTypes(Visits(s), vs) && AllSendable(vs)
    modifies iter
    ensures iter.items == old(iter.items) + EncEach(Visits(s), vs)
    ensures old(iter.items) == [] ==> iter.items == EncEach(Visits(s), vs)
    decreases vs, 2, s
  {
    match s
    case Single(t) =>
      assert vs[1..] == [];
      Encode(t, vs[0], iter);
    case Nested(init, t) =>
      EncEachSnoc(Visits(init), t, vs);
      EncodeSerializer(init, vs[..|vs| - 1], iter);
      Encode(t, vs[|vs| - 1], iter);
  }

  // ----- decode -----

  /** How far a decode moves the iterator it was given. */
  function Steps<T>(r: Result<T>): nat {
    match r
    case Ok(_) => 1
    case Failed(advanced) => if advanced then 1 else 0
    case Aborted => 0
  }

  /** Decodes one value and leaves the iterator just behind it, whatever surrounds it. */
  method Decode(t: Type, iter: Reader) returns (r: Result<Value>)
    requires iter.Valid()
    modifies iter
    ensures iter.Valid() && r == DecHead(t, old(iter.Rest()))
    ensures iter.pos == old(iter.pos) + Steps(r) && (r.Ok? ==> iter.pos == old(iter.pos) + 1)
    decreases iter.Rest(), 2, 0
  {
    if iter.pos == |iter.items| {
      return Failed(false);
    }
    var w := iter.items[iter.pos];
    assert iter.Rest()[0] == w;
    ghost var expected := Dec(t, w);
    assert DecHead(t, iter.Rest()) == expected;
    match t
    case Basic(p) =>
      if p.Double? && w.WDouble? {
        iter.Next();
        return Ok(Dbl(w.r));
      } else if !p.Double? && w.WNum? && w.code == TypeCode(p) {
        iter.Next();
        return Ok(Num(FromWire(p, w.n)));
      }
      return Failed(false);
    case Str =>
      if !w.WString? {
        return Failed(false);
      }
      iter.Next();
      return Ok(Text(w.s));
    case Vector(e) =>
      if !w.WArray? {
        return Failed(false);
      }
      var nested := new Reader(w.items);
      var elems := DecodeElements(e, nested);
      r := Close(t, elems);
      if r.Ok? { iter.Next(); }
    case Map(k, x) =>
      if !w.WArray? {
        return Failed(false);
      }
      var nested := new Reader(w.items);
      var entries := DecodeEntries(Pair(k, x), nested);
      match entries {
        case Ok(m) => iter.Next(); return Ok(Dict(m));
        case Failed(_) => return Failed(false);
        case Aborted => return Aborted;
      }
    case Pair(k, x) =>
      if !w.WEntry? {
        return Failed(false);
      }
      var nested := new Reader(w.items);
      var fields := DecodeTuple(TypeList(k, TypeList(x, NilType)), nested);
      r := Close(t, fields);
      if r.Ok? { iter.Next(); }
    case Tuple(ts) =>
      if !w.WStruct? {
        return Failed(false);
      }
      var nested := new Reader(w.items);
      var fields := DecodeTuple(ts, nested);
      r := Close(t, fields);
      // the deserializer's destructor runs on every way out but an abort
      if !r.Aborted? { iter.Next(); }
    case Struct(ts) =>
      if !w.WStruct? {
        return Failed(false);
      }
      var nested := new Reader(w.items);
      var fields := Ok([]);
      if ts.TypeList? {
        SerializerKeepsOrder(ts);
        fields := DecodeSerializer(MakeSerializer(ts), nested);
      }
      assert fields == DecEach(ts, w.items);
      r := Close(t, fields);
      if r.Ok? { iter.Next(); }
    case Variant(ts) =>
      if !w.WVariant? {
        return Failed(false);
      }
      var nested := new Reader(w.items);
      r := DecodeAlternative(ts, 0, w.sig, nested);
      if r.Ok? { iter.Next(); }
    case AnyType =>
      if !w.WVariant? {
        return Failed(false);
      }
      iter.Next();
      return Ok(AnyReceived(w.sig, w.items));
  }

  /** What the element loop returns once the rest of the container has been decoded. */
  ghost function Behind(done: seq<Value>, rest: Result<seq<Value>>): Result<seq<Value>> {
    if rest.Ok? then Ok(done + rest.value) else rest
  }

  lemma BehindNothing(rest: Result<seq<Value>>)
    ensures Behind([], rest) == rest
  {
    if rest.Ok? {
      assert [] + rest.value == rest.value;
    }
  }

  lemma BehindThen(done: seq<Value>, v: Value, rest: Result<seq<Value>>)
    ensures Behind(done, Then(v, rest)) == Behind(done + [v], rest)
  {
    if rest.Ok? {
      assert done + ([v] + rest.value) == (done + [v]) + rest.value;
    }
  }

  ghost function Merged(m: seq<Value>, rest: Result<seq<Value>>): Result<seq<Value>> {
    if rest.Ok? then Ok(InsertAll(m, rest.value)) else rest
  }

  /** The while loop of the vector codec. */
  method DecodeElements(t: Type, iter: Reader) returns (r: Result<seq<Value>>)
    requires iter.Valid() && iter.pos == 0
    modifies iter
    ensures r == DecAll(t, iter.items)
    decreases iter.Rest(), 3, 0
  {
    var done: seq<Value> := [];
    assert iter.Rest() == iter.items;
    BehindNothing(DecAll(t, iter.items));
    while iter.ArgType() != INVALID
      invariant iter.Valid()
      invariant Behind(done, DecAll(t, iter.Rest())) == DecAll(t, iter.items)
      decreases |iter.items| - iter.pos
    {
      ghost var rest := iter.Rest();
      var v := Decode(t, iter);
      if !v.Ok? {
        return if v.Failed? then Failed(v.advanced) else Aborted;
      }
      assert iter.Rest() == rest[1..];
      BehindThen(done, v.value, DecAll(t, rest[1..]));
      done := done + [v.value];
    }
    assert iter.Rest() == [] && done + [] == done;
    r := Ok(done);
  }

  /** The while loop of the map codec: every entry goes through std::map::insert. */
  method DecodeEntries(t: Type, iter: Reader) returns (r: Result<seq<Value>>)
    requires iter.Valid() && iter.pos == 0
    modifies iter
    ensures r == Merged([], DecAll(t, iter.items))
    decreases iter.Rest(), 3, 0
  {
    var m: seq<Value> := [];
    assert iter.Rest() == iter.items;
    while iter.ArgType() != INVALID
      invariant iter.Valid()
      invariant Merged(m, DecAll(t, iter.Rest())) == Merged([], DecAll(t, iter.items))
      decreases |iter.items| - iter.pos
    {
      ghost var rest := iter.Rest();
      var v := Decode(t, iter);
      if !v.Ok? {
        return if v.Failed? then Failed(v.advanced) else Aborted;
      }
      assert iter.Rest() == rest[1..];
      m := Insert(m, v.value);
    }
    r := Ok(m);
  }

  /** std_tuple_for_each with the tuple deserializer; also decodes flattened argument lists. */
  method DecodeTuple(ts: TypeList, iter: Reader) returns (r: Result<seq<Value>>)
    requires iter.Valid()
    modifies iter
    ensures iter.Valid() && r == DecEach(ts, old(iter.Rest()))
    ensures r.Ok? ==> iter.pos == old(iter.pos) + Length(ts)
    decreases iter.Rest(), 3, ts
  {
    if ts.NilType? {
      return Ok([]);
    }
    ghost var rest := iter.Rest();
    var v := Decode(ts.head, iter);
    if !v.Ok? {
      return if v.Failed? then Failed(v.advanced) else Aborted;
    }
    assert iter.Rest() == rest[1..];
    var vs := DecodeTuple(ts.tail, iter);
    r := Then(v.value, vs);
  }

  /** SerializerTuple::decode: first the inner serializer, then the last field. */
  method DecodeSerializer(s: Serializer, iter: Reader) returns (r: Result<seq<Value>>)
    requires iter.Valid()
    modifies iter
    ensures iter.Valid() && r == DecEach(Visits(s), old(iter.Rest()))
    ensures r.Ok? ==> iter.pos == old(iter.pos) + Length(Visits(s))
    decreases iter.Rest(), 3, s
  {
    ghost var rest := iter.Rest();
    match s
    case Single(t) =>
      var v := Decode(t, iter);
      if v.Ok? {
        assert DecEach(NilType, rest[1..]) == Ok([]);
        assert [v.value] + [] == [v.value];
      }
      r := match v case Ok(x) => Ok([x]) case Failed(a) => Failed(a) case Aborted => Aborted;
    case Nested(init, t) =>
      DecEachSnoc(Visits(init), t, rest);
      r := DecodeSerializer(init, iter);
      if r.Ok? {
        assert iter.Rest() == rest[Length(Visits(init))..];
        var v := Decode(t, iter);
        r := match v case Ok(x) => Ok(r.value + [x]) case Failed(a) => Failed(a) case Aborted => Aborted;
      }
  }

  /** VariantDeserializer::eval: compares signatures alternative by alternative. */
  method DecodeAlternative(ts: TypeList, i: nat, sig: string, iter: Reader) returns (r: Result<Value>)
    requires iter.Valid()
    modifies iter
    ensures iter.Valid() && r == DecAlt(ts, i, sig, old(iter.Rest()))
    decreases iter.Rest(), 3, ts
  {
    if ts.NilType? {
      return Aborted;
    }
    if Sig(ts.head) == sig {
      var v := Decode(ts.head, iter);
      return Chosen(i, v);
    }
    r := DecodeAlternative(ts.tail, i + 1, sig, iter);
  }
}
