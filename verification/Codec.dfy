/**
  What encode appends to a message and what decode reads back, as functions on message
  trees. CodecImpl.dfy proves the iterator-based codecs against these functions.
 */
module Codec {
  import opened Wrappers
  import opened Types
  import opened CStrings

  /** C++ values. A received Any refers to the variant's content inside the message. */
  datatype Value =
    | Num(n: int)
    | Dbl(r: real)
    | Text(s: string)
    | List(elems: seq<Value>)
    | Dict(entries: seq<Value>)
    | PairV(first: Value, second: Value)
    | Record(fields: seq<Value>)
    | Alt(index: nat, content: Value)
    | AnyLocal(heldType: Type, held: Value)
    | AnyReceived(sig: string, items: seq<Wire>)
    | AnyEmpty

  // ----- the order std::map keeps its keys in -----

  predicate Less(a: Value, b: Value) {
    match (a, b)
    case (Num(m), Num(n)) => m < n
    case (Dbl(x), Dbl(y)) => x < y
    case (Text(s), Text(t)) => TextLess(s, t)
    case _ => false
  }

  function Key(p: Value): Value {
    if p.PairV? then p.first else p
  }

  predicate Sorted(entries: seq<Value>) {
    forall i, j :: 0 <= i < j < |entries| ==> Less(Key(entries[i]), Key(entries[j]))
  }

  /** std::map::insert: keeps the order, and keeps the old entry if the key is taken. */
  function Insert(m: seq<Value>, p: Value): seq<Value> {
    if m == [] || Less(Key(p), Key(m[0])) then [p] + m
    else if Less(Key(m[0]), Key(p)) then [m[0]] + Insert(m[1..], p)
    else m
  }

  function InsertAll(m: seq<Value>, ps: seq<Value>): seq<Value>
    decreases ps
  {
    if ps == [] then m else InsertAll(Insert(m, ps[0]), ps[1..])
  }

  // ----- typing -----

  predicate HasType(t: Type, v: Value)
    decreases v, 1
  {
    match t
    case Basic(p) => if p.Double? then v.Dbl? else v.Num? && PodRange(p, v.n)
    case Str => v.Text?
    case Vector(e) => v.List? && AllHaveType(e, v.elems)
    case Map(k, x) => IsKeyType(k) && v.Dict? && AllHaveType(Pair(k, x), v.entries) && Sorted(v.entries)
    case Pair(k, x) => v.PairV? && HasType(k, v.first) && HasType(x, v.second)
    case Tuple(ts) => v.Record? && HaveTypes(ts, v.fields)
    case Struct(ts) => v.Record? && HaveTypes(ts, v.fields)
    case Variant(ts) => v.Alt? && v.index < Length(ts) && HasType(At(ts, v.index), v.content)
    case AnyType =>
      (v.AnyLocal? && Valid(v.heldType) && HasType(v.heldType, v.held)) || v.AnyReceived? || v.AnyEmpty?
  }

  predicate AllHaveType(t: Type, vs: seq<Value>)
    decreases vs, 0
  {
    vs != [] ==> HasType(t, vs[0]) && AllHaveType(t, vs[1..])
  }

  predicate HaveTypes(ts: TypeList, vs: seq<Value>)
    decreases vs, 0
  {
    if ts.NilType? then vs == []
    else vs != [] && HasType(ts.head, vs[0]) && HaveTypes(ts.tail, vs[1..])
  }

  // ----- encode -----

  /** Neither a received nor an empty Any can be encoded: the visitor asserts. */
  predicate Sendable(v: Value)
    decreases v, 1
  {
    match v
    case List(vs) => AllSendable(vs)
    case Dict(vs) => AllSendable(vs)
    case Record(vs) => AllSendable(vs)
    case PairV(a, b) => Sendable(a) && Sendable(b)
    case Alt(_, x) => Sendable(x)
    case AnyLocal(_, x) => Sendable(x)
    case AnyReceived(_, _) => false
    case AnyEmpty => false
    case _ => true
  }

  predicate AllSendable(vs: seq<Value>)
    decreases vs, 0
  {
    vs != [] ==> Sendable(vs[0]) && AllSendable(vs[1..])
  }

  /** The single complete value encode appends. */
  function Enc(t: Type, v: Value): Wire
    requires HasType(t, v) && Sendable(v)
    decreases v, 1
  {
    match t
    case Basic(p) => if p.Double? then WDouble(v.r) else WNum(TypeCode(p), ToWire(p, v.n))
    case Str => WString(CString(v.s))
    case Vector(e) => WArray(Sig(e), EncAll(e, v.elems))
    case Map(k, x) => WArray(Sig(Pair(k, x)), EncAll(Pair(k, x), v.entries))
    case Pair(k, x) => WEntry([Enc(k, v.first), Enc(x, v.second)])
    case Tuple(ts) => WStruct(EncEach(ts, v.fields))
    case Struct(ts) => WStruct(EncEach(ts, v.fields))
    case Variant(ts) => var u := At(ts, v.index); WVariant(Sig(u), [Enc(u, v.content)])
    case AnyType => WVariant(Sig(v.heldType), [Enc(v.heldType, v.held)])
  }

  function EncAll(t: Type, vs: seq<Value>): (ws: seq<Wire>)
    requires AllHaveType(t, vs) && AllSendable(vs)
    ensures |ws| == |vs|
    decreases vs, 0
  {
    if vs == [] then [] else [Enc(t, vs[0])] + EncAll(t, vs[1..])
  }

  function EncEach(ts: TypeList, vs: seq<Value>): (ws: seq<Wire>)
    requires HaveTypes(ts, vs) && AllSendable(vs)
    ensures |ws| == Length(ts) == |vs|
    decreases vs, 0
  {
    if ts.NilType? then [] else [Enc(ts.head, vs[0])] + EncEach(ts.tail, vs[1..])
  }

  // ----- decode -----

  /**
    Decoding one value. Failed says whether the outer iterator was advanced all the same,
    which only the tuple deserializer's destructor does. Aborted is assert(false) in the
    variant codec when no alternative matches.
   */
  datatype Result<+T> = Ok(value: T) | Failed(advanced: bool) | Aborted

  /** One more element in front of what the rest of the container decodes to. */
  function Then(v: Value, rest: Result<seq<Value>>): Result<seq<Value>> {
    match rest
    case Ok(vs) => Ok([v] + vs)
    case Failed(a) => Failed(a)
    case Aborted => Aborted
  }

  /** Puts a container's elements together; a failure inside leaves the outer iterator as given. */
  function Close(t: Type, elems: Result<seq<Value>>): Result<Value> {
    match elems
    case Ok(vs) =>
      Ok(if t.Vector? then List(vs)
         else if t.Map? then Dict(InsertAll([], vs))
         else if t.Pair? && |vs| == 2 then PairV(vs[0], vs[1])
         else Record(vs))
    case Failed(_) => Failed(t.Tuple?)
    case Aborted => Aborted
  }

  /** Remembers which alternative was decoded. */
  function Chosen(i: nat, r: Result<Value>): Result<Value> {
    match r
    case Ok(v) => Ok(Alt(i, v))
    case Failed(_) => Failed(false)
    case Aborted => Aborted
  }

  function Dec(t: Type, w: Wire): Result<Value>
    decreases w, 1
  {
    match t
    case Basic(p) =>
      if p.Double? then if w.WDouble? then Ok(Dbl(w.r)) else Failed(false)
      else if w.WNum? && w.code == TypeCode(p) then Ok(Num(FromWire(p, w.n)))
      else Failed(false)
    case Str => if w.WString? then Ok(Text(w.s)) else Failed(false)
    case Vector(e) => if w.WArray? then Close(t, DecAll(e, w.items)) else Failed(false)
    case Map(k, x) => if w.WArray? then Close(t, DecAll(Pair(k, x), w.items)) else Failed(false)
    case Pair(k, x) =>
      if w.WEntry? then Close(t, DecEach(TypeList(k, TypeList(x, NilType)), w.items)) else Failed(false)
    case Tuple(ts) => if w.WStruct? then Close(t, DecEach(ts, w.items)) else Failed(false)
    case Struct(ts) => if w.WStruct? then Close(t, DecEach(ts, w.items)) else Failed(false)
    case Variant(ts) => if w.WVariant? then DecAlt(ts, 0, w.sig, w.items) else Failed(false)
    case AnyType => if w.WVariant? then Ok(AnyReceived(w.sig, w.items)) else Failed(false)
  }

  /** Decoding at an iterator: past the end the argument type is INVALID and nothing matches. */
  function DecHead(t: Type, ws: seq<Wire>): Result<Value>
    decreases ws, 0
  {
    if ws == [] then Failed(false) else Dec(t, ws[0])
  }

  /** The element loop of the array codecs: runs to the end of the container. */
  function DecAll(t: Type, ws: seq<Wire>): Result<seq<Value>>
    decreases ws, 1
  {
    if ws == [] then Ok([])
    else
      match Dec(t, ws[0])
      case Ok(v) => Then(v, DecAll(t, ws[1..]))
      case Failed(a) => Failed(a)
      case Aborted => Aborted
  }

  /** One value per type, front to back; values left over in the container are ignored. */
  function DecEach(ts: TypeList, ws: seq<Wire>): (r: Result<seq<Value>>)
    ensures r.Ok? ==> |r.value| == Length(ts) <= |ws|
    decreases ws, 1
  {
    if ts.NilType? then Ok([])
    else if ws == [] then Failed(false)
    else
      match Dec(ts.head, ws[0])
      case Ok(v) => Then(v, DecEach(ts.tail, ws[1..]))
      case Failed(a) => Failed(a)
      case Aborted => Aborted
  }

  /** The alternative search: the first alternative whose signature is the wire's. */
  function DecAlt(ts: TypeList, i: nat, sig: string, ws: seq<Wire>): (r: Result<Value>)
    ensures r.Failed? ==> !r.advanced
    decreases ws, 1, ts
  {
    if ts.NilType? then Aborted
    else if Sig(ts.head) == sig then Chosen(i, DecHead(ts.head, ws))
    else DecAlt(ts.tail, i + 1, sig, ws)
  }
}
