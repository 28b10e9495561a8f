/** The other direction of the round trip: encoding what was decoded restores the message. */
module Reencoding {
  import opened Types
  import opened CStrings
  import opened Signatures
  import opened Codec
  import opened CodecTheorems

  /** No Any inside: a received Any cannot be sent on. */
  predicate AnyFree(t: Type) {
    match t
    case Vector(e) => AnyFree(e)
    case Map(k, x) => AnyFree(k) && AnyFree(x)
    case Pair(k, x) => AnyFree(k) && AnyFree(x)
    case Tuple(ts) => AllAnyFree(ts)
    case Struct(ts) => AllAnyFree(ts)
    case Variant(ts) => AllAnyFree(ts)
    case AnyType => false
    case _ => true
  }

  predicate AllAnyFree(ts: TypeList) {
    ts.TypeList? ==> AnyFree(ts.head) && AllAnyFree(ts.tail)
  }

  /** Every map in the message lists its entries in ascending key order, as std::map would. */
  predicate Ordered(t: Type, w: Wire)
    decreases w, 1
  {
    match t
    case Vector(e) => w.WArray? ==> AllOrdered(e, w.items)
    case Map(k, x) =>
      w.WArray? ==>
        AllOrdered(Pair(k, x), w.items) &&
        (DecAll(Pair(k, x), w.items).Ok? ==> Sorted(DecAll(Pair(k, x), w.items).value))
    case Pair(k, x) => w.WEntry? ==> EachOrdered(TypeList(k, TypeList(x, NilType)), w.items)
    case Tuple(ts) => w.WStruct? ==> EachOrdered(ts, w.items)
    case Struct(ts) => w.WStruct? ==> EachOrdered(ts, w.items)
    case Variant(ts) => w.WVariant? ==> AlternativesOrdered(ts, w.sig, w.items)
    case _ => true
  }

  predicate AllOrdered(t: Type, ws: seq<Wire>)
    decreases ws, 2
  {
    ws != [] ==> Ordered(t, ws[0]) && AllOrdered(t, ws[1..])
  }

  predicate EachOrdered(ts: TypeList, ws: seq<Wire>)
    decreases ws, 2
  {
    ts.TypeList? && ws != [] ==> Ordered(ts.head, ws[0]) && EachOrdered(ts.tail, ws[1..])
  }

  /** Only the alternative the variant decodes as matters. */
  predicate AlternativesOrdered(ts: TypeList, sig: string, ws: seq<Wire>)
    decreases ws, 2
  {
    ws != [] ==>
      forall i | 0 <= i < Length(ts) && Sig(At(ts, i)) == sig && FirstOfItsSig(ts, i) :: Ordered(At(ts, i), ws[0])
  }

  /** decode loses nothing: on ordered, well-signed messages encode is its inverse. */
  lemma {:induction false} Reencodes(t: Type, w: Wire)
    requires ValidElement(t) && AnyFree(t) && WellSigned(t, w) && Ordered(t, w) && Dec(t, w).Ok?
    ensures HasType(t, Dec(t, w).value) && Sendable(Dec(t, w).value)
    ensures Enc(t, Dec(t, w).value) == w
    decreases w, 1
  {
    DecodesTyped(t, w);
    match t
    case Basic(_) =>
    case Str => CStringWhole(w.s);
    case Vector(e) =>
      ElemSigOf(e, w);
      ReencodesAll(e, w.items);
    case Map(k, x) => ReencodesMap(k, x, w);
    case Pair(k, x) => ReencodesPair(k, x, w);
    case Tuple(ts) => ReencodesStruct(ts, w);
    case Struct(ts) => ReencodesStruct(ts, w);
    case Variant(ts) =>
      ReencodesVariant(ts, w);
  }

  lemma {:induction false} ReencodesVariant(ts: TypeList, w: Wire)
    requires Valid(Variant(ts)) && AllAnyFree(ts) && WellSigned(Variant(ts), w) && Ordered(Variant(ts), w)
    requires Dec(Variant(ts), w).Ok?
    ensures HasType(Variant(ts), Dec(Variant(ts), w).value) && Sendable(Dec(Variant(ts), w).value)
    ensures Enc(Variant(ts), Dec(Variant(ts), w).value) == w
    decreases w, 0
  {
    var i := ChosenAlternative(ts, 0, w.sig, w.items);
    ValidAt(ts, i);
    AnyFreeAt(ts, i);
    Reencodes(At(ts, i), w.items[0]);
    assert w.items == [w.items[0]];
  }

  lemma {:induction false} ReencodesMap(k: Type, x: Type, w: Wire)
    requires IsKeyType(k) && Valid(x) && AnyFree(k) && AnyFree(x)
    requires WellSigned(Map(k, x), w) && Ordered(Map(k, x), w) && Dec(Map(k, x), w).Ok?
    ensures HasType(Map(k, x), Dec(Map(k, x), w).value) && Sendable(Dec(Map(k, x), w).value)
    ensures Enc(Map(k, x), Dec(Map(k, x), w).value) == w
    decreases w, 0
  {
    DecodesTyped(Map(k, x), w);
    ElemSigOf(Pair(k, x), w);
    ReencodesAll(Pair(k, x), w.items);
    var vs := DecAll(Pair(k, x), w.items).value;
    assert [] + vs == vs;
    InsertAllSorted([], vs);
  }

  lemma {:induction false} ReencodesPair(k: Type, x: Type, w: Wire)
    requires IsKeyType(k) && Valid(x) && AnyFree(k) && AnyFree(x)
    requires WellSigned(Pair(k, x), w) && Ordered(Pair(k, x), w) && Dec(Pair(k, x), w).Ok?
    ensures HasType(Pair(k, x), Dec(Pair(k, x), w).value) && Sendable(Dec(Pair(k, x), w).value)
    ensures Enc(Pair(k, x), Dec(Pair(k, x), w).value) == w
    decreases w, 0
  {
    var last := TypeList(x, NilType);
    var ts := TypeList(k, last);
    ListOfTwo(k, x);
    Unbracket(w.items, '{', '}', ts);
    assert ValidList(last) && AllAnyFree(last);
    ReencodesEach(ts, w.items);
    var vs := DecEach(ts, w.items).value;
    assert vs == [vs[0], vs[1]];
    assert vs[1..] == [vs[1]] && AllSendable(vs[1..]) && HaveTypes(last, vs[1..]);
    assert vs[1..][1..] == [];
    assert EncEach(last, vs[1..]) == [Enc(x, vs[1])] + [];
    assert w.items == [Enc(k, vs[0]), Enc(x, vs[1])];
  }

  lemma {:induction false} ReencodesStruct(ts: TypeList, w: Wire)
    requires ts.TypeList? && ValidList(ts) && AllAnyFree(ts) && WellSigned(Tuple(ts), w)
    requires w.WStruct? ==> EachOrdered(ts, w.items) && DecEach(ts, w.items).Ok?
    ensures w.WStruct? && HaveTypes(ts, DecEach(ts, w.items).value) && AllSendable(DecEach(ts, w.items).value)
    ensures EncEach(ts, DecEach(ts, w.items).value) == w.items
    decreases w, 0
  {
    assert WireSig(w)[0] == '(';
    Unbracket(w.items, '(', ')', ts);
    ReencodesEach(ts, w.items);
  }

  lemma {:induction false} ReencodesAll(t: Type, ws: seq<Wire>)
    requires ValidElement(t) && AnyFree(t) && (forall w | w in ws :: WellSigned(t, w))
    requires AllOrdered(t, ws) && DecAll(t, ws).Ok?
    ensures AllHaveType(t, DecAll(t, ws).value) && AllSendable(DecAll(t, ws).value)
    ensures EncAll(t, DecAll(t, ws).value) == ws
    decreases ws, 0
  {
    if ws != [] {
      Reencodes(t, ws[0]);
      ReencodesAll(t, ws[1..]);
    }
  }

  lemma {:induction false} ReencodesEach(ts: TypeList, ws: seq<Wire>)
    requires ValidList(ts) && AllAnyFree(ts) && (forall w | w in ws :: WellFormed(w))
    requires WireSigs(ws) == SigList(ts) && EachOrdered(ts, ws) && DecEach(ts, ws).Ok?
    ensures HaveTypes(ts, DecEach(ts, ws).value) && AllSendable(DecEach(ts, ws).value)
    ensures EncEach(ts, DecEach(ts, ws).value) == ws
    decreases ws, 0
  {
    if ts.TypeList? {
      WirePrefixFree(ws[0], ts.head, WireSigs(ws[1..]), SigList(ts.tail));
      Reencodes(ts.head, ws[0]);
      ReencodesEach(ts.tail, ws[1..]);
    }
  }

  lemma {:induction false} AnyFreeAt(ts: TypeList, i: nat)
    requires AllAnyFree(ts) && i < Length(ts)
    ensures AnyFree(At(ts, i))
  {
    if i > 0 {
      AnyFreeAt(ts.tail, i - 1);
    }
  }

  lemma CStringWhole(s: string)
    requires '\0' !in s
    ensures CString(s) == s
  {
  }

  // ----- and back: what encode writes is ordered -----

  lemma {:induction false} TypedSendable(t: Type, v: Value)
    requires HasType(t, v) && AnyFree(t)
    ensures Sendable(v)
    decreases v, 1
  {
    match t
    case Basic(_) =>
    case Str =>
    case Vector(e) => AllTypedSendable(e, v.elems);
    case Map(k, x) => AllTypedSendable(Pair(k, x), v.entries);
    case Pair(k, x) =>
      TypedSendable(k, v.first);
      TypedSendable(x, v.second);
    case Tuple(ts) => EachTypedSendable(ts, v.fields);
    case Struct(ts) => EachTypedSendable(ts, v.fields);
    case Variant(ts) =>
      AnyFreeAt(ts, v.index);
      TypedSendable(At(ts, v.index), v.content);
  }

  lemma {:induction false} AllTypedSendable(t: Type, vs: seq<Value>)
    requires AllHaveType(t, vs) && AnyFree(t)
    ensures AllSendable(vs)
    decreases vs, 0
  {
    if vs != [] {
      TypedSendable(t, vs[0]);
      AllTypedSendable(t, vs[1..]);
    }
  }

  lemma {:induction false} EachTypedSendable(ts: TypeList, vs: seq<Value>)
    requires HaveTypes(ts, vs) && AllAnyFree(ts)
    ensures AllSendable(vs)
    decreases vs, 0
  {
    if ts.TypeList? {
      TypedSendable(ts.head, vs[0]);
      EachTypedSendable(ts.tail, vs[1..]);
    }
  }

  lemma {:induction false} EncodesOrdered(t: Type, v: Value)
    requires HasType(t, v) && Sendable(v) && Faithful(t, v) && AnyFree(t)
    ensures Ordered(t, Enc(t, v))
    decreases v, 1
  {
    match t
    case Basic(_) =>
    case Str =>
    case Vector(e) => EncodesAllOrdered(e, v.elems);
    case Map(k, x) => EncodesMapOrdered(k, x, v);
    case Pair(k, x) =>
      EncodesOrdered(k, v.first);
      EncodesOrdered(x, v.second);
      TwoOrdered(k, x, Enc(k, v.first), Enc(x, v.second));
    case Tuple(ts) => EncodesEachOrdered(ts, v.fields);
    case Struct(ts) => EncodesEachOrdered(ts, v.fields);
    case Variant(ts) =>
      AnyFreeAt(ts, v.index);
      EncodesOrdered(At(ts, v.index), v.content);
  }

  lemma {:induction false} EncodesMapOrdered(k: Type, x: Type, v: Value)
    requires HasType(Map(k, x), v) && Sendable(v) && Faithful(Map(k, x), v) && AnyFree(k) && AnyFree(x)
    ensures Ordered(Map(k, x), Enc(Map(k, x), v))
    decreases v, 0
  {
    EncodesAllOrdered(Pair(k, x), v.entries);
    RoundTripAll(Pair(k, x), v.entries);
    ArrivedKeys(k, x, v.entries);
  }

  lemma TwoOrdered(k: Type, x: Type, a: Wire, b: Wire)
    requires Ordered(k, a) && Ordered(x, b)
    ensures EachOrdered(TypeList(k, TypeList(x, NilType)), [a, b])
  {
    assert [a, b][1..] == [b];
    assert EachOrdered(TypeList(x, NilType), [b]);
  }

  lemma {:induction false} EncodesAllOrdered(t: Type, vs: seq<Value>)
    requires AllHaveType(t, vs) && AllSendable(vs) && AllFaithful(t, vs) && AnyFree(t)
    ensures AllOrdered(t, EncAll(t, vs))
    decreases vs, 0
  {
    if vs != [] {
      EncodesOrdered(t, vs[0]);
      EncodesAllOrdered(t, vs[1..]);
      assert EncAll(t, vs)[1..] == EncAll(t, vs[1..]);
    }
  }

  lemma {:induction false} EncodesEachOrdered(ts: TypeList, vs: seq<Value>)
    requires HaveTypes(ts, vs) && AllSendable(vs) && EachFaithful(ts, vs) && AllAnyFree(ts)
    ensures EachOrdered(ts, EncEach(ts, vs))
    decreases vs, 0
  {
    if ts.TypeList? {
      EncodesOrdered(ts.head, vs[0]);
      EncodesEachOrdered(ts.tail, vs[1..]);
      assert EncEach(ts, vs)[1..] == EncEach(ts.tail, vs[1..]);
    }
  }

  /**
    A message of the type's signature that decodes is restored by encoding again, exactly if
    its maps list their keys in order.
   */
  lemma ReencodesExactly(t: Type, w: Wire)
    requires ValidElement(t) && AnyFree(t) && WellSigned(t, w) && Dec(t, w).Ok?
    ensures HasType(t, Dec(t, w).value) && Sendable(Dec(t, w).value)
    ensures Enc(t, Dec(t, w).value) == w <==> Ordered(t, w)
  {
    DecodesTyped(t, w);
    TypedSendable(t, Dec(t, w).value);
    DecodedIsFaithful(t, w);
    EncodesOrdered(t, Dec(t, w).value);
    if Ordered(t, w) {
      Reencodes(t, w);
    }
  }
}
