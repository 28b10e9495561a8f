/** What the codecs promise: round trips, well-signed output, and total decoding of well-signed input. */
module CodecTheorems {
  import opened Wrappers
  import opened Types
  import opened CStrings
  import opened Signatures
  import opened Codec

  // ----- what a value looks like to the receiver -----

  /** A sent value as it arrives: the same, except that an Any now refers to the message. */
  function Arrive(v: Value): Value
    decreases v, 1
  {
    match v
    case List(vs) => List(ArriveAll(vs))
    case Dict(vs) => Dict(ArriveAll(vs))
    case Record(vs) => Record(ArriveAll(vs))
    case PairV(a, b) => PairV(Arrive(a), Arrive(b))
    case Alt(i, x) => Alt(i, Arrive(x))
    case AnyLocal(u, x) =>
      AnyReceived(Sig(u), if HasType(u, x) && Sendable(x) then [Enc(u, x)] else [])
    case _ => v
  }

  function ArriveAll(vs: seq<Value>): (r: seq<Value>)
    ensures |r| == |vs|
    decreases vs, 0
  {
    if vs == [] then [] else [Arrive(vs[0])] + ArriveAll(vs[1..])
  }

  /** No earlier alternative shares the signature of alternative i. */
  predicate FirstOfItsSig(ts: TypeList, i: nat)
    requires i < Length(ts)
  {
    forall j | 0 <= j < i :: Sig(At(ts, j)) != Sig(At(ts, i))
  }

  /** What survives the wire: no text holds a NUL, and every variant holds the first alternative of its signature. */
  predicate Faithful(t: Type, v: Value)
    decreases v, 1
  {
    match t
    case Basic(_) => true
    case Str => v.Text? ==> '\0' !in v.s
    case Vector(e) => v.List? ==> AllFaithful(e, v.elems)
    case Map(k, x) => v.Dict? ==> AllFaithful(Pair(k, x), v.entries)
    case Pair(k, x) => v.PairV? ==> Faithful(k, v.first) && Faithful(x, v.second)
    case Tuple(ts) => v.Record? ==> EachFaithful(ts, v.fields)
    case Struct(ts) => v.Record? ==> EachFaithful(ts, v.fields)
    case Variant(ts) =>
      v.Alt? && v.index < Length(ts) ==>
        FirstOfItsSig(ts, v.index) && Faithful(At(ts, v.index), v.content)
    case AnyType => true
  }

  predicate AllFaithful(t: Type, vs: seq<Value>)
    decreases vs, 0
  {
    vs != [] ==> Faithful(t, vs[0]) && AllFaithful(t, vs[1..])
  }

  predicate EachFaithful(ts: TypeList, vs: seq<Value>)
    decreases vs, 0
  {
    ts.TypeList? && vs != [] ==> Faithful(ts.head, vs[0]) && EachFaithful(ts.tail, vs[1..])
  }

  // ----- sorted insertion rebuilds a sorted map -----

  lemma {:induction false} TextLessAsymmetric(a: string, b: string)
    requires TextLess(a, b)
    ensures !TextLess(b, a)
  {
    if a != "" && a[0] == b[0] {
      TextLessAsymmetric(a[1..], b[1..]);
    }
  }

  lemma LessAsymmetric(a: Value, b: Value)
    requires Less(a, b)
    ensures !Less(b, a)
  {
    if a.Text? {
      TextLessAsymmetric(a.s, b.s);
    }
  }

  lemma {:induction false} InsertLast(m: seq<Value>, p: Value)
    requires forall i :: 0 <= i < |m| ==> Less(Key(m[i]), Key(p))
    ensures Insert(m, p) == m + [p]
  {
    if m != [] {
      LessAsymmetric(Key(m[0]), Key(p));
      InsertLast(m[1..], p);
    }
  }

  lemma {:induction false} InsertAllSorted(m: seq<Value>, ps: seq<Value>)
    requires Sorted(m + ps)
    ensures InsertAll(m, ps) == m + ps
    decreases ps
  {
    if ps == [] {
      assert m + ps == m;
    } else {
      var whole := m + ps;
      assert whole[|m|] == ps[0];
      forall i | 0 <= i < |m| ensures Less(Key(m[i]), Key(ps[0])) {
        assert whole[i] == m[i];
      }
      InsertLast(m, ps[0]);
      assert (m + [ps[0]]) + ps[1..] == whole;
      InsertAllSorted(m + [ps[0]], ps[1..]);
    }
  }

  lemma ArrivedKey(k: Type, x: Type, p: Value)
    requires IsKeyType(k) && HasType(Pair(k, x), p)
    ensures Key(Arrive(p)) == Key(p)
  {
    var key := p.first;
    assert HasType(k, key);
    assert Arrive(key) == key;
    assert Arrive(p) == PairV(Arrive(key), Arrive(p.second));
  }

  /** Arriving leaves map keys alone, so entries stay sorted. */
  lemma {:induction false} ArrivedKeys(k: Type, x: Type, es: seq<Value>)
    requires IsKeyType(k) && AllHaveType(Pair(k, x), es)
    ensures forall i :: 0 <= i < |es| ==> Key(ArriveAll(es)[i]) == Key(es[i])
  {
    if es != [] {
      ArrivedKey(k, x, es[0]);
      ArrivedKeys(k, x, es[1..]);
      assert ArriveAll(es) == [Arrive(es[0])] + ArriveAll(es[1..]);
    }
  }

  // ----- round trip -----

  lemma {:induction false} RoundTrip(t: Type, v: Value)
    requires HasType(t, v) && Sendable(v) && Faithful(t, v)
    ensures Dec(t, Enc(t, v)) == Ok(Arrive(v))
    decreases v, 1
  {
    match t
    case Basic(_) =>
    case Str =>
    case Vector(e) => RoundTripAll(e, v.elems);
    case Map(k, x) =>
      RoundTripAll(Pair(k, x), v.entries);
      ArrivedKeys(k, x, v.entries);
      assert [] + ArriveAll(v.entries) == ArriveAll(v.entries);
      InsertAllSorted([], ArriveAll(v.entries));
    case Pair(k, x) =>
      RoundTrip(k, v.first);
      RoundTrip(x, v.second);
      DecBoth(k, x, Enc(k, v.first), Enc(x, v.second));
    case Tuple(ts) => RoundTripEach(ts, v.fields);
    case Struct(ts) => RoundTripEach(ts, v.fields);
    case Variant(ts) =>
      var u := At(ts, v.index);
      RoundTrip(u, v.content);
      FindsAlternative(ts, 0, v.index, [Enc(u, v.content)]);
    case AnyType =>
  }

  lemma DecBoth(k: Type, x: Type, a: Wire, b: Wire)
    requires Dec(k, a).Ok? && Dec(x, b).Ok?
    ensures DecEach(TypeList(k, TypeList(x, NilType)), [a, b]) == Ok([Dec(k, a).value, Dec(x, b).value])
  {
    assert [a, b][1..] == [b];
    var y := Dec(x, b).value;
    assert DecEach(NilType, [b][1..]) == Ok([]);
    assert [y] + [] == [y];
    assert DecEach(TypeList(x, NilType), [b]) == Then(y, Ok([]));
    assert [Dec(k, a).value] + [y] == [Dec(k, a).value, y];
  }

  lemma {:induction false} RoundTripAll(t: Type, vs: seq<Value>)
    requires AllHaveType(t, vs) && AllSendable(vs) && AllFaithful(t, vs)
    ensures DecAll(t, EncAll(t, vs)) == Ok(ArriveAll(vs))
    decreases vs, 0
  {
    if vs != [] {
      RoundTrip(t, vs[0]);
      RoundTripAll(t, vs[1..]);
      assert EncAll(t, vs)[1..] == EncAll(t, vs[1..]);
    }
  }

  lemma {:induction false} RoundTripEach(ts: TypeList, vs: seq<Value>)
    requires HaveTypes(ts, vs) && AllSendable(vs) && EachFaithful(ts, vs)
    ensures DecEach(ts, EncEach(ts, vs)) == Ok(ArriveAll(vs))
    decreases vs, 0
  {
    if ts.TypeList? {
      RoundTrip(ts.head, vs[0]);
      RoundTripEach(ts.tail, vs[1..]);
      assert EncEach(ts, vs)[1..] == EncEach(ts.tail, vs[1..]);
    }
  }

  /** The search stops at the first alternative with the wire's signature. */
  lemma {:induction false} FindsAlternative(ts: TypeList, base: nat, i: nat, ws: seq<Wire>)
    requires i < Length(ts) && FirstOfItsSig(ts, i)
    ensures DecAlt(ts, base, Sig(At(ts, i)), ws) == Chosen(base + i, DecHead(At(ts, i), ws))
    decreases i
  {
    if i > 0 {
      assert At(ts, 0) == ts.head;
      forall j | 0 <= j < i - 1 ensures Sig(At(ts.tail, j)) != Sig(At(ts.tail, i - 1)) {
        assert At(ts.tail, j) == At(ts, j + 1);
      }
      FindsAlternative(ts.tail, base + 1, i - 1, ws);
    }
  }

  // ----- what encode writes is a message libdbus accepts, of exactly the type's signature -----

  /** A message value libdbus accepts, of type t. */
  predicate WellSigned(t: Type, w: Wire) {
    WellFormed(w) && WireSig(w) == Sig(t)
  }

  lemma {:induction false} EncodesWellSigned(t: Type, v: Value)
    requires ValidElement(t) && HasType(t, v) && Sendable(v)
    ensures WellSigned(t, Enc(t, v))
    decreases v, 1
  {
    match t
    case Basic(_) =>
    case Str =>
    case Vector(e) =>
      EncodesAllWellSigned(e, v.elems);
      ArrayWellSigned(e, EncAll(e, v.elems));
    case Map(k, x) =>
      EncodesAllWellSigned(Pair(k, x), v.entries);
      ArrayWellSigned(Pair(k, x), EncAll(Pair(k, x), v.entries));
    case Pair(k, x) =>
      EncodesWellSigned(k, v.first);
      EncodesWellSigned(x, v.second);
      EntryWellSigned(k, x, Enc(k, v.first), Enc(x, v.second));
    case Tuple(ts) =>
      EncodesEachWellSigned(ts, v.fields);
      StructWellSigned(ts, EncEach(ts, v.fields));
    case Struct(ts) =>
      EncodesEachWellSigned(ts, v.fields);
      StructWellSigned(ts, EncEach(ts, v.fields));
    case Variant(ts) =>
      ValidAt(ts, v.index);
      EncodesWellSigned(At(ts, v.index), v.content);
    case AnyType => EncodesWellSigned(v.heldType, v.held);
  }

  lemma StructWellSigned(ts: TypeList, ws: seq<Wire>)
    requires ws != [] && WireSigs(ws) == SigList(ts)
    requires forall w | w in ws :: WellFormed(w)
    ensures WellSigned(Tuple(ts), WStruct(ws)) && WellSigned(Struct(ts), WStruct(ws))
  {
  }

  lemma ArrayWellSigned(e: Type, ws: seq<Wire>)
    requires forall w | w in ws :: WellSigned(e, w)
    ensures WellFormed(WArray(Sig(e), ws))
  {
    ScanWhole(e);
  }

  lemma EntryWellSigned(k: Type, x: Type, a: Wire, b: Wire)
    requires WellSigned(k, a) && WellSigned(x, b)
    ensures WellSigned(Pair(k, x), WEntry([a, b]))
  {
    SigsOfTwo(a, b);
  }

  lemma SigsOfTwo(a: Wire, b: Wire)
    ensures WireSigs([a, b]) == WireSig(a) + WireSig(b)
  {
    assert [a, b][1..] == [b] && [b][1..] == [];
    assert WireSigs([b]) == WireSig(b) + "";
  }

  lemma {:induction false} EncodesAllWellSigned(t: Type, vs: seq<Value>)
    requires ValidElement(t) && AllHaveType(t, vs) && AllSendable(vs)
    ensures forall w | w in EncAll(t, vs) :: WellSigned(t, w)
    decreases vs, 0
  {
    if vs != [] {
      EncodesWellSigned(t, vs[0]);
      EncodesAllWellSigned(t, vs[1..]);
    }
  }

  lemma {:induction false} EncodesEachWellSigned(ts: TypeList, vs: seq<Value>)
    requires ValidList(ts) && HaveTypes(ts, vs) && AllSendable(vs)
    ensures forall w | w in EncEach(ts, vs) :: WellFormed(w)
    ensures WireSigs(EncEach(ts, vs)) == SigList(ts)
    decreases vs, 0
  {
    if ts.TypeList? {
      EncodesWellSigned(ts.head, vs[0]);
      EncodesEachWellSigned(ts.tail, vs[1..]);
      assert EncEach(ts, vs)[1..] == EncEach(ts.tail, vs[1..]);
    }
  }

  lemma {:induction false} ValidAt(ts: TypeList, i: nat)
    requires ValidList(ts) && i < Length(ts)
    ensures Valid(At(ts, i))
  {
    if i > 0 {
      ValidAt(ts.tail, i - 1);
    }
  }

  lemma ScanWhole(t: Type)
    ensures Scan(Sig(t)) == Some("")
  {
    ScanSig(t, "");
    assert Sig(t) + "" == Sig(t);
  }

  // ----- the exact condition for a round trip -----

  /** Whatever is decoded from a well-formed message could have made the trip: it is faithful. */
  lemma {:induction false} DecodedIsFaithful(t: Type, w: Wire)
    requires WellFormed(w) && Dec(t, w).Ok?
    ensures Faithful(t, Dec(t, w).value)
    decreases w, 1
  {
    match t
    case Basic(_) =>
    case Str =>
    case Vector(e) => DecodedAllFaithful(e, w.items);
    case Map(k, x) =>
      DecodedAllFaithful(Pair(k, x), w.items);
      InsertAllFaithful(Pair(k, x), [], DecAll(Pair(k, x), w.items).value);
    case Pair(k, x) => DecodedEachFaithful(TypeList(k, TypeList(x, NilType)), w.items);
      EachOfTwo(k, x, DecEach(TypeList(k, TypeList(x, NilType)), w.items).value);
    case Tuple(ts) => DecodedEachFaithful(ts, w.items);
    case Struct(ts) => DecodedEachFaithful(ts, w.items);
    case Variant(ts) =>
      var i := ChosenAlternative(ts, 0, w.sig, w.items);
      DecodedIsFaithful(At(ts, i), w.items[0]);
    case AnyType =>
  }

  lemma {:induction false} DecodedAllFaithful(t: Type, ws: seq<Wire>)
    requires (forall w | w in ws :: WellFormed(w)) && DecAll(t, ws).Ok?
    ensures AllFaithful(t, DecAll(t, ws).value)
    decreases ws, 0
  {
    if ws != [] {
      DecodedIsFaithful(t, ws[0]);
      DecodedAllFaithful(t, ws[1..]);
    }
  }

  lemma {:induction false} DecodedEachFaithful(ts: TypeList, ws: seq<Wire>)
    requires (forall w | w in ws :: WellFormed(w)) && DecEach(ts, ws).Ok?
    ensures EachFaithful(ts, DecEach(ts, ws).value)
    decreases ws, 0
  {
    if ts.TypeList? {
      DecodedIsFaithful(ts.head, ws[0]);
      DecodedEachFaithful(ts.tail, ws[1..]);
    }
  }

  lemma EachOfTwo(k: Type, x: Type, vs: seq<Value>)
    requires |vs| == 2 && EachFaithful(TypeList(k, TypeList(x, NilType)), vs)
    ensures Faithful(k, vs[0]) && Faithful(x, vs[1])
  {
    assert vs[1..][0] == vs[1];
    assert EachFaithful(TypeList(x, NilType), vs[1..]);
  }

  /** A successful search names the first alternative with the wire's signature, and decoded that one. */
  lemma {:induction false} ChosenAlternative(ts: TypeList, base: nat, sig: string, ws: seq<Wire>) returns (i: nat)
    requires DecAlt(ts, base, sig, ws).Ok?
    ensures i < Length(ts) && Sig(At(ts, i)) == sig && FirstOfItsSig(ts, i)
    ensures ws != [] && Dec(At(ts, i), ws[0]).Ok?
    ensures DecAlt(ts, base, sig, ws) == Ok(Alt(base + i, Dec(At(ts, i), ws[0]).value))
    decreases ts
  {
    if Sig(ts.head) == sig {
      i := 0;
    } else {
      var j := ChosenAlternative(ts.tail, base + 1, sig, ws);
      i := j + 1;
      forall k | 0 <= k < i ensures Sig(At(ts, k)) != Sig(At(ts, i)) {
        if k > 0 {
          assert At(ts, k) == At(ts.tail, k - 1);
        }
      }
    }
  }

  lemma {:induction false} InsertFaithful(t: Type, m: seq<Value>, p: Value)
    requires AllFaithful(t, m) && Faithful(t, p)
    ensures AllFaithful(t, Insert(m, p))
  {
    if m != [] && !Less(Key(p), Key(m[0])) && Less(Key(m[0]), Key(p)) {
      InsertFaithful(t, m[1..], p);
      assert Insert(m, p)[1..] == Insert(m[1..], p);
    } else if m == [] || Less(Key(p), Key(m[0])) {
      assert ([p] + m)[1..] == m;
    }
  }

  lemma {:induction false} InsertAllFaithful(t: Type, m: seq<Value>, ps: seq<Value>)
    requires AllFaithful(t, m) && AllFaithful(t, ps)
    ensures AllFaithful(t, InsertAll(m, ps))
    decreases ps
  {
    if ps != [] {
      InsertFaithful(t, m, ps[0]);
      InsertAllFaithful(t, Insert(m, ps[0]), ps[1..]);
    }
  }

  lemma {:induction false} ArrivalFaithful(t: Type, v: Value)
    requires HasType(t, v)
    ensures Faithful(t, Arrive(v)) == Faithful(t, v)
    decreases v, 1
  {
    match t
    case Basic(_) =>
    case Str =>
    case Vector(e) => ArrivalAllFaithful(e, v.elems);
    case Map(k, x) => ArrivalAllFaithful(Pair(k, x), v.entries);
    case Pair(k, x) => ArrivalFaithful(k, v.first); ArrivalFaithful(x, v.second);
    case Tuple(ts) => ArrivalEachFaithful(ts, v.fields);
    case Struct(ts) => ArrivalEachFaithful(ts, v.fields);
    case Variant(ts) => ArrivalFaithful(At(ts, v.index), v.content);
    case AnyType =>
  }

  lemma {:induction false} ArrivalAllFaithful(t: Type, vs: seq<Value>)
    requires AllHaveType(t, vs)
    ensures AllFaithful(t, ArriveAll(vs)) == AllFaithful(t, vs)
    decreases vs, 0
  {
    if vs != [] {
      ArrivalFaithful(t, vs[0]);
      ArrivalAllFaithful(t, vs[1..]);
      assert ArriveAll(vs)[1..] == ArriveAll(vs[1..]);
    }
  }

  lemma {:induction false} ArrivalEachFaithful(ts: TypeList, vs: seq<Value>)
    requires HaveTypes(ts, vs)
    ensures EachFaithful(ts, ArriveAll(vs)) == EachFaithful(ts, vs)
    decreases vs, 0
  {
    if ts.TypeList? {
      ArrivalFaithful(ts.head, vs[0]);
      ArrivalEachFaithful(ts.tail, vs[1..]);
      assert ArriveAll(vs)[1..] == ArriveAll(vs[1..]);
    }
  }

  /** Decoding what encode appended gives the value back exactly when the value is faithful. */
  lemma RoundTripExactly(t: Type, v: Value)
    requires ValidElement(t) && HasType(t, v) && Sendable(v)
    ensures Dec(t, Enc(t, v)) == Ok(Arrive(v)) <==> Faithful(t, v)
  {
    if Faithful(t, v) {
      RoundTrip(t, v);
    }
    if Dec(t, Enc(t, v)) == Ok(Arrive(v)) {
      EncodesWellSigned(t, v);
      DecodedIsFaithful(t, Enc(t, v));
      ArrivalFaithful(t, v);
    }
  }

  // ----- decoding well-signed messages -----

  /** No variant inside, so nothing can be left unmatched. */
  predicate VariantFree(t: Type) {
    match t
    case Vector(e) => VariantFree(e)
    case Map(k, x) => VariantFree(k) && VariantFree(x)
    case Pair(k, x) => VariantFree(k) && VariantFree(x)
    case Tuple(ts) => AllVariantFree(ts)
    case Struct(ts) => AllVariantFree(ts)
    case Variant(_) => false
    case _ => true
  }

  predicate AllVariantFree(ts: TypeList) {
    ts.TypeList? ==> VariantFree(ts.head) && AllVariantFree(ts.tail)
  }

  /** A message of the type's signature never makes decode throw; without variants it always decodes. */
  lemma {:induction false} DecodesWellSigned(t: Type, w: Wire)
    requires WellFormed(w) && WireSig(w) == Sig(t)
    ensures !Dec(t, w).Failed?
    ensures VariantFree(t) ==> Dec(t, w).Ok?
    decreases w, 1
  {
    match t
    case Basic(_) =>
    case Str =>
    case AnyType =>
    case Vector(e) =>
      ElemSigOf(e, w);
      DecodesAllWellSigned(e, w.items);
    case Map(k, x) =>
      ElemSigOf(Pair(k, x), w);
      DecodesAllWellSigned(Pair(k, x), w.items);
    case Pair(k, x) => DecodesEntry(k, x, w);
    case Tuple(ts) =>
      DecodesStruct(ts, w);
    case Struct(ts) =>
      DecodesStruct(ts, w);
    case Variant(ts) =>
      DecodesAlternative(ts, 0, w);
  }

  lemma ElemSigOf(e: Type, w: Wire)
    requires WireSig(w) == [ARRAY] + Sig(e)
    ensures w.WArray? && w.elemSig == Sig(e)
  {
    assert WireSig(w)[0] == ARRAY;
    assert WireSig(w)[1..] == Sig(e);
    assert w.WArray? ==> ([ARRAY] + w.elemSig)[1..] == w.elemSig;
  }

  lemma {:induction false} DecodesEntry(k: Type, x: Type, w: Wire)
    requires WellFormed(w) && WireSig(w) == Sig(Pair(k, x))
    ensures !Dec(Pair(k, x), w).Failed?
    ensures VariantFree(k) && VariantFree(x) ==> Dec(Pair(k, x), w).Ok?
    decreases w, 0
  {
    EntryOf(k, x, w);
    var ts := TypeList(k, TypeList(x, NilType));
    ListOfTwo(k, x);
    DecodesEachWellSigned(ts, w.items);
    CloseKeeps(Pair(k, x), DecEach(ts, w.items));
    assert Dec(Pair(k, x), w) == Close(Pair(k, x), DecEach(ts, w.items));
  }

  lemma EntryOf(k: Type, x: Type, w: Wire)
    requires WireSig(w) == Sig(Pair(k, x))
    ensures w.WEntry? && WireSigs(w.items) == SigList(TypeList(k, TypeList(x, NilType)))
  {
    var ts := TypeList(k, TypeList(x, NilType));
    ListOfTwo(k, x);
    assert Sig(Pair(k, x)) == ['{'] + SigList(ts) + ['}'];
    assert WireSig(w)[0] == '{';
    assert WireSig(w) == ['{'] + WireSigs(w.items) + ['}'];
    Unbracket(w.items, '{', '}', ts);
  }

  lemma CloseKeeps(t: Type, elems: Result<seq<Value>>)
    ensures Close(t, elems).Ok? <==> elems.Ok?
    ensures Close(t, elems).Failed? <==> elems.Failed?
  {
  }

  lemma {:induction false} DecodesStruct(ts: TypeList, w: Wire)
    requires WellFormed(w) && WireSig(w) == "(" + SigList(ts) + ")"
    ensures w.WStruct? && !DecEach(ts, w.items).Failed?
    ensures AllVariantFree(ts) ==> DecEach(ts, w.items).Ok?
    decreases w, 0
  {
    assert WireSig(w)[0] == '(';
    Unbracket(w.items, '(', ')', ts);
    DecodesEachWellSigned(ts, w.items);
  }

  lemma ListOfTwo(k: Type, x: Type)
    ensures SigList(TypeList(k, TypeList(x, NilType))) == Sig(k) + Sig(x)
    ensures AllVariantFree(TypeList(k, TypeList(x, NilType))) == (VariantFree(k) && VariantFree(x))
  {
    var last := TypeList(x, NilType);
    assert SigList(last) == Sig(x) + "";
    assert AllVariantFree(last) == VariantFree(x);
  }

  lemma Unbracket(ws: seq<Wire>, open: char, close: char, ts: TypeList)
    requires [open] + WireSigs(ws) + [close] == [open] + SigList(ts) + [close]
    ensures WireSigs(ws) == SigList(ts)
  {
    var a, b := [open] + WireSigs(ws) + [close], [open] + SigList(ts) + [close];
    assert WireSigs(ws) == a[1..|a| - 1];
    assert SigList(ts) == b[1..|b| - 1];
  }

  lemma {:induction false} DecodesAllWellSigned(t: Type, ws: seq<Wire>)
    requires forall w | w in ws :: WellFormed(w) && WireSig(w) == Sig(t)
    ensures !DecAll(t, ws).Failed?
    ensures VariantFree(t) ==> DecAll(t, ws).Ok?
    decreases ws, 0
  {
    if ws != [] {
      DecodesWellSigned(t, ws[0]);
      DecodesAllWellSigned(t, ws[1..]);
    }
  }

  lemma {:induction false} DecodesEachWellSigned(ts: TypeList, ws: seq<Wire>)
    requires forall w | w in ws :: WellFormed(w)
    requires WireSigs(ws) == SigList(ts)
    ensures !DecEach(ts, ws).Failed?
    ensures AllVariantFree(ts) ==> DecEach(ts, ws).Ok?
    decreases ws, 0
  {
    if ts.TypeList? {
      assert ws != [];
      WirePrefixFree(ws[0], ts.head, WireSigs(ws[1..]), SigList(ts.tail));
      DecodesWellSigned(ts.head, ws[0]);
      DecodesEachWellSigned(ts.tail, ws[1..]);
    }
  }

  lemma {:induction false} DecodesAlternative(ts: TypeList, base: nat, w: Wire)
    requires w.WVariant? && WellFormed(w)
    ensures !DecAlt(ts, base, w.sig, w.items).Failed?
    decreases w, 0, ts
  {
    if ts.TypeList? {
      if Sig(ts.head) == w.sig {
        DecodesWellSigned(ts.head, w.items[0]);
      } else {
        DecodesAlternative(ts.tail, base + 1, w);
      }
    }
  }

  // ----- decoded values are well typed, and encoding them restores the message -----

  lemma {:induction false} TextLessTotal(a: string, b: string)
    ensures a == b || TextLess(a, b) || TextLess(b, a)
  {
    if a != "" && b != "" && a[0] == b[0] {
      TextLessTotal(a[1..], b[1..]);
      assert a == [a[0]] + a[1..] && b == [b[0]] + b[1..];
    }
  }

  lemma {:induction false} TextLessTransitive(a: string, b: string, c: string)
    requires TextLess(a, b) && TextLess(b, c)
    ensures TextLess(a, c)
  {
    if a != "" && a[0] == b[0] == c[0] {
      TextLessTransitive(a[1..], b[1..], c[1..]);
    }
  }

  lemma LessTransitive(a: Value, b: Value, c: Value)
    requires Less(a, b) && Less(b, c)
    ensures Less(a, c)
  {
    if a.Text? {
      TextLessTransitive(a.s, b.s, c.s);
    }
  }

  /** Neither key is less than the other: to a map they are the same. */
  predicate SameKey(p: Value, q: Value) {
    !Less(Key(p), Key(q)) && !Less(Key(q), Key(p))
  }

  predicate HasKey(m: seq<Value>, p: Value) {
    exists e | e in m :: SameKey(p, e)
  }

  /** Insertion adds no entry but the new one, drops none, and refuses only a key it has. */
  lemma {:induction false} InsertElements(m: seq<Value>, p: Value)
    ensures forall e :: e in Insert(m, p) ==> e in m || e == p
    ensures forall e :: e in m ==> e in Insert(m, p)
    ensures p in Insert(m, p) || HasKey(m, p)
  {
    if m == [] || Less(Key(p), Key(m[0])) {
    } else if Less(Key(m[0]), Key(p)) {
      InsertElements(m[1..], p);
    } else {
      assert m[0] in m && SameKey(p, m[0]);
    }
  }

  /** Entries once inserted are never replaced, and none appears that was not inserted. */
  lemma {:induction false} EntriesStay(m: seq<Value>, ps: seq<Value>)
    ensures forall e :: e in m ==> e in InsertAll(m, ps)
    ensures forall e :: e in InsertAll(m, ps) ==> e in m || e in ps
    decreases ps
  {
    if ps != [] {
      InsertElements(m, ps[0]);
      EntriesStay(Insert(m, ps[0]), ps[1..]);
    }
  }

  /**
    Of several entries with one key the first is kept, and no key is lost: an entry is in
    the map if it was there before or is the first of its key.
   */
  lemma {:induction false} FirstEntryWins(m: seq<Value>, ps: seq<Value>)
    ensures forall e :: e in m ==> e in InsertAll(m, ps)
    ensures forall e :: e in InsertAll(m, ps) ==> e in m || e in ps
    ensures forall i | 0 <= i < |ps| && !HasKey(m, ps[i]) && !HasKey(ps[..i], ps[i]) :: ps[i] in InsertAll(m, ps)
    ensures forall i | 0 <= i < |ps| :: HasKey(InsertAll(m, ps), ps[i])
    decreases ps
  {
    EntriesStay(m, ps);
    if ps != [] {
      var m', rest := Insert(m, ps[0]), ps[1..];
      InsertElements(m, ps[0]);
      FirstEntryWins(m', rest);
      EntriesStay(m', rest);
      LessIrreflexive(Key(ps[0]));
      forall i | 0 <= i < |ps| && !HasKey(m, ps[i]) && !HasKey(ps[..i], ps[i])
        ensures ps[i] in InsertAll(m, ps)
      {
        if i > 0 {
          FirstOfRest(m, ps, i);
          assert ps[i] == rest[i - 1];
        }
      }
      forall i | 0 <= i < |ps| ensures HasKey(InsertAll(m, ps), ps[i]) {
        if i > 0 {
          assert ps[i] == rest[i - 1];
        } else if ps[0] in m' {
          assert ps[0] in InsertAll(m, ps) && SameKey(ps[0], ps[0]);
        } else {
          var e :| e in m && SameKey(ps[0], e);
          assert e in InsertAll(m, ps);
        }
      }
    }
  }

  lemma LessIrreflexive(a: Value)
    ensures !Less(a, a)
  {
    if Less(a, a) {
      LessAsymmetric(a, a);
    }
  }

  /** The first of its key stays the first once the head has been inserted. */
  lemma FirstOfRest(m: seq<Value>, ps: seq<Value>, i: nat)
    requires 0 < i < |ps| && !HasKey(m, ps[i]) && !HasKey(ps[..i], ps[i])
    ensures !HasKey(Insert(m, ps[0]), ps[i]) && !HasKey(ps[1..][..i - 1], ps[i])
  {
    InsertElements(m, ps[0]);
    assert ps[0] in ps[..i] by {
      assert ps[..i][0] == ps[0];
    }
    forall e | e in ps[1..][..i - 1] ensures e in ps[..i] {
      var k :| 0 <= k < i - 1 && ps[1..][..i - 1][k] == e;
      assert ps[..i][k + 1] == e;
    }
  }

  lemma {:induction false} InsertSorted(m: seq<Value>, p: Value)
    requires Sorted(m)
    ensures Sorted(Insert(m, p))
  {
    if m == [] {
    } else if Less(Key(p), Key(m[0])) {
      var r := [p] + m;
      forall i, j | 0 <= i < j < |r| ensures Less(Key(r[i]), Key(r[j])) {
        if i == 0 && j > 1 {
          LessTransitive(Key(p), Key(m[0]), Key(m[j - 1]));
        }
      }
    } else if Less(Key(m[0]), Key(p)) {
      InsertSorted(m[1..], p);
      InsertElements(m[1..], p);
      var r := [m[0]] + Insert(m[1..], p);
      forall i, j | 0 <= i < j < |r| ensures Less(Key(r[i]), Key(r[j])) {
        if i == 0 {
          assert r[j] in Insert(m[1..], p);
        }
      }
    }
  }

  lemma {:induction false} InsertTyped(t: Type, m: seq<Value>, p: Value)
    requires AllHaveType(t, m) && HasType(t, p)
    ensures AllHaveType(t, Insert(m, p))
  {
    if m == [] || Less(Key(p), Key(m[0])) {
      assert ([p] + m)[1..] == m;
    } else if Less(Key(m[0]), Key(p)) {
      InsertTyped(t, m[1..], p);
      assert Insert(m, p)[1..] == Insert(m[1..], p);
    }
  }

  lemma {:induction false} InsertAllTyped(t: Type, m: seq<Value>, ps: seq<Value>)
    requires Sorted(m) && AllHaveType(t, m) && AllHaveType(t, ps)
    ensures Sorted(InsertAll(m, ps)) && AllHaveType(t, InsertAll(m, ps))
    decreases ps
  {
    if ps != [] {
      InsertSorted(m, ps[0]);
      InsertTyped(t, m, ps[0]);
      InsertAllTyped(t, Insert(m, ps[0]), ps[1..]);
    }
  }

  /** Decoding never produces a value outside the type, whatever well-formed message it is given. */
  lemma {:induction false} DecodesTyped(t: Type, w: Wire)
    requires ValidElement(t) && WellFormed(w) && Dec(t, w).Ok?
    ensures HasType(t, Dec(t, w).value)
    decreases w, 1
  {
    match t
    case Basic(_) =>
    case Str =>
    case AnyType =>
    case Vector(e) => DecodesAllTyped(e, w.items);
    case Map(k, x) =>
      DecodesAllTyped(Pair(k, x), w.items);
      InsertAllTyped(Pair(k, x), [], DecAll(Pair(k, x), w.items).value);
    case Pair(k, x) =>
      var ts := TypeList(k, TypeList(x, NilType));
      assert ValidList(TypeList(x, NilType));
      DecodesEachTyped(ts, w.items);
      var vs := DecEach(ts, w.items).value;
      assert HaveTypes(TypeList(x, NilType), vs[1..]) && vs[1..][0] == vs[1];
    case Tuple(ts) => DecodesEachTyped(ts, w.items);
    case Struct(ts) => DecodesEachTyped(ts, w.items);
    case Variant(ts) =>
      var i := ChosenAlternative(ts, 0, w.sig, w.items);
      ValidAt(ts, i);
      DecodesTyped(At(ts, i), w.items[0]);
  }

  lemma {:induction false} DecodesAllTyped(t: Type, ws: seq<Wire>)
    requires ValidElement(t) && (forall w | w in ws :: WellFormed(w)) && DecAll(t, ws).Ok?
    ensures AllHaveType(t, DecAll(t, ws).value)
    decreases ws, 0
  {
    if ws != [] {
      DecodesTyped(t, ws[0]);
      DecodesAllTyped(t, ws[1..]);
    }
  }

  lemma {:induction false} DecodesEachTyped(ts: TypeList, ws: seq<Wire>)
    requires ValidList(ts) && (forall w | w in ws :: WellFormed(w)) && DecEach(ts, ws).Ok?
    ensures HaveTypes(ts, DecEach(ts, ws).value)
    decreases ws, 0
  {
    if ts.TypeList? {
      DecodesTyped(ts.head, ws[0]);
      DecodesEachTyped(ts.tail, ws[1..]);
    }
  }
}
