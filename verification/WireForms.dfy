/**
  What values look like in a message: which number stands under which type code, what is in
  which place, and in which order the entries of a map come.
 */
module WireForms {
  import opened Types
  import opened CStrings
  import opened Signatures
  import opened Codec
  import opened CodecTheorems

  // ----- basic values -----

  /** The numbers a type's code carries are exactly the images of the type's values. */
  lemma CodeCarriesRange(p: Pod, w: int)
    requires !p.Double?
    ensures CodeRange(TypeCode(p), w) <==> exists n :: PodRange(p, n) && w == if p.Int8? then n % 0x100 else n
  {
    var n := if p.Int8? && w >= 0x80 then w - 0x100 else w;
    if CodeRange(TypeCode(p), w) {
      assert PodRange(p, n) && w == if p.Int8? then n % 0x100 else n;
    }
  }

  /** A code of another width or signedness carries other numbers. */
  lemma RangeDeterminesCode(c: NumCode, d: NumCode)
    requires forall n :: CodeRange(c, n) <==> CodeRange(d, n)
    ensures c == d
  {
    assert CodeRange(c, -0x8000_0000_0000_0000) == CodeRange(d, -0x8000_0000_0000_0000);
    assert CodeRange(c, -0x8000_0000) == CodeRange(d, -0x8000_0000);
    assert CodeRange(c, -0x8000) == CodeRange(d, -0x8000);
    assert CodeRange(c, 0x8000) == CodeRange(d, 0x8000);
    assert CodeRange(c, 0x100) == CodeRange(d, 0x100);
    assert CodeRange(c, 0x1_0000) == CodeRange(d, 0x1_0000);
    assert CodeRange(c, 0x1_0000_0000) == CodeRange(d, 0x1_0000_0000);
  }

  /** A number is written as itself, an int8 modulo 256, under a code that can carry it. */
  lemma NumberOnWire(p: Pod, n: int)
    requires HasType(Basic(p), Num(n))
    ensures var w := Enc(Basic(p), Num(n));
            && w.WNum? && CodeRange(w.code, w.n)
            && w.n == (if p.Int8? then n % 0x100 else n)
            && Sig(Basic(p)) == [w.code]
    ensures forall m :: CodeRange(Enc(Basic(p), Num(n)).code, m) <==>
              exists v :: PodRange(p, v) && m == if p.Int8? then v % 0x100 else v
  {
    forall m ensures CodeRange(TypeCode(p), m) <==> exists v :: PodRange(p, v) && m == if p.Int8? then v % 0x100 else v {
      CodeCarriesRange(p, m);
    }
  }

  /** A double and a text are written as they are; a text ends at its first NUL. */
  lemma TextOnWire(text: string, rest: string, r: real)
    requires NUL !in text
    ensures HasType(Str, Text(text + [NUL] + rest)) && Enc(Str, Text(text + [NUL] + rest)) == WString(text)
    ensures HasType(Str, Text(text)) && Enc(Str, Text(text)) == WString(text)
    ensures HasType(Basic(Double), Dbl(r)) && Enc(Basic(Double), Dbl(r)) == WDouble(r)
  {
    CStringStops(text, rest);
  }

  /** The letters of the D-Bus type system. */
  lemma Letters(e: Type, k: Type, x: Type, ts: TypeList)
    ensures Sig(Basic(UInt8)) == Sig(Basic(Int8)) == "y" && Sig(Basic(Double)) == "d" && Sig(Str) == "s"
    ensures Sig(Basic(Int16)) == "n" && Sig(Basic(Int32)) == Sig(Basic(Enum)) == "i" && Sig(Basic(Int64)) == "x"
    ensures Sig(Basic(UInt16)) == "q" && Sig(Basic(UInt32)) == "u" && Sig(Basic(UInt64)) == "t"
    ensures Sig(Vector(e)) == "a" + Sig(e) && Sig(Map(k, x)) == "a" + Sig(Pair(k, x))
    ensures Sig(Pair(k, x)) == "{" + Sig(k) + Sig(x) + "}"
    ensures Sig(Tuple(ts)) == Sig(Struct(ts)) == "(" + SigList(ts) + ")" && Sig(Variant(ts)) == Sig(AnyType) == "v"
  {
  }

  // ----- places -----

  lemma {:induction false} TypedAt(t: Type, vs: seq<Value>, i: nat)
    requires AllHaveType(t, vs) && AllSendable(vs) && i < |vs|
    ensures HasType(t, vs[i]) && Sendable(vs[i])
  {
    if i > 0 {
      TypedAt(t, vs[1..], i - 1);
    }
  }

  /** Element i of a container is written in place i. */
  lemma {:induction false} ElementInPlace(t: Type, vs: seq<Value>, i: nat)
    requires AllHaveType(t, vs) && AllSendable(vs) && i < |vs|
    ensures HasType(t, vs[i]) && Sendable(vs[i]) && EncAll(t, vs)[i] == Enc(t, vs[i])
  {
    TypedAt(t, vs, i);
    if i > 0 {
      ElementInPlace(t, vs[1..], i - 1);
    }
  }

  /** Field i of a tuple or struct is written in place i, as its own type. */
  lemma {:induction false} FieldInPlace(ts: TypeList, vs: seq<Value>, i: nat)
    requires HaveTypes(ts, vs) && AllSendable(vs) && i < |vs|
    ensures i < Length(ts) && HasType(At(ts, i), vs[i]) && Sendable(vs[i])
    ensures EncEach(ts, vs)[i] == Enc(At(ts, i), vs[i])
  {
    if i > 0 {
      FieldInPlace(ts.tail, vs[1..], i - 1);
    }
  }

  /** What decoding a container gives in place i comes from the value in place i. */
  lemma {:induction false} ElementFromPlace(t: Type, ws: seq<Wire>, i: nat)
    requires DecAll(t, ws).Ok? && i < |ws|
    ensures |DecAll(t, ws).value| == |ws| && Dec(t, ws[i]) == Ok(DecAll(t, ws).value[i])
  {
    if |ws| > 1 {
      ElementFromPlace(t, ws[1..], if i > 0 then i - 1 else 0);
    }
  }

  lemma {:induction false} FieldFromPlace(ts: TypeList, ws: seq<Wire>, i: nat)
    requires DecEach(ts, ws).Ok? && i < Length(ts)
    ensures i < |ws| && Dec(At(ts, i), ws[i]) == Ok(DecEach(ts, ws).value[i])
  {
    if i > 0 {
      FieldFromPlace(ts.tail, ws[1..], i - 1);
    }
  }

  /** Containers, entries and variants: what encloses the values, and which value is where. */
  lemma {:induction false} ContainerOnWire(t: Type, v: Value)
    requires HasType(t, v) && Sendable(v)
    ensures t.Vector? ==>
              var w := Enc(t, v);
              w.WArray? && w.elemSig == Sig(t.elem) && |w.items| == |v.elems| &&
              forall i | 0 <= i < |v.elems| ::
                HasType(t.elem, v.elems[i]) && Sendable(v.elems[i]) && w.items[i] == Enc(t.elem, v.elems[i])
    ensures t.Map? ==>
              var w, e := Enc(t, v), Pair(t.key, t.value);
              w.WArray? && w.elemSig == Sig(e) && |w.items| == |v.entries| &&
              forall i | 0 <= i < |v.entries| ::
                HasType(e, v.entries[i]) && Sendable(v.entries[i]) && w.items[i] == Enc(e, v.entries[i])
    ensures t.Tuple? || t.Struct? ==>
              var w, ts := Enc(t, v), if t.Tuple? then t.elems else t.fields;
              w.WStruct? && |w.items| == |v.fields| == Length(ts) &&
              forall i | 0 <= i < |v.fields| ::
                HasType(At(ts, i), v.fields[i]) && Sendable(v.fields[i]) && w.items[i] == Enc(At(ts, i), v.fields[i])
    ensures t.Pair? ==> Enc(t, v) == WEntry([Enc(t.first, v.first), Enc(t.second, v.second)])
    ensures t.Variant? ==>
              var u := At(t.alts, v.index);
              Enc(t, v) == WVariant(Sig(u), [Enc(u, v.content)])
  {
    match t
    case Vector(e) =>
      forall i | 0 <= i < |v.elems|
        ensures HasType(e, v.elems[i]) && Sendable(v.elems[i]) && EncAll(e, v.elems)[i] == Enc(e, v.elems[i])
      {
        ElementInPlace(e, v.elems, i);
      }
    case Map(k, x) =>
      forall i | 0 <= i < |v.entries|
        ensures HasType(Pair(k, x), v.entries[i]) && Sendable(v.entries[i])
        ensures EncAll(Pair(k, x), v.entries)[i] == Enc(Pair(k, x), v.entries[i])
      {
        ElementInPlace(Pair(k, x), v.entries, i);
      }
    case Tuple(ts) => FieldsInPlace(ts, v.fields);
    case Struct(ts) => FieldsInPlace(ts, v.fields);
    case _ =>
  }

  lemma {:induction false} FieldsInPlace(ts: TypeList, vs: seq<Value>)
    requires HaveTypes(ts, vs) && AllSendable(vs)
    ensures |vs| == Length(ts)
    ensures forall i | 0 <= i < |vs| ::
              HasType(At(ts, i), vs[i]) && Sendable(vs[i]) && EncEach(ts, vs)[i] == Enc(At(ts, i), vs[i])
  {
    assert |EncEach(ts, vs)| == |vs|;
    forall i | 0 <= i < |vs|
      ensures HasType(At(ts, i), vs[i]) && Sendable(vs[i]) && EncEach(ts, vs)[i] == Enc(At(ts, i), vs[i])
    {
      FieldInPlace(ts, vs, i);
    }
  }

  /** When decoding fails the iterator has moved on exactly if a tuple was opened. */
  lemma MovesOnFailure(t: Type, w: Wire)
    requires Dec(t, w).Failed?
    ensures Dec(t, w).advanced <==> t.Tuple? && w.WStruct?
  {
  }

  // ----- the order of maps -----

  /** The order of texts: at the first difference the smaller character, or the text that ends there. */
  lemma {:induction false} TextOrder(a: string, b: string)
    ensures TextLess(a, b) <==>
            exists k | 0 <= k <= |a| && k < |b| :: a[..k] == b[..k] && (k == |a| || a[k] < b[k])
  {
    if a != "" && b != "" && a[0] == b[0] {
      TextOrder(a[1..], b[1..]);
      if TextLess(a, b) {
        var k :| 0 <= k <= |a[1..]| && k < |b[1..]| && a[1..][..k] == b[1..][..k] && (k == |a[1..]| || a[1..][k] < b[1..][k]);
        assert a[..k + 1] == [a[0]] + a[1..][..k] && b[..k + 1] == [b[0]] + b[1..][..k];
      }
      if k: nat :| k <= |a| && k < |b| && a[..k] == b[..k] && (k == |a| || a[k] < b[k]) {
        assert k > 0;
        assert a[1..][..k - 1] == a[..k][1..] && b[1..][..k - 1] == b[..k][1..];
      }
    } else if a != "" && b != "" {
      assert forall k | 0 < k <= |a| && k <= |b| :: a[..k][0] == a[0] && b[..k][0] == b[0];
      assert a[..0] == b[..0];
    } else if b != "" {
      assert a[..0] == b[..0];
    }
  }

  /** The keys of a map ascend: as numbers, or as texts in the order above. */
  lemma {:induction false} KeysAscend(k: Type, x: Type, v: Value, i: nat, j: nat)
    requires HasType(Map(k, x), v) && i < j < |v.entries|
    ensures v.entries[i].PairV? && v.entries[j].PairV?
    ensures var a, b := v.entries[i].first, v.entries[j].first;
            match k
            case Basic(p) => if p.Double? then a.Dbl? && b.Dbl? && a.r < b.r else a.Num? && b.Num? && a.n < b.n
            case Str =>
              a.Text? && b.Text? &&
              exists n | 0 <= n <= |a.s| && n < |b.s| ::
                a.s[..n] == b.s[..n] && (n == |a.s| || a.s[n] < b.s[n])
            case _ => false
  {
    EntryTyped(Pair(k, x), v.entries, i);
    EntryTyped(Pair(k, x), v.entries, j);
    assert Less(Key(v.entries[i]), Key(v.entries[j]));
    if k.Str? {
      TextOrder(v.entries[i].first.s, v.entries[j].first.s);
    }
  }

  lemma {:induction false} EntryTyped(t: Type, vs: seq<Value>, i: nat)
    requires AllHaveType(t, vs) && i < |vs|
    ensures HasType(t, vs[i])
  {
    if i > 0 {
      EntryTyped(t, vs[1..], i - 1);
    }
  }

  /** So do the keys of whatever decodes as a map. */
  lemma DecodedKeysAscend(p: Pod, x: Type, w: Wire, i: nat, j: nat)
    requires !p.Double? && Valid(x) && WellFormed(w) && Dec(Map(Basic(p), x), w).Ok?
    requires i < j < |Dec(Map(Basic(p), x), w).value.entries|
    ensures var es := Dec(Map(Basic(p), x), w).value.entries;
            es[i].PairV? && es[j].PairV? && es[i].first.Num? && es[j].first.Num? && es[i].first.n < es[j].first.n
  {
    DecodesTyped(Map(Basic(p), x), w);
    KeysAscend(Basic(p), x, Dec(Map(Basic(p), x), w).value, i, j);
  }
}
