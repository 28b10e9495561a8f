/** Which message values decode as which types: decode against a purely structural match. */
module Decodability {
  import opened Types
  import opened Codec
  import opened CodecTheorems

  /**
    The value has the shape the type asks for. An array's declared element signature does not
    matter, so an empty array fits any element type; a struct may go on behind the last field.
   */
  predicate Fits(t: Type, w: Wire)
    decreases w
  {
    match t
    case Basic(p) => if p.Double? then w.WDouble? else w.WNum? && w.code == TypeCode(p)
    case Str => w.WString?
    case Vector(e) => w.WArray? && forall i | 0 <= i < |w.items| :: Fits(e, w.items[i])
    case Map(k, x) => w.WArray? && forall i | 0 <= i < |w.items| :: Fits(Pair(k, x), w.items[i])
    case Pair(k, x) => w.WEntry? && |w.items| >= 2 && Fits(k, w.items[0]) && Fits(x, w.items[1])
    case Tuple(ts) =>
      w.WStruct? && Length(ts) <= |w.items| && forall i | 0 <= i < Length(ts) :: Fits(At(ts, i), w.items[i])
    case Struct(ts) =>
      w.WStruct? && Length(ts) <= |w.items| && forall i | 0 <= i < Length(ts) :: Fits(At(ts, i), w.items[i])
    case Variant(ts) =>
      w.WVariant? && w.items != [] &&
      exists i | 0 <= i < Length(ts) ::
        Sig(At(ts, i)) == w.sig && FirstOfItsSig(ts, i) && Fits(At(ts, i), w.items[0])
    case AnyType => w.WVariant?
  }

  /** Decoding succeeds on exactly the values that fit. */
  lemma {:induction false} DecodesExactly(t: Type, w: Wire)
    ensures Dec(t, w).Ok? <==> Fits(t, w)
    decreases w, 1
  {
    match t
    case Basic(_) =>
    case Str =>
    case AnyType =>
    case Vector(e) => if w.WArray? { DecodesAll(e, w.items); }
    case Map(k, x) => if w.WArray? { DecodesAll(Pair(k, x), w.items); }
    case Pair(k, x) => if w.WEntry? { DecodesPair(k, x, w.items); }
    case Tuple(ts) => if w.WStruct? { DecodesEach(ts, w.items); }
    case Struct(ts) => if w.WStruct? { DecodesEach(ts, w.items); }
    case Variant(ts) => if w.WVariant? { DecodesVariant(ts, w); }
  }

  lemma {:induction false} DecodesVariant(ts: TypeList, w: Wire)
    requires w.WVariant?
    ensures DecAlt(ts, 0, w.sig, w.items).Ok? <==> Fits(Variant(ts), w)
    decreases w, 0
  {
    if DecAlt(ts, 0, w.sig, w.items).Ok? {
      var i := ChosenAlternative(ts, 0, w.sig, w.items);
      DecodesExactly(At(ts, i), w.items[0]);
    }
    if Fits(Variant(ts), w) {
      var i :| 0 <= i < Length(ts) &&
        Sig(At(ts, i)) == w.sig && FirstOfItsSig(ts, i) && Fits(At(ts, i), w.items[0]);
      FindsAlternative(ts, 0, i, w.items);
      DecodesExactly(At(ts, i), w.items[0]);
    }
  }

  lemma {:induction false} DecodesAll(t: Type, ws: seq<Wire>)
    ensures DecAll(t, ws).Ok? <==> forall i | 0 <= i < |ws| :: Fits(t, ws[i])
    decreases ws, 0
  {
    if ws != [] {
      DecodesExactly(t, ws[0]);
      DecodesAll(t, ws[1..]);
      assert forall i | 0 < i < |ws| :: ws[i] == ws[1..][i - 1];
    }
  }

  lemma {:induction false} DecodesEach(ts: TypeList, ws: seq<Wire>)
    ensures DecEach(ts, ws).Ok? <==>
            Length(ts) <= |ws| && forall i | 0 <= i < Length(ts) :: Fits(At(ts, i), ws[i])
    decreases ws, 0
  {
    if ts.TypeList? && ws != [] {
      DecodesExactly(ts.head, ws[0]);
      DecodesEach(ts.tail, ws[1..]);
      assert At(ts, 0) == ts.head;
      assert forall i | 0 < i < Length(ts) :: At(ts, i) == At(ts.tail, i - 1);
      assert forall i | 0 < i < |ws| :: ws[i] == ws[1..][i - 1];
    }
  }

  lemma {:induction false} DecodesPair(k: Type, x: Type, ws: seq<Wire>)
    ensures DecEach(TypeList(k, TypeList(x, NilType)), ws).Ok? <==> |ws| >= 2 && Fits(k, ws[0]) && Fits(x, ws[1])
    decreases ws, 1
  {
    var last := TypeList(x, NilType);
    var ts := TypeList(k, last);
    AtHead(last);
    AtHead(ts);
    assert Length(ts) == 1 + Length(last) && Length(last) == 1 + Length(last.tail);
    AtTail(ts, 1);
    DecodesEach(ts, ws);
  }

  lemma AtHead(ts: TypeList)
    requires ts.TypeList?
    ensures At(ts, 0) == ts.head
  {
  }

  lemma AtTail(ts: TypeList, i: nat)
    requires 0 < i < Length(ts)
    ensures At(ts, i) == At(ts.tail, i - 1)
  {
  }

  /** The two liberties in particular. */
  lemma Liberties(e: Type, sig: string, ts: TypeList, items: seq<Wire>, more: seq<Wire>)
    ensures Dec(Vector(e), WArray(sig, [])) == Ok(List([]))
    ensures Dec(Struct(ts), WStruct(items)).Ok? ==> Dec(Struct(ts), WStruct(items + more)).Ok?
  {
    DecodesExactly(Struct(ts), WStruct(items));
    DecodesExactly(Struct(ts), WStruct(items + more));
  }
}
