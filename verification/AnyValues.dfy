/** Any: what is and as answer before and after a trip over the bus, and variant dispatch. */
module AnyValues {
  import opened Types
  import opened Signatures
  import opened Codec
  import opened CodecTheorems
  import opened CodecImpl

  /** is<U>: the C++ type decides before sending, the wire signature afterwards. */
  predicate Is(u: Type, a: Value) {
    match a
    case AnyLocal(t, _) => t == u
    case AnyReceived(sig, _) => Sig(u) == sig
    case _ => false
  }

  datatype Extracted = Got(value: Value) | WrongType | NoType | DecodeFailed | Crashed

  /** as<U>. */
  function As(u: Type, a: Value): Extracted {
    match a
    case AnyLocal(t, x) => if t == u then Got(x) else WrongType
    case AnyReceived(sig, items) =>
      if Sig(u) != sig then WrongType
      else
        (match DecHead(u, items)
         case Ok(x) => Got(x)
         case Failed(_) => DecodeFailed
         case Aborted => Crashed)
    case _ => NoType
  }

  /**
    ExtractionVisitor: decodes from a copy of the stored iterator. The stored iterator is
    not moved, so extraction gives the same answer every time.
   */
  method Extract(u: Type, sig: string, stored: Reader) returns (r: Extracted)
    requires stored.Valid()
    ensures r == As(u, AnyReceived(sig, stored.Rest()))
  {
    if Sig(u) != sig {
      return WrongType;
    }
    var copy := new Reader(stored.items);
    copy.pos := stored.pos;
    var d := Decode(u, copy);
    match d {
      case Ok(x) => return Got(x);
      case Failed(_) => return DecodeFailed;
      case Aborted => return Crashed;
    }
  }

  /** Before a send, is holds for the held type only, and as gives back the held value or refuses. */
  lemma AnyBeforeTrip(t: Type, x: Value, u: Type)
    ensures Is(u, AnyLocal(t, x)) <==> u == t
    ensures u == t ==> As(u, AnyLocal(t, x)) == Got(x)
    ensures u != t ==> As(u, AnyLocal(t, x)) == WrongType
    ensures !Is(u, AnyEmpty) && As(u, AnyEmpty) == NoType
  {
  }

  /** The Any the receiver holds after the sender put a value of type t into one. */
  function Received(t: Type, x: Value): Result<Value>
    requires Valid(t) && HasType(t, x) && Sendable(x)
  {
    Dec(AnyType, Enc(AnyType, AnyLocal(t, x)))
  }

  lemma ReceivedContent(t: Type, x: Value)
    requires Valid(t) && HasType(t, x) && Sendable(x)
    ensures Received(t, x) == Ok(AnyReceived(Sig(t), [Enc(t, x)]))
  {
    var w := Enc(AnyType, AnyLocal(t, x));
    assert w == WVariant(Sig(t), [Enc(t, x)]);
  }

  /**
    After the trip is<U> holds exactly for the types with the sent type's wire form, and
    as of the sent type gives the sent value exactly when that value can make the trip.
   */
  lemma AnyAfterTrip(t: Type, x: Value, u: Type)
    requires Valid(t) && HasType(t, x) && Sendable(x)
    ensures Received(t, x).Ok?
    ensures Is(u, Received(t, x).value) <==> Erase(u) == Erase(t)
    ensures As(t, Received(t, x).value) == Got(Arrive(x)) <==> Faithful(t, x)
    ensures Erase(u) != Erase(t) ==> As(u, Received(t, x).value) == WrongType
  {
    ReceivedContent(t, x);
    UniqueReadability(u, t);
    RoundTripExactly(t, x);
  }

  /** Reading a received Any as any type of the same wire form never throws a decoder error. */
  lemma AnyReadAsTwin(t: Type, x: Value, u: Type)
    requires Valid(t) && HasType(t, x) && Sendable(x) && Erase(u) == Erase(t)
    ensures As(u, Received(t, x).value).Got? || As(u, Received(t, x).value).Crashed?
    ensures VariantFree(u) ==> As(u, Received(t, x).value).Got?
  {
    ReceivedContent(t, x);
    UniqueReadability(u, t);
    EncodesWellSigned(t, x);
    DecodesWellSigned(u, Enc(t, x));
  }

  /** A variant decodes as the first alternative with the wire signature, and asserts when there is none. */
  lemma VariantDispatch(ts: TypeList, w: Wire)
    requires w.WVariant? && WellFormed(w)
    ensures forall i | 0 <= i < Length(ts) && FirstOfItsSig(ts, i) && Sig(At(ts, i)) == w.sig ::
              Dec(Variant(ts), w) == Chosen(i, Dec(At(ts, i), w.items[0]))
    ensures (forall i | 0 <= i < Length(ts) :: Sig(At(ts, i)) != w.sig) ==> Dec(Variant(ts), w) == Aborted
  {
    forall i | 0 <= i < Length(ts) && FirstOfItsSig(ts, i) && Sig(At(ts, i)) == w.sig
      ensures Dec(Variant(ts), w) == Chosen(i, Dec(At(ts, i), w.items[0]))
    {
      FindsAlternative(ts, 0, i, w.items);
    }
    if forall i | 0 <= i < Length(ts) :: Sig(At(ts, i)) != w.sig {
      NoAlternative(ts, 0, w.sig, w.items);
    }
  }

  lemma {:induction false} NoAlternative(ts: TypeList, base: nat, sig: string, ws: seq<Wire>)
    requires forall i | 0 <= i < Length(ts) :: Sig(At(ts, i)) != sig
    ensures DecAlt(ts, base, sig, ws) == Aborted
    decreases ts
  {
    if ts.TypeList? {
      assert At(ts, 0) == ts.head;
      forall i | 0 <= i < Length(ts.tail) ensures Sig(At(ts.tail, i)) != sig {
        assert At(ts, i + 1) == At(ts.tail, i);
      }
      NoAlternative(ts.tail, base + 1, sig, ws);
    }
  }
}
