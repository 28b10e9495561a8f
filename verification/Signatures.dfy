/**
  Unique readability of D-Bus signatures: a type signature is never a proper prefix of
  another, and it determines the type up to the identifications the codecs make.
 */
module Signatures {
  import opened Wrappers
  import opened Types

  /** Reads one complete type off the front of a signature and returns what follows it. */
  function Scan(s: string): (r: Option<string>)
    ensures r.Some? ==> |r.value| < |s|
    decreases |s|, 0
  {
    if s == "" then None
    else if s[0] in "ynqiuxtdsv" then Some(s[1..])
    else if s[0] == ARRAY then Scan(s[1..])
    else if s[0] == '(' then ScanUntil(s[1..], ')')
    else if s[0] == '{' then ScanUntil(s[1..], '}')
    else None
  }

  /** Reads complete types up to and including a closing bracket. */
  function ScanUntil(s: string, close: char): (r: Option<string>)
    ensures r.Some? ==> |r.value| < |s|
    decreases |s|, 1
  {
    if s == "" then None
    else if s[0] == close then Some(s[1..])
    else
      match Scan(s)
      case None => None
      case Some(rest) => ScanUntil(rest, close)
  }

  lemma ScanBasic(c: char, rest: string)
    requires c in "ynqiuxtdsv"
    ensures Scan([c] + rest) == Some(rest)
  {
    assert ([c] + rest)[1..] == rest;
  }

  lemma ScanGroup(open: char, inner: string, close: char, rest: string)
    requires (open == '(' && close == ')') || (open == '{' && close == '}')
    requires ScanUntil(inner + [close] + rest, close) == Some(rest)
    ensures Scan([open] + inner + [close] + rest) == Some(rest)
  {
    assert ([open] + inner + [close] + rest)[1..] == inner + [close] + rest;
  }

  lemma {:induction false} ScanSig(t: Type, rest: string)
    ensures Scan(Sig(t) + rest) == Some(rest)
    decreases t, 1
  {
    match t
    case Basic(p) => ScanBasic(TypeCode(p), rest);
    case Str => ScanBasic(STRING, rest);
    case Vector(e) =>
      ScanSig(e, rest);
      ScanElement(Sig(e), rest);
    case Map(k, v) =>
      ScanEntry(t, k, v, rest);
      ScanElement("{" + Sig(k) + Sig(v) + "}", rest);
    case Pair(k, v) => ScanEntry(t, k, v, rest);
    case Tuple(ts) =>
      ScanSigList(ts, ')', rest);
      ScanGroup('(', SigList(ts), ')', rest);
    case Struct(ts) =>
      ScanSigList(ts, ')', rest);
      ScanGroup('(', SigList(ts), ')', rest);
    case Variant(_) => ScanBasic(VARIANT, rest);
    case AnyType => ScanBasic(VARIANT, rest);
  }

  lemma ScanElement(elem: string, rest: string)
    requires Scan(elem + rest) == Some(rest)
    ensures Scan([ARRAY] + elem + rest) == Some(rest)
  {
    assert ([ARRAY] + elem + rest)[1..] == elem + rest;
  }

  lemma {:induction false} ScanEntry(parent: Type, k: Type, v: Type, rest: string)
    requires k < parent && v < parent
    ensures Scan("{" + Sig(k) + Sig(v) + "}" + rest) == Some(rest)
    decreases parent, 0
  {
    var tail := ['}'] + rest;
    ScanSig(k, Sig(v) + tail);
    ScanSig(v, tail);
    ScanTwo(Sig(k) + (Sig(v) + tail), Sig(v) + tail, tail, rest);
    var inner := Sig(k) + Sig(v);
    assert inner + ['}'] + rest == Sig(k) + (Sig(v) + tail);
    ScanGroup('{', inner, '}', rest);
    assert "{" + Sig(k) + Sig(v) + "}" + rest == ['{'] + inner + ['}'] + rest;
  }

  /** Two complete types and a closing brace: what is left after each. */
  lemma ScanTwo(s: string, second: string, brace: string, rest: string)
    requires s != "" && s[0] != '}' && Scan(s) == Some(second)
    requires second != "" && second[0] != '}' && Scan(second) == Some(brace)
    requires brace == ['}'] + rest
    ensures ScanUntil(s, '}') == Some(rest)
  {
    assert brace[1..] == rest;
    ScanOne(second, '}', brace);
    ScanOne(s, '}', second);
  }

  lemma ScanOne(s: string, close: char, behind: string)
    requires s != "" && s[0] != close && Scan(s) == Some(behind)
    ensures ScanUntil(s, close) == ScanUntil(behind, close)
  {
  }

  lemma {:induction false} ScanSigList(ts: TypeList, close: char, rest: string)
    requires close == ')' || close == '}'
    ensures ScanUntil(SigList(ts) + [close] + rest, close) == Some(rest)
  {
    if ts.NilType? {
      assert (SigList(ts) + [close] + rest)[1..] == rest;
    } else {
      var tail := SigList(ts.tail) + [close] + rest;
      assert SigList(ts) + [close] + rest == Sig(ts.head) + tail;
      ScanSig(ts.head, tail);
      ScanSigList(ts.tail, close, rest);
    }
  }

  /** Concatenated signatures split one way only; in particular no signature is a proper prefix of another. */
  lemma {:induction false} PrefixFree(t: Type, u: Type, rest: string, rest': string)
    requires Sig(t) + rest == Sig(u) + rest'
    ensures Sig(t) == Sig(u) && rest == rest'
  {
    ScanSig(t, rest);
    ScanSig(u, rest');
    var whole := Sig(t) + rest;
    assert Sig(t) == whole[..|whole| - |rest|];
    assert Sig(u) == whole[..|whole| - |rest'|];
  }

  /** What remains of a type on the wire. */
  datatype WireType =
    | WtBasic(code: char)
    | WtArray(elem: WireType)
    | WtEntry(key: WireType, value: WireType)
    | WtStruct(fields: seq<WireType>)
    | WtVariant

  /** Forgets int8/uint8, enum/int32, tuple/struct, map/vector-of-pair and variant/Any. */
  function Erase(t: Type): WireType {
    match t
    case Basic(p) => WtBasic(TypeCode(p))
    case Str => WtBasic(STRING)
    case Vector(e) => WtArray(Erase(e))
    case Map(k, v) => WtArray(WtEntry(Erase(k), Erase(v)))
    case Pair(k, v) => WtEntry(Erase(k), Erase(v))
    case Tuple(ts) => WtStruct(EraseList(ts))
    case Struct(ts) => WtStruct(EraseList(ts))
    case Variant(_) => WtVariant
    case AnyType => WtVariant
  }

  function EraseList(ts: TypeList): seq<WireType> {
    if ts.NilType? then [] else [Erase(ts.head)] + EraseList(ts.tail)
  }

  /** The signature text of a wire type. */
  function Print(w: WireType): string
    decreases w, 1
  {
    match w
    case WtBasic(c) => [c]
    case WtArray(e) => [ARRAY] + Print(e)
    case WtEntry(k, v) => "{" + Print(k) + Print(v) + "}"
    case WtStruct(fs) => "(" + PrintAll(fs) + ")"
    case WtVariant => [VARIANT]
  }

  function PrintAll(ws: seq<WireType>): string
    decreases ws, 0
  {
    if ws == [] then "" else Print(ws[0]) + PrintAll(ws[1..])
  }

  /** A signature depends on nothing but the wire type. */
  lemma {:induction false} SigIsPrint(t: Type)
    ensures Sig(t) == Print(Erase(t))
  {
    match t
    case Basic(_) =>
    case Str =>
    case Vector(e) => SigIsPrint(e);
    case Map(k, v) => SigIsPrint(k); SigIsPrint(v);
    case Pair(k, v) => SigIsPrint(k); SigIsPrint(v);
    case Tuple(ts) => SigListIsPrint(ts);
    case Struct(ts) => SigListIsPrint(ts);
    case Variant(_) =>
    case AnyType =>
  }

  lemma {:induction false} SigListIsPrint(ts: TypeList)
    ensures SigList(ts) == PrintAll(EraseList(ts))
  {
    if ts.TypeList? {
      SigIsPrint(ts.head);
      SigListIsPrint(ts.tail);
      assert EraseList(ts)[1..] == EraseList(ts.tail);
    }
  }

  /** Equal signatures mean equal wire types. */
  lemma {:induction false} SigDeterminesWireType(t: Type, u: Type)
    requires Sig(t) == Sig(u)
    ensures Erase(t) == Erase(u)
    decreases t, 1
  {
    assert Sig(t)[1..] == Sig(u)[1..];
    match t
    case Basic(_) =>
    case Str =>
    case Variant(_) =>
    case AnyType =>
    case Vector(e) =>
      assert Sig(t)[1..] == Sig(e);
      if u.Vector? {
        assert Sig(u)[1..] == Sig(u.elem);
        SigDeterminesWireType(e, u.elem);
      } else {
        assert u.Map?;
        assert Sig(u)[1..] == "{" + Sig(u.key) + Sig(u.value) + "}";
        assert Sig(e) == Sig(Pair(u.key, u.value));
        SigDeterminesWireType(e, Pair(u.key, u.value));
      }
    case Map(k, v) =>
      assert Sig(t)[1..] == "{" + Sig(k) + Sig(v) + "}";
      if u.Vector? {
        assert Sig(u)[1..] == Sig(u.elem);
        EntrySigDetermines(t, k, v, u.elem);
      } else {
        assert u.Map?;
        assert Sig(u)[1..] == "{" + Sig(u.key) + Sig(u.value) + "}";
        EntrySigDetermines(t, k, v, Pair(u.key, u.value));
      }
    case Pair(k, v) =>
      EntrySigDetermines(t, k, v, u);
    case Tuple(ts) => StructSigDetermines(t, ts, u);
    case Struct(ts) => StructSigDetermines(t, ts, u);
  }

  lemma {:induction false} StructSigDetermines(parent: Type, ts: TypeList, u: Type)
    requires ts < parent && "(" + SigList(ts) + ")" == Sig(u)
    ensures WtStruct(EraseList(ts)) == Erase(u)
    decreases parent, 0
  {
    assert Sig(u)[0] == '(';
    var us := if u.Tuple? then u.elems else u.fields;
    assert SigList(ts) == ("(" + SigList(ts) + ")")[1..|SigList(ts)| + 1];
    assert SigList(us) == Sig(u)[1..|Sig(u)| - 1];
    SigListDetermines(ts, us);
  }

  lemma Unbrace(a: string, b: string)
    ensures ("{" + a + b + "}")[1..] == a + (b + "}")
  {
  }

  /** Entry signatures cancel from the front: keys agree, then values agree. */
  lemma {:induction false} EntrySigSplits(k: Type, v: Type, k': Type, v': Type)
    requires "{" + Sig(k) + Sig(v) + "}" == "{" + Sig(k') + Sig(v') + "}"
    ensures Sig(k) == Sig(k') && Sig(v) == Sig(v')
  {
    Unbrace(Sig(k), Sig(v));
    Unbrace(Sig(k'), Sig(v'));
    PrefixFree(k, k', Sig(v) + "}", Sig(v') + "}");
    PrefixFree(v, v', "}", "}");
  }

  lemma {:induction false} EntrySigDetermines(parent: Type, k: Type, v: Type, u: Type)
    requires k < parent && v < parent
    requires "{" + Sig(k) + Sig(v) + "}" == Sig(u)
    ensures WtEntry(Erase(k), Erase(v)) == Erase(u)
    decreases parent, 0
  {
    assert Sig(u)[0] == '{';
    EntrySigSplits(k, v, u.first, u.second);
    SigDeterminesWireType(k, u.first);
    SigDeterminesWireType(v, u.second);
  }

  lemma {:induction false} SigListDetermines(ts: TypeList, us: TypeList)
    requires SigList(ts) == SigList(us)
    ensures EraseList(ts) == EraseList(us)
  {
    if ts.TypeList? {
      assert us.TypeList?;
      PrefixFree(ts.head, us.head, SigList(ts.tail), SigList(us.tail));
      SigDeterminesWireType(ts.head, us.head);
      SigListDetermines(ts.tail, us.tail);
    }
  }

  /** Equal signatures exactly when the types agree up to the codecs' identifications. */
  lemma UniqueReadability(t: Type, u: Type)
    ensures Sig(t) == Sig(u) <==> Erase(t) == Erase(u)
  {
    if Sig(t) == Sig(u) {
      SigDeterminesWireType(t, u);
    }
    SigIsPrint(t);
    SigIsPrint(u);
  }

  /**
    The messages libdbus lets exist: array elements have the array's element signature,
    a variant holds one value of its signature, and strings are free of NULs.
   */
  predicate WellFormed(w: Wire) {
    match w
    case WNum(c, n) => CodeRange(c, n)
    case WDouble(_) => true
    case WString(s) => '\0' !in s
    case WArray(es, items) =>
      Scan(es) == Some("") && forall x | x in items :: WellFormed(x) && WireSig(x) == es
    case WEntry(items) => |items| == 2 && forall x | x in items :: WellFormed(x)
    case WStruct(items) => items != [] && forall x | x in items :: WellFormed(x)
    case WVariant(sig, items) => |items| == 1 && WellFormed(items[0]) && WireSig(items[0]) == sig
  }

  lemma {:induction false} ScanExtends(s: string, rest: string)
    requires Scan(s).Some?
    ensures Scan(s + rest) == Some(Scan(s).value + rest)
    decreases |s|, 0
  {
    assert (s + rest)[1..] == s[1..] + rest;
    if s[0] in "ynqiuxtdsv" {
    } else if s[0] == ARRAY {
      ScanExtends(s[1..], rest);
    } else if s[0] == '(' {
      ScanUntilExtends(s[1..], ')', rest);
    } else {
      ScanUntilExtends(s[1..], '}', rest);
    }
  }

  lemma {:induction false} ScanUntilExtends(s: string, close: char, rest: string)
    requires ScanUntil(s, close).Some?
    ensures ScanUntil(s + rest, close) == Some(ScanUntil(s, close).value + rest)
    decreases |s|, 1
  {
    if s[0] == close {
      assert (s + rest)[1..] == s[1..] + rest;
    } else {
      ScanExtends(s, rest);
      ScanUntilExtends(Scan(s).value, close, rest);
    }
  }

  /** The signature of a message value reads back as one complete type. */
  lemma {:induction false} ScanWire(w: Wire, rest: string)
    requires WellFormed(w)
    ensures Scan(WireSig(w) + rest) == Some(rest)
    ensures |WireSig(w)| > 0 && WireSig(w)[0] != ')' && WireSig(w)[0] != '}'
    decreases w, 1
  {
    match w
    case WNum(c, n) => ScanBasic(c, rest);
    case WDouble(_) => ScanBasic(DOUBLE, rest);
    case WString(_) => ScanBasic(STRING, rest);
    case WVariant(_, _) => ScanBasic(VARIANT, rest);
    case WArray(es, _) => ScanArray(es, rest);
    case WEntry(items) =>
      ScanWires(items, '}', rest);
      ScanGroup('{', WireSigs(items), '}', rest);
    case WStruct(items) =>
      ScanWires(items, ')', rest);
      ScanGroup('(', WireSigs(items), ')', rest);
  }

  lemma ScanArray(es: string, rest: string)
    requires Scan(es) == Some("")
    ensures Scan([ARRAY] + es + rest) == Some(rest)
  {
    ScanExtends(es, rest);
    assert "" + rest == rest;
    ScanBehindArray(es + rest);
    assert [ARRAY] + es + rest == [ARRAY] + (es + rest);
  }

  lemma ScanBehindArray(s: string)
    ensures Scan([ARRAY] + s) == Scan(s)
  {
    assert ([ARRAY] + s)[1..] == s;
  }

  lemma {:induction false} ScanWires(ws: seq<Wire>, close: char, rest: string)
    requires forall x | x in ws :: WellFormed(x)
    requires close == ')' || close == '}'
    ensures ScanUntil(WireSigs(ws) + [close] + rest, close) == Some(rest)
    decreases ws, 0
  {
    if ws == [] {
      assert (WireSigs(ws) + [close] + rest)[1..] == rest;
    } else {
      var tail := WireSigs(ws[1..]) + [close] + rest;
      assert WireSigs(ws) + [close] + rest == WireSig(ws[0]) + tail;
      ScanWire(ws[0], tail);
      ScanWires(ws[1..], close, rest);
    }
  }

  /** A message value and a type with the same signature start: they agree on it, and on what follows. */
  lemma {:induction false} WirePrefixFree(w: Wire, t: Type, rest: string, rest': string)
    requires WellFormed(w)
    requires WireSig(w) + rest == Sig(t) + rest'
    ensures WireSig(w) == Sig(t) && rest == rest'
  {
    ScanWire(w, rest);
    ScanSig(t, rest');
    var whole := WireSig(w) + rest;
    assert WireSig(w) == whole[..|whole| - |rest|];
    assert Sig(t) == whole[..|whole| - |rest'|];
  }
}
