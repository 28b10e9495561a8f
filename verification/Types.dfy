/**
  The C++ types that can cross the bus, deeply embedded, their D-Bus signatures,
  and the tree-shaped message values that libdbus iterators walk over.
 */
module Types {

  /** Arithmetic types with a type code, plus 32-bit enums. */
  datatype Pod = Int8 | UInt8 | Int16 | UInt16 | Int32 | UInt32 | Int64 | UInt64 | Double | Enum

  datatype Type =
    | Basic(pod: Pod)
    | Str
    | Vector(elem: Type)
    | Map(key: Type, value: Type)
    | Pair(first: Type, second: Type)
    | Tuple(elems: TypeList)
    | Struct(fields: TypeList)
    | Variant(alts: TypeList)
    | AnyType

  /** A typelist: cons cells ended by NilType. */
  datatype TypeList = NilType | TypeList(head: Type, tail: TypeList)

  function Length(ts: TypeList): nat {
    if ts.NilType? then 0 else 1 + Length(ts.tail)
  }

  function At(ts: TypeList, i: nat): Type
    requires i < Length(ts)
  {
    if i == 0 then ts.head else At(ts.tail, i - 1)
  }

  /** The first and the last type codes of libdbus containers. */
  const INVALID := '\0'
  const ARRAY := 'a'
  const STRUCT := 'r'
  const DICT_ENTRY := 'e'
  const VARIANT := 'v'
  const STRING := 's'
  const DOUBLE := 'd'

  /** Type code table. int8 shares the byte code with uint8, enums share int32's. */
  function TypeCode(p: Pod): char {
    match p
    case Int8 => 'y'
    case UInt8 => 'y'
    case Int16 => 'n'
    case UInt16 => 'q'
    case Int32 => 'i'
    case UInt32 => 'u'
    case Int64 => 'x'
    case UInt64 => 't'
    case Double => DOUBLE
    case Enum => 'i'
  }

  /** make_type_signature for one type. */
  function Sig(t: Type): (s: string)
    ensures |s| > 0 && s[0] != ')' && s[0] != '}'
  {
    match t
    case Basic(p) => [TypeCode(p)]
    case Str => [STRING]
    case Vector(e) => [ARRAY] + Sig(e)
    case Map(k, v) => [ARRAY] + ("{" + Sig(k) + Sig(v) + "}")
    case Pair(f, s) => "{" + Sig(f) + Sig(s) + "}"
    case Tuple(ts) => "(" + SigList(ts) + ")"
    case Struct(ts) => "(" + SigList(ts) + ")"
    case Variant(_) => [VARIANT]
    case AnyType => [VARIANT]
  }

  /** The signatures of a type pack, one after the other. */
  function SigList(ts: TypeList): string {
    if ts.NilType? then "" else Sig(ts.head) + SigList(ts.tail)
  }

  /** The type codes of the integers. */
  type NumCode = c: char | c in "ynqiuxt" witness 'y'

  /** A message value as a libdbus iterator sees it. */
  datatype Wire =
    | WNum(code: NumCode, n: int)
    | WDouble(r: real)
    | WString(s: string)
    | WArray(elemSig: string, items: seq<Wire>)
    | WEntry(items: seq<Wire>)
    | WStruct(items: seq<Wire>)
    | WVariant(sig: string, items: seq<Wire>)
  {
    /** dbus_message_iter_get_arg_type on an iterator standing on this value. */
    function ArgType(): char {
      match this
      case WNum(c, _) => c
      case WDouble(_) => DOUBLE
      case WString(_) => STRING
      case WArray(_, _) => ARRAY
      case WEntry(_) => DICT_ENTRY
      case WStruct(_) => STRUCT
      case WVariant(_, _) => VARIANT
    }
  }

  /** The signature of a message value. */
  function WireSig(w: Wire): string
    decreases w, 1
  {
    match w
    case WNum(c, _) => [c]
    case WDouble(_) => [DOUBLE]
    case WString(_) => [STRING]
    case WArray(es, _) => [ARRAY] + es
    case WEntry(items) => "{" + WireSigs(items) + "}"
    case WStruct(items) => "(" + WireSigs(items) + ")"
    case WVariant(_, _) => [VARIANT]
  }

  function WireSigs(ws: seq<Wire>): string
    decreases ws, 0
  {
    if ws == [] then "" else WireSig(ws[0]) + WireSigs(ws[1..])
  }

  /** The integers a numeric type code can carry, by the D-Bus type system. */
  predicate CodeRange(code: char, n: int) {
    match code
    case 'y' => 0 <= n < 0x100
    case 'n' => -0x8000 <= n < 0x8000
    case 'q' => 0 <= n < 0x1_0000
    case 'i' => -0x8000_0000 <= n < 0x8000_0000
    case 'u' => 0 <= n < 0x1_0000_0000
    case 'x' => -0x8000_0000_0000_0000 <= n < 0x8000_0000_0000_0000
    case 't' => 0 <= n < 0x1_0000_0000_0000_0000
    case _ => false
  }

  /** The values of a C++ type, by its width and signedness; enums are as wide as int. */
  predicate PodRange(p: Pod, n: int) {
    match p
    case Int8 => -0x80 <= n < 0x80
    case UInt8 => 0 <= n < 0x100
    case Int16 => -0x8000 <= n < 0x8000
    case UInt16 => 0 <= n < 0x1_0000
    case Int32 => -0x8000_0000 <= n < 0x8000_0000
    case UInt32 => 0 <= n < 0x1_0000_0000
    case Int64 => -0x8000_0000_0000_0000 <= n < 0x8000_0000_0000_0000
    case UInt64 => 0 <= n < 0x1_0000_0000_0000_0000
    case Double => false
    case Enum => -0x8000_0000 <= n < 0x8000_0000
  }

  /** Copying the object representation of a value into the wire type and back. */
  function ToWire(p: Pod, n: int): int {
    if p.Int8? && n < 0 then n + 0x100 else n
  }

  function FromWire(p: Pod, n: int): int {
    if p.Int8? && n >= 0x80 then n - 0x100 else n
  }

  /** D-Bus allows only basic types as dictionary keys. */
  predicate IsKeyType(t: Type) {
    t.Basic? || t.Str?
  }

  /** Types that compile and that libdbus accepts: basic keys, no empty pack, dict entries only in arrays. */
  predicate Valid(t: Type)
    decreases t, 0
  {
    match t
    case Basic(_) => true
    case Str => true
    case Vector(e) => ValidElement(e)
    case Map(k, v) => IsKeyType(k) && Valid(v)
    case Pair(_, _) => false
    case Tuple(ts) => ts.TypeList? && ValidList(ts)
    case Struct(ts) => ts.TypeList? && ValidList(ts)
    case Variant(ts) => ts.TypeList? && ValidList(ts)
    case AnyType => true
  }

  /** Valid array elements: a dict entry, or any valid type. */
  predicate ValidElement(t: Type)
    decreases t, 1
  {
    if t.Pair? then IsKeyType(t.first) && Valid(t.second) else Valid(t)
  }

  predicate ValidList(ts: TypeList)
    decreases ts, 0
  {
    ts.TypeList? ==> Valid(ts.head) && ValidList(ts.tail)
  }
}
