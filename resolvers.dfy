/**
 * The value resolvers of the Avro reader (crates/arroyo-formats/src/avro/reader.rs):
 * each coerces one Avro value into one scalar of the target kind after
 * unwrapping at most one union layer, answering with the scalar, with
 * "absent" (`None`, a null slot) or with an error.
 */
module Resolvers {
  import opened Common
  import opened Avro
  import opened Arrow
  import Utf8

  /** `maybe_resolve_union`: the value a union carries; any other value as it is. */
  function MaybeResolveUnion(v: Value): (r: Value)
    ensures r == v <==> !v.Union?
    ensures v.Union? ==> r == v.inner
  {
    if v.Union? then assert v.inner < v; v.inner else v
  }

  /**
   * `resolve_string`: strings and enum symbols as they are, bytes when they
   * are well-formed UTF-8, null as absent; every other kind is an error.
   */
  function ResolveString(v: Value): (r: Result<Option<string>, Error>)
    ensures var u := MaybeResolveUnion(v);
      && (r.Ok? <==> u.String? || u.Enum? || u.Null? || (u.Bytes? && Utf8.Decode(u.bytes).Some?))
      && (r == Ok(None) <==> u.Null?)
      && (u.String? ==> r == Ok(Some(u.s)))
      && (u.Enum? ==> r == Ok(Some(u.symbol)))
      && (u.Bytes? && r.Ok? ==> r.value.Some? && Utf8.Encode(r.value.value) == u.bytes)
      && (r.Err? ==> r.error == StringConversion)
  {
    match MaybeResolveUnion(v)
    case String(s) => Ok(Some(s))
    case Bytes(b) =>
      (match Utf8.Decode(b)
       case Some(s) => Utf8.EncodeDecode(b); Ok(Some(s))
       case None => Err(StringConversion))
    case Enum(_, s) => Ok(Some(s))
    case Null => Ok(None)
    case _ => Err(StringConversion)
  }

  /** `n as i32` for an `i64`: the low 32 bits read as a two's-complement number. */
  function WrapToInt32(n: int): (r: Int32)
    ensures (r - n) % 0x1_0000_0000 == 0
  {
    (n + 0x8000_0000) % 0x1_0000_0000 - 0x8000_0000
  }

  /**
   * `resolve_u8`: an `Int` in 0..=255, or a `Long` whose low 32 bits, read as
   * an `i32`, are in 0..=255 -- that is, a `Long` congruent to 0..=255 modulo
   * 2^32. Anything else is an error; unions are not unwrapped.
   */
  function ResolveU8(v: Value): (r: Result<Byte, Error>)
    ensures v.Int? ==> (r.Ok? <==> 0 <= v.i < 256) && (r.Ok? ==> r.value == v.i)
    ensures v.Long? ==> (r.Ok? <==> v.l % 0x1_0000_0000 < 256) && (r.Ok? ==> r.value == v.l % 0x1_0000_0000)
    ensures !v.Int? && !v.Long? ==> r.Err?
  {
    var n: int :- match v
      case Int(n) => Ok(n)
      case Long(n) => Ok(WrapToInt32(n))
      case _ => Err(NotAByte);
    if 0 <= n <= 255 then Ok(n) else Err(NotAByte)
  }

  /** The bytes of an Avro array of small integers, or `None` if any item is not one. */
  function ResolveByteItems(items: seq<Value>): (r: Option<seq<Byte>>)
    ensures r.Some? <==> forall i :: 0 <= i < |items| ==> ResolveU8(items[i]).Ok?
    ensures r.Some? ==> |r.value| == |items|
    ensures r.Some? ==> forall i :: 0 <= i < |items| ==> r.value[i] == ResolveU8(items[i]).value
  {
    if items == [] then Some([])
    else
      match ResolveByteItems(items[..|items| - 1])
      case None => None
      case Some(init) =>
        match ResolveU8(items[|items| - 1])
        case Ok(b) => Some(init + [b])
        case Err(_) => None
  }

  /**
   * `resolve_bytes`: bytes as they are, a string as its UTF-8 encoding, an
   * array as its items when each is a byte; every other kind is absent.
   */
  function ResolveBytes(v: Value): (r: Option<seq<Byte>>)
    ensures var u := MaybeResolveUnion(v);
      && (u.Bytes? ==> r == Some(u.bytes))
      && (u.String? ==> r == Some(Utf8.Encode(u.s)) && Utf8.Decode(r.value) == Some(u.s))
      && (u.Array? ==> (r.Some? <==> forall i :: 0 <= i < |u.items| ==> ResolveU8(u.items[i]).Ok?))
      && (u.Array? && r.Some? ==> |r.value| == |u.items|)
      && (u.Array? && r.Some? ==> forall i :: 0 <= i < |u.items| ==> r.value[i] == ResolveU8(u.items[i]).value)
      && (!u.Bytes? && !u.String? && !u.Array? ==> r.None?)
  {
    match MaybeResolveUnion(v)
    case Bytes(b) => Some(b)
    case String(s) => Utf8.DecodeEncode(s); Some(Utf8.Encode(s))
    case Array(items) => ResolveByteItems(items)
    case _ => None
  }

  /** `resolve_fixed`: the bytes of a fixed value of exactly the declared size; absent otherwise. */
  function ResolveFixed(v: Value, size: nat): (r: Option<seq<Byte>>)
    ensures var u := MaybeResolveUnion(v);
      (r.Some? <==> u.Fixed? && u.size == size) && (r.Some? ==> r.value == u.fixedBytes)
  {
    match MaybeResolveUnion(v)
    case Fixed(n, bytes) => if n == size then Some(bytes) else None
    case _ => None
  }

  /** `resolve_boolean`: a boolean value; every other kind (null included) is absent. */
  function ResolveBoolean(v: Value): (r: Option<bool>)
    ensures var u := MaybeResolveUnion(v); (r.Some? <==> u.Boolean?) && (r.Some? ==> r.value == u.b)
  {
    match MaybeResolveUnion(v)
    case Boolean(b) => Some(b)
    case _ => None
  }

  /** The integer an Avro integer or integer-encoded temporal value carries. */
  function IntegerPayload(u: Value): Option<int> {
    match u
    case Int(i) => Some(i)
    case TimeMillis(i) => Some(i)
    case Date(i) => Some(i)
    case Long(l) => Some(l)
    case TimeMicros(l) => Some(l)
    case TimestampMillis(l) => Some(l)
    case TimestampMicros(l) => Some(l)
    case _ => None
  }

  /**
   * The number the numeric `Resolver` casts, before the cast: null is absent,
   * a duration is `unimplemented!` and every other non-numeric kind is
   * `unreachable!` in the source; both aborts are errors here.
   */
  function NumericSource(v: Value): (r: Result<Option<Num>, Error>)
    ensures var u := MaybeResolveUnion(v);
      && (r == Ok(None) <==> u.Null?)
      && (r.Ok? <==> u.Null? || u.Float? || u.Double? || IntegerPayload(u).Some?)
      && (IntegerPayload(u).Some? ==> r == Ok(Some(IntNum(IntegerPayload(u).value))))
      && (u.Duration? ==> r == Err(Unimplemented))
  {
    var u := MaybeResolveUnion(v);
    match u
    case Float(f) => Ok(Some(FloatNum(f)))
    case Double(d) => Ok(Some(FloatNum(d)))
    case Duration(_, _, _) => Err(Unimplemented)
    case Null => Ok(None)
    case _ =>
      match IntegerPayload(u)
      case Some(n) => Ok(Some(IntNum(n)))
      case None => Err(UnreachableValue)
  }

  /** Rounding toward zero, as a float-to-integer `as` cast does. */
  function Truncate(x: real): (t: int)
    ensures 0.0 <= x ==> t as real <= x < t as real + 1.0
    ensures x < 0.0 ==> t as real - 1.0 < x <= t as real
  {
    if x >= 0.0 then x.Floor else -((-x).Floor)
  }

  /** `NumCast::from` into an integer type: the value when it fits, absent otherwise. */
  function CastTo(n: Num, kind: NativeInt): (r: Option<int>)
    ensures r.Some? ==> kind.Holds(r.value)
    ensures n.IntNum? ==> r == (if kind.Holds(n.n) then Some(n.n) else None)
    ensures n.FloatNum? ==> r == (if kind.Holds(Truncate(n.x)) then Some(Truncate(n.x)) else None)
  {
    var t := match n case IntNum(i) => i case FloatNum(x) => Truncate(x);
    if kind.Holds(t) then Some(t) else None
  }

  /**
   * The numeric `Resolver` for an integer target type: absent for null and
   * for a value outside the target's range, the value itself otherwise.
   */
  function ResolveNumeric(v: Value, kind: NativeInt): (r: Result<Option<int>, Error>)
    ensures r.Ok? <==> NumericSource(v).Ok?
    ensures r.Err? ==> r.error == NumericSource(v).error
    ensures r.Ok? && r.value.Some? ==> kind.Holds(r.value.value)
    ensures MaybeResolveUnion(v).Null? ==> r == Ok(None)
    ensures var p := IntegerPayload(MaybeResolveUnion(v));
      p.Some? ==> r == Ok(if kind.Holds(p.value) then Some(p.value) else None)
    ensures var u := MaybeResolveUnion(v);
      && (u.Float? ==> r == Ok(if kind.Holds(Truncate(u.f)) then Some(Truncate(u.f)) else None))
      && (u.Double? ==> r == Ok(if kind.Holds(Truncate(u.d)) then Some(Truncate(u.d)) else None))
  {
    var n :- NumericSource(v);
    match n
    case None => Ok(None)
    case Some(x) => Ok(CastTo(x, kind))
  }

  /** The resolvers look through one union layer and ignore which branch was taken. */
  lemma UnionIsTransparent(branch: nat, u: Value, size: nat, kind: NativeInt)
    requires !u.Union?
    ensures ResolveString(Union(branch, u)) == ResolveString(u)
    ensures ResolveBytes(Union(branch, u)) == ResolveBytes(u)
    ensures ResolveFixed(Union(branch, u), size) == ResolveFixed(u, size)
    ensures ResolveBoolean(Union(branch, u)) == ResolveBoolean(u)
    ensures ResolveNumeric(Union(branch, u), kind) == ResolveNumeric(u, kind)
  {
  }

  /** A string turned into bytes by `resolve_bytes` reads back unchanged through `resolve_string`. */
  lemma StringBytesRoundTrip(s: string)
    ensures ResolveBytes(String(s)).Some?
    ensures ResolveString(Bytes(ResolveBytes(String(s)).value)) == Ok(Some(s))
  {
  }

  /** Bytes accepted by `resolve_string` turn back into the same bytes through `resolve_bytes`. */
  lemma BytesStringRoundTrip(b: seq<Byte>)
    requires ResolveString(Bytes(b)).Ok?
    ensures ResolveString(Bytes(b)).value.Some?
    ensures ResolveBytes(String(ResolveString(Bytes(b)).value.value)) == Some(b)
  {
  }
}
