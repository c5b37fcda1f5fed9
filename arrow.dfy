/**
 * The Arrow side of the transcoder: the target data types and an abstract
 * view of the arrays the reader builds. An array is kept as its logical
 * content (one optional cell per slot), a list array as its offsets,
 * validity and child array, a struct array as its validity and children.
 * Byte-level buffers and dictionary key assignment are not represented.
 */
module Arrow {
  import opened Common

  datatype TimeUnit = Second | Millisecond | Microsecond | Nanosecond

  /** The eight Arrow integer types and the range of their native values. */
  datatype NativeInt = I8 | I16 | I32 | I64 | U8 | U16 | U32 | U64 {
    function Min(): int {
      match this
      case I8 => -0x80
      case I16 => -0x8000
      case I32 => -0x8000_0000
      case I64 => -0x8000_0000_0000_0000
      case _ => 0
    }

    function Max(): int {
      match this
      case I8 => 0x7F
      case I16 => 0x7FFF
      case I32 => 0x7FFF_FFFF
      case I64 => 0x7FFF_FFFF_FFFF_FFFF
      case U8 => 0xFF
      case U16 => 0xFFFF
      case U32 => 0xFFFF_FFFF
      case U64 => 0xFFFF_FFFF_FFFF_FFFF
    }

    predicate Holds(x: int) {
      Min() <= x <= Max()
    }
  }

  /**
   * Arrow data types. `Int(kind)` stands for Int8 ... UInt64; `Other` for every
   * type the reader does not dispatch on (decimals, intervals, maps, ...).
   */
  datatype DataType =
    | Null
    | Boolean
    | Int(kind: NativeInt)
    | Float16
    | Float32
    | Float64
    | Timestamp(tsUnit: TimeUnit)
    | Date32
    | Date64
    | Time32(t32Unit: TimeUnit)
    | Time64(t64Unit: TimeUnit)
    | Utf8
    | LargeUtf8
    | Binary
    | LargeBinary
    | FixedSizeBinary(width: nat)
    | List(item: Field)
    | LargeList(largeItem: Field)
    | Dictionary(key: DataType, valueType: DataType)
    | Struct(fields: seq<Field>)
    | Other(typeName: string)

  datatype Field = Field(name: string, dataType: DataType, nullable: bool)

  /** The native integer type behind an integer or temporal Arrow type, if any. */
  function NativeOf(dt: DataType): Option<NativeInt> {
    match dt
    case Int(k) => Some(k)
    case Timestamp(_) => Some(I64)
    case Date32 => Some(I32)
    case Date64 => Some(I64)
    case Time32(u) => if u == Second || u == Millisecond then Some(I32) else None
    case Time64(u) => if u == Microsecond || u == Nanosecond then Some(I64) else None
    case _ => None
  }

  /** A number read from an Avro value before it is cast to the target width. */
  datatype Num = IntNum(n: int) | FloatNum(x: real)

  /** The logical content of one Arrow array; `None` is a null slot. */
  datatype Column =
    | NullColumn(length: nat)
    | BoolColumn(bools: seq<Option<bool>>)
    | IntColumn(kind: NativeInt, ints: seq<Option<int>>)
    | FloatColumn(nums: seq<Option<Num>>)
    | StringColumn(strings: seq<Option<string>>)
    | BinaryColumn(blobs: seq<Option<seq<Byte>>>)
    | FixedBinaryColumn(fixedWidth: nat, fixedBlobs: seq<Option<seq<Byte>>>)
    | DictionaryColumn(keyKind: NativeInt, entries: seq<Option<string>>)
    | ListColumn(offsets: seq<nat>, validity: seq<bool>, child: Column)
    | StructColumn(structValidity: seq<bool>, children: seq<Column>)

  /** Number of slots of an array. */
  function Len(c: Column): nat {
    match c
    case NullColumn(n) => n
    case BoolColumn(v) => |v|
    case IntColumn(_, v) => |v|
    case FloatColumn(v) => |v|
    case StringColumn(v) => |v|
    case BinaryColumn(v) => |v|
    case FixedBinaryColumn(_, v) => |v|
    case DictionaryColumn(_, v) => |v|
    case ListColumn(_, validity, _) => |validity|
    case StructColumn(validity, _) => |validity|
  }

  /** Whether slot `i` of an array is null. */
  predicate NullAt(c: Column, i: nat) {
    match c
    case NullColumn(n) => i < n
    case BoolColumn(v) => i < |v| && v[i].None?
    case IntColumn(_, v) => i < |v| && v[i].None?
    case FloatColumn(v) => i < |v| && v[i].None?
    case StringColumn(v) => i < |v| && v[i].None?
    case BinaryColumn(v) => i < |v| && v[i].None?
    case FixedBinaryColumn(_, v) => i < |v| && v[i].None?
    case DictionaryColumn(_, v) => i < |v| && v[i].None?
    case ListColumn(_, validity, _) => i < |validity| && !validity[i]
    case StructColumn(validity, _) => i < |validity| && !validity[i]
  }

  /**
   * The layout rules of the Arrow columnar format: a list array has one more
   * offset than slots, starting at 0, never decreasing and ending at the
   * length of its child; every child of a struct array has one slot per
   * struct slot; a fixed-size binary slot holds exactly `width` bytes.
   */
  predicate WellFormed(c: Column) {
    match c
    case ListColumn(offsets, validity, child) =>
      && |offsets| == |validity| + 1
      && offsets[0] == 0
      && (forall i :: 0 <= i < |validity| ==> offsets[i] <= offsets[i + 1])
      && offsets[|validity|] == Len(child)
      && WellFormed(child)
    case StructColumn(validity, children) =>
      forall i :: 0 <= i < |children| ==> Len(children[i]) == |validity| && WellFormed(children[i])
    case FixedBinaryColumn(width, cells) =>
      forall i :: 0 <= i < |cells| && cells[i].Some? ==> |cells[i].value| == width
    case _ => true
  }

  /** The array a top-level or struct-child field of type `dt` must produce. */
  predicate Conforms(c: Column, dt: DataType)
    decreases dt
  {
    match dt
    case Null => c.NullColumn?
    case Boolean => c.BoolColumn?
    case Float32 => c.FloatColumn?
    case Float64 => c.FloatColumn?
    case Utf8 => c.StringColumn?
    case LargeUtf8 => c.StringColumn?
    case Binary => c.BinaryColumn?
    case LargeBinary => c.BinaryColumn?
    case FixedSizeBinary(w) => c.FixedBinaryColumn? && c.fixedWidth == w
    case List(f) =>
      c.ListColumn? &&
      (if f.dataType.Dictionary? && f.dataType.key.Int?
       then c.child.DictionaryColumn? && c.child.keyKind == f.dataType.key.kind
       else ElementConforms(c.child, f.dataType))
    case Dictionary(key, _) => key.Int? && c.DictionaryColumn? && c.keyKind == key.kind
    case Struct(fs) =>
      c.StructColumn? && |c.children| == |fs| &&
      forall i :: 0 <= i < |fs| ==> Conforms(c.children[i], fs[i].dataType)
    case _ => NativeOf(dt).Some? && c.IntColumn? && c.kind == NativeOf(dt).value
  }

  /** The child array a list whose items have type `dt` must hold. */
  predicate ElementConforms(c: Column, dt: DataType)
    decreases dt
  {
    match dt
    case Null => c.NullColumn?
    case Boolean => c.BoolColumn?
    case Int(k) => c.IntColumn? && c.kind == k
    case Float32 => c.FloatColumn?
    case Float64 => c.FloatColumn?
    case Utf8 => c.StringColumn?
    case LargeUtf8 => c.StringColumn?
    case List(f) => c.ListColumn? && ElementConforms(c.child, f.dataType)
    case LargeList(f) => c.ListColumn? && ElementConforms(c.child, f.dataType)
    case Struct(fs) =>
      c.StructColumn? && |c.children| == |fs| &&
      forall i :: 0 <= i < |fs| ==> Conforms(c.children[i], fs[i].dataType)
    case _ => false
  }

  /**
   * The types `build_struct_array` can build a column for, with the array
   * types corrected: as written, a LargeUtf8 or LargeBinary field gets a
   * 32-bit `StringArray` or `BinaryArray`, which the batch rejects (see
   * `ArrayTypes.AsWrittenTypeMismatch`).
   */
  predicate ColumnSupported(dt: DataType)
    decreases dt
  {
    match dt
    case Null => true
    case Boolean => true
    case Float32 => true
    case Float64 => true
    case Utf8 => true
    case LargeUtf8 => true
    case Binary => true
    case LargeBinary => true
    case FixedSizeBinary(_) => true
    case List(f) =>
      if f.dataType.Dictionary? then f.dataType.key.Int? else ElementSupported(f.dataType)
    case Dictionary(key, value) => key.Int? && value == Utf8
    case Struct(fs) => forall i :: 0 <= i < |fs| ==> ColumnSupported(fs[i].dataType)
    case _ => NativeOf(dt).Some?
  }

  /**
   * The item types `build_nested_list_array` can build a child array for,
   * with the list type corrected: as written, a LargeList item always panics,
   * because its `i64` list data is typed `List` (see
   * `ArrayTypes.WideListArrayRejected`).
   */
  predicate ElementSupported(dt: DataType)
    decreases dt
  {
    match dt
    case Null => true
    case Boolean => true
    case Int(_) => true
    case Float32 => true
    case Float64 => true
    case Utf8 => true
    case LargeUtf8 => true
    case List(f) => ElementSupported(f.dataType)
    case LargeList(f) => ElementSupported(f.dataType)
    case Struct(fs) => forall i :: 0 <= i < |fs| ==> ColumnSupported(fs[i].dataType)
    case _ => false
  }

  /**
   * Why a decode pass fails. The source aborts the process (`panic!`,
   * `unreachable!`, `unimplemented!`) for `ShapeMismatch`, `UnreachableValue`
   * and `Unimplemented`; here they are ordinary error values.
   */
  datatype Error =
    | NotARecord
    | UnsupportedType(dataType: DataType)
    | NestedTypeUnsupported(nestedType: DataType)
    | ShapeMismatch(path: string)
    | StringConversion
    | NotAByte
    | UnreachableValue
    | Unimplemented
    | WidthMismatch(expected: nat)
}
