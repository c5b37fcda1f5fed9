/**
 * The Arrow type the reader stamps on the variable-size arrays it builds:
 * strings, binaries and lists, each with 32-bit or 64-bit offsets.
 * `Arrow.Column` holds an array's logical content only; this module follows
 * its type alone. That type is what `RecordBatch::try_new`, the struct
 * builder and `GenericListArray::<O>::from` compare with the type they expect.
 */
module ArrayTypes {
  import opened Common
  import opened Arrow

  /** `i32` offsets (List, Utf8, Binary) or `i64` offsets (LargeList, LargeUtf8, LargeBinary). */
  datatype OffsetWidth = Offsets32 | Offsets64

  /** What a variable-size array holds: strings, bytes, or lists of one item field. */
  datatype Layout = Strings | Bytes | Lists(item: Field)

  /** The layout of a variable-size type; absent for every other type. */
  function LayoutOf(dt: DataType): Option<Layout> {
    match dt
    case Utf8 => Some(Strings)
    case LargeUtf8 => Some(Strings)
    case Binary => Some(Bytes)
    case LargeBinary => Some(Bytes)
    case List(f) => Some(Lists(f))
    case LargeList(f) => Some(Lists(f))
    case _ => None
  }

  /** The offset width of a variable-size type; absent for every other type. */
  function WidthOf(dt: DataType): Option<OffsetWidth> {
    match dt
    case Utf8 => Some(Offsets32)
    case Binary => Some(Offsets32)
    case List(_) => Some(Offsets32)
    case LargeUtf8 => Some(Offsets64)
    case LargeBinary => Some(Offsets64)
    case LargeList(_) => Some(Offsets64)
    case _ => None
  }

  /**
   * The type of an array of layout `l` whose offsets have width `w`:
   * `StringArray` is Utf8, `LargeStringArray` is LargeUtf8,
   * `GenericListArray::<i64>` is LargeList, and so on.
   */
  function ArrayType(l: Layout, w: OffsetWidth): (t: DataType)
    ensures LayoutOf(t) == Some(l) && WidthOf(t) == Some(w)
  {
    match (l, w)
    case (Strings, Offsets32) => Utf8
    case (Strings, Offsets64) => LargeUtf8
    case (Bytes, Offsets32) => Binary
    case (Bytes, Offsets64) => LargeBinary
    case (Lists(f), Offsets32) => List(f)
    case (Lists(f), Offsets64) => LargeList(f)
  }

  /**
   * The variable-size types are exactly those with a layout and a width, and
   * each is rebuilt from the two: building with the declared width gives the
   * declared type.
   */
  lemma ArrayTypeOfParts(dt: DataType)
    ensures LayoutOf(dt).Some? <==> WidthOf(dt).Some?
    ensures LayoutOf(dt).Some? ==> ArrayType(LayoutOf(dt).value, WidthOf(dt).value) == dt
  {
  }

  /**
   * The arrow-rs conversion `GenericListArray::<O>::from` (reader.rs:560)
   * accepts list data only when the data's type has O's offset width; on any
   * other type it panics.
   */
  predicate ListArrayAccepts(w: OffsetWidth, t: DataType) {
    LayoutOf(t).Some? && LayoutOf(t).value.Lists? && WidthOf(t) == Some(w)
  }

  /** With the width it is built for, a list array's type passes the conversion. */
  lemma ListArrayTypeAccepted(item: Field, w: OffsetWidth)
    ensures ListArrayAccepts(w, ArrayType(Lists(item), w))
  {
  }

  /**
   * The type the source gives an array of layout `l` when the declared type
   * asks for offsets of width `w`. Strings and bytes of a top-level or struct
   * field are collected into `StringArray` and `BinaryArray` for both widths
   * (reader.rs:643-661), and `build_nested_list_array::<O>` types its list data
   * `List` for both offset sizes (reader.rs:553). Both are always 32-bit types.
   */
  function ArrayTypeAsWritten(l: Layout, w: OffsetWidth): (t: DataType)
    ensures LayoutOf(t) == Some(l) && WidthOf(t) == Some(Offsets32)
  {
    ArrayType(l, Offsets32)
  }

  /**
   * As written, the array built for a variable-size type has the declared type
   * exactly when that type has 32-bit offsets: LargeUtf8, LargeBinary and
   * LargeList come out as Utf8, Binary and List.
   */
  lemma AsWrittenTypeMismatch(dt: DataType)
    requires LayoutOf(dt).Some?
    ensures ArrayTypeAsWritten(LayoutOf(dt).value, WidthOf(dt).value) == dt <==> WidthOf(dt) == Some(Offsets32)
  {
    ArrayTypeOfParts(dt);
  }

  /**
   * As written, the `::<i64>` instantiation for a LargeList item
   * (reader.rs:487-493) always fails the conversion at reader.rs:560, while
   * the `::<i32>` one passes it.
   */
  lemma WideListArrayRejected(item: Field)
    ensures !ListArrayAccepts(Offsets64, ArrayTypeAsWritten(Lists(item), Offsets64))
    ensures ListArrayAccepts(Offsets32, ArrayTypeAsWritten(Lists(item), Offsets32))
  {
  }
}
