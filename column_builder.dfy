/**
 * The recursive column builder of the Avro reader: `build_struct_array`
 * turns a slice of decoded records into one Arrow array per schema field,
 * recursing into struct fields, and `build_nested_list_array` turns the
 * values of a list field into a list array, recursing into list and struct
 * items. Every array is modelled by its logical content (see `Arrow`).
 */
module ColumnBuilder {
  import opened Common
  import opened Avro
  import opened Arrow
  import opened Resolvers
  import opened ListLayout
  import opened FieldAccess
  import opened DictionaryList

  /** The numeric `Resolver` for one integer type, as a value. */
  function NumericResolver(kind: NativeInt): Value -> Result<Option<int>, Error> {
    v => ResolveNumeric(v, kind)
  }

  /** `resolve_bytes` as a resolver that never fails. */
  function BinaryResolver(v: Value): Result<Option<seq<Byte>>, Error> {
    Ok(ResolveBytes(v))
  }

  /** `resolve_fixed` with a declared size, as a resolver that never fails. */
  function FixedResolver(width: nat): Value -> Result<Option<seq<Byte>>, Error> {
    v => Ok(ResolveFixed(v, width))
  }

  /** The cell `build_dictionary_array` appends for one row: a string, or null when none can be read. */
  function DictionaryCell(lookup: FieldLookup, path: string, row: Row): (r: Option<string>)
    ensures lookup(path, row).None? ==> r.None?
    ensures lookup(path, row).Some? ==> r == StringCell(lookup(path, row).value)
  {
    match lookup(path, row)
    case None => None
    case Some(v) => StringCell(v)
  }

  /** The dictionary cells of a column, one per row; unreadable values become nulls, never errors. */
  function DictionaryCells(lookup: FieldLookup, path: string, rows: seq<Row>): (r: seq<Option<string>>)
    ensures |r| == |rows|
    ensures forall i :: 0 <= i < |rows| ==> r[i] == DictionaryCell(lookup, path, rows[i])
  {
    seq(|rows|, i requires 0 <= i < |rows| => DictionaryCell(lookup, path, rows[i]))
  }

  /** Whether some present cell of a fixed-size binary column has another length than declared. */
  predicate WidthViolated(cells: seq<Option<seq<Byte>>>, width: nat) {
    exists i :: 0 <= i < |cells| && cells[i].Some? && |cells[i].value| != width
  }

  /** A column of one integer type: each value resolved and range-checked. */
  function NumericColumn(lookup: FieldLookup, rows: seq<Row>, path: string, kind: NativeInt): (r: Result<Column, Error>)
    ensures r.Ok? <==> ColumnCells(lookup, path, rows, NumericResolver(kind)).Ok?
    ensures r.Ok? ==> r.value.IntColumn? && r.value.kind == kind && Len(r.value) == |rows| && WellFormed(r.value)
    ensures r.Ok? ==> forall i :: 0 <= i < |rows| && lookup(path, rows[i]).None? ==> NullAt(r.value, i)
    ensures r.Ok? ==> forall i :: 0 <= i < |rows| && r.value.ints[i].Some? ==> kind.Holds(r.value.ints[i].value)
    ensures r.Ok? ==> forall i :: 0 <= i < |rows| && lookup(path, rows[i]).Some? ==>
      ResolveNumeric(lookup(path, rows[i]).value, kind) == Ok(r.value.ints[i])
  {
    var cells :- ColumnCells(lookup, path, rows, NumericResolver(kind));
    Ok(IntColumn(kind, cells))
  }

  /** A floating-point column: each value read as a number. */
  function FloatingColumn(lookup: FieldLookup, rows: seq<Row>, path: string): (r: Result<Column, Error>)
    ensures r.Ok? <==> ColumnCells(lookup, path, rows, NumericSource).Ok?
    ensures r.Ok? ==> r.value.FloatColumn? && Len(r.value) == |rows| && WellFormed(r.value)
    ensures r.Ok? ==> forall i :: 0 <= i < |rows| && lookup(path, rows[i]).None? ==> NullAt(r.value, i)
    ensures r.Ok? ==> forall i :: 0 <= i < |rows| && lookup(path, rows[i]).Some? ==>
      NumericSource(lookup(path, rows[i]).value) == Ok(r.value.nums[i])
  {
    var cells :- ColumnCells(lookup, path, rows, NumericSource);
    Ok(FloatColumn(cells))
  }

  /** A string column: each value read by `resolve_string`, whose first failure fails the column. */
  function TextColumn(lookup: FieldLookup, rows: seq<Row>, path: string): (r: Result<Column, Error>)
    ensures r.Ok? <==> ColumnCells(lookup, path, rows, ResolveString).Ok?
    ensures r.Ok? ==> r.value.StringColumn? && Len(r.value) == |rows| && WellFormed(r.value)
    ensures r.Ok? ==> forall i :: 0 <= i < |rows| && lookup(path, rows[i]).None? ==> NullAt(r.value, i)
    ensures r.Ok? ==> forall i :: 0 <= i < |rows| && lookup(path, rows[i]).Some? ==>
      ResolveString(lookup(path, rows[i]).value) == Ok(r.value.strings[i])
  {
    var cells :- ColumnCells(lookup, path, rows, ResolveString);
    Ok(StringColumn(cells))
  }

  /** A binary column: each value read by `resolve_bytes`, null where it reads nothing. */
  function BytesColumn(lookup: FieldLookup, rows: seq<Row>, path: string): (r: Column)
    ensures r.BinaryColumn? && Len(r) == |rows| && WellFormed(r)
    ensures forall i :: 0 <= i < |rows| && lookup(path, rows[i]).None? ==> NullAt(r, i)
    ensures forall i :: 0 <= i < |rows| ==>
      r.blobs[i] == (if lookup(path, rows[i]).None? then None else ResolveBytes(lookup(path, rows[i]).value))
  {
    BinaryColumn(ColumnCells(lookup, path, rows, BinaryResolver).value)
  }

  /**
   * A fixed-size binary column of `width` bytes per slot: each value read
   * by `resolve_fixed`; a read value of another length fails the column.
   */
  function FixedColumn(lookup: FieldLookup, rows: seq<Row>, path: string, width: nat): (r: Result<Column, Error>)
    ensures var cells := ColumnCells(lookup, path, rows, FixedResolver(width)).value;
      r == if WidthViolated(cells, width) then Err(WidthMismatch(width)) else Ok(FixedBinaryColumn(width, cells))
    ensures r.Ok? ==> Len(r.value) == |rows| && WellFormed(r.value)
    ensures r.Ok? ==> forall i :: 0 <= i < |rows| && lookup(path, rows[i]).None? ==> NullAt(r.value, i)
    ensures r.Ok? ==> forall i :: 0 <= i < |rows| ==>
      r.value.fixedBlobs[i] == (if lookup(path, rows[i]).None? then None else ResolveFixed(lookup(path, rows[i]).value, width))
  {
    var cells := ColumnCells(lookup, path, rows, FixedResolver(width)).value;
    if WidthViolated(cells, width) then Err(WidthMismatch(width))
    else Ok(FixedBinaryColumn(width, cells))
  }

  /**
   * `build_string_dictionary_array`: a dictionary column of strings for an
   * integer key type; any other value type or key type is an error.
   */
  function StringDictionaryColumn(lookup: FieldLookup, rows: seq<Row>, path: string, key: DataType, value: DataType)
    : (r: Result<Column, Error>)
    ensures r.Ok? <==> key.Int? && value == Utf8
    ensures value != Utf8 ==> r == Err(UnsupportedType(Dictionary(key, value)))
    ensures value == Utf8 && !key.Int? ==> r == Err(UnsupportedType(key))
    ensures r.Ok? ==> r.value == DictionaryColumn(key.kind, DictionaryCells(lookup, path, rows))
    ensures r.Ok? ==> Len(r.value) == |rows| && WellFormed(r.value)
    ensures r.Ok? ==> forall i :: 0 <= i < |rows| && lookup(path, rows[i]).None? ==> NullAt(r.value, i)
  {
    if value != Utf8 then Err(UnsupportedType(Dictionary(key, value)))
    else if !key.Int? then Err(UnsupportedType(key))
    else Ok(DictionaryColumn(key.kind, DictionaryCells(lookup, path, rows)))
  }

  /**
   * The column of a field whose type is not a list or a struct, one slot
   * per row: the type's builder above, or an error for a type the reader
   * does not support.
   */
  function ScalarColumn(lookup: FieldLookup, rows: seq<Row>, path: string, dt: DataType): (r: Result<Column, Error>)
    ensures r.Ok? ==> Len(r.value) == |rows| && WellFormed(r.value) && Conforms(r.value, dt)
    ensures r.Ok? ==> forall i :: 0 <= i < |rows| && lookup(path, rows[i]).None? ==> NullAt(r.value, i)
    ensures r.Ok? ==> ColumnSupported(dt) && !dt.List? && !dt.Struct?
    ensures dt == DataType.Null || dt == DataType.Boolean || dt == Binary || dt == LargeBinary ==> r.Ok?
    ensures NativeOf(dt).Some? ==> r == NumericColumn(lookup, rows, path, NativeOf(dt).value)
  {
    match dt
    case Null => Ok(NullColumn(|rows|))
    case Boolean => Ok(BoolColumn(BooleanCells(lookup, path, rows)))
    case Float32 => FloatingColumn(lookup, rows, path)
    case Float64 => FloatingColumn(lookup, rows, path)
    case Utf8 => TextColumn(lookup, rows, path)
    case LargeUtf8 => TextColumn(lookup, rows, path)
    case Binary => Ok(BytesColumn(lookup, rows, path))
    case LargeBinary => Ok(BytesColumn(lookup, rows, path))
    case FixedSizeBinary(width) => FixedColumn(lookup, rows, path, width)
    case Dictionary(key, value) => StringDictionaryColumn(lookup, rows, path, key, value)
    case _ =>
      match NativeOf(dt)
      case None => Err(UnsupportedType(dt))
      case Some(kind) => NumericColumn(lookup, rows, path, kind)
  }

  /** The rows of a list field: the field's value, or `null` where it is missing. */
  function ExtractedRows(lookup: FieldLookup, path: string, rows: seq<Row>): (r: seq<Value>)
    ensures |r| == |rows|
    ensures forall i :: 0 <= i < |rows| ==> r[i] == lookup(path, rows[i]).GetOr(Value.Null)
  {
    seq(|rows|, i requires 0 <= i < |rows| => lookup(path, rows[i]).GetOr(Value.Null))
  }

  /**
   * The struct slot of one row: the record's fields and a set validity bit
   * for a record, an empty row and a clear bit for a missing field or
   * `null`, and an error (a panic in the source) for any other value.
   */
  function StructSlot(lookup: FieldLookup, path: string, row: Row): (r: Result<(Row, bool), Error>)
    ensures r.Ok? <==>
      (lookup(path, row).None? ||
       MaybeResolveUnion(lookup(path, row).value).Record? || MaybeResolveUnion(lookup(path, row).value).Null?)
    ensures r.Ok? ==> (r.value.1 <==> lookup(path, row).Some? && MaybeResolveUnion(lookup(path, row).value).Record?)
    ensures r.Ok? && r.value.1 ==> r.value.0 == MaybeResolveUnion(lookup(path, row).value).fields
    ensures r.Ok? && !r.value.1 ==> r.value.0 == []
    ensures r.Err? ==> r.error == ShapeMismatch(path)
  {
    match lookup(path, row)
    case None => Ok(([], false))
    case Some(v) =>
      match MaybeResolveUnion(v)
      case Record(fields) => Ok((fields, true))
      case Null => Ok(([], false))
      case _ => Err(ShapeMismatch(path))
  }

  /** The struct slots of a column, one per row; the first row that is not a record or null fails. */
  function StructSlots(lookup: FieldLookup, path: string, rows: seq<Row>): (r: Result<seq<(Row, bool)>, Error>)
    ensures r.Ok? <==> forall i :: 0 <= i < |rows| ==> StructSlot(lookup, path, rows[i]).Ok?
    ensures r.Ok? ==> |r.value| == |rows|
    ensures r.Ok? ==> forall i :: 0 <= i < |rows| ==> StructSlot(lookup, path, rows[i]) == Ok(r.value[i])
    ensures r.Err? ==> r.error == ShapeMismatch(path)
  {
    if rows == [] then Ok([])
    else
      var init :- StructSlots(lookup, path, rows[..|rows| - 1]);
      var last :- StructSlot(lookup, path, rows[|rows| - 1]);
      Ok(init + [last])
  }

  /** The rows of struct slots. */
  function SlotRows(slots: seq<(Row, bool)>): (r: seq<Row>)
    ensures |r| == |slots| && forall i :: 0 <= i < |slots| ==> r[i] == slots[i].0
  {
    seq(|slots|, i requires 0 <= i < |slots| => slots[i].0)
  }

  /** The validity bits of struct slots. */
  function SlotBits(slots: seq<(Row, bool)>): (r: seq<bool>)
    ensures |r| == |slots| && forall i :: 0 <= i < |slots| ==> r[i] == slots[i].1
  {
    seq(|slots|, i requires 0 <= i < |slots| => slots[i].1)
  }

  /**
   * The child array of a list whose items are not lists or structs, built
   * from the list rows: one element per item of an array row and one per
   * scalar row (see `ListLayout`).
   */
  function LeafChild(rows: seq<Value>, dt: DataType): (r: Result<Column, Error>)
    ensures r.Ok? ==> Len(r.value) == TotalLength(rows) && WellFormed(r.value) && ElementConforms(r.value, dt)
    ensures r.Ok? ==> ElementSupported(dt) && !dt.List? && !dt.LargeList? && !dt.Struct?
    ensures dt == DataType.Null || dt == DataType.Boolean || dt == Utf8 || dt == LargeUtf8 ==> r.Ok?
    ensures dt.Int? ==> (r.Ok? <==> ReadPrimitiveListValues(rows, dt.kind).Ok?)
    ensures dt == Float32 || dt == Float64 ==> (r.Ok? <==> ReadFloatListValues(rows).Ok?)
    ensures dt.Timestamp? || dt == Date32 || dt == Date64 || dt.Time32? || dt.Time64? ==> r == Err(NestedTypeUnsupported(dt))
    ensures dt == DataType.Null ==> r == Ok(NullColumn(TotalLength(rows)))
    ensures dt == DataType.Boolean ==> r == Ok(BoolColumn(BoolListValues(rows)))
    ensures dt == Utf8 || dt == LargeUtf8 ==> r == Ok(StringColumn(FlattenStringValues(rows)))
    ensures dt.Int? && r.Ok? ==> r.value == IntColumn(dt.kind, ReadPrimitiveListValues(rows, dt.kind).value)
    ensures (dt == Float32 || dt == Float64) && r.Ok? ==> r.value == FloatColumn(ReadFloatListValues(rows).value)
  {
    match dt
    case Null => Ok(NullColumn(TotalLength(rows)))
    case Boolean => Ok(BoolColumn(BoolListValues(rows)))
    case Int(kind) =>
      var cells :- ReadPrimitiveListValues(rows, kind);
      Ok(IntColumn(kind, cells))
    case Float16 => Err(UnsupportedType(dt))
    case Float32 =>
      var cells :- ReadFloatListValues(rows);
      Ok(FloatColumn(cells))
    case Float64 =>
      var cells :- ReadFloatListValues(rows);
      Ok(FloatColumn(cells))
    case Timestamp(_) => Err(NestedTypeUnsupported(dt))
    case Date32 => Err(NestedTypeUnsupported(dt))
    case Date64 => Err(NestedTypeUnsupported(dt))
    case Time32(_) => Err(NestedTypeUnsupported(dt))
    case Time64(_) => Err(NestedTypeUnsupported(dt))
    case Utf8 => Ok(StringColumn(FlattenStringValues(rows)))
    case LargeUtf8 => Ok(StringColumn(FlattenStringValues(rows)))
    case _ => Err(UnsupportedType(dt))
  }

  /**
   * The column of one field of type `dt` over `rows`: a slot per row,
   * laid out by the Arrow rules and shaped by `dt`, with a null slot
   * wherever the field is missing from the row; a type the reader does not
   * support fails the call.
   */
  function BuildColumn(lookup: FieldLookup, rows: seq<Row>, path: string, dt: DataType): (r: Result<Column, Error>)
    decreases dt
    ensures r.Ok? ==> Len(r.value) == |rows| && WellFormed(r.value) && Conforms(r.value, dt)
    ensures r.Ok? ==> forall i :: 0 <= i < |rows| && lookup(path, rows[i]).None? ==> NullAt(r.value, i)
    ensures r.Ok? ==> ColumnSupported(dt)
  {
    match dt
    case List(f) =>
      if f.dataType.Dictionary? then BuildWrappedListArray(lookup, path, rows, f.dataType.key)
      else BuildNestedListArray(lookup, path, ExtractedRows(lookup, path, rows), f)
    case Struct(fs) =>
      var slots :- StructSlots(lookup, path, rows);
      var children :- BuildFields(lookup, SlotRows(slots), path, fs);
      Ok(StructColumn(SlotBits(slots), children))
    case _ => ScalarColumn(lookup, rows, path, dt)
  }

  /**
   * `build_struct_array`: one column per field, in field order, each at the
   * field's path below `parent`; the first field that fails fails the call.
   */
  function BuildFields(lookup: FieldLookup, rows: seq<Row>, parent: string, fs: seq<Field>): (r: Result<seq<Column>, Error>)
    decreases fs, 2
    ensures r.Ok? <==> forall i :: 0 <= i < |fs| ==> BuildColumn(lookup, rows, FieldPath(parent, fs[i].name), fs[i].dataType).Ok?
    ensures r.Ok? ==> |r.value| == |fs|
    ensures r.Ok? ==> forall i :: 0 <= i < |fs| ==>
      BuildColumn(lookup, rows, FieldPath(parent, fs[i].name), fs[i].dataType) == Ok(r.value[i])
    ensures r.Ok? ==> forall i :: 0 <= i < |fs| ==>
      Len(r.value[i]) == |rows| && WellFormed(r.value[i]) && Conforms(r.value[i], fs[i].dataType)
    ensures r.Ok? ==> forall i :: 0 <= i < |fs| ==> ColumnSupported(fs[i].dataType)
  {
    if fs == [] then Ok([])
    else
      var last := fs[|fs| - 1];
      assert last in fs;
      var init :- BuildFields(lookup, rows, parent, fs[..|fs| - 1]);
      assert forall i :: 0 <= i < |fs| - 1 ==> fs[..|fs| - 1][i] == fs[i];
      var c :- BuildColumn(lookup, rows, FieldPath(parent, last.name), last.dataType);
      var columns := init + [c];
      assert forall i :: 0 <= i < |fs| - 1 ==> columns[i] == init[i];
      Ok(columns)
  }

  /**
   * `build_nested_list_array`: a list array with one list per row, its
   * offsets and validity given by `ListOffsets` and `ListValidity`, and a
   * child array of the item type holding the rows' elements; nested lists
   * recurse on the elements, struct items on their records.
   */
  function BuildNestedListArray(lookup: FieldLookup, parent: string, rows: seq<Value>, item: Field): (r: Result<Column, Error>)
    decreases item.dataType
    ensures r.Ok? ==> r.value.ListColumn? && r.value.offsets == ListOffsets(rows) && r.value.validity == ListValidity(rows)
    ensures r.Ok? ==> Len(r.value.child) == TotalLength(rows) && WellFormed(r.value)
    ensures r.Ok? ==> ElementConforms(r.value.child, item.dataType) && ElementSupported(item.dataType)
    ensures r.Ok? && (item.dataType.List? || item.dataType.LargeList?) ==>
      && r.value.child.ListColumn?
      && r.value.child.offsets == ListOffsets(ElementRows(rows))
      && r.value.child.validity == ListValidity(ElementRows(rows))
    ensures item.dataType.Struct? ==>
      && (r.Ok? <==> StructChild(lookup, parent + "." + item.name, rows, item.dataType.fields).Ok?)
      && (r.Ok? ==> StructChild(lookup, parent + "." + item.name, rows, item.dataType.fields) == Ok(r.value.child))
    ensures !item.dataType.List? && !item.dataType.LargeList? && !item.dataType.Struct? ==>
      && (r.Ok? <==> LeafChild(rows, item.dataType).Ok?)
      && (r.Ok? ==> LeafChild(rows, item.dataType) == Ok(r.value.child))
  {
    var child :- match item.dataType
      case List(g) => BuildNestedListArray(lookup, parent, ElementRows(rows), g)
      case LargeList(g) => BuildNestedListArray(lookup, parent, ElementRows(rows), g)
      case Struct(fs) => StructChild(lookup, parent + "." + item.name, rows, fs)
      case _ => LeafChild(rows, item.dataType);
    ListColumnWellFormed(rows, child);
    Ok(ListColumn(ListOffsets(rows), ListValidity(rows), child))
  }

  /**
   * The struct child of a list of structs: one struct slot per element,
   * valid for a record, and one column per struct field over the elements'
   * records, at paths below `path`.
   */
  function StructChild(lookup: FieldLookup, path: string, rows: seq<Value>, fs: seq<Field>): (r: Result<Column, Error>)
    decreases fs, 3
    ensures r.Ok? ==> r.value.StructColumn? && Len(r.value) == TotalLength(rows) && WellFormed(r.value)
    ensures r.Ok? ==> ElementConforms(r.value, Struct(fs)) && ElementSupported(Struct(fs))
    ensures r.Ok? <==> (StructElementRows(path, rows).Ok? &&
      BuildFields(lookup, SlotRows(StructElementRows(path, rows).value), path, fs).Ok?)
    ensures r.Ok? ==>
      && r.value.structValidity == SlotBits(StructElementRows(path, rows).value)
      && r.value.children == BuildFields(lookup, SlotRows(StructElementRows(path, rows).value), path, fs).value
  {
    var slots :- StructElementRows(path, rows);
    var children :- BuildFields(lookup, SlotRows(slots), path, fs);
    Ok(StructColumn(SlotBits(slots), children))
  }
}
