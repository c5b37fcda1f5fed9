/**
 * How the column builders reach a field of a row: `field_lookup(path, row)`
 * and the per-row loops that resolve the value found there into one cell.
 * The lookup is a parameter; the reader as shipped passes `StubLookup`,
 * which finds nothing (its schema-index based body is commented out).
 */
module FieldAccess {
  import opened Common
  import opened Avro
  import opened Arrow
  import opened Resolvers

  /** `field_lookup`: the value at a dotted path in a decoded record, if any. */
  type FieldLookup = (string, Row) -> Option<Value>

  /** The lookup the reader actually uses: it never finds a value. */
  function StubLookup(path: string, row: Row): (r: Option<Value>)
    ensures r.None?
  {
    None
  }

  /** The path of a struct field: its bare name at the top level, `parent.name` below. */
  function FieldPath(parent: string, name: string): (r: string)
    ensures parent == "" ==> r == name
    ensures parent != "" ==> r == parent + "." + name
  {
    if parent == "" then name else parent + "." + name
  }

  /**
   * One cell per row: a null slot where the lookup finds nothing, the
   * resolved cell otherwise; the first resolution error in row order fails
   * the whole column (`collect::<Result<..>>()`).
   */
  function ColumnCells<T>(lookup: FieldLookup, path: string, rows: seq<Row>, resolve: Value -> Result<Option<T>, Error>)
    : (r: Result<seq<Option<T>>, Error>)
    ensures r.Ok? <==> forall i :: 0 <= i < |rows| ==>
      lookup(path, rows[i]).None? || resolve(lookup(path, rows[i]).value).Ok?
    ensures r.Ok? ==> |r.value| == |rows|
    ensures r.Ok? ==> forall i :: 0 <= i < |rows| ==>
      if lookup(path, rows[i]).None? then r.value[i].None?
      else resolve(lookup(path, rows[i]).value) == Ok(r.value[i])
  {
    if rows == [] then Ok([])
    else
      var init :- ColumnCells(lookup, path, rows[..|rows| - 1], resolve);
      var last :- match lookup(path, rows[|rows| - 1])
        case None => Ok(None)
        case Some(v) => resolve(v);
      Ok(init + [last])
  }

  /** The boolean cell of one row: a null slot unless the field holds a boolean. */
  function BooleanCell(lookup: FieldLookup, path: string, row: Row): (r: Option<bool>)
    ensures r.Some? <==> lookup(path, row).Some? && ResolveBoolean(lookup(path, row).value).Some?
    ensures r.Some? ==> r == ResolveBoolean(lookup(path, row).value)
  {
    match lookup(path, row)
    case None => None
    case Some(v) => ResolveBoolean(v)
  }

  /** The boolean cells of a column, one per row. */
  function BooleanCells(lookup: FieldLookup, path: string, rows: seq<Row>): (r: seq<Option<bool>>)
    ensures |r| == |rows|
    ensures forall i :: 0 <= i < |rows| ==> r[i] == BooleanCell(lookup, path, rows[i])
  {
    seq(|rows|, i requires 0 <= i < |rows| => BooleanCell(lookup, path, rows[i]))
  }

  /**
   * `build_boolean_array`: one cell per row, appended in order, a null
   * slot for a missing field or a non-boolean value.
   */
  method BuildBooleanArray(lookup: FieldLookup, path: string, rows: seq<Row>) returns (c: Column)
    ensures c == BoolColumn(BooleanCells(lookup, path, rows))
    ensures forall i :: 0 <= i < |rows| ==> c.bools[i] == BooleanCell(lookup, path, rows[i])
  {
    var cells: seq<Option<bool>> := [];
    for i := 0 to |rows|
      invariant |cells| == i
      invariant forall j :: 0 <= j < i ==> cells[j] == BooleanCell(lookup, path, rows[j])
    {
      var found := lookup(path, rows[i]);
      if found.Some? {
        var b := ResolveBoolean(found.value);
        if b.Some? {
          cells := cells + [Some(b.value)];
        } else {
          cells := cells + [None];
        }
      } else {
        cells := cells + [None];
      }
    }
    c := BoolColumn(cells);
  }
}
