/**
 * The list layout of `build_nested_list_array`: the offsets and validity of
 * a variable-size list array (Apache Arrow Columnar Format, "Variable-size
 * List Layout") and the child values each element type is read into.
 *
 * Every row of a list column is one of: an array (a valid list of its
 * items), `null` (a null list with no elements) or any other scalar (a
 * one-element list, left null). The offsets follow that reading; the child
 * readers are given both as written and, where they disagree with the
 * offsets, corrected so that row `i`'s elements sit at
 * `offsets[i]..offsets[i + 1]`.
 */
module ListLayout {
  import opened Common
  import opened Avro
  import opened Arrow
  import opened Resolvers

  /** The number of child slots a row takes. */
  function RowLength(v: Value): nat {
    match MaybeResolveUnion(v)
    case Array(items) => |items|
    case Null => 0
    case _ => 1
  }

  /** The validity bit of a row: set only for an array. */
  predicate RowValid(v: Value) {
    MaybeResolveUnion(v).Array?
  }

  /** The number of child slots all rows take together. */
  function TotalLength(rows: seq<Value>): nat {
    if rows == [] then 0 else TotalLength(rows[..|rows| - 1]) + RowLength(rows[|rows| - 1])
  }

  lemma TotalLengthStep(rows: seq<Value>, i: nat)
    requires i < |rows|
    ensures TotalLength(rows[..i + 1]) == TotalLength(rows[..i]) + RowLength(rows[i])
  {
    assert rows[..i + 1][..i] == rows[..i];
  }

  /**
   * The offsets of a list array over `rows`: `offsets[i]` is the number of
   * child slots taken by the rows before `i`.
   */
  function ListOffsets(rows: seq<Value>): (r: seq<nat>)
    ensures |r| == |rows| + 1 && r[0] == 0 && r[|rows|] == TotalLength(rows)
    ensures forall i :: 0 <= i < |rows| ==> r[i + 1] == r[i] + RowLength(rows[i])
    ensures forall i :: 0 <= i <= |rows| ==> r[i] == TotalLength(rows[..i])
  {
    assert rows[..|rows|] == rows;
    assert forall i :: 0 <= i < |rows| ==> TotalLength(rows[..i + 1]) == TotalLength(rows[..i]) + RowLength(rows[i]) by {
      forall i | 0 <= i < |rows| {
        TotalLengthStep(rows, i);
      }
    }
    seq(|rows| + 1, i requires 0 <= i <= |rows| => TotalLength(rows[..i]))
  }

  /** The validity of a list array over `rows`. */
  function ListValidity(rows: seq<Value>): (r: seq<bool>)
    ensures |r| == |rows|
    ensures forall i :: 0 <= i < |rows| ==> (r[i] <==> MaybeResolveUnion(rows[i]).Array?)
  {
    seq(|rows|, i requires 0 <= i < |rows| => RowValid(rows[i]))
  }

  /**
   * The offset and validity loop of `build_nested_list_array`: a running
   * offset, pushed after each row, and one validity bit per row.
   */
  method BuildListOffsets(rows: seq<Value>) returns (offsets: seq<nat>, validity: seq<bool>)
    ensures offsets == ListOffsets(rows) && validity == ListValidity(rows)
  {
    var current: nat := 0;
    offsets := [current];
    validity := [];
    for i := 0 to |rows|
      invariant |offsets| == i + 1 && |validity| == i
      invariant current == TotalLength(rows[..i])
      invariant forall j :: 0 <= j <= i ==> offsets[j] == TotalLength(rows[..j])
      invariant forall j :: 0 <= j < i ==> validity[j] == RowValid(rows[j])
    {
      var v := MaybeResolveUnion(rows[i]);
      if v.Array? {
        current := current + |v.items|;
        validity := validity + [true];
      } else if v.Null? {
        validity := validity + [false];
      } else {
        current := current + 1;
        validity := validity + [false];
      }
      TotalLengthStep(rows, i);
      offsets := offsets + [current];
    }
    assert rows[..|rows|] == rows;
  }

  /** Offsets never decrease. */
  lemma {:induction false} OffsetsMonotone(rows: seq<Value>, i: nat, j: nat)
    requires i <= j <= |rows|
    ensures ListOffsets(rows)[i] <= ListOffsets(rows)[j]
    decreases j - i
  {
    if i < j {
      OffsetsMonotone(rows, i, j - 1);
    }
  }

  /** A list array over `rows` is well formed exactly when its child has one slot per element. */
  lemma ListColumnWellFormed(rows: seq<Value>, child: Column)
    ensures WellFormed(ListColumn(ListOffsets(rows), ListValidity(rows), child)) <==>
      Len(child) == TotalLength(rows) && WellFormed(child)
  {
    var offsets := ListOffsets(rows);
    var validity := ListValidity(rows);
    assert |offsets| == |validity| + 1 && offsets[0] == 0;
    assert forall i :: 0 <= i < |validity| ==> offsets[i] <= offsets[i + 1];
    assert offsets[|validity|] == TotalLength(rows);
  }

  /** The concatenation of what `f` gives for each row, in row order. */
  function Concat<T>(rows: seq<Value>, f: Value -> seq<T>): seq<T> {
    if rows == [] then [] else Concat(rows[..|rows| - 1], f) + f(rows[|rows| - 1])
  }

  lemma {:induction false} ConcatLength<T>(rows: seq<Value>, f: Value -> seq<T>)
    requires forall v :: |f(v)| == RowLength(v)
    ensures |Concat(rows, f)| == TotalLength(rows)
  {
    if rows != [] {
      ConcatLength(rows[..|rows| - 1], f);
    }
  }

  lemma {:induction false} ConcatPrefix<T>(rows: seq<Value>, f: Value -> seq<T>, j: nat)
    requires j <= |rows|
    ensures Concat(rows[..j], f) <= Concat(rows, f)
  {
    if j < |rows| {
      var init := rows[..|rows| - 1];
      assert init[..j] == rows[..j];
      ConcatPrefix(init, f, j);
    } else {
      assert rows[..j] == rows;
    }
  }

  /** When `f` gives each row its length, row `i`'s part sits between its offsets. */
  lemma ConcatAligned<T>(rows: seq<Value>, f: Value -> seq<T>, i: nat)
    requires forall v :: |f(v)| == RowLength(v)
    requires i < |rows|
    ensures ListOffsets(rows)[i] <= ListOffsets(rows)[i + 1] <= |Concat(rows, f)|
    ensures Concat(rows, f)[ListOffsets(rows)[i]..ListOffsets(rows)[i + 1]] == f(rows[i])
  {
    var o := ListOffsets(rows);
    var whole := Concat(rows, f);
    var before := Concat(rows[..i], f);
    var upTo := Concat(rows[..i + 1], f);
    ConcatLength(rows, f);
    ConcatLength(rows[..i], f);
    ConcatPrefix(rows, f, i + 1);
    OffsetsMonotone(rows, i + 1, |rows|);
    assert rows[..i + 1][..i] == rows[..i];
    assert upTo == before + f(rows[i]);
    assert |before| == o[i] && |upTo| == o[i + 1];
    assert whole[o[i]..o[i + 1]] == upTo[|before|..];
  }

  // ---------------------------------------------------------------------
  // The elements of each row
  // ---------------------------------------------------------------------

  /**
   * The elements a row holds as a list: an array's items, none for `null`,
   * and the (union-unwrapped) value itself for any other scalar.
   */
  function RowElements(v: Value): (r: seq<Value>)
    ensures |r| == RowLength(v)
    ensures MaybeResolveUnion(v).Array? ==> r == MaybeResolveUnion(v).items
    ensures !MaybeResolveUnion(v).Array? && !MaybeResolveUnion(v).Null? ==> r == [MaybeResolveUnion(v)]
  {
    match MaybeResolveUnion(v)
    case Array(items) => items
    case Null => []
    case u => [u]
  }

  /** The child rows of a nested list, with exactly `TotalLength(rows)` entries. */
  function ElementRows(rows: seq<Value>): (r: seq<Value>)
    ensures |r| == TotalLength(rows)
  {
    ConcatLength(rows, RowElements);
    Concat(rows, RowElements)
  }

  /** Row `i`'s elements are exactly the child rows between its offsets. */
  lemma ElementRowsAligned(rows: seq<Value>, i: nat)
    requires i < |rows|
    ensures ListOffsets(rows)[i] <= ListOffsets(rows)[i + 1] <= |ElementRows(rows)|
    ensures ElementRows(rows)[ListOffsets(rows)[i]..ListOffsets(rows)[i + 1]] == RowElements(rows[i])
  {
    ConcatAligned(rows, RowElements, i);
  }

  /** `flatten_values` per row: an array's items, and any other value (`null` included) as itself. */
  function FlattenRow(v: Value): (r: seq<Value>)
    ensures |r| == RowLength(v) + (if MaybeResolveUnion(v).Null? then 1 else 0)
    ensures !MaybeResolveUnion(v).Null? ==> r == RowElements(v)
    ensures MaybeResolveUnion(v).Null? ==> r == [Value.Null]
  {
    match MaybeResolveUnion(v)
    case Array(items) => items
    case u => [u]
  }

  /**
   * `flatten_values`, as written: a `null` row becomes one `null` element,
   * so there is one element more than the offsets count for every `null` row.
   */
  function FlattenValues(rows: seq<Value>): (r: seq<Value>)
    ensures |r| == TotalLength(rows) + NullRows(rows)
  {
    FlattenRowsLength(rows);
    Concat(rows, FlattenRow)
  }

  /** The number of rows that are `null` after one union unwrap. */
  function NullRows(rows: seq<Value>): nat {
    if rows == [] then 0
    else NullRows(rows[..|rows| - 1]) + (if MaybeResolveUnion(rows[|rows| - 1]).Null? then 1 else 0)
  }

  lemma {:induction false} FlattenRowsLength(rows: seq<Value>)
    ensures |Concat(rows, FlattenRow)| == TotalLength(rows) + NullRows(rows)
  {
    if rows != [] {
      FlattenRowsLength(rows[..|rows| - 1]);
    }
  }

  /**
   * `flatten_values` returns the array elements in row order, exactly the
   * child rows the offsets describe, if and only if no row is `null`.
   */
  lemma {:induction false} FlattenValuesAgree(rows: seq<Value>)
    ensures NullRows(rows) == 0 <==> FlattenValues(rows) == ElementRows(rows)
  {
    if NullRows(rows) == 0 {
      NullFreeFlattenAgree(rows);
    }
  }

  lemma {:induction false} NullFreeFlattenAgree(rows: seq<Value>)
    requires NullRows(rows) == 0
    ensures Concat(rows, FlattenRow) == Concat(rows, RowElements)
  {
    if rows != [] {
      NullFreeFlattenAgree(rows[..|rows| - 1]);
    }
  }

  /**
   * A list of lists with a `null` first row: the offsets give row 1 the
   * child slot at 0, which `flatten_values` fills with the `null` of row 0
   * instead of row 1's only element.
   */
  lemma FlattenValuesMisaligned()
    ensures var rows := [Value.Null, Array([Array([Value.Int(1)])])];
      && ListOffsets(rows) == [0, 0, 1]
      && FlattenValues(rows) == [Value.Null, Array([Value.Int(1)])]
      && FlattenValues(rows)[ListOffsets(rows)[1]..ListOffsets(rows)[2]] == [Value.Null]
      && ElementRows(rows)[ListOffsets(rows)[1]..ListOffsets(rows)[2]] == [Array([Value.Int(1)])]
  {
    var rows := [Value.Null, Array([Array([Value.Int(1)])])];
    assert rows[..1] == [Value.Null];
    assert rows[..1][..0] == [];
    assert rows[..2] == rows;
    assert TotalLength(rows[..1]) == 0;
    assert Concat(rows[..1], FlattenRow) == [Value.Null];
    assert Concat(rows[..1], RowElements) == [];
  }

  // ---------------------------------------------------------------------
  // String elements
  // ---------------------------------------------------------------------

  /** `resolve_string(v).ok().flatten()`: a string, or a null slot when there is none or it fails. */
  function StringCell(v: Value): (r: Option<string>)
    ensures r.Some? <==> ResolveString(v).Ok? && ResolveString(v).value.Some?
    ensures r.Some? ==> r.value == ResolveString(v).value.value
  {
    match ResolveString(v)
    case Ok(s) => s
    case Err(_) => None
  }

  /** `flatten_string_values` per row: each item, nothing for `null`, the value itself otherwise. */
  function StringRow(v: Value): (r: seq<Option<string>>)
    ensures |r| == RowLength(v)
    ensures forall k :: 0 <= k < |r| ==> r[k] == StringCell(RowElements(v)[k])
  {
    match MaybeResolveUnion(v)
    case Array(items) => seq(|items|, k requires 0 <= k < |items| => StringCell(items[k]))
    case Null => []
    case u => [StringCell(u)]
  }

  /** `flatten_string_values`: never fails; unreadable strings become null slots. */
  function FlattenStringValues(rows: seq<Value>): (r: seq<Option<string>>)
    ensures |r| == TotalLength(rows)
  {
    ConcatLength(rows, StringRow);
    Concat(rows, StringRow)
  }

  /** Slot `k` of the flattened strings is the string of child row `k`. */
  lemma {:induction false} FlattenStringValuesPointwise(rows: seq<Value>)
    ensures forall k :: 0 <= k < |FlattenStringValues(rows)| ==>
      FlattenStringValues(rows)[k] == StringCell(ElementRows(rows)[k])
  {
    if rows != [] {
      var init := rows[..|rows| - 1];
      FlattenStringValuesPointwise(init);
      assert FlattenStringValues(rows) == FlattenStringValues(init) + StringRow(rows[|rows| - 1]);
      assert ElementRows(rows) == ElementRows(init) + RowElements(rows[|rows| - 1]);
    }
  }

  // ---------------------------------------------------------------------
  // Integer and floating-point elements
  // ---------------------------------------------------------------------

  /** The numeric resolver over items, as `collect` does it: the first failure, or one cell per item. */
  function NumericCells(items: seq<Value>, kind: NativeInt): (r: Result<seq<Option<int>>, Error>)
    ensures r.Ok? <==> forall k :: 0 <= k < |items| ==> ResolveNumeric(items[k], kind).Ok?
    ensures r.Ok? ==> |r.value| == |items|
    ensures r.Ok? ==> forall k :: 0 <= k < |items| ==> ResolveNumeric(items[k], kind) == Ok(r.value[k])
  {
    if items == [] then Ok([])
    else
      var init :- NumericCells(items[..|items| - 1], kind);
      var last :- ResolveNumeric(items[|items| - 1], kind);
      Ok(init + [last])
  }

  /**
   * `read_primitive_list_values` per row, as written: an array's items
   * through the numeric resolver; a scalar only when it resolves to a
   * value, and nothing at all when it does not.
   */
  function PrimitiveRowAsWritten(v: Value, kind: NativeInt): (r: Result<seq<Option<int>>, Error>)
    ensures r.Ok? ==> |r.value| <= RowLength(v)
    ensures MaybeResolveUnion(v).Array? ==> r == NumericCells(MaybeResolveUnion(v).items, kind)
    ensures var u := MaybeResolveUnion(v);
      !u.Array? ==> (r.Ok? <==> ResolveNumeric(u, kind).Ok?)
    ensures var u := MaybeResolveUnion(v);
      !u.Array? && r.Ok? ==> (|r.value| < RowLength(v) <==> !u.Null? && ResolveNumeric(u, kind).value.None?)
  {
    match MaybeResolveUnion(v)
    case Array(items) => NumericCells(items, kind)
    case u =>
      var cell :- ResolveNumeric(u, kind);
      Ok(if cell.Some? then [cell] else [])
  }

  /** `read_primitive_list_values`, as written. */
  function ReadPrimitiveListValuesAsWritten(rows: seq<Value>, kind: NativeInt): (r: Result<seq<Option<int>>, Error>)
    ensures r.Ok? ==> |r.value| <= TotalLength(rows)
  {
    if rows == [] then Ok([])
    else
      var init :- ReadPrimitiveListValuesAsWritten(rows[..|rows| - 1], kind);
      var last :- PrimitiveRowAsWritten(rows[|rows| - 1], kind);
      Ok(init + last)
  }

  /**
   * A list of `Int8` whose only row is the scalar 300: the offsets count
   * one element, but the value does not fit, so no child slot is written.
   */
  lemma ReadPrimitiveListValuesShort()
    ensures TotalLength([Value.Int(300)]) == 1
    ensures ReadPrimitiveListValuesAsWritten([Value.Int(300)], I8) == Ok([])
  {
    var rows := [Value.Int(300)];
    assert rows[..0] == [];
    assert ReadPrimitiveListValuesAsWritten(rows[..0], I8) == Ok([]);
    assert ResolveNumeric(Value.Int(300), I8) == Ok(None);
    assert PrimitiveRowAsWritten(rows[0], I8) == Ok([]);
    assert rows[..|rows| - 1] == rows[..0];
    assert rows != [];
    var init := ReadPrimitiveListValuesAsWritten(rows[..0], I8).value;
    var last := PrimitiveRowAsWritten(rows[0], I8).value;
    assert init + last == [];
    assert ReadPrimitiveListValuesAsWritten(rows, I8) == Ok(init + last);
  }

  /**
   * `read_primitive_list_values`, corrected: one cell per child row, a null
   * slot for a value that does not fit.
   */
  function ReadPrimitiveListValues(rows: seq<Value>, kind: NativeInt): (r: Result<seq<Option<int>>, Error>)
    ensures r.Ok? ==> |r.value| == TotalLength(rows)
    ensures r.Ok? ==> forall k :: 0 <= k < |r.value| ==> ResolveNumeric(ElementRows(rows)[k], kind) == Ok(r.value[k])
    ensures r.Ok? ==> forall k :: 0 <= k < |r.value| && r.value[k].Some? ==> kind.Holds(r.value[k].value)
    ensures r.Ok? <==> forall k :: 0 <= k < |ElementRows(rows)| ==> ResolveNumeric(ElementRows(rows)[k], kind).Ok?
  {
    NumericCells(ElementRows(rows), kind)
  }

  /** The two readers agree whenever every scalar row holds a value that fits. */
  lemma {:induction false} ReadPrimitiveListValuesAgree(rows: seq<Value>, kind: NativeInt)
    requires forall i :: 0 <= i < |rows| ==>
      var u := MaybeResolveUnion(rows[i]);
      u.Array? || u.Null? || (ResolveNumeric(u, kind).Ok? && ResolveNumeric(u, kind).value.Some?)
    ensures ReadPrimitiveListValuesAsWritten(rows, kind) == ReadPrimitiveListValues(rows, kind)
  {
    if rows != [] {
      var init := rows[..|rows| - 1];
      var last := rows[|rows| - 1];
      ReadPrimitiveListValuesAgree(init, kind);
      assert ElementRows(rows) == ElementRows(init) + RowElements(last);
      NumericCellsAppend(ElementRows(init), RowElements(last), kind);
      var u := MaybeResolveUnion(last);
      if !u.Array? && !u.Null? {
        assert RowElements(last) == [u];
        assert [u][..0] == [];
      }
    }
  }

  lemma {:induction false} NumericCellsAppend(a: seq<Value>, b: seq<Value>, kind: NativeInt)
    ensures NumericCells(a + b, kind) ==
      (var x :- NumericCells(a, kind); var y :- NumericCells(b, kind); Ok(x + y))
    decreases |b|
  {
    if b == [] {
      assert a + b == a;
      match NumericCells(a, kind)
      case Err(_) =>
      case Ok(x) => assert x + [] == x;
    } else {
      var b' := b[..|b| - 1];
      var last := b[|b| - 1];
      NumericCellsAppend(a, b', kind);
      assert (a + b)[..|a + b| - 1] == a + b';
      assert (a + b)[|a + b| - 1] == last;
      match NumericCells(a, kind)
      case Err(_) =>
      case Ok(x) =>
        match NumericCells(b', kind)
        case Err(_) =>
        case Ok(y) =>
          match ResolveNumeric(last, kind)
          case Err(_) =>
          case Ok(z) =>
            assert x + y + [z] == x + (y + [z]);
    }
  }

  /** The numeric source of each item: the first failure, or one number per item. */
  function FloatCells(items: seq<Value>): (r: Result<seq<Option<Num>>, Error>)
    ensures r.Ok? <==> forall k :: 0 <= k < |items| ==> NumericSource(items[k]).Ok?
    ensures r.Ok? ==> |r.value| == |items|
    ensures r.Ok? ==> forall k :: 0 <= k < |items| ==> NumericSource(items[k]) == Ok(r.value[k])
  {
    if items == [] then Ok([])
    else
      var init :- FloatCells(items[..|items| - 1]);
      var last :- NumericSource(items[|items| - 1]);
      Ok(init + [last])
  }

  /**
   * The floating-point child values: one per child row. A number always
   * converts to a float, so the scalar branch of `read_primitive_list_values`
   * drops only `null` rows here, and `ReadFloatListValuesAgree` shows that
   * the code as written agrees with the offsets.
   */
  function ReadFloatListValues(rows: seq<Value>): (r: Result<seq<Option<Num>>, Error>)
    ensures r.Ok? ==> |r.value| == TotalLength(rows)
    ensures r.Ok? ==> forall k :: 0 <= k < |r.value| ==> NumericSource(ElementRows(rows)[k]) == Ok(r.value[k])
    ensures r.Ok? <==> forall k :: 0 <= k < |ElementRows(rows)| ==> NumericSource(ElementRows(rows)[k]).Ok?
  {
    FloatCells(ElementRows(rows))
  }

  /**
   * `read_primitive_list_values` per row for a floating-point type, as
   * written: a scalar only when it reads as a number.
   */
  function FloatRowAsWritten(v: Value): (r: Result<seq<Option<Num>>, Error>)
    ensures r.Ok? ==> |r.value| <= RowLength(v)
    ensures r.Ok? && !MaybeResolveUnion(v).Union? ==> |r.value| == RowLength(v)
  {
    match MaybeResolveUnion(v)
    case Array(items) => FloatCells(items)
    case u =>
      match NumericSource(u)
      case Err(e) => Err(e)
      case Ok(cell) => Ok(if cell.Some? then [cell] else [])
  }

  /** `read_primitive_list_values` for a floating-point type, as written. */
  function ReadFloatListValuesAsWritten(rows: seq<Value>): (r: Result<seq<Option<Num>>, Error>)
    ensures r.Ok? ==> |r.value| <= TotalLength(rows)
  {
    if rows == [] then Ok([])
    else
      var init :- ReadFloatListValuesAsWritten(rows[..|rows| - 1]);
      var last :- FloatRowAsWritten(rows[|rows| - 1]);
      Ok(init + last)
  }

  /**
   * Every value that is not `null` reads as a number or aborts, so the float
   * reader as written agrees with the one that follows the offsets whenever
   * no row is a union directly inside a union (which Avro rules out).
   */
  lemma {:induction false} ReadFloatListValuesAgree(rows: seq<Value>)
    requires forall i :: 0 <= i < |rows| ==> !MaybeResolveUnion(rows[i]).Union?
    ensures ReadFloatListValuesAsWritten(rows) == ReadFloatListValues(rows)
  {
    if rows != [] {
      var init := rows[..|rows| - 1];
      var last := rows[|rows| - 1];
      assert forall i :: 0 <= i < |init| ==> init[i] == rows[i];
      ReadFloatListValuesAgree(init);
      assert ElementRows(rows) == ElementRows(init) + RowElements(last);
      FloatCellsAppend(ElementRows(init), RowElements(last));
      var u := MaybeResolveUnion(last);
      if !u.Array? && !u.Null? {
        assert RowElements(last) == [u];
        assert [u][..0] == [];
      }
    }
  }

  lemma {:induction false} FloatCellsAppend(a: seq<Value>, b: seq<Value>)
    ensures FloatCells(a + b) == (var x :- FloatCells(a); var y :- FloatCells(b); Ok(x + y))
    decreases |b|
  {
    if b == [] {
      assert a + b == a;
      match FloatCells(a)
      case Err(_) =>
      case Ok(x) => assert x + [] == x;
    } else {
      var b' := b[..|b| - 1];
      var last := b[|b| - 1];
      FloatCellsAppend(a, b');
      assert (a + b)[..|a + b| - 1] == a + b';
      assert (a + b)[|a + b| - 1] == last;
      match FloatCells(a)
      case Err(_) =>
      case Ok(x) =>
        match FloatCells(b')
        case Err(_) =>
        case Ok(y) =>
          match NumericSource(last)
          case Err(_) =>
          case Ok(z) =>
            assert x + y + [z] == x + (y + [z]);
    }
  }

  // ---------------------------------------------------------------------
  // Boolean elements
  // ---------------------------------------------------------------------

  /** The boolean loop of `build_nested_list_array` per row: only a bare array, items not unwrapped. */
  function RawBoolRow(v: Value): (r: seq<Option<bool>>)
    ensures |r| <= RowLength(v)
    ensures !v.Array? ==> r == []
    ensures v.Array? ==> |r| == |v.items| && forall k :: 0 <= k < |r| ==>
      (r[k].Some? <==> v.items[k].Boolean?) && (r[k].Some? ==> r[k].value == v.items[k].b)
  {
    match v
    case Array(items) => seq(|items|, k requires 0 <= k < |items| => if items[k].Boolean? then Some(items[k].b) else None)
    case _ => []
  }

  lemma {:induction false} RawBoolItemsBound(rows: seq<Value>)
    ensures |Concat(rows, RawBoolRow)| <= TotalLength(rows)
  {
    if rows != [] {
      RawBoolItemsBound(rows[..|rows| - 1]);
    }
  }

  /**
   * The boolean child values, as written: the raw items fill the first
   * slots; the remaining slots keep the zeroed value bit and the preset
   * validity bit, so they read as `false`.
   */
  function BoolListValuesAsWritten(rows: seq<Value>): (r: seq<Option<bool>>)
    ensures |r| == TotalLength(rows)
    ensures Concat(rows, RawBoolRow) <= r
    ensures forall k :: |Concat(rows, RawBoolRow)| <= k < |r| ==> r[k] == Some(false)
  {
    var raw := Concat(rows, RawBoolRow);
    RawBoolItemsBound(rows);
    raw + seq(TotalLength(rows) - |raw|, _ => Some(false))
  }

  /** The boolean child values, corrected: `resolve_boolean` of each child row. */
  function BoolListValues(rows: seq<Value>): (r: seq<Option<bool>>)
    ensures |r| == TotalLength(rows)
    ensures forall k :: 0 <= k < |r| ==> r[k] == ResolveBoolean(ElementRows(rows)[k])
  {
    var elements := ElementRows(rows);
    seq(|elements|, k requires 0 <= k < |elements| => ResolveBoolean(elements[k]))
  }

  /** The rows the boolean loop as written reads correctly: bare arrays or `null`, with no union items. */
  predicate BareBoolRows(rows: seq<Value>) {
    forall i :: 0 <= i < |rows| ==>
      (rows[i].Array? || rows[i].Null?) &&
      (rows[i].Array? ==> forall k :: 0 <= k < |rows[i].items| ==> !rows[i].items[k].Union?)
  }

  lemma {:induction false} RawBoolRowsAgree(rows: seq<Value>)
    requires BareBoolRows(rows)
    ensures Concat(rows, RawBoolRow) == BoolListValues(rows)
  {
    if rows != [] {
      var init := rows[..|rows| - 1];
      var last := rows[|rows| - 1];
      assert forall i :: 0 <= i < |init| ==> init[i] == rows[i];
      RawBoolRowsAgree(init);
      assert ElementRows(rows) == ElementRows(init) + RowElements(last);
      var a := BoolListValues(init);
      var b := RawBoolRow(last);
      var c := BoolListValues(rows);
      assert |b| == RowLength(last);
      forall k | 0 <= k < |c|
        ensures c[k] == (a + b)[k]
      {
        if k >= |a| {
          assert ElementRows(rows)[k] == RowElements(last)[k - |a|];
        }
      }
    }
  }

  /**
   * On bare array or `null` rows whose items are not unions, the boolean
   * loop as written reads every element right and leaves no padding.
   */
  lemma BoolListValuesAgree(rows: seq<Value>)
    requires BareBoolRows(rows)
    ensures BoolListValuesAsWritten(rows) == BoolListValues(rows)
  {
    RawBoolRowsAgree(rows);
    var raw := Concat(rows, RawBoolRow);
    assert raw + seq(TotalLength(rows) - |raw|, _ => Some(false)) == raw;
  }

  /** A union-wrapped array `[true]` reads as `[false]` as written, `[true]` corrected. */
  lemma BoolListUnionRow()
    ensures BoolListValuesAsWritten([Union(1, Array([Value.Boolean(true)]))]) == [Some(false)]
    ensures BoolListValues([Union(1, Array([Value.Boolean(true)]))]) == [Some(true)]
  {
    var rows := [Union(1, Array([Value.Boolean(true)]))];
    assert rows[..0] == [];
    assert TotalLength(rows) == 1;
    assert ElementRows(rows) == [Value.Boolean(true)];
  }

  // ---------------------------------------------------------------------
  // Struct elements
  // ---------------------------------------------------------------------

  /** The placeholder record standing for a null struct slot. */
  const NullStructRow: Row := [("null", Value.Null)]

  /**
   * One item of a list of structs: a record is a valid struct slot, `null`
   * a null slot over the placeholder record; anything else aborts.
   */
  function StructItem(path: string, v: Value): (r: Result<(Row, bool), Error>)
    ensures r.Ok? <==> MaybeResolveUnion(v).Record? || MaybeResolveUnion(v).Null?
    ensures r.Ok? ==> (r.value.1 <==> MaybeResolveUnion(v).Record?)
    ensures r.Ok? && r.value.1 ==> r.value.0 == MaybeResolveUnion(v).fields
    ensures r.Err? ==> r.error == ShapeMismatch(path)
  {
    match MaybeResolveUnion(v)
    case Record(fields) => Ok((fields, true))
    case Null => Ok((NullStructRow, false))
    case _ => Err(ShapeMismatch(path))
  }

  /** The struct items of an array: the first failure, or one slot per item. */
  function StructItems(path: string, items: seq<Value>): (r: Result<seq<(Row, bool)>, Error>)
    ensures r.Ok? <==> forall k :: 0 <= k < |items| ==> StructItem(path, items[k]).Ok?
    ensures r.Ok? ==> |r.value| == |items|
    ensures r.Ok? ==> forall k :: 0 <= k < |items| ==> StructItem(path, items[k]) == Ok(r.value[k])
  {
    if items == [] then Ok([])
    else
      var init :- StructItems(path, items[..|items| - 1]);
      var last :- StructItem(path, items[|items| - 1]);
      Ok(init + [last])
  }

  /** The struct rows of one list row, as written: a non-array row, `null` included, is one null slot. */
  function StructRowAsWritten(path: string, v: Value): (r: Result<seq<(Row, bool)>, Error>)
    ensures r.Ok? ==> |r.value| == RowLength(v) + (if MaybeResolveUnion(v).Null? then 1 else 0)
    ensures !MaybeResolveUnion(v).Array? ==> r == Ok([(NullStructRow, false)])
    ensures MaybeResolveUnion(v).Array? ==> r == StructItems(path, MaybeResolveUnion(v).items)
  {
    match MaybeResolveUnion(v)
    case Array(items) => StructItems(path, items)
    case _ => Ok([(NullStructRow, false)])
  }

  /** The struct rows of one list row, corrected: a `null` row has none. */
  function StructRow(path: string, v: Value): (r: Result<seq<(Row, bool)>, Error>)
    ensures r.Ok? ==> |r.value| == RowLength(v)
    ensures MaybeResolveUnion(v).Null? ==> r == Ok([])
    ensures !MaybeResolveUnion(v).Null? ==> r == StructRowAsWritten(path, v)
  {
    match MaybeResolveUnion(v)
    case Array(items) => StructItems(path, items)
    case Null => Ok([])
    case _ => Ok([(NullStructRow, false)])
  }

  /** The struct child rows of a list of structs, as written. */
  function StructElementRowsAsWritten(path: string, rows: seq<Value>): (r: Result<seq<(Row, bool)>, Error>)
    ensures r.Ok? ==> |r.value| == TotalLength(rows) + NullRows(rows)
  {
    if rows == [] then Ok([])
    else
      var init :- StructElementRowsAsWritten(path, rows[..|rows| - 1]);
      var last :- StructRowAsWritten(path, rows[|rows| - 1]);
      Ok(init + last)
  }

  /** The struct child rows, corrected: exactly `TotalLength(rows)` of them. */
  function StructElementRows(path: string, rows: seq<Value>): (r: Result<seq<(Row, bool)>, Error>)
    ensures r.Ok? ==> |r.value| == TotalLength(rows)
  {
    if rows == [] then Ok([])
    else
      var init :- StructElementRows(path, rows[..|rows| - 1]);
      var last :- StructRow(path, rows[|rows| - 1]);
      Ok(init + last)
  }

  /** Row `i`'s struct slots sit exactly between its offsets. */
  lemma StructElementRowsAligned(path: string, rows: seq<Value>, i: nat)
    requires i < |rows| && StructElementRows(path, rows).Ok?
    ensures StructRow(path, rows[i]).Ok?
    ensures ListOffsets(rows)[i] <= ListOffsets(rows)[i + 1] <= |StructElementRows(path, rows).value|
    ensures StructElementRows(path, rows).value[ListOffsets(rows)[i]..ListOffsets(rows)[i + 1]] ==
      StructRow(path, rows[i]).value
  {
    StructSlotsBetween(path, rows, i);
  }

  lemma {:induction false} StructSlotsBetween(path: string, rows: seq<Value>, i: nat)
    requires i < |rows| && StructElementRows(path, rows).Ok?
    ensures StructRow(path, rows[i]).Ok?
    ensures TotalLength(rows[..i]) <= TotalLength(rows[..i + 1]) <= |StructElementRows(path, rows).value|
    ensures StructElementRows(path, rows).value[TotalLength(rows[..i])..TotalLength(rows[..i + 1])] ==
      StructRow(path, rows[i]).value
  {
    var n := |rows| - 1;
    var init := rows[..n];
    var front := StructElementRows(path, init).value;
    var last := StructRow(path, rows[n]).value;
    var all := StructElementRows(path, rows).value;
    assert all == front + last;
    if i < n {
      StructSlotsBetween(path, init, i);
      assert init[..i] == rows[..i] && init[..i + 1] == rows[..i + 1];
      assert all[TotalLength(rows[..i])..TotalLength(rows[..i + 1])] == front[TotalLength(rows[..i])..TotalLength(rows[..i + 1])];
    } else {
      assert rows[..i] == init && rows[..i + 1] == rows;
      assert all[|front|..] == last;
    }
  }

  /**
   * A list of structs with a `null` first row: as written, row 1's only
   * slot (at offset 0) holds the null placeholder of row 0.
   */
  lemma StructElementRowsMisaligned(path: string)
    ensures var rows := [Value.Null, Array([Record([])])];
      && ListOffsets(rows) == [0, 0, 1]
      && StructElementRowsAsWritten(path, rows) == Ok([(NullStructRow, false), ([], true)])
      && StructElementRows(path, rows) == Ok([([], true)])
  {
    var rows := [Value.Null, Array([Record([])])];
    assert rows[..2] == rows;
    var one := rows[..1];
    assert one[..|one| - 1] == one[..0] == [];
    assert rows[..|rows| - 1] == one;
    assert TotalLength(one) == 0;
    var items: seq<Value> := [Record([])];
    var none := StructItems(path, items[..0]);
    assert none == Ok([]);
    var item := StructItem(path, items[0]);
    assert item == Ok(([], true));
    assert items[..|items| - 1] == items[..0];
    var all := StructItems(path, items);
    assert all == Ok(none.value + [item.value]);
    assert all.value == [([], true)];
    assert StructRowAsWritten(path, rows[1]) == all;
    assert StructRow(path, rows[1]) == all;

    var first := StructElementRowsAsWritten(path, one);
    assert first == Ok(StructElementRowsAsWritten(path, one[..0]).value + StructRowAsWritten(path, one[0]).value);
    assert first.value == [(NullStructRow, false)];
    var both := StructElementRowsAsWritten(path, rows);
    assert both == Ok(first.value + all.value);
    assert both.value == [(NullStructRow, false), ([], true)];

    var firstCorrected := StructElementRows(path, one);
    assert firstCorrected == Ok(StructElementRows(path, one[..0]).value + StructRow(path, one[0]).value);
    assert firstCorrected.value == [];
    var bothCorrected := StructElementRows(path, rows);
    assert bothCorrected == Ok(firstCorrected.value + all.value);
    assert bothCorrected.value == [([], true)];
  }
}
