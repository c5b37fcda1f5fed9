/**
 * Lists of dictionary-encoded strings (`build_wrapped_list_array` and
 * `list_array_string_array_builder`): each row's field becomes one list of
 * optional strings, appended to a list builder over a string dictionary.
 */
module DictionaryList {
  import opened Common
  import opened Avro
  import opened Arrow
  import opened Resolvers
  import opened FieldAccess

  /**
   * The strings of one present row: a string as a one-element list, an
   * array item by item (the first unreadable item fails the call), `null`
   * as a list holding one null, a record as an error, and any other value
   * as the one-element list of its string.
   */
  function RowStrings(path: string, v: Value): (r: Result<seq<Option<string>>, Error>)
    ensures var u := MaybeResolveUnion(v);
      && (u.String? ==> r == Ok([Some(u.s)]))
      && (u.Null? ==> r == Ok([None]))
      && (u.Record? ==> r == Err(ShapeMismatch(path)))
      && (u.Array? ==> (r.Ok? <==> forall k :: 0 <= k < |u.items| ==> ResolveString(u.items[k]).Ok?))
      && (u.Array? && r.Ok? ==> |r.value| == |u.items|)
      && (u.Array? && r.Ok? ==> forall k :: 0 <= k < |u.items| ==> ResolveString(u.items[k]) == Ok(r.value[k]))
      && (!u.String? && !u.Null? && !u.Record? && !u.Array? ==>
            (r.Ok? <==> ResolveString(u).Ok?) && (r.Ok? ==> r.value == [ResolveString(u).value]))
  {
    match MaybeResolveUnion(v)
    case String(s) => Ok([Some(s)])
    case Array(items) => StringItems(items)
    case Null => Ok([None])
    case Record(_) => Err(ShapeMismatch(path))
    case u =>
      var s :- ResolveString(u);
      Ok([s])
  }

  /** `resolve_string` over the items of an array, stopping at the first failure. */
  function StringItems(items: seq<Value>): (r: Result<seq<Option<string>>, Error>)
    ensures r.Ok? <==> forall k :: 0 <= k < |items| ==> ResolveString(items[k]).Ok?
    ensures r.Ok? ==> |r.value| == |items|
    ensures r.Ok? ==> forall k :: 0 <= k < |items| ==> ResolveString(items[k]) == Ok(r.value[k])
  {
    if items == [] then Ok([])
    else
      var init :- StringItems(items[..|items| - 1]);
      var last :- ResolveString(items[|items| - 1]);
      Ok(init + [last])
  }

  /** The three parts of a list array under construction. */
  datatype ListParts = ListParts(offsets: seq<nat>, validity: seq<bool>, values: seq<Option<string>>)

  /** The strings one row contributes: none when its field is missing. */
  function RowContent(lookup: FieldLookup, path: string, row: Row): (r: Result<seq<Option<string>>, Error>)
    ensures lookup(path, row).None? ==> r == Ok([])
    ensures lookup(path, row).Some? ==> r == RowStrings(path, lookup(path, row).value)
  {
    match lookup(path, row)
    case None => Ok([])
    case Some(v) => RowStrings(path, v)
  }

  /**
   * List parts that hold one list per row, in row order: offsets that start
   * at 0, never decrease and end at the number of values, a list that is
   * valid exactly when the row's field is present, and between row `i`'s
   * offsets exactly the strings that row contributes.
   */
  ghost predicate Describes(lookup: FieldLookup, path: string, rows: seq<Row>, p: ListParts) {
    && |p.offsets| == |rows| + 1 && |p.validity| == |rows|
    && p.offsets[0] == 0 && p.offsets[|rows|] == |p.values|
    && (forall i :: 0 <= i < |rows| ==> p.offsets[i] <= p.offsets[i + 1])
    && (forall i :: 0 <= i <= |rows| ==> p.offsets[i] <= |p.values|)
    && (forall i :: 0 <= i < |rows| ==> (p.validity[i] <==> lookup(path, rows[i]).Some?))
    && (forall i :: 0 <= i < |rows| ==>
          RowContent(lookup, path, rows[i]) == Ok(p.values[p.offsets[i]..p.offsets[i + 1]]))
  }

  /**
   * The list parts over `rows`, corrected: a row whose field is missing
   * becomes a null list with no values, so there is one list per row and
   * row `i`'s strings sit between its offsets.
   */
  function WrappedLists(lookup: FieldLookup, path: string, rows: seq<Row>): (r: Result<ListParts, Error>)
    ensures r.Ok? <==> forall i :: 0 <= i < |rows| ==> RowContent(lookup, path, rows[i]).Ok?
    ensures r.Ok? ==> Describes(lookup, path, rows, r.value)
  {
    if rows == [] then Ok(ListParts([0], [], []))
    else
      var init :- WrappedLists(lookup, path, rows[..|rows| - 1]);
      assert forall i :: 0 <= i < |rows| - 1 ==> rows[..|rows| - 1][i] == rows[i];
      var strings :- RowContent(lookup, path, rows[|rows| - 1]);
      DescribesStep(lookup, path, rows, init, strings);
      var values := init.values + strings;
      Ok(ListParts(init.offsets + [|values|], init.validity + [lookup(path, rows[|rows| - 1]).Some?], values))
  }

  /** Appending one row's strings and closing its list extends what the parts describe by that row. */
  lemma DescribesStep(lookup: FieldLookup, path: string, rows: seq<Row>, init: ListParts, strings: seq<Option<string>>)
    requires |rows| > 0 && Describes(lookup, path, rows[..|rows| - 1], init)
    requires RowContent(lookup, path, rows[|rows| - 1]) == Ok(strings)
    ensures var values := init.values + strings;
      Describes(lookup, path, rows,
        ListParts(init.offsets + [|values|], init.validity + [lookup(path, rows[|rows| - 1]).Some?], values))
  {
    var n := |rows| - 1;
    var values := init.values + strings;
    var p := ListParts(init.offsets + [|values|], init.validity + [lookup(path, rows[n]).Some?], values);
    forall i | 0 <= i < n
      ensures RowContent(lookup, path, rows[i]) == Ok(p.values[p.offsets[i]..p.offsets[i + 1]])
    {
      assert rows[..n][i] == rows[i];
      assert p.offsets[i] == init.offsets[i] && p.offsets[i + 1] == init.offsets[i + 1];
      assert init.offsets[i + 1] <= |init.values|;
      assert values[init.offsets[i]..init.offsets[i + 1]] == init.values[init.offsets[i]..init.offsets[i + 1]];
    }
    assert p.offsets[n] == |init.values|;
    assert values[|init.values|..|values|] == strings;
    forall i | 0 <= i < n
      ensures p.validity[i] <==> lookup(path, rows[i]).Some?
    {
      assert rows[..n][i] == rows[i];
    }
  }

  /** The number of rows whose field the lookup cannot find. */
  function MissingRows(lookup: FieldLookup, path: string, rows: seq<Row>): nat {
    if rows == [] then 0
    else MissingRows(lookup, path, rows[..|rows| - 1]) + (if lookup(path, rows[|rows| - 1]).None? then 1 else 0)
  }

  /**
   * The list parts over `rows`, as written: a row whose field is missing is
   * skipped, so there is one list, always valid, per row whose field is
   * present, and one list fewer than rows for every missing field.
   */
  function WrappedListsAsWritten(lookup: FieldLookup, path: string, rows: seq<Row>): (r: Result<ListParts, Error>)
    ensures r.Ok? <==> forall i :: 0 <= i < |rows| ==> RowContent(lookup, path, rows[i]).Ok?
    ensures r.Ok? ==> |r.value.offsets| == |r.value.validity| + 1
    ensures r.Ok? ==> |r.value.validity| + MissingRows(lookup, path, rows) == |rows|
    ensures r.Ok? ==> forall j :: 0 <= j < |r.value.validity| ==> r.value.validity[j]
  {
    if rows == [] then Ok(ListParts([0], [], []))
    else
      assert forall i :: 0 <= i < |rows| - 1 ==> rows[..|rows| - 1][i] == rows[i];
      var init :- WrappedListsAsWritten(lookup, path, rows[..|rows| - 1]);
      match lookup(path, rows[|rows| - 1])
      case None => Ok(init)
      case Some(v) =>
        var strings :- RowStrings(path, v);
        var values := init.values + strings;
        Ok(ListParts(init.offsets + [|values|], init.validity + [true], values))
  }

  /** The list column for a `List(Dictionary(key, _))` field, corrected. */
  function WrappedListColumn(lookup: FieldLookup, path: string, rows: seq<Row>, kind: NativeInt): (r: Result<Column, Error>)
    ensures r.Ok? ==> r.value.ListColumn? && r.value.child.DictionaryColumn? && r.value.child.keyKind == kind
    ensures r.Ok? ==> Len(r.value) == |rows| && WellFormed(r.value)
    ensures r.Ok? ==> forall i :: 0 <= i < |rows| ==> (r.value.validity[i] <==> lookup(path, rows[i]).Some?)
    ensures r.Ok? <==> WrappedLists(lookup, path, rows).Ok?
  {
    var parts :- WrappedLists(lookup, path, rows);
    Ok(ListColumn(parts.offsets, parts.validity, DictionaryColumn(kind, parts.values)))
  }

  /**
   * The list column for a `List(Dictionary(key, _))` field, as written: it
   * fails exactly when the corrected one does, but has one slot fewer than
   * rows for every row whose field is missing.
   */
  function WrappedListColumnAsWritten(lookup: FieldLookup, path: string, rows: seq<Row>, kind: NativeInt): (r: Result<Column, Error>)
    ensures r.Ok? <==> WrappedListColumn(lookup, path, rows, kind).Ok?
    ensures r.Ok? ==> r.value.ListColumn? && r.value.child.DictionaryColumn? && r.value.child.keyKind == kind
    ensures r.Ok? ==> Len(r.value) + MissingRows(lookup, path, rows) == |rows|
  {
    var parts :- WrappedListsAsWritten(lookup, path, rows);
    Ok(ListColumn(parts.offsets, parts.validity, DictionaryColumn(kind, parts.values)))
  }

  /**
   * With the shipped lookup and one row, the column as written has no slot
   * at all; corrected, it has one null list.
   */
  lemma WrappedListColumnDropsRows(path: string, kind: NativeInt)
    ensures WrappedListColumnAsWritten(StubLookup, path, [[]], kind) == Ok(ListColumn([0], [], DictionaryColumn(kind, [])))
    ensures WrappedListColumn(StubLookup, path, [[]], kind) == Ok(ListColumn([0, 0], [false], DictionaryColumn(kind, [])))
  {
    var rows: seq<Row> := [[]];
    assert rows[..|rows| - 1] == [];
    assert StubLookup(path, rows[0]).None?;
    assert WrappedListsAsWritten(StubLookup, path, []) == Ok(ListParts([0], [], []));
    assert WrappedListsAsWritten(StubLookup, path, rows) == Ok(ListParts([0], [], []));
    assert WrappedLists(StubLookup, path, []) == Ok(ListParts([0], [], []));
    assert RowContent(StubLookup, path, rows[0]) == Ok([]);
    WrappedListsSnoc(StubLookup, path, rows, 0, ListParts([0], [], []), []);
    assert rows[..1] == rows;
    var none: seq<Option<string>> := [];
    var lk: FieldLookup := StubLookup;
    assert !lk(path, rows[0]).Some?;
    assert WrappedLists(StubLookup, path, rows[..1]) == Ok(ListParts([0] + [|none + none|], [] + [false], none + none));
    assert none + none == none;
    var zero: seq<nat> := [0];
    var noValidity: seq<bool> := [];
    assert zero + [0] == [0, 0] && noValidity + [false] == [false];
    assert WrappedLists(StubLookup, path, rows) == Ok(ListParts([0, 0], [false], []));
  }

  /** One more row extends the list parts by that row's list. */
  lemma WrappedListsSnoc(lookup: FieldLookup, path: string, rows: seq<Row>, i: nat, p: ListParts, s: seq<Option<string>>)
    requires i < |rows| && WrappedLists(lookup, path, rows[..i]) == Ok(p)
    requires RowContent(lookup, path, rows[i]) == Ok(s)
    ensures WrappedLists(lookup, path, rows[..i + 1]) ==
      Ok(ListParts(p.offsets + [|p.values + s|], p.validity + [lookup(path, rows[i]).Some?], p.values + s))
  {
    assert rows[..i + 1][..i] == rows[..i];
    assert rows[..i + 1][i] == rows[i];
  }

  /** A row that cannot be read fails the list parts of every run of rows that reaches it. */
  lemma {:induction false} WrappedListsError(lookup: FieldLookup, path: string, rows: seq<Row>, i: nat)
    requires i < |rows| && WrappedLists(lookup, path, rows[..i]).Ok?
    requires RowContent(lookup, path, rows[i]).Err?
    ensures WrappedLists(lookup, path, rows) == Err(RowContent(lookup, path, rows[i]).error)
    decreases |rows| - i
  {
    assert rows[..i + 1][..i] == rows[..i];
    assert rows[..i + 1][i] == rows[i];
    assert WrappedLists(lookup, path, rows[..i + 1]) == Err(RowContent(lookup, path, rows[i]).error);
    WrappedListsPrefixError(lookup, path, rows, i + 1);
  }

  /** A failure at some row is the failure of every longer run of rows. */
  lemma {:induction false} WrappedListsPrefixError(lookup: FieldLookup, path: string, rows: seq<Row>, j: nat)
    requires j <= |rows| && WrappedLists(lookup, path, rows[..j]).Err?
    ensures WrappedLists(lookup, path, rows) == WrappedLists(lookup, path, rows[..j])
    decreases |rows| - j
  {
    if j < |rows| {
      assert rows[..j + 1][..j] == rows[..j];
      WrappedListsPrefixError(lookup, path, rows, j + 1);
    } else {
      assert rows[..j] == rows;
    }
  }

  /**
   * The row loop of `list_array_string_array_builder` over a dictionary
   * builder (corrected for missing fields): each row appends its strings to
   * the values and closes one list; an unreadable row ends the call.
   */
  method ListArrayStringArrayBuilder(lookup: FieldLookup, path: string, rows: seq<Row>, kind: NativeInt)
    returns (r: Result<Column, Error>)
    ensures r == WrappedListColumn(lookup, path, rows, kind)
  {
    var offsets: seq<nat> := [0];
    var validity: seq<bool> := [];
    var values: seq<Option<string>> := [];
    assert rows[..0] == [];
    for i := 0 to |rows|
      invariant WrappedLists(lookup, path, rows[..i]) == Ok(ListParts(offsets, validity, values))
    {
      var found := lookup(path, rows[i]);
      if found.None? {
        WrappedListsSnoc(lookup, path, rows, i, ListParts(offsets, validity, values), []);
        assert values + [] == values;
        offsets := offsets + [|values|];
        validity := validity + [false];
      } else {
        var strings := RowStrings(path, found.value);
        if strings.Err? {
          WrappedListsError(lookup, path, rows, i);
          return Err(strings.error);
        }
        WrappedListsSnoc(lookup, path, rows, i, ListParts(offsets, validity, values), strings.value);
        values := values + strings.value;
        offsets := offsets + [|values|];
        validity := validity + [true];
      }
    }
    assert rows[..|rows|] == rows;
    r := Ok(ListColumn(offsets, validity, DictionaryColumn(kind, values)));
  }

  /**
   * `build_wrapped_list_array`: dictionary lists are built only for the
   * eight integer key types; any other key type is an error.
   */
  function BuildWrappedListArray(lookup: FieldLookup, path: string, rows: seq<Row>, key: DataType): (r: Result<Column, Error>)
    ensures !key.Int? ==> r == Err(UnsupportedType(key))
    ensures key.Int? ==> r == WrappedListColumn(lookup, path, rows, key.kind)
  {
    if key.Int? then WrappedListColumn(lookup, path, rows, key.kind) else Err(UnsupportedType(key))
  }
}
