/**
 * `AvroDecoder`: an append-only buffer of decoded Avro values, each tagged
 * with the id of the schema it was written with, and the pass that turns
 * the whole buffer into one Arrow column per field of the target schema.
 */
module Decoder {
  import opened Common
  import opened Avro
  import opened Arrow
  import opened FieldAccess
  import opened ColumnBuilder

  /** A schema registry id (`u32`). */
  type SchemaId = n: int | 0 <= n < 0x1_0000_0000

  /** The records of the buffered values, in order; the first value that is not a record aborts the pass. */
  function RecordRows(entries: seq<(SchemaId, Value)>): (r: Result<seq<Row>, Error>)
    ensures r.Ok? <==> forall i :: 0 <= i < |entries| ==> entries[i].1.Record?
    ensures r.Ok? ==> |r.value| == |entries|
    ensures r.Ok? ==> forall i :: 0 <= i < |entries| ==> r.value[i] == entries[i].1.fields
    ensures r.Err? ==> r.error == NotARecord
  {
    if entries == [] then Ok([])
    else
      var init :- RecordRows(entries[..|entries| - 1]);
      var last := entries[|entries| - 1].1;
      if last.Record? then Ok(init + [last.fields]) else Err(NotARecord)
  }

  /**
   * The columns one pass produces: `build_struct_array` over the buffered
   * records at the top level, one column per schema field, each with one
   * slot per buffered value.
   */
  function DecodeBatch(schema: seq<Field>, lookup: FieldLookup, entries: seq<(SchemaId, Value)>): (r: Result<seq<Column>, Error>)
    ensures RecordRows(entries).Err? ==> r == Err(NotARecord)
    ensures RecordRows(entries).Ok? ==> r == BuildFields(lookup, RecordRows(entries).value, "", schema)
    ensures r.Ok? ==> |r.value| == |schema|
    ensures r.Ok? ==> forall i :: 0 <= i < |schema| ==>
      Len(r.value[i]) == |entries| && WellFormed(r.value[i]) && Conforms(r.value[i], schema[i].dataType)
    ensures r.Ok? ==> forall i :: 0 <= i < |schema| ==> ColumnSupported(schema[i].dataType)
  {
    var rows :- RecordRows(entries);
    BuildFields(lookup, rows, "", schema)
  }

  /** Every slot of a top-level column whose field the lookup cannot find is null. */
  lemma {:induction false} MissingFieldsAreNull(schema: seq<Field>, lookup: FieldLookup, entries: seq<(SchemaId, Value)>)
    requires DecodeBatch(schema, lookup, entries).Ok?
    ensures forall i, j :: 0 <= i < |schema| && 0 <= j < |entries| && lookup(schema[i].name, entries[j].1.fields).None? ==>
      NullAt(DecodeBatch(schema, lookup, entries).value[i], j)
  {
    var rows := RecordRows(entries).value;
    var columns := DecodeBatch(schema, lookup, entries).value;
    forall i, j | 0 <= i < |schema| && 0 <= j < |entries| && lookup(schema[i].name, entries[j].1.fields).None?
      ensures NullAt(columns[i], j)
    {
      assert FieldPath("", schema[i].name) == schema[i].name;
      assert BuildColumn(lookup, rows, schema[i].name, schema[i].dataType) == Ok(columns[i]);
      assert rows[j] == entries[j].1.fields;
    }
  }

  /**
   * With the lookup the reader ships, which finds no field, a pass that
   * succeeds yields columns whose every slot is null.
   */
  lemma ShippedLookupYieldsNulls(schema: seq<Field>, entries: seq<(SchemaId, Value)>)
    requires DecodeBatch(schema, StubLookup, entries).Ok?
    ensures forall i, j :: 0 <= i < |schema| && 0 <= j < |entries| ==>
      NullAt(DecodeBatch(schema, StubLookup, entries).value[i], j)
  {
    MissingFieldsAreNull(schema, StubLookup, entries);
    forall i, j | 0 <= i < |schema| && 0 <= j < |entries|
      ensures StubLookup(schema[i].name, entries[j].1.fields).None?
    {
    }
  }

  /** A value that is not a record poisons the buffer: every later pass fails. */
  lemma {:induction false} NonRecordPoisons(entries: seq<(SchemaId, Value)>, i: nat, later: seq<(SchemaId, Value)>)
    requires i < |entries| && !entries[i].1.Record?
    ensures RecordRows(entries + later).Err?
  {
    assert (entries + later)[i] == entries[i];
  }

  /** Appending a record extends the records of the buffer by that record's fields. */
  lemma AppendRecord(entries: seq<(SchemaId, Value)>, entry: (SchemaId, Value))
    requires RecordRows(entries).Ok? && entry.1.Record?
    ensures RecordRows(entries + [entry]) == Ok(RecordRows(entries).value + [entry.1.fields])
  {
    assert (entries + [entry])[..|entries|] == entries;
  }

  class AvroDecoder {
    /** The target Arrow schema's fields. */
    const schema: seq<Field>
    /** How a dotted path is looked up in a record (`field_lookup`). */
    const lookup: FieldLookup
    /** The values appended so far, in arrival order. */
    var buffer: seq<(SchemaId, Value)>

    constructor (schema: seq<Field>, lookup: FieldLookup)
      ensures this.schema == schema && this.lookup == lookup && buffer == []
    {
      this.schema := schema;
      this.lookup := lookup;
      buffer := [];
    }

    /** `append_value`: one more entry at the end of the buffer. */
    method AppendValue(entry: (SchemaId, Value))
      modifies this
      ensures buffer == old(buffer) + [entry]
    {
      buffer := buffer + [entry];
    }

    /**
     * `next_batch`: the columns for every buffered value. The batch size is
     * ignored and the buffer is left as it is, so a second call sees the
     * same rows and yields the same columns.
     */
    method NextBatch(batchSize: nat) returns (r: Result<seq<Column>, Error>)
      ensures r == DecodeBatch(schema, lookup, buffer)
    {
      var rows: seq<Row> := [];
      for i := 0 to |buffer|
        invariant RecordRows(buffer[..i]) == Ok(rows)
      {
        assert buffer[..i + 1][..i] == buffer[..i];
        var value := buffer[i].1;
        if !value.Record? {
          NonRecordPoisons(buffer[..i + 1], i, buffer[i + 1..]);
          assert buffer[..i + 1] + buffer[i + 1..] == buffer;
          return Err(NotARecord);
        }
        rows := rows + [value.fields];
      }
      assert buffer[..|buffer|] == buffer;
      r := BuildFields(lookup, rows, "", schema);
    }
  }
}
