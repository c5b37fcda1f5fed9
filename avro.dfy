/**
 * The Avro side of the transcoder: the decoded value tree (`apache_avro::types::Value`)
 * and the writer schema (`apache_avro::Schema`), restricted to what the reader inspects.
 */
module Avro {
  import opened Common

  /** Rust `i32` and `i64`, the payload widths of Avro `int` and `long`. */
  type Int32 = x: int | -0x8000_0000 <= x < 0x8000_0000
  type Int64 = x: int | -0x8000_0000_0000_0000 <= x < 0x8000_0000_0000_0000

  /** One field of a decoded record: its name and value. */
  type Row = seq<(string, Value)>

  /**
   * A decoded Avro value. `Float` and `Double` carry their (finite) value as a
   * real number; `Union` carries the index of the branch taken and its value.
   */
  datatype Value =
    | Null
    | Boolean(b: bool)
    | Int(i: Int32)
    | Long(l: Int64)
    | Float(f: real)
    | Double(d: real)
    | Bytes(bytes: seq<Byte>)
    | String(s: string)
    | Fixed(size: nat, fixedBytes: seq<Byte>)
    | Enum(index: nat, symbol: string)
    | Union(branch: nat, inner: Value)
    | Array(items: seq<Value>)
    | Map(entries: seq<(string, Value)>)
    | Record(fields: Row)
    | Date(days: Int32)
    | Decimal(unscaled: seq<Byte>)
    | TimeMillis(millis: Int32)
    | TimeMicros(micros: Int64)
    | TimestampMillis(tsMillis: Int64)
    | TimestampMicros(tsMicros: Int64)
    | Duration(months: nat, durationDays: nat, durationMillis: nat)
    | Uuid(uuid: seq<Byte>)

  /** A field of a record schema: its name and its schema. */
  datatype RecordField = RecordField(name: string, schema: Schema)

  /**
   * A writer schema. `Record` keeps, as `apache_avro::schema::RecordSchema`
   * does, both the ordered fields and the `lookup` table from field name to
   * position; `Primitive` stands for every schema without children other than
   * `null` (boolean, int, long, string, logical types, ...).
   */
  datatype Schema =
    | NullSchema
    | Primitive(name: string)
    | ArraySchema(items: Schema)
    | MapSchema(values: Schema)
    | UnionSchema(variants: seq<Schema>)
    | RecordSchema(fields: seq<RecordField>, lookup: map<string, nat>)
    | EnumSchema(symbols: seq<string>)
    | FixedSchema(fixedSize: nat)
    | Reference(refName: string)
}
