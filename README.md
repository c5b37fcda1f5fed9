# Avro-to-Arrow transcoder and expression watermark generator, modelled in Dafny

This project models two sequential cores of a stream-processing engine.

1. **The Avro row transcoder** (`crates/arroyo-formats/src/avro/reader.rs`).
   - An `AvroDecoder` buffers decoded Avro values, each tagged with the id of the schema it was written with.
   - `next_batch` turns the whole buffer into one Arrow column per field of the target Arrow schema.
   - The columns come from a recursive, type-directed builder (`build_struct_array`, `build_nested_list_array`).
   - The builder uses a family of value resolvers that coerce one Avro value into one scalar.
   - Alongside it, `schema_lookup` builds an index from dotted field paths to field positions.
2. **The expression watermark generator** (`crates/arroyo-worker/src/arrow/watermark_generator.rs`).
   - It is a small state machine over the largest watermark seen, the event time of the last emission, and an idle flag.
   - It decides on each batch whether to emit a watermark, and on each clock tick whether the worker goes idle.

Files (one module each):

| file | module | what it holds |
|---|---|---|
| `common.dfy` | `Common` | `Byte`, `Option`, `Result` |
| `utf8.dfy` | `Utf8` | UTF-8 encoding and strict decoding (RFC 3629, section 4), with both round trips |
| `avro.dfy` | `Avro` | Avro values and schemas |
| `arrow.dfy` | `Arrow` | Arrow data types; arrays as logical content; the layout rules (`WellFormed`); type conformance (`Conforms`, `ElementConforms`); the types the reader supports; errors |
| `array_types.dfy` | `ArrayTypes` | the Arrow type stamped on string, binary and list arrays, with 32- or 64-bit offsets, as written and corrected |
| `resolvers.dfy` | `Resolvers` | `maybe_resolve_union`, `resolve_string`, `resolve_u8`, `resolve_bytes`, `resolve_fixed`, `resolve_boolean`, and the numeric `Resolver` |
| `schema_index.dfy` | `SchemaIndex` | `schema_lookup` and `child_schema_lookup`: imperative methods over a map, each proved equal to a function |
| `list_layout.dfy` | `ListLayout` | list offsets and validity; the child-value readers for list items, both as written and corrected |
| `field_access.dfy` | `FieldAccess` | `field_lookup` as a parameter; `build_boolean_array`; the per-row cell loop |
| `dictionary_list.dfy` | `DictionaryList` | `build_wrapped_list_array` and `list_array_string_array_builder` |
| `column_builder.dfy` | `ColumnBuilder` | `build_struct_array` and `build_nested_list_array`: mutually recursive over the type tree |
| `decoder.dfy` | `Decoder` | the `AvroDecoder` class: `append_value` and `next_batch` |
| `watermark.dfy` | `Watermark` | the `WatermarkGenerator` class and its helpers |

How the model represents the source:

- **Panics become errors.** Aborts in the source become ordinary `Err` values: `panic!`, `unreachable!` and `unimplemented!`. Examples are `ShapeMismatch`, `NotARecord`, `UnreachableValue` and `Unimplemented`.
- **Field lookup is a parameter.** `field_lookup` is a function parameter (`FieldLookup`), so every property holds for any lookup.
- **The shipped lookup is a constant.** The reader as shipped always returns `None` from `field_lookup`; the model calls this `StubLookup`.
- **Times are nanoseconds.** In the watermark model, times are natural numbers of nanoseconds since the Unix epoch.
- **External values are inputs.** The clock reading, the batch's timestamp column and the evaluated watermark column are method inputs.
- **Broadcasts are recorded.** Broadcast watermarks are appended to the field `emitted`.

## Model

| member | source | states |
|---|---|---|
| Utf8.DecodeEncode | crates/arroyo-formats/src/avro/reader.rs:860 | decoding the UTF-8 encoding of any string gives the string back |
| Utf8.EncodeDecode | crates/arroyo-formats/src/avro/reader.rs:830-832 | bytes that decode as UTF-8 re-encode to exactly the same bytes |
| Resolvers.MaybeResolveUnion | crates/arroyo-formats/src/avro/reader.rs:911-921 | a value is returned unchanged exactly when it is not a union; a union yields the value it carries |
| Resolvers.ResolveString | crates/arroyo-formats/src/avro/reader.rs:827-839 | after one union unwrap, the result is Ok exactly for a string, an enum, null, or bytes that are valid UTF-8; Ok(None) exactly for null; strings and enum symbols come back unchanged; decoded bytes re-encode to the input; every failure is a string-conversion error |
| Resolvers.WrapToInt32 | crates/arroyo-formats/src/avro/reader.rs:844 | `as i32` gives a value in the i32 range that is congruent to the input modulo 2^32 |
| Resolvers.ResolveU8 | crates/arroyo-formats/src/avro/reader.rs:841-854 | an Int is accepted iff it is in 0..=255; a Long is accepted iff its value modulo 2^32 is below 256, and gives that value; every other kind, a union included, is an error |
| Resolvers.ResolveByteItems | crates/arroyo-formats/src/avro/reader.rs:862-868 | Some iff every item passes `resolve_u8`; then one byte per item, in order |
| Resolvers.ResolveBytes | crates/arroyo-formats/src/avro/reader.rs:856-875 | bytes pass through; a string becomes its UTF-8 bytes, which decode back to it; an array gives bytes iff every item is a byte, item by item; every other kind is absent |
| Resolvers.ResolveFixed | crates/arroyo-formats/src/avro/reader.rs:877-889 | Some exactly for a fixed value of the declared size, and then its bytes |
| Resolvers.ResolveBoolean | crates/arroyo-formats/src/avro/reader.rs:891-901 | Some exactly for a boolean, with its value |
| Resolvers.NumericSource | crates/arroyo-formats/src/avro/reader.rs:928-942 | null is absent; the integer kinds and integer-encoded temporal kinds give their integer; a duration is Unimplemented; Ok exactly for null, float, double and the integer kinds |
| Resolvers.Truncate | crates/arroyo-formats/src/avro/reader.rs:935-936 | rounding toward zero: the result is within one of the input, on the input's side of zero |
| Resolvers.CastTo | crates/arroyo-formats/src/avro/reader.rs:932-936 | a number is kept exactly when it (or its truncation) fits the target integer range |
| Resolvers.ResolveNumeric | crates/arroyo-formats/src/avro/reader.rs:923-943 | Ok and the error as for the number read; every present value fits the target range; null is absent; an integer payload is kept iff it fits; a float or double payload is truncated toward zero and kept iff the truncation fits |
| Resolvers.UnionIsTransparent | crates/arroyo-formats/src/avro/reader.rs:911-921 | `ResolveString`, `ResolveBytes`, `ResolveFixed`, `ResolveBoolean` and `ResolveNumeric` each answer the same for a union as for the value it carries (`ResolveU8` does not unwrap, and rejects a union) |
| Resolvers.StringBytesRoundTrip | crates/arroyo-formats/src/avro/reader.rs:856-875 | a string turned into bytes by `resolve_bytes` reads back unchanged through `resolve_string` |
| Resolvers.BytesStringRoundTrip | crates/arroyo-formats/src/avro/reader.rs:827-839 | bytes that `resolve_string` accepts turn back into the same bytes through `resolve_bytes` |
| SchemaIndex.Dot | crates/arroyo-formats/src/avro/reader.rs:93 | the path is the parent, a dot, then the name |
| SchemaIndex.Prefixed | crates/arroyo-formats/src/avro/reader.rs:79-81 | each key `k` of a record's own lookup appears as `path.k` with its position; no other key appears |
| SchemaIndex.FirstNonNull | crates/arroyo-formats/src/avro/reader.rs:73-75 | the first variant that is not null, or none if all are null |
| SchemaIndex.NullableBranch | crates/arroyo-formats/src/avro/reader.rs:66-77 | a union is looked through iff it has exactly two variants, one null and one not; the followed variant is the non-null one |
| SchemaIndex.Entries | crates/arroyo-formats/src/avro/reader.rs:64-104 | reference definition, with no contract of its own, of what `child_schema_lookup` inserts below `path`: a nullable union its non-null branch, a record its own positions and then its fields, an array its items under `path.element`, anything else nothing; ChildSchemaLookup is proved to insert exactly this, and the lemmas below state its properties |
| SchemaIndex.FieldEntries | crates/arroyo-formats/src/avro/reader.rs:88-95 | reference definition, with no contract of its own: the entries of a record's fields, each under `prefix + name`, in field order with later fields winning |
| SchemaIndex.ChildSchemaLookup | crates/arroyo-formats/src/avro/reader.rs:64-104 | the index after the call is the incoming index overridden by exactly `Entries(path, s)` |
| SchemaIndex.RecordLookup | crates/arroyo-formats/src/avro/reader.rs:78-87 | the record arm inserts the record's own positions under `path`, then each field's entries under `path.name`, in field order |
| SchemaIndex.InsertOwnPositions | crates/arroyo-formats/src/avro/reader.rs:79-81 | the loop over the record's lookup adds exactly `Prefixed(path, lookup)` |
| SchemaIndex.SchemaLookup | crates/arroyo-formats/src/avro/reader.rs:47-62 | a non-record schema is an error; a record gives its own lookup overridden by each field's entries, in field order, under the bare field name |
| SchemaIndex.EntriesUnderPath | crates/arroyo-formats/src/avro/reader.rs:64-104 | every key inserted below `path` starts with `path` and a dot |
| SchemaIndex.FieldEntriesUnderPrefix | crates/arroyo-formats/src/avro/reader.rs:92-95 | every key a field inserts continues after the prefix with the field name and a dot |
| SchemaIndex.RecordPositionsKept | crates/arroyo-formats/src/avro/reader.rs:78-87 | for dot-free field names, `parent.f` maps to `f`'s position in the nested record's own lookup; deeper levels never overwrite it |
| SchemaIndex.TopLevelPositionsKept | crates/arroyo-formats/src/avro/reader.rs:47-57 | the root record's own positions survive all the field entries |
| SchemaIndex.NullableUnionTransparent | crates/arroyo-formats/src/avro/reader.rs:66-77 | a nullable union inserts what its non-null branch inserts, on either side |
| SchemaIndex.OtherUnionsIgnored | crates/arroyo-formats/src/avro/reader.rs:66-77 | any other union inserts nothing |
| ListLayout.ListOffsets | crates/arroyo-formats/src/avro/reader.rs:398-418 | there are one more offsets than rows; they start at 0 and end at the total element count; each row adds its array length, 0 for null, and 1 for any other scalar |
| ListLayout.ListValidity | crates/arroyo-formats/src/avro/reader.rs:405-412 | one bit per row, set iff the row is an array after one union unwrap |
| ListLayout.BuildListOffsets | crates/arroyo-formats/src/avro/reader.rs:398-418 | the running-offset loop produces exactly `ListOffsets` and `ListValidity` |
| ListLayout.OffsetsMonotone | crates/arroyo-formats/src/avro/reader.rs:398-418 | offsets never decrease |
| ListLayout.ListColumnWellFormed | crates/arroyo-formats/src/avro/reader.rs:552-559 | the list array meets the Arrow list layout rules iff its child has one slot per element and is itself well formed |
| ListLayout.RowElements | crates/arroyo-formats/src/avro/reader.rs:786-799 | a row's elements are an array's items, none for null, and the value itself for any other scalar; their count is the row's offset step |
| ListLayout.ElementRows | crates/arroyo-formats/src/avro/reader.rs:786-799 | the corrected child rows number exactly the last offset |
| ListLayout.ElementRowsAligned | crates/arroyo-formats/src/avro/reader.rs:479-494 | row `i`'s elements are exactly the child rows between offsets `i` and `i + 1` |
| ListLayout.FlattenRow | crates/arroyo-formats/src/avro/reader.rs:790-797 | as written: a row that is not null gives exactly its `RowElements` (an array's items, or the scalar itself); a null row gives one null element |
| ListLayout.FlattenValues | crates/arroyo-formats/src/avro/reader.rs:786-799 | as written: `flatten_values` yields one element more than the offsets count for every null row |
| ListLayout.FlattenValuesAgree | crates/arroyo-formats/src/avro/reader.rs:786-799 | `flatten_values` returns exactly the corrected child rows, so each array's elements in row order, if and only if no row is null |
| ListLayout.FlattenValuesMisaligned | crates/arroyo-formats/src/avro/reader.rs:479-494 | with rows [null, [[1]]], the offsets give row 1 the slot at 0; `flatten_values` puts row 0's null there, while the corrected rows put [1] there |
| ListLayout.StringCell | crates/arroyo-formats/src/avro/reader.rs:814 | a slot holds a string iff `resolve_string` reads one; otherwise it is null and the read never fails |
| ListLayout.StringRow | crates/arroyo-formats/src/avro/reader.rs:809-819 | one string slot per element of the row |
| ListLayout.FlattenStringValues | crates/arroyo-formats/src/avro/reader.rs:805-822 | one slot per element; never fails |
| ListLayout.FlattenStringValuesPointwise | crates/arroyo-formats/src/avro/reader.rs:805-822 | slot `k` is the string of child row `k`, so the string child agrees with the offsets |
| ListLayout.NumericCells | crates/arroyo-formats/src/avro/reader.rs:753-756 | the first resolver failure, or one cell per item equal to that item's resolution |
| ListLayout.PrimitiveRowAsWritten | crates/arroyo-formats/src/avro/reader.rs:750-762 | as written: an array row gives its items' resolutions; a scalar row fails iff it cannot be resolved, and yields fewer values than its offset step exactly when it is not null and resolves to nothing |
| ListLayout.ReadPrimitiveListValuesAsWritten | crates/arroyo-formats/src/avro/reader.rs:743-766 | as written: never more child values than the offsets count |
| ListLayout.ReadPrimitiveListValuesShort | crates/arroyo-formats/src/avro/reader.rs:743-766 | as written, the Int8 list with the single scalar row 300 yields no child value, although the offsets count one |
| ListLayout.ReadPrimitiveListValues | crates/arroyo-formats/src/avro/reader.rs:743-766 | corrected: one cell per child row, equal to that row's resolution and within the target range; Ok iff every child row resolves |
| ListLayout.ReadPrimitiveListValuesAgree | crates/arroyo-formats/src/avro/reader.rs:743-766 | the code as written and the corrected reader agree whenever every scalar row resolves to a value |
| ListLayout.FloatCells | crates/arroyo-formats/src/avro/reader.rs:753-756 | the first failure, or one number per item |
| ListLayout.ReadFloatListValues | crates/arroyo-formats/src/avro/reader.rs:460-461 | a float child has one cell per child row, equal to the number that row carries |
| ListLayout.FloatRowAsWritten | crates/arroyo-formats/src/avro/reader.rs:750-762 | as written, for a float type: a row never yields more values than its offset step, and exactly its step when it is not a nested union |
| ListLayout.ReadFloatListValuesAsWritten | crates/arroyo-formats/src/avro/reader.rs:743-766 | as written, for a float type: never more child values than the offsets count |
| ListLayout.ReadFloatListValuesAgree | crates/arroyo-formats/src/avro/reader.rs:460-461 | for rows that are not nested unions, the float reader as written equals the corrected one, so float lists need no correction |
| ListLayout.RawBoolRow | crates/arroyo-formats/src/avro/reader.rs:426-439 | as written: a row that is not a bare array (a union-wrapped array included) contributes nothing; a bare array contributes one slot per item, holding the boolean for a bare boolean item and null for anything else, a union-wrapped boolean included |
| ListLayout.BoolListValuesAsWritten | crates/arroyo-formats/src/avro/reader.rs:421-448 | as written: one slot per element; the raw items fill the first slots in row order, and every later slot reads as a valid `false` |
| ListLayout.BoolListValues | crates/arroyo-formats/src/avro/reader.rs:421-448 | corrected: slot `k` is `resolve_boolean` of child row `k` |
| ListLayout.BoolListValuesAgree | crates/arroyo-formats/src/avro/reader.rs:421-448 | on rows that are bare arrays or null, with no union items, the loop as written equals the corrected reader |
| ListLayout.BoolListUnionRow | crates/arroyo-formats/src/avro/reader.rs:426-439 | a union-wrapped array [true] reads as [false] as written and as [true] corrected |
| ListLayout.StructItem | crates/arroyo-formats/src/avro/reader.rs:513-527 | a record is a valid slot over its fields; null is a null slot over the placeholder; anything else is an error |
| ListLayout.StructItems | crates/arroyo-formats/src/avro/reader.rs:509-528 | the first failure, or one slot per item |
| ListLayout.StructRowAsWritten | crates/arroyo-formats/src/avro/reader.rs:509-532 | as written: an array row gives its struct items; any other row, null included, gives one null slot over the placeholder, so a null row takes one slot more than its offset step |
| ListLayout.StructRow | crates/arroyo-formats/src/avro/reader.rs:509-532 | corrected: a row gives one struct slot per element; a null row gives none |
| ListLayout.StructElementRows | crates/arroyo-formats/src/avro/reader.rs:495-534 | corrected: exactly as many struct slots as the last offset |
| ListLayout.StructElementRowsAsWritten | crates/arroyo-formats/src/avro/reader.rs:495-534 | as written: one struct slot more than the offsets count for every null row |
| ListLayout.StructElementRowsAligned | crates/arroyo-formats/src/avro/reader.rs:495-545 | corrected: row `i`'s struct slots are exactly the slots between offsets `i` and `i + 1` |
| ListLayout.StructElementRowsMisaligned | crates/arroyo-formats/src/avro/reader.rs:530-533 | with rows [null, [record]], as written the slot at offset 0 is row 0's null placeholder; corrected it is row 1's record |
| FieldAccess.ColumnCells | crates/arroyo-formats/src/avro/reader.rs:168-181 | one cell per row: null where the lookup finds nothing, the resolved value otherwise; Ok iff every found value resolves |
| FieldAccess.BooleanCell | crates/arroyo-formats/src/avro/reader.rs:155-163 | a cell is present iff the field is found and holds a boolean, and then it is that boolean |
| FieldAccess.BooleanCells | crates/arroyo-formats/src/avro/reader.rs:152-166 | one boolean cell per row |
| FieldAccess.BuildBooleanArray | crates/arroyo-formats/src/avro/reader.rs:152-166 | the append loop builds exactly one `BooleanCell` per row, in row order |
| DictionaryList.RowStrings | crates/arroyo-formats/src/avro/reader.rs:275-295 | after one union unwrap: a string gives itself; null gives one null; a record is an error; an array gives its items' strings, failing iff one fails; anything else gives its `resolve_string` |
| DictionaryList.StringItems | crates/arroyo-formats/src/avro/reader.rs:281-286 | the first failure, or one string per item |
| DictionaryList.WrappedLists | crates/arroyo-formats/src/avro/reader.rs:272-336 | corrected: one list per row; offsets start at 0, never decrease and end at the value count; a list is valid iff its field is present; row `i`'s strings sit exactly between its offsets; Ok iff every row is readable |
| DictionaryList.WrappedListColumn | crates/arroyo-formats/src/avro/reader.rs:245-338 | corrected: a well-formed list column with one slot per row over a dictionary child of the key type; valid iff the field is present |
| DictionaryList.WrappedListsAsWritten | crates/arroyo-formats/src/avro/reader.rs:272-336 | as written: Ok iff every present row is readable; one list, always valid, per row whose field is present, so one list fewer than rows for every missing field |
| DictionaryList.WrappedListColumnAsWritten | crates/arroyo-formats/src/avro/reader.rs:245-338 | as written: fails exactly when the corrected column does, with a dictionary child of the key type, but has one slot fewer than rows for every row whose field is missing |
| DictionaryList.WrappedListColumnDropsRows | crates/arroyo-formats/src/avro/reader.rs:273 | with the shipped lookup and one row, the column as written has no slot; corrected, it has one null list |
| DictionaryList.ListArrayStringArrayBuilder | crates/arroyo-formats/src/avro/reader.rs:272-336 | corrected: the row loop, with a missing field appended as a null list, builds exactly `WrappedListColumn` |
| DictionaryList.BuildWrappedListArray | crates/arroyo-formats/src/avro/reader.rs:191-242 | corrected: dictionary lists are built for the eight integer key types; any other key type is an error |
| ColumnBuilder.DictionaryCells | crates/arroyo-formats/src/avro/reader.rs:341-360 | one dictionary cell per row |
| ColumnBuilder.NumericColumn | crates/arroyo-formats/src/avro/reader.rs:168-181 | an integer column of the right kind with one slot per row; a missing field gives a null slot; a found value's slot is its numeric resolution, which fits the type; Ok iff every found value resolves |
| ColumnBuilder.FloatingColumn | crates/arroyo-formats/src/avro/reader.rs:588-593 | a float column with one slot per row; a missing field gives a null slot; a found value's slot is the number it carries; Ok iff every found value reads as a number |
| ColumnBuilder.TextColumn | crates/arroyo-formats/src/avro/reader.rs:643-653 | a string column with one slot per row; a missing field gives a null slot; a found value's slot is its `resolve_string`; the first unreadable value fails the column |
| ColumnBuilder.BytesColumn | crates/arroyo-formats/src/avro/reader.rs:654-661 | one slot per row, holding `resolve_bytes` of the found value; it never fails |
| ColumnBuilder.FixedColumn | crates/arroyo-formats/src/avro/reader.rs:662-670 | a fixed-size binary column of `resolve_fixed` cells; a present cell of another length fails the column with a width mismatch |
| ColumnBuilder.StringDictionaryColumn | crates/arroyo-formats/src/avro/reader.rs:363-389 | Ok iff the value type is Utf8 and the key type is an integer type; the value type is checked first |
| ColumnBuilder.ScalarColumn | crates/arroyo-formats/src/avro/reader.rs:586-670 | a non-nested field gives a well-formed column of its type with one slot per row and a null wherever the field is missing; only supported types succeed; null, boolean and binary columns never fail |
| ColumnBuilder.StructSlot | crates/arroyo-formats/src/avro/reader.rs:700-717 | the validity bit is set iff the found value is a record after one union unwrap; a missing or null value gives an empty row; anything else is an error |
| ColumnBuilder.StructSlots | crates/arroyo-formats/src/avro/reader.rs:696-718 | one slot per row, each the row's `StructSlot`; Ok iff every row is a record, null or missing; a failure is the shape mismatch at the field's path |
| ColumnBuilder.LeafChild | crates/arroyo-formats/src/avro/reader.rs:419-478 | corrected: a non-nested item type gives a well-formed child of that type with one slot per element: booleans are `BoolListValues`, integers `ReadPrimitiveListValues`, floats `ReadFloatListValues` and strings `FlattenStringValues`, each read slot by slot from the child rows; temporal items fail as not yet supported |
| ColumnBuilder.BuildColumn | crates/arroyo-formats/src/avro/reader.rs:586-735 | corrected: any field type gives a well-formed column conforming to the type, with one slot per row and a null wherever the field is missing; only supported types succeed |
| ColumnBuilder.BuildFields | crates/arroyo-formats/src/avro/reader.rs:571-740 | one column per field, in field order, each the field's `BuildColumn` at its path below the parent; Ok iff every field's column succeeds |
| ColumnBuilder.BuildNestedListArray | crates/arroyo-formats/src/avro/reader.rs:392-561 | corrected: a well-formed list array whose offsets and validity are `ListOffsets` and `ListValidity`, with a child of the item type holding one slot per element; a nested list's child is laid out over `ElementRows(rows)`; a struct item's child is `StructChild`, and any other item's is `LeafChild`; only supported item types succeed, a LargeList item included (as written it always panics, see `ArrayTypes.WideListArrayRejected`) |
| ColumnBuilder.StructChild | crates/arroyo-formats/src/avro/reader.rs:495-545 | corrected: a list of structs has one struct slot per element; the validity bits are those of `StructElementRows`; the children are `BuildFields` over the slots' records; Ok iff both succeed |
| ArrayTypes.ArrayType | crates/arroyo-formats/src/avro/reader.rs:471-478 | the array type for a layout (strings, bytes or lists) and an offset width has that layout and that width |
| ArrayTypes.ArrayTypeOfParts | crates/arroyo-formats/src/avro/reader.rs:471-494 | a type has a layout iff it has an offset width, and building with the declared layout and width gives back the declared type |
| ArrayTypes.ListArrayTypeAccepted | crates/arroyo-formats/src/avro/reader.rs:553-560 | corrected: a list array typed for the width it is built with passes the `GenericListArray::<O>::from` check |
| ArrayTypes.ArrayTypeAsWritten | crates/arroyo-formats/src/avro/reader.rs:553 | as written: top-level and struct strings and bytes, and all list data, get the 32-bit type of their layout, whatever the declared width |
| ArrayTypes.AsWrittenTypeMismatch | crates/arroyo-formats/src/avro/reader.rs:643-661 | as written: the built type equals the declared variable-size type iff the declared type has 32-bit offsets |
| ArrayTypes.WideListArrayRejected | crates/arroyo-formats/src/avro/reader.rs:487-493 | as written: the `::<i64>` list for a LargeList item fails the conversion at reader.rs:560 for every item field, while the `::<i32>` list passes |
| Decoder.RecordRows | crates/arroyo-formats/src/avro/reader.rs:120-134 | the buffered records, in order; Ok iff every buffered value is a record |
| Decoder.DecodeBatch | crates/arroyo-formats/src/avro/reader.rs:118-150 | corrected: a non-record aborts the pass; otherwise the result has one well-formed, conforming column per schema field, each with one slot per buffered value |
| Decoder.MissingFieldsAreNull | crates/arroyo-formats/src/avro/reader.rs:146 | corrected: every slot of a top-level column whose field the lookup cannot find is null |
| Decoder.ShippedLookupYieldsNulls | crates/arroyo-formats/src/avro/reader.rs:768-779 | corrected: with the shipped lookup, every slot of every column of a successful pass is null |
| Decoder.NonRecordPoisons | crates/arroyo-formats/src/avro/reader.rs:132 | once a non-record value is buffered, every later pass fails |
| Decoder.AppendRecord | crates/arroyo-formats/src/avro/reader.rs:107-109 | appending a record extends the buffered records by its fields |
| Decoder.AvroDecoder.constructor | crates/arroyo-formats/src/avro/reader.rs:38-45 | a new decoder has an empty buffer |
| Decoder.AvroDecoder.AppendValue | crates/arroyo-formats/src/avro/reader.rs:107-109 | exactly one entry is added, at the end of the buffer |
| Decoder.AvroDecoder.NextBatch | crates/arroyo-formats/src/avro/reader.rs:118-150 | corrected: returns `DecodeBatch` of the whole buffer and changes nothing, so repeated calls see the same rows |
| Watermark.Maximum | crates/arroyo-worker/src/arrow/watermark_generator.rs:161 | the largest present value, absent iff every value is null |
| Watermark.Minimum | crates/arroyo-worker/src/arrow/watermark_generator.rs:179 | the smallest present value, absent iff every value is null |
| Watermark.ShouldEmit | crates/arroyo-worker/src/arrow/watermark_generator.rs:182-187 | emit iff idle, or the largest timestamp is more than one interval after the last emission; equality does not emit |
| Watermark.WatermarkGenerator.Expression | crates/arroyo-worker/src/arrow/watermark_generator.rs:43-59 | epoch state, not idle, last event now, nothing emitted |
| Watermark.WatermarkGenerator.OnStart | crates/arroyo-worker/src/arrow/watermark_generator.rs:115-131 | restores the stored state of its task index (or the defaults) and restarts the idle clock |
| Watermark.WatermarkGenerator.ProcessBatch | crates/arroyo-worker/src/arrow/watermark_generator.rs:151-199 | a batch with no timestamp changes only the last-event time; otherwise the largest watermark becomes max(old, batch minimum), so it never decreases; when due, the batch minimum is emitted, the emission time becomes the batch maximum and the generator leaves idle; otherwise both stay unchanged |
| Watermark.WatermarkGenerator.HandleTick | crates/arroyo-worker/src/arrow/watermark_generator.rs:216-232 | with an idle timeout, a generator that is not idle and has been quiet longer than the timeout emits `Idle` and becomes idle; in every other case nothing changes |
| Watermark.WatermarkGenerator.OnClose | crates/arroyo-worker/src/arrow/watermark_generator.rs:133-149 | emits the far-future watermark iff the final message is end of data |
| Watermark.WatermarkGenerator.HandleCheckpoint | crates/arroyo-worker/src/arrow/watermark_generator.rs:201-214 | stores the current state unchanged under its task index, so a restart restores it; no other task's entry changes |
| Watermark.EmittedWatermarkCanRegress | crates/arroyo-worker/src/arrow/watermark_generator.rs:179-194 | two batches with watermarks 10 then 5 emit 10 then 5, while the tracked maximum stays 10 |

Some plain definitions carry no row of their own; the members above state what they mean:
- `FieldAccess.StubLookup`: the shipped `field_lookup` (reader.rs:768-779). See `Decoder.ShippedLookupYieldsNulls`.
- `FieldAccess.FieldPath`: the field path (reader.rs:580-584). It is used by `ColumnBuilder.BuildFields`.
- `ColumnBuilder.ExtractedRows`: the list rows of a list field (reader.rs:677-684).
- `ColumnBuilder.DictionaryCell`: one dictionary cell. See `ColumnBuilder.DictionaryCells`.
- `DictionaryList.RowContent`: one row's strings. See `DictionaryList.WrappedLists`.
- `DictionaryList.MissingRows`: the count of rows whose field is missing.
- `Watermark.Restore`: the state a restart restores. See `HandleCheckpoint` and `OnStart`.
- `Watermark.Elapsed`: the saturating `duration_since`. See `Watermark.ShouldEmit`.
- `ArrayTypes.LayoutOf`, `ArrayTypes.WidthOf`: the layout and the offset width of a variable-size Arrow type. See `ArrayTypes.ArrayTypeOfParts`.
- `ArrayTypes.ListArrayAccepts`: the type check of arrow-rs's `GenericListArray::<O>::from` (reader.rs:560). Its source is not part of this model. See `ArrayTypes.WideListArrayRejected`.

## Left out

- The schema registry and schema resolver (`schema_registry`, `schema_resolver`) are left out. They are shared state behind a lock, plus fetches from outside.
- Arrow's byte-level buffers are not modelled: `MutableBuffer`, bitmaps and `ArrayData` builders. Arrays are their logical content: cells, offsets, validity and children.
- Dictionary key assignment and key overflow (reader.rs:319, 351) are left out. A dictionary column is modelled by its entries.
- `RecordBatch::try_new` is not modelled. Neither are Arrow's checks on a finished batch: equal column lengths, nullability of non-nullable fields, and a batch with no columns.
- The struct `ArrayDataBuilder::build()?` validation is not modelled (reader.rs:722-727).
- Offset overflow is not modelled. The offset widths are followed only in the array types (`ArrayTypes`); `Arrow.Column` carries no type.
- ColumnBuilder.BuildNestedListArray, Arrow.ElementSupported, ColumnBuilder.TextColumn, ColumnBuilder.BytesColumn, ColumnBuilder.ScalarColumn: these use the corrected array types of "## Findings". A LargeList item succeeds here, while as written it always panics at reader.rs:560. A top-level or struct-child LargeUtf8 or LargeBinary field gives a column here, while as written its 32-bit array fails `RecordBatch::try_new` or the struct `build()?` (reader.rs:722-727).
- `flush`, `display`, `name`, `tables` and `tick_interval` are left out. They are constants or presentation.
- The `Utf8` builder branch of `list_array_string_array_builder` is left out. Its only caller always passes a dictionary type, so the branch is unreachable.
- Resolvers.CastTo: the float-to-integer cast does not model NaN or infinity. Avro floats are modelled as reals.
- ColumnBuilder.FloatingColumn: a float column keeps the exact number read, with no rounding to f32 or f64.
- ListLayout.ReadFloatListValues: same as above, no rounding of floats.
- Watermark.WatermarkGenerator.ProcessBatch: the timestamp and watermark columns hold natural numbers. A negative nanosecond timestamp, and its `as u128` cast, are not modelled.
- Watermark.WatermarkGenerator.ProcessBatch: the precondition stands for the `unwrap` of the watermark minimum at watermark_generator.rs:179. The expression evaluation, the downcast and their `unwrap`s are outside the model.
- The watermark plumbing is left out. That covers `async`, forwarding the batch to the collector, the `table_manager` access, `PhysicalExpr::evaluate`, protobuf decoding in `WatermarkGeneratorConstructor`, `SystemTime::now()` (a parameter here) and the logs.
- Nested unions are not unwrapped more than once. Avro forbids a union directly inside a union.
- ColumnBuilder.StructChild, SchemaIndex.Entries: the children of a list of structs are looked up under `parent.<item field name>.f` (reader.rs:536), while the index inserts `parent.element.f` (reader.rs:93). Both sides are modelled as written. They meet only when the item field is named `element`. The shipped lookup never consults the index, so this has no effect on a decode pass.
- ColumnBuilder.BuildColumn, ColumnBuilder.BuildFields, ColumnBuilder.BuildNestedListArray, ColumnBuilder.LeafChild, ColumnBuilder.StructChild, DictionaryList.BuildWrappedListArray, DictionaryList.ListArrayStringArrayBuilder, Decoder.DecodeBatch, Decoder.AvroDecoder.NextBatch, Decoder.MissingFieldsAreNull, Decoder.ShippedLookupYieldsNulls: these are built on the corrected readers of "## Findings", so they model the intended reader, not the code as written. Where a finding applies, the source panics or builds a column shorter than its batch, and these members succeed instead. Two examples: an Int8 list holding the scalar 300 gives one null slot; a `List(Dictionary)` field with the shipped lookup gives one null list per row.
- ListLayout.ReadFloatListValuesAgree, ListLayout.FloatRowAsWritten: agreement with the offsets is proved only for rows that are not a union nested in a union. Avro forbids that shape.

## Findings

| source | as written | input that shows it | evidently intended | confidence | as-written member | corrected member |
|---|---|---|---|---|---|---|
| crates/arroyo-formats/src/avro/reader.rs:479-494 | `flatten_values` turns a null row into one child element, but the offsets (reader.rs:398-418) give a null row none, so child rows after a null row are shifted | rows [null, [[1]]] of a list of lists: row 1's slot holds null instead of [1] | a null row contributes no child element, so each row's elements sit between its offsets | not executed | ListLayout.FlattenValuesMisaligned | ListLayout.ElementRowsAligned |
| crates/arroyo-formats/src/avro/reader.rs:495-534 | in a list of structs, a null row becomes one null struct slot, but the offsets give it none | rows [null, [record]]: the slot at row 1's offset is row 0's null placeholder | a null row contributes no struct slot | not executed | ListLayout.StructElementRowsMisaligned | ListLayout.StructElementRowsAligned |
| crates/arroyo-formats/src/avro/reader.rs:421-448 | the boolean list loop reads only bare arrays, without the union unwrap that the offsets use; unfilled slots keep a set validity bit and read as false | the row Union(1, [true]): the child reads [false] | each element is `resolve_boolean` of the union-unwrapped item | not executed | ListLayout.BoolListUnionRow | ListLayout.BoolListValues |
| crates/arroyo-formats/src/avro/reader.rs:743-766 | `read_primitive_list_values` drops a scalar row that does not resolve, but the offsets count it, so the child is shorter than the last offset and `build().unwrap()` (reader.rs:553-559) panics | the Int8 list with the single scalar row 300 | an unresolvable scalar becomes a null slot | not executed | ListLayout.ReadPrimitiveListValuesShort | ListLayout.ReadPrimitiveListValues |
| crates/arroyo-formats/src/avro/reader.rs:487-493 | `build_nested_list_array::<i64>` for a LargeList item types its list data `List` (reader.rs:553), so `GenericListArray::<i64>::from` (reader.rs:560) rejects it | any list field whose item type is LargeList, with any rows | the list data is typed `LargeList` when the offsets are `i64` | not executed; rests on the arrow-rs conversion check | ArrayTypes.WideListArrayRejected | ArrayTypes.ListArrayTypeAccepted |
| crates/arroyo-formats/src/avro/reader.rs:643-661 | a LargeUtf8 or LargeBinary field outside a list is collected into a 32-bit `StringArray` or `BinaryArray`, whose type differs from the declared one | a schema with one LargeUtf8 field, with any rows | the array has the declared type, as the list-item branch does with `LargeStringArray` (reader.rs:475-478) | not executed; rests on the arrow-rs type checks | ArrayTypes.AsWrittenTypeMismatch | ArrayTypes.ArrayTypeOfParts |
| crates/arroyo-formats/src/avro/reader.rs:272-273 | `list_array_string_array_builder` appends no list for a row whose field is missing, so the column has fewer slots than rows | one row with the shipped lookup: a column of length 0 | a missing field appends a null list | not executed | DictionaryList.WrappedListColumnDropsRows | DictionaryList.WrappedListColumn |
