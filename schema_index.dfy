/**
 * The schema path index of the Avro reader (`schema_lookup` and
 * `child_schema_lookup`): a table from dotted field paths to the position
 * of the field inside the record that owns it. Nested records contribute
 * `parent.field`, array items are reached through `parent.element`, and a
 * two-branch union with a `null` branch is looked through (the nullable
 * union of the Apache Avro specification, "Unions" under Complex Types).
 */
module SchemaIndex {
  import opened Common
  import opened Avro
  import opened Arrow

  /** `format!("{}.{}", parent, name)`. */
  function Dot(parent: string, name: string): (r: string)
    ensures |r| == |parent| + 1 + |name|
    ensures r[..|parent|] == parent && r[|parent|] == '.' && r[|parent| + 1..] == name
  {
    parent + "." + name
  }

  /** The entries a record's own lookup table contributes under `path`. */
  function Prefixed(path: string, lookup: map<string, nat>): (r: map<string, nat>)
    ensures forall k :: k in lookup ==> Dot(path, k) in r && r[Dot(path, k)] == lookup[k]
    ensures forall key :: key in r ==>
      |key| > |path| && key[..|path| + 1] == path + "." &&
      key[|path| + 1..] in lookup && r[key] == lookup[key[|path| + 1..]]
  {
    map k | k in lookup :: Dot(path, k) := lookup[k]
  }

  /** The first variant that is not `null`, as `iter().find(..)` picks it. */
  function FirstNonNull(vs: seq<Schema>): (r: Option<nat>)
    ensures r.Some? ==> r.value < |vs| && !vs[r.value].NullSchema?
    ensures r.Some? ==> forall j :: 0 <= j < r.value ==> vs[j].NullSchema?
    ensures r.None? ==> forall j :: 0 <= j < |vs| ==> vs[j].NullSchema?
  {
    if vs == [] then None
    else if !vs[0].NullSchema? then Some(0)
    else
      match FirstNonNull(vs[1..])
      case None => None
      case Some(i) => Some(i + 1)
  }

  /**
   * The variant `child_schema_lookup` follows in a union: only a union of
   * exactly two variants, one of them `null`, is looked through.
   */
  function NullableBranch(vs: seq<Schema>): (r: Option<nat>)
    ensures r.Some? <==> |vs| == 2 && NullSchema in vs && (!vs[0].NullSchema? || !vs[1].NullSchema?)
    ensures r.Some? ==> r.value < |vs| && !vs[r.value].NullSchema? && (r.value == 1 ==> vs[0].NullSchema?)
  {
    if |vs| == 2 && NullSchema in vs then FirstNonNull(vs) else None
  }

  /** The entries `child_schema_lookup(path, s, _)` inserts, in insertion order (later wins). */
  function Entries(path: string, s: Schema): map<string, nat>
    decreases s
  {
    match s
    case UnionSchema(vs) =>
      (match NullableBranch(vs)
       case Some(i) => Entries(path, vs[i])
       case None => map[])
    case RecordSchema(fields, lookup) => Prefixed(path, lookup) + FieldEntries(path + ".", fields)
    case ArraySchema(items) => Entries(Dot(path, "element"), items)
    case _ => map[]
  }

  /** The entries of the fields of a record, each under `prefix + name`, in field order. */
  function FieldEntries(prefix: string, fields: seq<RecordField>): map<string, nat>
    decreases fields
  {
    if fields == [] then map[]
    else
      var last := fields[|fields| - 1];
      assert last in fields;
      FieldEntries(prefix, fields[..|fields| - 1]) + Entries(prefix + last.name, last.schema)
  }

  /**
   * `child_schema_lookup`: inserts into `index` the entries below `path`;
   * the result is `index` overridden by exactly `Entries(path, s)`.
   */
  method ChildSchemaLookup(path: string, s: Schema, index: map<string, nat>) returns (r: map<string, nat>)
    ensures r == index + Entries(path, s)
    decreases s, 1
  {
    match s
    case UnionSchema(vs) =>
      r := index;
      if |vs| == 2 && NullSchema in vs {
        var branch := FirstNonNull(vs);
        if branch.Some? {
          r := ChildSchemaLookup(path, vs[branch.value], index);
        }
      }
    case RecordSchema(fields, lookup) =>
      r := RecordLookup(path, fields, lookup, index);
    case ArraySchema(items) =>
      r := ChildSchemaLookup(Dot(path, "element"), items, index);
    case _ =>
      r := index;
  }

  /**
   * The record arm of `child_schema_lookup`: the record's own table under
   * `path`, then each field, in order, under `path.name`.
   */
  method RecordLookup(path: string, fields: seq<RecordField>, lookup: map<string, nat>, index: map<string, nat>)
    returns (r: map<string, nat>)
    ensures r == index + Entries(path, RecordSchema(fields, lookup))
    decreases RecordSchema(fields, lookup), 0
  {
    r := InsertOwnPositions(path, lookup, index);
    for i := 0 to |fields|
      invariant r == index + Prefixed(path, lookup) + FieldEntries(path + ".", fields[..i])
    {
      assert fields[i] in fields;
      r := ChildSchemaLookup(path + "." + fields[i].name, fields[i].schema, r);
      FieldEntriesStep(path + ".", fields, i);
      UnionAssoc(index + Prefixed(path, lookup), FieldEntries(path + ".", fields[..i]),
        Entries(path + "." + fields[i].name, fields[i].schema));
    }
    assert fields[..|fields|] == fields;
    UnionAssoc(index, Prefixed(path, lookup), FieldEntries(path + ".", fields));
  }

  /** The `for_each` over a record's own lookup table: each `k` inserted as `path.k`. */
  method InsertOwnPositions(path: string, lookup: map<string, nat>, index: map<string, nat>)
    returns (r: map<string, nat>)
    ensures r == index + Prefixed(path, lookup)
  {
    r := index;
    var pending := lookup.Keys;
    while pending != {}
      invariant pending <= lookup.Keys
      invariant r == index + Prefixed(path, lookup - pending)
      decreases pending
    {
      var k :| k in pending;
      PrefixedExtend(path, lookup, pending, k);
      UnionUpdate(index, Prefixed(path, lookup - pending), Dot(path, k), lookup[k]);
      r := r[Dot(path, k) := lookup[k]];
      pending := pending - {k};
    }
    assert lookup - {} == lookup;
  }

  lemma UnionUpdate<K, V>(a: map<K, V>, b: map<K, V>, k: K, v: V)
    ensures (a + b)[k := v] == a + b[k := v]
  {
  }

  lemma UnionAssoc<K, V>(a: map<K, V>, b: map<K, V>, c: map<K, V>)
    ensures a + b + c == a + (b + c)
  {
  }

  /** The fields one longer prefix of a record contributes. */
  lemma FieldEntriesStep(prefix: string, fields: seq<RecordField>, i: nat)
    requires i < |fields|
    ensures FieldEntries(prefix, fields[..i + 1]) ==
      FieldEntries(prefix, fields[..i]) + Entries(prefix + fields[i].name, fields[i].schema)
  {
    assert fields[..i + 1][..i] == fields[..i];
  }

  /** One more key of a record's lookup table under `path`. */
  lemma PrefixedExtend(path: string, lookup: map<string, nat>, pending: set<string>, k: string)
    requires k in pending && pending <= lookup.Keys
    ensures Prefixed(path, lookup - pending)[Dot(path, k) := lookup[k]] == Prefixed(path, lookup - (pending - {k}))
  {
    var before := Prefixed(path, lookup - pending);
    var after := Prefixed(path, lookup - (pending - {k}));
    forall key | key in after
      ensures key in before[Dot(path, k) := lookup[k]]
    {
      if key != Dot(path, k) {
        assert key == Dot(path, key[|path| + 1..]);
      }
    }
  }

  /**
   * `schema_lookup`: for a record schema, its own lookup table extended by
   * the entries of each of its fields, in field order, each under the
   * field's bare name; any other schema is an error.
   */
  method SchemaLookup(s: Schema) returns (r: Result<map<string, nat>, Error>)
    ensures !s.RecordSchema? ==> r == Err(NotARecord)
    ensures s.RecordSchema? ==> r == Ok(s.lookup + FieldEntries("", s.fields))
  {
    match s
    case RecordSchema(fields, lookup) =>
      var index := lookup;
      for i := 0 to |fields|
        invariant index == lookup + FieldEntries("", fields[..i])
      {
        index := ChildSchemaLookup(fields[i].name, fields[i].schema, index);
        FieldEntriesStep("", fields, i);
        assert "" + fields[i].name == fields[i].name;
        UnionAssoc(lookup, FieldEntries("", fields[..i]), Entries(fields[i].name, fields[i].schema));
      }
      assert fields[..|fields|] == fields;
      return Ok(index);
    case _ =>
      return Err(NotARecord);
  }

  /** Every path below `path` starts with `path` and a dot. */
  lemma {:induction false} EntriesUnderPath(path: string, s: Schema)
    ensures forall key :: key in Entries(path, s) ==> |key| > |path| && key[..|path| + 1] == path + "."
    decreases s
  {
    match s
    case UnionSchema(vs) =>
      var b := NullableBranch(vs);
      if b.Some? {
        EntriesUnderPath(path, vs[b.value]);
      }
    case RecordSchema(fields, lookup) =>
      FieldEntriesUnderPrefix(path + ".", fields);
    case ArraySchema(items) =>
      EntriesUnderPath(Dot(path, "element"), items);
      forall key | key in Entries(path, s)
        ensures |key| > |path| && key[..|path| + 1] == path + "."
      {
        var p := Dot(path, "element");
        assert key[..|p| + 1][..|path| + 1] == key[..|path| + 1];
      }
    case _ =>
  }

  /** Every path under a field prefix continues, after the prefix, with a field name and a dot. */
  lemma {:induction false} FieldEntriesUnderPrefix(prefix: string, fields: seq<RecordField>)
    ensures forall key :: key in FieldEntries(prefix, fields) ==>
      |key| > |prefix| && key[..|prefix|] == prefix && '.' in key[|prefix|..]
    decreases fields
  {
    if fields != [] {
      var last := fields[|fields| - 1];
      assert last in fields;
      FieldEntriesUnderPrefix(prefix, fields[..|fields| - 1]);
      var p := prefix + last.name;
      EntriesUnderPath(p, last.schema);
      forall key | key in Entries(p, last.schema)
        ensures |key| > |prefix| && key[..|prefix|] == prefix && '.' in key[|prefix|..]
      {
        assert key[..|p| + 1][..|prefix|] == key[..|prefix|];
        assert key[|prefix|..][|last.name|] == key[|p|] == '.';
      }
    }
  }

  /**
   * The position of a record's own field is never overwritten by the entries
   * of a deeper level: `path.f` maps to `f`'s position in the record's own
   * lookup table, given that field names carry no dot (Avro names cannot).
   */
  lemma RecordPositionsKept(path: string, fields: seq<RecordField>, lookup: map<string, nat>)
    requires forall k :: k in lookup ==> '.' !in k
    ensures forall k :: k in lookup ==>
      Dot(path, k) in Entries(path, RecordSchema(fields, lookup)) &&
      Entries(path, RecordSchema(fields, lookup))[Dot(path, k)] == lookup[k]
  {
    FieldEntriesUnderPrefix(path + ".", fields);
    forall k | k in lookup
      ensures Dot(path, k) !in FieldEntries(path + ".", fields)
    {
      var key := Dot(path, k);
      assert key[|path + "."|..] == k;
    }
  }

  /** `schema_lookup` keeps every top-level position from the root record's own table. */
  lemma TopLevelPositionsKept(fields: seq<RecordField>, lookup: map<string, nat>)
    requires forall k :: k in lookup ==> '.' !in k
    ensures forall k :: k in lookup ==> (lookup + FieldEntries("", fields))[k] == lookup[k]
  {
    FieldEntriesUnderPrefix("", fields);
    forall k | k in lookup
      ensures k !in FieldEntries("", fields)
    {
      assert k[|""|..] == k;
    }
  }

  /** A nullable union is transparent, whichever side the `null` branch is on. */
  lemma NullableUnionTransparent(path: string, t: Schema)
    requires !t.NullSchema?
    ensures Entries(path, UnionSchema([NullSchema, t])) == Entries(path, t)
    ensures Entries(path, UnionSchema([t, NullSchema])) == Entries(path, t)
  {
    assert NullSchema in [NullSchema, t];
    assert NullSchema in [t, NullSchema];
  }

  /** Any other union contributes nothing, even when one of its branches is a record. */
  lemma OtherUnionsIgnored(path: string, vs: seq<Schema>)
    requires |vs| != 2 || NullSchema !in vs
    ensures Entries(path, UnionSchema(vs)) == map[]
  {
  }
}
