/**
 The component schemas of the OpenAPI document (src/openapi.rs): messages are registered by short
 name as the operations mention them, through a graph of messages that may be cyclic.
 */
module Schemas {
  import opened Descriptors

  /** The JSON Schema of a field: spelled out, or a reference to a component by name. */
  datatype Shape =
    | Inline(form: string)
    | Ref(name: string)
    | ArrayOf(items: Shape)
    | Dict(values: Shape)

  /** A component: a message by its fields' JSON names, or a bare object while it is being walked. */
  datatype Schema = Placeholder | Object(properties: map<string, Shape>)

  type Table = map<string, Schema>

  function Name(pool: Pool, full: string): string
    requires full in pool.messages
  {
    pool.messages[full].name
  }

  function Names(pool: Pool): set<string> {
    set full | full in pool.messages :: pool.messages[full].name
  }

  predicate InPool(pool: Pool, f: Field) {
    exists full :: full in pool.messages && f in pool.Fields(full)
  }

  /** The message is the entry of a map field. */
  ghost predicate IsEntry(pool: Pool, full: string) {
    exists f :: InPool(pool, f) && f.card.MapOf? && f.kind == Message(full)
  }

  predicate IsValueField(f: Field) {
    f.name == "value"
  }

  /** The position of the field named "value", or the number of fields. */
  function ValueIndex(fields: seq<Field>): (i: nat)
    ensures i <= |fields|
    ensures i < |fields| ==> IsValueField(fields[i])
  {
    if fields == [] || IsValueField(fields[0]) then 0 else 1 + ValueIndex(fields[1..])
  }

  /** A map's entry is an ordinary message with a value, which is not itself a map. */
  ghost predicate EntriesWellFormed(pool: Pool) {
    forall e :: IsEntry(pool, e) ==> && e in pool.messages && e !in pool.wellKnown
                                     && ValueIndex(pool.Fields(e)) < |pool.Fields(e)|
                                     && !pool.Fields(e)[ValueIndex(pool.Fields(e))].card.MapOf?
  }

  ghost predicate WellFormed(pool: Pool) {
    pool.Complete() && EntriesWellFormed(pool)
  }

  // ---- the schema of one field ---------------------------------------------------------------------

  function Base(pool: Pool, f: Field): Shape
    requires pool.Holds(f)
  {
    match f.kind
    case Plain(name) => Inline(name)
    case Message(full) => if full in pool.wellKnown then Inline(full) else Ref(Name(pool, full))
  }

  function NonMapSchema(pool: Pool, f: Field): Shape
    requires pool.Holds(f)
  {
    if f.card.Repeated? then ArrayOf(Base(pool, f)) else Base(pool, f)
  }

  /** The schema of an entry's values. */
  function ValueSchema(pool: Pool, e: string): Shape
    requires pool.Complete() && e in pool.messages
  {
    var i := ValueIndex(pool.Fields(e));
    if i < |pool.Fields(e)| then NonMapSchema(pool, pool.Fields(e)[i]) else Inline("")
  }

  function FieldSchema(pool: Pool, f: Field): Shape
    requires pool.Complete() && pool.Holds(f)
  {
    if !f.card.MapOf? then NonMapSchema(pool, f)
    else if f.kind.Message? then Dict(ValueSchema(pool, f.kind.full))
    else Inline("object")
  }

  function Properties(pool: Pool, fields: seq<Field>, exclude: set<string>): map<string, Shape>
    requires pool.Complete()
    requires forall i :: 0 <= i < |fields| ==> pool.Holds(fields[i])
  {
    if fields == [] then map[]
    else
      var last := fields[|fields| - 1];
      var others := Properties(pool, fields[..|fields| - 1], exclude);
      if last.name in exclude then others else others[last.jsonName := FieldSchema(pool, last)]
  }

  /** The `i`-th field is written, under the JSON name `k`. */
  predicate Writes(fields: seq<Field>, exclude: set<string>, i: nat, k: string) {
    i < |fields| && fields[i].name !in exclude && fields[i].jsonName == k
  }

  /** The last field written under the JSON name `k`. */
  predicate WritesLast(fields: seq<Field>, exclude: set<string>, i: nat, k: string) {
    Writes(fields, exclude, i, k) && forall j: nat :: i < j < |fields| ==> !Writes(fields, exclude, j, k)
  }

  lemma WritesFront(fields: seq<Field>, exclude: set<string>, i: nat, k: string)
    requires i < |fields| - 1
    ensures Writes(fields, exclude, i, k) == Writes(fields[..|fields| - 1], exclude, i, k)
    ensures WritesLast(fields, exclude, i, k) ==> WritesLast(fields[..|fields| - 1], exclude, i, k)
  {
    var front := fields[..|fields| - 1];
    assert forall j: nat :: j < |front| ==> front[j] == fields[j];
    assert forall j: nat :: j < |front| ==> Writes(front, exclude, j, k) == Writes(fields, exclude, j, k);
  }

  /** A message has a property for each JSON name a field is written under, with the schema of the last such field. */
  lemma {:induction false} PropertyOfField(pool: Pool, fields: seq<Field>, exclude: set<string>, i: nat, k: string)
    requires pool.Complete() && WritesLast(fields, exclude, i, k)
    requires forall j :: 0 <= j < |fields| ==> pool.Holds(fields[j])
    ensures k in Properties(pool, fields, exclude)
    ensures Properties(pool, fields, exclude)[k] == FieldSchema(pool, fields[i])
  {
    var n := |fields| - 1;
    if i < n {
      WritesFront(fields, exclude, i, k);
      PropertyOfField(pool, fields[..n], exclude, i, k);
      assert !Writes(fields, exclude, n, k);
    }
  }

  /** And for no other name. */
  lemma {:induction false} PropertyHasField(pool: Pool, fields: seq<Field>, exclude: set<string>, k: string)
    returns (i: nat)
    requires pool.Complete() && (forall j :: 0 <= j < |fields| ==> pool.Holds(fields[j]))
    requires k in Properties(pool, fields, exclude)
    ensures Writes(fields, exclude, i, k)
  {
    i := |fields| - 1;
    if !Writes(fields, exclude, i, k) {
      i := PropertyHasField(pool, fields[..|fields| - 1], exclude, k);
    }
  }

  /** The schema of a message without the excluded fields, by JSON name. */
  function MessageSchema(pool: Pool, full: string, exclude: set<string>): Schema
    requires pool.Complete() && full in pool.messages
  {
    Object(Properties(pool, pool.Fields(full), exclude))
  }

  // ---- registration --------------------------------------------------------------------------------

  /** The table with the message of the field in it, and every message below that. */
  function Registered(pool: Pool, f: Field, table: Table): (after: Table)
    requires pool.Complete() && pool.Holds(f)
    ensures table.Keys <= after.Keys
    decreases Names(pool) - table.Keys, 0
  {
    if f.kind.Plain? || f.kind.full in pool.wellKnown || Name(pool, f.kind.full) in table then table
    else
      var full, name := f.kind.full, Name(pool, f.kind.full);
      assert name in Names(pool) - table.Keys;
      RegisteredAll(pool, full, 0, {}, table[name := Placeholder])[name := MessageSchema(pool, full, {})]
  }

  /** The table with the messages of the fields of `full` from the `i`-th on in it. */
  function RegisteredAll(pool: Pool, full: string, i: nat, exclude: set<string>, table: Table): (after: Table)
    requires pool.Complete() && full in pool.messages && i <= |pool.Fields(full)|
    ensures table.Keys <= after.Keys
    decreases Names(pool) - table.Keys, |pool.Fields(full)| - i + 1
  {
    if i == |pool.Fields(full)| then table
    else
      var f := pool.Fields(full)[i];
      var next := if f.name in exclude then table else Registered(pool, f, table);
      assert Names(pool) - next.Keys <= Names(pool) - table.Keys;
      RegisteredAll(pool, full, i + 1, exclude, next)
  }

  /** What an operation asks of the table, and puts into its own part of the document. */
  datatype Part =
    | Whole(full: string, exclude: set<string>)
    | OneField(field: Field)
    | Shared(full: string)
    | PathParam(field: Field)

  /** Requests and responses are not map entries. */
  ghost predicate Fits(pool: Pool, part: Part) {
    match part
    case Whole(full, _) => full in pool.messages && !IsEntry(pool, full)
    case OneField(f) => InPool(pool, f)
    case Shared(full) => full in pool.messages && !IsEntry(pool, full)
    case PathParam(f) => InPool(pool, f)
  }

  /** What the part names is in the pool. */
  predicate Known(pool: Pool, part: Part) {
    match part
    case Whole(full, _) => full in pool.messages
    case OneField(f) => pool.Holds(f)
    case Shared(full) => full in pool.messages
    case PathParam(f) => pool.Holds(f)
  }

  function Emitted(pool: Pool, part: Part): Shape
    requires pool.Complete() && Known(pool, part)
  {
    match part
    case Whole(full, _) => Ref(Name(pool, full))
    case OneField(f) => FieldSchema(pool, f)
    case Shared(full) => Ref(Name(pool, full))
    case PathParam(f) => FieldSchema(pool, f)
  }

  function TableAfter(pool: Pool, part: Part, table: Table): Table
    requires pool.Complete() && Known(pool, part)
  {
    match part
    case Whole(full, exclude) =>
      RegisteredAll(pool, full, 0, exclude, table)[Name(pool, full) := MessageSchema(pool, full, exclude)]
    case OneField(f) => Registered(pool, f, table)
    case Shared(full) =>
      if Name(pool, full) in table then table
      else RegisteredAll(pool, full, 0, {}, table)[Name(pool, full) := MessageSchema(pool, full, {})]
    case PathParam(_) => table
  }

  /** The component schemas, while the document is generated. */
  class Components {
    const pool: Pool
    var schemas: Table

    constructor (pool: Pool)
      ensures this.pool == pool && schemas == map[]
    {
      this.pool := pool;
      schemas := map[];
    }

    /**
     Register the message of a field. A placeholder goes in before its own fields are walked, so a
     message that contains itself is found there.
     */
    method RegisterNested(f: Field)
      requires pool.Complete() && pool.Holds(f)
      modifies this
      ensures schemas == Registered(pool, f, old(schemas))
      decreases Names(pool) - schemas.Keys, 0
    {
      if f.kind.Message? && f.kind.full !in pool.wellKnown {
        var full, name := f.kind.full, Name(pool, f.kind.full);
        if name !in schemas {
          assert name in Names(pool) - schemas.Keys;
          schemas := schemas[name := Placeholder];
          var nested := MessageToSchema(full, {});
          schemas := schemas[name := nested];
        }
      }
    }

    method MessageToSchema(full: string, exclude: set<string>) returns (schema: Schema)
      requires pool.Complete() && full in pool.messages
      modifies this
      ensures schema == MessageSchema(pool, full, exclude)
      ensures schemas == RegisteredAll(pool, full, 0, exclude, old(schemas))
      decreases Names(pool) - schemas.Keys, 1
    {
      var fields := pool.Fields(full);
      var properties := map[];
      for i := 0 to |fields|
        invariant properties == Properties(pool, fields[..i], exclude)
        invariant schemas == old(schemas)
      {
        assert fields[..i + 1][..i] == fields[..i];
        if fields[i].name !in exclude {
          properties := properties[fields[i].jsonName := FieldSchema(pool, fields[i])];
        }
      }
      assert fields[..|fields|] == fields;
      schema := Object(properties);
      for i := 0 to |fields|
        invariant RegisteredAll(pool, full, i, exclude, schemas) == RegisteredAll(pool, full, 0, exclude, old(schemas))
        invariant old(schemas).Keys <= schemas.Keys
      {
        if fields[i].name !in exclude {
          assert Names(pool) - schemas.Keys <= Names(pool) - old(schemas).Keys;
          RegisterNested(fields[i]);
        }
      }
    }

    /** One part of one operation. */
    method Add(part: Part) returns (schema: Shape)
      requires pool.Complete() && Known(pool, part)
      modifies this
      ensures schemas == TableAfter(pool, part, old(schemas))
      ensures schema == Emitted(pool, part)
    {
      match part {
        case Whole(full, exclude) =>
          var body := MessageToSchema(full, exclude);
          schemas := schemas[Name(pool, full) := body];
          schema := Ref(Name(pool, full));
        case OneField(f) =>
          RegisterNested(f);
          schema := FieldSchema(pool, f);
        case Shared(full) =>
          if Name(pool, full) !in schemas {
            var body := MessageToSchema(full, {});
            schemas := schemas[Name(pool, full) := body];
          }
          schema := Ref(Name(pool, full));
        case PathParam(f) =>
          schema := FieldSchema(pool, f);
      }
    }
  }
}
