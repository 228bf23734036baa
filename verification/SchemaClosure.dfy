/**
 References in the OpenAPI document (src/openapi.rs): when map entries that share a short name with
 another message agree with it on what they refer to, every reference in every schema names a component.
 */
module SchemaClosure {
  import opened Descriptors
  import opened Schemas

  /** The components a shape refers to. */
  function Refs(shape: Shape): set<string> {
    match shape
    case Inline(_) => {}
    case Ref(name) => {name}
    case ArrayOf(items) => Refs(items)
    case Dict(values) => Refs(values)
  }

  predicate SchemaRefers(schema: Schema, names: set<string>) {
    schema.Object? ==> forall k :: k in schema.properties ==> Refs(schema.properties[k]) <= names
  }

  /** What the values of a map with the entry `e` refer to: one component at most. */
  function EntryRefs(pool: Pool, e: string): set<string>
    requires pool.Complete() && e in pool.messages
  {
    Refs(ValueSchema(pool, e))
  }

  /**
   A message that shares the short name of a map entry brings in whatever the entry's values refer to:
   it has that name itself, or is the entry of a map to messages of that name.
   */
  ghost predicate EntriesAgree(pool: Pool)
    requires pool.Complete()
  {
    forall e, m | IsEntry(pool, e) && e in pool.messages && m in pool.messages && Name(pool, m) == Name(pool, e) ::
      EntryRefs(pool, e) <= {Name(pool, e)} + if IsEntry(pool, m) then EntryRefs(pool, m) else {}
  }

  ghost predicate Lawful(pool: Pool) {
    WellFormed(pool) && EntriesAgree(pool)
  }

  /**
   Every reference in the table is to a component or to one of `owed`, and so is the value of every
   entry whose name is in it.
   */
  ghost predicate Sound(pool: Pool, table: Table, owed: set<string>)
    requires pool.Complete()
  {
    && (forall n :: n in table ==> SchemaRefers(table[n], table.Keys + owed))
    && (forall e :: IsEntry(pool, e) && e in pool.messages && Name(pool, e) in table ==>
          EntryRefs(pool, e) <= table.Keys + owed)
  }

  ghost predicate Closed(table: Table) {
    forall n :: n in table ==> SchemaRefers(table[n], table.Keys)
  }

  // ---- one message ---------------------------------------------------------------------------------

  lemma {:induction false} PropertiesRefer(pool: Pool, fields: seq<Field>, exclude: set<string>, names: set<string>)
    requires pool.Complete()
    requires forall i :: 0 <= i < |fields| ==> pool.Holds(fields[i])
    requires forall i :: 0 <= i < |fields| && fields[i].name !in exclude ==> Refs(FieldSchema(pool, fields[i])) <= names
    ensures SchemaRefers(Object(Properties(pool, fields, exclude)), names)
  {
    if fields != [] {
      PropertiesRefer(pool, fields[..|fields| - 1], exclude, names);
    }
  }

  /** A message may join, if it is an entry with its value there or owed. */
  lemma Joins(pool: Pool, table: Table, owed: set<string>, full: string, schema: Schema)
    requires Lawful(pool) && full in pool.messages && Sound(pool, table, owed)
    requires SchemaRefers(schema, table.Keys + owed)
    requires IsEntry(pool, full) ==> EntryRefs(pool, full) <= table.Keys + owed
    ensures Sound(pool, table[Name(pool, full) := schema], owed)
  {
    var name := Name(pool, full);
    var after := table[name := schema];
    assert table.Keys + owed <= after.Keys + owed;
    forall e | IsEntry(pool, e) && e in pool.messages && Name(pool, e) in after
      ensures EntryRefs(pool, e) <= after.Keys + owed
    {
      if Name(pool, e) == name {
        assert EntryRefs(pool, e) <= {name} + if IsEntry(pool, full) then EntryRefs(pool, full) else {};
      }
    }
  }

  lemma Owes(pool: Pool, table: Table, owed: set<string>, more: set<string>)
    requires pool.Complete() && Sound(pool, table, owed)
    ensures Sound(pool, table, owed + more)
  {
    assert table.Keys + owed <= table.Keys + (owed + more);
  }

  /** What has been registered is owed no more. */
  lemma Paid(pool: Pool, table: Table, owed: set<string>, more: set<string>)
    requires pool.Complete() && Sound(pool, table, owed + more) && more <= table.Keys
    ensures Sound(pool, table, owed)
  {
    assert table.Keys + (owed + more) == table.Keys + owed;
  }

  // ---- registration --------------------------------------------------------------------------------

  /** Registering a field pays for it, unless it is a map whose value was owed already. */
  lemma {:induction false} RegisteredSound(pool: Pool, f: Field, table: Table, owed: set<string>)
    requires Lawful(pool) && InPool(pool, f) && pool.Holds(f) && Sound(pool, table, owed)
    ensures Sound(pool, Registered(pool, f, table), owed)
    ensures !f.card.MapOf? ==> Refs(FieldSchema(pool, f)) <= Registered(pool, f, table).Keys
    ensures Refs(FieldSchema(pool, f)) <= Registered(pool, f, table).Keys + owed
    decreases Names(pool) - table.Keys, 1
  {
    if f.kind.Message? && f.kind.full !in pool.wellKnown {
      var full := f.kind.full;
      assert f.card.MapOf? ==> IsEntry(pool, full);
      if Name(pool, full) !in table {
        EntersSound(pool, full, table, owed);
      }
    }
  }

  /** The message goes in with its value owed, if it is an entry, and with it paid comes out. */
  lemma {:induction false} EntersSound(pool: Pool, full: string, table: Table, owed: set<string>)
    requires Lawful(pool) && full in pool.messages && Name(pool, full) !in table && Sound(pool, table, owed)
    ensures var after := RegisteredAll(pool, full, 0, {}, table[Name(pool, full) := Placeholder]);
            Sound(pool, after[Name(pool, full) := MessageSchema(pool, full, {})], owed) &&
            (IsEntry(pool, full) ==> EntryRefs(pool, full) <= after.Keys)
    decreases Names(pool) - table.Keys, 0
  {
    var name := Name(pool, full);
    var value := if IsEntry(pool, full) then EntryRefs(pool, full) else {};
    var entered := table[name := Placeholder];
    Owes(pool, table, owed, value);
    Joins(pool, table, owed + value, full, Placeholder);
    assert name in Names(pool) - table.Keys;
    RegisteredAllSound(pool, full, 0, {}, entered, owed + value);
    var after := RegisteredAll(pool, full, 0, {}, entered);
    PropertiesRefer(pool, pool.Fields(full), {}, after.Keys + (owed + value));
    assert value <= after.Keys;
    Paid(pool, after, owed, value);
    assert after.Keys + (owed + value) == after.Keys + owed;
    Joins(pool, after, owed, full, MessageSchema(pool, full, {}));
  }

  lemma {:induction false} RegisteredAllSound(pool: Pool, full: string, i: nat, exclude: set<string>, table: Table,
                                              owed: set<string>)
    requires Lawful(pool) && full in pool.messages && i <= |pool.Fields(full)| && Sound(pool, table, owed)
    ensures var after := RegisteredAll(pool, full, i, exclude, table);
            Sound(pool, after, owed) &&
            forall j :: i <= j < |pool.Fields(full)| && pool.Fields(full)[j].name !in exclude ==>
              var f := pool.Fields(full)[j];
              Refs(FieldSchema(pool, f)) <= after.Keys + owed && (!f.card.MapOf? ==> Refs(FieldSchema(pool, f)) <= after.Keys)
    decreases Names(pool) - table.Keys, |pool.Fields(full)| - i + 2
  {
    if i < |pool.Fields(full)| {
      var f := pool.Fields(full)[i];
      assert InPool(pool, f);
      if f.name !in exclude {
        RegisteredSound(pool, f, table, owed);
      }
      var next := if f.name in exclude then table else Registered(pool, f, table);
      assert Names(pool) - next.Keys <= Names(pool) - table.Keys;
      RegisteredAllSound(pool, full, i + 1, exclude, next, owed);
    }
  }

  // ---- the whole document --------------------------------------------------------------------------

  ghost predicate AllFit(pool: Pool, parts: seq<Part>) {
    forall i :: 0 <= i < |parts| ==> Fits(pool, parts[i])
  }

  /** The components once every part of every operation is written, in order. */
  ghost function Document(pool: Pool, parts: seq<Part>): Table
    requires pool.Complete() && AllFit(pool, parts)
  {
    if parts == [] then map[]
    else
      var last := parts[|parts| - 1];
      assert Fits(pool, last);
      TableAfter(pool, last, Document(pool, parts[..|parts| - 1]))
  }

  lemma PartSound(pool: Pool, part: Part, table: Table)
    requires Lawful(pool) && Fits(pool, part) && Sound(pool, table, {})
    ensures Sound(pool, TableAfter(pool, part, table), {})
    ensures table.Keys <= TableAfter(pool, part, table).Keys
    ensures !part.PathParam? ==> Refs(Emitted(pool, part)) <= TableAfter(pool, part, table).Keys
  {
    match part {
      case OneField(f) =>
        RegisteredSound(pool, f, table, {});
      case Whole(full, exclude) =>
        WholeSound(pool, full, exclude, table);
      case Shared(full) =>
        if Name(pool, full) !in table {
          WholeSound(pool, full, {}, table);
        }
      case PathParam(_) =>
    }
  }

  lemma WholeSound(pool: Pool, full: string, exclude: set<string>, table: Table)
    requires Lawful(pool) && full in pool.messages && !IsEntry(pool, full) && Sound(pool, table, {})
    ensures Sound(pool, RegisteredAll(pool, full, 0, exclude, table)[Name(pool, full) := MessageSchema(pool, full, exclude)], {})
  {
    var after := RegisteredAll(pool, full, 0, exclude, table);
    RegisteredAllSound(pool, full, 0, exclude, table, {});
    PropertiesRefer(pool, pool.Fields(full), exclude, after.Keys + {});
    Joins(pool, after, {}, full, MessageSchema(pool, full, exclude));
  }

  /** Every reference of every component, and of every body and response, names a component. */
  ghost predicate Resolves(pool: Pool, parts: seq<Part>)
    requires pool.Complete() && AllFit(pool, parts)
  {
    && Closed(Document(pool, parts))
    && forall i :: 0 <= i < |parts| && !parts[i].PathParam? ==>
         Fits(pool, parts[i]) && Refs(Emitted(pool, parts[i])) <= Document(pool, parts).Keys
  }

  /** Whatever the operations and however the messages contain one another, references resolve. */
  lemma {:induction false} EveryReferenceResolves(pool: Pool, parts: seq<Part>)
    requires Lawful(pool) && AllFit(pool, parts)
    ensures Sound(pool, Document(pool, parts), {})
    ensures Resolves(pool, parts)
  {
    if parts != [] {
      var front, last := parts[..|parts| - 1], parts[|parts| - 1];
      EveryReferenceResolves(pool, front);
      assert Fits(pool, last);
      PartSound(pool, last, Document(pool, front));
      assert forall i :: 0 <= i < |front| ==> parts[i] == front[i];
    }
    var table := Document(pool, parts);
    assert table.Keys + {} == table.Keys;
  }

  // ---- what the components are ---------------------------------------------------------------------

  /** The schema is of a message with that short name, without the fields some operation excludes. */
  ghost predicate Describes(pool: Pool, parts: seq<Part>, name: string, schema: Schema)
    requires pool.Complete()
  {
    exists full, exclude :: full in pool.messages && Name(pool, full) == name
      && schema == MessageSchema(pool, full, exclude) && (exclude == {} || Whole(full, exclude) in parts)
  }

  /** The table has grown only, by whole messages. */
  ghost predicate Grown(pool: Pool, before: Table, after: Table)
    requires pool.Complete()
  {
    && before.Keys <= after.Keys
    && (forall n :: n in before ==> after[n] == before[n])
    && (forall n :: n in after && n !in before ==> Describes(pool, [], n, after[n]))
  }

  lemma GrownAgain(pool: Pool, a: Table, b: Table, c: Table)
    requires pool.Complete() && Grown(pool, a, b) && Grown(pool, b, c)
    ensures Grown(pool, a, c)
  {
  }

  lemma {:induction false} RegisteredGrows(pool: Pool, f: Field, table: Table)
    requires pool.Complete() && pool.Holds(f)
    ensures Grown(pool, table, Registered(pool, f, table))
    decreases Names(pool) - table.Keys, 0
  {
    if f.kind.Message? && f.kind.full !in pool.wellKnown && Name(pool, f.kind.full) !in table {
      var full, name := f.kind.full, Name(pool, f.kind.full);
      assert name in Names(pool) - table.Keys;
      RegisteredAllGrows(pool, full, 0, {}, table[name := Placeholder]);
      assert Describes(pool, [], name, MessageSchema(pool, full, {}));
    }
  }

  lemma {:induction false} RegisteredAllGrows(pool: Pool, full: string, i: nat, exclude: set<string>, table: Table)
    requires pool.Complete() && full in pool.messages && i <= |pool.Fields(full)|
    ensures Grown(pool, table, RegisteredAll(pool, full, i, exclude, table))
    decreases Names(pool) - table.Keys, |pool.Fields(full)| - i + 1
  {
    if i < |pool.Fields(full)| {
      var f := pool.Fields(full)[i];
      if f.name !in exclude {
        RegisteredGrows(pool, f, table);
      }
      var next := if f.name in exclude then table else Registered(pool, f, table);
      assert Names(pool) - next.Keys <= Names(pool) - table.Keys;
      RegisteredAllGrows(pool, full, i + 1, exclude, next);
      GrownAgain(pool, table, next, RegisteredAll(pool, full, i, exclude, table));
    }
  }

  /** No placeholder is left: every component is the schema of a message of that name. */
  lemma {:induction false} EveryComponentIsAMessage(pool: Pool, parts: seq<Part>)
    requires pool.Complete() && AllFit(pool, parts)
    ensures forall n :: n in Document(pool, parts) ==> Describes(pool, parts, n, Document(pool, parts)[n])
  {
    if parts != [] {
      var front, last := parts[..|parts| - 1], parts[|parts| - 1];
      var table := Document(pool, front);
      assert Fits(pool, last);
      EveryComponentIsAMessage(pool, front);
      assert forall part :: part in front ==> part in parts;
      match last {
        case OneField(f) =>
          RegisteredGrows(pool, f, table);
        case Whole(full, exclude) =>
          RegisteredAllGrows(pool, full, 0, exclude, table);
          assert Describes(pool, parts, Name(pool, full), MessageSchema(pool, full, exclude));
        case Shared(full) =>
          RegisteredAllGrows(pool, full, 0, {}, table);
          assert Describes(pool, parts, Name(pool, full), MessageSchema(pool, full, {}));
        case PathParam(_) =>
      }
    }
  }

  /** When no two messages share a short name, a reference to a message leads to that message's schema. */
  lemma ReferenceIsToItsMessage(pool: Pool, parts: seq<Part>, full: string)
    requires pool.Complete() && AllFit(pool, parts) && full in pool.messages
    requires forall other :: other in pool.messages && Name(pool, other) == Name(pool, full) ==> other == full
    requires Name(pool, full) in Document(pool, parts)
    ensures exists exclude :: (exclude == {} || Whole(full, exclude) in parts) &&
              Document(pool, parts)[Name(pool, full)] == MessageSchema(pool, full, exclude)
  {
    EveryComponentIsAMessage(pool, parts);
    assert Describes(pool, parts, Name(pool, full), Document(pool, parts)[Name(pool, full)]);
  }
}
