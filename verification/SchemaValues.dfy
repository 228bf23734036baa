/**
 What the component schemas describe (src/openapi.rs): the JSON a message is written as in ProtoJSON,
 and nothing else. Values and what fits a schema are defined on their own, by the shape of the JSON.
 */
module SchemaValues {
  import opened Descriptors
  import opened Schemas
  import opened SchemaClosure

  /** JSON: a value written in a form of its own, a list, or an object by member. */
  datatype Json = Leaf(form: string) | List(items: seq<Json>) | Record(members: seq<Member>)

  datatype Member = Member(name: string, value: Json)

  // ---- the values of a message ---------------------------------------------------------------------

  /** One value of a kind: a scalar or a well-known type in its form, or an object of a message's fields. */
  ghost predicate IsOne(pool: Pool, kind: Kind, j: Json)
    requires pool.Complete()
    decreases j, 1
  {
    match kind
    case Plain(name) => j == Leaf(name)
    case Message(full) =>
      if full in pool.wellKnown then j == Leaf(full)
      else full in pool.messages && IsMessage(pool, full, j)
  }

  /** A field that is no map: one value, or a list of them. */
  ghost predicate IsPlainValue(pool: Pool, f: Field, j: Json)
    requires pool.Complete()
    decreases j, 2
  {
    if f.card.Repeated? then j.List? && forall i :: 0 <= i < |j.items| ==> IsOne(pool, f.kind, j.items[i])
    else IsOne(pool, f.kind, j)
  }

  /** The entry's value is its first field of that name. */
  predicate IsValueAt(fields: seq<Field>, v: nat) {
    v < |fields| && fields[v].name == "value" && forall u :: 0 <= u < v ==> fields[u].name != "value"
  }

  lemma {:induction false} ValueIndexIs(fields: seq<Field>, v: nat)
    ensures IsValueAt(fields, v) <==> v < |fields| && v == ValueIndex(fields)
  {
    if fields != [] && fields[0].name != "value" {
      if v > 0 {
        ValueIndexIs(fields[1..], v - 1);
        assert forall u :: 0 <= u < |fields| - 1 ==> fields[1..][u] == fields[u + 1];
        assert IsValueAt(fields[1..], v - 1) ==> forall u :: 0 < u < v ==> fields[u] == fields[1..][u - 1];
      }
    }
  }

  /** A map is an object with a value of its entry under every key. */
  ghost predicate IsFieldValue(pool: Pool, f: Field, j: Json)
    requires pool.Complete()
    decreases j, 3
  {
    if !f.card.MapOf? then IsPlainValue(pool, f, j)
    else
      && j.Record? && f.kind.Message? && f.kind.full in pool.messages
      && var fields := pool.Fields(f.kind.full);
         exists v: nat :: IsValueAt(fields, v)
                     && forall i :: 0 <= i < |j.members| ==> IsPlainValue(pool, fields[v], j.members[i].value)
  }

  /** An object whose members are fields of the message, under their JSON names. */
  ghost predicate IsMessage(pool: Pool, full: string, j: Json)
    requires pool.Complete() && full in pool.messages
    decreases j, 0
  {
    j.Record? && forall i :: 0 <= i < |j.members| ==> IsMember(pool, pool.Fields(full), j.members[i])
  }

  ghost predicate IsMember(pool: Pool, fields: seq<Field>, m: Member)
    requires pool.Complete()
    decreases m, 4
  {
    exists k :: 0 <= k < |fields| && fields[k].jsonName == m.name && IsFieldValue(pool, fields[k], m.value)
  }

  // ---- the values a schema describes ---------------------------------------------------------------

  /** The value fits the shape, references followed. A strict reading has no members a schema does not name. */
  ghost predicate Fits(j: Json, shape: Shape, table: Table, strict: bool)
    decreases j, 1
  {
    match shape
    case Inline(form) => j == Leaf(form)
    case Ref(name) => name in table && FitsComponent(j, table[name], table, strict)
    case ArrayOf(items) => j.List? && forall i :: 0 <= i < |j.items| ==> Fits(j.items[i], items, table, strict)
    case Dict(values) => j.Record? && forall i :: 0 <= i < |j.members| ==> Fits(j.members[i].value, values, table, strict)
  }

  ghost predicate FitsComponent(j: Json, schema: Schema, table: Table, strict: bool)
    decreases j, 0
  {
    && j.Record?
    && (schema.Object? ==> forall i :: 0 <= i < |j.members| ==> FitsMember(j.members[i], schema.properties, table, strict))
  }

  ghost predicate FitsMember(m: Member, properties: map<string, Shape>, table: Table, strict: bool)
    decreases m, 2
  {
    if m.name in properties then Fits(m.value, properties[m.name], table, strict) else !strict
  }

  // ---- they are the same ---------------------------------------------------------------------------

  /** The fields of a message differ in JSON name, as protobuf has it. */
  predicate JsonNamesDiffer(fields: seq<Field>) {
    forall i, j :: 0 <= i < j < |fields| ==> fields[i].jsonName != fields[j].jsonName
  }

  /** As protobuf has it: a map field has its entry and no other field one, and JSON names differ within a message. */
  ghost predicate Describable(pool: Pool) {
    && WellFormed(pool)
    && (forall f | InPool(pool, f) :: f.card.MapOf? ==> f.kind.Message?)
    && (forall f | InPool(pool, f) :: !f.card.MapOf? && f.kind.Message? ==> !IsEntry(pool, f.kind.full))
    && (forall full | full in pool.messages :: JsonNamesDiffer(pool.Fields(full)))
  }

  ghost predicate SameValues(pool: Pool, a: string, b: string)
    requires pool.Complete() && a in pool.messages && b in pool.messages
  {
    forall j :: IsMessage(pool, a, j) <==> IsMessage(pool, b, j)
  }

  /** Whatever shares a message's short name has the same values. */
  ghost predicate AlikeTo(pool: Pool, full: string)
    requires pool.Complete() && full in pool.messages
  {
    forall other | other in pool.messages && Name(pool, other) == Name(pool, full) :: SameValues(pool, full, other)
  }

  /** So for every message that is not a map's entry. */
  ghost predicate NamesakesAlike(pool: Pool)
    requires pool.Complete()
  {
    forall full | full in pool.messages && !IsEntry(pool, full) :: AlikeTo(pool, full)
  }

  /** Each component is the schema of a message of its name, whole if the reading is strict, and refers to components only. */
  ghost predicate Right(pool: Pool, table: Table, strict: bool)
    requires pool.Complete()
  {
    Closed(table) && forall name | name in table :: IsSchema(pool, name, table[name], strict)
  }

  ghost predicate IsSchema(pool: Pool, name: string, schema: Schema, strict: bool)
    requires pool.Complete()
  {
    exists full, exclude :: full in pool.messages && Name(pool, full) == name
      && schema == MessageSchema(pool, full, exclude) && (strict ==> exclude == {})
  }

  /** The one field written under a JSON name gives the property of that name. */
  lemma PropertyOf(pool: Pool, fields: seq<Field>, exclude: set<string>, k: nat)
    requires pool.Complete() && JsonNamesDiffer(fields) && (forall j :: 0 <= j < |fields| ==> pool.Holds(fields[j]))
    requires k < |fields|
    ensures var properties, name := Properties(pool, fields, exclude), fields[k].jsonName;
            if fields[k].name in exclude then name !in properties
            else name in properties && properties[name] == FieldSchema(pool, fields[k])
  {
    var name := fields[k].jsonName;
    if fields[k].name !in exclude {
      assert WritesLast(fields, exclude, k, name);
      PropertyOfField(pool, fields, exclude, k, name);
    } else if name in Properties(pool, fields, exclude) {
      var _ := PropertyHasField(pool, fields, exclude, name);
      assert false;
    }
  }

  lemma OneFits(pool: Pool, table: Table, strict: bool, f: Field, j: Json)
    requires Describable(pool) && NamesakesAlike(pool) && Right(pool, table, strict)
    requires InPool(pool, f) && pool.Holds(f) && !f.card.MapOf? && Refs(Base(pool, f)) <= table.Keys
    ensures IsOne(pool, f.kind, j) ==> Fits(j, Base(pool, f), table, strict)
    ensures strict && Fits(j, Base(pool, f), table, strict) ==> IsOne(pool, f.kind, j)
    decreases j, 1
  {
    if f.kind.Message? && f.kind.full !in pool.wellKnown {
      MessageFits(pool, table, strict, f.kind.full, j);
    }
  }

  lemma PlainFits(pool: Pool, table: Table, strict: bool, f: Field, j: Json)
    requires Describable(pool) && NamesakesAlike(pool) && Right(pool, table, strict)
    requires InPool(pool, f) && pool.Holds(f) && !f.card.MapOf? && Refs(NonMapSchema(pool, f)) <= table.Keys
    ensures IsPlainValue(pool, f, j) ==> Fits(j, NonMapSchema(pool, f), table, strict)
    ensures strict && Fits(j, NonMapSchema(pool, f), table, strict) ==> IsPlainValue(pool, f, j)
    decreases j, 2
  {
    assert Refs(Base(pool, f)) <= table.Keys;
    if f.card.Repeated? {
      if j.List? {
        forall i | 0 <= i < |j.items|
          ensures IsOne(pool, f.kind, j.items[i]) ==> Fits(j.items[i], Base(pool, f), table, strict)
          ensures strict && Fits(j.items[i], Base(pool, f), table, strict) ==> IsOne(pool, f.kind, j.items[i])
        {
          OneFits(pool, table, strict, f, j.items[i]);
        }
      }
    } else {
      OneFits(pool, table, strict, f, j);
    }
  }

  lemma FieldFits(pool: Pool, table: Table, strict: bool, f: Field, j: Json)
    requires Describable(pool) && NamesakesAlike(pool) && Right(pool, table, strict)
    requires InPool(pool, f) && pool.Holds(f) && Refs(FieldSchema(pool, f)) <= table.Keys
    ensures IsFieldValue(pool, f, j) ==> Fits(j, FieldSchema(pool, f), table, strict)
    ensures strict && Fits(j, FieldSchema(pool, f), table, strict) ==> IsFieldValue(pool, f, j)
    decreases j, 3
  {
    if f.card.MapOf? {
      assert IsEntry(pool, f.kind.full);
      var fields := pool.Fields(f.kind.full);
      var v := fields[ValueIndex(fields)];
      ValueIndexIs(fields, ValueIndex(fields));
      forall k: nat | IsValueAt(fields, k)
        ensures fields[k] == v
      {
        ValueIndexIs(fields, k);
      }
      assert InPool(pool, v) && FieldSchema(pool, f) == Dict(NonMapSchema(pool, v));
      if j.Record? {
        forall i | 0 <= i < |j.members|
          ensures var x := j.members[i].value;
                  && (IsPlainValue(pool, v, x) ==> Fits(x, NonMapSchema(pool, v), table, strict))
                  && (strict && Fits(x, NonMapSchema(pool, v), table, strict) ==> IsPlainValue(pool, v, x))
        {
          PlainFits(pool, table, strict, v, j.members[i].value);
        }
      }
    } else {
      PlainFits(pool, table, strict, f, j);
    }
  }

  lemma MemberFits(pool: Pool, table: Table, strict: bool, full: string, exclude: set<string>, m: Member)
    requires Describable(pool) && NamesakesAlike(pool) && Right(pool, table, strict)
    requires full in pool.messages && (strict ==> exclude == {})
    requires SchemaRefers(MessageSchema(pool, full, exclude), table.Keys)
    ensures var properties := Properties(pool, pool.Fields(full), exclude);
            && (IsMember(pool, pool.Fields(full), m) ==> FitsMember(m, properties, table, strict))
            && (strict && FitsMember(m, properties, table, strict) ==> IsMember(pool, pool.Fields(full), m))
    decreases m, 4
  {
    var fields := pool.Fields(full);
    var properties := Properties(pool, fields, exclude);
    if IsMember(pool, fields, m) {
      var k :| 0 <= k < |fields| && fields[k].jsonName == m.name && IsFieldValue(pool, fields[k], m.value);
      PropertyOf(pool, fields, exclude, k);
      if fields[k].name !in exclude {
        assert InPool(pool, fields[k]) && Refs(properties[m.name]) <= table.Keys;
        FieldFits(pool, table, strict, fields[k], m.value);
      }
    }
    if strict && m.name in properties {
      var k := PropertyHasField(pool, fields, exclude, m.name);
      PropertyOf(pool, fields, exclude, k);
      assert InPool(pool, fields[k]) && Refs(properties[m.name]) <= table.Keys;
      FieldFits(pool, table, strict, fields[k], m.value);
    }
  }

  lemma ObjectFits(pool: Pool, table: Table, strict: bool, full: string, exclude: set<string>, j: Json)
    requires Describable(pool) && NamesakesAlike(pool) && Right(pool, table, strict)
    requires full in pool.messages && (strict ==> exclude == {})
    requires SchemaRefers(MessageSchema(pool, full, exclude), table.Keys)
    ensures IsMessage(pool, full, j) ==> FitsComponent(j, MessageSchema(pool, full, exclude), table, strict)
    ensures strict && FitsComponent(j, MessageSchema(pool, full, exclude), table, strict) ==> IsMessage(pool, full, j)
    decreases j, 0, 0
  {
    if j.Record? {
      forall i | 0 <= i < |j.members|
        ensures var fields := pool.Fields(full);
                && (IsMember(pool, fields, j.members[i]) ==>
                      FitsMember(j.members[i], Properties(pool, fields, exclude), table, strict))
                && (strict && FitsMember(j.members[i], Properties(pool, fields, exclude), table, strict) ==>
                      IsMember(pool, fields, j.members[i]))
      {
        MemberFits(pool, table, strict, full, exclude, j.members[i]);
      }
    }
  }

  lemma MessageFits(pool: Pool, table: Table, strict: bool, full: string, j: Json)
    requires Describable(pool) && NamesakesAlike(pool) && Right(pool, table, strict)
    requires full in pool.messages && AlikeTo(pool, full) && Name(pool, full) in table
    ensures IsMessage(pool, full, j) ==> FitsComponent(j, table[Name(pool, full)], table, strict)
    ensures strict && FitsComponent(j, table[Name(pool, full)], table, strict) ==> IsMessage(pool, full, j)
    decreases j, 0, 1
  {
    var name := Name(pool, full);
    assert IsSchema(pool, name, table[name], strict);
    var other, exclude :| other in pool.messages && Name(pool, other) == name
      && table[name] == MessageSchema(pool, other, exclude) && (strict ==> exclude == {});
    assert SameValues(pool, full, other);
    ObjectFits(pool, table, strict, other, exclude, j);
  }

  // ---- of a whole document -------------------------------------------------------------------------

  /** No operation leaves a field out of a message. */
  predicate NoneExcluded(parts: seq<Part>) {
    forall i :: 0 <= i < |parts| && parts[i].Whole? ==> parts[i].exclude == {}
  }

  lemma DocumentRight(pool: Pool, parts: seq<Part>, strict: bool)
    requires Lawful(pool) && AllFit(pool, parts) && (strict ==> NoneExcluded(parts))
    ensures Right(pool, Document(pool, parts), strict) && Resolves(pool, parts)
  {
    EveryReferenceResolves(pool, parts);
    EveryComponentIsAMessage(pool, parts);
    var table := Document(pool, parts);
    forall name | name in table
      ensures IsSchema(pool, name, table[name], strict)
    {
      assert Describes(pool, parts, name, table[name]);
    }
  }

  /**
   Every value of a message fits the component of its name, whatever operations the document has; and
   where none leaves a field out, nothing else does, members and all.
   */
  lemma ComponentDescribes(pool: Pool, parts: seq<Part>, full: string, j: Json)
    requires Lawful(pool) && Describable(pool) && NamesakesAlike(pool) && AllFit(pool, parts)
    requires full in pool.messages && AlikeTo(pool, full) && Name(pool, full) in Document(pool, parts)
    ensures IsMessage(pool, full, j) ==> Fits(j, Ref(Name(pool, full)), Document(pool, parts), false)
    ensures NoneExcluded(parts) ==>
              (Fits(j, Ref(Name(pool, full)), Document(pool, parts), true) <==> IsMessage(pool, full, j))
  {
    DocumentRight(pool, parts, false);
    MessageFits(pool, Document(pool, parts), false, full, j);
    if NoneExcluded(parts) {
      DocumentRight(pool, parts, true);
      MessageFits(pool, Document(pool, parts), true, full, j);
    }
  }

  /** What a request, a response or a parameter is: a message, or a field. */
  ghost predicate IsPartValue(pool: Pool, part: Part, j: Json)
    requires pool.Complete() && Known(pool, part)
  {
    if part.Whole? || part.Shared? then IsMessage(pool, part.full, j) else IsFieldValue(pool, part.field, j)
  }

  /** The schema put into the operation describes those values, and no others. */
  ghost predicate IsDescribed(pool: Pool, part: Part, table: Table, j: Json)
    requires pool.Complete() && Known(pool, part)
  {
    Fits(j, Emitted(pool, part), table, true) <==> IsPartValue(pool, part, j)
  }

  /** A path parameter's too, if the component it refers to is there. */
  lemma PartDescribed(pool: Pool, parts: seq<Part>, i: nat, j: Json)
    requires Lawful(pool) && Describable(pool) && NamesakesAlike(pool) && AllFit(pool, parts) && NoneExcluded(parts)
    requires i < |parts| && Known(pool, parts[i])
    requires parts[i].PathParam? ==> Refs(Emitted(pool, parts[i])) <= Document(pool, parts).Keys
    ensures IsDescribed(pool, parts[i], Document(pool, parts), j)
  {
    DocumentRight(pool, parts, true);
    var part := parts[i];
    assert Schemas.Fits(pool, part);
    assert Refs(Emitted(pool, part)) <= Document(pool, parts).Keys;
    if part.Whole? || part.Shared? {
      ComponentDescribes(pool, parts, part.full, j);
    } else {
      FieldFits(pool, Document(pool, parts), true, part.field, j);
    }
  }

  /** A list fits a repeated field's schema only, an object of any keys a map's, and a scalar neither. */
  lemma ShapesDiffer(pool: Pool, f: Field, table: Table, strict: bool, j: Json)
    requires pool.Complete() && pool.Holds(f) && Fits(j, FieldSchema(pool, f), table, strict)
    ensures j.List? <==> f.card.Repeated?
    ensures f.card.MapOf? && f.kind.Message? ==> j.Record?
    ensures f.card.Singular? && f.kind.Plain? ==> j == Leaf(f.kind.name)
  {
  }
}
