/**
 Messages that share a short name (src/openapi.rs): components are named by it, so the first one
 registered stands for all. Exactly when the document still describes every value, and only those.
 */
module SchemaNamesakes {
  import opened Descriptors
  import opened Schemas
  import opened SchemaClosure
  import opened SchemaClashes
  import opened SchemaValues

  /** Every request, response and body that the document mentions is described: its values fit, and no others. */
  ghost predicate AllDescribed(pool: Pool, parts: seq<Part>)
    requires pool.Complete() && AllFit(pool, parts)
  {
    forall i, j :: 0 <= i < |parts| && !parts[i].PathParam? ==>
      Schemas.Fits(pool, parts[i]) && IsDescribed(pool, parts[i], Document(pool, parts), j)
  }

  ghost predicate AlwaysDescribed(pool: Pool)
    requires pool.Complete()
  {
    forall parts | AllFit(pool, parts) && NoneExcluded(parts) :: AllDescribed(pool, parts)
  }

  // ---- two messages --------------------------------------------------------------------------------

  /** Two messages in one document have one component, so what describes both has their values alike. */
  lemma MessagesAlike(pool: Pool, a: string, b: string)
    requires pool.Complete() && AlwaysDescribed(pool)
    requires a in pool.messages && !IsEntry(pool, a) && b in pool.messages && !IsEntry(pool, b)
    requires Name(pool, a) == Name(pool, b)
    ensures SameValues(pool, a, b)
  {
    var parts := [Shared(b), Shared(a)];
    assert AllFit(pool, parts) && NoneExcluded(parts) && AllDescribed(pool, parts);
    forall j
      ensures IsMessage(pool, a, j) <==> IsMessage(pool, b, j)
    {
      assert IsDescribed(pool, parts[0], Document(pool, parts), j);
      assert IsDescribed(pool, parts[1], Document(pool, parts), j);
    }
  }

  // ---- a message and a map's entry -----------------------------------------------------------------

  function FieldParts(fields: seq<Field>): seq<Part> {
    seq(|fields|, i requires 0 <= i < |fields| => OneField(fields[i]))
  }

  /** A part that writes no message whole leaves the components there as they are. */
  lemma ComponentStays(pool: Pool, parts: seq<Part>, part: Part, name: string)
    requires pool.Complete() && AllFit(pool, parts) && Schemas.Fits(pool, part) && !part.Whole?
    requires name in Document(pool, parts)
    ensures AllFit(pool, parts + [part]) && name in Document(pool, parts + [part])
    ensures Document(pool, parts + [part])[name] == Document(pool, parts)[name]
  {
    OneMorePart(pool, parts, part);
    var table := Document(pool, parts);
    match part
    case OneField(f) => RegisteredGrows(pool, f, table);
    case Shared(full) => RegisteredAllGrows(pool, full, 0, {}, table);
    case PathParam(_) =>
  }

  lemma {:induction false} ComponentsStay(pool: Pool, parts: seq<Part>, fields: seq<Field>, name: string)
    requires pool.Complete() && AllFit(pool, parts) && name in Document(pool, parts)
    requires forall i :: 0 <= i < |fields| ==> InPool(pool, fields[i])
    ensures AllFit(pool, parts + FieldParts(fields)) && name in Document(pool, parts + FieldParts(fields))
    ensures Document(pool, parts + FieldParts(fields))[name] == Document(pool, parts)[name]
  {
    if fields == [] {
      assert parts + FieldParts(fields) == parts;
    } else {
      var n := |fields| - 1;
      ComponentsStay(pool, parts, fields[..n], name);
      ComponentStays(pool, parts + FieldParts(fields[..n]), OneField(fields[n]), name);
      assert parts + FieldParts(fields) == parts + FieldParts(fields[..n]) + [OneField(fields[n])];
    }
  }

  /** The document with the map first, then the message, then the fields of the entry: the component is the entry's. */
  lemma EntryFirst(pool: Pool, f: Field, a: string, b: string) returns (parts: seq<Part>)
    requires WellFormed(pool) && InPool(pool, f) && f.card.MapOf? && f.kind == Message(b) && b in pool.messages
    requires a in pool.messages && !IsEntry(pool, a) && Name(pool, a) == Name(pool, b)
    ensures parts == [OneField(f), Shared(a)] + FieldParts(pool.Fields(b))
    ensures AllFit(pool, parts) && NoneExcluded(parts)
    ensures Name(pool, b) in Document(pool, parts) && Document(pool, parts)[Name(pool, b)] == MessageSchema(pool, b, {})
  {
    assert IsEntry(pool, b);
    FirstPart(pool, OneField(f));
    ComponentStays(pool, [OneField(f)], Shared(a), Name(pool, b));
    assert [OneField(f)] + [Shared(a)] == [OneField(f), Shared(a)];
    ComponentsStay(pool, [OneField(f), Shared(a)], pool.Fields(b), Name(pool, b));
    parts := [OneField(f), Shared(a)] + FieldParts(pool.Fields(b));
  }

  ghost predicate FieldsDescribed(pool: Pool, fields: seq<Field>, table: Table, j: Json)
    requires pool.Complete()
  {
    forall k :: 0 <= k < |fields| ==> pool.Holds(fields[k]) && IsDescribed(pool, OneField(fields[k]), table, j)
  }

  lemma PartsDescribe(pool: Pool, parts: seq<Part>, fields: seq<Field>, j: Json)
    requires pool.Complete() && AllFit(pool, parts) && AllDescribed(pool, parts)
    requires |parts| == 2 + |fields| && parts[2..] == FieldParts(fields)
    ensures FieldsDescribed(pool, fields, Document(pool, parts), j)
  {
    forall k | 0 <= k < |fields|
      ensures pool.Holds(fields[k]) && IsDescribed(pool, OneField(fields[k]), Document(pool, parts), j)
    {
      assert parts[2 + k] == parts[2..][k] == OneField(fields[k]);
      assert Schemas.Fits(pool, parts[2 + k]) && IsDescribed(pool, parts[2 + k], Document(pool, parts), j);
    }
  }

  /** With its fields described, a member fits the properties of a message exactly if it is one of its members. */
  lemma MemberDescribed(pool: Pool, b: string, table: Table, m: Member)
    requires Describable(pool) && b in pool.messages && FieldsDescribed(pool, pool.Fields(b), table, m.value)
    ensures FitsMember(m, Properties(pool, pool.Fields(b), {}), table, true) <==> IsMember(pool, pool.Fields(b), m)
  {
    var fields := pool.Fields(b);
    var properties := Properties(pool, fields, {});
    if m.name in properties {
      var k := PropertyHasField(pool, fields, {}, m.name);
      PropertyOf(pool, fields, {}, k);
      assert IsDescribed(pool, OneField(fields[k]), table, m.value);
    }
    if k :| 0 <= k < |fields| && fields[k].jsonName == m.name && IsFieldValue(pool, fields[k], m.value) {
      PropertyOf(pool, fields, {}, k);
      assert IsDescribed(pool, OneField(fields[k]), table, m.value);
    }
  }

  lemma ObjectDescribed(pool: Pool, b: string, table: Table, j: Json)
    requires Describable(pool) && b in pool.messages
    requires forall x :: FieldsDescribed(pool, pool.Fields(b), table, x)
    ensures FitsComponent(j, MessageSchema(pool, b, {}), table, true) <==> IsMessage(pool, b, j)
  {
    if j.Record? {
      forall i | 0 <= i < |j.members|
        ensures FitsMember(j.members[i], Properties(pool, pool.Fields(b), {}), table, true) <==>
                IsMember(pool, pool.Fields(b), j.members[i])
      {
        MemberDescribed(pool, b, table, j.members[i]);
      }
    }
  }

  lemma EntryValues(pool: Pool, a: string, b: string, parts: seq<Part>, j: Json)
    requires Describable(pool) && AllFit(pool, parts) && AllDescribed(pool, parts)
    requires a in pool.messages && b in pool.messages && Name(pool, a) == Name(pool, b)
    requires |parts| == 2 + |pool.Fields(b)| && parts[1] == Shared(a) && parts[2..] == FieldParts(pool.Fields(b))
    requires Name(pool, b) in Document(pool, parts) && Document(pool, parts)[Name(pool, b)] == MessageSchema(pool, b, {})
    ensures IsMessage(pool, a, j) <==> IsMessage(pool, b, j)
  {
    var table := Document(pool, parts);
    assert IsDescribed(pool, parts[1], table, j);
    forall x
      ensures FieldsDescribed(pool, pool.Fields(b), table, x)
    {
      PartsDescribe(pool, parts, pool.Fields(b), x);
    }
    ObjectDescribed(pool, b, table, j);
  }

  lemma EntryAlike(pool: Pool, a: string, b: string)
    requires Describable(pool) && AlwaysDescribed(pool)
    requires a in pool.messages && !IsEntry(pool, a) && b in pool.messages && IsEntry(pool, b)
    requires Name(pool, a) == Name(pool, b)
    ensures SameValues(pool, a, b)
  {
    var f :| InPool(pool, f) && f.card.MapOf? && f.kind == Message(b);
    var parts := EntryFirst(pool, f, a, b);
    assert AllDescribed(pool, parts);
    assert parts[2..] == FieldParts(pool.Fields(b));
    forall j
      ensures IsMessage(pool, a, j) <==> IsMessage(pool, b, j)
    {
      EntryValues(pool, a, b, parts, j);
    }
  }

  // ---- the condition -------------------------------------------------------------------------------

  /**
   Where references resolve, every document in which no operation leaves a field out describes the
   values of all its requests, responses and bodies, and no others, if and only if messages that share
   a short name have the same values.
   */
  lemma DescribedIff(pool: Pool)
    requires Lawful(pool) && Describable(pool)
    ensures AlwaysDescribed(pool) <==> NamesakesAlike(pool)
  {
    if AlwaysDescribed(pool) {
      forall a, b | a in pool.messages && !IsEntry(pool, a) && b in pool.messages && Name(pool, b) == Name(pool, a)
        ensures SameValues(pool, a, b)
      {
        if IsEntry(pool, b) {
          EntryAlike(pool, a, b);
        } else {
          MessagesAlike(pool, a, b);
        }
      }
    }
    if NamesakesAlike(pool) {
      forall parts: seq<Part> | AllFit(pool, parts) && NoneExcluded(parts)
        ensures AllDescribed(pool, parts)
      {
        forall i, j | 0 <= i < |parts| && !parts[i].PathParam?
          ensures Schemas.Fits(pool, parts[i]) && IsDescribed(pool, parts[i], Document(pool, parts), j)
        {
          assert Schemas.Fits(pool, parts[i]);
          PartDescribed(pool, parts, i, j);
        }
      }
    }
  }

  lemma BothShared(pool: Pool, a: string, b: string)
    requires pool.Complete() && a in pool.messages && !IsEntry(pool, a) && b in pool.messages && !IsEntry(pool, b)
    requires Name(pool, a) == Name(pool, b)
    ensures var parts := [Shared(b), Shared(a)];
            && AllFit(pool, parts) && Name(pool, a) in Document(pool, parts)
            && Document(pool, parts)[Name(pool, a)] == MessageSchema(pool, b, {})
  {
    FirstPart(pool, Shared(b));
    ComponentStays(pool, [Shared(b)], Shared(a), Name(pool, b));
    assert [Shared(b)] + [Shared(a)] == [Shared(b), Shared(a)];
  }

  lemma MemberAbsent(name: string, j: Json, n: string, table: Table)
    requires n in table && table[n].Object? && name !in table[n].properties
    ensures !SchemaValues.Fits(Record([Member(name, j)]), Ref(n), table, true)
  {
    var member := Member(name, j);
    assert !FitsMember(member, table[n].properties, table, true);
    assert Record([member]).members[0] == member;
  }

  /** A field that a namesake lacks: the document of the two in which no value with that field fits. */
  lemma NamesakeHides(pool: Pool, a: string, b: string, k: nat, j: Json)
    requires Describable(pool)
    requires a in pool.messages && !IsEntry(pool, a) && b in pool.messages && !IsEntry(pool, b)
    requires Name(pool, a) == Name(pool, b) && k < |pool.Fields(a)| && IsFieldValue(pool, pool.Fields(a)[k], j)
    requires forall i :: 0 <= i < |pool.Fields(b)| ==> pool.Fields(b)[i].jsonName != pool.Fields(a)[k].jsonName
    ensures var parts, value := [Shared(b), Shared(a)], Record([Member(pool.Fields(a)[k].jsonName, j)]);
            && AllFit(pool, parts) && IsMessage(pool, a, value)
            && !SchemaValues.Fits(value, Emitted(pool, Shared(a)), Document(pool, parts), true)
  {
    var name := pool.Fields(a)[k].jsonName;
    BothShared(pool, a, b);
    if name in Properties(pool, pool.Fields(b), {}) {
      var _ := PropertyHasField(pool, pool.Fields(b), {}, name);
      assert false;
    }
    assert IsMember(pool, pool.Fields(a), Member(name, j));
    MemberAbsent(name, j, Name(pool, a), Document(pool, [Shared(b), Shared(a)]));
  }

  /**
   A field that the last operation to write a message leaves out is gone from its component, and so from
   every other operation that refers to it: no value with that field fits.
   */
  lemma ExclusionHides(pool: Pool, parts: seq<Part>, full: string, exclude: set<string>, k: nat, j: Json)
    requires Describable(pool) && AllFit(pool, parts) && full in pool.messages && !IsEntry(pool, full)
    requires k < |pool.Fields(full)| && pool.Fields(full)[k].name in exclude && IsFieldValue(pool, pool.Fields(full)[k], j)
    ensures var all, value := parts + [Whole(full, exclude)], Record([Member(pool.Fields(full)[k].jsonName, j)]);
            && AllFit(pool, all) && IsMessage(pool, full, value)
            && !SchemaValues.Fits(value, Emitted(pool, Shared(full)), Document(pool, all), true)
  {
    OneMorePart(pool, parts, Whole(full, exclude));
    PropertyOf(pool, pool.Fields(full), exclude, k);
    var name := pool.Fields(full)[k].jsonName;
    assert IsMember(pool, pool.Fields(full), Member(name, j));
    MemberAbsent(name, j, Name(pool, full), Document(pool, parts + [Whole(full, exclude)]));
  }
}
