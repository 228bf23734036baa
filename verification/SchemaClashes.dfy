/**
 References that dangle (src/openapi.rs): a message that takes the short name of a map entry, and does
 not bring in what that map refers to, leaves some document with a reference to nothing. So the
 condition under which every reference resolves is exact.
 */
module SchemaClashes {
  import opened Descriptors
  import opened Schemas
  import opened SchemaClosure

  /** What protobuf makes of a map's entry: a scalar key, and a value that is not itself an entry. */
  ghost predicate EntriesSimple(pool: Pool) {
    forall e | IsEntry(pool, e) && e in pool.messages ::
      forall i :: 0 <= i < |pool.Fields(e)| ==>
        var f := pool.Fields(e)[i];
        f.kind.Plain? || (i == ValueIndex(pool.Fields(e)) && !IsEntry(pool, f.kind.full))
  }

  /** A field that is no map refers to its message, unless that is written out. */
  lemma NonMapRefs(pool: Pool, f: Field)
    requires pool.Holds(f)
    ensures Refs(NonMapSchema(pool, f)) ==
            if f.kind.Plain? || f.kind.full in pool.wellKnown then {} else {Name(pool, f.kind.full)}
  {
    assert Refs(ArrayOf(Base(pool, f))) == Refs(Base(pool, f));
  }

  // ---- registering nothing -------------------------------------------------------------------------

  /** Registering the field adds nothing to the table. */
  predicate Settled(pool: Pool, f: Field, table: Table)
    requires pool.Holds(f)
  {
    f.kind.Plain? || f.kind.full in pool.wellKnown || Name(pool, f.kind.full) in table
  }

  lemma {:induction false} AllSettled(pool: Pool, full: string, i: nat, exclude: set<string>, table: Table)
    requires pool.Complete() && full in pool.messages && i <= |pool.Fields(full)|
    requires forall j :: i <= j < |pool.Fields(full)| ==>
               pool.Fields(full)[j].name in exclude || Settled(pool, pool.Fields(full)[j], table)
    ensures RegisteredAll(pool, full, i, exclude, table) == table
    decreases |pool.Fields(full)| - i
  {
    if i < |pool.Fields(full)| {
      AllSettled(pool, full, i + 1, exclude, table);
    }
  }

  /** The message can be mentioned, without the excluded fields, and nothing else be registered. */
  predicate Quiet(pool: Pool, full: string, exclude: set<string>)
    requires pool.Complete() && full in pool.messages
  {
    forall i :: 0 <= i < |pool.Fields(full)| ==>
      pool.Fields(full)[i].name in exclude || Settled(pool, pool.Fields(full)[i], map[])
  }

  // ---- documents -----------------------------------------------------------------------------------

  lemma OneMorePart(pool: Pool, parts: seq<Part>, part: Part)
    requires pool.Complete() && AllFit(pool, parts) && Fits(pool, part)
    ensures AllFit(pool, parts + [part])
    ensures Document(pool, parts + [part]) == TableAfter(pool, part, Document(pool, parts))
  {
    assert (parts + [part])[..|parts|] == parts;
  }

  lemma FirstPart(pool: Pool, part: Part)
    requires pool.Complete() && Fits(pool, part)
    ensures AllFit(pool, [part]) && Document(pool, [part]) == TableAfter(pool, part, map[])
  {
    var none: seq<Part> := [];
    OneMorePart(pool, none, part);
    assert none + [part] == [part];
    assert Document(pool, none) == map[];
  }

  lemma QuietWhole(pool: Pool, full: string, exclude: set<string>)
    requires pool.Complete() && full in pool.messages && !IsEntry(pool, full) && Quiet(pool, full, exclude)
    ensures AllFit(pool, [Whole(full, exclude)])
    ensures Document(pool, [Whole(full, exclude)]).Keys == {Name(pool, full)}
  {
    AllSettled(pool, full, 0, exclude, map[]);
    FirstPart(pool, Whole(full, exclude));
  }

  /** Once the entry's name is taken, its map field registers nothing; what it refers to may be missing. */
  lemma TakenDangles(pool: Pool, parts: seq<Part>, f: Field, e: string, v: string)
    requires WellFormed(pool) && AllFit(pool, parts) && InPool(pool, f) && f.card.MapOf? && f.kind == Message(e)
    requires IsEntry(pool, e) && v in EntryRefs(pool, e)
    requires Name(pool, e) in Document(pool, parts) && v !in Document(pool, parts)
    ensures AllFit(pool, parts + [OneField(f)]) && !Resolves(pool, parts + [OneField(f)])
  {
    var all := parts + [OneField(f)];
    OneMorePart(pool, parts, OneField(f));
    assert Document(pool, all) == Document(pool, parts);
    assert all[|parts|] == OneField(f);
    assert v in Refs(Emitted(pool, all[|parts|]));
  }

  /** An entry whose value is settled takes its name and no other. */
  lemma EntryAlone(pool: Pool, g: Field, m: string, table: Table)
    requires WellFormed(pool) && EntriesSimple(pool) && InPool(pool, g) && g.card.MapOf? && g.kind == Message(m)
    requires IsEntry(pool, m) && m in pool.messages && m !in pool.wellKnown
    requires Settled(pool, pool.Fields(m)[ValueIndex(pool.Fields(m))], table)
    ensures Registered(pool, g, table).Keys == table.Keys + {Name(pool, m)}
  {
    if Name(pool, m) !in table {
      AllSettled(pool, m, 0, {}, table[Name(pool, m) := Placeholder]);
    }
  }

  /**
   The messages a clash is about: those that share an entry's short name, and the values of an entry
   that shares its short name with another.
   */
  ghost predicate Concerned(pool: Pool, m: string) {
    exists e | IsEntry(pool, e) && e in pool.messages && m in pool.messages ::
      Name(pool, m) == Name(pool, e) || ValueOfNamesake(pool, e, m)
  }

  ghost predicate ValueOfNamesake(pool: Pool, e: string, m: string)
    requires e in pool.messages
  {
    exists o | IsEntry(pool, o) && o in pool.messages && o != e && Name(pool, o) == Name(pool, e) ::
      var i := ValueIndex(pool.Fields(o));
      i < |pool.Fields(o)| && pool.Fields(o)[i].kind == Message(m)
  }

  /** For every message, the fields an operation can exclude so that the message is registered alone. */
  type Exclusions = string -> set<string>

  ghost predicate Quieting(pool: Pool, quiet: Exclusions)
    requires pool.Complete()
  {
    forall m | m in pool.messages && !IsEntry(pool, m) && Concerned(pool, m) :: Quiet(pool, m, quiet(m))
  }

  /** Every message mentioned whole is so with those fields excluded. */
  predicate Excludes(parts: seq<Part>, quiet: Exclusions) {
    forall i :: 0 <= i < |parts| && parts[i].Whole? ==> parts[i].exclude == quiet(parts[i].full)
  }

  lemma MapField(pool: Pool, e: string) returns (f: Field)
    requires IsEntry(pool, e)
    ensures InPool(pool, f) && f.card.MapOf? && f.kind == Message(e)
  {
    f :| InPool(pool, f) && f.card.MapOf? && f.kind == Message(e);
  }

  /** The message is no entry: mention it, then the map. */
  lemma MessageClashes(pool: Pool, quiet: Exclusions, e: string, m: string, v: string) returns (parts: seq<Part>)
    requires WellFormed(pool) && Quieting(pool, quiet)
    requires IsEntry(pool, e) && m in pool.messages && !IsEntry(pool, m) && Name(pool, m) == Name(pool, e)
    requires v in EntryRefs(pool, e) && v != Name(pool, e)
    ensures AllFit(pool, parts) && Excludes(parts, quiet) && !Resolves(pool, parts)
  {
    var f := MapField(pool, e);
    assert Concerned(pool, m);
    QuietWhole(pool, m, quiet(m));
    TakenDangles(pool, [Whole(m, quiet(m))], f, e, v);
    parts := [Whole(m, quiet(m))] + [OneField(f)];
  }

  /** The message is an entry of a map to scalars: mention that map, then the other. */
  lemma ScalarMapClashes(pool: Pool, quiet: Exclusions, e: string, m: string, v: string) returns (parts: seq<Part>)
    requires WellFormed(pool) && EntriesSimple(pool)
    requires IsEntry(pool, e) && IsEntry(pool, m) && Name(pool, m) == Name(pool, e)
    requires Settled(pool, pool.Fields(m)[ValueIndex(pool.Fields(m))], map[])
    requires v in EntryRefs(pool, e) && v != Name(pool, e)
    ensures AllFit(pool, parts) && Excludes(parts, quiet) && !Resolves(pool, parts)
  {
    var f := MapField(pool, e);
    var g := MapField(pool, m);
    FirstPart(pool, OneField(g));
    EntryAlone(pool, g, m, map[]);
    TakenDangles(pool, [OneField(g)], f, e, v);
    parts := [OneField(g)] + [OneField(f)];
  }

  /** A message mentioned alone, then a map to such messages: two components. */
  lemma MapToMentioned(pool: Pool, u: string, exclude: set<string>, g: Field, m: string)
    requires WellFormed(pool) && EntriesSimple(pool)
    requires InPool(pool, g) && g.card.MapOf? && g.kind == Message(m) && IsEntry(pool, m)
    requires pool.Fields(m)[ValueIndex(pool.Fields(m))].kind == Message(u)
    requires u in pool.messages && !IsEntry(pool, u) && Quiet(pool, u, exclude)
    ensures var parts := [Whole(u, exclude), OneField(g)];
            AllFit(pool, parts) && Document(pool, parts).Keys == {Name(pool, u), Name(pool, m)}
  {
    QuietWhole(pool, u, exclude);
    var table := Document(pool, [Whole(u, exclude)]);
    EntryAlone(pool, g, m, table);
    SecondField(pool, Whole(u, exclude), g);
    assert table.Keys + {Name(pool, m)} == {Name(pool, u), Name(pool, m)};
  }

  lemma SecondField(pool: Pool, first: Part, g: Field)
    requires pool.Complete() && Fits(pool, first) && AllFit(pool, [first]) && InPool(pool, g)
    ensures AllFit(pool, [first, OneField(g)])
    ensures Document(pool, [first, OneField(g)]) == Registered(pool, g, Document(pool, [first]))
  {
    OneMorePart(pool, [first], OneField(g));
    assert [first] + [OneField(g)] == [first, OneField(g)];
  }

  /** The value of an entry that is not settled is a message, the one the entry refers to. */
  lemma ValueOf(pool: Pool, m: string) returns (u: string)
    requires WellFormed(pool) && EntriesSimple(pool) && IsEntry(pool, m)
    requires !Settled(pool, pool.Fields(m)[ValueIndex(pool.Fields(m))], map[])
    ensures u in pool.messages && !IsEntry(pool, u) && EntryRefs(pool, m) == {Name(pool, u)}
    ensures pool.Fields(m)[ValueIndex(pool.Fields(m))].kind == Message(u)
  {
    var f := pool.Fields(m)[ValueIndex(pool.Fields(m))];
    NonMapRefs(pool, f);
    u := f.kind.full;
  }

  lemma ValueConcerned(pool: Pool, e: string, m: string, u: string)
    requires WellFormed(pool) && IsEntry(pool, e) && IsEntry(pool, m) && m != e && Name(pool, m) == Name(pool, e)
    requires u in pool.messages && pool.Fields(m)[ValueIndex(pool.Fields(m))].kind == Message(u)
    ensures Concerned(pool, u)
  {
    assert ValueOfNamesake(pool, e, u);
  }

  /** A message mentioned alone, a map to such messages, then a map whose entry shares the first's name. */
  lemma ThirdDangles(pool: Pool, u: string, exclude: set<string>, g: Field, m: string, f: Field, e: string, v: string)
    requires WellFormed(pool) && EntriesSimple(pool)
    requires InPool(pool, g) && g.card.MapOf? && g.kind == Message(m) && IsEntry(pool, m)
    requires InPool(pool, f) && f.card.MapOf? && f.kind == Message(e) && IsEntry(pool, e)
    requires pool.Fields(m)[ValueIndex(pool.Fields(m))].kind == Message(u)
    requires u in pool.messages && !IsEntry(pool, u) && Quiet(pool, u, exclude)
    requires Name(pool, m) == Name(pool, e) && v in EntryRefs(pool, e) && v != Name(pool, e) && v != Name(pool, u)
    ensures var parts := [Whole(u, exclude), OneField(g)] + [OneField(f)];
            AllFit(pool, parts) && !Resolves(pool, parts)
  {
    MapToMentioned(pool, u, exclude, g, m);
    TakenDangles(pool, [Whole(u, exclude), OneField(g)], f, e, v);
  }

  /** The message is an entry of a map to other messages: mention those alone, then that map, then the other. */
  lemma MessageMapClashes(pool: Pool, quiet: Exclusions, e: string, m: string, v: string) returns (parts: seq<Part>)
    requires WellFormed(pool) && EntriesSimple(pool) && Quieting(pool, quiet)
    requires IsEntry(pool, e) && IsEntry(pool, m) && Name(pool, m) == Name(pool, e)
    requires !Settled(pool, pool.Fields(m)[ValueIndex(pool.Fields(m))], map[])
    requires v in EntryRefs(pool, e) && v != Name(pool, e) && v !in EntryRefs(pool, m)
    ensures AllFit(pool, parts) && Excludes(parts, quiet) && !Resolves(pool, parts)
  {
    var f := MapField(pool, e);
    var g := MapField(pool, m);
    var u := ValueOf(pool, m);
    var exclude := quiet(u);
    assert Quiet(pool, u, exclude) by {
      ValueConcerned(pool, e, m, u);
    }
    ThirdDangles(pool, u, exclude, g, m, f, e, v);
    parts := [Whole(u, exclude), OneField(g)] + [OneField(f)];
  }

  /** Where entries do not agree, some document has a dangling reference. */
  lemma DisagreeDangles(pool: Pool, quiet: Exclusions) returns (parts: seq<Part>)
    requires WellFormed(pool) && EntriesSimple(pool) && Quieting(pool, quiet) && !EntriesAgree(pool)
    ensures AllFit(pool, parts) && Excludes(parts, quiet) && !Resolves(pool, parts)
  {
    var e, m :| IsEntry(pool, e) && e in pool.messages && m in pool.messages && Name(pool, m) == Name(pool, e)
      && !(EntryRefs(pool, e) <= {Name(pool, e)} + if IsEntry(pool, m) then EntryRefs(pool, m) else {});
    var v :| v in EntryRefs(pool, e) && v != Name(pool, e) && (IsEntry(pool, m) ==> v !in EntryRefs(pool, m));
    if !IsEntry(pool, m) {
      parts := MessageClashes(pool, quiet, e, m, v);
    } else if Settled(pool, pool.Fields(m)[ValueIndex(pool.Fields(m))], map[]) {
      parts := ScalarMapClashes(pool, quiet, e, m, v);
    } else {
      parts := MessageMapClashes(pool, quiet, e, m, v);
    }
  }

  // ---- the exact condition -------------------------------------------------------------------------

  function AllNames(pool: Pool, full: string): set<string> {
    if full in pool.messages then set i | 0 <= i < |pool.Fields(full)| :: pool.Fields(full)[i].name else {}
  }

  /**
   References resolve, over every sequence of calls that registers bodies, fields and responses with any
   exclusions, if and only if entries agree.
   */
  lemma ReferencesResolveIff(pool: Pool)
    requires WellFormed(pool) && EntriesSimple(pool)
    ensures (forall parts | AllFit(pool, parts) :: Resolves(pool, parts)) <==> EntriesAgree(pool)
  {
    if EntriesAgree(pool) {
      forall parts | AllFit(pool, parts)
        ensures Resolves(pool, parts)
      {
        EveryReferenceResolves(pool, parts);
      }
    } else {
      var quiet := m => AllNames(pool, m);
      forall m | m in pool.messages
        ensures Quiet(pool, m, quiet(m))
      {
        assert quiet(m) == AllNames(pool, m);
      }
      var parts := DisagreeDangles(pool, quiet);
    }
  }

  /** A request body has a field left that the path does not bind; a response excludes none. */
  predicate Written(pool: Pool, part: Part) {
    part.Whole? && part.full in pool.messages ==>
      part.exclude == {} || exists i :: 0 <= i < |pool.Fields(part.full)| && pool.Fields(part.full)[i].name !in part.exclude
  }

  predicate AllWritten(pool: Pool, parts: seq<Part>) {
    forall i :: 0 <= i < |parts| ==> Written(pool, parts[i])
  }

  /** Some request or response mentions the message and registers no other. */
  ghost predicate Mentionable(pool: Pool, m: string)
    requires pool.Complete() && m in pool.messages
  {
    exists exclude :: Written(pool, Whole(m, exclude)) && Quiet(pool, m, exclude)
  }

  ghost function Mention(pool: Pool, m: string): (exclude: set<string>)
    requires pool.Complete()
    ensures m in pool.messages && Mentionable(pool, m) ==>
              Written(pool, Whole(m, exclude)) && Quiet(pool, m, exclude)
  {
    if m in pool.messages && Mentionable(pool, m) then
      var exclude :| Written(pool, Whole(m, exclude)) && Quiet(pool, m, exclude);
      exclude
    else {}
  }

  /**
   The same of the documents operations write, whose requests never leave out every field: agreement is
   enough, and is needed where every message a clash is about has a field that refers to nothing, or no
   field.
   */
  lemma DocumentsResolveIff(pool: Pool)
    requires WellFormed(pool) && EntriesSimple(pool)
    requires forall m | m in pool.messages && !IsEntry(pool, m) && Concerned(pool, m) :: Mentionable(pool, m)
    ensures (forall parts | AllFit(pool, parts) && AllWritten(pool, parts) :: Resolves(pool, parts)) <==> EntriesAgree(pool)
  {
    if EntriesAgree(pool) {
      forall parts | AllFit(pool, parts) && AllWritten(pool, parts)
        ensures Resolves(pool, parts)
      {
        EveryReferenceResolves(pool, parts);
      }
    } else {
      var quiet := m => Mention(pool, m);
      forall m | m in pool.messages && !IsEntry(pool, m) && Concerned(pool, m)
        ensures Quiet(pool, m, quiet(m)) && Written(pool, Whole(m, quiet(m)))
      {
        assert Mentionable(pool, m);
        assert quiet(m) == Mention(pool, m);
      }
      var parts := DisagreeDangles(pool, quiet);
      forall i | 0 <= i < |parts|
        ensures Written(pool, parts[i])
      {
        assert Fits(pool, parts[i]);
      }
    }
  }

  // ---- path parameters -----------------------------------------------------------------------------

  /** Nothing registers what a path parameter refers to: its reference resolves in every document only if it makes none. */
  lemma PathParamResolvesIff(pool: Pool, f: Field)
    requires WellFormed(pool) && InPool(pool, f) && pool.Holds(f)
    ensures (forall parts | AllFit(pool, parts) && PathParam(f) in parts ::
               Refs(FieldSchema(pool, f)) <= Document(pool, parts).Keys)
            <==> Refs(FieldSchema(pool, f)) == {}
    ensures !f.card.MapOf? ==> (Refs(FieldSchema(pool, f)) == {} <==> f.kind.Plain? || f.kind.full in pool.wellKnown)
  {
    FirstPart(pool, PathParam(f));
    assert PathParam(f) in [PathParam(f)];
    NonMapRefs(pool, f);
  }

  // ---- an example ----------------------------------------------------------------------------------

  /**
   Two messages, each with a map named alike: "a" maps to scalars through the entry "a.E", "b" to
   messages "y" through the entry "b.E".
   */
  function Alike(): Pool {
    var scalars := Field("m", "m", Message("a.E"), MapOf);
    var messages := Field("m", "m", Message("b.E"), MapOf);
    Pool(map[
           "a" := Descriptor("A", [scalars]),
           "a.E" := Descriptor("E", [Field("value", "value", Plain("int32"), Singular)]),
           "b" := Descriptor("B", [messages]),
           "b.E" := Descriptor("E", [Field("value", "value", Message("y"), Singular)]),
           "y" := Descriptor("Y", [])
         ], {}, {})
  }

  lemma AlikeComplete()
    ensures Alike().Complete()
  {
  }

  lemma AlikeEntry(e: string)
    requires IsEntry(Alike(), e)
    ensures e == "a.E" || e == "b.E"
  {
  }

  lemma AlikeEntriesWellFormed()
    ensures EntriesWellFormed(Alike())
  {
    var pool := Alike();
    assert ValueIndex(pool.Fields("a.E")) == 0 && ValueIndex(pool.Fields("b.E")) == 0;
    forall e | IsEntry(pool, e)
      ensures e == "a.E" || e == "b.E"
    {
      AlikeEntry(e);
    }
  }

  lemma AlikeFits()
    ensures Fits(Alike(), Whole("a", {})) && Fits(Alike(), Whole("b", {}))
  {
    forall e | IsEntry(Alike(), e)
      ensures |e| == 3
    {
      AlikeEntry(e);
    }
    assert |"a"| == |"b"| == 1;
  }

  lemma AlikeFirst()
    ensures var table := TableAfter(Alike(), Whole("a", {}), map[]);
            table.Keys == {"A", "E"}
  {
    var pool := Alike();
    var f := pool.Fields("a")[0];
    var entered: Table := map["E" := Placeholder];
    assert RegisteredAll(pool, "a.E", 0, {}, entered) == entered;
    assert Registered(pool, f, map[]).Keys == {"E"};
    assert RegisteredAll(pool, "a", 0, {}, map[]).Keys == {"E"};
  }

  lemma AlikeSecond(table: Table)
    requires table.Keys == {"A", "E"}
    ensures TableAfter(Alike(), Whole("b", {}), table).Keys == {"A", "B", "E"}
    ensures !Closed(TableAfter(Alike(), Whole("b", {}), table))
  {
    var pool := Alike();
    var f := pool.Fields("b")[0];
    assert Registered(pool, f, table) == table;
    assert RegisteredAll(pool, "b", 0, {}, table) == table;
    assert FieldSchema(pool, f) == Dict(Ref("Y"));
    assert [f][..0] == [];
    assert Properties(pool, [f], {}) == map["m" := Dict(Ref("Y"))];
    Dangles(TableAfter(pool, Whole("b", {}), table));
  }

  lemma Dangles(table: Table)
    requires table.Keys == {"A", "B", "E"} && table["B"] == Object(map["m" := Dict(Ref("Y"))])
    ensures !Closed(table)
  {
    assert Refs(table["B"].properties["m"]) == {"Y"};
    assert !SchemaRefers(table["B"], table.Keys);
  }

  lemma TwoParts(pool: Pool, p: Part, q: Part)
    requires pool.Complete() && Fits(pool, p) && Fits(pool, q)
    ensures AllFit(pool, [p, q]) && Document(pool, [p, q]) == TableAfter(pool, q, TableAfter(pool, p, map[]))
  {
    assert [p, q][..1] == [p] && [p][..0] == [];
    assert Document(pool, [p]) == TableAfter(pool, p, Document(pool, []));
  }

  /** With two entries of one name the second is taken for the first, and a reference is left dangling. */
  lemma EntryClash(pool: Pool, parts: seq<Part>)
    requires pool == Alike() && parts == [Whole("a", {}), Whole("b", {})]
    ensures WellFormed(pool) && AllFit(pool, parts) && !Closed(Document(pool, parts))
  {
    AlikeComplete();
    AlikeEntriesWellFormed();
    AlikeFits();
    AlikeFirst();
    AlikeSecond(TableAfter(pool, parts[0], map[]));
    TwoParts(pool, parts[0], parts[1]);
  }
}
