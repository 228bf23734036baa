/**
 What the query parameters of an operation are (src/openapi.rs): exactly the ways from the request
 message to a parameter that meet no message type twice and no bound field, each written once.
 */
module QueryPaths {
  import opened Descriptors
  import opened QueryParams

  /** The names of the fields along a trail. */
  function Names(trail: seq<Field>): (names: seq<string>)
    ensures |names| == |trail|
  {
    seq(|trail|, i requires 0 <= i < |trail| => trail[i].name)
  }

  /** The message whose field the `i`-th of the trail is. */
  function Home(msg: string, trail: seq<Field>, i: nat): string
    requires i < |trail|
  {
    if i == 0 then msg else if trail[i - 1].kind.Message? then trail[i - 1].kind.full else ""
  }

  predicate HasField(pool: Pool, msg: string, f: Field) {
    msg in pool.messages && f in pool.Fields(msg)
  }

  /** Each field of the trail is one of the message the field before it holds, the first of `msg`. */
  predicate Linked(pool: Pool, msg: string, trail: seq<Field>) {
    forall i :: 0 <= i < |trail| ==> HasField(pool, Home(msg, trail, i), trail[i])
  }

  /** A single message that a query value cannot be written as in one string. */
  predicate IsThrough(pool: Pool, f: Field) {
    match f.kind
    case Plain(_) => false
    case Message(full) => f.card == Singular && full !in pool.stringForms
  }

  /** A scalar, an enum or a message with a string form, or a list of them; never a map. */
  predicate IsParameter(pool: Pool, f: Field) {
    match f.kind
    case Plain(_) => f.card == Singular || f.card == Repeated
    case Message(full) => full in pool.stringForms && (f.card == Singular || f.card == Repeated)
  }

  /** The trail goes through single message fields to a parameter. */
  predicate Route(pool: Pool, trail: seq<Field>) {
    && trail != []
    && (forall i :: 0 <= i < |trail| - 1 ==> IsThrough(pool, trail[i]))
    && IsParameter(pool, trail[|trail| - 1])
  }

  /** The parameter name of the `i`-th field of the trail. */
  function KeyAt(at: seq<string>, trail: seq<Field>, i: nat): string
    requires i < |trail|
  {
    Dotted(at + Names(trail[..i + 1]))
  }

  /** No field of the trail is bound. */
  predicate Unbound(at: seq<string>, bound: string -> bool, trail: seq<Field>) {
    forall i :: 0 <= i < |trail| ==> !bound(KeyAt(at, trail, i))
  }

  /** The trail enters no message type twice, and none in `way`. */
  predicate Acyclic(way: seq<string>, trail: seq<Field>) {
    && (forall i :: 0 < i < |trail| ==> Home("", trail, i) !in way)
    && (forall i, j :: 0 < i < j < |trail| ==> Home("", trail, i) != Home("", trail, j))
  }

  predicate Trail(pool: Pool, msg: string, at: seq<string>, bound: string -> bool, way: seq<string>, trail: seq<Field>) {
    Linked(pool, msg, trail) && Route(pool, trail) && Unbound(at, bound, trail) && Acyclic(way, trail)
  }

  /** The same, a field at a time. */
  predicate Leads(pool: Pool, msg: string, at: seq<string>, bound: string -> bool, way: seq<string>, trail: seq<Field>)
    decreases |trail|
  {
    && trail != []
    && HasField(pool, msg, trail[0])
    && !bound(Dotted(at + [trail[0].name]))
    && if |trail| == 1 then IsLeaf(pool, trail[0])
       else Enters(pool, trail[0]) && trail[0].kind.full !in way &&
            Leads(pool, trail[0].kind.full, at + [trail[0].name], bound, way + [trail[0].kind.full], trail[1..])
  }

  lemma NamesSplit(at: seq<string>, trail: seq<Field>)
    requires trail != []
    ensures at + Names(trail) == (at + [trail[0].name]) + Names(trail[1..])
  {
  }

  // ---- a trail, a field at a time ------------------------------------------------------------------

  lemma LinkedSplit(pool: Pool, msg: string, trail: seq<Field>)
    requires trail != [] && trail[0].kind.Message?
    ensures Linked(pool, msg, trail) <==>
            HasField(pool, msg, trail[0]) && Linked(pool, trail[0].kind.full, trail[1..])
  {
    var full, rest := trail[0].kind.full, trail[1..];
    assert Home(msg, trail, 0) == msg;
    forall i | 0 <= i < |rest|
      ensures Home(full, rest, i) == Home(msg, trail, i + 1) && rest[i] == trail[i + 1]
    {
      assert i > 0 ==> rest[i - 1] == trail[i];
    }
    assert forall i {:trigger Home(msg, trail, i)} :: 0 < i < |trail| ==>
      Home(msg, trail, i) == Home(full, rest, i - 1) && trail[i] == rest[i - 1];
  }

  lemma RouteSplit(pool: Pool, trail: seq<Field>)
    requires |trail| > 1
    ensures Route(pool, trail) <==> Enters(pool, trail[0]) && Route(pool, trail[1..])
  {
    assert forall i {:trigger trail[i]} :: 0 < i < |trail| ==> trail[i] == trail[1..][i - 1];
  }

  lemma UnboundSplit(at: seq<string>, bound: string -> bool, trail: seq<Field>)
    requires trail != []
    ensures Unbound(at, bound, trail) <==>
            !bound(Dotted(at + [trail[0].name])) && Unbound(at + [trail[0].name], bound, trail[1..])
  {
    var f, rest := trail[0], trail[1..];
    assert KeyAt(at, trail, 0) == Dotted(at + [f.name]) by {
      assert Names(trail[..1]) == [f.name];
    }
    forall i | 0 <= i < |rest|
      ensures KeyAt(at + [f.name], rest, i) == KeyAt(at, trail, i + 1)
    {
      NamesSplit(at, trail[..i + 2]);
      assert trail[..i + 2][1..] == rest[..i + 1];
    }
    assert forall i {:trigger KeyAt(at, trail, i)} :: 0 < i < |trail| ==> KeyAt(at, trail, i) == KeyAt(at + [f.name], rest, i - 1);
  }

  lemma AcyclicSplit(way: seq<string>, trail: seq<Field>)
    requires |trail| > 1 && trail[0].kind.Message?
    ensures Acyclic(way, trail) <==> trail[0].kind.full !in way && Acyclic(way + [trail[0].kind.full], trail[1..])
  {
    var full, rest := trail[0].kind.full, trail[1..];
    assert Home("", trail, 1) == full;
    assert forall i {:trigger Home("", rest, i)} :: 0 < i < |rest| ==> Home("", rest, i) == Home("", trail, i + 1);
    assert forall i {:trigger Home("", trail, i)} :: 1 < i < |trail| ==> Home("", trail, i) == Home("", rest, i - 1);
  }

  lemma {:induction false} TrailLeads(pool: Pool, msg: string, at: seq<string>, bound: string -> bool, way: seq<string>,
                                      trail: seq<Field>)
    ensures Trail(pool, msg, at, bound, way, trail) <==> Leads(pool, msg, at, bound, way, trail)
    decreases |trail|
  {
    if trail != [] {
      UnboundSplit(at, bound, trail);
      if |trail| > 1 {
        RouteSplit(pool, trail);
        if Enters(pool, trail[0]) {
          LinkedSplit(pool, msg, trail);
          AcyclicSplit(way, trail);
          TrailLeads(pool, trail[0].kind.full, at + [trail[0].name], bound, way + [trail[0].kind.full], trail[1..]);
        }
      } else {
        assert Home(msg, trail, 0) == msg;
      }
    }
  }

  // ---- every trail is walked, and nothing else -----------------------------------------------------

  lemma PathsAt(pool: Pool, msg: string, i: nat, k: nat, at: seq<string>, bound: string -> bool, way: seq<string>,
                path: seq<string>)
    requires pool.Complete() && msg in pool.messages && i <= k < |pool.Fields(msg)|
    requires path in FieldPaths(pool, pool.Fields(msg)[k], at, bound, way)
    ensures path in Paths(pool, msg, i, at, bound, way)
    decreases k - i
  {
    if i < k {
      PathsAt(pool, msg, i + 1, k, at, bound, way, path);
    }
  }

  lemma {:induction false} Complete(pool: Pool, msg: string, at: seq<string>, bound: string -> bool, way: seq<string>,
                                    trail: seq<Field>)
    requires pool.Complete()
    requires Leads(pool, msg, at, bound, way, trail)
    ensures at + Names(trail) in Paths(pool, msg, 0, at, bound, way)
    decreases |trail|
  {
    var f := trail[0];
    var k :| 0 <= k < |pool.Fields(msg)| && pool.Fields(msg)[k] == f;
    if |trail| > 1 {
      Complete(pool, f.kind.full, at + [f.name], bound, way + [f.kind.full], trail[1..]);
      NamesSplit(at, trail);
    } else {
      assert Names(trail) == [f.name];
    }
    PathsAt(pool, msg, 0, k, at, bound, way, at + Names(trail));
  }

  lemma {:induction false} SoundField(pool: Pool, msg: string, f: Field, at: seq<string>, bound: string -> bool,
                                      way: seq<string>, path: seq<string>)
    returns (trail: seq<Field>)
    requires pool.Complete() && msg in pool.messages && f in pool.Fields(msg)
    requires path in FieldPaths(pool, f, at, bound, way)
    ensures Leads(pool, msg, at, bound, way, trail) && path == at + Names(trail)
    decreases pool.messages.Keys - Set(way), 0
  {
    if IsLeaf(pool, f) {
      trail := [f];
      assert Names(trail) == [f.name];
    } else {
      var full := f.kind.full;
      assert full !in Set(way) && full in Set(way + [full]);
      var rest := Sound(pool, full, 0, at + [f.name], bound, way + [full], path);
      trail := [f] + rest;
      NamesSplit(at, trail);
      assert trail[1..] == rest;
    }
  }

  lemma {:induction false} Sound(pool: Pool, msg: string, i: nat, at: seq<string>, bound: string -> bool, way: seq<string>,
                                 path: seq<string>)
    returns (trail: seq<Field>)
    requires pool.Complete() && msg in pool.messages && i <= |pool.Fields(msg)|
    requires path in Paths(pool, msg, i, at, bound, way)
    ensures Leads(pool, msg, at, bound, way, trail) && path == at + Names(trail)
    decreases pool.messages.Keys - Set(way), |pool.Fields(msg)| - i + 1
  {
    if path in FieldPaths(pool, pool.Fields(msg)[i], at, bound, way) {
      trail := SoundField(pool, msg, pool.Fields(msg)[i], at, bound, way, path);
    } else {
      trail := Sound(pool, msg, i + 1, at, bound, way, path);
    }
  }

  /** The parameters of an operation are the paths of the trails from its request message. */
  lemma ParametersAreTrails(pool: Pool, root: string, bound: string -> bool, path: seq<string>)
    requires pool.Complete() && root in pool.messages
    ensures path in Paths(pool, root, 0, [], bound, [root]) <==>
            exists trail :: Trail(pool, root, [], bound, [root], trail) && path == Names(trail)
  {
    if path in Paths(pool, root, 0, [], bound, [root]) {
      var trail := Sound(pool, root, 0, [], bound, [root], path);
      TrailLeads(pool, root, [], bound, [root], trail);
      assert path == Names(trail);
    }
    if trail :| Trail(pool, root, [], bound, [root], trail) && path == Names(trail) {
      TrailLeads(pool, root, [], bound, [root], trail);
      Complete(pool, root, [], bound, [root], trail);
      assert [] + Names(trail) == path;
    }
  }

  // ---- each is written once ------------------------------------------------------------------------

  predicate Distinct<T(==)>(s: seq<T>) {
    forall i, j :: 0 <= i < j < |s| ==> s[i] != s[j]
  }

  predicate Undotted(names: seq<string>) {
    forall i :: 0 <= i < |names| ==> '.' !in names[i]
  }

  /** The fields of a message differ in name, and no name has a dot in it. */
  predicate WellNamed(pool: Pool) {
    forall full :: full in pool.messages ==> Distinct(FieldNames(pool, full)) && Undotted(FieldNames(pool, full))
  }

  function FieldNames(pool: Pool, full: string): (names: seq<string>)
    requires full in pool.messages
    ensures |names| == |pool.Fields(full)|
  {
    Names(pool.Fields(full))
  }

  /** Every path at or below the field goes through it. */
  lemma {:induction false} Through(pool: Pool, f: Field, at: seq<string>, bound: string -> bool, way: seq<string>,
                                   path: seq<string>)
    requires pool.Complete() && pool.Holds(f)
    requires path in FieldPaths(pool, f, at, bound, way)
    ensures at + [f.name] <= path
  {
    if !IsLeaf(pool, f) {
      var trail := Sound(pool, f.kind.full, 0, at + [f.name], bound, way + [f.kind.full], path);
    }
  }

  lemma {:induction false} DistinctField(pool: Pool, f: Field, at: seq<string>, bound: string -> bool, way: seq<string>)
    requires pool.Complete() && pool.Holds(f) && WellNamed(pool)
    ensures Distinct(FieldPaths(pool, f, at, bound, way))
    decreases pool.messages.Keys - Set(way), 0
  {
    if !bound(Dotted(at + [f.name])) && !IsLeaf(pool, f) && Enters(pool, f) && f.kind.full !in way {
      var full := f.kind.full;
      assert full !in Set(way) && full in Set(way + [full]);
      DistinctFrom(pool, full, 0, at + [f.name], bound, way + [full]);
    }
  }

  lemma {:induction false} DistinctFrom(pool: Pool, msg: string, i: nat, at: seq<string>, bound: string -> bool,
                                        way: seq<string>)
    requires pool.Complete() && msg in pool.messages && i <= |pool.Fields(msg)| && WellNamed(pool)
    ensures Distinct(Paths(pool, msg, i, at, bound, way))
    decreases pool.messages.Keys - Set(way), |pool.Fields(msg)| - i + 1
  {
    if i < |pool.Fields(msg)| {
      var f := pool.Fields(msg)[i];
      DistinctField(pool, f, at, bound, way);
      DistinctFrom(pool, msg, i + 1, at, bound, way);
      forall path | path in FieldPaths(pool, f, at, bound, way)
        ensures path !in Paths(pool, msg, i + 1, at, bound, way)
      {
        Through(pool, f, at, bound, way, path);
        NotBelowLater(pool, msg, i, i + 1, at, bound, way, path);
      }
      DistinctJoined(FieldPaths(pool, f, at, bound, way), Paths(pool, msg, i + 1, at, bound, way));
    }
  }

  lemma {:induction false} NotBelowLater(pool: Pool, msg: string, i: nat, k: nat, at: seq<string>, bound: string -> bool,
                                         way: seq<string>, path: seq<string>)
    requires pool.Complete() && msg in pool.messages && i < k <= |pool.Fields(msg)| && WellNamed(pool)
    requires at + [pool.Fields(msg)[i].name] <= path
    ensures path !in Paths(pool, msg, k, at, bound, way)
    decreases |pool.Fields(msg)| - k
  {
    if k < |pool.Fields(msg)| {
      NotBelowLater(pool, msg, i, k + 1, at, bound, way, path);
      var g := pool.Fields(msg)[k];
      assert FieldNames(pool, msg)[i] != FieldNames(pool, msg)[k];
      assert path[|at|] == pool.Fields(msg)[i].name;
      forall p | p in FieldPaths(pool, g, at, bound, way)
        ensures p != path
      {
        Through(pool, g, at, bound, way, p);
        assert (at + [g.name])[|at|] == g.name;
      }
    }
  }

  lemma DistinctJoined<T>(a: seq<T>, b: seq<T>)
    requires Distinct(a) && Distinct(b)
    requires forall x :: x in a ==> x !in b
    ensures Distinct(a + b)
  {
    forall i, j | 0 <= i < j < |a + b|
      ensures (a + b)[i] != (a + b)[j]
    {
      if i < |a| <= j {
        assert a[i] in a && b[j - |a|] in b;
      }
    }
  }

  /** Names without a dot are read back from the dotted path. */
  lemma {:induction false} DottedReadsBack(p: seq<string>, q: seq<string>)
    requires p != [] && q != []
    requires Undotted(p) && Undotted(q)
    requires Dotted(p) == Dotted(q)
    ensures p == q
    decreases |p|
  {
    var x, y := p[|p| - 1], q[|q| - 1];
    if |p| == 1 || |q| == 1 {
      if |p| > 1 { DotWithin(p); }
      if |q| > 1 { DotWithin(q); }
    } else {
      var u, v := Dotted(p[..|p| - 1]), Dotted(q[..|q| - 1]);
      LastDot(u, x, v, y);
      DottedReadsBack(p[..|p| - 1], q[..|q| - 1]);
      assert p == p[..|p| - 1] + [x] && q == q[..|q| - 1] + [y];
    }
  }

  lemma DotWithin(q: seq<string>)
    requires |q| > 1
    ensures '.' in Dotted(q)
  {
    assert Dotted(q)[|Dotted(q[..|q| - 1])|] == '.';
  }

  lemma DotAfter(u: string, x: string, v: string, y: string)
    requires u + "." + x == v + "." + y
    ensures |u| < |v| ==> '.' in x
  {
    if |u| < |v| {
      assert (v + "." + y)[|v|] == '.';
      assert (u + "." + x)[|v|] == x[|v| - |u| - 1];
    }
  }

  lemma LastDot(u: string, x: string, v: string, y: string)
    requires '.' !in x && '.' !in y
    requires u + "." + x == v + "." + y
    ensures u == v && x == y
  {
    DotAfter(u, x, v, y);
    DotAfter(v, y, u, x);
    var s, t := u + "." + x, v + "." + y;
    assert s[..|u|] == u && t[..|v|] == v;
    assert s[|u| + 1..] == x && t[|v| + 1..] == y;
  }

  lemma {:induction false} LeadsNoDots(pool: Pool, msg: string, at: seq<string>, bound: string -> bool, way: seq<string>,
                                       trail: seq<Field>)
    requires WellNamed(pool) && Leads(pool, msg, at, bound, way, trail)
    ensures Undotted(Names(trail))
    decreases |trail|
  {
    var k :| 0 <= k < |pool.Fields(msg)| && pool.Fields(msg)[k] == trail[0];
    assert FieldNames(pool, msg)[k] == trail[0].name;
    if |trail| > 1 {
      LeadsNoDots(pool, trail[0].kind.full, at + [trail[0].name], bound, way + [trail[0].kind.full], trail[1..]);
      assert Names(trail) == [trail[0].name] + Names(trail[1..]);
    }
  }

  /** No two parameters of an operation have the same name. */
  lemma ParametersDistinct(pool: Pool, root: string, bound: string -> bool)
    requires pool.Complete() && root in pool.messages && WellNamed(pool)
    ensures Distinct(Keys(Paths(pool, root, 0, [], bound, [root])))
  {
    var paths := Paths(pool, root, 0, [], bound, [root]);
    DistinctFrom(pool, root, 0, [], bound, [root]);
    forall i, j | 0 <= i < j < |paths|
      ensures Dotted(paths[i]) != Dotted(paths[j])
    {
      var p := Sound(pool, root, 0, [], bound, [root], paths[i]);
      var q := Sound(pool, root, 0, [], bound, [root], paths[j]);
      LeadsNoDots(pool, root, [], bound, [root], p);
      LeadsNoDots(pool, root, [], bound, [root], q);
      if Dotted(paths[i]) == Dotted(paths[j]) {
        DottedReadsBack(paths[i], paths[j]);
      }
    }
  }
}
