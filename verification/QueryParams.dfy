/**
 The query parameters of an operation (src/openapi.rs): the fields below a message that neither the
 path nor the body binds, by dotted path, through a graph of messages that may be cyclic.
 */
module QueryParams {
  import opened Descriptors

  /** A path of field names, written with dots. */
  function Dotted(path: seq<string>): string {
    if path == [] then ""
    else if |path| == 1 then path[0]
    else Dotted(path[..|path| - 1]) + "." + path[|path| - 1]
  }

  function Prefix(path: seq<string>): string {
    if path == [] then "" else Dotted(path) + "."
  }

  function Set<T>(s: seq<T>): set<T> {
    set x | x in s
  }

  /** A field whose own fields are parameters: one message, without a string form. */
  predicate Enters(pool: Pool, f: Field) {
    f.kind.Message? && f.kind.full !in pool.stringForms && f.card.Singular?
  }

  /** A field that is a parameter itself: a scalar, an enum or a string form, repeated or not. */
  predicate IsLeaf(pool: Pool, f: Field) {
    !f.card.MapOf? && (f.kind.Plain? || f.kind.full in pool.stringForms)
  }

  /** The paths to every parameter at or below the field `f`, in order. */
  function FieldPaths(pool: Pool, f: Field, at: seq<string>, bound: string -> bool, way: seq<string>): seq<seq<string>>
    requires pool.Complete() && pool.Holds(f)
    decreases pool.messages.Keys - Set(way), 0
  {
    var path := at + [f.name];
    if bound(Dotted(path)) then []
    else if IsLeaf(pool, f) then [path]
    else if Enters(pool, f) && f.kind.full !in way then
      assert f.kind.full !in Set(way) && f.kind.full in Set(way + [f.kind.full]);
      Paths(pool, f.kind.full, 0, path, bound, way + [f.kind.full])
    else []
  }

  /** The paths to every parameter at or below the fields of `msg` from the `i`-th on, in order. */
  function Paths(pool: Pool, msg: string, i: nat, at: seq<string>, bound: string -> bool, way: seq<string>)
    : seq<seq<string>>
    requires pool.Complete() && msg in pool.messages && i <= |pool.Fields(msg)|
    decreases pool.messages.Keys - Set(way), |pool.Fields(msg)| - i + 1
  {
    if i == |pool.Fields(msg)| then []
    else FieldPaths(pool, pool.Fields(msg)[i], at, bound, way) + Paths(pool, msg, i + 1, at, bound, way)
  }

  function Keys(paths: seq<seq<string>>): (keys: seq<string>)
    ensures |keys| == |paths|
  {
    seq(|paths|, i requires 0 <= i < |paths| => Dotted(paths[i]))
  }

  lemma KeysAppend(keys: seq<string>, a: seq<seq<string>>, b: seq<seq<string>>)
    ensures keys + Keys(a + b) == (keys + Keys(a)) + Keys(b)
  {
  }

  lemma PrefixThenName(at: seq<string>, name: string)
    ensures Prefix(at) + name == Dotted(at + [name])
  {
    if at != [] {
      assert (at + [name])[..|at|] == at;
    }
  }

  // ---- the walk ------------------------------------------------------------------------------------

  /** What one field adds. The message type it enters is on the way while its fields are walked. */
  method WalkField(pool: Pool, f: Field, prefix: string, bound: string -> bool, way0: seq<string>, params0: seq<string>,
                   ghost at: seq<string>)
    returns (way: seq<string>, params: seq<string>)
    requires pool.Complete() && pool.Holds(f)
    requires prefix == Prefix(at)
    ensures way == way0
    ensures params == params0 + Keys(FieldPaths(pool, f, at, bound, way0))
    decreases pool.messages.Keys - Set(way0), 0
  {
    way, params := way0, params0;
    var key := prefix + f.name;
    PrefixThenName(at, f.name);
    if bound(key) || f.card.MapOf? {
      return;
    }
    if f.kind.Message? && f.kind.full !in pool.stringForms {
      if f.card.Repeated? || f.kind.full in way {
        return;
      }
      way := way + [f.kind.full];
      assert f.kind.full !in Set(way0) && f.kind.full in Set(way);
      way, params := Walk(pool, f.kind.full, key + ".", bound, way, params, at + [f.name]);
      way := way[..|way| - 1];
    } else {
      params := params + [key];
    }
  }

  /**
   Walk the fields of `msg`, pushing a parameter per path. It ends because a message type already on
   the way is not entered again, and leaves the way as it found it.
   */
  method Walk(pool: Pool, msg: string, prefix: string, bound: string -> bool, way0: seq<string>, params0: seq<string>,
              ghost at: seq<string>)
    returns (way: seq<string>, params: seq<string>)
    requires pool.Complete() && msg in pool.messages
    requires prefix == Prefix(at)
    ensures way == way0
    ensures params == params0 + Keys(Paths(pool, msg, 0, at, bound, way0))
    decreases pool.messages.Keys - Set(way0), 1
  {
    way, params := way0, params0;
    var fields := pool.Fields(msg);
    for i := 0 to |fields|
      invariant way == way0
      invariant params + Keys(Paths(pool, msg, i, at, bound, way0)) ==
                params0 + Keys(Paths(pool, msg, 0, at, bound, way0))
    {
      KeysAppend(params, FieldPaths(pool, fields[i], at, bound, way0), Paths(pool, msg, i + 1, at, bound, way0));
      way, params := WalkField(pool, fields[i], prefix, bound, way, params, at);
    }
  }

  /** The query parameters of an operation with input `root`. */
  method QueryParameters(pool: Pool, root: string, bound: string -> bool) returns (params: seq<string>)
    requires pool.Complete() && root in pool.messages
    ensures params == Keys(Paths(pool, root, 0, [], bound, [root]))
  {
    var way;
    way, params := Walk(pool, root, "", bound, [root], [], []);
  }
}
