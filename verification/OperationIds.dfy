/**
 Operation ids of the OpenAPI document (src/openapi.rs): one method mounted several times gets its
 name, then the name with a number, so that every id is unique.
 */
module OperationIds {

  function Digit(d: nat): char
    requires d < 10
  {
    '0' + d as char
  }

  function Decimal(n: nat): (s: string)
    ensures s != ""
  {
    if n < 10 then [Digit(n)] else Decimal(n / 10) + [Digit(n % 10)]
  }

  /** The number a string of digits stands for. */
  function Value(s: string): int {
    if s == "" then 0 else 10 * Value(s[..|s| - 1]) + (s[|s| - 1] as int - '0' as int)
  }

  lemma {:induction false} DecimalReads(n: nat)
    ensures Value(Decimal(n)) == n
  {
    if n >= 10 {
      DecimalReads(n / 10);
      assert Decimal(n)[..|Decimal(n)| - 1] == Decimal(n / 10);
    } else {
      assert [Digit(n)][..0] == "";
    }
  }

  /** The `n`-th id tried for a name: the name, then the name with 2, 3, and so on. */
  function Candidate(name: string, n: nat): string {
    if n <= 1 then name else name + "_" + Decimal(n)
  }

  ghost predicate Named(name: string, id: string) {
    exists n: nat :: n >= 1 && id == Candidate(name, n)
  }

  lemma CandidatesDiffer(name: string, m: nat, n: nat)
    requires 1 <= m < n
    ensures Candidate(name, m) != Candidate(name, n)
  {
    var k := |name| + 1;
    if m > 1 && Candidate(name, m) == Candidate(name, n) {
      assert Candidate(name, m)[k..] == Decimal(m) && Candidate(name, n)[k..] == Decimal(n);
      DecimalReads(m);
      DecimalReads(n);
    }
  }

  /** The first candidate not taken. It is found because the candidates differ and only finitely many are taken. */
  method UniqueId(taken: set<string>, name: string) returns (id: string, now: set<string>)
    ensures id !in taken && now == taken + {id}
    ensures exists n: nat :: n >= 1 && id == Candidate(name, n) && forall m :: 1 <= m < n ==> Candidate(name, m) in taken
  {
    id := name;
    var n := 1;
    ghost var tried: set<string> := {};
    while id in taken
      invariant n >= 1 && id == Candidate(name, n)
      invariant forall m :: 1 <= m < n ==> Candidate(name, m) in taken
      invariant forall s :: s in tried ==> s in taken && exists m :: 1 <= m < n && s == Candidate(name, m)
      decreases taken - tried
    {
      forall s | s in tried
        ensures s != id
      {
        var m :| 1 <= m < n && s == Candidate(name, m);
        CandidatesDiffer(name, m, n);
      }
      tried := tried + {id};
      n := n + 1;
      id := name + "_" + Decimal(n);
    }
    now := taken + {id};
  }

  /** The ids of all the operations, in order. */
  method UniqueIds(names: seq<string>) returns (ids: seq<string>)
    ensures |ids| == |names|
    ensures forall i, j :: 0 <= i < j < |ids| ==> ids[i] != ids[j]
    ensures forall i :: 0 <= i < |ids| ==> Named(names[i], ids[i])
  {
    ids := [];
    var taken: set<string> := {};
    for i := 0 to |names|
      invariant |ids| == i
      invariant forall s :: s in ids ==> s in taken
      invariant forall j, k :: 0 <= j < k < i ==> ids[j] != ids[k]
      invariant forall j :: 0 <= j < i ==> Named(names[j], ids[j])
    {
      var id;
      id, taken := UniqueId(taken, names[i]);
      assert Named(names[i], id);
      ids := ids + [id];
    }
  }
}
