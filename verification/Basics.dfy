/** Types and arithmetic every other module uses. */
module Basics {

  datatype Option<+T> = None | Some(value: T)

  datatype Result<+T, +E> = Ok(value: T) | Err(error: E)

  const U64_MAX: nat := 0xFFFF_FFFF_FFFF_FFFF

  /** Any number of worker threads, or proxy instances, is numbered by its position. */
  type Id = nat

  function Min(a: int, b: int): int {
    if a <= b then a else b
  }

  function Max(a: int, b: int): int {
    if a >= b then a else b
  }

  /** Saturating subtraction of unsigned values. */
  function Minus(a: nat, b: nat): nat {
    if a >= b then a - b else 0
  }

  function Sum(s: seq<nat>): nat {
    if s == [] then 0 else s[0] + Sum(s[1..])
  }

  /** Changing one term changes the sum by the difference. */
  lemma {:induction false} SumUpdate(s: seq<nat>, i: nat, v: nat)
    requires i < |s|
    ensures Sum(s[i := v]) + s[i] == Sum(s) + v
  {
    if i == 0 {
      assert s[i := v][1..] == s[1..];
    } else {
      assert s[i := v][1..] == s[1..][i - 1 := v];
      SumUpdate(s[1..], i - 1, v);
    }
  }

  lemma {:induction false} SumAtMost(s: seq<nat>, t: seq<nat>)
    requires |s| == |t|
    requires forall i :: 0 <= i < |s| ==> s[i] <= t[i]
    ensures Sum(s) <= Sum(t)
  {
    if s != [] {
      SumAtMost(s[1..], t[1..]);
    }
  }

  lemma {:induction false} SumZero(s: seq<nat>)
    requires forall i :: 0 <= i < |s| ==> s[i] == 0
    ensures Sum(s) == 0
  {
    if s != [] {
      SumZero(s[1..]);
    }
  }

  /** One term is at most the whole sum. */
  lemma {:induction false} SumTerm(s: seq<nat>, i: nat)
    requires i < |s|
    ensures s[i] <= Sum(s)
  {
    if i > 0 {
      SumTerm(s[1..], i - 1);
    }
  }

  lemma RemovedSize<K, V>(m: map<K, V>, key: K)
    requires key in m
    ensures |m - {key}| == |m| - 1
  {
    assert (m - {key}).Keys == m.Keys - {key};
  }

  lemma AddedSize<K, V>(m: map<K, V>, key: K, v: V)
    ensures |m[key := v]| == |m| + if key in m then 0 else 1
  {
    assert m[key := v].Keys == m.Keys + {key};
  }

  /** `k * d`, unfolded one `d` at a time so that proofs about it stay linear. */
  function Times(k: nat, d: nat): nat {
    if k == 0 then 0 else Times(k - 1, d) + d
  }

  lemma {:induction false} TimesIsProduct(k: nat, d: nat)
    ensures Times(k, d) == k * d
  {
    if k > 0 {
      TimesIsProduct(k - 1, d);
    }
  }

  lemma {:induction false} TimesAdd(j: nat, k: nat, d: nat)
    ensures Times(j + k, d) == Times(j, d) + Times(k, d)
  {
    if k > 0 {
      TimesAdd(j, k - 1, d);
    }
  }

  lemma TimesOrder(j: nat, k: nat, d: nat)
    requires d > 0
    ensures j <= k <==> Times(j, d) <= Times(k, d)
  {
    if j <= k {
      TimesAdd(j, k - j, d);
    } else {
      TimesAdd(k, j - k, d);
    }
  }

  /** Floor division, by repeated subtraction. */
  function DivFloor(n: nat, d: nat): nat
    requires d > 0
  {
    if n < d then 0 else 1 + DivFloor(n - d, d)
  }

  lemma {:induction false} DivFloorAtLeast(n: nat, d: nat, k: nat)
    requires d > 0
    ensures Times(k, d) <= n <==> k <= DivFloor(n, d)
  {
    if n >= d && k > 0 {
      DivFloorAtLeast(n - d, d, k - 1);
    }
  }

  lemma DivFloorOrder(m: nat, n: nat, d: nat)
    requires d > 0
    requires m <= n
    ensures DivFloor(m, d) <= DivFloor(n, d)
  {
    DivFloorAtLeast(m, d, DivFloor(m, d));
    DivFloorAtLeast(n, d, DivFloor(m, d));
  }

  lemma DivFloorIsQuotient(n: nat, d: nat)
    requires d > 0
    ensures DivFloor(n, d) == n / d
  {
    var q := n / d;
    TimesIsProduct(q, d);
    DivFloorAtLeast(n, d, q);
    DivFloorAtLeast(n, d, q + 1);
  }
}
