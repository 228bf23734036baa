/**
 The sliding window of the fleet-wide count (src/shield/window.rs) and the life of a shared
 epoch counter (src/shield/global.rs). Instants are nanoseconds since the Unix epoch; windows
 are whole seconds, at least one. The blend is over the reals, in place of `f64`.
 */
module Window {
  import opened Basics

  const NANOS_PER_SEC: nat := 1_000_000_000

  /** The whole seconds of the window, and at least one. */
  function WindowSecs(window: nat): (w: nat)
    ensures w >= 1 && (w == 1 || w * 1_000_000_000 <= window) && window < (w + 1) * 1_000_000_000
  {
    Max(window / NANOS_PER_SEC, 1)
  }

  function Epoch(now: nat, w: nat): nat
    requires w >= 1
  {
    DivFloor(now / NANOS_PER_SEC, w)
  }

  function ElapsedInWindow(now: nat, w: nat): nat
    requires w >= 1
  {
    (now / NANOS_PER_SEC % w) * NANOS_PER_SEC + now % NANOS_PER_SEC
  }

  function Clamp(x: real): (r: real)
    ensures 0.0 <= r <= 1.0
  {
    if x < 0.0 then 0.0 else if x > 1.0 then 1.0 else x
  }

  function SlidingEstimate(cur: nat, prev: nat, elapsed: nat, w: nat): real
    requires w >= 1
  {
    var frac := Clamp(elapsed as real / (w * NANOS_PER_SEC) as real);
    cur as real + prev as real * (1.0 - frac)
  }

  /** The whole count the gate subtracts: the estimate rounded up, never negative. */
  function RoundedUp(est: real): nat {
    Max(-((-est).Floor), 0)
  }

  function EpochStart(e: nat, w: nat): nat {
    Times(e, w) * NANOS_PER_SEC
  }

  /** The clock splits into its epoch and the time elapsed in it. */
  lemma ClockSplits(now: nat, w: nat)
    requires w >= 1
    ensures now == EpochStart(Epoch(now, w), w) + ElapsedInWindow(now, w)
    ensures ElapsedInWindow(now, w) < w * NANOS_PER_SEC
  {
    var secs := now / NANOS_PER_SEC;
    var e := Epoch(now, w);
    DivFloorIsQuotient(secs, w);
    TimesIsProduct(e, w);
    assert secs == e * w + secs % w;
  }

  lemma EpochMonotone(now: nat, later: nat, w: nat)
    requires w >= 1
    requires now <= later
    ensures Epoch(now, w) <= Epoch(later, w)
  {
    DivFloorOrder(now / NANOS_PER_SEC, later / NANOS_PER_SEC, w);
  }

  /** A weight between 0 and 1 keeps a blend between its ends, and a larger one keeps it larger. */
  lemma Weighted(n: nat, x: real, y: real)
    requires 0.0 <= x <= y <= 1.0
    ensures 0.0 <= n as real * x <= n as real * y <= n as real
  {
  }

  lemma RoundedUpBounds(est: real, lo: nat, hi: nat)
    requires lo as real <= est <= hi as real
    ensures lo <= RoundedUp(est) <= hi
    ensures est <= RoundedUp(est) as real < est + 1.0
  {
  }

  lemma Divided(a: nat, b: nat, d: nat)
    requires d > 0
    requires a <= b
    ensures a as real / d as real <= b as real / d as real
  {
  }

  /**
   The applied estimate counts the whole current epoch and at most the whole previous one, and
   exceeds the exact blend by less than one.
   */
  lemma EstimateBounds(cur: nat, prev: nat, elapsed: nat, w: nat)
    requires w >= 1
    ensures var est := SlidingEstimate(cur, prev, elapsed, w);
            && cur <= RoundedUp(est) <= cur + prev
            && est <= RoundedUp(est) as real < est + 1.0
  {
    var f := Clamp(elapsed as real / (w * NANOS_PER_SEC) as real);
    Weighted(prev, 1.0 - f, 1.0);
    RoundedUpBounds(SlidingEstimate(cur, prev, elapsed, w), cur, cur + prev);
  }

  lemma QuotientAtMost(n: nat, c: nat, d: nat)
    requires d >= 1
    ensures n <= c * d <==> n as real / d as real <= c as real
  {
    var q := n as real / d as real;
    assert q * d as real == n as real;
    if q <= c as real {
      assert q * d as real <= c as real * d as real;
    }
  }

  /** The whole number just above a quotient. */
  lemma CeilingScales(n: nat, d: nat, r: nat)
    requires d >= 1
    requires n as real / d as real <= r as real < n as real / d as real + 1.0
    ensures n <= r * d < n + d
  {
    QuotientAtMost(n, r, d);
    if r >= 1 {
      QuotientAtMost(n, r - 1, d);
    }
  }

  /** Nanoseconds, each counted as often as requests of the current epoch or, for what is left of it, the previous one. */
  function Weigh(cur: nat, prev: nat, elapsed: nat, w: nat): nat
    requires elapsed <= w * NANOS_PER_SEC
  {
    cur * (w * NANOS_PER_SEC) + prev * (w * NANOS_PER_SEC - elapsed)
  }

  lemma Blended(cur: nat, prev: nat, elapsed: nat, d: nat)
    requires d >= 1 && elapsed <= d
    ensures cur as real + prev as real * (1.0 - elapsed as real / d as real) ==
            (cur * d + prev * (d - elapsed)) as real / d as real
  {
    var f := elapsed as real / d as real;
    assert f * d as real == elapsed as real;
    assert (cur * d + prev * (d - elapsed)) as real == cur as real * d as real + prev as real * (d as real - f * d as real);
    assert (cur as real + prev as real * (1.0 - f)) * d as real ==
           cur as real * d as real + prev as real * (d as real - f * d as real);
  }

  /** In whole nanoseconds: the current count for all of the window, the previous one for what is left of it. */
  lemma EstimateExact(cur: nat, prev: nat, elapsed: nat, w: nat)
    requires w >= 1 && elapsed <= w * NANOS_PER_SEC
    ensures var d, r := w * NANOS_PER_SEC, RoundedUp(SlidingEstimate(cur, prev, elapsed, w));
            Weigh(cur, prev, elapsed, w) <= r * d < Weigh(cur, prev, elapsed, w) + d
  {
    var d := w * NANOS_PER_SEC;
    EstimateBounds(cur, prev, elapsed, w);
    Divided(elapsed, d, d);
    Blended(cur, prev, elapsed, d);
    CeilingScales(Weigh(cur, prev, elapsed, w), d, RoundedUp(SlidingEstimate(cur, prev, elapsed, w)));
  }

  /** The estimate falls as the window elapses. */
  lemma EstimateFalls(cur: nat, prev: nat, elapsed: nat, later: nat, w: nat)
    requires w >= 1
    requires elapsed <= later
    ensures SlidingEstimate(cur, prev, later, w) <= SlidingEstimate(cur, prev, elapsed, w)
  {
    var d := w * NANOS_PER_SEC;
    var f, g := Clamp(elapsed as real / d as real), Clamp(later as real / d as real);
    Divided(elapsed, later, d);
    Weighted(prev, 1.0 - g, 1.0 - f);
  }

  /** No jump at the boundary: the end of one epoch and the start of the next blend to the same count. */
  lemma EstimateContinuous(cur: nat, prev: nat, w: nat)
    requires w >= 1
    ensures SlidingEstimate(cur, prev, w * NANOS_PER_SEC, w) == SlidingEstimate(0, cur, 0, w) == cur as real
  {
    var d := (w * NANOS_PER_SEC) as real;
    assert d / d == 1.0;
    assert 0.0 / d == 0.0;
  }

  // ---- the life of a shared counter -----------------------------------------------------

  /** One `INCRBY` with the `PEXPIRE` that follows it in the same transaction. */
  datatype Push = Push(at: nat, delta: nat)

  /** A counter in the store: its value until its deadline, nothing from then on. */
  datatype Counter = Counter(value: nat, deadline: nat)

  function ReadAt(c: Counter, now: nat): nat {
    if now < c.deadline then c.value else 0
  }

  function Pushed(c: Counter, p: Push, w: nat): Counter {
    Counter(ReadAt(c, p.at) + p.delta, p.at + 2 * w * NANOS_PER_SEC)
  }

  function PushedAll(c: Counter, pushes: seq<Push>, w: nat): Counter {
    if pushes == [] then c
    else Pushed(PushedAll(c, pushes[..|pushes| - 1], w), pushes[|pushes| - 1], w)
  }

  function Total(pushes: seq<Push>): nat {
    if pushes == [] then 0 else Total(pushes[..|pushes| - 1]) + pushes[|pushes| - 1].delta
  }

  /** While `e` is the current or the previous epoch, less than two windows have passed since it began. */
  lemma StillRead(now: nat, e: nat, w: nat)
    requires w >= 1
    requires Epoch(now, w) <= e + 1
    ensures now < EpochStart(e, w) + 2 * w * NANOS_PER_SEC
  {
    DivFloorAtLeast(now / NANOS_PER_SEC, w, e + 2);
    assert Times(e + 2, w) == Times(e, w) + w + w;
  }

  /**
   A counter outlives its use: whatever pushes it takes from its epoch's start on, a read while
   the epoch is still the current or the previous one returns all of them.
   */
  lemma {:induction false} CounterOutlivesReads(pushes: seq<Push>, e: nat, now: nat, w: nat)
    requires w >= 1
    requires Epoch(now, w) <= e + 1
    requires forall i :: 0 <= i < |pushes| ==> EpochStart(e, w) <= pushes[i].at <= now
    requires forall i, j :: 0 <= i < j < |pushes| ==> pushes[i].at <= pushes[j].at
    ensures ReadAt(PushedAll(Counter(0, 0), pushes, w), now) == Total(pushes)
  {
    if pushes != [] {
      var last := pushes[|pushes| - 1];
      EpochMonotone(last.at, now, w);
      CounterOutlivesReads(pushes[..|pushes| - 1], e, last.at, w);
      StillRead(now, e, w);
    }
  }
}
