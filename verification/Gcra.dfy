/**
 The GCRA limiter of one key (src/shield/gcra.rs): pure arithmetic on a stored
 theoretical arrival time (TAT). Durations are whole nanoseconds.
 */
module Gcra {
  import opened Basics

  const U32_MAX: nat := 0xFFFF_FFFF

  datatype Profile = Profile(rate: nat, window: nat, burst: nat)

  datatype Limiter = Limiter(emission: nat, tau: nat, burst: nat) {
    /** The burst the tolerance `tau` really allows: its factor saturates at `u32::MAX`. */
    function Capacity(): nat {
      Min(burst, U32_MAX + 1)
    }

    predicate Valid() {
      emission >= 1 && burst >= 1 && tau == Times(Capacity() - 1, emission)
    }
  }

  datatype Verdict = Verdict(
    allowed: bool, newTat: nat, remaining: nat, retryAfter: nat, resetAfter: nat)

  function FromProfile(p: Profile): (g: Limiter)
    ensures g.Valid()
  {
    var rate := Max(p.rate, 1);
    var burst := Max(p.burst, 1);
    var emission := Max(Max(p.window, 1) / rate, 1);
    var factor := Min(burst - 1, U32_MAX);
    TimesIsProduct(factor, emission);
    Limiter(emission, emission * factor, burst)
  }

  function Check(g: Limiter, stored: Option<nat>, now: nat): Verdict
    requires g.Valid()
  {
    var tat := if stored.Some? then stored.value else now;
    var admissible :=
      if now + g.tau >= tat then Min(1 + DivFloor(now + g.tau - tat, g.emission), g.burst) else 0;
    if admissible == 0 then
      Verdict(false, tat, 0, Minus(Minus(tat, g.tau), now), Minus(tat, now))
    else
      var newTat := Max(tat, now) + g.emission;
      Verdict(true, newTat, admissible - 1, 0, Minus(newTat, now))
  }

  // ---- runs of checks on one key -------------------------------------------------

  /** The TAT a key holds after a check: unchanged when the request is rejected. */
  function Next(g: Limiter, stored: Option<nat>, now: nat): Option<nat>
    requires g.Valid()
  {
    var v := Check(g, stored, now);
    if v.allowed then Some(v.newTat) else stored
  }

  function After(g: Limiter, stored: Option<nat>, nows: seq<nat>): Option<nat>
    requires g.Valid()
    decreases nows
  {
    if nows == [] then stored else After(g, Next(g, stored, nows[0]), nows[1..])
  }

  /** The clock readings of the requests a run admits, in order. */
  function Admits(g: Limiter, stored: Option<nat>, nows: seq<nat>): seq<nat>
    requires g.Valid()
    decreases nows
  {
    if nows == [] then []
    else
      (if Check(g, stored, nows[0]).allowed then [nows[0]] else []) +
      Admits(g, Next(g, stored, nows[0]), nows[1..])
  }

  /** The readings admitted in the stretch `[from, to)` of a longer run. */
  function AdmitsWithin(g: Limiter, stored: Option<nat>, nows: seq<nat>, from: nat, to: nat): seq<nat>
    requires g.Valid()
    requires from <= to <= |nows|
  {
    Admits(g, After(g, stored, nows[..from]), nows[from..to])
  }

  /** What a check decides, without its count of admissible requests. */
  lemma CheckDecides(g: Limiter, stored: Option<nat>, now: nat)
    requires g.Valid()
    ensures var tat := if stored.Some? then stored.value else now;
            && Check(g, stored, now).allowed == (now + g.tau >= tat)
            && Next(g, stored, now) ==
               if now + g.tau >= tat then Some(Max(tat, now) + g.emission) else stored
  {
  }

  lemma FirstAdmitted(g: Limiter, stored: Option<nat>, now: nat, nows: seq<nat>)
    requires g.Valid()
    requires Check(g, stored, now).allowed
    ensures |Admits(g, stored, [now] + nows)| == 1 + |Admits(g, Next(g, stored, now), nows)|
  {
    assert ([now] + nows)[1..] == nows;
  }

  lemma {:induction false} AdmitsAreReadings(g: Limiter, stored: Option<nat>, nows: seq<nat>)
    requires g.Valid()
    ensures forall t :: t in Admits(g, stored, nows) ==> t in nows
    decreases nows
  {
    if nows != [] {
      AdmitsAreReadings(g, Next(g, stored, nows[0]), nows[1..]);
    }
  }

  /** Every admit moves the TAT one emission interval further than the stored one. */
  lemma {:induction false} TatOutruns(g: Limiter, tat: nat, nows: seq<nat>)
    requires g.Valid()
    ensures var a := Admits(g, Some(tat), nows);
            a != [] ==> a[|a| - 1] + g.tau >= tat + Times(|a| - 1, g.emission)
    decreases nows
  {
    if nows != [] {
      TatOutruns(g, Next(g, Some(tat), nows[0]).value, nows[1..]);
    }
  }

  lemma {:induction false} FirstToLast(g: Limiter, stored: Option<nat>, nows: seq<nat>)
    requires g.Valid()
    ensures var a := Admits(g, stored, nows);
            a != [] ==> a[|a| - 1] + g.tau >= a[0] + Times(|a| - 1, g.emission)
    decreases nows
  {
    if nows != [] {
      var tat := Next(g, stored, nows[0]);
      if Check(g, stored, nows[0]).allowed {
        TatOutruns(g, tat.value, nows[1..]);
      } else {
        FirstToLast(g, tat, nows[1..]);
      }
    }
  }

  /**
   The interval bound: whatever order the clock readings come in, the admits of any
   contiguous stretch number at most `burst` plus one per emission interval between
   the first and the last of them.
   */
  lemma IntervalBound(g: Limiter, stored: Option<nat>, nows: seq<nat>, from: nat, to: nat)
    requires g.Valid()
    requires from <= to <= |nows|
    ensures var a := AdmitsWithin(g, stored, nows, from, to);
            a != [] ==> |a| <= g.Capacity() + DivFloor(Minus(a[|a| - 1], a[0]), g.emission)
    ensures g.Capacity() <= g.burst
  {
    var a := AdmitsWithin(g, stored, nows, from, to);
    FirstToLast(g, After(g, stored, nows[..from]), nows[from..to]);
    if a != [] {
      CountBound(|a|, g.Capacity(), g.emission, a[0], a[|a| - 1]);
    }
  }

  lemma CountBound(n: nat, c: nat, t: nat, first: nat, last: nat)
    requires n >= 1 && c >= 1 && t >= 1
    requires last + Times(c - 1, t) >= first + Times(n - 1, t)
    ensures n <= c + DivFloor(Minus(last, first), t)
  {
    if n > c {
      TimesAdd(c - 1, n - c, t);
      DivFloorAtLeast(Minus(last, first), t, n - c);
    }
  }

  // ---- the window bound, and exactly when it holds --------------------------------

  predicate SpansAtMost(nows: seq<nat>, w: nat) {
    forall t, u :: t in nows && u in nows ==> u <= t + w
  }

  /**
   The fastest run from an idle key, from its request `i + 1` to its request `n`: the
   whole burst at once, then one request per emission interval.
   */
  function Greedy(g: Limiter, i: nat, n: nat): seq<nat>
    decreases n - i
  {
    if i >= n then [] else [GreedyAt(g, i + 1)] + Greedy(g, i + 1, n)
  }

  function GreedyAt(g: Limiter, n: nat): nat {
    if n <= g.Capacity() then 0 else Times(n - g.Capacity(), g.emission)
  }

  lemma GreedyStep(g: Limiter, n: nat)
    requires g.Valid()
    requires n >= 1
    ensures GreedyAt(g, n) <= Times(n - 1, g.emission) <= GreedyAt(g, n) + g.tau
  {
    var c := g.Capacity();
    if n <= c {
      TimesOrder(n - 1, c - 1, g.emission);
    } else {
      TimesAdd(n - c, c - 1, g.emission);
    }
  }

  lemma {:induction false} GreedyAllAdmitted(g: Limiter, i: nat, n: nat)
    requires g.Valid()
    requires i <= n
    ensures |Admits(g, if i == 0 then None else Some(Times(i, g.emission)), Greedy(g, i, n))| == n - i
    decreases n - i
  {
    if i < n {
      var stored := if i == 0 then None else Some(Times(i, g.emission));
      GreedyStep(g, i + 1);
      CheckDecides(g, stored, GreedyAt(g, i + 1));
      assert Next(g, stored, GreedyAt(g, i + 1)) == Some(Times(i + 1, g.emission));
      FirstAdmitted(g, stored, GreedyAt(g, i + 1), Greedy(g, i + 1, n));
      GreedyAllAdmitted(g, i + 1, n);
    }
  }

  lemma {:induction false} GreedyWithin(g: Limiter, i: nat, n: nat, w: nat)
    requires g.Valid()
    requires n <= g.Capacity() + DivFloor(w, g.emission)
    ensures forall t :: t in Greedy(g, i, n) ==> t <= w
    decreases n - i
  {
    if i < n {
      GreedyWithin(g, i + 1, n, w);
      if i + 1 > g.Capacity() {
        DivFloorAtLeast(w, g.emission, i + 1 - g.Capacity());
      }
    }
  }

  /** The most a window can admit is exactly the burst the tolerance allows plus `window / emission`. */
  lemma WindowMaximum(g: Limiter, w: nat)
    requires g.Valid()
    ensures forall stored: Option<nat>, nows: seq<nat> | SpansAtMost(nows, w) ::
              |Admits(g, stored, nows)| <= g.Capacity() + DivFloor(w, g.emission)
    ensures exists nows: seq<nat> ::
              SpansAtMost(nows, w) && |Admits(g, None, nows)| == g.Capacity() + DivFloor(w, g.emission)
  {
    forall stored: Option<nat>, nows: seq<nat> | SpansAtMost(nows, w)
      ensures |Admits(g, stored, nows)| <= g.Capacity() + DivFloor(w, g.emission)
    {
      WindowAtMost(g, stored, nows, w);
    }
    var n := g.Capacity() + DivFloor(w, g.emission);
    GreedyAllAdmitted(g, 0, n);
    GreedyWithin(g, 0, n, w);
    assert SpansAtMost(Greedy(g, 0, n), w);
  }

  lemma WindowAtMost(g: Limiter, stored: Option<nat>, nows: seq<nat>, w: nat)
    requires g.Valid()
    requires SpansAtMost(nows, w)
    ensures |Admits(g, stored, nows)| <= g.Capacity() + DivFloor(w, g.emission)
  {
    var a := Admits(g, stored, nows);
    assert nows[..0] == [] && nows[0..|nows|] == nows;
    IntervalBound(g, stored, nows, 0, |nows|);
    AdmitsAreReadings(g, stored, nows);
    if a != [] {
      assert a[0] in a && a[|a| - 1] in a;
      DivFloorOrder(Minus(a[|a| - 1], a[0]), w, g.emission);
    }
  }

  /**
   A window never admits more than `burst + rate` exactly when the emission interval,
   rounded down to a nanosecond, still fits at most `rate` times into the window (a
   burst past 2^32 gives back what its truncated tolerance withholds).
   */
  lemma WindowBoundExact(p: Profile)
    requires p.rate >= 1 && p.window >= 1 && p.burst >= 1
    ensures var g := FromProfile(p);
            (forall stored: Option<nat>, nows: seq<nat> | SpansAtMost(nows, p.window) ::
               |Admits(g, stored, nows)| <= p.burst + p.rate)
            <==> g.Capacity() + DivFloor(p.window, g.emission) <= p.burst + p.rate
  {
    WindowMaximum(FromProfile(p), p.window);
  }

  /** `rate * rate <= window` in nanoseconds is enough: up to 31 622 requests per second. */
  lemma SlowRatesFit(p: Profile, stored: Option<nat>, nows: seq<nat>)
    requires p.rate >= 1 && p.burst >= 1
    requires p.rate * p.rate <= p.window
    requires SpansAtMost(nows, p.window)
    ensures |Admits(FromProfile(p), stored, nows)| <= p.burst + p.rate
  {
    var g := FromProfile(p);
    WindowAtMost(g, stored, nows, p.window);
    EmissionFits(p.rate, p.window);
  }

  /** With `t = window / rate` at least `rate`, the window is shorter than `rate + 1` intervals. */
  lemma EmissionFits(rate: nat, window: nat)
    requires rate >= 1 && rate * rate <= window
    ensures window / rate >= 1
    ensures DivFloor(window, window / rate) <= rate
  {
    var t := window / rate;
    TimesIsProduct(rate, rate);
    DivFloorIsQuotient(window, rate);
    DivFloorAtLeast(window, rate, rate);
    DivFloorAtLeast(window, rate, t + 1);
    TimesIsProduct(t, rate);
    TimesIsProduct(rate, t);
    DivFloorAtLeast(window, t, rate + 1);
  }

  /** Past it the bound can break: 7 per 10 ns with a burst of one admits 11, not 8. */
  lemma FastRateOverrun()
    ensures exists nows: seq<nat> ::
              SpansAtMost(nows, 10) && |Admits(FromProfile(Profile(7, 10, 1)), None, nows)| == 11
  {
    WindowMaximum(FromProfile(Profile(7, 10, 1)), 10);
    DivFloorIsQuotient(10, 1);
  }
}
