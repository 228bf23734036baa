/**
 What the numbers of a GCRA verdict mean (src/shield/gcra.rs): over every run the
 limiter decides as a token bucket does, and `remaining`, `retry_after` and
 `reset_after` are exactly the counts and waits they announce.
 */
module TokenBucket {
  import opened Basics
  import opened Gcra

  // ---- the token bucket -------------------------------------------------------------

  /** Tokens in units of 1/emission of a token per nanosecond, as of the reading `at`. */
  datatype Bucket = Bucket(level: nat, at: nat)

  function Full(g: Limiter): nat {
    Times(g.Capacity(), g.emission)
  }

  function Refill(g: Limiter, b: Bucket, now: nat): nat
    requires b.at <= now
  {
    Min(Full(g), b.level + (now - b.at))
  }

  predicate Takes(g: Limiter, b: Bucket, now: nat)
    requires b.at <= now
  {
    Refill(g, b, now) >= g.emission
  }

  function Arrive(g: Limiter, b: Bucket, now: nat): (r: Bucket)
    requires b.at <= now
    ensures r.at == now
  {
    Bucket(Refill(g, b, now) - (if Takes(g, b, now) then g.emission else 0), now)
  }

  predicate NonDecreasing(from: nat, nows: seq<nat>)
    decreases nows
  {
    nows == [] || (from <= nows[0] && NonDecreasing(nows[0], nows[1..]))
  }

  function BucketDecisions(g: Limiter, b: Bucket, nows: seq<nat>): seq<bool>
    requires NonDecreasing(b.at, nows)
    decreases nows
  {
    if nows == [] then []
    else [Takes(g, b, nows[0])] + BucketDecisions(g, Arrive(g, b, nows[0]), nows[1..])
  }

  function Decisions(g: Limiter, stored: Option<nat>, nows: seq<nat>): seq<bool>
    requires g.Valid()
    decreases nows
  {
    if nows == [] then []
    else [Check(g, stored, nows[0]).allowed] + Decisions(g, Next(g, stored, nows[0]), nows[1..])
  }

  /** The TAT is ahead of the clock by exactly what the bucket lacks. */
  predicate Matches(g: Limiter, stored: Option<nat>, b: Bucket) {
    b.level + (if stored.None? then 0 else Minus(stored.value, b.at)) == Full(g)
  }

  lemma StepMatches(g: Limiter, stored: Option<nat>, b: Bucket, now: nat)
    requires g.Valid()
    requires Matches(g, stored, b)
    requires b.at <= now
    ensures Check(g, stored, now).allowed == Takes(g, b, now)
    ensures Matches(g, Next(g, stored, now), Arrive(g, b, now))
  {
    CheckDecides(g, stored, now);
  }

  lemma {:induction false} DecidesAlike(g: Limiter, stored: Option<nat>, b: Bucket, nows: seq<nat>)
    requires g.Valid()
    requires Matches(g, stored, b)
    requires NonDecreasing(b.at, nows)
    ensures Decisions(g, stored, nows) == BucketDecisions(g, b, nows)
    decreases nows
  {
    if nows != [] {
      StepMatches(g, stored, b, nows[0]);
      DecidesAlike(g, Next(g, stored, nows[0]), Arrive(g, b, nows[0]), nows[1..]);
    }
  }

  /**
   A first-seen key decides every run of a non-decreasing clock as a full token bucket
   does: capacity `burst` (up to 2^32), one token per emission interval.
   */
  lemma TokenBucketRefinement(g: Limiter, nows: seq<nat>)
    requires g.Valid()
    requires NonDecreasing(0, nows)
    ensures Decisions(g, None, nows) == BucketDecisions(g, Bucket(Full(g), 0), nows)
    ensures g.burst <= U32_MAX + 1 ==> Full(g) == g.burst * g.emission
  {
    DecidesAlike(g, None, Bucket(Full(g), 0), nows);
    TimesIsProduct(g.Capacity(), g.emission);
  }

  // ---- remaining ----------------------------------------------------------------------

  function Repeat(now: nat, k: nat): seq<nat> {
    if k == 0 then [] else [now] + Repeat(now, k - 1)
  }

  /** Requests that pass at `now` when the TAT is not behind it. */
  function Room(g: Limiter, tat: nat, now: nat): nat
    requires g.Valid()
  {
    if now + g.tau >= tat then 1 + DivFloor(now + g.tau - tat, g.emission) else 0
  }

  lemma {:induction false} RepeatRejected(g: Limiter, tat: nat, now: nat, k: nat)
    requires g.Valid()
    requires now + g.tau < tat
    ensures Admits(g, Some(tat), Repeat(now, k)) == []
  {
    if k > 0 {
      CheckDecides(g, Some(tat), now);
      RepeatRejected(g, tat, now, k - 1);
      assert Repeat(now, k)[1..] == Repeat(now, k - 1);
    }
  }

  lemma RoomStep(g: Limiter, tat: nat, now: nat)
    requires g.Valid()
    requires tat <= now + g.tau
    ensures Room(g, tat, now) == 1 + Room(g, tat + g.emission, now)
  {
  }

  lemma RepeatFirst(g: Limiter, tat: nat, now: nat, k: nat)
    requires g.Valid() && k > 0
    requires now <= tat <= now + g.tau
    ensures |Admits(g, Some(tat), Repeat(now, k))| == 1 + |Admits(g, Some(tat + g.emission), Repeat(now, k - 1))|
  {
    CheckDecides(g, Some(tat), now);
    assert Next(g, Some(tat), now) == Some(tat + g.emission);
    FirstAdmitted(g, Some(tat), now, Repeat(now, k - 1));
  }

  lemma {:induction false} RepeatAdmits(g: Limiter, tat: nat, now: nat, k: nat)
    requires g.Valid()
    requires tat >= now
    ensures |Admits(g, Some(tat), Repeat(now, k))| == Min(k, Room(g, tat, now))
    decreases k
  {
    if now + g.tau < tat {
      RepeatRejected(g, tat, now, k);
    } else if k > 0 {
      RepeatFirst(g, tat, now, k);
      RepeatAdmits(g, tat + g.emission, now, k - 1);
      RoomStep(g, tat, now);
    }
  }

  /** A key that is not behind the clock never has room for more than the capacity. */
  lemma RoomAtMost(g: Limiter, tat: nat, now: nat)
    requires g.Valid()
    ensures tat >= now ==> Room(g, tat, now) <= g.Capacity()
    ensures tat <= now ==> Room(g, tat, now) >= g.Capacity()
    ensures tat > now ==> Room(g, tat, now) < g.Capacity()
  {
    var c := g.Capacity();
    if now + g.tau >= tat {
      DivFloorAtLeast(now + g.tau - tat, g.emission, c - 1);
      DivFloorAtLeast(now + g.tau - tat, g.emission, c);
    }
  }

  /** Of any further requests at the same instant, exactly `remaining` pass. */
  predicate RemainingIsExact(g: Limiter, stored: Option<nat>, now: nat, k: nat)
    requires g.Valid()
  {
    var v := Check(g, stored, now);
    v.allowed ==> |Admits(g, Some(v.newTat), Repeat(now, k))| == Min(k, v.remaining)
  }

  lemma RemainingExact(g: Limiter, stored: Option<nat>, now: nat, k: nat)
    requires g.Valid()
    requires g.burst <= U32_MAX + 1
    ensures RemainingIsExact(g, stored, now, k)
  {
    var v := Check(g, stored, now);
    var tat := if stored.None? then now else stored.value;
    if v.allowed {
      CheckDecides(g, stored, now);
      RepeatAdmits(g, v.newTat, now, k);
      RoomAtMost(g, tat, now);
      RoomAtMost(g, Max(tat, now), now);
    }
  }

  /** `remaining` is exact for every key and instant if and only if the burst is at most 2^32. */
  lemma RemainingExactIff(g: Limiter)
    requires g.Valid()
    ensures (forall stored, now, k :: RemainingIsExact(g, stored, now, k)) <==> g.burst <= U32_MAX + 1
  {
    if g.burst <= U32_MAX + 1 {
      forall stored, now, k
        ensures RemainingIsExact(g, stored, now, k)
      {
        RemainingExact(g, stored, now, k);
      }
    } else {
      RemainingOverstated(g);
    }
  }

  lemma RemainingOverstated(g: Limiter)
    requires g.Valid()
    requires g.burst > U32_MAX + 1
    ensures !RemainingIsExact(g, Some(0), Times(g.burst, g.emission), g.burst)
  {
    var now := Times(g.burst, g.emission);
    DivFloorAtLeast(now + g.tau, g.emission, g.burst);
    CheckDecides(g, Some(0), now);
    RepeatAdmits(g, now + g.emission, now, g.burst);
    RoomAtMost(g, now + g.emission, now);
  }

  // ---- retry_after and reset_after ------------------------------------------------------

  /** A rejected request passes after a wait if and only if the wait is at least `retry_after`. */
  lemma RetryAfterLeast(g: Limiter, tat: nat, now: nat, wait: nat)
    requires g.Valid()
    requires !Check(g, Some(tat), now).allowed
    ensures Check(g, Some(tat), now + wait).allowed <==> wait >= Check(g, Some(tat), now).retryAfter
    ensures Check(g, Some(tat), now).retryAfter > 0
  {
    CheckDecides(g, Some(tat), now);
    CheckDecides(g, Some(tat), now + wait);
  }

  /**
   After any check, a key left alone has its whole burst again after a wait if and only if
   the wait is at least `reset_after`.
   */
  lemma ResetAfterLeast(g: Limiter, stored: Option<nat>, now: nat, wait: nat)
    requires g.Valid()
    ensures var v := Check(g, stored, now);
            |Admits(g, Some(v.newTat), Repeat(now + wait, g.Capacity()))| == g.Capacity()
            <==> wait >= v.resetAfter
  {
    var tat := Check(g, stored, now).newTat;
    CheckDecides(g, stored, now);
    FullBurst(g, tat, now + wait);
  }

  lemma FullBurst(g: Limiter, tat: nat, now: nat)
    requires g.Valid()
    ensures |Admits(g, Some(tat), Repeat(now, g.Capacity()))| == g.Capacity() <==> tat <= now
  {
    var c := g.Capacity();
    if tat >= now {
      RepeatAdmits(g, tat, now, c);
      RoomAtMost(g, tat, now);
    } else {
      BehindIsLevel(g, tat, now, c);
      RepeatAdmits(g, now, now, c);
      RoomAtMost(g, now, now);
    }
  }

  /** A key behind the clock admits what one level with it does. */
  lemma BehindIsLevel(g: Limiter, tat: nat, now: nat, k: nat)
    requires g.Valid() && tat < now && k > 0
    ensures |Admits(g, Some(tat), Repeat(now, k))| == |Admits(g, Some(now), Repeat(now, k))|
  {
    CheckDecides(g, Some(tat), now);
    assert Next(g, Some(tat), now) == Some(now + g.emission);
    FirstAdmitted(g, Some(tat), now, Repeat(now, k - 1));
    RepeatFirst(g, now, now, k);
  }

  // ---- drained keys ----------------------------------------------------------------------

  /**
   A key whose TAT has passed is told apart from a first-seen one by `remaining` alone, and
   not even by that when the burst is at most 2^32.
   */
  lemma DrainedIsFresh(g: Limiter, tat: nat, now: nat)
    requires g.Valid()
    requires tat <= now
    ensures var v, w := Check(g, Some(tat), now), Check(g, None, now);
            && v.(remaining := 0) == w.(remaining := 0)
            && (g.burst <= U32_MAX + 1 ==> v == w)
  {
    CheckDecides(g, Some(tat), now);
    CheckDecides(g, None, now);
    RoomAtMost(g, tat, now);
    RoomAtMost(g, now, now);
  }
}
