/**
 How long exactly a token outlives its key (src/auth/jwks.rs, src/auth/cache.rs): the bound on it is
 reached, so what the documentation promises holds only for fetches that take no time to speak of; and
 there is no bound once requests may go away in the middle of a fetch.
 */
module RevocationReach {
  import opened Basics
  import opened Window
  import opened ClaimsCache
  import opened Jwks
  import opened Revocation

  lemma {:induction false} RunSnoc(w: World, a: Auth, steps: seq<Step>, step: Step)
    requires Run(w, a, steps) && Enabled(w, After(w, a, steps), step)
    ensures Run(w, a, steps + [step]) && After(w, a, steps + [step]) == Next(w, After(w, a, steps), step)
    decreases steps
  {
    if steps == [] {
      assert [] + [step] == [step];
    } else {
      assert (steps + [step])[1..] == steps[1..] + [step];
      RunSnoc(w, Next(w, a, steps[0]), steps[1..], step);
    }
  }

  /** A run to one more state. */
  lemma Then(w: World, a0: Auth, steps: seq<Step>, a: Auth, step: Step) returns (more: seq<Step>)
    requires Run(w, a0, steps) && After(w, a0, steps) == a && Enabled(w, a, step)
    ensures Run(w, a0, more) && After(w, a0, more) == Next(w, a, step)
  {
    RunSnoc(w, a0, steps, step);
    more := steps + [step];
  }

  // ---- one late acceptance -------------------------------------------------------------------------

  /** A provider that serves its one key at one instant only, and tokens that live long enough. */
  function ServedOnce(served: nat, timeout: nat): World {
    World((t: nat) => if t == served then map["kid" := "key"] else map[],
          _ => Some("kid"), (_, _) => true, _ => CLAIMS, timeout)
  }

  const CLAIMS := Claims(Some(1), None, "")
  const DIRECT := Use(0, CLAIMS, None)
  const REUSED := Use(0, CLAIMS, Some(0))

  /** The set served at `served` is in place from `done` on; the token has been turned away. */
  function Loaded(maxAge: nat, minInterval: nat, maxTtl: nat, served: nat, done: nat): Auth {
    Auth(done, maxTtl, KeyCache(maxAge, minInterval, map["kid" := "key"], Some(done), Some(served)), served, None, {}, {},
         map[], [Idle], [])
  }

  lemma FirstUse(maxAge: nat, minInterval: nat, maxTtl: nat, timeout: nat, served: nat, done: nat)
    returns (steps: seq<Step>)
    requires served <= done <= served + timeout
    ensures Run(ServedOnce(served, timeout), Init(1, maxAge, minInterval, maxTtl), steps)
    ensures After(ServedOnce(served, timeout), Init(1, maxAge, minInterval, maxTtl), steps) ==
            Loaded(maxAge, minInterval, maxTtl, served, done)
  {
    var w, a0 := ServedOnce(served, timeout), Init(1, maxAge, minInterval, maxTtl);
    var now := Now(0, Mono(served));
    assert a0.callers == [Idle];
    steps := Then(w, a0, [], a0, Tick(served));
    var a := a0.(clock := served);
    steps := Then(w, a0, steps, a, By(0, Verify("t", 0)));
    a := a.(callers := [Looking("t", now)]);
    steps := Then(w, a0, steps, a, By(0, StartFetch));
    a := a.(keys := a.keys.(lastRefresh := Some(served)), refreshing := Some(0), callers := [Fetching("t", now, served)]);
    steps := Then(w, a0, steps, a, Tick(done));
    a := a.(clock := done);
    steps := Then(w, a0, steps, a, By(0, FetchOk(served, false)));
  }

  /** The token verified at `use` by that set, and the verification cached. */
  function Stored(maxAge: nat, minInterval: nat, maxTtl: nat, served: nat, done: nat, use: nat): Auth {
    Loaded(maxAge, minInterval, maxTtl, served, done).(
      clock := use, accepted := [Accept("t", use, served, DIRECT)],
      entries := map["t" := Cached(Entry(CLAIMS, 1, Min(Mono(use) + maxTtl, U64_MAX)), use, served, 0)])
  }

  lemma SecondUse(maxAge: nat, minInterval: nat, maxTtl: nat, timeout: nat, served: nat, done: nat, use: nat)
    returns (steps: seq<Step>)
    requires served <= done <= served + timeout && done <= use < done + maxAge
    ensures Run(ServedOnce(served, timeout), Init(1, maxAge, minInterval, maxTtl), steps)
    ensures After(ServedOnce(served, timeout), Init(1, maxAge, minInterval, maxTtl), steps) ==
            Stored(maxAge, minInterval, maxTtl, served, done, use)
  {
    var w, a0 := ServedOnce(served, timeout), Init(1, maxAge, minInterval, maxTtl);
    var now := Now(0, Mono(use));
    steps := FirstUse(maxAge, minInterval, maxTtl, timeout, served, done);
    var a := Loaded(maxAge, minInterval, maxTtl, served, done);
    steps := Then(w, a0, steps, a, Tick(use));
    a := a.(clock := use);
    steps := Then(w, a0, steps, a, By(0, Verify("t", 0)));
    a := a.(callers := [Looking("t", now)]);
    steps := Then(w, a0, steps, a, By(0, AnswerYoung(true)));
    a := a.(callers := [Verified("t", now, use, served)], accepted := [Accept("t", use, served, DIRECT)]);
    steps := Then(w, a0, steps, a, By(0, Insert(true)));
  }

  /** A set served once, used while young, and the verification reused while live. */
  lemma LateUse(maxAge: nat, minInterval: nat, maxTtl: nat, timeout: nat, served: nat, done: nat, use: nat, late: nat)
    returns (steps: seq<Step>)
    requires served <= done <= served + timeout && done <= use < done + maxAge && use <= late
    requires Mono(late) < Mono(use) + maxTtl <= U64_MAX
    ensures var w, a0 := ServedOnce(served, timeout), Init(1, maxAge, minInterval, maxTtl);
            Run(w, a0, steps) && Missed(After(w, a0, steps)) == {} &&
            Accept("t", late, served, REUSED) in After(w, a0, steps).accepted
  {
    var w, a0 := ServedOnce(served, timeout), Init(1, maxAge, minInterval, maxTtl);
    steps := SecondUse(maxAge, minInterval, maxTtl, timeout, served, done, use);
    var a := Stored(maxAge, minInterval, maxTtl, served, done, use);
    steps := Then(w, a0, steps, a, Tick(late));
    a := a.(clock := late);
    steps := Then(w, a0, steps, a, By(0, Verify("t", 0)));
    assert After(w, a0, steps).accepted == [Accept("t", use, served, DIRECT), Accept("t", late, served, REUSED)];
  }

  // ---- the exact bound -----------------------------------------------------------------------------

  /** In a run of no failed or abandoned refresh, the token passes `delay` or more after its key has left for good. */
  ghost predicate Outlives(w: World, n: nat, maxAge: nat, minInterval: nat, maxTtl: nat, steps: seq<Step>, x: Accept,
                           removed: nat, delay: nat)
  {
    var a0 := Init(n, maxAge, minInterval, maxTtl);
    && Run(w, a0, steps) && Missed(After(w, a0, steps)) == {} && x in After(w, a0, steps).accepted
    && (forall t: nat :: t >= removed ==> !Vouches(w, x.token, t))
    && x.at >= removed + delay
  }

  /** No run passes the bound. */
  lemma OutlivesBelow(w: World, n: nat, maxAge: nat, minInterval: nat, maxTtl: nat, steps: seq<Step>, x: Accept,
                      removed: nat, delay: nat)
    requires maxAge >= minInterval && maxAge >= 1 && maxTtl >= 1
    requires Outlives(w, n, maxAge, minInterval, maxTtl, steps, x, removed, delay)
    ensures delay + 3 <= maxAge + w.timeout + maxTtl * NANOS_PER_SEC
  {
    AcceptedInTime(w, n, maxAge, minInterval, maxTtl, steps, x);
    assert x.served < removed;
  }

  /** The whole second at which the longest run uses the set. */
  function UseSecond(maxAge: nat, timeout: nat): nat {
    (timeout + maxAge) / NANOS_PER_SEC + 1
  }

  /** And some run reaches it: the set served when the fetch begins, used when it is about to age, at a whole second. */
  lemma OutlivesReached(maxAge: nat, minInterval: nat, maxTtl: nat, timeout: nat)
    returns (w: World, steps: seq<Step>, x: Accept, removed: nat)
    requires maxAge >= 1 && maxTtl >= 1
    requires UseSecond(maxAge, timeout) + maxTtl <= U64_MAX
    ensures w.timeout == timeout
    ensures Outlives(w, 1, maxAge, minInterval, maxTtl, steps, x, removed,
                     maxAge + timeout + maxTtl * NANOS_PER_SEC - 3)
  {
    var k := UseSecond(maxAge, timeout);
    var use := k * NANOS_PER_SEC;
    var served := use - (timeout + maxAge - 1);
    var late := (k + maxTtl) * NANOS_PER_SEC - 1;
    assert Mono(use) == k && Mono(late) == k + maxTtl - 1;
    w, x, removed := ServedOnce(served, timeout), Accept("t", late, served, REUSED), served + 1;
    steps := LateUse(maxAge, minInterval, maxTtl, timeout, served, served + timeout, use, late);
  }

  /** Some run of fetches of up to `timeout` has a token pass `delay` after its key has left. */
  ghost predicate CanOutlive(maxAge: nat, minInterval: nat, maxTtl: nat, timeout: nat, delay: nat) {
    exists w: World, n: nat, steps, x, removed: nat :: w.timeout == timeout &&
      Outlives(w, n, maxAge, minInterval, maxTtl, steps, x, removed, delay)
  }

  /**
   For every setting the proxy accepts, the time a token can outlive its key, when no refresh fails or is
   abandoned, is exactly the maximum age,
   one fetch and the maximum cache age, less three nanoseconds for the three comparisons that are strict.
   */
  lemma ExactBound(maxAge: nat, minInterval: nat, maxTtl: nat, timeout: nat, delay: nat)
    requires maxAge >= minInterval && maxAge >= 1 && maxTtl >= 1
    requires UseSecond(maxAge, timeout) + maxTtl <= U64_MAX
    ensures CanOutlive(maxAge, minInterval, maxTtl, timeout, delay) <==>
            delay + 3 <= maxAge + timeout + maxTtl * NANOS_PER_SEC
  {
    if CanOutlive(maxAge, minInterval, maxTtl, timeout, delay) {
      var w: World, n: nat, steps, x, removed: nat :|
        w.timeout == timeout && Outlives(w, n, maxAge, minInterval, maxTtl, steps, x, removed, delay);
      OutlivesBelow(w, n, maxAge, minInterval, maxTtl, steps, x, removed, delay);
    }
    if delay + 3 <= maxAge + timeout + maxTtl * NANOS_PER_SEC {
      var w, steps, x, removed := OutlivesReached(maxAge, minInterval, maxTtl, timeout);
      assert Outlives(w, 1, maxAge, minInterval, maxTtl, steps, x, removed, delay);
    }
  }

  /**
   The documentation says a token stops passing within the maximum age and the maximum cache age: so it
   is for every run without a failed or abandoned refresh if and only if no fetch takes more than two
   nanoseconds.
   */
  lemma DocumentedBoundIff(maxAge: nat, minInterval: nat, maxTtl: nat, timeout: nat)
    requires maxAge >= minInterval && maxAge >= 1 && maxTtl >= 1
    requires UseSecond(maxAge, timeout) + maxTtl <= U64_MAX
    ensures !CanOutlive(maxAge, minInterval, maxTtl, timeout, maxAge + maxTtl * NANOS_PER_SEC) <==> timeout <= 2
  {
    ExactBound(maxAge, minInterval, maxTtl, timeout, maxAge + maxTtl * NANOS_PER_SEC);
  }

  // ---- a refresh abandoned -------------------------------------------------------------------------

  /** The set of time 0 in place at `now`, and a refresh begun and abandoned there. */
  function LeftAt(maxAge: nat, minInterval: nat, maxTtl: nat, now: nat): Auth {
    Auth(now, maxTtl, KeyCache(maxAge, minInterval, map["kid" := "key"], Some(0), Some(now)), 0, None, {}, {now},
         map[], [Idle], [])
  }

  lemma Leave(maxAge: nat, minInterval: nat, maxTtl: nat, timeout: nat, now: nat) returns (steps: seq<Step>)
    requires now >= maxAge && now >= minInterval
    ensures Run(ServedOnce(0, timeout), Init(1, maxAge, minInterval, maxTtl), steps)
    ensures After(ServedOnce(0, timeout), Init(1, maxAge, minInterval, maxTtl), steps) ==
            LeftAt(maxAge, minInterval, maxTtl, now)
  {
    var w, a0 := ServedOnce(0, timeout), Init(1, maxAge, minInterval, maxTtl);
    steps := FirstUse(maxAge, minInterval, maxTtl, timeout, 0, 0);
    var a := Loaded(maxAge, minInterval, maxTtl, 0, 0);
    steps := Then(w, a0, steps, a, Tick(now));
    a := a.(clock := now);
    steps := Then(w, a0, steps, a, By(0, Verify("t", 0)));
    a := a.(callers := [Looking("t", Now(0, Mono(now)))]);
    steps := Then(w, a0, steps, a, By(0, StartFetch));
    a := a.(keys := a.keys.(lastRefresh := Some(now)), refreshing := Some(0), callers := [Fetching("t", Now(0, Mono(now)), now)]);
    steps := Then(w, a0, steps, a, By(0, Abandon));
  }

  /**
   No bound holds once a caller may go away in the middle of a refresh: its stamp throttles the next
   caller, who answers from the set in place, however old. For every setting and any delay a token passes
   that long after its key has left, with no fetch failing and one abandoned.
   */
  lemma AbandonedNoBound(maxAge: nat, minInterval: nat, maxTtl: nat, timeout: nat, delay: nat)
    returns (steps: seq<Step>, x: Accept)
    requires minInterval >= 1
    ensures var w, a0 := ServedOnce(0, timeout), Init(1, maxAge, minInterval, maxTtl);
            && Run(w, a0, steps) && After(w, a0, steps).failures == {} && |After(w, a0, steps).abandoned| == 1
            && x in After(w, a0, steps).accepted
            && (forall t: nat :: t >= 1 ==> !Vouches(w, x.token, t))
            && x.at >= 1 + delay
  {
    var w, a0 := ServedOnce(0, timeout), Init(1, maxAge, minInterval, maxTtl);
    var now := 1 + delay + maxAge + minInterval;
    steps := Leave(maxAge, minInterval, maxTtl, timeout, now);
    var a := LeftAt(maxAge, minInterval, maxTtl, now);
    steps := Then(w, a0, steps, a, By(0, Verify("t", 0)));
    a := a.(callers := [Looking("t", Now(0, Mono(now)))]);
    steps := Then(w, a0, steps, a, By(0, AnswerThrottled(true)));
    x := Accept("t", now, 0, DIRECT);
    assert After(w, a0, steps).accepted == [x];
    assert After(w, a0, steps).abandoned == {now};
  }

  // ---- an example ----------------------------------------------------------------------------------

  function Seconds(n: nat): nat {
    n * NANOS_PER_SEC
  }

  /** With the default ages and a fetch of four seconds, a token passes at 362 seconds; its key was last served at 0. */
  lemma DocumentedBoundMissed() returns (steps: seq<Step>)
    ensures Outlives(ServedOnce(0, Seconds(5)), 1, Seconds(300), Seconds(60), 60, steps,
                     Accept("t", Seconds(362), 0, REUSED), 1, Seconds(361))
  {
    steps := LateUse(Seconds(300), Seconds(60), 60, Seconds(5), 0, Seconds(4), Seconds(303), Seconds(362));
  }
}
