/**
 The in-process store of theoretical arrival times (src/shield/store.rs): one TAT per key,
 and a throttled sweep that drops the keys whose TAT has passed.
 */
module GcraStore {
  import opened Basics
  import opened Gcra
  import opened TokenBucket

  type Key = string

  const NANOS_PER_MS: nat := 1_000_000
  const SWEEP_INTERVAL_MS: nat := 60_000
  const SWEEP_HIGH_WATER: nat := 200_000
  const HW_SWEEP_MIN_MS: nat := 1_000

  datatype State = State(tats: map<Key, nat>, lastSweepMs: nat)

  /** Nanoseconds as the store keeps them, saturating at `u64::MAX`. */
  function DurNanos(d: nat): nat {
    Min(d, U64_MAX)
  }

  function Millis(now: nat): nat {
    Min(now / NANOS_PER_MS, U64_MAX)
  }

  predicate SweepDue(s: State, now: nat) {
    var elapsed := Minus(Millis(now), s.lastSweepMs);
    elapsed >= SWEEP_INTERVAL_MS || (elapsed >= HW_SWEEP_MIN_MS && |s.tats| > SWEEP_HIGH_WATER)
  }

  function Active(tats: map<Key, nat>, now: nat): map<Key, nat> {
    map key | key in tats && tats[key] > DurNanos(now) :: tats[key]
  }

  function Swept(s: State, now: nat): State {
    if SweepDue(s, now) then State(Active(s.tats, now), Millis(now)) else s
  }

  function Stored(tats: map<Key, nat>, key: Key): Option<nat> {
    if key in tats then Some(tats[key]) else None
  }

  /** The TATs after charging one request: only an admitted one writes. */
  function Charged(tats: map<Key, nat>, key: Key, g: Limiter, now: nat): map<Key, nat>
    requires g.Valid()
  {
    var v := Check(g, Stored(tats, key), now);
    if v.allowed then tats[key := DurNanos(v.newTat)] else tats
  }

  class Store {
    var tats: map<Key, nat>
    var lastSweepMs: nat

    ghost function View(): State
      reads this
    {
      State(tats, lastSweepMs)
    }

    constructor ()
      ensures View() == State(map[], 0)
    {
      tats := map[];
      lastSweepMs := 0;
    }

    /** Evaluate one request for `key`, sweeping first when a sweep is due. */
    method CheckKey(key: Key, g: Limiter, now: nat) returns (v: Verdict)
      requires g.Valid()
      modifies this
      ensures v == Check(g, Stored(Swept(old(View()), now).tats, key), now)
      ensures View() == Swept(old(View()), now).(tats := Charged(Swept(old(View()), now).tats, key, g, now))
    {
      MaybeSweep(now);
      if key in tats {
        v := Check(g, Some(tats[key]), now);
      } else {
        v := Check(g, None, now);
      }
      if v.allowed {
        tats := tats[key := DurNanos(v.newTat)];
      }
    }

    method MaybeSweep(now: nat)
      modifies this
      ensures View() == Swept(old(View()), now)
    {
      var nowMs := Millis(now);
      var elapsed := Minus(nowMs, lastSweepMs);
      if elapsed >= SWEEP_INTERVAL_MS || (elapsed >= HW_SWEEP_MIN_MS && |tats| > SWEEP_HIGH_WATER) {
        lastSweepMs := nowMs;
        EvictDrained(now);
      }
    }

    method EvictDrained(now: nat)
      modifies this`tats
      ensures tats == Active(old(tats), now)
    {
      var nowNanos := DurNanos(now);
      tats := map key | key in tats && tats[key] > nowNanos :: tats[key];
    }
  }

  // ---- runs over many keys and changing tiers --------------------------------------------

  datatype Request = Request(key: Key, limiter: Limiter, now: nat)

  predicate Orderly(from: nat, requests: seq<Request>)
    decreases requests
  {
    requests == [] ||
    (from <= requests[0].now && requests[0].limiter.Valid() && Orderly(requests[0].now, requests[1..]))
  }

  /** The verdicts of the store. */
  function Verdicts(s: State, from: nat, requests: seq<Request>): seq<Verdict>
    requires Orderly(from, requests)
    decreases requests
  {
    if requests == [] then []
    else
      var r := requests[0];
      var t := Swept(s, r.now);
      [Check(r.limiter, Stored(t.tats, r.key), r.now)] +
      Verdicts(t.(tats := Charged(t.tats, r.key, r.limiter, r.now)), r.now, requests[1..])
  }

  /** The verdicts of a store that never evicts. */
  function VerdictsKeeping(tats: map<Key, nat>, from: nat, requests: seq<Request>): seq<Verdict>
    requires Orderly(from, requests)
    decreases requests
  {
    if requests == [] then []
    else
      var r := requests[0];
      [Check(r.limiter, Stored(tats, r.key), r.now)] +
      VerdictsKeeping(Charged(tats, r.key, r.limiter, r.now), r.now, requests[1..])
  }

  /** The keys the store has dropped are drained by `now`; the others agree. */
  predicate DroppedDrained(tats: map<Key, nat>, kept: map<Key, nat>, now: nat) {
    && (forall key :: key in tats ==> key in kept && kept[key] == tats[key])
    && (forall key :: key in kept && key !in tats ==> kept[key] <= now)
  }

  /** Equal verdicts, up to `remaining` when the burst is past 2^32. */
  predicate SameVerdict(g: Limiter, v: Verdict, w: Verdict) {
    v.(remaining := 0) == w.(remaining := 0) && (g.burst <= U32_MAX + 1 ==> v == w)
  }

  lemma StepInvisible(s: State, kept: map<Key, nat>, r: Request)
    requires r.limiter.Valid()
    requires DroppedDrained(s.tats, kept, r.now)
    ensures var t := Swept(s, r.now).tats;
            && SameVerdict(r.limiter, Check(r.limiter, Stored(t, r.key), r.now),
                           Check(r.limiter, Stored(kept, r.key), r.now))
            && DroppedDrained(Charged(t, r.key, r.limiter, r.now),
                              Charged(kept, r.key, r.limiter, r.now), r.now)
  {
    var t := Swept(s, r.now).tats;
    assert DroppedDrained(t, kept, r.now);
    if r.key in kept && r.key !in t {
      DrainedIsFresh(r.limiter, kept[r.key], r.now);
    }
  }

  /**
   Eviction is invisible: over every run of a non-decreasing clock, any keys and any changing
   tiers, the sweeping store decides, reports waits and writes TATs as one that never evicts
   does, and with bursts up to 2^32 its verdicts are the same in every field.
   */
  lemma {:induction false} EvictionInvisible(s: State, kept: map<Key, nat>, from: nat, requests: seq<Request>)
    requires Orderly(from, requests)
    requires DroppedDrained(s.tats, kept, from)
    ensures var v, w := Verdicts(s, from, requests), VerdictsKeeping(kept, from, requests);
            && |v| == |w| == |requests|
            && (forall i :: 0 <= i < |v| ==> SameVerdict(requests[i].limiter, v[i], w[i]))
    decreases requests
  {
    if requests != [] {
      var r := requests[0];
      var t := Swept(s, r.now);
      StepInvisible(s, kept, r);
      EvictionInvisible(t.(tats := Charged(t.tats, r.key, r.limiter, r.now)),
                        Charged(kept, r.key, r.limiter, r.now), r.now, requests[1..]);
    }
  }

  // ---- when keys are reclaimed ---------------------------------------------------------------------

  /** The milliseconds at which the sweeps of a run are made. */
  function SweptAt(s: State, from: nat, requests: seq<Request>): seq<nat>
    requires Orderly(from, requests)
    decreases requests
  {
    if requests == [] then []
    else
      var r := requests[0];
      var t := Swept(s, r.now);
      (if SweepDue(s, r.now) then [Millis(r.now)] else []) +
      SweptAt(t.(tats := Charged(t.tats, r.key, r.limiter, r.now)), r.now, requests[1..])
  }

  /** Sweeps are a second apart, counted from the last one before the run: a burst of requests does not scan the map again. */
  lemma {:induction false} SweepsApart(s: State, from: nat, requests: seq<Request>)
    requires Orderly(from, requests)
    ensures var sweeps := SweptAt(s, from, requests);
            && (sweeps != [] ==> sweeps[0] >= s.lastSweepMs + 1000)
            && (forall i :: 0 < i < |sweeps| ==> sweeps[i] >= sweeps[i - 1] + 1000)
    decreases requests
  {
    if requests != [] {
      var r := requests[0];
      var t := Swept(s, r.now);
      SweepsApart(t.(tats := Charged(t.tats, r.key, r.limiter, r.now)), r.now, requests[1..]);
    }
  }

  /** A check a minute after the last sweep, or a second with over 200 000 keys, leaves no key drained; none sooner sweeps. */
  lemma ReclaimedWhenDue(s: State, now: nat)
    requires now <= U64_MAX
    ensures var late := now / 1_000_000 >= s.lastSweepMs + 60_000 ||
                        (now / 1_000_000 >= s.lastSweepMs + 1_000 && |s.tats| > 200_000);
            && (late ==> forall key :: key in Swept(s, now).tats <==> key in s.tats && s.tats[key] > now)
            && (!late ==> Swept(s, now) == s)
  {
  }

  /** Every request of a run is charged to the one limiter `g`. */
  predicate AllOn(g: Limiter, requests: seq<Request>) {
    forall r :: r in requests ==> r.limiter == g
  }

  /** From a fresh start, eviction changes no field of any verdict exactly when the burst is at most 2^32. */
  lemma EvictionInvisibleIff(g: Limiter)
    requires g.Valid()
    ensures (forall requests: seq<Request> | Orderly(0, requests) && AllOn(g, requests) ::
               Verdicts(State(map[], 0), 0, requests) == VerdictsKeeping(map[], 0, requests))
            <==> g.burst <= U32_MAX + 1
  {
    if g.burst <= U32_MAX + 1 {
      forall requests: seq<Request> | Orderly(0, requests) && AllOn(g, requests)
        ensures Verdicts(State(map[], 0), 0, requests) == VerdictsKeeping(map[], 0, requests)
      {
        EvictionInvisible(State(map[], 0), map[], 0, requests);
        var v, w := Verdicts(State(map[], 0), 0, requests), VerdictsKeeping(map[], 0, requests);
        forall i | 0 <= i < |v|
          ensures v[i] == w[i]
        {
          assert requests[i] in requests;
          assert SameVerdict(requests[i].limiter, v[i], w[i]);
        }
      }
    } else {
      EvictionVisible(g);
    }
  }

  /** The run that tells: one request, then another once the key has drained and a sweep is due. */
  function LateReturn(g: Limiter): seq<Request> {
    [Request("k", g, 0), Request("k", g, SWEEP_INTERVAL_MS * NANOS_PER_MS + g.emission + g.emission)]
  }

  lemma EvictionVisible(g: Limiter)
    requires g.Valid()
    requires g.burst > U32_MAX + 1
    ensures var requests := LateReturn(g);
            && Orderly(0, requests) && AllOn(g, requests)
            && Verdicts(State(map[], 0), 0, requests) != VerdictsKeeping(map[], 0, requests)
  {
    var requests := LateReturn(g);
    var now := requests[1].now;
    CheckDecides(g, None, 0);
    var tats: map<Key, nat> := map["k" := DurNanos(g.emission)];
    assert requests[1..] == [requests[1]] && requests[1..][1..] == [];
    assert Orderly(now, requests[1..][1..]);
    assert Orderly(0, requests[1..]);
    assert Charged(map[], "k", g, 0) == tats;
    assert Swept(State(map[], 0), 0) == State(map[], 0);
    assert Millis(now) >= SWEEP_INTERVAL_MS;
    assert Swept(State(tats, 0), now).tats == map[];
    var v := Verdicts(State(tats, 0), 0, requests[1..]);
    var w := VerdictsKeeping(tats, 0, requests[1..]);
    assert v[0] == Check(g, None, now);
    assert w[0] == Check(g, Some(DurNanos(g.emission)), now);
    LateReturnDiffers(g, DurNanos(g.emission), now);
    assert Verdicts(State(map[], 0), 0, requests)[1] == v[0];
    assert VerdictsKeeping(map[], 0, requests)[1] == w[0];
  }

  lemma LateReturnDiffers(g: Limiter, tat: nat, now: nat)
    requires g.Valid()
    requires g.burst > U32_MAX + 1
    requires tat + g.emission <= now
    ensures Check(g, None, now).remaining < Check(g, Some(tat), now).remaining
  {
    RoomAtMost(g, now, now);
    RoomAtMost(g, tat + g.emission, now);
    RoomStep(g, tat, now);
  }
}
