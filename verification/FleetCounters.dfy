/**
 One instance's side of the fleet-wide count (src/shield/global.rs): per-key counts by epoch,
 the read-only gate, and the claim, push, read and apply phases of a reconcile pass.
 */
module FleetCounters {
  import opened Basics
  import opened Window

  type Key = string

  /** Amounts by key and epoch; an absent entry is zero. */
  type Ledger = map<(Key, nat), nat>

  const MAX_KEYS: nat := 500_000
  const KEY_TTL: nat := 600 * NANOS_PER_SEC

  /** The wall clock epochs are cut from, and the monotonic clock ages are measured on. */
  datatype Clock = Clock(unix: nat, mono: nat)

  datatype KeyState = KeyState(
    epoch: nat,
    windowSecs: nat,
    localCount: nat,
    carryover: nat,
    carryoverEpoch: nat,
    remoteEstimate: nat,
    estimateAt: nat,
    lastSeen: nat,
    seenSinceTick: bool)

  datatype PushPlan = PushPlan(
    key: Key, pushEpoch: nat, readEpoch: nat, windowSecs: nat, delta: nat, isCarryover: bool)

  function Get(m: Ledger, key: Key, e: nat): nat {
    if (key, e) in m then m[(key, e)] else 0
  }

  function Add(m: Ledger, key: Key, e: nat, n: nat): Ledger {
    m[(key, e) := Get(m, key, e) + n]
  }

  // ---- one key's state ---------------------------------------------------------------------

  function NewState(epoch: nat, w: nat, mono: nat): KeyState {
    KeyState(epoch, w, 0, 0, 0, 0, mono, mono, true)
  }

  predicate DropsCarryover(s: KeyState, epoch: nat) {
    s.epoch != epoch && s.localCount > 0 && s.carryover > 0 && s.carryoverEpoch != s.epoch
  }

  function RolledTo(s: KeyState, epoch: nat): KeyState {
    if s.epoch == epoch then s
    else if s.localCount == 0 then s.(epoch := epoch)
    else
      s.(carryover := (if DropsCarryover(s, epoch) then 0 else s.carryover) + s.localCount,
         carryoverEpoch := s.epoch,
         epoch := epoch,
         localCount := 0)
  }

  /** Admits of epoch `e` the state holds and no pass has claimed. */
  function Pending(s: KeyState, e: nat): nat {
    (if s.epoch == e then s.localCount else 0) + (if s.carryoverEpoch == e then s.carryover else 0)
  }

  /** Rolling loses nothing of any epoch but an unclaimed older carryover, which is never relabelled. */
  lemma RollConserves(s: KeyState, epoch: nat, e: nat)
    ensures Pending(RolledTo(s, epoch), e) ==
            Pending(s, e) - (if DropsCarryover(s, epoch) && s.carryoverEpoch == e then s.carryover else 0)
  {
  }

  /** The state a request for `key` works on, rolled and stamped; `None` when the key is not tracked. */
  function Touched(states: map<Key, KeyState>, key: Key, window: nat, clock: Clock): Option<KeyState> {
    var w := WindowSecs(window);
    var ep := Epoch(clock.unix, w);
    if key !in states && |states| >= MAX_KEYS then None
    else
      var s := if key in states && states[key].windowSecs == w then states[key] else NewState(ep, w, clock.mono);
      Some(RolledTo(s, ep).(lastSeen := clock.mono, seenSinceTick := true))
  }

  /** The states after a request for `key` that is admitted (`n` is 1) or only looked at (0). */
  function Counted(states: map<Key, KeyState>, key: Key, window: nat, clock: Clock, n: nat): map<Key, KeyState> {
    var t := Touched(states, key, window, clock);
    if t.Some? then states[key := t.value.(localCount := t.value.localCount + n)] else states
  }

  function StaleAfter(interval: nat): nat {
    Max(interval * 4, 2 * NANOS_PER_SEC)
  }

  predicate Fresh(s: KeyState, interval: nat, mono: nat) {
    Minus(mono, s.estimateAt) < StaleAfter(interval)
  }

  /** What the gate counts against the budget. */
  function Used(s: KeyState, interval: nat, mono: nat): nat {
    (if Fresh(s, interval, mono) then s.remoteEstimate else 0) + s.localCount + s.carryover
  }

  // ---- a reconcile pass -----------------------------------------------------------------------

  predicate IsActive(s: KeyState) {
    s.localCount > 0 || s.carryover > 0 || s.seenSinceTick
  }

  function Claimed(s: KeyState): KeyState {
    s.(seenSinceTick := false, localCount := 0, carryover := 0)
  }

  /** The plans a pass at `now` draws up for one key: its current epoch, then a carryover. */
  function KeyPlans(key: Key, s: KeyState, now: nat): seq<PushPlan> {
    var read := Epoch(now, Max(s.windowSecs, 1));
    if !IsActive(s) then []
    else
      [PushPlan(key, s.epoch, read, s.windowSecs, s.localCount, false)] +
      if s.carryover > 0 then [PushPlan(key, s.carryoverEpoch, read, s.windowSecs, s.carryover, true)] else []
  }

  /** What plans push to the counter of `key` at epoch `e`. */
  function PlanTotal(plans: seq<PushPlan>, key: Key, e: nat): nat {
    if plans == [] then 0
    else (if plans[0].key == key && plans[0].pushEpoch == e then plans[0].delta else 0)
         + PlanTotal(plans[1..], key, e)
  }

  lemma {:induction false} PlanTotalAppend(a: seq<PushPlan>, b: seq<PushPlan>, key: Key, e: nat)
    ensures PlanTotal(a + b, key, e) == PlanTotal(a, key, e) + PlanTotal(b, key, e)
  {
    if a == [] {
      assert a + b == b;
    } else {
      assert (a + b)[1..] == a[1..] + b;
      PlanTotalAppend(a[1..], b, key, e);
    }
  }

  /** A claim hands every pending admit to exactly one plan, under the epoch it was recorded in. */
  lemma ClaimConserves(key: Key, s: KeyState, now: nat, k: Key, e: nat)
    ensures PlanTotal(KeyPlans(key, s, now), k, e) == if k == key then Pending(s, e) else 0
    ensures Pending(Claimed(s), e) == 0
  {
    var plans := KeyPlans(key, s, now);
    if |plans| == 2 {
      PlanTotalAppend([plans[0]], [plans[1]], k, e);
      assert plans == [plans[0]] + [plans[1]];
    }
  }

  function PlansFor(states: map<Key, KeyState>, keys: seq<Key>, now: nat): seq<PushPlan> {
    if keys == [] then []
    else
      PlansFor(states, keys[..|keys| - 1], now) +
      var key := keys[|keys| - 1];
      if key in states then KeyPlans(key, states[key], now) else []
  }

  lemma PlansForNext(states: map<Key, KeyState>, keys: seq<Key>, i: nat, now: nat)
    requires i < |keys| && keys[i] in states
    ensures PlansFor(states, keys[..i + 1], now) == PlansFor(states, keys[..i], now) + KeyPlans(keys[i], states[keys[i]], now)
  {
    assert keys[..i + 1][..i] == keys[..i];
  }

  lemma AllClaimed(before: map<Key, KeyState>, after: map<Key, KeyState>, keys: seq<Key>)
    requires forall key :: key in keys <==> key in before
    requires after.Keys == before.Keys
    requires forall j :: 0 <= j < |keys| ==> after[keys[j]] == Claimed(before[keys[j]])
    ensures after == map key | key in before :: Claimed(before[key])
  {
  }

  /** The claims of a whole pass add up, key by key and epoch by epoch. */
  lemma {:induction false} PassClaimsConserve(states: map<Key, KeyState>, keys: seq<Key>, now: nat, k: Key, e: nat)
    requires forall i, j :: 0 <= i < j < |keys| ==> keys[i] != keys[j]
    ensures PlanTotal(PlansFor(states, keys, now), k, e) ==
            if k in keys && k in states then Pending(states[k], e) else 0
  {
    if keys != [] {
      var front, key := keys[..|keys| - 1], keys[|keys| - 1];
      var last := if key in states then KeyPlans(key, states[key], now) else [];
      PassClaimsConserve(states, front, now, k, e);
      PlanTotalAppend(PlansFor(states, front, now), last, k, e);
      if key in states {
        ClaimConserves(key, states[key], now, k, e);
      }
      assert keys == front + [key];
    }
  }

  /** The shared counters after the increments of `plans`. */
  function Incremented(counters: Ledger, plans: seq<PushPlan>): Ledger
    decreases plans
  {
    if plans == [] then counters
    else Incremented(
           if plans[0].delta > 0 then Add(counters, plans[0].key, plans[0].pushEpoch, plans[0].delta) else counters,
           plans[1..])
  }

  lemma {:induction false} IncrementedBy(counters: Ledger, plans: seq<PushPlan>, key: Key, e: nat)
    ensures Get(Incremented(counters, plans), key, e) == Get(counters, key, e) + PlanTotal(plans, key, e)
    decreases plans
  {
    if plans != [] {
      var p := plans[0];
      IncrementedBy(if p.delta > 0 then Add(counters, p.key, p.pushEpoch, p.delta) else counters, plans[1..], key, e);
    }
  }

  /** The current and previous epoch's counts of one plan. */
  function ReadOf(counters: Ledger, p: PushPlan): (nat, nat) {
    (Get(counters, p.key, p.readEpoch), Get(counters, p.key, Minus(p.readEpoch, 1)))
  }

  /** Whether an estimate still belongs to the state: same window, epoch not past the one read. */
  predicate Applies(states: map<Key, KeyState>, p: PushPlan) {
    && !p.isCarryover && p.key in states
    && states[p.key].windowSecs == p.windowSecs && states[p.key].epoch <= p.readEpoch
  }

  function Estimate(p: PushPlan, read: (nat, nat), now: nat): nat {
    var w := Max(p.windowSecs, 1);
    RoundedUp(SlidingEstimate(read.0, read.1, ElapsedInWindow(now, w), w))
  }

  function Applied(states: map<Key, KeyState>, p: PushPlan, read: (nat, nat), now: nat, mono: nat): map<Key, KeyState> {
    if Applies(states, p) then
      states[p.key := states[p.key].(remoteEstimate := Estimate(p, read, now), estimateAt := mono)]
    else states
  }

  function AppliedAll(states: map<Key, KeyState>, plans: seq<PushPlan>, counts: seq<(nat, nat)>, now: nat, mono: nat)
    : map<Key, KeyState>
    requires |plans| == |counts|
  {
    if plans == [] then states
    else
      var n := |plans| - 1;
      Applied(AppliedAll(states, plans[..n], counts[..n], now, mono), plans[n], counts[n], now, mono)
  }

  /** A key is kept while it has pending admits, and for two windows or ten minutes after its last use. */
  predicate Keeps(s: KeyState, mono: nat) {
    s.localCount > 0 || s.carryover > 0 ||
    Minus(mono, s.lastSeen) < Max(KEY_TTL, s.windowSecs * 2 * NANOS_PER_SEC)
  }

  // ---- the object -------------------------------------------------------------------------------

  class GlobalCounters {
    const interval: nat
    var states: map<Key, KeyState>

    constructor (interval: nat)
      ensures this.interval == Max(interval, 50_000_000) && states == map[]
    {
      this.interval := Max(interval, 50_000_000);
      states := map[];
    }

    method StateFor(key: Key, window: nat, clock: Clock) returns (tracked: bool)
      modifies this
      ensures var t := Touched(old(states), key, window, clock);
              tracked == t.Some? && (tracked ==> key in states && states[key] == t.value)
      ensures states == Counted(old(states), key, window, clock, 0)
      ensures tracked <==> key in old(states) || |old(states)| < 500_000
      ensures tracked ==> var s := states[key];
                s.windowSecs == WindowSecs(window) && s.epoch == Epoch(clock.unix, s.windowSecs)
                && s.lastSeen == clock.mono && s.seenSinceTick
      ensures tracked && (key !in old(states) || old(states)[key].windowSecs != WindowSecs(window)) ==>
                states[key].localCount == 0 && states[key].carryover == 0 && states[key].remoteEstimate == 0
      ensures tracked && key in old(states) && old(states)[key].windowSecs == WindowSecs(window) ==>
                states[key].remoteEstimate == old(states)[key].remoteEstimate
                && states[key].estimateAt == old(states)[key].estimateAt
    {
      var w := WindowSecs(window);
      var ep := Epoch(clock.unix, w);
      var overCap := |states| >= MAX_KEYS;
      if key !in states {
        if overCap {
          return false;
        }
        states := states[key := NewState(ep, w, clock.mono)];
      }
      if states[key].windowSecs != w {
        states := states[key := NewState(ep, w, clock.mono)];
      }
      states := states[key := RolledTo(states[key], ep).(lastSeen := clock.mono, seenSinceTick := true)];
      return true;
    }

    /** Fleet budget still available: the whole budget for a key that is not tracked. */
    method FleetRemaining(key: Key, budget: nat, window: nat, clock: Clock) returns (remaining: nat)
      modifies this
      ensures var t := Touched(old(states), key, window, clock);
              && states == Counted(old(states), key, window, clock, 0)
              && remaining == if t.Some? then Minus(budget, Used(t.value, interval, clock.mono)) else budget
    {
      var tracked := StateFor(key, window, clock);
      if !tracked {
        return budget;
      }
      var s := states[key];
      var remote := if Minus(clock.mono, s.estimateAt) < StaleAfter(interval) then s.remoteEstimate else 0;
      remaining := Minus(budget, remote + s.localCount + s.carryover);
    }

    method Record(key: Key, window: nat, clock: Clock)
      modifies this
      ensures states == Counted(old(states), key, window, clock, 1)
    {
      var tracked := StateFor(key, window, clock);
      if tracked {
        states := states[key := states[key].(localCount := states[key].localCount + 1)];
      }
    }

    /** Claim one key under its lock: its plans, if it is active. */
    method ClaimKey(key: Key, now: nat) returns (plans: seq<PushPlan>)
      requires key in states
      modifies this
      ensures plans == KeyPlans(key, old(states)[key], now)
      ensures states == old(states)[key := Claimed(old(states)[key])]
    {
      plans := [];
      var s := states[key];
      var active := s.localCount > 0 || s.carryover > 0 || s.seenSinceTick;
      states := states[key := s.(seenSinceTick := false)];
      if active {
        var readEpoch := Epoch(now, Max(s.windowSecs, 1));
        plans := [PushPlan(key, s.epoch, readEpoch, s.windowSecs, s.localCount, false)];
        if s.carryover > 0 {
          plans := plans + [PushPlan(key, s.carryoverEpoch, readEpoch, s.windowSecs, s.carryover, true)];
        }
        states := states[key := s.(seenSinceTick := false, localCount := 0, carryover := 0)];
      }
    }

    /** Claim every key's pending admits; `keys` is the order the map was walked in. */
    method ClaimPlans(keys: seq<Key>, now: nat) returns (plans: seq<PushPlan>)
      requires forall i, j :: 0 <= i < j < |keys| ==> keys[i] != keys[j]
      requires forall key :: key in keys <==> key in states
      modifies this
      ensures plans == PlansFor(old(states), keys, now)
      ensures states == map key | key in old(states) :: Claimed(old(states)[key])
    {
      plans := [];
      var i := 0;
      while i < |keys|
        invariant i <= |keys|
        invariant states.Keys == old(states).Keys
        invariant forall j :: 0 <= j < i ==> states[keys[j]] == Claimed(old(states)[keys[j]])
        invariant forall j :: i <= j < |keys| ==> states[keys[j]] == old(states)[keys[j]]
        invariant plans == PlansFor(old(states), keys[..i], now)
      {
        var claimed := ClaimKey(keys[i], now);
        plans := plans + claimed;
        PlansForNext(old(states), keys, i, now);
        i := i + 1;
      }
      assert keys[..i] == keys;
      AllClaimed(old(states), states, keys);
    }

    method ApplyEstimates(now: nat, mono: nat, plans: seq<PushPlan>, counts: seq<(nat, nat)>)
      requires |plans| == |counts|
      modifies this
      ensures states == AppliedAll(old(states), plans, counts, now, mono)
    {
      for i := 0 to |plans|
        invariant states == AppliedAll(old(states), plans[..i], counts[..i], now, mono)
      {
        var p := plans[i];
        assert plans[..i + 1][..i] == plans[..i] && counts[..i + 1][..i] == counts[..i];
        if !p.isCarryover && p.key in states {
          var s := states[p.key];
          if s.windowSecs == p.windowSecs && s.epoch <= p.readEpoch {
            states := states[p.key := s.(remoteEstimate := Estimate(p, counts[i], now), estimateAt := mono)];
          }
        }
      }
      assert plans[..|plans|] == plans && counts[..|counts|] == counts;
    }

    /** Drop the keys long unused; one with pending admits always stays. */
    method EvictStale(mono: nat)
      modifies this
      ensures states == map key | key in old(states) && Keeps(old(states)[key], mono) :: old(states)[key]
      ensures forall key, e :: key in old(states) && key !in states ==> Pending(old(states)[key], e) == 0
      ensures forall key :: key in old(states) && key !in states ==>
                mono >= old(states)[key].lastSeen + 600_000_000_000
                && mono >= old(states)[key].lastSeen + 2 * old(states)[key].windowSecs * 1_000_000_000
      ensures forall key :: key in states ==>
                || mono < states[key].lastSeen + 600_000_000_000
                || mono < states[key].lastSeen + 2 * states[key].windowSecs * 1_000_000_000
                || states[key].localCount > 0 || states[key].carryover > 0
    {
      states := map key | key in states && Keeps(states[key], mono) :: states[key];
    }
  }

  /** The shared store: counters that instances only ever increment. */
  class SharedStore {
    var counters: Ledger

    method PushDeltas(plans: seq<PushPlan>)
      modifies this
      ensures counters == Incremented(old(counters), plans)
    {
      for i := 0 to |plans|
        invariant Incremented(counters, plans[i..]) == Incremented(old(counters), plans)
      {
        var p := plans[i];
        if p.delta > 0 {
          counters := Add(counters, p.key, p.pushEpoch, p.delta);
        }
      }
    }

    method ReadEpochs(plans: seq<PushPlan>) returns (counts: seq<(nat, nat)>)
      ensures |counts| == |plans|
      ensures forall i :: 0 <= i < |plans| ==> counts[i] == ReadOf(counters, plans[i])
    {
      counts := [];
      for i := 0 to |plans|
        invariant |counts| == i
        invariant forall j :: 0 <= j < i ==> counts[j] == ReadOf(counters, plans[j])
      {
        counts := counts + [(Get(counters, plans[i].key, plans[i].readEpoch),
                           Get(counters, plans[i].key, Minus(plans[i].readEpoch, 1)))];
      }
    }
  }
}
