/**
 One reconcile pass (`reconcile_at` in src/shield/global.rs): evict, claim, push, read, apply, with a
 store that may be down, lose the push, lose the acknowledgement, or fail the read.
 */
module Reconcile {
  import opened Basics
  import opened Window
  import opened FleetCounters

  datatype Reach = Down | PushFails | PushUnacked | ReadFails | Answers

  predicate Commits(reach: Reach) {
    reach.PushUnacked? || reach.ReadFails? || reach.Answers?
  }

  // ---- which plan drives a key's estimate ----------------------------------------------------------

  /** No plan but a carryover's is for `k`. */
  predicate NoneFor(plans: seq<PushPlan>, k: Key) {
    forall i :: 0 <= i < |plans| && plans[i].key == k ==> plans[i].isCarryover
  }

  /** The `i`-th plan is the one for the current epoch of its key. */
  predicate OnlyOne(plans: seq<PushPlan>, i: nat) {
    && i < |plans| && !plans[i].isCarryover
    && forall j :: 0 <= j < |plans| && j != i && plans[j].key == plans[i].key ==> plans[j].isCarryover
  }

  /** The plan is for this epoch's count of `k`, in the window the key has and no epoch behind it. */
  predicate Lands(s: KeyState, p: PushPlan, k: Key) {
    p.key == k && !p.isCarryover && p.windowSecs == s.windowSecs && s.epoch <= p.readEpoch
  }

  predicate LandsLast(s: KeyState, plans: seq<PushPlan>, k: Key, i: nat) {
    i < |plans| && Lands(s, plans[i], k) && forall j :: i < j < |plans| ==> !Lands(s, plans[j], k)
  }

  /** Applying reads none of which is still about a key leaves it as it was. */
  lemma {:induction false} AppliedOther(states: map<Key, KeyState>, plans: seq<PushPlan>, counts: seq<(nat, nat)>,
                                        now: nat, mono: nat, k: Key)
    requires |plans| == |counts| && k in states && forall i :: 0 <= i < |plans| ==> !Lands(states[k], plans[i], k)
    ensures var after := AppliedAll(states, plans, counts, now, mono);
            k in after && after[k] == states[k]
  {
    if plans != [] {
      var n := |plans| - 1;
      AppliedOther(states, plans[..n], counts[..n], now, mono, k);
      assert !Lands(states[k], plans[n], k);
    }
  }

  lemma {:induction false} AppliedKeeps(states: map<Key, KeyState>, plans: seq<PushPlan>, counts: seq<(nat, nat)>,
                                        now: nat, mono: nat, k: Key)
    requires |plans| == |counts|
    ensures var after := AppliedAll(states, plans, counts, now, mono);
            && (k in after <==> k in states)
            && (k in states ==> after[k].windowSecs == states[k].windowSecs && after[k].epoch == states[k].epoch
                                && after[k] == states[k].(remoteEstimate := after[k].remoteEstimate,
                                                          estimateAt := after[k].estimateAt))
  {
    if plans != [] {
      var n := |plans| - 1;
      AppliedKeeps(states, plans[..n], counts[..n], now, mono, k);
    }
  }

  /** Applying any list of reads gives a key the estimate of the last plan that is still about it. */
  lemma {:induction false} AppliedLast(states: map<Key, KeyState>, plans: seq<PushPlan>, counts: seq<(nat, nat)>,
                                       now: nat, mono: nat, k: Key, i: nat)
    requires |plans| == |counts| && k in states && LandsLast(states[k], plans, k, i)
    ensures var after := AppliedAll(states, plans, counts, now, mono);
            && k in after
            && after[k] == states[k].(remoteEstimate := Estimate(plans[i], counts[i], now), estimateAt := mono)
  {
    var n := |plans| - 1;
    AppliedKeeps(states, plans[..n], counts[..n], now, mono, k);
    if i < n {
      AppliedLast(states, plans[..n], counts[..n], now, mono, k, i);
      assert !Lands(states[k], plans[n], k);
    }
  }

  predicate Distinct(keys: seq<Key>) {
    forall i, j :: 0 <= i < j < |keys| ==> keys[i] != keys[j]
  }

  lemma {:induction false} NoPlanFor(states: map<Key, KeyState>, keys: seq<Key>, now: nat, k: Key)
    requires k !in keys || k !in states || !IsActive(states[k])
    ensures NoneFor(PlansFor(states, keys, now), k)
  {
    if keys != [] {
      NoPlanFor(states, keys[..|keys| - 1], now, k);
    }
  }

  lemma {:induction false} PlanOf(states: map<Key, KeyState>, keys: seq<Key>, now: nat, k: Key) returns (i: nat)
    requires Distinct(keys) && k in keys && k in states && IsActive(states[k])
    ensures var plans := PlansFor(states, keys, now);
            OnlyOne(plans, i) && plans[i].key == k && plans[i].windowSecs == states[k].windowSecs &&
            plans[i].readEpoch == Epoch(now, Max(states[k].windowSecs, 1))
  {
    var n := |keys| - 1;
    var front := PlansFor(states, keys[..n], now);
    if keys[n] == k {
      NoPlanFor(states, keys[..n], now, k);
      i := |front|;
    } else {
      assert k in keys[..n];
      i := PlanOf(states, keys[..n], now, k);
      LastPlans(states, keys, now);
    }
  }

  lemma LastPlans(states: map<Key, KeyState>, keys: seq<Key>, now: nat)
    requires keys != []
    ensures var plans, n := PlansFor(states, keys, now), |keys| - 1;
            var front := PlansFor(states, keys[..n], now);
            |front| <= |plans| && plans[..|front|] == front &&
            forall j :: |front| <= j < |plans| ==> plans[j].key == keys[n]
  {
  }

  // ---- what a pass leaves --------------------------------------------------------------------------

  /**
   The estimate is the count of the current epoch for the whole window and of the one before for what is
   left of it, over the window, rounded up.
   */
  predicate Weighs(estimate: nat, counters: Ledger, k: Key, w: nat, now: nat)
    requires w >= 1
  {
    var d, e, elapsed := w * NANOS_PER_SEC, Epoch(now, w), ElapsedInWindow(now, w);
    var cur := if (k, e) in counters then counters[(k, e)] else 0;
    var prev := if (k, Minus(e, 1)) in counters then counters[(k, Minus(e, 1))] else 0;
    elapsed <= d && cur * d + prev * (d - elapsed) <= estimate * d < cur * d + prev * (d - elapsed) + d
  }

  /** What applying the read of a plan that still belongs to its key makes of the estimate. */
  lemma EstimateWeighs(p: PushPlan, counters: Ledger, now: nat)
    requires p.readEpoch == Epoch(now, Max(p.windowSecs, 1))
    ensures Weighs(Estimate(p, ReadOf(counters, p), now), counters, p.key, Max(p.windowSecs, 1), now)
  {
    var w := Max(p.windowSecs, 1);
    var read := ReadOf(counters, p);
    ClockSplits(now, w);
    EstimateExact(read.0, read.1, ElapsedInWindow(now, w), w);
  }

  /** A key whose estimate an answered pass refreshes: with something to push or asked for, in no later epoch. */
  predicate Refreshed(s: KeyState, now: nat) {
    (s.localCount > 0 || s.carryover > 0 || s.seenSinceTick) && s.epoch <= Epoch(now, Max(s.windowSecs, 1))
  }

  lemma AppliedKey(kept: map<Key, KeyState>, counters: Ledger, keys: seq<Key>, counts: seq<(nat, nat)>, now: nat, mono: nat,
                   k: Key)
    requires Distinct(keys) && (forall key :: key in keys <==> key in kept) && k in kept
    requires var plans := PlansFor(kept, keys, now);
             |counts| == |plans| && forall i :: 0 <= i < |plans| ==> counts[i] == ReadOf(counters, plans[i])
    ensures var claimed := map key | key in kept :: Claimed(kept[key]);
            var after := AppliedAll(claimed, PlansFor(kept, keys, now), counts, now, mono);
            && k in after
            && after[k].(remoteEstimate := 0, estimateAt := 0) == Claimed(kept[k]).(remoteEstimate := 0, estimateAt := 0)
            && (if Refreshed(kept[k], now)
                then after[k].estimateAt == mono &&
                     Weighs(after[k].remoteEstimate, counters, k, Max(kept[k].windowSecs, 1), now)
                else after[k] == Claimed(kept[k]))
  {
    var claimed := map key | key in kept :: Claimed(kept[key]);
    var plans := PlansFor(kept, keys, now);
    if IsActive(kept[k]) {
      var i := PlanOf(kept, keys, now, k);
      if Lands(claimed[k], plans[i], k) {
        AppliedLast(claimed, plans, counts, now, mono, k, i);
        EstimateWeighs(plans[i], counters, now);
      } else {
        AppliedOther(claimed, plans, counts, now, mono, k);
      }
    } else {
      NoPlanFor(kept, keys, now, k);
      AppliedOther(claimed, plans, counts, now, mono, k);
    }
  }

  lemma PassPushes(kept: map<Key, KeyState>, counters: Ledger, keys: seq<Key>, now: nat, k: Key, e: nat)
    requires Distinct(keys) && (forall key :: key in keys <==> key in kept)
    ensures Get(Incremented(counters, PlansFor(kept, keys, now)), k, e) ==
            Get(counters, k, e) + if k in kept then Pending(kept[k], e) else 0
  {
    PassClaimsConserve(kept, keys, now, k, e);
    IncrementedBy(counters, PlansFor(kept, keys, now), k, e);
  }

  ghost function Kept(states: map<Key, KeyState>, mono: nat): map<Key, KeyState> {
    map key | key in states && Keeps(states[key], mono) :: states[key]
  }

  /** Every pending admit, of any key and epoch, is in the counters once; or they are as they were. */
  ghost predicate Pushed(before: Ledger, after: Ledger, kept: map<Key, KeyState>, committed: bool) {
    forall k, e: nat :: Get(after, k, e) == Get(before, k, e) + if committed && k in kept then Pending(kept[k], e) else 0
  }

  /** Nothing is pending, and the estimates are what the counters weigh, if they could be read. */
  ghost predicate Settled(after: map<Key, KeyState>, kept: map<Key, KeyState>, counters: Ledger, now: nat, mono: nat,
                          answered: bool)
  {
    forall k :: (k in after <==> k in kept) && (k in kept ==>
      && (forall e: nat :: Pending(after[k], e) == 0) && !after[k].seenSinceTick
      && (if answered && Refreshed(kept[k], now)
          then after[k].estimateAt == mono &&
               Weighs(after[k].remoteEstimate, counters, k, Max(kept[k].windowSecs, 1), now)
          else after[k].remoteEstimate == kept[k].remoteEstimate && after[k].estimateAt == kept[k].estimateAt))
  }

  lemma PushedAll(kept: map<Key, KeyState>, before: Ledger, keys: seq<Key>, now: nat)
    requires Distinct(keys) && (forall key :: key in keys <==> key in kept)
    ensures Pushed(before, Incremented(before, PlansFor(kept, keys, now)), kept, true)
  {
    forall k, e: nat
      ensures Get(Incremented(before, PlansFor(kept, keys, now)), k, e) ==
              Get(before, k, e) + if k in kept then Pending(kept[k], e) else 0
    {
      PassPushes(kept, before, keys, now, k, e);
    }
  }

  lemma ClaimedSettled(kept: map<Key, KeyState>, counters: Ledger, now: nat, mono: nat)
    ensures Settled(map key | key in kept :: Claimed(kept[key]), kept, counters, now, mono, false)
  {
  }

  lemma {:induction false} AppliedKeys(states: map<Key, KeyState>, plans: seq<PushPlan>, counts: seq<(nat, nat)>, now: nat,
                                       mono: nat)
    requires |plans| == |counts|
    ensures AppliedAll(states, plans, counts, now, mono).Keys == states.Keys
  {
    if plans != [] {
      var n := |plans| - 1;
      AppliedKeys(states, plans[..n], counts[..n], now, mono);
    }
  }

  lemma AppliedSettled(kept: map<Key, KeyState>, counters: Ledger, keys: seq<Key>, counts: seq<(nat, nat)>, now: nat,
                       mono: nat)
    requires Distinct(keys) && (forall key :: key in keys <==> key in kept)
    requires var plans := PlansFor(kept, keys, now);
             |counts| == |plans| && forall i :: 0 <= i < |plans| ==> counts[i] == ReadOf(counters, plans[i])
    ensures var claimed := map key | key in kept :: Claimed(kept[key]);
            Settled(AppliedAll(claimed, PlansFor(kept, keys, now), counts, now, mono), kept, counters, now, mono, true)
  {
    var claimed := map key | key in kept :: Claimed(kept[key]);
    AppliedKeys(claimed, PlansFor(kept, keys, now), counts, now, mono);
    forall k | k in kept
      ensures var after := AppliedAll(claimed, PlansFor(kept, keys, now), counts, now, mono);
              && k in after && (forall e: nat :: Pending(after[k], e) == 0) && !after[k].seenSinceTick
              && (if Refreshed(kept[k], now)
                  then after[k].estimateAt == mono &&
                       Weighs(after[k].remoteEstimate, counters, k, Max(kept[k].windowSecs, 1), now)
                  else after[k].remoteEstimate == kept[k].remoteEstimate && after[k].estimateAt == kept[k].estimateAt)
    {
      AppliedKey(kept, counters, keys, counts, now, mono, k);
    }
  }

  /**
   One pass at `now`: `evictAt` and `applyAt` are the monotonic readings of its first and last phase, and
   `keys` is the order the states are walked in.
   */
  method ReconcileAt(global: GlobalCounters, store: SharedStore, keys: seq<Key>, now: nat, evictAt: nat, applyAt: nat,
                     reach: Reach)
    requires Distinct(keys) && forall key :: key in keys <==> key in Kept(global.states, evictAt)
    modifies global, store
    ensures Pushed(old(store.counters), store.counters, Kept(old(global.states), evictAt), Commits(reach))
    ensures Settled(global.states, Kept(old(global.states), evictAt), store.counters, now, applyAt, reach.Answers?)
  {
    ghost var kept, before := Kept(global.states, evictAt), store.counters;
    global.EvictStale(evictAt);
    var plans := global.ClaimPlans(keys, now);
    ClaimedSettled(kept, before, now, applyAt);
    PushedAll(kept, before, keys, now);
    if plans == [] {
      NothingToDo(kept, before, keys, now, applyAt);
      return;
    }
    if reach.Down? || reach.PushFails? {
      return;
    }
    store.PushDeltas(plans);
    if reach.PushUnacked? || reach.ReadFails? {
      ClaimedSettled(kept, store.counters, now, applyAt);
      return;
    }
    var counts := store.ReadEpochs(plans);
    AppliedSettled(kept, store.counters, keys, counts, now, applyAt);
    global.ApplyEstimates(now, applyAt, plans, counts);
  }

  /** Without a plan nothing is pending, and no estimate is due. */
  lemma NothingToDo(kept: map<Key, KeyState>, counters: Ledger, keys: seq<Key>, now: nat, mono: nat)
    requires Distinct(keys) && (forall key :: key in keys <==> key in kept) && PlansFor(kept, keys, now) == []
    ensures Pushed(counters, counters, kept, true)
    ensures Settled(map key | key in kept :: Claimed(kept[key]), kept, counters, now, mono, true)
  {
    PushedAll(kept, counters, keys, now);
    AppliedSettled(kept, counters, keys, [], now, mono);
  }
}
