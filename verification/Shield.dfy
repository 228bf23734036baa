/**
 Charging one request (`charge` in src/shield/mod.rs): the fleet gate, then the local limiter, then
 the record of the admit, each on its own reading of the clock.
 */
module Shield {
  import opened Basics
  import opened Gcra
  import opened GcraStore
  import opened Window
  import opened FleetCounters
  import opened FleetGate
  import Fleet

  /** A resolved limit: `limit` requests a `window`, shaped locally by the limiter. */
  datatype Tier = Tier(limit: nat, window: nat, limiter: Limiter)

  /** When the gate, the limiter and the record read the clock. */
  datatype Readings = Readings(gate: Clock, check: nat, record: Clock)

  datatype Decision =
    | Reject(limit: nat, remaining: nat, retryAfter: nat, resetAfter: nat)
    | Report(limit: nat, remaining: nat, retryAfter: nat, resetAfter: nat)

  /** A tenth of the window, and never under a second. */
  function FleetBackoff(window: nat): (wait: nat)
    ensures wait >= 1_000_000_000 && window < 10 * (wait + 1)
    ensures wait > 1_000_000_000 ==> 10 * wait <= window
  {
    Max(window / 10, NANOS_PER_SEC)
  }

  /** The tighter of what the limiter and the fleet have left, with waits never shorter than the limiter's. */
  function Reconciled(limit: nat, v: Verdict, fleet: Option<nat>, window: nat): (d: Decision)
    ensures d.Report? && d.remaining <= v.remaining
    ensures d.retryAfter >= v.retryAfter && d.resetAfter >= v.resetAfter
    ensures fleet.Some? ==> d.remaining <= Minus(fleet.value, 1)
    ensures d.remaining < v.remaining ==> d.retryAfter >= FleetBackoff(window) && d.resetAfter >= FleetBackoff(window)
    ensures d.remaining == v.remaining || (fleet.Some? && d.remaining == Minus(fleet.value, 1))
  {
    if fleet.Some? && Minus(fleet.value, 1) <= v.remaining then
      var backoff := FleetBackoff(window);
      Report(limit, Minus(fleet.value, 1), Max(v.retryAfter, backoff), Max(v.resetAfter, backoff))
    else Report(limit, v.remaining, v.retryAfter, v.resetAfter)
  }

  /** The limiter's verdict on the request, after the sweep that may come first. */
  function LocalVerdict(s: State, key: Key, tier: Tier, now: nat): Verdict
    requires tier.limiter.Valid()
  {
    Check(tier.limiter, Stored(Swept(s, now).tats, key), now)
  }

  /** The request as the fleet gate takes it. */
  function AtGate(key: Key, tier: Tier, at: Readings): FleetGate.Charge {
    Charge(key, tier.window, at.gate, tier.limit)
  }

  class Charger {
    const store: Store
    const global: GlobalCounters?

    constructor (store: Store, global: GlobalCounters?)
      ensures this.store == store && this.global == global
    {
      this.store := store;
      this.global := global;
    }

    /** Charge a request: one the fleet turns away costs the limiter nothing, one the limiter turns away is not counted. */
    method Charge(key: Key, tier: Tier, at: Readings) returns (d: Decision)
      requires tier.limiter.Valid()
      modifies store, global
      ensures global != null && Remaining(old(global.states), global.interval, AtGate(key, tier, at)) == 0 ==>
                && d == Reject(tier.limit, 0, FleetBackoff(tier.window), FleetBackoff(tier.window))
                && store.View() == old(store.View())
                && global.states == Counted(old(global.states), key, tier.window, at.gate, 0)
      ensures (global == null || Remaining(old(global.states), global.interval, AtGate(key, tier, at)) > 0) ==>
                var v := LocalVerdict(old(store.View()), key, tier, at.check);
                var swept := Swept(old(store.View()), at.check);
                && (v.allowed <==> d.Report?)
                && d.limit == tier.limit
                && d.remaining <= v.remaining
                && store.View() == swept.(tats := Charged(swept.tats, key, tier.limiter, at.check))
                && (!v.allowed ==> d == Reject(tier.limit, v.remaining, v.retryAfter, v.resetAfter))
                && (global != null ==>
                      var gated := Counted(old(global.states), key, tier.window, at.gate, 0);
                      global.states == if v.allowed then Counted(gated, key, tier.window, at.record, 1) else gated)
                && (v.allowed ==> d == Reconciled(tier.limit, v,
                      if global == null then None
                      else Some(Remaining(old(global.states), global.interval, AtGate(key, tier, at))), tier.window))
    {
      var fleet: Option<nat> := None;
      if global != null {
        var left := global.FleetRemaining(key, tier.limit, tier.window, at.gate);
        fleet := Some(left);
        if left == 0 {
          return Reject(tier.limit, 0, FleetBackoff(tier.window), FleetBackoff(tier.window));
        }
      }
      var v := store.CheckKey(key, tier.limiter, at.check);
      if !v.allowed {
        return Reject(tier.limit, v.remaining, v.retryAfter, v.resetAfter);
      }
      if global != null {
        global.Record(key, tier.window, at.record);
      }
      d := Reconciled(tier.limit, v, fleet, tier.window);
    }
  }

  /** The counts a charge leaves are those of the fleet protocol's gate step, then its record step. */
  lemma ChargeIsGateThenRecord(f: Fleet.System, i: Id, key: Key, tier: Tier, at: Readings)
    requires i < |f.instances|
    ensures var gated := Fleet.Next(f, Fleet.By(i, Fleet.Gate(key, tier.window, at.gate)));
            var counted := Fleet.Next(gated, Fleet.By(i, Fleet.Record(key, tier.window, at.record)));
            && gated.instances[i].states == Counted(f.instances[i].states, key, tier.window, at.gate, 0)
            && counted.instances[i].states == Counted(gated.instances[i].states, key, tier.window, at.record, 1)
  {
    TouchCounts(f.instances[i], key, tier.window, at.gate, 0);
    var x := Fleet.Touch(f.instances[i], key, tier.window, at.gate, 0);
    TouchCounts(x, key, tier.window, at.record, 1);
  }

  lemma TouchCounts(x: Fleet.Instance, key: Key, window: nat, at: Clock, n: nat)
    ensures Fleet.Touch(x, key, window, at, n).states == Counted(x.states, key, window, at, n)
  {
  }
}
