/**
 What the fleet gate lets through (`fleet_remaining` and `record` in src/shield/global.rs): at any one
 instant exactly as many requests as the budget has left, by the instance's own counts and, while it
 is not stale, the estimate of the others'.
 */
module FleetGate {
  import opened Basics
  import opened Window
  import opened FleetCounters

  /** Where the gate and the record of a request find a key, and with what budget. */
  datatype Charge = Charge(key: Key, window: nat, at: Clock, budget: nat)

  /** What the gate reports. */
  function Remaining(states: map<Key, KeyState>, interval: nat, c: Charge): nat {
    var t := Touched(states, c.key, c.window, c.at);
    if t.Some? then Minus(c.budget, Used(t.value, interval, c.at.mono)) else c.budget
  }

  /** How many of `k` requests pass, each gated and recorded if it does. */
  function Passed(states: map<Key, KeyState>, interval: nat, c: Charge, k: nat): nat
    decreases k
  {
    if k == 0 then 0
    else if Remaining(states, interval, c) > 0
    then 1 + Passed(Counted(states, c.key, c.window, c.at, 1), interval, c, k - 1)
    else Passed(Counted(states, c.key, c.window, c.at, 0), interval, c, k - 1)
  }

  /** A key touched again at the same instant is as it was left. */
  lemma TouchedAgain(states: map<Key, KeyState>, c: Charge, n: nat)
    requires Touched(states, c.key, c.window, c.at).Some?
    ensures var s := Touched(states, c.key, c.window, c.at).value;
            Touched(Counted(states, c.key, c.window, c.at, n), c.key, c.window, c.at) ==
            Some(s.(localCount := s.localCount + n))
  {
  }

  /**
   Of any number of requests at one instant exactly the budget less what is used pass: the admits not yet
   claimed, of this epoch or carried over, and the estimate if it was applied less than four intervals
   ago, or less than two seconds ago.
   */
  lemma {:induction false} GateExact(states: map<Key, KeyState>, interval: nat, c: Charge, k: nat)
    requires Touched(states, c.key, c.window, c.at).Some?
    ensures var s := Touched(states, c.key, c.window, c.at).value;
            var trusted := c.at.mono < s.estimateAt + 4 * interval || c.at.mono < s.estimateAt + 2_000_000_000;
            Passed(states, interval, c, k) ==
            Min(k, Minus(c.budget, s.localCount + s.carryover + if trusted then s.remoteEstimate else 0))
    decreases k
  {
    if k > 0 {
      var n := if Remaining(states, interval, c) > 0 then 1 else 0;
      TouchedAgain(states, c, n);
      GateExact(Counted(states, c.key, c.window, c.at, n), interval, c, k - 1);
    }
  }

  /** A key the table has no room for is never gated: every request passes, or with no budget none. */
  lemma {:induction false} UntrackedPasses(states: map<Key, KeyState>, interval: nat, c: Charge, k: nat)
    requires Touched(states, c.key, c.window, c.at).None?
    ensures Passed(states, interval, c, k) == if c.budget > 0 then k else 0
    decreases k
  {
    if k > 0 {
      UntrackedPasses(states, interval, c, k - 1);
    }
  }
}
