/**
 The idle detector of a connection (src/serve/idle.rs): a count of requests in flight, a notification
 that keeps one permit, and a waiter that returns once the connection has been idle for the timeout.
 Changing the count and notifying about it are separate steps of whichever task takes them.
 */
module Idle {

  /** Where the waiter is. `since` is when it last saw a count of zero. */
  datatype Waiter =
    | Top
    | SawZero(since: nat)
    | SawBusy
    | Racing(since: nat, notified: bool)
    | Parked(notified: bool)
    | TimedOut(since: nat)
    | Returned(since: nat)

  /**
   `owed` counts those that moved the count off or to zero and have yet to notify. `busy` records
   whether a request has been in flight since the waiter last saw zero.
   */
  datatype State = State(active: nat, owed: nat, permit: bool, waiter: Waiter, busy: bool, now: nat)

  datatype Step = Enter | Leave | Notify | Load | Poll | Expire | Wake | Recheck | Tick

  function Init(): State {
    State(0, 0, false, Top, false, 0)
  }

  predicate Enabled(s: State, timeout: nat, step: Step) {
    match step
    case Enter => true
    case Leave => s.active > 0
    case Notify => s.owed > 0
    case Load => s.waiter.Top?
    case Poll => s.waiter.SawZero? || s.waiter.SawBusy?
    case Expire => (s.waiter.SawZero? || s.waiter.Racing?) && s.waiter.since + timeout <= s.now
    case Wake => (s.waiter.Racing? || s.waiter.Parked?) && s.waiter.notified
    case Recheck => s.waiter.TimedOut?
    case Tick => true
  }

  /** A notification wakes the registered waiter, or is kept for the next one. */
  function Notified(s: State): State {
    match s.waiter
    case Racing(since, false) => s.(waiter := Racing(since, true))
    case Parked(false) => s.(waiter := Parked(true))
    case _ => s.(permit := true)
  }

  /** The first poll of a notification takes the kept permit or registers the waiter. */
  function Polled(s: State): State
    requires s.waiter.SawZero? || s.waiter.SawBusy?
  {
    if s.permit then s.(permit := false, waiter := Top)
    else s.(waiter := if s.waiter.SawZero? then Racing(s.waiter.since, false) else Parked(false))
  }

  function Next(s: State, timeout: nat, step: Step): State
    requires Enabled(s, timeout, step)
  {
    match step
    case Enter => s.(active := s.active + 1, owed := if s.active == 0 then s.owed + 1 else s.owed, busy := true)
    case Leave => s.(active := s.active - 1, owed := if s.active == 1 then s.owed + 1 else s.owed)
    case Notify => Notified(s.(owed := s.owed - 1))
    case Load => if s.active == 0 then s.(waiter := SawZero(s.now), busy := false) else s.(waiter := SawBusy)
    case Poll => Polled(s)
    // A notification that lost to the timer is handed back when it is dropped.
    case Expire => s.(waiter := TimedOut(s.waiter.since), permit := s.permit || (s.waiter.Racing? && s.waiter.notified))
    case Wake => s.(waiter := Top)
    case Recheck => s.(waiter := if s.active == 0 then Returned(s.waiter.since) else Top)
    case Tick => s.(now := s.now + 1)
  }

  ghost predicate Run(s: State, timeout: nat, steps: seq<Step>)
    decreases |steps|
  {
    steps == [] || (Enabled(s, timeout, steps[0]) && Run(Next(s, timeout, steps[0]), timeout, steps[1..]))
  }

  ghost function After(s: State, timeout: nat, steps: seq<Step>): State
    requires Run(s, timeout, steps)
    decreases |steps|
  {
    if steps == [] then s else After(Next(s, timeout, steps[0]), timeout, steps[1..])
  }

  /** A notification is kept, or on its way. */
  predicate Outstanding(s: State) {
    s.permit || s.owed > 0
  }

  predicate Inv(s: State, timeout: nat) {
    match s.waiter
    case Top => true
    case SawBusy => s.active == 0 ==> Outstanding(s)
    case Parked(notified) => notified || (!s.permit && (s.active == 0 ==> s.owed > 0))
    case SawZero(since) => since <= s.now && (s.active > 0 ==> s.busy) && (s.busy ==> Outstanding(s))
    case Racing(since, notified) =>
      since <= s.now && (s.active > 0 ==> s.busy) && (notified || (!s.permit && (s.busy ==> s.owed > 0)))
    case TimedOut(since) => since + timeout <= s.now && (s.active > 0 ==> s.busy) && (s.busy ==> Outstanding(s))
    case Returned(since) => since + timeout <= s.now && (s.active > 0 ==> s.busy) && (s.busy ==> Outstanding(s))
  }

  lemma StepInv(s: State, timeout: nat, step: Step)
    requires Inv(s, timeout) && Enabled(s, timeout, step)
    ensures Inv(Next(s, timeout, step), timeout)
  {
    match step
    case Enter =>
    case Leave =>
    case Notify =>
    case Load =>
    case Poll =>
    case Expire =>
    case Wake =>
    case Recheck =>
    case Tick =>
  }

  lemma {:induction false} RunInv(s: State, timeout: nat, steps: seq<Step>)
    requires Inv(s, timeout) && Run(s, timeout, steps)
    ensures Inv(After(s, timeout, steps), timeout)
    decreases |steps|
  {
    if steps != [] {
      StepInv(s, timeout, steps[0]);
      RunInv(Next(s, timeout, steps[0]), timeout, steps[1..]);
    }
  }

  /**
   In every interleaving a waiter parked because requests were active is not left there at a count of
   zero: it has been notified, or a task is about to notify it.
   */
  lemma NoLostWakeup(timeout: nat, steps: seq<Step>)
    requires Run(Init(), timeout, steps)
    ensures var s := After(Init(), timeout, steps);
            s.waiter.Parked? && s.active == 0 ==> s.waiter.notified || s.owed > 0
  {
    RunInv(Init(), timeout, steps);
  }

  /**
   The waiter returns at a count of zero, the timeout after it last saw one; if a request was in
   flight in between, its notification is still outstanding.
   */
  lemma ReturnsWhenIdle(timeout: nat, steps: seq<Step>)
    requires Run(Init(), timeout, steps)
    requires var s := After(Init(), timeout, steps); Enabled(s, timeout, Recheck) && Next(s, timeout, Recheck).waiter.Returned?
    ensures var s := After(Init(), timeout, steps);
            s.active == 0 && s.waiter.since + timeout <= s.now && (s.busy ==> Outstanding(s))
  {
    RunInv(Init(), timeout, steps);
  }

  lemma {:induction false} RunSnoc(s: State, timeout: nat, steps: seq<Step>, step: Step)
    requires Run(s, timeout, steps) && Enabled(After(s, timeout, steps), timeout, step)
    ensures Run(s, timeout, steps + [step])
    ensures After(s, timeout, steps + [step]) == Next(After(s, timeout, steps), timeout, step)
    decreases |steps|
  {
    if steps != [] {
      RunSnoc(Next(s, timeout, steps[0]), timeout, steps[1..], step);
      assert (steps + [step])[1..] == steps[1..] + [step];
    }
  }

  /** A run to one more state. */
  lemma Then(timeout: nat, steps: seq<Step>, s: State, step: Step) returns (more: seq<Step>)
    requires Run(Init(), timeout, steps) && After(Init(), timeout, steps) == s && Enabled(s, timeout, step)
    ensures Run(Init(), timeout, more) && After(Init(), timeout, more) == Next(s, timeout, step)
  {
    RunSnoc(Init(), timeout, steps, step);
    more := steps + [step];
  }

  lemma {:induction false} Ticks(timeout: nat, steps: seq<Step>, s: State, k: nat) returns (more: seq<Step>)
    requires Run(Init(), timeout, steps) && After(Init(), timeout, steps) == s
    ensures Run(Init(), timeout, more) && After(Init(), timeout, more) == s.(now := s.now + k)
  {
    more := steps;
    if k > 0 {
      more := Ticks(timeout, steps, s, k - 1);
      more := Then(timeout, more, s.(now := s.now + (k - 1)), Tick);
    }
  }

  /**
   Whatever the timeout, the waiter can return though a request came and went while it waited: the
   timer may win over its notification.
   */
  lemma ReturnsAfterRequest(timeout: nat) returns (steps: seq<Step>)
    ensures Run(Init(), timeout, steps)
    ensures After(Init(), timeout, steps) == State(0, 1, true, Returned(0), true, timeout)
  {
    steps := Then(timeout, [], Init(), Load);
    steps := Then(timeout, steps, State(0, 0, false, SawZero(0), false, 0), Poll);
    steps := Ticks(timeout, steps, State(0, 0, false, Racing(0, false), false, 0), timeout);
    steps := Then(timeout, steps, State(0, 0, false, Racing(0, false), false, timeout), Enter);
    steps := Then(timeout, steps, State(1, 1, false, Racing(0, false), true, timeout), Notify);
    steps := Then(timeout, steps, State(1, 0, false, Racing(0, true), true, timeout), Leave);
    steps := Then(timeout, steps, State(0, 1, false, Racing(0, true), true, timeout), Expire);
    steps := Then(timeout, steps, State(0, 1, true, TimedOut(0), true, timeout), Recheck);
  }

  // ---- once the requests stop, it does return ------------------------------------------------------

  function Bit(b: bool): nat {
    if b then 1 else 0
  }

  /** What is left to do when no more requests come: notifications to deliver and take, and a walk to the end. */
  function Rank(s: State): nat {
    var kept := Bit(s.permit) + Bit((s.waiter.Racing? || s.waiter.Parked?) && s.waiter.notified);
    var left := match s.waiter
      case SawBusy => 6
      case Parked(_) => 5
      case Top => 4
      case SawZero(_) => 3
      case Racing(_, _) => 2
      case TimedOut(_) => 1
      case Returned(_) => 0;
    7 * (2 * s.owed + kept) + left
  }

  predicate Own(step: Step) {
    !step.Enter? && !step.Leave? && !step.Tick?
  }

  lemma Descends(s: State, timeout: nat, step: Step)
    requires s.active == 0 && Own(step) && Enabled(s, timeout, step)
    ensures Rank(Next(s, timeout, step)) < Rank(s)
  {
  }

  function OwnSteps(steps: seq<Step>): nat {
    if steps == [] then 0 else Bit(Own(steps[0])) + OwnSteps(steps[1..])
  }

  lemma {:induction false} OwnStepsBounded(s: State, timeout: nat, steps: seq<Step>)
    requires s.active == 0 && Run(s, timeout, steps)
    requires Enter !in steps
    ensures OwnSteps(steps) + Rank(After(s, timeout, steps)) <= Rank(s)
    ensures After(s, timeout, steps).active == 0
    decreases |steps|
  {
    if steps != [] {
      if Own(steps[0]) {
        Descends(s, timeout, steps[0]);
      }
      OwnStepsBounded(Next(s, timeout, steps[0]), timeout, steps[1..]);
    }
  }

  /**
   After any run, once requests have stopped: only a bounded number of steps remain, and the waiter
   rests only where the timer is still running, or has returned.
   */
  lemma IdleIsNoticed(timeout: nat, steps: seq<Step>, quiet: seq<Step>)
    requires Run(Init(), timeout, steps) && After(Init(), timeout, steps).active == 0
    requires Enter !in quiet && Run(After(Init(), timeout, steps), timeout, quiet)
    ensures OwnSteps(quiet) <= Rank(After(Init(), timeout, steps))
    ensures var s := After(After(Init(), timeout, steps), timeout, quiet);
            (forall step :: Own(step) ==> !Enabled(s, timeout, step)) ==>
              s.waiter.Returned? || (s.waiter.Racing? && s.now < s.waiter.since + timeout)
  {
    var s := After(Init(), timeout, steps);
    RunInv(Init(), timeout, steps);
    RunInv(s, timeout, quiet);
    OwnStepsBounded(s, timeout, quiet);
    var t := After(s, timeout, quiet);
    if forall step :: Own(step) ==> !Enabled(t, timeout, step) {
      assert Own(Load) && Own(Poll) && Own(Recheck) && Own(Notify) && Own(Wake) && Own(Expire);
    }
  }
}
