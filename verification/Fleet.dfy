/**
 The fleet protocol (src/shield/global.rs, `charge` in src/shield/mod.rs): any number of
 instances record admits, roll epochs, claim, push, read and apply in any interleaving, over one
 shared store. Each instance keeps books of what became of the admits it recorded.
 */
module Fleet {
  import opened Basics
  import opened Window
  import opened FleetCounters

  /** What became of the admits one instance recorded, by key and epoch. */
  datatype Books = Books(
    recorded: Ledger,   // counted by `record`
    forgotten: Ledger,  // dropped from the state, by a second unclaimed boundary or a window change
    claimed: Ledger,    // taken by a pass
    published: Ledger,  // added to the shared counter
    lost: Ledger,       // claimed by a pass whose push did not commit
    applied: Ledger)    // claimed for the current epoch by a pass whose estimate was applied

  /** A pass between its phases. `shares` is what each instance had published, and `ledger` the counters, when it read. */
  datatype Pass =
    | Idle
    | Claiming(now: nat, plans: seq<PushPlan>)
    | Pushed(now: nat, plans: seq<PushPlan>)
    | Applying(now: nat, plans: seq<PushPlan>, counts: seq<(nat, nat)>, next: nat, shares: seq<Ledger>,
               ledger: Ledger)

  /** The store as the estimate in force saw it: the epoch read, each instance's part, the counters, and the time. */
  datatype Snapshot = Snapshot(epoch: nat, shares: seq<Ledger>, ledger: Ledger, at: nat)

  datatype Instance = Instance(
    states: map<Key, KeyState>, pass: Pass, books: Books, seen: map<Key, Snapshot>)

  datatype System = System(
    interval: nat, clock: nat, instances: seq<Instance>, counters: Ledger, expired: Ledger)

  /** What one instance does in one atomic step. */
  datatype Action =
    | Gate(key: Key, window: nat, at: Clock)
    | Record(key: Key, window: nat, at: Clock)
    | Admit(key: Key, window: nat, at: Clock, budget: nat)
    | Begin(now: nat)
    | Claim(key: Key)
    | PushOk
    | PushLost
    | PushUnacked
    | ReadOk
    | ReadFail
    | Apply(mono: nat)
    | Finish
    | Evict(key: Key, mono: nat)

  datatype Step = By(i: Id, act: Action) | Expire(key: Key, e: nat)

  function Init(n: nat, interval: nat): System {
    System(interval, 0, seq(n, _ => Instance(map[], Idle, Books(map[], map[], map[], map[], map[], map[]), map[])),
           map[], map[])
  }

  predicate GateOpen(x: Instance, interval: nat, key: Key, window: nat, at: Clock, budget: nat) {
    var t := Touched(x.states, key, window, at);
    t.None? || Minus(budget, Used(t.value, interval, at.mono)) > 0
  }

  predicate Can(x: Instance, interval: nat, act: Action) {
    match act
    case Admit(key, window, at, budget) => GateOpen(x, interval, key, window, at, budget)
    case Begin(_) => x.pass.Idle?
    case Claim(key) => x.pass.Claiming? && key in x.states
    case PushOk | PushLost | PushUnacked => x.pass.Claiming?
    case ReadOk | ReadFail => x.pass.Pushed?
    case Apply(_) => x.pass.Applying? && x.pass.next < |x.pass.plans| == |x.pass.counts|
    case Finish => x.pass.Applying? && x.pass.next == |x.pass.plans|
    case Evict(key, mono) => key in x.states && !Keeps(x.states[key], mono)
    case _ => true
  }

  predicate Enabled(f: System, step: Step) {
    step.By? ==> step.i < |f.instances| && Can(f.instances[step.i], f.interval, step.act)
  }

  // ---- the steps of one instance ------------------------------------------------------------------

  /** What touching a key drops from its state: its local count, its carryover. */
  function Forgets(s: KeyState, window: nat, at: Clock): (nat, nat) {
    if s.windowSecs != WindowSecs(window) then (s.localCount, s.carryover)
    else (0, if DropsCarryover(s, Epoch(at.unix, s.windowSecs)) then s.carryover else 0)
  }

  function ForgetFrom(m: Ledger, states: map<Key, KeyState>, key: Key, window: nat, at: Clock): Ledger {
    if key !in states then m
    else
      var s := states[key];
      var f := Forgets(s, window, at);
      Add(Add(m, key, s.epoch, f.0), key, s.carryoverEpoch, f.1)
  }

  /** A request touches `key`, and is admitted and recorded `n` times (0 or 1). */
  function Touch(x: Instance, key: Key, window: nat, at: Clock, n: nat): Instance {
    var t := Touched(x.states, key, window, at);
    if t.None? then x
    else
      var s := t.value;
      x.(states := Counted(x.states, key, window, at, n),
         books := x.books.(
           forgotten := ForgetFrom(x.books.forgotten, x.states, key, window, at),
           recorded := Add(x.books.recorded, key, s.epoch, n)))
  }

  function ClaimStep(x: Instance, key: Key): Instance
    requires x.pass.Claiming? && key in x.states
  {
    var plans := KeyPlans(key, x.states[key], x.pass.now);
    x.(states := x.states[key := Claimed(x.states[key])],
       pass := Claiming(x.pass.now, x.pass.plans + plans),
       books := x.books.(claimed := Incremented(x.books.claimed, plans)))
  }

  function Published(x: Instance): Instance
    requires x.pass.Claiming?
  {
    x.(books := x.books.(published := Incremented(x.books.published, x.pass.plans)))
  }

  function Lost(x: Instance): Instance
    requires x.pass.Claiming?
  {
    x.(pass := Idle, books := x.books.(lost := Incremented(x.books.lost, x.pass.plans)))
  }

  function ApplyStep(x: Instance, mono: nat): Instance
    requires x.pass.Applying? && x.pass.next < |x.pass.plans| == |x.pass.counts|
  {
    var q := x.pass;
    var p := q.plans[q.next];
    var y := x.(pass := q.(next := q.next + 1),
                states := Applied(x.states, p, q.counts[q.next], q.now, mono));
    if Applies(x.states, p) then
      y.(seen := x.seen[p.key := Snapshot(p.readEpoch, q.shares, q.ledger, q.now)],
         books := x.books.(applied := Add(x.books.applied, p.key, p.pushEpoch, p.delta)))
    else y
  }

  function PublishedLedgers(xs: seq<Instance>): seq<Ledger> {
    seq(|xs|, i requires 0 <= i < |xs| => xs[i].books.published)
  }

  function ReadStep(f: System, i: Id): Instance
    requires i < |f.instances| && f.instances[i].pass.Pushed?
  {
    var q := f.instances[i].pass;
    f.instances[i].(pass := Applying(
      q.now, q.plans, seq(|q.plans|, j requires 0 <= j < |q.plans| => ReadOf(f.counters, q.plans[j])), 0,
      PublishedLedgers(f.instances), f.counters))
  }

  /** The instance `i` after its action. */
  function Local(f: System, i: Id, act: Action): Instance
    requires i < |f.instances| && Can(f.instances[i], f.interval, act)
  {
    var x := f.instances[i];
    match act
    case Gate(key, window, at) => Touch(x, key, window, at, 0)
    case Record(key, window, at) => Touch(x, key, window, at, 1)
    case Admit(key, window, at, _) => Touch(x, key, window, at, 1)
    case Begin(now) => x.(pass := Claiming(now, []))
    case Claim(key) => ClaimStep(x, key)
    case PushOk => Published(x).(pass := Pushed(x.pass.now, x.pass.plans))
    case PushLost => Lost(x)
    case PushUnacked => Published(x).(pass := Idle)
    case ReadOk => ReadStep(f, i)
    case ReadFail => x.(pass := Idle)
    case Apply(mono) => ApplyStep(x, mono)
    case Finish => x.(pass := Idle)
    case Evict(key, _) => x.(states := x.states - {key})
  }

  predicate Commits(act: Action) {
    act.PushOk? || act.PushUnacked?
  }

  function ClockAfter(clock: nat, act: Action): nat {
    match act
    case Gate(_, _, at) => at.unix
    case Record(_, _, at) => at.unix
    case Admit(_, _, at, _) => at.unix
    case Begin(now) => now
    case _ => clock
  }

  function Next(f: System, step: Step): System
    requires Enabled(f, step)
  {
    match step
    case Expire(key, e) =>
      f.(counters := f.counters - {(key, e)}, expired := Add(f.expired, key, e, Get(f.counters, key, e)))
    case By(i, act) =>
      f.(clock := ClockAfter(f.clock, act),
         instances := f.instances[i := Local(f, i, act)],
         counters := if Commits(act) then Incremented(f.counters, f.instances[i].pass.plans) else f.counters)
  }

  predicate Run(f: System, steps: seq<Step>)
    decreases steps
  {
    steps == [] || (Enabled(f, steps[0]) && Run(Next(f, steps[0]), steps[1..]))
  }

  function After(f: System, steps: seq<Step>): System
    requires Run(f, steps)
    decreases steps
  {
    if steps == [] then f else After(Next(f, steps[0]), steps[1..])
  }

  // ---- the ledger ---------------------------------------------------------------------------------

  function Unclaimed(x: Instance, key: Key, e: nat): nat {
    if key in x.states then Pending(x.states[key], e) else 0
  }

  function InFlight(x: Instance, key: Key, e: nat): nat {
    if x.pass.Claiming? then PlanTotal(x.pass.plans, key, e) else 0
  }

  /** Every admit recorded is unclaimed, claimed or forgotten; every one claimed is in flight, published or lost. */
  predicate Balanced(x: Instance, key: Key, e: nat) {
    var b := x.books;
    && Get(b.recorded, key, e) == Unclaimed(x, key, e) + Get(b.claimed, key, e) + Get(b.forgotten, key, e)
    && Get(b.claimed, key, e) == InFlight(x, key, e) + Get(b.published, key, e) + Get(b.lost, key, e)
  }

  function PublishedBy(xs: seq<Instance>, key: Key, e: nat): seq<nat> {
    seq(|xs|, i requires 0 <= i < |xs| => Get(xs[i].books.published, key, e))
  }

  function RecordedBy(xs: seq<Instance>, key: Key, e: nat): seq<nat> {
    seq(|xs|, i requires 0 <= i < |xs| => Get(xs[i].books.recorded, key, e))
  }

  /** All instances balance, and what they published is in the shared counter or expired with it. */
  predicate Accounts(f: System, key: Key, e: nat) {
    && (forall i :: 0 <= i < |f.instances| ==> Balanced(f.instances[i], key, e))
    && Sum(PublishedBy(f.instances, key, e)) == Get(f.counters, key, e) + Get(f.expired, key, e)
  }

  /** Touching a key keeps its pending admits of every epoch, except those it says it forgets. */
  lemma TouchedPending(states: map<Key, KeyState>, key: Key, window: nat, at: Clock, e: nat)
    requires key in states
    ensures var s, f := states[key], Forgets(states[key], window, at);
            var t := Touched(states, key, window, at);
            t.Some? && Pending(t.value, e) + (if s.epoch == e then f.0 else 0)
                       + (if s.carryoverEpoch == e then f.1 else 0) == Pending(s, e)
  {
    RollConserves(states[key], Epoch(at.unix, WindowSecs(window)), e);
  }

  /** What touching a key forgets of epoch `e`. */
  function Forgot(states: map<Key, KeyState>, key: Key, window: nat, at: Clock, e: nat): nat {
    if key !in states then 0
    else
      var s, f := states[key], Forgets(states[key], window, at);
      (if s.epoch == e then f.0 else 0) + (if s.carryoverEpoch == e then f.1 else 0)
  }

  lemma ForgetFromBy(m: Ledger, states: map<Key, KeyState>, key: Key, window: nat, at: Clock, k: Key, e: nat)
    ensures Get(ForgetFrom(m, states, key, window, at), k, e) ==
            Get(m, k, e) + if k == key then Forgot(states, key, window, at, e) else 0
  {
  }

  /** The pending admits after a touch: those before, less what is forgotten, and the new ones. */
  lemma CountedPending(states: map<Key, KeyState>, key: Key, window: nat, at: Clock, n: nat, e: nat)
    requires Touched(states, key, window, at).Some?
    ensures Pending(Counted(states, key, window, at, n)[key], e) + Forgot(states, key, window, at, e) ==
            (if key in states then Pending(states[key], e) else 0)
            + if Touched(states, key, window, at).value.epoch == e then n else 0
  {
    var s := Touched(states, key, window, at).value;
    assert Pending(s.(localCount := s.localCount + n), e) == Pending(s, e) + if s.epoch == e then n else 0;
    if key in states {
      TouchedPending(states, key, window, at, e);
    }
  }

  lemma TouchBalances(x: Instance, key: Key, window: nat, at: Clock, n: nat, k: Key, e: nat)
    requires Balanced(x, k, e)
    ensures Balanced(Touch(x, key, window, at, n), k, e)
  {
    if Touched(x.states, key, window, at).Some? {
      ForgetFromBy(x.books.forgotten, x.states, key, window, at, k, e);
      CountedPending(x.states, key, window, at, n, e);
    }
  }

  lemma ClaimBalances(x: Instance, key: Key, k: Key, e: nat)
    requires x.pass.Claiming? && key in x.states
    requires Balanced(x, k, e)
    ensures Balanced(ClaimStep(x, key), k, e)
  {
    var plans := KeyPlans(key, x.states[key], x.pass.now);
    ClaimConserves(key, x.states[key], x.pass.now, k, e);
    PlanTotalAppend(x.pass.plans, plans, k, e);
    IncrementedBy(x.books.claimed, plans, k, e);
  }

  lemma PushBalances(x: Instance, k: Key, e: nat)
    requires x.pass.Claiming?
    requires Balanced(x, k, e)
    ensures Balanced(Lost(x), k, e)
    ensures Balanced(Published(x).(pass := Idle), k, e)
    ensures Balanced(Published(x).(pass := Pushed(x.pass.now, x.pass.plans)), k, e)
  {
    IncrementedBy(x.books.published, x.pass.plans, k, e);
    IncrementedBy(x.books.lost, x.pass.plans, k, e);
  }

  lemma LocalBalances(f: System, i: Id, act: Action, k: Key, e: nat)
    requires i < |f.instances| && Can(f.instances[i], f.interval, act)
    requires Balanced(f.instances[i], k, e)
    ensures Balanced(Local(f, i, act), k, e)
  {
    var x := f.instances[i];
    match act
    case Gate(key, window, at) => TouchBalances(x, key, window, at, 0, k, e);
    case Record(key, window, at) => TouchBalances(x, key, window, at, 1, k, e);
    case Admit(key, window, at, _) => TouchBalances(x, key, window, at, 1, k, e);
    case Claim(key) => ClaimBalances(x, key, k, e);
    case PushOk | PushUnacked | PushLost => PushBalances(x, k, e);
    case Evict(key, mono) => EvictBalances(x, key, mono, k, e);
    case Apply(mono) => ApplyBalances(x, mono, k, e);
    case _ => PassBalances(f, i, act, k, e);
  }

  /** What is evicted has nothing pending. */
  lemma EvictBalances(x: Instance, key: Key, mono: nat, k: Key, e: nat)
    requires key in x.states && !Keeps(x.states[key], mono) && Balanced(x, k, e)
    ensures Balanced(x.(states := x.states - {key}), k, e)
  {
  }

  /** An estimate changes nothing that is pending. */
  lemma AppliedPending(states: map<Key, KeyState>, p: PushPlan, count: (nat, nat), now: nat, mono: nat, k: Key, e: nat)
    ensures var after := Applied(states, p, count, now, mono);
            (k in after <==> k in states) && (k in states ==> Pending(after[k], e) == Pending(states[k], e))
  {
  }

  lemma ApplyBalances(x: Instance, mono: nat, k: Key, e: nat)
    requires x.pass.Applying? && x.pass.next < |x.pass.plans| == |x.pass.counts| && Balanced(x, k, e)
    ensures Balanced(ApplyStep(x, mono), k, e)
  {
    var q := x.pass;
    AppliedPending(x.states, q.plans[q.next], q.counts[q.next], q.now, mono, k, e);
  }

  lemma PassBalances(f: System, i: Id, act: Action, k: Key, e: nat)
    requires i < |f.instances| && Can(f.instances[i], f.interval, act)
    requires act.Begin? || act.ReadOk? || act.ReadFail? || act.Finish?
    requires Balanced(f.instances[i], k, e)
    ensures Balanced(Local(f, i, act), k, e)
  {
  }

  /** A push adds its plans to the instance's published amounts; no other step changes them. */
  lemma LocalPublishes(f: System, i: Id, act: Action, k: Key, e: nat)
    requires i < |f.instances| && Can(f.instances[i], f.interval, act)
    ensures Get(Local(f, i, act).books.published, k, e) == Get(f.instances[i].books.published, k, e) +
            if Commits(act) then PlanTotal(f.instances[i].pass.plans, k, e) else 0
  {
    if Commits(act) {
      IncrementedBy(f.instances[i].books.published, f.instances[i].pass.plans, k, e);
    }
  }

  lemma PublishedSum(xs: seq<Instance>, i: Id, x: Instance, k: Key, e: nat)
    requires i < |xs|
    ensures Sum(PublishedBy(xs[i := x], k, e)) + Get(xs[i].books.published, k, e) ==
            Sum(PublishedBy(xs, k, e)) + Get(x.books.published, k, e)
  {
    var now := Get(x.books.published, k, e);
    assert PublishedBy(xs[i := x], k, e) == PublishedBy(xs, k, e)[i := now];
    SumUpdate(PublishedBy(xs, k, e), i, now);
  }

  /** The counter gains exactly what is published, and gives up only what expires. */
  lemma CounterKeepsUp(f: System, step: Step, k: Key, e: nat)
    requires Enabled(f, step)
    requires Sum(PublishedBy(f.instances, k, e)) == Get(f.counters, k, e) + Get(f.expired, k, e)
    ensures var g := Next(f, step);
            Sum(PublishedBy(g.instances, k, e)) == Get(g.counters, k, e) + Get(g.expired, k, e)
  {
    if step.By? {
      LocalPublishes(f, step.i, step.act, k, e);
      PublishedSum(f.instances, step.i, Local(f, step.i, step.act), k, e);
      if Commits(step.act) {
        IncrementedBy(f.counters, f.instances[step.i].pass.plans, k, e);
      }
    }
  }

  lemma StepAccounts(f: System, step: Step, k: Key, e: nat)
    requires Enabled(f, step)
    requires Accounts(f, k, e)
    ensures Accounts(Next(f, step), k, e)
  {
    CounterKeepsUp(f, step, k, e);
    if step.By? {
      LocalBalances(f, step.i, step.act, k, e);
    }
  }

  lemma {:induction false} RunAccounts(f: System, steps: seq<Step>, k: Key, e: nat)
    requires Run(f, steps)
    requires Accounts(f, k, e)
    ensures Accounts(After(f, steps), k, e)
    decreases steps
  {
    if steps != [] {
      StepAccounts(f, steps[0], k, e);
      RunAccounts(Next(f, steps[0]), steps[1..], k, e);
    }
  }

  /**
   The ledger, over every run of any fleet: for each key and epoch, what each instance recorded is
   exactly what it has unclaimed, in flight, published, lost or forgotten, and the counter holds
   exactly what was published and has not expired. So the counter never exceeds the admits recorded.
   */
  lemma LedgerBalances(n: nat, interval: nat, steps: seq<Step>, k: Key, e: nat)
    requires Run(Init(n, interval), steps)
    ensures var f := After(Init(n, interval), steps);
            && Accounts(f, k, e)
            && Get(f.counters, k, e) <= Sum(RecordedBy(f.instances, k, e))
  {
    var f0 := Init(n, interval);
    SumZero(PublishedBy(f0.instances, k, e));
    RunAccounts(f0, steps, k, e);
    var f := After(f0, steps);
    SumAtMost(PublishedBy(f.instances, k, e), RecordedBy(f.instances, k, e));
  }
}
