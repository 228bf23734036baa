/**
 How far a fleet can pass its budget (src/shield/global.rs, src/shield/mod.rs): when an instance
 admits through its gate, the fleet's total for the epoch is at most the budget, plus what the other
 instances have recorded and the store snapshot in force does not show, plus what the instance
 itself has claimed in passes whose estimate it has not applied.
 */
module FleetOvershoot {
  import opened Basics
  import opened Window
  import opened FleetCounters
  import opened Fleet

  /**
   What the bound asks of a run, for the key `k` on a window of `w` seconds: no reading of
   the wall clock, on any instance, falls in an earlier epoch than one before it; the key keeps its
   window, stays tracked once it is, and its counter does not expire while its epoch is current.
   Within an epoch readings may go back. Pushes and reads may fail.
   */
  predicate Benign(f: System, step: Step, k: Key, w: nat)
    requires w >= 1
  {
    match step
    case Expire(key, e) => key == k ==> e < Epoch(f.clock, w)
    case By(_, act) =>
      && Epoch(f.clock, w) <= Epoch(ClockAfter(f.clock, act), w)
      && match act
         case Gate(key, window, _) => key == k ==> WindowSecs(window) == w
         case Record(key, window, _) => key == k ==> WindowSecs(window) == w
         case Admit(key, window, _, _) => key == k ==> WindowSecs(window) == w
         case Evict(key, _) => key != k
         case _ => true
  }

  predicate BenignRun(f: System, steps: seq<Step>, k: Key, w: nat)
    requires w >= 1
    decreases steps
  {
    steps == [] ||
    (Enabled(f, steps[0]) && Benign(f, steps[0], k, w) && BenignRun(Next(f, steps[0]), steps[1..], k, w))
  }

  lemma {:induction false} BenignRuns(f: System, steps: seq<Step>, k: Key, w: nat)
    requires w >= 1
    requires BenignRun(f, steps, k, w)
    ensures Run(f, steps)
    decreases steps
  {
    if steps != [] {
      BenignRuns(Next(f, steps[0]), steps[1..], k, w);
    }
  }

  /** Instance `j`'s part of the count the estimate of `x` in force saw for epoch `e`. */
  function Share(x: Instance, j: Id, k: Key, e: nat): nat {
    if k in x.seen && x.seen[k].epoch == e && j < |x.seen[k].shares| then Get(x.seen[k].shares[j], k, e) else 0
  }

  function Parts(shares: seq<Ledger>, k: Key, e: nat): seq<nat> {
    seq(|shares|, j requires 0 <= j < |shares| => Get(shares[j], k, e))
  }

  // ---- applied claims are in the snapshot ------------------------------------------------------

  /** Whatever `x` has applied it had published, before the read of the pass it is applying. */
  predicate AppliedPublished(x: Instance, i: Id, k: Key, e: nat) {
    var applied, published := Get(x.books.applied, k, e), Get(x.books.published, k, e);
    match x.pass
    case Pushed(_, plans) => applied + PlanTotal(plans, k, e) <= published
    case Applying(_, plans, _, next, shares, _) =>
      && next <= |plans| && i < |shares|
      && applied + PlanTotal(plans[next..], k, e) <= Get(shares[i], k, e) <= published
    case _ => applied <= published
  }

  lemma ApplyKeepsPublished(x: Instance, i: Id, mono: nat, k: Key, e: nat)
    requires x.pass.Applying? && x.pass.next < |x.pass.plans| == |x.pass.counts|
    requires AppliedPublished(x, i, k, e)
    ensures AppliedPublished(ApplyStep(x, mono), i, k, e)
  {
    var q := x.pass;
    assert q.plans[q.next..][1..] == q.plans[q.next + 1..];
  }

  lemma LocalAppliedPublished(f: System, i: Id, act: Action, k: Key, e: nat)
    requires i < |f.instances| && Can(f.instances[i], f.interval, act)
    requires AppliedPublished(f.instances[i], i, k, e)
    ensures AppliedPublished(Local(f, i, act), i, k, e)
  {
    var x := f.instances[i];
    match act
    case Apply(mono) => ApplyKeepsPublished(x, i, mono, k, e);
    case PushOk | PushUnacked => IncrementedBy(x.books.published, x.pass.plans, k, e);
    case ReadOk => assert x.pass.plans[0..] == x.pass.plans;
    case _ =>
  }

  // ---- what a benign run keeps --------------------------------------------------------------------

  /** A plan for `k` reads the epoch its pass began in. */
  predicate PlansOn(plans: seq<PushPlan>, now: nat, k: Key, w: nat)
    requires w >= 1
  {
    forall p :: p in plans && p.key == k ==> p.windowSecs == w && p.readEpoch == Epoch(now, w)
  }

  /** The counts of an epoch and of the one before it, as the counters had them. */
  predicate ReadFrom(counts: (nat, nat), ledger: Ledger, k: Key, e: nat) {
    counts == (Get(ledger, k, e), Get(ledger, k, Minus(e, 1)))
  }

  predicate PassSound(q: Pass, n: nat, clock: nat, k: Key, w: nat)
    requires w >= 1
  {
    q.Idle? ||
    (&& Epoch(q.now, w) <= Epoch(clock, w) && PlansOn(q.plans, q.now, k, w)
     && (q.Applying? ==>
           && |q.counts| == |q.plans| && |q.shares| == n
           && (forall j :: 0 <= j < |q.plans| && q.plans[j].key == k ==> ReadFrom(q.counts[j], q.ledger, k, Epoch(q.now, w)))
           && (Epoch(q.now, w) == Epoch(clock, w) ==>
                 Get(q.ledger, k, Epoch(clock, w)) == Sum(Parts(q.shares, k, Epoch(clock, w))))))
  }

  predicate StateSound(s: KeyState, e: nat, w: nat) {
    s.windowSecs == w && s.epoch <= e && (s.carryover > 0 ==> s.carryoverEpoch < s.epoch)
  }

  /** Nothing is recorded past the state's epoch, and nothing of the current epoch is forgotten. */
  ghost predicate BooksSound(x: Instance, clock: nat, k: Key, w: nat)
    requires w >= 1
  {
    && (forall e: nat :: (k !in x.states || e > x.states[k].epoch) ==> Get(x.books.recorded, k, e) == 0)
    && (forall e: nat :: e >= Epoch(clock, w) ==> Get(x.books.forgotten, k, e) == 0)
  }

  /**
   What the epoch before still weighs in the estimate in force: the count of it that the estimate saw,
   for each nanosecond of the window then left.
   */
  function Carried(x: Instance, k: Key, e: nat, w: nat): nat
    requires w >= 1
  {
    if k in x.seen && x.seen[k].epoch == e
    then Get(x.seen[k].ledger, k, Minus(e, 1)) * Minus(w * NANOS_PER_SEC, ElapsedInWindow(x.seen[k].at, w))
    else 0
  }

  /** The estimate covers the snapshot it came from, which has every claim applied so far. */
  predicate EstimateSound(x: Instance, n: nat, i: Id, clock: nat, k: Key, w: nat)
    requires w >= 1
  {
    var e := Epoch(clock, w);
    && Get(x.books.applied, k, e) <= Share(x, i, k, e)
    && (k in x.seen ==>
          && k in x.states && x.seen[k].epoch <= e && |x.seen[k].shares| == n
          && (x.seen[k].epoch == e ==>
                Sum(Parts(x.seen[k].shares, k, e)) * (w * NANOS_PER_SEC) + Carried(x, k, e, w) <=
                x.states[k].remoteEstimate * (w * NANOS_PER_SEC)))
  }

  ghost predicate Sound(x: Instance, n: nat, i: Id, clock: nat, k: Key, w: nat)
    requires w >= 1
  {
    && (k in x.states ==> StateSound(x.states[k], Epoch(clock, w), w))
    && BooksSound(x, clock, k, w)
    && EstimateSound(x, n, i, clock, k, w)
    && PassSound(x.pass, n, clock, k, w)
  }

  /** Books in order for every epoch: the ledger balances and what was applied was published. */
  ghost predicate Kept(f: System, k: Key, w: nat)
    requires w >= 1
  {
    && (forall e: nat :: Accounts(f, k, e))
    && (forall i: nat, e: nat :: 0 <= i < |f.instances| ==> AppliedPublished(f.instances[i], i, k, e))
    && (forall e: nat :: e >= Epoch(f.clock, w) ==> Get(f.expired, k, e) == 0)
  }

  ghost predicate SoundSystem(f: System, k: Key, w: nat)
    requires w >= 1
  {
    && Kept(f, k, w)
    && forall i :: 0 <= i < |f.instances| ==> Sound(f.instances[i], |f.instances|, i, f.clock, k, w)
  }

  lemma StepKept(f: System, step: Step, k: Key, w: nat)
    requires w >= 1
    requires Enabled(f, step) && Benign(f, step, k, w)
    requires Kept(f, k, w)
    ensures Kept(Next(f, step), k, w)
  {
    var g := Next(f, step);
    forall e: nat
      ensures Accounts(g, k, e)
    {
      StepAccounts(f, step, k, e);
    }
    forall i: nat, e: nat | 0 <= i < |g.instances|
      ensures AppliedPublished(g.instances[i], i, k, e)
    {
      if step.By? && i == step.i {
        LocalAppliedPublished(f, i, step.act, k, e);
      }
    }
    forall e: nat | e >= Epoch(g.clock, w)
      ensures Get(g.expired, k, e) == 0
    {
      assert Get(f.expired, k, e) == 0;
    }
  }

  /** A clock in no earlier epoch finds a sound instance sound: nothing of the epochs to come has been recorded. */
  lemma ClockAdvances(x: Instance, n: nat, i: Id, clock: nat, later: nat, k: Key, w: nat)
    requires w >= 1
    requires Sound(x, n, i, clock, k, w)
    requires Epoch(clock, w) <= Epoch(later, w)
    requires forall e: nat :: Balanced(x, k, e) && AppliedPublished(x, i, k, e)
    ensures Sound(x, n, i, later, k, w)
  {
    var e := Epoch(later, w);
    assert Balanced(x, k, e) && AppliedPublished(x, i, k, e);
  }

  lemma TouchSound(x: Instance, n: nat, i: Id, key: Key, window: nat, at: Clock, admits: nat, k: Key, w: nat)
    requires w >= 1
    requires Sound(x, n, i, at.unix, k, w)
    requires key == k ==> WindowSecs(window) == w
    ensures Sound(Touch(x, key, window, at, admits), n, i, at.unix, k, w)
  {
    TouchBooksSound(x, key, window, at, admits, k, w);
    TouchStateSound(x, key, window, at, admits, k, w);
  }

  lemma TouchStateSound(x: Instance, key: Key, window: nat, at: Clock, admits: nat, k: Key, w: nat)
    requires w >= 1
    requires k in x.states ==> StateSound(x.states[k], Epoch(at.unix, w), w)
    requires key == k ==> WindowSecs(window) == w
    ensures var y := Touch(x, key, window, at, admits);
            && (k in x.states ==> k in y.states && y.states[k].remoteEstimate == x.states[k].remoteEstimate)
            && (k in y.states ==> StateSound(y.states[k], Epoch(at.unix, w), w))
  {
  }

  lemma TouchBooksSound(x: Instance, key: Key, window: nat, at: Clock, admits: nat, k: Key, w: nat)
    requires w >= 1 && BooksSound(x, at.unix, k, w)
    requires k in x.states ==> StateSound(x.states[k], Epoch(at.unix, w), w)
    requires key == k ==> WindowSecs(window) == w
    ensures BooksSound(Touch(x, key, window, at, admits), at.unix, k, w)
  {
    var y := Touch(x, key, window, at, admits);
    forall e: nat | k !in y.states || e > y.states[k].epoch
      ensures Get(y.books.recorded, k, e) == 0
    {
      assert Get(x.books.recorded, k, e) == 0;
    }
    forall e: nat | e >= Epoch(at.unix, w)
      ensures Get(y.books.forgotten, k, e) == 0
    {
      assert Get(x.books.forgotten, k, e) == 0;
      ForgetFromBy(x.books.forgotten, x.states, key, window, at, k, e);
    }
  }

  lemma ClaimSound(x: Instance, n: nat, i: Id, key: Key, clock: nat, k: Key, w: nat)
    requires w >= 1
    requires x.pass.Claiming? && key in x.states
    requires Sound(x, n, i, clock, k, w)
    ensures Sound(ClaimStep(x, key), n, i, clock, k, w)
  {
  }

  /** A read of the current epoch sees every instance's published admits. */
  lemma ReadSound(f: System, i: Id, k: Key, w: nat)
    requires w >= 1
    requires i < |f.instances| && f.instances[i].pass.Pushed?
    requires SoundSystem(f, k, w)
    ensures Sound(ReadStep(f, i), |f.instances|, i, f.clock, k, w)
  {
    var e := Epoch(f.clock, w);
    var shares := PublishedLedgers(f.instances);
    assert Parts(shares, k, e) == PublishedBy(f.instances, k, e);
    assert Accounts(f, k, e);
  }

  /** The estimate of a read weighs both of its counts. */
  lemma AppliedCovers(p: PushPlan, counts: (nat, nat), ledger: Ledger, now: nat, k: Key, w: nat)
    requires w >= 1 && p.windowSecs == w && ReadFrom(counts, ledger, k, Epoch(now, w))
    ensures Get(ledger, k, Epoch(now, w)) * (w * NANOS_PER_SEC)
            + Get(ledger, k, Minus(Epoch(now, w), 1)) * Minus(w * NANOS_PER_SEC, ElapsedInWindow(now, w)) <=
            Estimate(p, counts, now) * (w * NANOS_PER_SEC)
  {
    ClockSplits(now, w);
    EstimateExact(counts.0, counts.1, ElapsedInWindow(now, w), w);
  }

  /** An estimate applied for an older epoch finds nothing of the current one recorded here. */
  lemma ApplySound(x: Instance, n: nat, i: Id, mono: nat, clock: nat, k: Key, w: nat)
    requires w >= 1
    requires x.pass.Applying? && x.pass.next < |x.pass.plans| == |x.pass.counts|
    requires Sound(x, n, i, clock, k, w)
    requires forall e: nat :: Balanced(x, k, e) && AppliedPublished(x, i, k, e)
    ensures Sound(ApplyStep(x, mono), n, i, clock, k, w)
  {
    var q := x.pass;
    var p := q.plans[q.next];
    var e := Epoch(clock, w);
    assert p in q.plans;
    assert Balanced(x, k, e) && AppliedPublished(x, i, k, e);
    if p.key == k && Applies(x.states, p) {
      AppliedCovers(p, q.counts[q.next], q.ledger, q.now, k, w);
      assert PlanTotal(q.plans[q.next..], k, e) >= if p.pushEpoch == e then p.delta else 0;
    }
  }

  lemma LocalSound(f: System, i: Id, act: Action, k: Key, w: nat)
    requires w >= 1
    requires i < |f.instances| && Can(f.instances[i], f.interval, act)
    requires Benign(f, By(i, act), k, w)
    requires SoundSystem(f, k, w)
    ensures Sound(Local(f, i, act), |f.instances|, i, ClockAfter(f.clock, act), k, w)
  {
    var x, n := f.instances[i], |f.instances|;
    forall e: nat
      ensures Balanced(x, k, e) && AppliedPublished(x, i, k, e)
    {
      assert Accounts(f, k, e);
    }
    ClockAdvances(x, n, i, f.clock, ClockAfter(f.clock, act), k, w);
    match act
    case Gate(key, window, at) => TouchSound(x, n, i, key, window, at, 0, k, w);
    case Record(key, window, at) => TouchSound(x, n, i, key, window, at, 1, k, w);
    case Admit(key, window, at, _) => TouchSound(x, n, i, key, window, at, 1, k, w);
    case Claim(key) => ClaimSound(x, n, i, key, f.clock, k, w);
    case ReadOk => ReadSound(f, i, k, w);
    case Apply(mono) => ApplySound(x, n, i, mono, f.clock, k, w);
    case _ =>
  }

  lemma StepSound(f: System, step: Step, k: Key, w: nat)
    requires w >= 1
    requires Enabled(f, step) && Benign(f, step, k, w)
    requires SoundSystem(f, k, w)
    ensures SoundSystem(Next(f, step), k, w)
  {
    var g := Next(f, step);
    StepKept(f, step, k, w);
    forall i | 0 <= i < |g.instances|
      ensures Sound(g.instances[i], |g.instances|, i, g.clock, k, w)
    {
      if step.By? && i == step.i {
        LocalSound(f, i, step.act, k, w);
      } else {
        forall e: nat
          ensures Balanced(f.instances[i], k, e) && AppliedPublished(f.instances[i], i, k, e)
        {
          assert Accounts(f, k, e);
        }
        ClockAdvances(f.instances[i], |f.instances|, i, f.clock, g.clock, k, w);
      }
    }
  }

  lemma {:induction false} RunSound(f: System, steps: seq<Step>, k: Key, w: nat)
    requires w >= 1
    requires BenignRun(f, steps, k, w)
    requires SoundSystem(f, k, w)
    ensures Run(f, steps)
    ensures SoundSystem(After(f, steps), k, w)
    decreases steps
  {
    BenignRuns(f, steps, k, w);
    if steps != [] {
      StepSound(f, steps[0], k, w);
      RunSound(Next(f, steps[0]), steps[1..], k, w);
    }
  }

  lemma InitSound(n: nat, interval: nat, k: Key, w: nat)
    requires w >= 1
    ensures SoundSystem(Init(n, interval), k, w)
  {
    var f := Init(n, interval);
    forall e: nat
      ensures Accounts(f, k, e)
    {
      SumZero(PublishedBy(f.instances, k, e));
    }
  }

  // ---- the bound ------------------------------------------------------------------------------------

  /** What each other instance has recorded for `e` that the estimate of `i` in force does not show. */
  function MissingBy(f: System, i: Id, k: Key, e: nat): seq<nat>
    requires i < |f.instances|
  {
    seq(|f.instances|, j requires 0 <= j < |f.instances| =>
      if j == i then 0
      else Minus(Get(f.instances[j].books.recorded, k, e), Share(f.instances[i], j, k, e)))
  }

  /** What `x` has claimed for `e` in passes whose estimate it has not applied. */
  function Unapplied(x: Instance, k: Key, e: nat): nat {
    Minus(Get(x.books.claimed, k, e), Get(x.books.applied, k, e))
  }

  lemma {:induction false} SumSplit(a: seq<nat>, s: seq<nat>, m: seq<nat>, i: nat)
    requires |a| == |s| == |m| && i < |a|
    requires forall j :: 0 <= j < |a| && j != i ==> a[j] <= s[j] + m[j]
    ensures Sum(a) + s[i] + m[i] <= Sum(s) + Sum(m) + a[i]
  {
    if i == 0 {
      SumAtMostBoth(a[1..], s[1..], m[1..]);
    } else {
      SumSplit(a[1..], s[1..], m[1..], i - 1);
    }
  }

  lemma {:induction false} SumAtMostBoth(a: seq<nat>, s: seq<nat>, m: seq<nat>)
    requires |a| == |s| == |m|
    requires forall j :: 0 <= j < |a| ==> a[j] <= s[j] + m[j]
    ensures Sum(a) <= Sum(s) + Sum(m)
  {
    if a != [] {
      SumAtMostBoth(a[1..], s[1..], m[1..]);
    }
  }

  function SharesIn(x: Instance, n: nat, k: Key, e: nat): seq<nat> {
    seq(n, j requires 0 <= j < n => Share(x, j, k, e))
  }

  /** The estimate in force counts at least every share it was computed from. */
  lemma EstimateCoversShares(x: Instance, n: nat, i: Id, clock: nat, k: Key, w: nat)
    requires w >= 1
    requires Sound(x, n, i, clock, k, w)
    requires k in x.states
    ensures Sum(SharesIn(x, n, k, Epoch(clock, w))) * (w * NANOS_PER_SEC) + Carried(x, k, Epoch(clock, w), w) <=
            x.states[k].remoteEstimate * (w * NANOS_PER_SEC)
  {
    var e := Epoch(clock, w);
    if k in x.seen && x.seen[k].epoch == e {
      assert SharesIn(x, n, k, e) == Parts(x.seen[k].shares, k, e);
    } else {
      SumZero(SharesIn(x, n, k, e));
    }
  }

  /** One instance's own part: what it recorded, less what its own share shows, it holds or has unapplied. */
  lemma OwnPart(x: Instance, n: nat, i: Id, clock: nat, k: Key, w: nat)
    requires w >= 1
    requires Sound(x, n, i, clock, k, w)
    requires k in x.states
    requires Balanced(x, k, Epoch(clock, w)) && AppliedPublished(x, i, k, Epoch(clock, w))
    ensures var e := Epoch(clock, w);
            Get(x.books.recorded, k, e) <=
            x.states[k].localCount + x.states[k].carryover + Unapplied(x, k, e) + Share(x, i, k, e)
  {
    var e := Epoch(clock, w);
    assert Get(x.books.forgotten, k, e) == 0;
    assert Unclaimed(x, k, e) <= x.states[k].localCount + x.states[k].carryover;
  }

  lemma TotalBounded(g: System, i: Id, k: Key, w: nat, budget: nat)
    requires w >= 1 && i < |g.instances|
    requires SoundSystem(g, k, w)
    requires k in g.instances[i].states
    requires var s := g.instances[i].states[k]; s.remoteEstimate + s.localCount + s.carryover <= budget
    ensures var e := Epoch(g.clock, w);
            var total, bound := Sum(RecordedBy(g.instances, k, e)),
                                budget + Sum(MissingBy(g, i, k, e)) + Unapplied(g.instances[i], k, e);
            total <= bound && total * (w * NANOS_PER_SEC) + Carried(g.instances[i], k, e, w) <= bound * (w * NANOS_PER_SEC)
  {
    var e, x, n := Epoch(g.clock, w), g.instances[i], |g.instances|;
    var s, shown := x.states[k], Sum(SharesIn(x, n, k, e));
    var rest := Sum(MissingBy(g, i, k, e)) + Unapplied(x, k, e) + s.localCount + s.carryover;
    assert Sum(RecordedBy(g.instances, k, e)) <= shown + rest by {
      assert Accounts(g, k, e);
      SumSplit(RecordedBy(g.instances, k, e), SharesIn(x, n, k, e), MissingBy(g, i, k, e), i);
      OwnPart(x, n, i, g.clock, k, w);
    }
    EstimateCoversShares(x, n, i, g.clock, k, w);
    WeighedTotal(Sum(RecordedBy(g.instances, k, e)), shown, rest, s.remoteEstimate,
                 budget + Sum(MissingBy(g, i, k, e)) + Unapplied(x, k, e), Carried(x, k, e, w), w * NANOS_PER_SEC);
  }

  lemma WeighedTotal(total: nat, shown: nat, rest: nat, estimate: nat, bound: nat, carried: nat, d: nat)
    requires total <= shown + rest && shown * d + carried <= estimate * d && estimate + rest <= bound
    ensures total * d + carried <= bound * d
    ensures d >= 1 ==> total <= bound
  {
    assert total * d <= (shown + rest) * d;
    assert (estimate + rest) * d <= bound * d;
  }

  /**
   The fleet overshoot, over every run whose epochs never go back and that keeps the window and the
   key: right after instance `i` admits through a gate with a fresh estimate, all the fleet has
   recorded for the epoch is at most the budget, plus the other instances' admits missing from the
   store snapshot `i` last applied, plus its own claims no applied pass has accounted for. And so it is
   of the sliding count: with the count of the epoch before, as that snapshot had it, added for each
   nanosecond of the window it still weighed.
   */
  lemma OvershootBounded(n: nat, interval: nat, steps: seq<Step>,
                         i: Id, k: Key, window: nat, at: Clock, budget: nat)
    requires BenignRun(Init(n, interval), steps, k, WindowSecs(window))
    requires var f, step := AfterBenign(n, interval, steps, k, WindowSecs(window)), By(i, Admit(k, window, at, budget));
             && Enabled(f, step) && Benign(f, step, k, WindowSecs(window))
             && var t := Touched(f.instances[i].states, k, window, at);
                t.Some? && Fresh(t.value, f.interval, at.mono)
    ensures var g := Next(AfterBenign(n, interval, steps, k, WindowSecs(window)), By(i, Admit(k, window, at, budget)));
            var e := Epoch(at.unix, WindowSecs(window));
            var total, bound := Sum(RecordedBy(g.instances, k, e)),
                                budget + Sum(MissingBy(g, i, k, e)) + Unapplied(g.instances[i], k, e);
            var d := WindowSecs(window) * NANOS_PER_SEC;
            total <= bound && total * d + Carried(g.instances[i], k, e, WindowSecs(window)) <= bound * d
  {
    var w := WindowSecs(window);
    var f := AfterBenign(n, interval, steps, k, w);
    InitSound(n, interval, k, w);
    RunSound(Init(n, interval), steps, k, w);
    AdmitBounded(f, i, k, window, at, budget);
  }

  lemma AdmitBounded(f: System, i: Id, k: Key, window: nat, at: Clock, budget: nat)
    requires var step := By(i, Admit(k, window, at, budget));
             Enabled(f, step) && Benign(f, step, k, WindowSecs(window)) && SoundSystem(f, k, WindowSecs(window))
    requires var t := Touched(f.instances[i].states, k, window, at); t.Some? && Fresh(t.value, f.interval, at.mono)
    ensures var g := Next(f, By(i, Admit(k, window, at, budget)));
            var e := Epoch(at.unix, WindowSecs(window));
            var total, bound := Sum(RecordedBy(g.instances, k, e)),
                                budget + Sum(MissingBy(g, i, k, e)) + Unapplied(g.instances[i], k, e);
            var d := WindowSecs(window) * NANOS_PER_SEC;
            total <= bound && total * d + Carried(g.instances[i], k, e, WindowSecs(window)) <= bound * d
  {
    var step := By(i, Admit(k, window, at, budget));
    StepSound(f, step, k, WindowSecs(window));
    AdmittedUnder(f, i, k, window, at, budget);
    TotalBounded(Next(f, step), i, k, WindowSecs(window), budget);
  }

  /** An admit through a gate with a fresh estimate leaves the instance's own view within the budget. */
  lemma AdmittedUnder(f: System, i: Id, k: Key, window: nat, at: Clock, budget: nat)
    requires Enabled(f, By(i, Admit(k, window, at, budget)))
    requires var t := Touched(f.instances[i].states, k, window, at); t.Some? && Fresh(t.value, f.interval, at.mono)
    ensures var g := Next(f, By(i, Admit(k, window, at, budget)));
            g.clock == at.unix && k in g.instances[i].states &&
            var s := g.instances[i].states[k]; s.remoteEstimate + s.localCount + s.carryover <= budget
  {
  }

  function AfterBenign(n: nat, interval: nat, steps: seq<Step>, k: Key, w: nat): System
    requires w >= 1
    requires BenignRun(Init(n, interval), steps, k, w)
  {
    BenignRuns(Init(n, interval), steps, k, w);
    After(Init(n, interval), steps)
  }
}
