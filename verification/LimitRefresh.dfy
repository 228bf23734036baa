/**
 The limit service's cache (src/shield/resolve.rs): requests read cached limits and ask for a refresh
 when they are stale, and background tasks fetch and store them. Any number of callers and tasks
 interleave, each operation on a shared map or on the fetch slots one step; fetches succeed or fail.
 */
module LimitRefresh {
  import opened Basics

  const MAX_CACHE_ENTRIES: nat := 100_000
  const MAX_CONCURRENT_FETCHES: nat := 32

  type Key = string

  /** A limit; none when the service reports no limit, or has not answered yet. */
  type Limit = Option<nat>

  datatype Cached = Cached(limit: Limit, at: nat, lastAccess: nat)

  /** A caller, then what it spawns. `found` is whether the limit to store came from the service. */
  datatype Task =
    | Idle
    | Wants(key: Key)                                              // before the in-flight check
    | Claimed(key: Key)                                            // before taking a fetch slot
    | Crowded(key: Key)                                            // no slot: before withdrawing the claim
    | Fetching(key: Key)
    | Storing(key: Key, cached: Cached, found: bool)               // before reading the cache's size
    | Inserting(key: Key, cached: Cached, found: bool, full: bool)
    | Finishing(key: Key)                                          // before withdrawing the claim
    | Releasing                                                    // before the slot is dropped

  datatype State = State(ttl: nat, cache: map<Key, Cached>, inflight: set<Key>, free: nat, tasks: seq<Task>, now: nat)

  datatype Op =
    | Resolve(key: Key)
    | Claim
    | Acquire
    | Withdraw
    | Answer(limit: Limit)
    | Fail
    | ReadSize
    | Insert
    | Finish
    | Release

  datatype Step = By(i: Id, op: Op) | Evict(key: Key) | Tick

  predicate Can(t: Task, op: Op) {
    match op
    case Resolve(_) => t.Idle?
    case Claim => t.Wants?
    case Acquire => t.Claimed?
    case Withdraw => t.Crowded?
    case Answer(_) | Fail => t.Fetching?
    case ReadSize => t.Storing?
    case Insert => t.Inserting?
    case Finish => t.Finishing?
    case Release => t.Releasing?
  }

  /** What a request is told: the cached limit, however old. */
  function Told(s: State, key: Key): Limit {
    if key in s.cache then s.cache[key].limit else None
  }

  function Put(s: State, t: Task): map<Key, Cached>
    requires t.Inserting?
  {
    if t.key !in s.cache && t.full then s.cache else s.cache[t.key := t.cached]
  }

  function Do(s: State, t: Task, op: Op): (Task, State)
    requires Can(t, op)
  {
    match op
    case Resolve(key) =>
      if key !in s.cache then (Wants(key), s)
      else (if s.now < s.cache[key].at + s.ttl then Idle else Wants(key),
            s.(cache := s.cache[key := s.cache[key].(lastAccess := s.now)]))
    case Claim => if t.key in s.inflight then (Idle, s) else (Claimed(t.key), s.(inflight := s.inflight + {t.key}))
    case Acquire => if s.free > 0 then (Fetching(t.key), s.(free := s.free - 1)) else (Crowded(t.key), s)
    case Withdraw => (Idle, s.(inflight := s.inflight - {t.key}))
    case Answer(limit) => (Storing(t.key, Cached(limit, s.now, s.now), true), s)
    case Fail =>
      if t.key in s.cache then (Finishing(t.key), s.(cache := s.cache[t.key := s.cache[t.key].(at := s.now)]))
      else (Storing(t.key, Cached(None, s.now, s.now), false), s)
    case ReadSize => (Inserting(t.key, t.cached, t.found, |s.cache| >= MAX_CACHE_ENTRIES), s)
    case Insert => (Finishing(t.key), s.(cache := Put(s, t)))
    case Finish => (Releasing, s.(inflight := s.inflight - {t.key}))
    case Release => (Idle, s.(free := s.free + 1))
  }

  predicate Enabled(s: State, step: Step) {
    match step
    case By(i, op) => i < |s.tasks| && Can(s.tasks[i], op)
    case Evict(key) => key in s.cache
    case Tick => true
  }

  function Next(s: State, step: Step): State
    requires Enabled(s, step)
  {
    match step
    case By(i, op) =>
      var r := Do(s, s.tasks[i], op);
      r.1.(tasks := s.tasks[i := r.0])
    case Evict(key) => s.(cache := s.cache - {key})
    case Tick => s.(now := s.now + 1)
  }

  predicate Run(s: State, steps: seq<Step>)
    decreases steps
  {
    steps == [] || (Enabled(s, steps[0]) && Run(Next(s, steps[0]), steps[1..]))
  }

  function After(s: State, steps: seq<Step>): State
    requires Run(s, steps)
    decreases steps
  {
    if steps == [] then s else After(Next(s, steps[0]), steps[1..])
  }

  function Init(n: nat, ttl: nat): State {
    State(ttl, map[], {}, MAX_CONCURRENT_FETCHES, seq(n, _ => Idle), 0)
  }

  // ---- what callers hold ---------------------------------------------------------------------------

  /** The key a task has claimed. */
  predicate Claims(t: Task, key: Key) {
    !t.Idle? && !t.Wants? && !t.Releasing? && t.key == key
  }

  function Slot(t: Task): nat {
    if t.Idle? || t.Wants? || t.Claimed? || t.Crowded? then 0 else 1
  }

  /** An entry a task will add though the cache may have filled since it looked. */
  function Pending(t: Task): nat {
    if t.Inserting? && !t.full then 1 else 0
  }

  function Slots(tasks: seq<Task>): seq<nat> {
    seq(|tasks|, i requires 0 <= i < |tasks| => Slot(tasks[i]))
  }

  function Pendings(tasks: seq<Task>): seq<nat> {
    seq(|tasks|, i requires 0 <= i < |tasks| => Pending(tasks[i]))
  }

  predicate SomeClaims(tasks: seq<Task>, key: Key) {
    exists i :: 0 <= i < |tasks| && Claims(tasks[i], key)
  }

  /** The claims are those of the callers, each of one caller. */
  ghost predicate ClaimsMatch(tasks: seq<Task>, inflight: set<Key>) {
    && (forall i, key :: 0 <= i < |tasks| && Claims(tasks[i], key) ==> key in inflight)
    && (forall key :: key in inflight ==> SomeClaims(tasks, key))
    && (forall i, j, key :: 0 <= i < j < |tasks| && Claims(tasks[i], key) ==> !Claims(tasks[j], key))
  }

  predicate SlotsAdd(s: State) {
    s.free + Sum(Slots(s.tasks)) == MAX_CONCURRENT_FETCHES
  }

  predicate Bounded(s: State) {
    |s.cache| + Sum(Pendings(s.tasks)) <= MAX_CACHE_ENTRIES + MAX_CONCURRENT_FETCHES - 1
  }

  /** A limit made up for a failed fetch goes only where there is none. */
  predicate Harmless(s: State, t: Task) {
    (t.Storing? || t.Inserting?) && !t.found ==> t.key !in s.cache
  }

  ghost predicate Inv(s: State) {
    && ClaimsMatch(s.tasks, s.inflight) && SlotsAdd(s) && Bounded(s)
    && forall i :: 0 <= i < |s.tasks| ==> Harmless(s, s.tasks[i])
  }

  // ---- one step ------------------------------------------------------------------------------------

  lemma SameClaims(tasks: seq<Task>, inflight: set<Key>, i: Id, t: Task)
    requires ClaimsMatch(tasks, inflight) && i < |tasks|
    requires forall key :: Claims(t, key) == Claims(tasks[i], key)
    ensures ClaimsMatch(tasks[i := t], inflight)
  {
    forall key | key in inflight
      ensures SomeClaims(tasks[i := t], key)
    {
      var j :| 0 <= j < |tasks| && Claims(tasks[j], key);
      assert Claims(tasks[i := t][j], key);
    }
  }

  lemma OneMore(tasks: seq<Task>, inflight: set<Key>, i: Id, t: Task, key: Key)
    requires ClaimsMatch(tasks, inflight) && i < |tasks| && key !in inflight
    requires tasks[i].Wants? && t == Claimed(key)
    ensures ClaimsMatch(tasks[i := t], inflight + {key})
  {
    assert Claims(tasks[i := t][i], key);
    forall k | k in inflight
      ensures SomeClaims(tasks[i := t], k)
    {
      var j :| 0 <= j < |tasks| && Claims(tasks[j], k);
      assert Claims(tasks[i := t][j], k);
    }
  }

  lemma OneLess(tasks: seq<Task>, inflight: set<Key>, i: Id, t: Task, key: Key)
    requires ClaimsMatch(tasks, inflight) && i < |tasks|
    requires Claims(tasks[i], key) && (t.Idle? || t.Releasing?)
    ensures ClaimsMatch(tasks[i := t], inflight - {key})
  {
    forall k | k in inflight - {key}
      ensures SomeClaims(tasks[i := t], k)
    {
      var j :| 0 <= j < |tasks| && Claims(tasks[j], k);
      assert Claims(tasks[i := t][j], k);
    }
  }

  lemma ClaimsStep(s: State, i: Id, op: Op)
    requires ClaimsMatch(s.tasks, s.inflight) && Enabled(s, By(i, op))
    ensures ClaimsMatch(Next(s, By(i, op)).tasks, Next(s, By(i, op)).inflight)
  {
    var t, r := s.tasks[i], Do(s, s.tasks[i], op);
    if op.Claim? && t.key !in s.inflight {
      OneMore(s.tasks, s.inflight, i, r.0, t.key);
    } else if op.Withdraw? || op.Finish? {
      OneLess(s.tasks, s.inflight, i, r.0, t.key);
    } else {
      SameClaims(s.tasks, s.inflight, i, r.0);
    }
  }

  lemma SlotsStep(s: State, i: Id, op: Op)
    requires SlotsAdd(s) && Enabled(s, By(i, op))
    ensures SlotsAdd(Next(s, By(i, op)))
  {
    var r := Do(s, s.tasks[i], op);
    assert Slots(s.tasks[i := r.0]) == Slots(s.tasks)[i := Slot(r.0)];
    SumUpdate(Slots(s.tasks), i, Slot(r.0));
  }

  lemma PendingFew(s: State, i: Id)
    requires SlotsAdd(s) && i < |s.tasks| && s.tasks[i].Storing?
    ensures Sum(Pendings(s.tasks)) + 1 <= MAX_CONCURRENT_FETCHES
  {
    SumUpdate(Pendings(s.tasks), i, 1);
    SumAtMost(Pendings(s.tasks)[i := 1], Slots(s.tasks));
  }

  lemma CacheSize(s: State, i: Id, op: Op)
    requires Enabled(s, By(i, op))
    ensures |Next(s, By(i, op)).cache| <= |s.cache| + (if op.Insert? then Pending(s.tasks[i]) else 0)
  {
    match op
    case Resolve(key) => if key in s.cache { AddedSize(s.cache, key, s.cache[key].(lastAccess := s.now)); }
    case Fail =>
      var key := s.tasks[i].key;
      if key in s.cache { AddedSize(s.cache, key, s.cache[key].(at := s.now)); }
    case Insert => AddedSize(s.cache, s.tasks[i].key, s.tasks[i].cached);
    case _ =>
  }

  lemma BoundedStep(s: State, i: Id, op: Op)
    requires SlotsAdd(s) && Bounded(s) && Enabled(s, By(i, op))
    ensures Bounded(Next(s, By(i, op)))
  {
    var r := Do(s, s.tasks[i], op);
    CacheSize(s, i, op);
    assert Pendings(s.tasks[i := r.0]) == Pendings(s.tasks)[i := Pending(r.0)];
    SumUpdate(Pendings(s.tasks), i, Pending(r.0));
    if op.ReadSize? {
      PendingFew(s, i);
    }
  }

  lemma HarmlessStep(s: State, i: Id, op: Op, j: Id)
    requires Inv(s) && Enabled(s, By(i, op)) && j < |s.tasks|
    ensures Harmless(Next(s, By(i, op)), Next(s, By(i, op)).tasks[j])
  {
    var t := s.tasks[j];
    assert Harmless(s, t);
    assert Harmless(s, s.tasks[i]);
    if j != i && op.Insert? && t.Storing? {
      assert Claims(t, t.key);
    }
    if j != i && op.Insert? && t.Inserting? {
      assert Claims(t, t.key);
    }
    assert op.Insert? ==> Claims(s.tasks[i], s.tasks[i].key);
  }

  lemma EvictInv(s: State, key: Key)
    requires Inv(s) && key in s.cache
    ensures Inv(Next(s, Evict(key)))
  {
    RemovedSize(s.cache, key);
    var after := Next(s, Evict(key));
    forall i | 0 <= i < |after.tasks|
      ensures Harmless(after, after.tasks[i])
    {
      assert Harmless(s, s.tasks[i]);
    }
    assert after.tasks == s.tasks;
  }

  lemma StepInv(s: State, step: Step)
    requires Inv(s) && Enabled(s, step)
    ensures Inv(Next(s, step))
  {
    match step
    case By(i, op) =>
      ClaimsStep(s, i, op);
      SlotsStep(s, i, op);
      BoundedStep(s, i, op);
      forall j | 0 <= j < |s.tasks|
        ensures Harmless(Next(s, step), Next(s, step).tasks[j])
      {
        HarmlessStep(s, i, op, j);
      }
    case Evict(key) => EvictInv(s, key);
    case Tick => TickInv(s);
  }

  lemma TickInv(s: State)
    requires Inv(s)
    ensures Inv(Next(s, Tick))
  {
    var after := Next(s, Tick);
    forall i | 0 <= i < |after.tasks|
      ensures Harmless(after, after.tasks[i])
    {
      assert Harmless(s, s.tasks[i]);
    }
  }

  lemma {:induction false} RunInv(s: State, steps: seq<Step>)
    requires Inv(s) && Run(s, steps)
    ensures Inv(After(s, steps))
    decreases steps
  {
    if steps != [] {
      StepInv(s, steps[0]);
      RunInv(Next(s, steps[0]), steps[1..]);
    }
  }

  lemma InitInv(n: nat, ttl: nat)
    ensures Inv(Init(n, ttl))
  {
    SumZero(Slots(Init(n, ttl).tasks));
    SumZero(Pendings(Init(n, ttl).tasks));
  }

  // ---- every run -----------------------------------------------------------------------------------

  function Fetches(tasks: seq<Task>): seq<nat> {
    seq(|tasks|, i requires 0 <= i < |tasks| => if tasks[i].Fetching? then 1 else 0)
  }

  /**
   In every interleaving: the claims are exactly those of callers under way, one a key; no more
   fetches run than there are slots; and the cache outgrows its limit by fewer entries than that.
   */
  lemma RefreshBounded(n: nat, ttl: nat, steps: seq<Step>)
    requires Run(Init(n, ttl), steps)
    ensures var s := After(Init(n, ttl), steps);
            && ClaimsMatch(s.tasks, s.inflight)
            && Sum(Fetches(s.tasks)) <= MAX_CONCURRENT_FETCHES
            && |s.cache| < MAX_CACHE_ENTRIES + MAX_CONCURRENT_FETCHES
  {
    InitInv(n, ttl);
    RunInv(Init(n, ttl), steps);
    var s := After(Init(n, ttl), steps);
    SumAtMost(Fetches(s.tasks), Slots(s.tasks));
  }

  /** The step stores a limit the service gave for the key. */
  predicate Stores(s: State, step: Step, key: Key) {
    step.By? && step.i < |s.tasks| && step.op.Insert? && s.tasks[step.i].Inserting? &&
    s.tasks[step.i].key == key && s.tasks[step.i].found
  }

  ghost predicate NoneStored(s: State, steps: seq<Step>, key: Key)
    requires Run(s, steps)
    decreases steps
  {
    steps == [] || (!Stores(s, steps[0], key) && steps[0] != Evict(key) && NoneStored(Next(s, steps[0]), steps[1..], key))
  }

  /** A step changes what a request is told of a cached key only by evicting it or storing an answer for it. */
  lemma StepKeeps(s: State, step: Step, key: Key)
    requires Inv(s) && Enabled(s, step) && key in s.cache
    requires !Stores(s, step, key) && step != Evict(key)
    ensures key in Next(s, step).cache && Told(Next(s, step), key) == Told(s, key)
  {
    match step
    case By(i, op) =>
      assert Harmless(s, s.tasks[i]);
    case Evict(_) =>
    case Tick =>
  }

  /**
   After any run, through any number of failed fetches, evictions of other keys and answers about
   them, a cached key keeps telling its last answer.
   */
  lemma {:induction false} LastAnswerKept(s: State, steps: seq<Step>, key: Key)
    requires Inv(s) && Run(s, steps) && key in s.cache && NoneStored(s, steps, key)
    ensures key in After(s, steps).cache && Told(After(s, steps), key) == Told(s, key)
    decreases steps
  {
    if steps != [] {
      StepKeeps(s, steps[0], key);
      StepInv(s, steps[0]);
      LastAnswerKept(Next(s, steps[0]), steps[1..], key);
    }
  }

  lemma FailStatic(n: nat, ttl: nat, steps: seq<Step>, more: seq<Step>, key: Key)
    requires Run(Init(n, ttl), steps) && Run(After(Init(n, ttl), steps), more)
    requires key in After(Init(n, ttl), steps).cache && NoneStored(After(Init(n, ttl), steps), more, key)
    ensures var s := After(Init(n, ttl), steps);
            key in After(s, more).cache && Told(After(s, more), key) == Told(s, key)
  {
    InitInv(n, ttl);
    RunInv(Init(n, ttl), steps);
    LastAnswerKept(After(Init(n, ttl), steps), more, key);
  }

  // ---- retries during an outage --------------------------------------------------------------------

  /** What a task is about to store is not older than what is there, nor newer than now. */
  predicate Recent(s: State, t: Task) {
    t.Storing? || t.Inserting? ==> t.cached.at <= s.now && (t.key in s.cache ==> s.cache[t.key].at <= t.cached.at)
  }

  ghost predicate Aged(s: State) {
    && (forall key :: key in s.cache ==> s.cache[key].at <= s.now)
    && forall i :: 0 <= i < |s.tasks| ==> Recent(s, s.tasks[i])
  }

  /** A task's step makes no entry older, and touches the age only of a key it has claimed. */
  lemma AgeStep(s: State, i: Id, op: Op, key: Key)
    requires Aged(s) && Enabled(s, By(i, op)) && key in Next(s, By(i, op)).cache
    ensures var g := Next(s, By(i, op));
            && g.cache[key].at <= s.now
            && (key in s.cache ==> s.cache[key].at <= g.cache[key].at)
            && (Claims(s.tasks[i], key) || (key in s.cache && g.cache[key].at == s.cache[key].at))
  {
    assert Recent(s, s.tasks[i]);
  }

  lemma RecentStep(s: State, i: Id, op: Op, j: Id)
    requires Inv(s) && Aged(s) && Enabled(s, By(i, op)) && j < |s.tasks|
    ensures Recent(Next(s, By(i, op)), Next(s, By(i, op)).tasks[j])
  {
    var t, g := s.tasks[j], Next(s, By(i, op));
    assert Recent(s, t) && Recent(s, s.tasks[i]);
    if j != i && (t.Storing? || t.Inserting?) && t.key in g.cache {
      AgeStep(s, i, op, t.key);
      assert Claims(t, t.key);
      assert !Claims(s.tasks[i], t.key);
    }
  }

  lemma AgedStep(s: State, step: Step)
    requires Inv(s) && Aged(s) && Enabled(s, step)
    ensures Aged(Next(s, step))
  {
    var g := Next(s, step);
    forall j | 0 <= j < |g.tasks|
      ensures Recent(g, g.tasks[j])
    {
      if step.By? {
        RecentStep(s, step.i, step.op, j);
      } else {
        assert Recent(s, s.tasks[j]);
      }
    }
    forall key | key in g.cache
      ensures g.cache[key].at <= g.now
    {
      if step.By? {
        AgeStep(s, step.i, step.op, key);
      }
    }
  }

  lemma {:induction false} AgeNeverFalls(s: State, steps: seq<Step>, key: Key)
    requires Inv(s) && Aged(s) && Run(s, steps) && key in s.cache && Evict(key) !in steps
    ensures key in After(s, steps).cache && s.cache[key].at <= After(s, steps).cache[key].at
    ensures After(s, steps).ttl == s.ttl
    decreases steps
  {
    if steps != [] {
      if steps[0].By? && key in Next(s, steps[0]).cache {
        AgeStep(s, steps[0].i, steps[0].op, key);
      }
      AgedStep(s, steps[0]);
      StepInv(s, steps[0]);
      AgeNeverFalls(Next(s, steps[0]), steps[1..], key);
    }
  }

  lemma {:induction false} RunAged(s: State, steps: seq<Step>)
    requires Inv(s) && Aged(s) && Run(s, steps)
    ensures Inv(After(s, steps)) && Aged(After(s, steps)) && After(s, steps).ttl == s.ttl
    decreases steps
  {
    if steps != [] {
      AgedStep(s, steps[0]);
      StepInv(s, steps[0]);
      RunAged(Next(s, steps[0]), steps[1..]);
    }
  }

  /**
   A failed fetch of a cached key holds off the next: whatever else happens, until the key is evicted
   or the time to live has passed again, no request for it asks for a refresh.
   */
  lemma FailureThrottles(n: nat, ttl: nat, steps: seq<Step>, i: Id, more: seq<Step>, j: Id)
    requires Run(Init(n, ttl), steps)
    requires var s := After(Init(n, ttl), steps);
             && Enabled(s, By(i, Fail)) && s.tasks[i].key in s.cache
             && Run(Next(s, By(i, Fail)), more) && Evict(s.tasks[i].key) !in more
             && var g := After(Next(s, By(i, Fail)), more);
                j < |g.tasks| && g.tasks[j].Idle? && g.now < s.now + ttl
    ensures var s := After(Init(n, ttl), steps);
            var g := After(Next(s, By(i, Fail)), more);
            Next(g, By(j, Resolve(s.tasks[i].key))).tasks[j].Idle?
  {
    InitInv(n, ttl);
    RunAged(Init(n, ttl), steps);
    var s := After(Init(n, ttl), steps);
    AgedStep(s, By(i, Fail));
    StepInv(s, By(i, Fail));
    AgeNeverFalls(Next(s, By(i, Fail)), more, s.tasks[i].key);
  }

  /** The caller has found the key stale and is about to ask for its refresh. */
  function Waits(t: Task, key: Key): nat {
    if t == Wants(key) then 1 else 0
  }

  function WaitsOf(tasks: seq<Task>, key: Key): seq<nat> {
    seq(|tasks|, i requires 0 <= i < |tasks| => Waits(tasks[i], key))
  }

  /** The step claims the key for a fetch. */
  function Claiming(s: State, step: Step, key: Key): nat
    requires Enabled(s, step)
  {
    if step.By? && step.op.Claim? && s.tasks[step.i].key == key && key !in s.inflight then 1 else 0
  }

  function Claimings(s: State, steps: seq<Step>, key: Key): nat
    requires Run(s, steps)
    decreases steps
  {
    if steps == [] then 0 else Claiming(s, steps[0], key) + Claimings(Next(s, steps[0]), steps[1..], key)
  }

  /** While the key is fresh no caller comes to wait for it, and each claim takes one that waits. */
  lemma WaitsStep(s: State, i: Id, op: Op, key: Key)
    requires Enabled(s, By(i, op)) && key in s.cache && s.now < s.cache[key].at + s.ttl
    ensures var t := Do(s, s.tasks[i], op).0;
            Waits(t, key) + Claiming(s, By(i, op), key) <= Waits(s.tasks[i], key)
  {
  }

  lemma WaitsFall(s: State, step: Step, key: Key)
    requires Enabled(s, step) && key in s.cache && s.now < s.cache[key].at + s.ttl
    ensures Sum(WaitsOf(Next(s, step).tasks, key)) + Claiming(s, step, key) <= Sum(WaitsOf(s.tasks, key))
  {
    if step.By? {
      var t := Do(s, s.tasks[step.i], step.op).0;
      WaitsStep(s, step.i, step.op, key);
      assert WaitsOf(s.tasks[step.i := t], key) == WaitsOf(s.tasks, key)[step.i := Waits(t, key)];
      SumUpdate(WaitsOf(s.tasks, key), step.i, Waits(t, key));
    }
  }

  lemma {:induction false} NowAdvances(s: State, steps: seq<Step>)
    requires Run(s, steps)
    ensures s.now <= After(s, steps).now
    decreases steps
  {
    if steps != [] {
      NowAdvances(Next(s, steps[0]), steps[1..]);
    }
  }

  lemma {:induction false} ClaimsWhileFresh(s: State, steps: seq<Step>, key: Key, from: nat)
    requires Inv(s) && Aged(s) && Run(s, steps) && key in s.cache && Evict(key) !in steps
    requires from <= s.cache[key].at && After(s, steps).now < from + s.ttl
    ensures Claimings(s, steps, key) + Sum(WaitsOf(After(s, steps).tasks, key)) <= Sum(WaitsOf(s.tasks, key))
    decreases steps
  {
    if steps != [] {
      var step, next := steps[0], Next(s, steps[0]);
      NowAdvances(s, steps);
      WaitsFall(s, step, key);
      AgeNeverFalls(s, [step], key);
      assert After(s, [step]) == next;
      AgedStep(s, step);
      StepInv(s, step);
      ClaimsWhileFresh(next, steps[1..], key, from);
    }
  }

  /**
   The fetches a failure does not hold off are those of callers that had found the key stale before it:
   until the time to live has passed again or the key is evicted, no more claims of the key than that.
   */
  lemma FetchesAfterFailure(n: nat, ttl: nat, steps: seq<Step>, i: Id, more: seq<Step>)
    requires Run(Init(n, ttl), steps)
    requires var s := After(Init(n, ttl), steps);
             && Enabled(s, By(i, Fail)) && s.tasks[i].key in s.cache
             && Run(Next(s, By(i, Fail)), more) && Evict(s.tasks[i].key) !in more
             && After(Next(s, By(i, Fail)), more).now < s.now + ttl
    ensures var s := After(Init(n, ttl), steps);
            Claimings(Next(s, By(i, Fail)), more, s.tasks[i].key) <= Sum(WaitsOf(s.tasks, s.tasks[i].key))
  {
    InitInv(n, ttl);
    RunAged(Init(n, ttl), steps);
    var s := After(Init(n, ttl), steps);
    var key, next := s.tasks[i].key, Next(s, By(i, Fail));
    AgedStep(s, By(i, Fail));
    StepInv(s, By(i, Fail));
    assert WaitsOf(next.tasks, key) == WaitsOf(s.tasks, key);
    ClaimsWhileFresh(next, more, key, s.now);
  }
}
