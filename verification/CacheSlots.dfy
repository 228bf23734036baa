/**
 The slots of the claims cache under concurrency (src/auth/cache.rs): any number of callers run
 `get` and `insert` at once, each atomic operation on the map or on a counter one step.
 */
module CacheSlots {
  import opened Basics
  import opened ClaimsCache

  /** Where a caller is, with what it has read. */
  datatype Caller =
    | Idle
    | SawDead(key: TokenKey, now: Now)                           // in `get`, before `remove_if`
    | Storing(key: TokenKey, entry: Entry, now: Now)             // in `insert`, before `reserve`
    | Full(key: TokenKey, entry: Entry, now: Now)                // no slot: before `claim_sweep`
    | Sweeping(key: TokenKey, entry: Entry, now: Now, freed: nat)
    | Swept(key: TokenKey, entry: Entry)                         // before the second `reserve`
    | Reserved(key: TokenKey, entry: Entry)                      // holds a slot it has not filled
    | Owing                                                      // took an entry out: a slot to give back

  datatype Shared = Shared(
    max: nat, ttl: nat, entries: map<TokenKey, Entry>, taken: nat, nextSweep: nat,
    sweeps: seq<nat>,       // the seconds at which sweeps were claimed, in order
    callers: seq<Caller>)

  datatype Op =
    | Look(key: TokenKey, now: Now)
    | RemoveDead
    | GiveBack
    | Start(key: TokenKey, claims: Claims, now: Now)
    | Reserve
    | ClaimSweep
    | SweepOne(victim: TokenKey)
    | EndSweep
    | Store

  predicate Can(s: Shared, c: Caller, op: Op) {
    match op
    case Look(_, _) | Start(_, _, _) => c.Idle?
    case RemoveDead => c.SawDead?
    case GiveBack => c.Owing? && s.taken >= 1
    case Reserve => c.Storing? || c.Swept?
    case ClaimSweep => c.Full?
    case SweepOne(victim) => c.Sweeping? && victim in s.entries && !s.entries[victim].Live(c.now)
    case EndSweep => c.Sweeping? && s.taken >= c.freed
    case Store => c.Reserved?
  }

  /** The caller after its step, and the shared state its step leaves. */
  function Do(s: Shared, c: Caller, op: Op): (Caller, Shared)
    requires Can(s, c, op)
  {
    match op
    case Look(key, now) =>
      (if key in s.entries && !s.entries[key].Live(now) then SawDead(key, now) else Idle, s)
    case RemoveDead =>
      if c.key in s.entries && !s.entries[c.key].Live(c.now)
      then (Owing, s.(entries := s.entries - {c.key})) else (Idle, s)
    case GiveBack => (Idle, s.(taken := s.taken - 1))
    case Start(key, claims, now) =>
      var entry := EntryFor(claims, now, s.ttl);
      (if entry.None? then Idle else Storing(key, entry.value, now), s)
    case Reserve =>
      if s.taken < s.max then (Reserved(c.key, c.entry), s.(taken := s.taken + 1))
      else (if c.Storing? then Full(c.key, c.entry, c.now) else Idle, s)
    case ClaimSweep =>
      if c.now.mono >= s.nextSweep
      then (Sweeping(c.key, c.entry, c.now, 0), s.(nextSweep := c.now.mono + 1, sweeps := s.sweeps + [c.now.mono]))
      else (Idle, s)
    case SweepOne(victim) => (c.(freed := c.freed + 1), s.(entries := s.entries - {victim}))
    case EndSweep => (Swept(c.key, c.entry), s.(taken := s.taken - c.freed))
    case Store =>
      (if c.key in s.entries then Owing else Idle, s.(entries := s.entries[c.key := c.entry]))
  }

  datatype Step = Step(i: Id, op: Op)

  predicate Enabled(s: Shared, step: Step) {
    step.i < |s.callers| && Can(s, s.callers[step.i], step.op)
  }

  function Next(s: Shared, step: Step): Shared
    requires Enabled(s, step)
  {
    var r := Do(s, s.callers[step.i], step.op);
    r.1.(callers := s.callers[step.i := r.0])
  }

  predicate Run(s: Shared, steps: seq<Step>)
    decreases steps
  {
    steps == [] || (Enabled(s, steps[0]) && Run(Next(s, steps[0]), steps[1..]))
  }

  function After(s: Shared, steps: seq<Step>): Shared
    requires Run(s, steps)
    decreases steps
  {
    if steps == [] then s else After(Next(s, steps[0]), steps[1..])
  }

  function Init(n: nat, max: nat, ttl: nat): Shared {
    Shared(max, ttl, map[], 0, 0, [], seq(n, _ => Idle))
  }

  // ---- the account of slots ------------------------------------------------------------------------

  /** Slots a caller answers for that hold no entry: reserved, or emptied and not yet given back. */
  function Owed(c: Caller): nat {
    match c
    case Reserved(_, _) => 1
    case Owing => 1
    case Sweeping(_, _, _, freed) => freed
    case _ => 0
  }

  function OwedBy(callers: seq<Caller>): seq<nat> {
    seq(|callers|, i requires 0 <= i < |callers| => Owed(callers[i]))
  }

  predicate Increasing(xs: seq<nat>) {
    forall i, j :: 0 <= i < j < |xs| ==> xs[i] < xs[j]
  }

  predicate Inv(s: Shared) {
    && s.taken == |s.entries| + Sum(OwedBy(s.callers))
    && s.taken <= s.max
    && Increasing(s.sweeps)
    && forall t :: t in s.sweeps ==> t < s.nextSweep
  }

  /** A step changes the entries and the slots taken by exactly what its caller comes to owe. */
  predicate Balances(s: Shared, c: Caller, op: Op)
    requires Can(s, c, op)
  {
    var r := Do(s, c, op);
    r.1.taken + |s.entries| + Owed(c) == s.taken + |r.1.entries| + Owed(r.0)
  }

  lemma RemoveBalances(s: Shared, c: Caller)
    requires Can(s, c, RemoveDead)
    ensures Balances(s, c, RemoveDead)
  {
    if c.key in s.entries {
      RemovedSize(s.entries, c.key);
    }
  }

  lemma StoreBalances(s: Shared, c: Caller)
    requires Can(s, c, Store)
    ensures Balances(s, c, Store)
  {
    AddedSize(s.entries, c.key, c.entry);
  }

  lemma SweepOneBalances(s: Shared, c: Caller, victim: TokenKey)
    requires Can(s, c, SweepOne(victim))
    ensures Balances(s, c, SweepOne(victim))
  {
    RemovedSize(s.entries, victim);
  }

  /** The steps that leave the entries alone. */
  lemma CounterBalances(s: Shared, c: Caller, op: Op)
    requires Can(s, c, op) && (op.GiveBack? || op.Reserve? || op.EndSweep?)
    ensures Balances(s, c, op)
  {
  }

  lemma QuietBalances(s: Shared, c: Caller, op: Op)
    requires Can(s, c, op) && (op.Look? || op.Start? || op.ClaimSweep?)
    ensures Balances(s, c, op)
  {
  }

  lemma DoBalances(s: Shared, c: Caller, op: Op)
    requires Can(s, c, op)
    ensures Balances(s, c, op)
  {
    match op
    case RemoveDead => RemoveBalances(s, c);
    case SweepOne(victim) => SweepOneBalances(s, c, victim);
    case Store => StoreBalances(s, c);
    case GiveBack => CounterBalances(s, c, op);
    case Reserve => CounterBalances(s, c, op);
    case EndSweep => CounterBalances(s, c, op);
    case Look(_, _) => QuietBalances(s, c, op);
    case Start(_, _, _) => QuietBalances(s, c, op);
    case ClaimSweep => QuietBalances(s, c, op);
  }

  /** Sweeps are claimed at later and later seconds, and slots are only taken under the cap. */
  lemma DoKeepsOrder(s: Shared, c: Caller, op: Op)
    requires Can(s, c, op)
    requires s.taken <= s.max && Increasing(s.sweeps) && forall t :: t in s.sweeps ==> t < s.nextSweep
    ensures var r := Do(s, c, op).1;
            r.taken <= r.max && Increasing(r.sweeps) && forall t :: t in r.sweeps ==> t < r.nextSweep
  {
    if op.ClaimSweep? && c.now.mono >= s.nextSweep {
      assert forall i :: 0 <= i < |s.sweeps| ==> s.sweeps[i] in s.sweeps;
    }
  }

  lemma StepInv(s: Shared, step: Step)
    requires Enabled(s, step)
    requires Inv(s)
    ensures Inv(Next(s, step))
  {
    var c, r := s.callers[step.i], Do(s, s.callers[step.i], step.op);
    DoBalances(s, c, step.op);
    DoKeepsOrder(s, c, step.op);
    assert OwedBy(s.callers[step.i := r.0]) == OwedBy(s.callers)[step.i := Owed(r.0)];
    SumUpdate(OwedBy(s.callers), step.i, Owed(r.0));
  }

  /** A caller that has to give slots back can: the counter never goes below zero. */
  lemma GiveBackNeverUnderflows(s: Shared, i: Id)
    requires Inv(s) && i < |s.callers|
    ensures Owed(s.callers[i]) <= s.taken
  {
    SumTerm(OwedBy(s.callers), i);
  }

  lemma {:induction false} RunInv(s: Shared, steps: seq<Step>)
    requires Run(s, steps)
    requires Inv(s)
    ensures Inv(After(s, steps))
    decreases steps
  {
    if steps != [] {
      StepInv(s, steps[0]);
      RunInv(Next(s, steps[0]), steps[1..]);
    }
  }

  /**
   In every interleaving of any number of callers: slots taken are the entries, the reservations
   and the removals not yet given back; the cap holds for both; with every caller idle no slot has
   leaked; no release underflows; and no two sweeps are claimed for the same second.
   */
  lemma SlotsAccountedFor(n: nat, max: nat, ttl: nat, steps: seq<Step>)
    requires Run(Init(n, max, ttl), steps)
    ensures var s := After(Init(n, max, ttl), steps);
            && s.taken == |s.entries| + Sum(OwedBy(s.callers))
            && |s.entries| <= s.taken <= s.max
            && ((forall c :: c in s.callers ==> c.Idle?) ==> s.taken == |s.entries|)
            && (forall i :: 0 <= i < |s.callers| ==> Owed(s.callers[i]) <= s.taken)
            && Increasing(s.sweeps)
  {
    var s0 := Init(n, max, ttl);
    SumZero(OwedBy(s0.callers));
    RunInv(s0, steps);
    var s := After(s0, steps);
    if forall c :: c in s.callers ==> c.Idle? {
      SumZero(OwedBy(s.callers));
    }
    forall i | 0 <= i < |s.callers|
      ensures Owed(s.callers[i]) <= s.taken
    {
      GiveBackNeverUnderflows(s, i);
    }
  }

  /**
   What a step does to the entry of a key: nothing; takes it out, dead at the caller's own reading; or
   puts in what the caller brought for that key.
   */
  lemma EntryChanges(s: Shared, step: Step, key: TokenKey)
    requires Enabled(s, step)
    ensures var c, after := s.callers[step.i], Next(s, step).entries;
            || ((key in after <==> key in s.entries) && (key in s.entries ==> after[key] == s.entries[key]))
            || (&& key in s.entries && key !in after && (c.SawDead? || c.Sweeping?)
                && !(c.now.unix < s.entries[key].exp && c.now.mono < s.entries[key].deadline))
            || (key in after && c == Reserved(key, after[key]))
  {
  }

  /** What a caller brings is the token's `exp`, and the most it may live from the reading. */
  lemma BroughtEntry(s: Shared, i: Id, key: TokenKey, claims: Claims, now: Now)
    requires Enabled(s, Step(i, Start(key, claims, now))) && now.mono + s.ttl <= U64_MAX
    ensures var c := Next(s, Step(i, Start(key, claims, now))).callers[i];
            if claims.exp.Some? && now.unix < claims.exp.value && (claims.nbf.None? || claims.nbf.value <= now.unix)
            then c == Storing(key, Entry(claims, claims.exp.value, now.mono + s.ttl), now) else c == Idle
  {
  }

  // ---- a caller that nobody interrupts -------------------------------------------------------------

  predicate OnlyBy(steps: seq<Step>, i: Id) {
    forall k :: 0 <= k < |steps| ==> steps[k].i == i
  }

  lemma First(s: Shared, step: Step, rest: seq<Step>)
    requires Enabled(s, step) && Run(Next(s, step), rest)
    ensures Run(s, [step] + rest) && After(s, [step] + rest) == After(Next(s, step), rest)
  {
    assert ([step] + rest)[1..] == rest;
  }

  lemma {:induction false} RunOn(s: Shared, steps: seq<Step>, more: seq<Step>)
    requires Run(s, steps) && Run(After(s, steps), more)
    ensures Run(s, steps + more) && After(s, steps + more) == After(After(s, steps), more)
    decreases steps
  {
    if steps == [] {
      assert steps + more == more;
    } else {
      RunOn(Next(s, steps[0]), steps[1..], more);
      assert (steps + more)[1..] == steps[1..] + more;
    }
  }

  /** A slot to spare is given back. */
  lemma GiveBackAlone(s: Shared, i: Id) returns (steps: seq<Step>)
    requires i < |s.callers| && (s.callers[i].Idle? || s.callers[i].Owing?)
    requires s.taken == |s.entries| + Owed(s.callers[i])
    ensures Run(s, steps) && OnlyBy(steps, i)
    ensures After(s, steps) == s.(taken := |s.entries|, callers := s.callers[i := Idle])
  {
    if s.callers[i].Owing? {
      steps := [Step(i, GiveBack)];
      First(s, steps[0], []);
    } else {
      steps := [];
      assert s.callers[i := Idle] == s.callers;
    }
  }

  lemma StoreAlone(s: Shared, i: Id) returns (steps: seq<Step>)
    requires i < |s.callers| && s.callers[i].Reserved? && s.taken == |s.entries| + 1
    ensures Run(s, steps) && OnlyBy(steps, i)
    ensures var c := s.callers[i];
            var after := s.entries[c.key := c.entry];
            After(s, steps) == s.(entries := after, taken := |after|, callers := s.callers[i := Idle])
  {
    var c := s.callers[i];
    AddedSize(s.entries, c.key, c.entry);
    var rest := GiveBackAlone(Next(s, Step(i, Store)), i);
    First(s, Step(i, Store), rest);
    steps := [Step(i, Store)] + rest;
  }

  /** A free slot is taken and filled. */
  lemma TakeAlone(s: Shared, i: Id) returns (steps: seq<Step>)
    requires i < |s.callers| && (s.callers[i].Storing? || s.callers[i].Swept?)
    requires s.taken == |s.entries| < s.max
    ensures Run(s, steps) && OnlyBy(steps, i)
    ensures var c := s.callers[i];
            var after := s.entries[c.key := c.entry];
            After(s, steps) == s.(entries := after, taken := |after|, callers := s.callers[i := Idle])
  {
    var rest := StoreAlone(Next(s, Step(i, Reserve)), i);
    First(s, Step(i, Reserve), rest);
    steps := [Step(i, Reserve)] + rest;
  }

  lemma DeadOneLess(entries: map<TokenKey, Entry>, victim: TokenKey, now: Now)
    requires victim in entries && !entries[victim].Live(now)
    ensures LiveOnly(entries - {victim}, now) == LiveOnly(entries, now) && |entries - {victim}| == |entries| - 1
  {
    RemovedSize(entries, victim);
  }

  /** A sweep drops the dead entries, whichever it meets first. */
  lemma {:induction false} SweepAlone(s: Shared, i: Id) returns (steps: seq<Step>)
    requires i < |s.callers| && s.callers[i].Sweeping? && s.taken == |s.entries| + s.callers[i].freed
    ensures Run(s, steps) && OnlyBy(steps, i)
    ensures i < |After(s, steps).callers| && After(s, steps).callers[i].Sweeping?
    ensures var c := After(s, steps).callers[i];
            After(s, steps) == s.(entries := LiveOnly(s.entries, s.callers[i].now), callers := s.callers[i := c]) &&
            c == s.callers[i].(freed := c.freed) && s.taken == |After(s, steps).entries| + c.freed
    decreases |s.entries|
  {
    var c := s.callers[i];
    if victim :| victim in s.entries && !s.entries[victim].Live(c.now) {
      DeadOneLess(s.entries, victim, c.now);
      var rest := SweepAlone(Next(s, Step(i, SweepOne(victim))), i);
      First(s, Step(i, SweepOne(victim)), rest);
      steps := [Step(i, SweepOne(victim))] + rest;
    } else {
      assert LiveOnly(s.entries, c.now) == s.entries;
      assert s.callers[i := c] == s.callers;
      steps := [];
    }
  }

  /** After a sweep the slot is tried for once more. */
  lemma RetryAlone(s: Shared, i: Id) returns (steps: seq<Step>)
    requires i < |s.callers| && s.callers[i].Swept? && s.taken == |s.entries| <= s.max
    ensures Run(s, steps) && OnlyBy(steps, i)
    ensures var c := s.callers[i];
            var after := if |s.entries| < s.max then s.entries[c.key := c.entry] else s.entries;
            After(s, steps) == s.(entries := after, taken := |after|, callers := s.callers[i := Idle])
  {
    if |s.entries| < s.max {
      steps := TakeAlone(s, i);
    } else {
      steps := [Step(i, Reserve)];
      First(s, steps[0], []);
    }
  }

  lemma SweepAndRetry(s: Shared, i: Id) returns (steps: seq<Step>)
    requires i < |s.callers| && s.callers[i].Sweeping? && s.callers[i].freed == 0 && s.taken == |s.entries| <= s.max
    ensures Run(s, steps) && OnlyBy(steps, i)
    ensures var c := s.callers[i];
            var live := LiveOnly(s.entries, c.now);
            var after := if |live| < s.max then live[c.key := c.entry] else live;
            After(s, steps) == s.(entries := after, taken := |after|, callers := s.callers[i := Idle])
  {
    var sweep := SweepAlone(s, i);
    var swept := After(s, sweep);
    var rest := RetryAlone(Next(swept, Step(i, EndSweep)), i);
    First(swept, Step(i, EndSweep), rest);
    RunOn(s, sweep, [Step(i, EndSweep)] + rest);
    steps := sweep + ([Step(i, EndSweep)] + rest);
  }

  /** With no slot free, the cache is swept, unless it has been this second. */
  lemma FullAlone(s: Shared, i: Id) returns (steps: seq<Step>)
    requires i < |s.callers| && s.callers[i].Full? && s.taken == |s.entries| <= s.max
    ensures Run(s, steps) && OnlyBy(steps, i)
    ensures var c, after := s.callers[i], After(s, steps);
            var live := LiveOnly(s.entries, c.now);
            && after.taken == |after.entries| && after.callers == s.callers[i := Idle]
            && if c.now.mono >= s.nextSweep
               then after.nextSweep == c.now.mono + 1
                    && after.entries == if |live| < s.max then live[c.key := c.entry] else live
               else after.nextSweep == s.nextSweep && after.entries == s.entries
  {
    var rest := [];
    if s.callers[i].now.mono >= s.nextSweep {
      rest := SweepAndRetry(Next(s, Step(i, ClaimSweep)), i);
    }
    First(s, Step(i, ClaimSweep), rest);
    steps := [Step(i, ClaimSweep)] + rest;
  }

  /** Storing claims with nobody in between does what the cache's `Insert` does. */
  lemma InsertAlone(s: Shared, i: Id, key: TokenKey, claims: Claims, now: Now) returns (steps: seq<Step>)
    requires i < |s.callers| && s.callers[i].Idle? && s.taken == |s.entries| <= s.max
    ensures Run(s, steps) && OnlyBy(steps, i)
    ensures var full, entry, after := |s.entries| >= s.max, EntryFor(claims, now, s.ttl), After(s, steps);
            var sweeps := entry.Some? && full && now.mono >= s.nextSweep;
            var base := if sweeps then LiveOnly(s.entries, now) else s.entries;
            && after.nextSweep == (if sweeps then now.mono + 1 else s.nextSweep)
            && after.entries == (if entry.Some? && |base| < s.max then base[key := entry.value] else base)
            && after.taken == |after.entries| && after.callers == s.callers
  {
    var begun := Next(s, Step(i, Start(key, claims, now)));
    var rest := [];
    if EntryFor(claims, now, s.ttl).Some? {
      if |s.entries| < s.max {
        rest := TakeAlone(begun, i);
      } else {
        var more := FullAlone(Next(begun, Step(i, Reserve)), i);
        First(begun, Step(i, Reserve), more);
        rest := [Step(i, Reserve)] + more;
      }
    }
    First(s, Step(i, Start(key, claims, now)), rest);
    steps := [Step(i, Start(key, claims, now))] + rest;
  }

  /** Looking a token up with nobody in between drops its entry exactly if it is dead, and with it the slot. */
  lemma LookAlone(s: Shared, i: Id, key: TokenKey, now: Now) returns (steps: seq<Step>)
    requires i < |s.callers| && s.callers[i].Idle? && s.taken == |s.entries|
    ensures Run(s, steps) && OnlyBy(steps, i)
    ensures var live := key in s.entries && now.unix < s.entries[key].exp && now.mono < s.entries[key].deadline;
            var after := if live then s.entries else s.entries - {key};
            After(s, steps) == s.(entries := after, taken := |after|)
  {
    var looked := Next(s, Step(i, Look(key, now)));
    var rest := [];
    if key in s.entries && !s.entries[key].Live(now) {
      DeadOneLess(s.entries, key, now);
      var more := GiveBackAlone(Next(looked, Step(i, RemoveDead)), i);
      First(looked, Step(i, RemoveDead), more);
      rest := [Step(i, RemoveDead)] + more;
    } else {
      assert key !in s.entries ==> s.entries - {key} == s.entries;
    }
    First(s, Step(i, Look(key, now)), rest);
    steps := [Step(i, Look(key, now))] + rest;
  }
}
