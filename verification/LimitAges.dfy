/**
 How long the limit service's cache (src/shield/resolve.rs) remembers a failed fetch of a new key, and
 the last use of a key, whatever else callers and fetches do meanwhile.
 */
module LimitAges {
  import opened Basics
  import opened LimitRefresh

  // ---- a key that was never cached -----------------------------------------------------------------

  /** There is an entry of the time `at` to store for the key. */
  predicate Marking(t: Task, key: Key, at: nat) {
    (t.Storing? || t.Inserting?) && t.key == key && t.cached.at == at
  }

  lemma {:induction false} MarkingKept(s: State, steps: seq<Step>, i: Id, key: Key, at: nat)
    requires Run(s, steps) && i < |s.tasks| && Marking(s.tasks[i], key, at) && By(i, Insert) !in steps
    ensures i < |After(s, steps).tasks| && Marking(After(s, steps).tasks[i], key, at)
    decreases steps
  {
    if steps != [] {
      MarkingKept(Next(s, steps[0]), steps[1..], i, key, at);
    }
  }

  /**
   A failed fetch of a key that is not cached is remembered too, if there was room: once stored, and
   until the key is evicted or the time to live has passed since the failure, no request asks again.
   */
  lemma NewKeyThrottles(n: nat, ttl: nat, steps: seq<Step>, i: Id, more: seq<Step>, rest: seq<Step>, j: Id)
    requires Run(Init(n, ttl), steps)
    requires var s := After(Init(n, ttl), steps);
             && Enabled(s, By(i, Fail)) && s.tasks[i].key !in s.cache
             && Run(Next(s, By(i, Fail)), more) && By(i, Insert) !in more
             && var g := After(Next(s, By(i, Fail)), more);
                && Enabled(g, By(i, Insert)) && !g.tasks[i].full
                && Run(Next(g, By(i, Insert)), rest) && Evict(s.tasks[i].key) !in rest
                && var h := After(Next(g, By(i, Insert)), rest);
                   j < |h.tasks| && h.tasks[j].Idle? && h.now < s.now + ttl
    ensures var s := After(Init(n, ttl), steps);
            var g := After(Next(s, By(i, Fail)), more);
            var h := After(Next(g, By(i, Insert)), rest);
            Next(h, By(j, Resolve(s.tasks[i].key))).tasks[j].Idle?
  {
    InitInv(n, ttl);
    RunAged(Init(n, ttl), steps);
    var s := After(Init(n, ttl), steps);
    var failed := Next(s, By(i, Fail));
    AgedStep(s, By(i, Fail));
    StepInv(s, By(i, Fail));
    MarkingKept(failed, more, i, s.tasks[i].key, s.now);
    RunAged(failed, more);
    var g := After(failed, more);
    AgedStep(g, By(i, Insert));
    StepInv(g, By(i, Insert));
    AgeNeverFalls(Next(g, By(i, Insert)), rest, s.tasks[i].key);
  }

  // ---- the last use of a key -----------------------------------------------------------------------

  /** There is an answer for the key to store that was read before `at`. */
  predicate Older(t: Task, key: Key, at: nat) {
    (t.Storing? || t.Inserting?) && t.key == key && t.cached.lastAccess < at
  }

  predicate OlderPending(s: State, key: Key, at: nat) {
    exists i :: 0 <= i < |s.tasks| && Older(s.tasks[i], key, at)
  }

  /** At the end of the run the key is known to have been used at `at` or later. */
  predicate UsedSince(s: State, steps: seq<Step>, key: Key, at: nat)
    requires Run(s, steps)
  {
    key in After(s, steps).cache && After(s, steps).cache[key].lastAccess >= at
  }

  lemma UseStep(s: State, step: Step, key: Key, at: nat)
    requires Enabled(s, step) && step != Evict(key) && at <= s.now
    requires key in s.cache && s.cache[key].lastAccess >= at && !OlderPending(s, key, at)
    ensures var g := Next(s, step);
            key in g.cache && g.cache[key].lastAccess >= at && !OlderPending(g, key, at) && at <= g.now
  {
    if step.By? {
      assert !Older(s.tasks[step.i], key, at);
    }
    var g := Next(s, step);
    forall k | 0 <= k < |g.tasks|
      ensures !Older(g.tasks[k], key, at)
    {
      assert !Older(s.tasks[k], key, at);
    }
  }

  lemma {:induction false} UseKept(s: State, steps: seq<Step>, key: Key, at: nat)
    requires Run(s, steps) && Evict(key) !in steps && at <= s.now
    requires key in s.cache && s.cache[key].lastAccess >= at && !OlderPending(s, key, at)
    ensures UsedSince(s, steps, key, at)
    decreases steps
  {
    if steps != [] {
      UseStep(s, steps[0], key, at);
      UseKept(Next(s, steps[0]), steps[1..], key, at);
    }
  }

  lemma StoredOlder(s: State, i: Id, key: Key, at: nat)
    requires key in s.cache && i < |s.tasks| && s.tasks[i].Inserting? && Older(s.tasks[i], key, at)
    ensures Run(s, [By(i, Insert)]) && !UsedSince(s, [By(i, Insert)], key, at)
  {
    var steps := [By(i, Insert)];
    assert steps[1..] == [] && After(s, steps) == Next(s, By(i, Insert));
  }

  /** An answer read before the use and stored after it puts the older time back. */
  lemma UseLost(s: State, key: Key, at: nat) returns (steps: seq<Step>)
    requires key in s.cache && OlderPending(s, key, at)
    ensures Run(s, steps) && Evict(key) !in steps && !UsedSince(s, steps, key, at)
  {
    var i :| 0 <= i < |s.tasks| && Older(s.tasks[i], key, at);
    var stored := [By(i, Insert)];
    if s.tasks[i].Inserting? {
      StoredOlder(s, i, key, at);
      steps := stored;
    } else {
      StoredOlder(Next(s, By(i, ReadSize)), i, key, at);
      steps := [By(i, ReadSize)] + stored;
      assert steps[1..] == stored;
    }
  }

  /**
   A request that reads a cached key counts as a use of it, in every run until it is evicted, exactly
   if no fetch had then read an answer for the key and not yet stored it.
   */
  lemma UseRememberedIff(s: State, i: Id, key: Key)
    requires Enabled(s, By(i, Resolve(key))) && key in s.cache
    ensures var t := Next(s, By(i, Resolve(key)));
            (forall more :: Run(t, more) && Evict(key) !in more ==> UsedSince(t, more, key, s.now))
            <==> !OlderPending(s, key, s.now)
  {
    var t := Next(s, By(i, Resolve(key)));
    assert forall k :: 0 <= k < |s.tasks| ==> Older(t.tasks[k], key, s.now) == Older(s.tasks[k], key, s.now);
    if OlderPending(s, key, s.now) {
      assert OlderPending(t, key, s.now);
      var more := UseLost(t, key, s.now);
    } else {
      forall more | Run(t, more) && Evict(key) !in more
        ensures UsedSince(t, more, key, s.now)
      {
        UseKept(t, more, key, s.now);
      }
    }
  }
}
