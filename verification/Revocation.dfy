/**
 How long a token outlives its key (src/auth/mod.rs, src/auth/cache.rs, src/auth/jwks.rs): callers
 verify tokens concurrently through the claims cache and the JWKS cache, fetches take time, may fail
 and end unanswered when the request that made them goes away, the wall clock is set at will. Instants
 are nanoseconds on the monotonic clock.
 */
module Revocation {
  import opened Basics
  import opened Window
  import opened ClaimsCache
  import opened Jwks

  type Token = string

  /** The world outside: what the provider serves when, and what a token is. */
  datatype World = World(
    served: nat -> Keys,                        // the usable keys of the JWKS at an instant
    kidOf: Token -> Option<Kid>,
    verifies: (VerifyingKey, Token) -> bool,    // signature and algorithm
    claimsOf: Token -> Claims,
    timeout: nat)                               // a fetch takes at most this long

  /** The key that verifies `token` is in the JWKS at `at`. */
  predicate Vouches(w: World, token: Token, at: nat) {
    var kid := w.kidOf(token);
    kid.Some? && kid.value in w.served(at) && w.verifies(w.served(at)[kid.value], token)
  }

  /** A cached verification: the entry, when the key was looked up, when its set was served, the Unix time read before. */
  datatype Cached = Cached(entry: Entry, at: nat, served: nat, unix: nat)

  datatype Caller =
    | Idle
    | Looking(token: Token, now: Now)               // not in the cache: before `key_for`
    | Fetching(token: Token, now: Now, start: nat)  // holds the refresh slot
    | Verified(token: Token, now: Now, at: nat, served: nat)

  /** How a token was accepted: at what Unix time, with what claims, and if from the cache, stored at what Unix time. */
  datatype Use = Use(unix: nat, claims: Claims, stored: Option<nat>)

  /** A token accepted, and when the set its key came from was served. */
  datatype Accept = Accept(token: Token, at: nat, served: nat, how: Use)

  datatype Auth = Auth(
    clock: nat,
    maxTtl: nat,
    keys: KeyCache,
    servedAt: nat,               // when the provider served the set in `keys`
    refreshing: Option<Id>,
    failures: set<nat>,          // when each failed refresh began
    abandoned: set<nat>,         // when each refresh began whose caller went away
    entries: map<Token, Cached>,
    callers: seq<Caller>,
    accepted: seq<Accept>)

  datatype Op =
    | Verify(token: Token, unix: nat)
    | AnswerYoung(valid: bool)
    | AnswerThrottled(valid: bool)
    | StartFetch
    | FetchOk(served: nat, valid: bool)
    | FetchFail(valid: bool)
    | Abandon                   // the client disconnects: the request is dropped where it waits
    | Insert(stored: bool)

  datatype Step = By(i: Id, op: Op) | Tick(later: nat) | Forget(token: Token)

  function Mono(clock: nat): nat {
    clock / NANOS_PER_SEC
  }

  predicate Hit(a: Auth, token: Token, unix: nat) {
    token in a.entries && a.entries[token].entry.Live(Now(unix, Mono(a.clock)))
  }

  predicate Can(w: World, a: Auth, i: Id, op: Op)
    requires i < |a.callers|
  {
    var c := a.callers[i];
    match op
    case Verify(_, _) => c.Idle?
    case AnswerYoung(_) =>
      c.Looking? && a.keys.Young(a.clock) && w.kidOf(c.token).Some? && w.kidOf(c.token).value in a.keys.keys
    case AnswerThrottled(_) => c.Looking? && a.refreshing.None? && a.keys.Throttled(a.clock)
    case StartFetch => c.Looking? && a.refreshing.None? && !a.keys.Throttled(a.clock)
    case FetchOk(served, _) => c.Fetching? && c.start <= served <= a.clock <= c.start + w.timeout
    case FetchFail(_) => c.Fetching? && a.clock <= c.start + w.timeout
    case Abandon => c.Looking? || c.Fetching?
    case Insert(_) => c.Verified?
  }

  /** `c` answered from the set in place: accepted when its key verifies the token and the claims hold. */
  function Answered(w: World, a: Auth, i: Id, c: Caller, valid: bool): Auth
    requires i < |a.callers|
    requires c.Looking? || c.Fetching?
  {
    var kid := w.kidOf(c.token);
    if valid && kid.Some? && kid.value in a.keys.keys && w.verifies(a.keys.keys[kid.value], c.token) then
      a.(callers := a.callers[i := Verified(c.token, c.now, a.clock, a.servedAt)],
         accepted := a.accepted + [Accept(c.token, a.clock, a.servedAt, Use(c.now.unix, w.claimsOf(c.token), None))])
    else
      a.(callers := a.callers[i := Idle])
  }

  function Do(w: World, a: Auth, i: Id, op: Op): Auth
    requires i < |a.callers| && Can(w, a, i, op)
  {
    var c := a.callers[i];
    match op
    case Verify(token, unix) =>
      if Hit(a, token, unix) then
        var e := a.entries[token];
        a.(accepted := a.accepted + [Accept(token, a.clock, e.served, Use(unix, e.entry.claims, Some(e.unix)))])
      else
        a.(callers := a.callers[i := Looking(token, Now(unix, Mono(a.clock)))])
    case AnswerYoung(valid) => Answered(w, a, i, c, valid)
    case AnswerThrottled(valid) => Answered(w, a, i, c, valid)
    case StartFetch =>
      a.(keys := a.keys.(lastRefresh := Some(a.clock)), refreshing := Some(i),
         callers := a.callers[i := Fetching(c.token, c.now, a.clock)])
    case FetchOk(served, valid) =>
      Answered(w, a.(keys := a.keys.Loaded(w.served(served), a.clock), servedAt := served, refreshing := None),
               i, c, valid)
    case FetchFail(valid) =>
      Answered(w, a.(failures := a.failures + {c.start}, refreshing := None), i, c, valid)
    // The refresh slot is let go, and its stamp stays.
    case Abandon =>
      if c.Looking? then a.(callers := a.callers[i := Idle])
      else a.(callers := a.callers[i := Idle], abandoned := a.abandoned + {c.start}, refreshing := None)
    case Insert(stored) =>
      var entry := EntryFor(w.claimsOf(c.token), c.now, a.maxTtl);
      a.(callers := a.callers[i := Idle],
         entries := if stored && entry.Some?
                    then a.entries[c.token := Cached(entry.value, c.at, c.served, c.now.unix)] else a.entries)
  }

  predicate Enabled(w: World, a: Auth, step: Step) {
    match step
    case By(i, op) => i < |a.callers| && Can(w, a, i, op)
    case Tick(later) => a.clock <= later
    case Forget(_) => true
  }

  function Next(w: World, a: Auth, step: Step): Auth
    requires Enabled(w, a, step)
  {
    match step
    case By(i, op) => Do(w, a, i, op)
    case Tick(later) => a.(clock := later)
    case Forget(token) => a.(entries := a.entries - {token})
  }

  predicate Run(w: World, a: Auth, steps: seq<Step>)
    decreases steps
  {
    steps == [] || (Enabled(w, a, steps[0]) && Run(w, Next(w, a, steps[0]), steps[1..]))
  }

  function After(w: World, a: Auth, steps: seq<Step>): Auth
    requires Run(w, a, steps)
    decreases steps
  {
    if steps == [] then a else After(w, Next(w, a, steps[0]), steps[1..])
  }

  function Init(n: nat, maxAge: nat, minInterval: nat, maxTtl: nat): Auth {
    Auth(0, maxTtl, KeyCache(maxAge, minInterval, map[], None, None), 0, None, {}, {}, map[], seq(n, _ => Idle), [])
  }

  // ---- what holds of every key looked up --------------------------------------------------------

  /** How long after a set is served a key can be answered from it: while it is young, or throttled. */
  function KeyBound(timeout: nat, maxAge: nat, minInterval: nat): nat {
    Max(Max(maxAge, 1) + timeout, minInterval) - 1
  }

  /** And how long a verification by that key can be reused. */
  function ReuseBound(maxTtl: nat): nat {
    Minus(maxTtl * NANOS_PER_SEC, 1)
  }

  function KeyBoundIn(w: World, a: Auth): nat {
    KeyBound(w.timeout, a.keys.maxAge, a.keys.minInterval)
  }

  /** When the refreshes began that brought no set: failed, or abandoned by their callers. */
  function Missed(a: Auth): set<nat> {
    a.failures + a.abandoned
  }

  /** Served at most `bound` before `at`, or a refresh that began in that time was missed. */
  predicate Timely(at: nat, served: nat, bound: nat, missed: set<nat>) {
    at <= served + bound || exists x :: x in missed && x <= at <= x + bound
  }

  /** The set in place was served to a refresh no older than the last, unless that one was missed. */
  predicate KeysSound(w: World, a: Auth) {
    && (a.keys.fetched.Some? ==>
          && a.keys.keys == w.served(a.servedAt)
          && a.servedAt <= a.keys.fetched.value <= a.clock
          && a.keys.fetched.value <= a.servedAt + w.timeout)
    && (a.keys.fetched.None? ==> a.keys.keys == map[])
    && (a.keys.lastRefresh.Some? ==> a.keys.lastRefresh.value <= a.clock)
    && (a.keys.lastRefresh.Some? && a.refreshing.None? ==>
          a.keys.lastRefresh.value in Missed(a) || a.keys.lastRefresh.value <= a.servedAt)
  }

  predicate CallerSound(w: World, a: Auth, i: Id, c: Caller) {
    match c
    case Idle => true
    case Looking(_, now) => now.mono * NANOS_PER_SEC <= a.clock
    case Fetching(_, now, start) =>
      && now.mono * NANOS_PER_SEC <= a.clock && a.refreshing == Some(i)
      && start <= a.clock && a.keys.lastRefresh == Some(start)
    case Verified(token, now, at, served) =>
      && now.mono * NANOS_PER_SEC <= at <= a.clock && Vouches(w, token, served)
      && Timely(at, served, KeyBoundIn(w, a), Missed(a))
  }

  predicate EntrySound(w: World, a: Auth, token: Token, e: Cached) {
    && Vouches(w, token, e.served)
    && Timely(e.at, e.served, KeyBoundIn(w, a), Missed(a))
    && e.at <= a.clock
    && e.entry.deadline * NANOS_PER_SEC <= e.at + a.maxTtl * NANOS_PER_SEC
  }

  function Bound(w: World, a: Auth): nat {
    KeyBoundIn(w, a) + ReuseBound(a.maxTtl)
  }

  predicate AcceptSound(w: World, a: Auth, x: Accept) {
    Vouches(w, x.token, x.served) && Timely(x.at, x.served, Bound(w, a), Missed(a))
  }

  predicate Inv(w: World, a: Auth) {
    && KeysSound(w, a)
    && (forall i :: 0 <= i < |a.callers| ==> CallerSound(w, a, i, a.callers[i]))
    && (forall token :: token in a.entries ==> EntrySound(w, a, token, a.entries[token]))
    && (forall x :: x in a.accepted ==> AcceptSound(w, a, x))
  }

  lemma LongerBound(at: nat, served: nat, bound: nat, more: nat, missed: set<nat>)
    requires Timely(at, served, bound, missed)
    ensures Timely(at, served, bound + more, missed)
  {
    if at > served + bound {
      var x :| x in missed && x <= at <= x + bound;
      assert x in missed && x <= at <= x + (bound + more);
    }
  }

  /** A cached verification is used for less than the maximum age past the key lookup. */
  lemma HitTimely(e: Cached, clock: nat, ttl: nat, bound: nat, missed: set<nat>)
    requires Timely(e.at, e.served, bound, missed)
    requires e.at <= clock
    requires Mono(clock) < e.entry.deadline
    requires e.entry.deadline * NANOS_PER_SEC <= e.at + ttl * NANOS_PER_SEC
    ensures Timely(clock, e.served, bound + ReuseBound(ttl), missed)
  {
    assert clock < e.entry.deadline * NANOS_PER_SEC;
    if e.at > e.served + bound {
      var x :| x in missed && x <= e.at <= x + bound;
      assert x in missed && x <= clock <= x + (bound + ReuseBound(ttl));
    }
  }

  // ---- every step keeps it ----------------------------------------------------------------------

  /** Time passes, missed refreshes pile up; the settings stay. */
  predicate Extends(a: Auth, b: Auth) {
    && a.clock <= b.clock && Missed(a) <= Missed(b) && a.maxTtl == b.maxTtl
    && a.keys.maxAge == b.keys.maxAge && a.keys.minInterval == b.keys.minInterval
  }

  lemma TimelyKeeps(at: nat, served: nat, bound: nat, missed: set<nat>, more: set<nat>)
    requires missed <= more
    requires Timely(at, served, bound, missed)
    ensures Timely(at, served, bound, more)
  {
  }

  lemma PastKeeps(w: World, a: Auth, b: Auth)
    requires Extends(a, b)
    requires forall token :: token in b.entries ==> token in a.entries && b.entries[token] == a.entries[token]
    requires forall token :: token in a.entries ==> EntrySound(w, a, token, a.entries[token])
    requires forall x :: x in a.accepted ==> AcceptSound(w, a, x)
    ensures forall token :: token in b.entries ==> EntrySound(w, b, token, b.entries[token])
    ensures forall x :: x in a.accepted ==> AcceptSound(w, b, x)
  {
    forall token | token in b.entries
      ensures EntrySound(w, b, token, b.entries[token])
    {
      var e := a.entries[token];
      TimelyKeeps(e.at, e.served, KeyBoundIn(w, a), Missed(a), Missed(b));
    }
    forall x | x in a.accepted
      ensures AcceptSound(w, b, x)
    {
      TimelyKeeps(x.at, x.served, Bound(w, a), Missed(a), Missed(b));
    }
  }

  lemma CallerKeeps(w: World, a: Auth, b: Auth, i: Id, c: Caller)
    requires Extends(a, b)
    requires CallerSound(w, a, i, c)
    requires c.Fetching? ==> b.refreshing == a.refreshing && b.keys.lastRefresh == a.keys.lastRefresh
    ensures CallerSound(w, b, i, c)
  {
    if c.Verified? {
      TimelyKeeps(c.at, c.served, KeyBoundIn(w, a), Missed(a), Missed(b));
    }
  }

  /** `b` follows `a` by a change to nothing but time, keys, missed refreshes and caller `i`'s turn. */
  predicate Follows(a: Auth, b: Auth, i: Id) {
    && Extends(a, b) && b.entries == a.entries && b.callers == a.callers && b.accepted == a.accepted
    && i < |a.callers|
    && (a.refreshing == Some(i) || (b.refreshing == a.refreshing && b.keys.lastRefresh == a.keys.lastRefresh))
  }

  /** The other callers do not notice. */
  lemma OthersKeep(w: World, a: Auth, b: Auth, i: Id)
    requires Inv(w, a) && Follows(a, b, i)
    ensures forall j :: 0 <= j < |a.callers| && j != i ==> CallerSound(w, b, j, a.callers[j])
  {
    forall j | 0 <= j < |a.callers| && j != i
      ensures CallerSound(w, b, j, a.callers[j])
    {
      assert CallerSound(w, a, j, a.callers[j]);
      CallerKeeps(w, a, b, j, a.callers[j]);
    }
  }

  /** Answering from a set served in time is sound. */
  lemma AnswerSound(w: World, a: Auth, b: Auth, i: Id, c: Caller, valid: bool)
    requires Inv(w, a) && Follows(a, b, i)
    requires KeysSound(w, b)
    requires c.Looking? || c.Fetching?
    requires c.now.mono * NANOS_PER_SEC <= b.clock
    requires b.keys.fetched.Some? ==> Timely(b.clock, b.servedAt, KeyBoundIn(w, b), Missed(b))
    ensures Inv(w, Answered(w, b, i, c, valid))
  {
    var r := Answered(w, b, i, c, valid);
    OthersKeep(w, a, b, i);
    PastKeeps(w, a, b);
    if r.callers[i].Verified? {
      LongerBound(b.clock, b.servedAt, KeyBoundIn(w, b), ReuseBound(b.maxTtl), Missed(b));
    }
    forall j | 0 <= j < |r.callers|
      ensures CallerSound(w, r, j, r.callers[j])
    {
      if j != i {
        CallerKeeps(w, b, r, j, r.callers[j]);
      }
    }
    PastKeeps(w, b, r);
  }

  /** A young set was served within the maximum age and one fetch. */
  lemma YoungSound(w: World, a: Auth, i: Id, valid: bool)
    requires Inv(w, a) && i < |a.callers| && Can(w, a, i, AnswerYoung(valid))
    ensures Inv(w, Do(w, a, i, AnswerYoung(valid)))
  {
    assert CallerSound(w, a, i, a.callers[i]);
    AnswerSound(w, a, a, i, a.callers[i], valid);
  }

  /** A throttled refresh follows one of the last interval: it was missed, or the set is its own. */
  lemma ThrottledSound(w: World, a: Auth, i: Id, valid: bool)
    requires Inv(w, a) && i < |a.callers| && Can(w, a, i, AnswerThrottled(valid))
    ensures Inv(w, Do(w, a, i, AnswerThrottled(valid)))
  {
    assert CallerSound(w, a, i, a.callers[i]);
    var last := a.keys.lastRefresh.value;
    if last in Missed(a) {
      assert last in Missed(a) && last <= a.clock <= last + KeyBoundIn(w, a);
    }
    AnswerSound(w, a, a, i, a.callers[i], valid);
  }

  lemma FetchSound(w: World, a: Auth, i: Id, op: Op)
    requires Inv(w, a) && i < |a.callers| && Can(w, a, i, op)
    requires op.FetchOk? || op.FetchFail?
    ensures Inv(w, Do(w, a, i, op))
  {
    var c := a.callers[i];
    assert CallerSound(w, a, i, c);
    if op.FetchOk? {
      var b := a.(keys := a.keys.Loaded(w.served(op.served), a.clock), servedAt := op.served, refreshing := None);
      AnswerSound(w, a, b, i, c, op.valid);
    } else {
      var b := a.(failures := a.failures + {c.start}, refreshing := None);
      assert c.start in Missed(b) && c.start <= b.clock <= c.start + KeyBoundIn(w, b);
      AnswerSound(w, a, b, i, c, op.valid);
    }
  }

  /** Going away changes nothing but who waits, and marks the refresh under way as missed. */
  lemma AbandonSound(w: World, a: Auth, i: Id)
    requires Inv(w, a) && i < |a.callers| && Can(w, a, i, Abandon)
    ensures Inv(w, Do(w, a, i, Abandon))
  {
    var r := Do(w, a, i, Abandon);
    assert CallerSound(w, a, i, a.callers[i]);
    PastKeeps(w, a, r);
    forall j | 0 <= j < |r.callers|
      ensures CallerSound(w, r, j, r.callers[j])
    {
      if j != i {
        assert CallerSound(w, a, j, a.callers[j]);
        CallerKeeps(w, a, r, j, r.callers[j]);
      }
    }
  }

  lemma VerifySound(w: World, a: Auth, i: Id, token: Token, unix: nat)
    requires Inv(w, a) && i < |a.callers| && Can(w, a, i, Verify(token, unix))
    ensures Inv(w, Do(w, a, i, Verify(token, unix)))
  {
    if Hit(a, token, unix) {
      assert EntrySound(w, a, token, a.entries[token]);
      HitTimely(a.entries[token], a.clock, a.maxTtl, KeyBoundIn(w, a), Missed(a));
    }
    var r := Do(w, a, i, Verify(token, unix));
    PastKeeps(w, a, r);
    forall j | 0 <= j < |r.callers|
      ensures CallerSound(w, r, j, r.callers[j])
    {
      if r.callers[j] == a.callers[j] {
        CallerKeeps(w, a, r, j, r.callers[j]);
      }
    }
  }

  lemma StartSound(w: World, a: Auth, i: Id)
    requires Inv(w, a) && i < |a.callers| && Can(w, a, i, StartFetch)
    ensures Inv(w, Do(w, a, i, StartFetch))
  {
    var r := Do(w, a, i, StartFetch);
    assert CallerSound(w, a, i, a.callers[i]);
    PastKeeps(w, a, r);
    forall j | 0 <= j < |r.callers|
      ensures CallerSound(w, r, j, r.callers[j])
    {
      if j != i {
        assert CallerSound(w, a, j, a.callers[j]);
        CallerKeeps(w, a, r, j, r.callers[j]);
      }
    }
  }

  /** The deadline of an entry counts from before the key lookup. */
  lemma InsertSound(w: World, a: Auth, i: Id, stored: bool)
    requires Inv(w, a) && i < |a.callers| && Can(w, a, i, Insert(stored))
    ensures Inv(w, Do(w, a, i, Insert(stored)))
  {
    var c, r := a.callers[i], Do(w, a, i, Insert(stored));
    assert CallerSound(w, a, i, c);
    PastKeeps(w, a, r.(entries := a.entries));
    forall token | token in r.entries
      ensures EntrySound(w, r, token, r.entries[token])
    {
      assert token in a.entries ==> EntrySound(w, a, token, a.entries[token]);
    }
    forall j | 0 <= j < |r.callers|
      ensures CallerSound(w, r, j, r.callers[j])
    {
      if j != i {
        CallerKeeps(w, a, r, j, r.callers[j]);
      }
    }
  }

  lemma StepInv(w: World, a: Auth, step: Step)
    requires Enabled(w, a, step) && Inv(w, a)
    ensures Inv(w, Next(w, a, step))
  {
    match step
    case By(i, op) =>
      match op {
        case Verify(token, unix) => VerifySound(w, a, i, token, unix);
        case AnswerYoung(valid) => YoungSound(w, a, i, valid);
        case AnswerThrottled(valid) => ThrottledSound(w, a, i, valid);
        case StartFetch => StartSound(w, a, i);
        case FetchOk(_, _) => FetchSound(w, a, i, op);
        case FetchFail(_) => FetchSound(w, a, i, op);
        case Abandon => AbandonSound(w, a, i);
        case Insert(stored) => InsertSound(w, a, i, stored);
      }
    case _ => OutsideSound(w, a, step);
  }

  lemma OutsideSound(w: World, a: Auth, step: Step)
    requires Enabled(w, a, step) && Inv(w, a) && !step.By?
    ensures Inv(w, Next(w, a, step))
  {
    var r := Next(w, a, step);
    PastKeeps(w, a, r);
    forall j | 0 <= j < |r.callers|
      ensures CallerSound(w, r, j, r.callers[j])
    {
      CallerKeeps(w, a, r, j, r.callers[j]);
    }
  }

  lemma {:induction false} RunInv(w: World, a: Auth, steps: seq<Step>)
    requires Run(w, a, steps) && Inv(w, a)
    ensures Inv(w, After(w, a, steps))
    ensures Extends(a, After(w, a, steps))
    decreases steps
  {
    if steps != [] {
      StepInv(w, a, steps[0]);
      RunInv(w, Next(w, a, steps[0]), steps[1..]);
    }
  }

  /**
   The revocation bound, over every run of any number of callers, whatever the wall clock does: a
   token is accepted only if its key was in the JWKS less than the maximum key age and one fetch, or
   the refresh interval, and less than the maximum cache age before, unless a refresh that began in
   that time failed or was abandoned.
   */
  lemma AcceptedInTime(w: World, n: nat, maxAge: nat, minInterval: nat, maxTtl: nat, steps: seq<Step>, x: Accept)
    requires var a0 := Init(n, maxAge, minInterval, maxTtl);
             Run(w, a0, steps) && x in After(w, a0, steps).accepted
    ensures var a := After(w, Init(n, maxAge, minInterval, maxTtl), steps);
            var bound := KeyBound(w.timeout, maxAge, minInterval) + ReuseBound(maxTtl);
            Vouches(w, x.token, x.served) && Timely(x.at, x.served, bound, Missed(a))
  {
    RunInv(w, Init(n, maxAge, minInterval, maxTtl), steps);
  }

  /**
   A token whose key is gone from the JWKS from `removed` on is accepted after the bound only if a
   refresh that began since the removal failed or was abandoned.
   */
  lemma RevokedStopsPassing(w: World, n: nat, maxAge: nat, minInterval: nat, maxTtl: nat, steps: seq<Step>,
                            x: Accept, removed: nat)
    requires var a0 := Init(n, maxAge, minInterval, maxTtl);
             Run(w, a0, steps) && x in After(w, a0, steps).accepted
    requires forall t: nat :: t >= removed ==> !Vouches(w, x.token, t)
    requires x.at >= removed + KeyBound(w.timeout, maxAge, minInterval) + ReuseBound(maxTtl)
    ensures exists t :: t in Missed(After(w, Init(n, maxAge, minInterval, maxTtl), steps)) && removed <= t <= x.at
  {
    AcceptedInTime(w, n, maxAge, minInterval, maxTtl, steps, x);
  }
}
