/**
 The JWKS key cache (src/auth/jwks.rs): keys are served while young, refetched when old or when a
 `kid` is unknown, at most once per interval, and kept as they were when a fetch fails. Instants
 are nanoseconds.
 */
module Jwks {
  import opened Basics

  type Kid = string

  /** A decoding key with its algorithm. */
  type VerifyingKey = string

  type Keys = map<Kid, VerifyingKey>

  datatype KeyCache = KeyCache(
    maxAge: nat, minInterval: nat, keys: Keys, fetched: Option<nat>, lastRefresh: Option<nat>)
  {
    predicate Young(now: nat) {
      fetched.Some? && Minus(now, fetched.value) < maxAge
    }

    /** A refresh is refused this soon after the last one, unless nothing was ever loaded. */
    predicate Throttled(now: nat) {
      lastRefresh.Some? && fetched.Some? && Minus(now, lastRefresh.value) < minInterval
    }

    function Loaded(served: Keys, now: nat): KeyCache {
      this.(keys := served, fetched := Some(now))
    }
  }

  function Lookup(keys: Keys, kid: Kid): Option<VerifyingKey> {
    if kid in keys then Some(keys[kid]) else None
  }

  /** The cache after a lookup at `now` whose fetch, if it makes one, ends at `done` with `answer`. */
  function Refreshed(c: KeyCache, kid: Kid, now: nat, answer: Option<Keys>, done: nat): KeyCache {
    if (c.Young(now) && kid in c.keys) || c.Throttled(now) then c
    else
      var started := c.(lastRefresh := Some(now));
      if answer.Some? then started.Loaded(answer.value, done) else started
  }

  class JwksCache {
    const maxAge: nat
    const minInterval: nat
    var keys: Keys
    var fetched: Option<nat>
    var lastRefresh: Option<nat>

    ghost function View(): KeyCache
      reads this
    {
      KeyCache(maxAge, minInterval, keys, fetched, lastRefresh)
    }

    constructor (maxAge: nat, minInterval: nat)
      ensures View() == KeyCache(maxAge, minInterval, map[], None, None)
    {
      this.maxAge := maxAge;
      this.minInterval := minInterval;
      keys := map[];
      fetched := None;
      lastRefresh := None;
    }

    /** The key for `kid`, always from the set in place once any refresh is over. */
    method KeyFor(kid: Kid, now: nat, answer: Option<Keys>, done: nat) returns (key: Option<VerifyingKey>)
      modifies this
      ensures View() == Refreshed(old(View()), kid, now, answer, done)
      ensures var found := kid in old(keys) && old(fetched).Some? && Minus(now, old(fetched).value) < maxAge;
              var throttled := old(fetched).Some? && old(lastRefresh).Some? && Minus(now, old(lastRefresh).value) < minInterval;
              && (found || throttled || answer.None? ==> keys == old(keys))
              && (!found && !throttled && answer.Some? ==> keys == answer.value)
      ensures key == if kid in keys then Some(keys[kid]) else None
    {
      if fetched.Some? && Minus(now, fetched.value) < maxAge && kid in keys {
        return Some(keys[kid]);
      }
      var _ := Refresh(now, answer, done);
      key := Lookup(keys, kid);
    }

    /** Fetch and replace the set; a throttled or failed refresh leaves it as it was. */
    method Refresh(now: nat, answer: Option<Keys>, done: nat) returns (ok: bool)
      modifies this
      ensures ok == (!old(View()).Throttled(now) && answer.Some?)
      ensures View() == if old(View()).Throttled(now) then old(View())
                        else if ok then old(View()).(lastRefresh := Some(now)).Loaded(answer.value, done)
                        else old(View()).(lastRefresh := Some(now))
    {
      if lastRefresh.Some? && fetched.Some? && Minus(now, lastRefresh.value) < minInterval {
        return false;
      }
      lastRefresh := Some(now);
      if answer.None? {
        return false;
      }
      keys := answer.value;
      fetched := Some(done);
      ok := true;
    }
  }

  datatype Asked = Asked(kid: Kid, now: nat)

  // ---- the first set -------------------------------------------------------------------------------

  /** The cache after lookups of a provider that fails every time. */
  function AfterFailures(c: KeyCache, lookups: seq<Asked>): KeyCache
    decreases lookups
  {
    if lookups == [] then c
    else AfterFailures(Refreshed(c, lookups[0].kid, lookups[0].now, None, lookups[0].now), lookups[1..])
  }

  lemma {:induction false} FailuresLoadNothing(c: KeyCache, lookups: seq<Asked>)
    requires c.fetched.None?
    ensures AfterFailures(c, lookups).fetched.None?
    decreases lookups
  {
    if lookups != [] {
      FailuresLoadNothing(Refreshed(c, lookups[0].kid, lookups[0].now, None, lookups[0].now), lookups[1..]);
    }
  }

  /** Until a set has loaded nothing holds a refresh off: however many failed and how lately, the first answer is taken. */
  lemma FirstAnswerTaken(maxAge: nat, minInterval: nat, lookups: seq<Asked>, kid: Kid, now: nat, answer: Keys, done: nat)
    ensures var c := AfterFailures(KeyCache(maxAge, minInterval, map[], None, None), lookups);
            Refreshed(c, kid, now, Some(answer), done).keys == answer
  {
    FailuresLoadNothing(KeyCache(maxAge, minInterval, map[], None, None), lookups);
  }

  // ---- a new key is found --------------------------------------------------------------------------

  /** The cache after lookups of a provider that always answers, at once, with what it serves then. */
  function AfterLookups(c: KeyCache, served: nat -> Keys, lookups: seq<Asked>): KeyCache
    decreases lookups
  {
    if lookups == [] then c
    else
      var l := lookups[0];
      AfterLookups(Refreshed(c, l.kid, l.now, Some(served(l.now)), l.now), served, lookups[1..])
  }

  predicate InOrder(from: nat, lookups: seq<Asked>)
    decreases lookups
  {
    lookups == [] || (from <= lookups[0].now && InOrder(lookups[0].now, lookups[1..]))
  }

  /** The set in place is what the provider served at the last refresh. */
  predicate Tracks(c: KeyCache, served: nat -> Keys, now: nat) {
    c.fetched == c.lastRefresh &&
    (c.fetched.Some? ==> c.fetched.value <= now && c.keys == served(c.fetched.value))
  }

  lemma {:induction false} LookupsTrack(c: KeyCache, served: nat -> Keys, from: nat, lookups: seq<Asked>, now: nat)
    requires Tracks(c, served, from) && InOrder(from, lookups) && from <= now
    requires forall i :: 0 <= i < |lookups| ==> lookups[i].now <= now
    ensures var d := AfterLookups(c, served, lookups);
            Tracks(d, served, now) && d.maxAge == c.maxAge && d.minInterval == c.minInterval
    decreases lookups
  {
    if lookups != [] {
      var l := lookups[0];
      LookupsTrack(Refreshed(c, l.kid, l.now, Some(served(l.now)), l.now), served, l.now, lookups[1..], now);
    }
  }

  /**
   A key the provider has served for the refresh interval is found, whatever was looked up before: a `kid`
   that is not in the set is fetched however young the set is. And a `kid` that is new is found with its
   new key.
   */
  lemma ServedKeyFound(maxAge: nat, minInterval: nat, served: nat -> Keys, lookups: seq<Asked>, kid: Kid, since: nat,
                       now: nat)
    requires InOrder(0, lookups) && forall i :: 0 <= i < |lookups| ==> lookups[i].now <= now
    requires since + minInterval <= now && forall t: nat :: since <= t <= now ==> kid in served(t)
    ensures var c := AfterLookups(KeyCache(maxAge, minInterval, map[], None, None), served, lookups);
            var d := Refreshed(c, kid, now, Some(served(now)), now);
            && kid in d.keys
            && ((forall t: nat :: t < since ==> kid !in served(t)) ==>
                  exists t: nat :: since <= t <= now && d.keys[kid] == served(t)[kid])
  {
    var c := AfterLookups(KeyCache(maxAge, minInterval, map[], None, None), served, lookups);
    LookupsTrack(KeyCache(maxAge, minInterval, map[], None, None), served, 0, lookups, now);
    var d := Refreshed(c, kid, now, Some(served(now)), now);
    if d == c {
      var t := c.fetched.value;
      assert t >= since ==> kid in served(t);
    } else {
      assert d.keys == served(now) && kid in served(now);
    }
  }
}
