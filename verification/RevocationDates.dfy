/**
 What a cached verification is good for (src/auth/cache.rs, src/auth/mod.rs): a token is accepted from
 the cache only with its own claims, before its `exp` on the wall clock of that moment, and never if it
 was not yet valid when it was stored.
 */
module RevocationDates {
  import opened Basics
  import opened ClaimsCache
  import opened Revocation

  /** The entry is the token's own, with its `exp`, and was valid when stored. */
  predicate EntryDated(w: World, token: Token, e: Cached) {
    var claims := w.claimsOf(token);
    && e.entry.claims == claims && claims.exp == Some(e.entry.exp)
    && (claims.nbf.None? || claims.nbf.value <= e.unix) && e.unix < e.entry.exp
  }

  /** The token's own claims; from the cache only before `exp`, and stored at a time it was valid. */
  predicate AcceptDated(w: World, x: Accept) {
    var claims := w.claimsOf(x.token);
    && x.how.claims == claims
    && (x.how.stored.Some? ==>
          && claims.exp.Some? && x.how.unix < claims.exp.value && x.how.stored.value < claims.exp.value
          && (claims.nbf.None? || claims.nbf.value <= x.how.stored.value))
  }

  predicate Dated(w: World, a: Auth) {
    && (forall token :: token in a.entries ==> EntryDated(w, token, a.entries[token]))
    && (forall x :: x in a.accepted ==> AcceptDated(w, x))
  }

  lemma VerifyDated(w: World, a: Auth, i: Id, token: Token, unix: nat)
    requires Dated(w, a) && i < |a.callers| && Can(w, a, i, Verify(token, unix))
    ensures Dated(w, Do(w, a, i, Verify(token, unix)))
  {
    if Hit(a, token, unix) {
      assert EntryDated(w, token, a.entries[token]);
    }
  }

  lemma InsertDated(w: World, a: Auth, i: Id, stored: bool)
    requires Dated(w, a) && i < |a.callers| && Can(w, a, i, Insert(stored))
    ensures Dated(w, Do(w, a, i, Insert(stored)))
  {
    var r := Do(w, a, i, Insert(stored));
    forall token | token in r.entries
      ensures EntryDated(w, token, r.entries[token])
    {
      assert token in a.entries ==> EntryDated(w, token, a.entries[token]);
    }
  }

  lemma StepDated(w: World, a: Auth, step: Step)
    requires Enabled(w, a, step) && Dated(w, a)
    ensures Dated(w, Next(w, a, step))
  {
    match step
    case By(i, op) =>
      match op {
        case Verify(token, unix) => VerifyDated(w, a, i, token, unix);
        case Insert(stored) => InsertDated(w, a, i, stored);
        case _ =>
      }
    case _ =>
  }

  lemma {:induction false} RunDated(w: World, a: Auth, steps: seq<Step>)
    requires Run(w, a, steps) && Dated(w, a)
    ensures Dated(w, After(w, a, steps))
    decreases steps
  {
    if steps != [] {
      StepDated(w, a, steps[0]);
      RunDated(w, Next(w, a, steps[0]), steps[1..]);
    }
  }

  /**
   Over every run, however the wall clock is set: a token accepted from the cache at Unix time `u` has an
   `exp` after `u`, and was neither expired nor early when it was stored; and the claims a request gets
   are the token's own.
   */
  lemma CachedInDate(w: World, n: nat, maxAge: nat, minInterval: nat, maxTtl: nat, steps: seq<Step>, x: Accept)
    requires var a0 := Init(n, maxAge, minInterval, maxTtl);
             Run(w, a0, steps) && x in After(w, a0, steps).accepted
    ensures var claims := w.claimsOf(x.token);
            && x.how.claims == claims
            && (x.how.stored.Some? ==>
                  && claims.exp.Some? && x.how.unix < claims.exp.value && x.how.stored.value < claims.exp.value
                  && (claims.nbf.None? || claims.nbf.value <= x.how.stored.value))
  {
    RunDated(w, Init(n, maxAge, minInterval, maxTtl), steps);
    assert AcceptDated(w, x);
  }
}
