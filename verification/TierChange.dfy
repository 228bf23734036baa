/**
 A key whose limit changes (`charge` in src/shield/mod.rs): its theoretical arrival time is kept, so
 what it owes under the old limit is waited for under the new one. How long, exactly.
 */
module TierChange {
  import opened Basics
  import opened Gcra

  /** One request on the key, under the limit in force. */
  datatype Charge = Charge(limiter: Limiter, now: nat)

  /** How far ahead of the clock a limiter can push a key. */
  function Debt(g: Limiter): nat {
    g.tau + g.emission
  }

  predicate AllValid(charges: seq<Charge>) {
    forall i :: 0 <= i < |charges| ==> charges[i].limiter.Valid()
  }

  /** No reading is past `t`, and no limit lets a key owe more than `debt`. */
  predicate Within(charges: seq<Charge>, debt: nat, t: nat) {
    forall i :: 0 <= i < |charges| ==> Debt(charges[i].limiter) <= debt && charges[i].now <= t
  }

  function TatAfter(stored: Option<nat>, charges: seq<Charge>): Option<nat>
    requires AllValid(charges)
    decreases charges
  {
    if charges == [] then stored
    else TatAfter(Next(charges[0].limiter, stored, charges[0].now), charges[1..])
  }

  /** Whatever the limits and the order of the readings, a key owes no more than the largest of them allows. */
  lemma {:induction false} OwesAtMost(stored: Option<nat>, charges: seq<Charge>, debt: nat, t: nat)
    requires AllValid(charges) && Within(charges, debt, t)
    requires stored.Some? ==> stored.value <= t + debt
    ensures TatAfter(stored, charges).Some? ==> TatAfter(stored, charges).value <= t + debt
    decreases charges
  {
    if charges != [] {
      CheckDecides(charges[0].limiter, stored, charges[0].now);
      OwesAtMost(Next(charges[0].limiter, stored, charges[0].now), charges[1..], debt, t);
    }
  }

  function Copies(g: Limiter, t: nat, k: nat): (charges: seq<Charge>)
    requires g.Valid()
    ensures AllValid(charges) && |charges| == k
  {
    seq(k, _ => Charge(g, t))
  }

  /** Requests at one instant push the key one emission ahead each, up to the capacity. */
  lemma {:induction false} Piles(g: Limiter, t: nat, j: nat, k: nat)
    requires g.Valid() && j + k <= g.Capacity()
    ensures TatAfter(Some(t + Times(j, g.emission)), Copies(g, t, k)) == Some(t + Times(j + k, g.emission))
    decreases k
  {
    if k > 0 {
      TimesOrder(j, g.Capacity() - 1, g.emission);
      CheckDecides(g, Some(t + Times(j, g.emission)), t);
      assert Copies(g, t, k)[1..] == Copies(g, t, k - 1);
      Piles(g, t, j + 1, k - 1);
    }
  }

  /** A whole burst at once reaches the debt. */
  lemma BurstOwes(g: Limiter, t: nat)
    requires g.Valid()
    ensures Within(Copies(g, t, g.Capacity()), Debt(g), t)
    ensures TatAfter(None, Copies(g, t, g.Capacity())) == Some(t + Debt(g))
  {
    var c := g.Capacity();
    CheckDecides(g, None, t);
    assert Next(g, None, t) == Some(t + Times(1, g.emission));
    assert Copies(g, t, c)[1..] == Copies(g, t, c - 1);
    Piles(g, t, 1, c - 1);
  }

  /** Whatever the key did up to `t` under limits no larger than `g`, it passes on `h` after `wait`. */
  ghost predicate PassesAfter(g: Limiter, h: Limiter, t: nat, wait: nat)
    requires h.Valid()
  {
    forall charges | AllValid(charges) && Within(charges, Debt(g), t) ::
      Check(h, TatAfter(None, charges), t + wait).allowed
  }

  /**
   The wait after a change of limit is exactly what the old one lets a key owe, less what the new one
   tolerates: no key waits longer, and one that has just used its burst waits that long.
   */
  lemma ChangeWait(g: Limiter, h: Limiter, t: nat, wait: nat)
    requires g.Valid() && h.Valid()
    ensures PassesAfter(g, h, t, wait) <==> wait >= Minus(Debt(g), h.tau)
  {
    if wait >= Minus(Debt(g), h.tau) {
      forall charges | AllValid(charges) && Within(charges, Debt(g), t)
        ensures Check(h, TatAfter(None, charges), t + wait).allowed
      {
        OwesAtMost(None, charges, Debt(g), t);
        CheckDecides(h, TatAfter(None, charges), t + wait);
      }
    } else {
      BurstOwes(g, t);
      CheckDecides(h, Some(t + Debt(g)), t + wait);
    }
  }

  /** A profile with no more burst than rate lets a key owe no more than its window. */
  lemma ProfileDebt(p: Profile)
    requires 1 <= p.burst <= p.rate <= p.window
    ensures Debt(FromProfile(p)) <= p.window
  {
    var g := FromProfile(p);
    var c, e := g.Capacity(), g.emission;
    TimesIsProduct(c, e);
    AtMostProduct(c, p.rate, e);
    assert p.rate * e <= p.window;
  }

  lemma AtMostProduct(c: nat, r: nat, e: nat)
    requires c <= r
    ensures c * e <= r * e
  {
  }

  /**
   "Within one window", as the comment has it, is the old window: so it is for every change to `h` if and
   only if the debt of the old profile less the tolerance of `h` fits its window, as it does when the
   burst is at most the rate.
   */
  lemma ChangeWithinWindow(p: Profile, h: Limiter, t: nat)
    requires h.Valid()
    ensures PassesAfter(FromProfile(p), h, t, p.window) <==> Debt(FromProfile(p)) <= p.window + h.tau
    ensures 1 <= p.burst <= p.rate <= p.window ==> PassesAfter(FromProfile(p), h, t, p.window)
  {
    ChangeWait(FromProfile(p), h, t, p.window);
    if 1 <= p.burst <= p.rate <= p.window {
      ProfileDebt(p);
    }
  }

  const SECOND: nat := 1_000_000_000

  /** One an hour with a burst of five, then one a minute: the key can be refused for any time short of five hours. */
  lemma HourlyToMinutely(t: nat, wait: nat)
    ensures var g, h := FromProfile(Profile(1, 3600 * SECOND, 5)), FromProfile(Profile(1, 60 * SECOND, 1));
            PassesAfter(g, h, t, wait) <==> wait >= 5 * 3600 * SECOND
  {
    var g, h := FromProfile(Profile(1, 3600 * SECOND, 5)), FromProfile(Profile(1, 60 * SECOND, 1));
    ChangeWait(g, h, t, wait);
    assert g.emission == 3600 * SECOND && g.tau == 4 * (3600 * SECOND);
    assert h.tau == 0;
  }
}
