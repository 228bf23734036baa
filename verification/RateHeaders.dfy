/**
 The rate-limit headers of a response (src/shield/mod.rs): each limiter a response passes on its way
 out may replace the budget advertised by the ones inside it. Whatever their number and order, the
 client sees the budget that binds first.
 */
module RateHeaders {
  import opened Basics

  const SECOND: nat := 1_000_000_000

  /** A limiter's budget: the limit, what remains of it, and the wait until it is whole again. */
  datatype Budget = Budget(limit: nat, remaining: nat, resetAfter: nat)

  /** The header values that read as numbers; one that is absent or does not is none. */
  datatype Headers = Headers(limit: Option<nat>, remaining: Option<nat>, reset: Option<nat>, retryAfter: Option<nat>)

  /** Whole seconds, rounded up. */
  function SecsCeil(nanos: nat): nat {
    Min((nanos + SECOND - 1) / SECOND, U64_MAX)
  }

  /** A wait that fits is reported in full, with less than a second to spare, and none only for none. */
  lemma SecsCeilCovers(nanos: nat)
    requires nanos <= U64_MAX * SECOND
    ensures nanos <= SecsCeil(nanos) * SECOND < nanos + SECOND
    ensures SecsCeil(nanos) == 0 <==> nanos == 0
  {
    var q := (nanos + SECOND - 1) / SECOND;
    assert q * SECOND <= nanos + SECOND - 1 < (q + 1) * SECOND;
  }

  predicate KeepsInner(h: Headers, b: Budget) {
    h.remaining.Some? &&
    (h.remaining.value < b.remaining ||
     (h.remaining.value == b.remaining && (if h.reset.Some? then h.reset.value else 0) >= SecsCeil(b.resetAfter)))
  }

  function Tightened(h: Headers, b: Budget): Headers {
    if KeepsInner(h, b) then h
    else
      var reset := SecsCeil(b.resetAfter);
      Headers(Some(b.limit), Some(b.remaining), Some(reset),
              if h.retryAfter.Some? then Some(Max(h.retryAfter.value, reset)) else None)
  }

  /** A response, as far as its headers. */
  class Response {
    var headers: Headers

    method Tighten(b: Budget)
      modifies this
      ensures headers == Tightened(old(headers), b)
    {
      var keepInner := false;
      if headers.remaining.Some? {
        if headers.remaining.value < b.remaining {
          keepInner := true;
        } else if headers.remaining.value == b.remaining {
          keepInner := (if headers.reset.Some? then headers.reset.value else 0) >= SecsCeil(b.resetAfter);
        }
      }
      if !keepInner {
        var reset := SecsCeil(b.resetAfter);
        headers := headers.(limit := Some(b.limit), remaining := Some(b.remaining), reset := Some(reset));
        if headers.retryAfter.Some? && reset > headers.retryAfter.value {
          headers := headers.(retryAfter := Some(reset));
        }
      }
    }
  }

  /** The headers after the response has passed the limiters, the innermost first. */
  function TightenedAll(h: Headers, layers: seq<Budget>): Headers {
    if layers == [] then h else Tightened(TightenedAll(h, layers[..|layers| - 1]), layers[|layers| - 1])
  }

  /** A budget as a client reads it: what remains, and for how long. */
  datatype Bind = Bind(remaining: nat, reset: nat) {
    /** At least as tight: less remains, or as much for as long. */
    predicate Over(other: Bind) {
      remaining < other.remaining || (remaining == other.remaining && reset >= other.reset)
    }
  }

  function Of(b: Budget): Bind {
    Bind(b.remaining, SecsCeil(b.resetAfter))
  }

  function Advertised(h: Headers): Bind
    requires h.remaining.Some?
  {
    Bind(h.remaining.value, if h.reset.Some? then h.reset.value else 0)
  }

  /** What the response started with, and every limiter it passed. */
  ghost predicate Offered(h: Headers, layers: seq<Budget>, x: Bind) {
    (h.remaining.Some? && x == Advertised(h)) || exists i :: 0 <= i < |layers| && x == Of(layers[i])
  }

  lemma OfferedMore(h: Headers, layers: seq<Budget>, x: Bind)
    requires layers != []
    ensures Offered(h, layers, x) <==> Offered(h, layers[..|layers| - 1], x) || x == Of(layers[|layers| - 1])
  {
    var front := layers[..|layers| - 1];
    forall i | 0 <= i < |front|
      ensures front[i] == layers[i]
    {
    }
  }

  /** The budget advertised at the end was offered, and binds at least as hard as every other. */
  lemma {:induction false} TightestWins(h: Headers, layers: seq<Budget>)
    requires h.remaining.Some? || layers != []
    ensures var g := TightenedAll(h, layers);
            && g.remaining.Some?
            && Offered(h, layers, Advertised(g))
            && (forall x :: Offered(h, layers, x) ==> Advertised(g).Over(x))
  {
    if layers != [] {
      var front, last := layers[..|layers| - 1], layers[|layers| - 1];
      if h.remaining.Some? || front != [] {
        TightestWins(h, front);
      }
      assert Of(layers[|layers| - 1]) == Of(last);
      forall x | Offered(h, layers, x)
        ensures Advertised(TightenedAll(h, layers)).Over(x)
      {
        OfferedMore(h, layers, x);
      }
      OfferedMore(h, layers, Advertised(TightenedAll(h, layers)));
    }
  }

  /** The headers are those of one limiter, its limit with its remaining and its reset, or as they came. */
  lemma {:induction false} HeadersGoTogether(h: Headers, layers: seq<Budget>)
    ensures var g := TightenedAll(h, layers);
            || (g.limit == h.limit && g.remaining == h.remaining && g.reset == h.reset)
            || exists i :: 0 <= i < |layers| && g.limit == Some(layers[i].limit) && g.remaining == Some(layers[i].remaining)
                           && g.reset == Some(SecsCeil(layers[i].resetAfter))
  {
    if layers != [] {
      var front := layers[..|layers| - 1];
      HeadersGoTogether(h, front);
      assert forall i :: 0 <= i < |front| ==> front[i] == layers[i];
    }
  }

  /** So neither the order of the limiters nor a repeated one changes what the client reads. */
  lemma OrderDoesNotMatter(h: Headers, a: seq<Budget>, b: seq<Budget>)
    requires h.remaining.Some? || a != []
    requires forall x :: Offered(h, a, x) <==> Offered(h, b, x)
    ensures h.remaining.Some? || b != []
    ensures Advertised(TightenedAll(h, a)) == Advertised(TightenedAll(h, b))
  {
    TightestWins(h, a);
    assert Offered(h, b, Advertised(TightenedAll(h, a)));
    TightestWins(h, b);
  }

  /** A limiter on the way replaced the budget. */
  ghost predicate Replaced(h: Headers, layers: seq<Budget>) {
    layers != [] && (!KeepsInner(TightenedAll(h, layers[..|layers| - 1]), layers[|layers| - 1]) ||
                     Replaced(h, layers[..|layers| - 1]))
  }

  /** `Retry-After` is neither added nor shortened, and covers the reset of any budget put in later. */
  lemma {:induction false} RetryNeverShrinks(h: Headers, layers: seq<Budget>)
    ensures var g := TightenedAll(h, layers);
            && (g.retryAfter.Some? <==> h.retryAfter.Some?)
            && (h.retryAfter.Some? ==> g.retryAfter.value >= h.retryAfter.value)
            && (h.retryAfter.Some? && Replaced(h, layers) ==> g.reset.Some? && g.retryAfter.value >= g.reset.value)
            && (!Replaced(h, layers) ==> g == h)
  {
    if layers != [] {
      RetryNeverShrinks(h, layers[..|layers| - 1]);
    }
  }

  /**
   A refusal's own budget, with nothing remaining, is replaced exactly by a limiter that has nothing
   remaining either and a longer reset.
   */
  lemma RefusalReplacedIff(h: Headers, b: Budget)
    requires h.remaining == Some(0) && h.reset.Some?
    ensures !KeepsInner(h, b) <==> b.remaining == 0 && SecsCeil(b.resetAfter) > h.reset.value
  {
  }

  /** The comment on `Report::apply` says a refusal's budget never is. */
  lemma RefusalReplaced()
    ensures var refusal := Headers(Some(5), Some(0), Some(60), Some(60));
            Tightened(refusal, Budget(100, 0, 3600 * SECOND)) == Headers(Some(100), Some(0), Some(3600), Some(3600))
  {
  }
}
