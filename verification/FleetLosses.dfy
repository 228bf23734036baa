/**
 What the fleet count can lose (src/shield/global.rs): an admit is dropped only by a push that does
 not commit, by a change of the key's window, or by a second epoch boundary before a claim. A run
 without those loses nothing, whatever is evicted, read late or never applied.
 */
module FleetLosses {
  import opened Basics
  import opened FleetCounters
  import opened Fleet

  /** A request for `key` that finds it with counts it cannot keep. */
  predicate TouchDrops(x: Instance, key: Key, window: nat, at: Clock) {
    key in x.states && Forgets(x.states[key], window, at) != (0, 0)
  }

  /** The step drops admits of `k`: by name, the three ways there are. */
  predicate Drops(f: System, step: Step, k: Key)
    requires Enabled(f, step)
  {
    match step
    case Expire(_, _) => false
    case By(i, act) =>
      match act
      case Gate(key, window, at) => key == k && TouchDrops(f.instances[i], key, window, at)
      case Record(key, window, at) => key == k && TouchDrops(f.instances[i], key, window, at)
      case Admit(key, window, at, _) => key == k && TouchDrops(f.instances[i], key, window, at)
      case PushLost => true
      case _ => false
  }

  predicate Lossless(f: System, steps: seq<Step>, k: Key)
    requires Run(f, steps)
    decreases steps
  {
    steps == [] || (!Drops(f, steps[0], k) && Lossless(Next(f, steps[0]), steps[1..], k))
  }

  predicate NoneDropped(x: Instance, k: Key, e: nat) {
    Get(x.books.forgotten, k, e) == 0 && Get(x.books.lost, k, e) == 0
  }

  lemma TouchKeepsBooks(x: Instance, key: Key, window: nat, at: Clock, n: nat, k: Key, e: nat)
    requires NoneDropped(x, k, e)
    requires key == k ==> !TouchDrops(x, key, window, at)
    ensures NoneDropped(Touch(x, key, window, at, n), k, e)
  {
  }

  lemma StepDropsNone(f: System, step: Step, k: Key, e: nat)
    requires Enabled(f, step) && !Drops(f, step, k)
    requires forall i :: 0 <= i < |f.instances| ==> NoneDropped(f.instances[i], k, e)
    ensures forall i :: 0 <= i < |f.instances| ==> NoneDropped(Next(f, step).instances[i], k, e)
  {
    if step.By? {
      var x := f.instances[step.i];
      assert NoneDropped(x, k, e);
      match step.act
      case Gate(key, window, at) => TouchKeepsBooks(x, key, window, at, 0, k, e);
      case Record(key, window, at) => TouchKeepsBooks(x, key, window, at, 1, k, e);
      case Admit(key, window, at, _) => TouchKeepsBooks(x, key, window, at, 1, k, e);
      case _ =>
    }
  }

  lemma {:induction false} RunDropsNone(f: System, steps: seq<Step>, k: Key, e: nat)
    requires Run(f, steps) && Lossless(f, steps, k)
    requires forall i :: 0 <= i < |f.instances| ==> NoneDropped(f.instances[i], k, e)
    ensures |After(f, steps).instances| == |f.instances|
    ensures forall i :: 0 <= i < |f.instances| ==> NoneDropped(After(f, steps).instances[i], k, e)
    decreases steps
  {
    if steps != [] {
      StepDropsNone(f, steps[0], k, e);
      RunDropsNone(Next(f, steps[0]), steps[1..], k, e);
    }
  }

  /** Admits recorded that the store has not seen yet. */
  function Held(x: Instance, k: Key, e: nat): nat {
    Unclaimed(x, k, e) + InFlight(x, k, e)
  }

  function HeldBy(xs: seq<Instance>, k: Key, e: nat): seq<nat> {
    seq(|xs|, i requires 0 <= i < |xs| => Held(xs[i], k, e))
  }

  lemma {:induction false} SumOfParts(a: seq<nat>, b: seq<nat>, c: seq<nat>)
    requires |a| == |b| == |c|
    requires forall i :: 0 <= i < |a| ==> a[i] == b[i] + c[i]
    ensures Sum(a) == Sum(b) + Sum(c)
  {
    if a != [] {
      SumOfParts(a[1..], b[1..], c[1..]);
    }
  }

  /**
   In a run without a lost push, a window change or a second unclaimed boundary, every admit recorded
   in the fleet is in the shared counter, expired with it, or still held by its instance.
   */
  lemma NothingElseIsLost(n: nat, interval: nat, steps: seq<Step>, k: Key, e: nat)
    requires Run(Init(n, interval), steps) && Lossless(Init(n, interval), steps, k)
    ensures var f := After(Init(n, interval), steps);
            Sum(RecordedBy(f.instances, k, e)) ==
            Get(f.counters, k, e) + Get(f.expired, k, e) + Sum(HeldBy(f.instances, k, e))
  {
    LedgerBalances(n, interval, steps, k, e);
    RunDropsNone(Init(n, interval), steps, k, e);
    var f := After(Init(n, interval), steps);
    forall i | 0 <= i < |f.instances|
      ensures RecordedBy(f.instances, k, e)[i] == PublishedBy(f.instances, k, e)[i] + HeldBy(f.instances, k, e)[i]
    {
      assert Balanced(f.instances[i], k, e) && NoneDropped(f.instances[i], k, e);
    }
    SumOfParts(RecordedBy(f.instances, k, e), PublishedBy(f.instances, k, e), HeldBy(f.instances, k, e));
  }
}
