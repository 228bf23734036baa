/**
 The slots for requests in flight (src/guard/gate.rs, src/guard/concurrency.rs, src/held.rs): taken
 on admission, carried by the response future and then by the response body, and let go when
 whichever of them holds the slot ends or is dropped. Any number of requests interleave.
 */
module InFlight {
  import opened Basics

  /** Where a request is; `slot` is whether the value that stage owns holds one. */
  datatype Stage =
    | Arrived
    | Deciding(slot: bool)      // admitted by the slots, before the shield
    | Handling(slot: bool)      // the response future
    | Answering(slot: bool)     // the response body
    | Refused
    | Gone

  /** A request with the slots it has taken and given back so far. */
  datatype Request = Request(stage: Stage, took: nat, gave: nat)

  datatype State = State(free: nat, requests: seq<Request>)

  /** The free slots and one request, after its step. */
  datatype Outcome = Outcome(free: nat, request: Request)

  datatype Op =
    | RefuseEarly               // no client address, or maintenance
    | Take
    | NeedsNone                 // the limit does not cover the request
    | ShieldRejects
    | ShieldPasses
    | DropFuture
    | Answer
    | Frame
    | EndBody                   // the last frame, or an error
    | DropBody

  predicate Can(stage: Stage, op: Op) {
    match op
    case RefuseEarly | Take | NeedsNone => stage.Arrived?
    case ShieldRejects | ShieldPasses => stage.Deciding?
    case DropFuture | Answer => stage.Handling?
    case Frame | EndBody | DropBody => stage.Answering?
  }

  predicate HasSlot(stage: Stage) {
    match stage
    case Deciding(slot) => slot
    case Handling(slot) => slot
    case Answering(slot) => slot
    case _ => false
  }

  /** The request moves to a stage without the slot its own stage held, if it held one. */
  function LetGo(free: nat, r: Request, stage: Stage): Outcome {
    if HasSlot(r.stage) then Outcome(free + 1, Request(stage, r.took, r.gave + 1))
    else Outcome(free, Request(stage, r.took, r.gave))
  }

  function Do(free: nat, r: Request, op: Op): Outcome
    requires Can(r.stage, op)
  {
    match op
    case RefuseEarly => Outcome(free, Request(Refused, r.took, r.gave))
    case NeedsNone => Outcome(free, Request(Deciding(false), r.took, r.gave))
    case Take =>
      if free > 0 then Outcome(free - 1, Request(Deciding(true), r.took + 1, r.gave))
      else Outcome(free, Request(Refused, r.took, r.gave))
    case ShieldRejects => LetGo(free, r, Refused)
    case ShieldPasses => Outcome(free, Request(Handling(HasSlot(r.stage)), r.took, r.gave))
    case DropFuture => LetGo(free, r, Gone)
    case Answer => Outcome(free, Request(Answering(HasSlot(r.stage)), r.took, r.gave))
    case Frame => Outcome(free, r)
    case EndBody => LetGo(free, r, Answering(false))
    case DropBody => LetGo(free, r, Gone)
  }

  datatype Step = Step(i: Id, op: Op)

  predicate Enabled(s: State, step: Step) {
    step.i < |s.requests| && Can(s.requests[step.i].stage, step.op)
  }

  function Next(s: State, step: Step): State
    requires Enabled(s, step)
  {
    var r := Do(s.free, s.requests[step.i], step.op);
    State(r.free, s.requests[step.i := r.request])
  }

  predicate Run(s: State, steps: seq<Step>)
    decreases steps
  {
    steps == [] || (Enabled(s, steps[0]) && Run(Next(s, steps[0]), steps[1..]))
  }

  function After(s: State, steps: seq<Step>): State
    requires Run(s, steps)
    decreases steps
  {
    if steps == [] then s else After(Next(s, steps[0]), steps[1..])
  }

  function Init(n: nat, max: nat): State {
    State(max, seq(n, _ => Request(Arrived, 0, 0)))
  }

  function Holds(r: Request): nat {
    if HasSlot(r.stage) then 1 else 0
  }

  function HeldBy(requests: seq<Request>): seq<nat> {
    seq(|requests|, i requires 0 <= i < |requests| => Holds(requests[i]))
  }

  /** A request takes at most one slot, and has given back what it no longer holds. */
  predicate Straight(r: Request) {
    if HasSlot(r.stage) then r.took == 1 && r.gave == 0
    else r.took == r.gave && r.took <= 1 && (r.stage.Arrived? ==> r.took == 0)
  }

  predicate Inv(s: State, max: nat) {
    && s.free + Sum(HeldBy(s.requests)) == max
    && forall i :: 0 <= i < |s.requests| ==> Straight(s.requests[i])
  }

  predicate Kept(free: nat, r: Request, after: Outcome) {
    Straight(after.request) && after.free + Holds(after.request) == free + Holds(r)
  }

  lemma LetGoKeeps(free: nat, r: Request, stage: Stage)
    requires Straight(r) && !HasSlot(stage) && !stage.Arrived?
    ensures Kept(free, r, LetGo(free, r, stage))
  {
  }

  /** The slot goes with the request to its next stage. */
  lemma CarryKeeps(free: nat, r: Request, stage: Stage)
    requires Straight(r) && HasSlot(stage) == HasSlot(r.stage) && !stage.Arrived?
    ensures Kept(free, r, Outcome(free, Request(stage, r.took, r.gave)))
  {
  }

  lemma TakeKeeps(free: nat, r: Request)
    requires Straight(r) && r.stage.Arrived?
    ensures Kept(free, r, Do(free, r, Take))
  {
  }

  lemma DoKeeps(free: nat, r: Request, op: Op)
    requires Can(r.stage, op) && Straight(r)
    ensures Kept(free, r, Do(free, r, op))
  {
    match op
    case RefuseEarly => CarryKeeps(free, r, Refused);
    case NeedsNone => CarryKeeps(free, r, Deciding(false));
    case Take => TakeKeeps(free, r);
    case ShieldRejects => LetGoKeeps(free, r, Refused);
    case ShieldPasses => CarryKeeps(free, r, Handling(HasSlot(r.stage)));
    case DropFuture => LetGoKeeps(free, r, Gone);
    case Answer => CarryKeeps(free, r, Answering(HasSlot(r.stage)));
    case Frame =>
    case EndBody => LetGoKeeps(free, r, Answering(false));
    case DropBody => LetGoKeeps(free, r, Gone);
  }

  lemma StepInv(s: State, max: nat, step: Step)
    requires Inv(s, max) && Enabled(s, step)
    ensures Inv(Next(s, step), max)
  {
    var r := s.requests[step.i];
    DoKeeps(s.free, r, step.op);
    var after := Do(s.free, r, step.op).request;
    assert HeldBy(s.requests[step.i := after]) == HeldBy(s.requests)[step.i := Holds(after)];
    SumUpdate(HeldBy(s.requests), step.i, Holds(after));
  }

  lemma {:induction false} RunInv(s: State, max: nat, steps: seq<Step>)
    requires Inv(s, max) && Run(s, steps)
    ensures Inv(After(s, steps), max)
    decreases steps
  {
    if steps != [] {
      StepInv(s, max, steps[0]);
      RunInv(Next(s, steps[0]), max, steps[1..]);
    }
  }

  /**
   Over every run: the free slots and the requests holding one make up the limit, a request takes at
   most one slot and gives it back at most once, and one that is refused or gone holds none.
   */
  lemma SlotsConserved(n: nat, max: nat, steps: seq<Step>)
    requires Run(Init(n, max), steps)
    ensures var s := After(Init(n, max), steps);
            && s.free + Sum(HeldBy(s.requests)) == max
            && (forall i :: 0 <= i < |s.requests| ==> s.requests[i].gave <= s.requests[i].took <= 1)
            && (forall i :: 0 <= i < |s.requests| && (s.requests[i].stage.Refused? || s.requests[i].stage.Gone?) ==>
                  s.requests[i].gave == s.requests[i].took)
  {
    InitInv(n, max);
    RunInv(Init(n, max), max, steps);
    var s := After(Init(n, max), steps);
    forall i | 0 <= i < |s.requests|
      ensures s.requests[i].gave <= s.requests[i].took <= 1
      ensures s.requests[i].stage.Refused? || s.requests[i].stage.Gone? ==> s.requests[i].gave == s.requests[i].took
    {
      assert Straight(s.requests[i]);
    }
  }

  lemma InitInv(n: nat, max: nat)
    ensures Inv(Init(n, max), max)
  {
    SumZero(HeldBy(Init(n, max).requests));
  }

  /** A request is turned away for want of a slot exactly when as many requests hold one as the limit allows. */
  lemma TurnedAwayWhenFull(n: nat, max: nat, steps: seq<Step>, i: Id)
    requires Run(Init(n, max), steps) && Enabled(After(Init(n, max), steps), Step(i, Take))
    ensures var s := After(Init(n, max), steps);
            Next(s, Step(i, Take)).requests[i].stage.Refused? <==> Sum(HeldBy(s.requests)) == max
  {
    SlotsConserved(n, max, steps);
  }

  // ---- for how long a slot is held -----------------------------------------------------------------

  /** What ends a request: turned away by the shield, its future dropped, its body ended or dropped. */
  predicate Ends(op: Op) {
    op.ShieldRejects? || op.DropFuture? || op.EndBody? || op.DropBody?
  }

  /** Something has ended the request. */
  predicate Ended(steps: seq<Step>, i: Id) {
    exists j :: 0 <= j < |steps| && steps[j].i == i && Ends(steps[j].op)
  }

  lemma EndedFirst(steps: seq<Step>, i: Id)
    requires steps != []
    ensures Ended(steps, i) <==> (steps[0].i == i && Ends(steps[0].op)) || Ended(steps[1..], i)
  {
    if Ended(steps[1..], i) {
      var j :| 0 <= j < |steps[1..]| && steps[1..][j].i == i && Ends(steps[1..][j].op);
      assert steps[j + 1].i == i && Ends(steps[j + 1].op);
    }
    if j :| 0 <= j < |steps| && steps[j].i == i && Ends(steps[j].op) {
      assert j > 0 ==> steps[1..][j - 1].i == i && Ends(steps[1..][j - 1].op);
    }
  }

  lemma {:induction false} HeldWhileNotEnded(s: State, max: nat, steps: seq<Step>, i: Id)
    requires Inv(s, max) && Run(s, steps) && i < |s.requests|
    ensures var r, after := s.requests[i], After(s, steps).requests;
            i < |after| &&
            (HasSlot(after[i].stage) <==>
              (if r.stage.Arrived? then after[i].took == 1 else HasSlot(r.stage)) && !Ended(steps, i)) &&
            (!r.stage.Arrived? ==> after[i].took == r.took)
    decreases steps
  {
    assert Straight(s.requests[i]);
    if steps != [] {
      StepInv(s, max, steps[0]);
      HeldWhileNotEnded(Next(s, steps[0]), max, steps[1..], i);
      EndedFirst(steps, i);
    }
  }

  /** A request holds the slot it took until something ends it, and gives it back then. */
  lemma SlotHeldUntilEnd(n: nat, max: nat, steps: seq<Step>, i: Id)
    requires Run(Init(n, max), steps) && i < n
    ensures |After(Init(n, max), steps).requests| > i
    ensures var r := After(Init(n, max), steps).requests[i];
            && (Holds(r) == 1 <==> r.took == 1 && !Ended(steps, i))
            && r.gave == if Ended(steps, i) then r.took else 0
  {
    InitInv(n, max);
    RunInv(Init(n, max), max, steps);
    HeldWhileNotEnded(Init(n, max), max, steps, i);
    assert Straight(After(Init(n, max), steps).requests[i]);
  }

  // ---- who is turned away --------------------------------------------------------------------------

  /** The step turns the request away: before the limit, by the shield, or with every slot held. */
  predicate TurnsAway(s: State, max: nat, step: Step, i: Id) {
    step.i == i &&
    (step.op.RefuseEarly? || step.op.ShieldRejects? || (step.op.Take? && Sum(HeldBy(s.requests)) == max))
  }

  predicate TurnedAwayIn(s: State, max: nat, steps: seq<Step>, i: Id)
    requires Run(s, steps)
    decreases steps
  {
    steps != [] && (TurnsAway(s, max, steps[0], i) || TurnedAwayIn(Next(s, steps[0]), max, steps[1..], i))
  }

  lemma {:induction false} RefusedAfter(s: State, max: nat, steps: seq<Step>, i: Id)
    requires Inv(s, max) && Run(s, steps) && i < |s.requests|
    ensures i < |After(s, steps).requests|
    ensures After(s, steps).requests[i].stage.Refused? <==>
              s.requests[i].stage.Refused? || TurnedAwayIn(s, max, steps, i)
    decreases steps
  {
    if steps != [] {
      StepInv(s, max, steps[0]);
      RefusedAfter(Next(s, steps[0]), max, steps[1..], i);
    }
  }

  /** A request ends refused exactly when one of those turned it away; the limit turns away none it does not cover. */
  lemma RefusedIff(n: nat, max: nat, steps: seq<Step>, i: Id)
    requires Run(Init(n, max), steps) && i < n
    ensures i < |After(Init(n, max), steps).requests|
    ensures After(Init(n, max), steps).requests[i].stage.Refused? <==> TurnedAwayIn(Init(n, max), max, steps, i)
  {
    InitInv(n, max);
    RefusedAfter(Init(n, max), max, steps, i);
  }
}
