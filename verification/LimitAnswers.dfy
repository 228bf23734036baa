/**
 What requests are told of their limits (src/shield/resolve.rs): in every interleaving, the last answer
 the service gave that was stored since the key was last evicted. The history is kept from the steps
 alone: what the service answered whom, and whether the cache was full when they looked.
 */
module LimitAnswers {
  import opened Basics
  import opened LimitRefresh

  /** What came of one task's fetch so far: the answer, if it was not a failure, and how the cache's size read. */
  datatype Note = Note(answer: Option<Limit>, full: bool)

  /** What each task was told, and for each cached key the limit a request should hear. */
  datatype Memory = Memory(notes: seq<Note>, known: map<Key, Limit>)

  /** What a task with this note stores: the answer, or for a failure no limit, where there is no entry. */
  function Remembered(known: map<Key, Limit>, key: Key, note: Note): map<Key, Limit> {
    if key !in known && note.full then known
    else if note.answer.Some? then known[key := note.answer.value]
    else if key in known then known
    else known[key := None]
  }

  function Recall(m: Memory, s: State, step: Step): Memory
    requires Enabled(s, step) && |m.notes| == |s.tasks|
  {
    match step
    case Tick => m
    case Evict(key) => m.(known := m.known - {key})
    case By(i, op) =>
      match op
      case Answer(limit) => m.(notes := m.notes[i := Note(Some(limit), false)])
      case Fail => m.(notes := m.notes[i := Note(None, false)])
      case ReadSize => m.(notes := m.notes[i := m.notes[i].(full := |s.cache| >= MAX_CACHE_ENTRIES)])
      case Insert => m.(known := Remembered(m.known, s.tasks[i].key, m.notes[i]))
      case _ => m
  }

  function RecallAll(m: Memory, s: State, steps: seq<Step>): (after: Memory)
    requires Run(s, steps) && |m.notes| == |s.tasks|
    ensures |After(s, steps).tasks| == |after.notes|
    decreases steps
  {
    if steps == [] then m else RecallAll(Recall(m, s, steps[0]), Next(s, steps[0]), steps[1..])
  }

  function Blank(n: nat): Memory {
    Memory(seq(n, _ => Note(None, false)), map[])
  }

  // ---- the cache agrees with the history -----------------------------------------------------------

  predicate NoteAgrees(t: Task, note: Note) {
    match t
    case Storing(_, cached, found) =>
      found == note.answer.Some? && cached.limit == if found then note.answer.value else None
    case Inserting(_, cached, found, full) =>
      found == note.answer.Some? && full == note.full && cached.limit == if found then note.answer.value else None
    case _ => true
  }

  ghost predicate Agrees(m: Memory, s: State) {
    && |m.notes| == |s.tasks|
    && (forall i :: 0 <= i < |s.tasks| ==> NoteAgrees(s.tasks[i], m.notes[i]))
    && m.known.Keys == s.cache.Keys
    && (forall key :: key in s.cache ==> m.known[key] == s.cache[key].limit)
  }

  lemma KnownStep(m: Memory, s: State, i: Id, op: Op)
    requires Inv(s) && Agrees(m, s) && Enabled(s, By(i, op))
    ensures var k, c := Recall(m, s, By(i, op)).known, Next(s, By(i, op)).cache;
            k.Keys == c.Keys && forall key :: key in c ==> k[key] == c[key].limit
  {
    assert Harmless(s, s.tasks[i]) && NoteAgrees(s.tasks[i], m.notes[i]);
  }

  lemma NotesStep(m: Memory, s: State, i: Id, op: Op, j: Id)
    requires Agrees(m, s) && Enabled(s, By(i, op)) && j < |s.tasks|
    ensures NoteAgrees(Next(s, By(i, op)).tasks[j], Recall(m, s, By(i, op)).notes[j])
  {
    assert NoteAgrees(s.tasks[j], m.notes[j]);
  }

  lemma AgreesStep(m: Memory, s: State, step: Step)
    requires Inv(s) && Agrees(m, s) && Enabled(s, step)
    ensures Agrees(Recall(m, s, step), Next(s, step))
  {
    match step
    case By(i, op) =>
      KnownStep(m, s, i, op);
      forall j | 0 <= j < |s.tasks|
        ensures NoteAgrees(Next(s, step).tasks[j], Recall(m, s, step).notes[j])
      {
        NotesStep(m, s, i, op, j);
      }
    case Evict(_) =>
    case Tick =>
  }

  lemma {:induction false} AgreesRun(m: Memory, s: State, steps: seq<Step>)
    requires Inv(s) && Agrees(m, s) && Run(s, steps)
    ensures Agrees(RecallAll(m, s, steps), After(s, steps)) && Inv(After(s, steps))
    decreases steps
  {
    if steps != [] {
      AgreesStep(m, s, steps[0]);
      StepInv(s, steps[0]);
      AgreesRun(Recall(m, s, steps[0]), Next(s, steps[0]), steps[1..]);
    }
  }

  /** Over every run a request is told exactly what the history says: the last answer stored, if any. */
  lemma ToldIsLastAnswer(n: nat, ttl: nat, steps: seq<Step>, key: Key)
    requires Run(Init(n, ttl), steps)
    ensures var s, known := After(Init(n, ttl), steps), RecallAll(Blank(n), Init(n, ttl), steps).known;
            && (key in s.cache <==> key in known)
            && Told(s, key) == if key in known then known[key] else None
  {
    InitInv(n, ttl);
    AgreesRun(Blank(n), Init(n, ttl), steps);
  }

  // ---- asking does lead to an answer ---------------------------------------------------------------

  /** A request asks for a refresh exactly when the key is not cached or its entry is as old as the time to live. */
  lemma AsksIff(s: State, i: Id, key: Key)
    requires Enabled(s, By(i, Resolve(key)))
    ensures Next(s, By(i, Resolve(key))).tasks[i] == Wants(key) <==> key !in s.cache || s.now >= s.cache[key].at + s.ttl
    ensures Told(Next(s, By(i, Resolve(key))), key) == Told(s, key)
  {
  }

  /** Its own steps, one after the other. */
  function Follow(s: State, i: Id, ops: seq<Op>): State
    requires i < |s.tasks|
    decreases |ops|
  {
    if ops == [] || !Can(s.tasks[i], ops[0]) then s else Follow(Next(s, By(i, ops[0])), i, ops[1..])
  }

  function Storage(): seq<Op> {
    [Insert] + ([Finish] + ([Release] + []))
  }

  /** What a task does when the service answers. */
  function Refresh(limit: Limit): seq<Op> {
    [Claim] + ([Acquire] + ([Answer(limit)] + ([ReadSize] + Storage())))
  }

  lemma FollowOne(s: State, i: Id, op: Op, rest: seq<Op>)
    requires i < |s.tasks| && Can(s.tasks[i], op)
    ensures Follow(s, i, [op] + rest) == Follow(Next(s, By(i, op)), i, rest)
  {
    assert ([op] + rest)[1..] == rest;
  }

  /**
   A caller that wants a key nobody is fetching, with a slot free, gets the service's answer stored and
   leaves everything else as it was, unless the key is new and the cache full.
   */
  lemma RefreshSucceeds(s: State, i: Id, key: Key, limit: Limit)
    requires i < |s.tasks| && s.tasks[i] == Wants(key) && key !in s.inflight && s.free > 0
    ensures var g := Follow(s, i, Refresh(limit));
            && g.tasks == s.tasks[i := Idle] && g.inflight == s.inflight && g.free == s.free
            && g.cache == if key !in s.cache && |s.cache| >= MAX_CACHE_ENTRIES then s.cache
                          else s.cache[key := Cached(limit, s.now, s.now)]
  {
    var a := s.(tasks := s.tasks[i := Claimed(key)], inflight := s.inflight + {key});
    FollowOne(s, i, Claim, [Acquire] + ([Answer(limit)] + ([ReadSize] + Storage())));
    assert Next(s, By(i, Claim)) == a;
    var b := a.(tasks := s.tasks[i := Fetching(key)], free := s.free - 1);
    FollowOne(a, i, Acquire, [Answer(limit)] + ([ReadSize] + Storage()));
    assert Next(a, By(i, Acquire)) == b;
    AnsweredAndDone(b, i, key, limit);
  }

  lemma AnsweredAndDone(b: State, i: Id, key: Key, limit: Limit)
    requires i < |b.tasks| && b.tasks[i] == Fetching(key)
    ensures var g := Follow(b, i, [Answer(limit)] + ([ReadSize] + Storage()));
            && g.tasks == b.tasks[i := Idle] && g.inflight == b.inflight - {key} && g.free == b.free + 1
            && g.cache == if key !in b.cache && |b.cache| >= MAX_CACHE_ENTRIES then b.cache
                          else b.cache[key := Cached(limit, b.now, b.now)]
  {
    var stored, full := Cached(limit, b.now, b.now), |b.cache| >= MAX_CACHE_ENTRIES;
    var c := b.(tasks := b.tasks[i := Storing(key, stored, true)]);
    FollowOne(b, i, Answer(limit), [ReadSize] + Storage());
    assert Next(b, By(i, Answer(limit))) == c;
    var d := c.(tasks := b.tasks[i := Inserting(key, stored, true, full)]);
    FollowOne(c, i, ReadSize, Storage());
    assert Next(c, By(i, ReadSize)) == d;
    StoredAndDone(d, i, key, stored, full);
  }

  lemma StoredAndDone(d: State, i: Id, key: Key, stored: Cached, full: bool)
    requires i < |d.tasks| && d.tasks[i] == Inserting(key, stored, true, full)
    ensures var g := Follow(d, i, Storage());
            && g.tasks == d.tasks[i := Idle] && g.inflight == d.inflight - {key} && g.free == d.free + 1
            && g.cache == if key !in d.cache && full then d.cache else d.cache[key := stored]
  {
    var cache := if key !in d.cache && full then d.cache else d.cache[key := stored];
    var e := d.(tasks := d.tasks[i := Finishing(key)], cache := cache);
    FollowOne(d, i, Insert, [Finish] + ([Release] + []));
    assert Next(d, By(i, Insert)) == e;
    var f := e.(tasks := d.tasks[i := Releasing], inflight := d.inflight - {key});
    FollowOne(e, i, Finish, [Release] + []);
    assert Next(e, By(i, Finish)) == f;
    FollowOne(f, i, Release, []);
    assert Next(f, By(i, Release)) == f.(tasks := d.tasks[i := Idle], free := d.free + 1);
  }
}
