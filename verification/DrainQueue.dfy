/** AtomicVecQueue: a queue behind one semaphore, used by any number of pushing and draining threads. */
module DrainQueue {
  import opened Sequences

  /** Items are moved, never looked at. */
  type Item = int

  datatype Thread =
    | Idle
    | Pushing(items: seq<Item>)
    | PushInside(items: seq<Item>)
    | PushRelease
    | Draining
    | CopyInside
    | ClearInside(batch: seq<Item>)
    | DrainRelease(batch: seq<Item>)
    | Drained(batch: seq<Item>)

  datatype State = State(queue: seq<Item>, semaphore: int, threads: seq<Thread>)

  /** What an idle thread starts: a push or an extend of these items, or a drain. */
  datatype Op = Extend(items: seq<Item>) | Drain

  predicate CanStep(s: State, i: nat) {
    i < |s.threads| && (s.threads[i].Pushing? || s.threads[i].Draining? ==> s.semaphore > 0)
  }

  function Step(s: State, i: nat, op: Op): State
    requires CanStep(s, i)
  {
    match s.threads[i]
    case Idle => s.(threads := s.threads[i := if op.Drain? then Draining else Pushing(op.items)])
    case Pushing(items) => s.(threads := s.threads[i := PushInside(items)], semaphore := s.semaphore - 1)
    case PushInside(items) => s.(threads := s.threads[i := PushRelease], queue := s.queue + items)
    case PushRelease => s.(threads := s.threads[i := Idle], semaphore := s.semaphore + 1)
    case Draining => s.(threads := s.threads[i := CopyInside], semaphore := s.semaphore - 1)
    case CopyInside => s.(threads := s.threads[i := ClearInside(s.queue)])
    case ClearInside(batch) => s.(threads := s.threads[i := DrainRelease(batch)], queue := [])
    case DrainRelease(batch) => s.(threads := s.threads[i := Drained(batch)], semaphore := s.semaphore + 1)
    case Drained(_) => s.(threads := s.threads[i := Idle])
  }

  predicate Inside(t: Thread) {
    t.PushInside? || t.PushRelease? || t.CopyInside? || t.ClearInside? || t.DrainRelease?
  }

  /** The threads between wait and post. */
  ghost function Holders(s: State): set<int> {
    set i | 0 <= i < |s.threads| && Inside(s.threads[i])
  }

  ghost predicate Inv(s: State) {
    && s.semaphore >= 0 && s.semaphore + |Holders(s)| == 1
    && (forall i :: 0 <= i < |s.threads| && s.threads[i].ClearInside? ==> s.threads[i].batch == s.queue)
  }

  /** Between wait and post there is one thread at most. */
  lemma OneInside(s: State, i: nat, j: nat)
    requires Inv(s) && i < |s.threads| && j < |s.threads| && Inside(s.threads[i])
    ensures s.semaphore == 0 && (i != j ==> !Inside(s.threads[j]))
  {
    var h := Holders(s);
    assert i in h;
    if i != j && Inside(s.threads[j]) {
      TwoElements(h, i, j);
      assert false;
    }
  }

  lemma TwoElements(h: set<int>, i: int, j: int)
    requires i in h && j in h && i != j
    ensures |h| >= 2
  {
    assert h == h - {i, j} + {i, j};
  }

  /** The step moves one thread, which enters, leaves, or stays where it was. */
  lemma HoldersAfter(s: State, i: nat, op: Op)
    requires CanStep(s, i)
    ensures var t, t' := s.threads[i], Step(s, i, op).threads[i];
            |Holders(Step(s, i, op))|
            == |Holders(s)| + (if Inside(t') then 1 else 0) - (if Inside(t) then 1 else 0)
  {
    var s' := Step(s, i, op);
    OthersStay(s, i, op);
    hide Step;
    HoldersBut(s, s', i);
    Without(Holders(s), i);
    Without(Holders(s'), i);
    hide Holders;
  }

  lemma OthersStay(s: State, i: nat, op: Op)
    requires CanStep(s, i)
    ensures var s' := Step(s, i, op);
            |s'.threads| == |s.threads| && forall j :: 0 <= j < |s.threads| && j != i ==> s'.threads[j] == s.threads[j]
  {
  }

  lemma HoldersBut(s: State, s': State, i: nat)
    requires |s'.threads| == |s.threads| && forall j :: 0 <= j < |s.threads| && j != i ==> s'.threads[j] == s.threads[j]
    requires i < |s.threads|
    ensures Holders(s') - {i} == Holders(s) - {i}
    ensures (i in Holders(s) <==> Inside(s.threads[i])) && (i in Holders(s') <==> Inside(s'.threads[i]))
  {
    forall j ensures j in Holders(s') - {i} <==> j in Holders(s) - {i} {
    }
  }

  lemma Without(h: set<int>, i: int)
    ensures |h - {i}| == |h| - (if i in h then 1 else 0)
  {
    assert i !in h ==> h - {i} == h;
  }

  lemma StepKeeps(s: State, i: nat, op: Op)
    requires CanStep(s, i) && Inv(s)
    ensures Inv(Step(s, i, op))
  {
    HoldersAfter(s, i, op);
    forall j | 0 <= j < |s.threads| && j != i && Inside(s.threads[i]) ensures !Inside(s.threads[j]) {
      OneInside(s, i, j);
    }
    hide Holders;
  }

  // ---------- Runs ----------

  datatype Move = Move(thread: nat, op: Op)

  function Initial(threads: nat): State {
    State([], 1, seq(threads, _ => Idle))
  }

  /** The state after any interleaving; a thread that is waiting makes no step. */
  function After(threads: nat, moves: seq<Move>): State {
    if moves == [] then Initial(threads)
    else
      var s, m := After(threads, moves[..|moves| - 1]), moves[|moves| - 1];
      if CanStep(s, m.thread) then Step(s, m.thread, m.op) else s
  }

  /** The semaphore is 0 or 1, and whoever is between wait and post is there alone. */
  lemma {:induction false} RunKeeps(threads: nat, moves: seq<Move>)
    ensures Inv(After(threads, moves)) && After(threads, moves).semaphore in {0, 1}
    ensures |After(threads, moves).threads| == threads
  {
    if moves == [] {
      assert Holders(Initial(threads)) == {};
    } else {
      var front, m := moves[..|moves| - 1], moves[|moves| - 1];
      RunKeeps(threads, front);
      hide Holders, Initial, Step;
      var s := After(threads, front);
      if CanStep(s, m.thread) {
        StepKeeps(s, m.thread, m.op);
        OthersStay(s, m.thread, m.op);
      }
    }
  }

  // ---------- Operations, by the moves that started them ----------

  /** The move with which the thread started its last operation, -1 before the first. */
  function StartOf(threads: nat, moves: seq<Move>, i: nat): (j: int)
    ensures -1 <= j < |moves| && (j >= 0 ==> moves[j].thread == i)
  {
    if moves == [] then -1
    else
      var front, m := moves[..|moves| - 1], moves[|moves| - 1];
      var s := After(threads, front);
      if m.thread == i && i < |s.threads| && s.threads[i] == Idle then |front| else StartOf(threads, front, i)
  }

  /** The last move is one that a thread in this critical section makes. */
  predicate MovesIn(threads: nat, moves: seq<Move>, clearing: bool) {
    moves != [] &&
    var s, i := After(threads, moves[..|moves| - 1]), moves[|moves| - 1].thread;
    i < |s.threads| && if clearing then s.threads[i].ClearInside? else s.threads[i].PushInside?
  }

  /** What the critical sections have done so far, in lock order: the pushes and the drains, each by the move that
      started it, and what each drain has taken. */
  datatype Done = Done(pushes: seq<int>, drains: seq<int>, batches: seq<seq<Item>>)

  function DoneBy(threads: nat, moves: seq<Move>): Done {
    if moves == [] then Done([], [], [])
    else
      var front := moves[..|moves| - 1];
      var i := moves[|moves| - 1].thread;
      DoneStep(DoneBy(threads, front), After(threads, front), i, StartOf(threads, front, i))
  }

  /** The next step is made by thread i, in the operation started by move j. */
  function DoneStep(done: Done, s: State, i: nat, j: int): Done {
    if i >= |s.threads| then done
    else if s.threads[i].PushInside? then done.(pushes := done.pushes + [j])
    else if s.threads[i].ClearInside? then done.(drains := done.drains + [j], batches := done.batches + [s.threads[i].batch])
    else done
  }

  function OpOf(moves: seq<Move>, j: int): Op {
    if 0 <= j < |moves| then moves[j].op else Drain
  }

  function ItemsOf(op: Op): seq<Item> {
    if op.Extend? then op.items else []
  }

  /** The items given to all pushes so far, in lock order. */
  function Pushed(threads: nat, moves: seq<Move>): seq<Item> {
    Flat(DoneBy(threads, moves).pushes, j => ItemsOf(OpOf(moves, j)))
  }

  function Concat(batches: seq<seq<Item>>): seq<Item> {
    Flat(batches, (batch: seq<Item>) => batch)
  }

  /** The drain is done, and has taken this batch. */
  predicate GotBatch(done: Done, j: int, batch: seq<Item>) {
    exists k :: 0 <= k < |done.drains| && k < |done.batches| && done.drains[k] == j && done.batches[k] == batch
  }

  /** Where a thread is in the operation that started with move j. */
  predicate CarriesOut(t: Thread, j: int, op: Op, done: Done) {
    match t
    case Idle => j >= 0 ==> if op.Extend? then j in done.pushes else j in done.drains
    case Pushing(items) => j >= 0 && op == Extend(items) && j !in done.pushes
    case PushInside(items) => j >= 0 && op == Extend(items) && j !in done.pushes
    case PushRelease => j >= 0 && op.Extend? && j in done.pushes
    case Draining => j >= 0 && op == Drain && j !in done.drains
    case CopyInside => j >= 0 && op == Drain && j !in done.drains
    case ClearInside(_) => j >= 0 && op == Drain && j !in done.drains
    case DrainRelease(batch) => j >= 0 && op == Drain && j in done.drains && GotBatch(done, j, batch)
    case Drained(batch) => j >= 0 && op == Drain && j in done.drains && GotBatch(done, j, batch)
  }

  /** Every operation done is of its kind, was started by some move, and is done once. */
  ghost predicate DoneOnce(moves: seq<Move>, done: Done) {
    && (forall j <- done.pushes :: 0 <= j < |moves| && moves[j].op.Extend?)
    && (forall j <- done.drains :: 0 <= j < |moves| && moves[j].op.Drain?)
    && (forall k, l :: 0 <= k < l < |done.pushes| ==> done.pushes[k] != done.pushes[l])
    && (forall k, l :: 0 <= k < l < |done.drains| ==> done.drains[k] != done.drains[l])
    && |done.drains| == |done.batches|
  }

  ghost predicate AllCarriedOut(threads: nat, moves: seq<Move>) {
    var s, done := After(threads, moves), DoneBy(threads, moves);
    forall i :: 0 <= i < |s.threads| ==>
      var j := StartOf(threads, moves, i);
      CarriesOut(s.threads[i], j, OpOf(moves, j), done)
  }

  /** The run after one more move. */
  lemma RunAfter(threads: nat, front: seq<Move>, m: Move)
    ensures var s, moves := After(threads, front), front + [m];
            && After(threads, moves) == (if CanStep(s, m.thread) then Step(s, m.thread, m.op) else s)
            && DoneBy(threads, moves) == DoneStep(DoneBy(threads, front), s, m.thread, StartOf(threads, front, m.thread))
            && forall i: nat ::
                 StartOf(threads, moves, i)
                 == if m.thread == i && i < |s.threads| && s.threads[i] == Idle then |front| else StartOf(threads, front, i)
  {
    var moves := front + [m];
    assert moves[..|moves| - 1] == front;
    hide Step, CanStep, DoneStep;
  }

  /** What is done for another thread leaves a thread where it is. */
  lemma OtherCarriedOut(t: Thread, j: int, op: Op, done: Done, s: State, i: nat, other: int)
    requires CarriesOut(t, j, op, done) && |done.drains| == |done.batches| && (j >= 0 ==> j != other)
    ensures CarriesOut(t, j, op, DoneStep(done, s, i, other))
  {
    if t.DrainRelease? || t.Drained? {
      var k :| 0 <= k < |done.drains| && k < |done.batches| && done.drains[k] == j && done.batches[k] == t.batch;
      var done' := DoneStep(done, s, i, other);
      assert done'.drains[k] == j && done'.batches[k] == t.batch;
    }
  }

  /** The thread that makes a step goes on in its operation, or starts the next. */
  lemma OwnCarriedOut(s: State, i: nat, j: int, op: Op, next: Op, n: nat, done: Done)
    requires CanStep(s, i) && CarriesOut(s.threads[i], j, op, done) && |done.drains| == |done.batches|
    requires n !in done.pushes && n !in done.drains
    ensures var t, done' := s.threads[i], DoneStep(done, s, i, j);
            CarriesOut(Step(s, i, next).threads[i], if t == Idle then n else j, if t == Idle then next else op, done')
  {
    var t, done' := s.threads[i], DoneStep(done, s, i, j);
    if t.ClearInside? {
      assert done'.drains[|done.drains|] == j && done'.batches[|done.drains|] == t.batch;
    }
  }

  /** The queue and the batches after a step. */
  lemma QueueAfter(s: State, i: nat, op: Op, j: int, done: Done)
    requires CanStep(s, i) && Inv(s)
    ensures var s', done', t := Step(s, i, op), DoneStep(done, s, i, j), s.threads[i];
            Concat(done'.batches) + s'.queue
            == Concat(done.batches) + s.queue + if t.PushInside? then t.items else []
  {
    var t := s.threads[i];
    if t.ClearInside? {
      assert (done.batches + [t.batch])[..|done.batches|] == done.batches;
      assert Concat(done.batches + [t.batch]) == Concat(done.batches) + t.batch;
    }
    hide Inv, Concat;
  }

  lemma {:induction false} SameItems(order: seq<int>, front: seq<Move>, m: Move)
    requires forall k :: 0 <= k < |order| ==> 0 <= order[k] < |front|
    ensures Flat(order, j => ItemsOf(OpOf(front + [m], j))) == Flat(order, j => ItemsOf(OpOf(front, j)))
  {
    if order != [] {
      SameItems(order[..|order| - 1], front, m);
    }
  }

  /** In every interleaving, the batches drained, in lock order, followed by the queue are the items given to the pushes,
      in lock order. */
  lemma {:induction false} DrainIsExact(threads: nat, moves: seq<Move>)
    ensures Concat(DoneBy(threads, moves).batches) + After(threads, moves).queue == Pushed(threads, moves)
    ensures DoneOnce(moves, DoneBy(threads, moves)) && AllCarriedOut(threads, moves)
  {
    hide After, DoneBy, Concat, Pushed, DoneOnce, AllCarriedOut, Inv;
    if moves == [] {
      NothingDoneYet(threads);
    } else {
      var front, m := moves[..|moves| - 1], moves[|moves| - 1];
      DrainIsExact(threads, front);
      assert front + [m] == moves;
      RunKeeps(threads, front);
      RunAfter(threads, front, m);
      MoveIsExact(threads, front, m);
    }
  }

  lemma NothingDoneYet(threads: nat)
    ensures Concat(DoneBy(threads, []).batches) + After(threads, []).queue == Pushed(threads, [])
    ensures DoneOnce([], DoneBy(threads, [])) && AllCarriedOut(threads, [])
  {
  }

  lemma PushedAfter(threads: nat, front: seq<Move>, m: Move)
    requires DoneOnce(front, DoneBy(threads, front)) && AllCarriedOut(threads, front)
    ensures var t := After(threads, front).threads;
            Pushed(threads, front + [m])
            == Pushed(threads, front)
               + if m.thread < |t| && t[m.thread].PushInside? then t[m.thread].items else []
  {
    var s, done, i := After(threads, front), DoneBy(threads, front), m.thread;
    var j := StartOf(threads, front, i);
    RunAfter(threads, front, m);
    PushesAreMoves(front, done);
    assert i < |s.threads| ==> CarriesOut(s.threads[i], j, OpOf(front, j), done);
    hide After, DoneBy, StartOf, DoneOnce, AllCarriedOut, Flat;
    SameItems(done.pushes, front, m);
    if i < |s.threads| && s.threads[i].PushInside? {
      OneMorePush(done.pushes, j, front + [m]);
    }
  }

  lemma PushesAreMoves(front: seq<Move>, done: Done)
    requires DoneOnce(front, done)
    ensures forall k :: 0 <= k < |done.pushes| ==> 0 <= done.pushes[k] < |front|
  {
    forall k | 0 <= k < |done.pushes| ensures 0 <= done.pushes[k] < |front| {
      assert done.pushes[k] in done.pushes;
    }
  }

  lemma OneMorePush(order: seq<int>, j: int, moves: seq<Move>)
    ensures Flat(order + [j], k => ItemsOf(OpOf(moves, k)))
         == Flat(order, k => ItemsOf(OpOf(moves, k))) + ItemsOf(OpOf(moves, j))
  {
    assert (order + [j])[..|order|] == order;
  }

  lemma StillOnce(front: seq<Move>, m: Move, s: State, done: Done, i: nat, j: int)
    requires DoneOnce(front, done) && j < |front|
    requires i < |s.threads| ==> CarriesOut(s.threads[i], j, OpOf(front, j), done)
    ensures DoneOnce(front + [m], DoneStep(done, s, i, j))
  {
    var done', moves := DoneStep(done, s, i, j), front + [m];
    assert forall k :: 0 <= k < |front| ==> moves[k] == front[k];
  }

  lemma StillCarriedOut(threads: nat, front: seq<Move>, m: Move)
    requires DoneOnce(front, DoneBy(threads, front)) && AllCarriedOut(threads, front)
    ensures AllCarriedOut(threads, front + [m])
  {
    RunAfter(threads, front, m);
    var moves, s, done, i := front + [m], After(threads, front), DoneBy(threads, front), m.thread;
    var j := StartOf(threads, front, i);
    var s', done' := After(threads, moves), DoneBy(threads, moves);
    if CanStep(s, i) {
      OthersStay(s, i, m.op);
    }
    hide After, DoneBy, Step, CarriesOut, DoneStep;
    forall k: nat | k < |s'.threads|
      ensures CarriesOut(s'.threads[k], StartOf(threads, moves, k), OpOf(moves, StartOf(threads, moves, k)), done')
    {
      var jk := StartOf(threads, front, k);
      assert CarriesOut(s.threads[k], jk, OpOf(front, jk), done);
      assert OpOf(moves, jk) == OpOf(front, jk);
      if k == i && CanStep(s, i) {
        OwnCarriedOut(s, i, j, OpOf(front, j), m.op, |front|, done);
      } else if k != i {
        OtherCarriedOut(s.threads[k], jk, OpOf(front, jk), done, s, i, j);
      } else {
        assert done' == done by { NothingDone(done, s, i, j); }
      }
    }
  }

  lemma NothingDone(done: Done, s: State, i: nat, j: int)
    requires !CanStep(s, i)
    ensures DoneStep(done, s, i, j) == done
  {
  }

  lemma MoveIsExact(threads: nat, front: seq<Move>, m: Move)
    requires Concat(DoneBy(threads, front).batches) + After(threads, front).queue == Pushed(threads, front)
    requires DoneOnce(front, DoneBy(threads, front)) && AllCarriedOut(threads, front) && Inv(After(threads, front))
    ensures var moves := front + [m];
            && Concat(DoneBy(threads, moves).batches) + After(threads, moves).queue == Pushed(threads, moves)
            && DoneOnce(moves, DoneBy(threads, moves)) && AllCarriedOut(threads, moves)
  {
    RunAfter(threads, front, m);
    var s, done, i := After(threads, front), DoneBy(threads, front), m.thread;
    var j := StartOf(threads, front, i);
    PushedAfter(threads, front, m);
    StillCarriedOut(threads, front, m);
    assert i < |s.threads| ==> CarriesOut(s.threads[i], j, OpOf(front, j), done);
    StillOnce(front, m, s, done, i, j);
    hide After, DoneBy, StartOf, Pushed, DoneOnce, AllCarriedOut, CarriesOut;
    if CanStep(s, i) {
      QueueAfter(s, i, m.op, j, done);
    } else {
      NothingDone(done, s, i, j);
    }
  }

  /** The move finds its thread idle, and starts an operation. */
  predicate Starts(threads: nat, moves: seq<Move>, j: nat) {
    j < |moves| && var s := After(threads, moves[..j]);
    moves[j].thread < |s.threads| && s.threads[moves[j].thread] == Idle
  }

  /** The operation started by move j is over: its thread is idle, or in a later one. */
  predicate IsOver(threads: nat, moves: seq<Move>, j: nat)
    requires j < |moves|
  {
    var s, i := After(threads, moves), moves[j].thread;
    StartOf(threads, moves, i) != j || (i < |s.threads| && s.threads[i] == Idle)
  }

  lemma {:induction false} OverIsDone(threads: nat, moves: seq<Move>, j: nat)
    requires Starts(threads, moves, j) && IsOver(threads, moves, j)
    ensures j in if moves[j].op.Extend? then DoneBy(threads, moves).pushes else DoneBy(threads, moves).drains
  {
    var front, m := moves[..|moves| - 1], moves[|moves| - 1];
    assert front + [m] == moves;
    RunAfter(threads, front, m);
    RunKeeps(threads, moves);
    RunKeeps(threads, front);
    DrainIsExact(threads, moves);
    DrainIsExact(threads, front);
    var i := moves[j].thread;
    if j < |front| {
      assert front[..j] == moves[..j];
      if IsOver(threads, front, j) {
        OverIsDone(threads, front, j);
      }
    }
    hide DoneOnce;
  }

  /** A push that is over has handed on its items, whole, in order and once: all that was handed on is what came before
      it, its items, and what came after it. */
  lemma PushHandsOn(threads: nat, moves: seq<Move>, j: nat) returns (before: seq<Item>, after: seq<Item>)
    requires Starts(threads, moves, j) && IsOver(threads, moves, j) && moves[j].op.Extend?
    ensures Concat(DoneBy(threads, moves).batches) + After(threads, moves).queue == before + moves[j].op.items + after
    ensures exists k :: 0 <= k < |DoneBy(threads, moves).pushes| && DoneBy(threads, moves).pushes[k] == j
              && before == Flat(DoneBy(threads, moves).pushes[..k], j => ItemsOf(OpOf(moves, j)))
  {
    OverIsDone(threads, moves, j);
    DrainIsExact(threads, moves);
    var pushes := DoneBy(threads, moves).pushes;
    hide After, DoneBy, Concat, Flat;
    var k :| 0 <= k < |pushes| && pushes[k] == j;
    before, after := PushAmong(pushes, k, moves);
  }

  lemma PushAmong(pushes: seq<int>, k: nat, moves: seq<Move>) returns (before: seq<Item>, after: seq<Item>)
    requires k < |pushes|
    ensures before == Flat(pushes[..k], j => ItemsOf(OpOf(moves, j)))
    ensures Flat(pushes, j => ItemsOf(OpOf(moves, j))) == before + ItemsOf(OpOf(moves, pushes[k])) + after
  {
    var items := (j: int) => ItemsOf(OpOf(moves, j));
    before, after := Flat(pushes[..k], items), Flat(pushes[k + 1..], items);
    assert pushes == pushes[..k] + [pushes[k]] + pushes[k + 1..];
    hide OpOf, ItemsOf, Flat;
    FlatAppend(pushes[..k] + [pushes[k]], pushes[k + 1..], items);
    FlatAppend(pushes[..k], [pushes[k]], items);
    FlatOne<int, Item>(pushes[k], items);
  }

  /** What a drain returns is one of the batches, at its own place in lock order. */
  lemma DrainReturnsItsBatch(threads: nat, moves: seq<Move>, i: nat)
    requires i < |After(threads, moves).threads| && After(threads, moves).threads[i].Drained?
    ensures var j := StartOf(threads, moves, i);
            0 <= j < |moves| && moves[j].op.Drain? && GotBatch(DoneBy(threads, moves), j, After(threads, moves).threads[i].batch)
  {
    DrainIsExact(threads, moves);
    var j := StartOf(threads, moves, i);
    assert CarriesOut(After(threads, moves).threads[i], j, OpOf(moves, j), DoneBy(threads, moves));
  }

  // ---------- Progress ----------

  /** How many steps its operation still takes of the thread. */
  function StepsLeft(t: Thread): nat {
    match t
    case Idle => 0
    case Pushing(_) => 3
    case PushInside(_) => 2
    case PushRelease => 1
    case Draining => 5
    case CopyInside => 4
    case ClearInside(_) => 3
    case DrainRelease(_) => 2
    case Drained(_) => 1
  }

  lemma OperationAdvances(s: State, i: nat, op: Op)
    requires CanStep(s, i) && s.threads[i] != Idle
    ensures StepsLeft(Step(s, i, op).threads[i]) == StepsLeft(s.threads[i]) - 1
  {
  }

  /** Whenever a thread has not finished, some unfinished thread can make a step. */
  lemma NoDeadlock(s: State, unfinished: nat) returns (i: nat)
    requires Inv(s) && unfinished < |s.threads| && s.threads[unfinished] != Idle
    ensures CanStep(s, i) && s.threads[i] != Idle
  {
    i := unfinished;
    if s.semaphore == 0 {
      var holder :| holder in Holders(s);
      i := holder;
    }
  }
}
