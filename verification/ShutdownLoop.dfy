/** A worker that reads the termination flag, then drains its queue, then perhaps stops: fn_disk_io and
    fn_server_sender. Another thread pushes to the queue and raises the flag when it will push no more. */
module ShutdownLoop {

  datatype Worker<T> =
    | AtTop
    | Draining(last: bool)
    | Working(last: bool, rest: seq<T>)
    | Exited

  /** `pushed` is all that was ever pushed, `done` all that the worker has dealt with, each in order. */
  datatype Loop<T> = Loop(flag: bool, queue: seq<T>, worker: Worker<T>, pushed: seq<T>, done: seq<T>)

  datatype Move<T> = Push(item: T) | Raise | Work

  /** All pushes come before the flag is raised; a worker that has exited does nothing more. */
  predicate Allowed<T>(l: Loop<T>, m: Move<T>) {
    match m
    case Push(_) => !l.flag
    case Raise => true
    case Work => !l.worker.Exited?
  }

  function Step<T>(l: Loop<T>, m: Move<T>): Loop<T>
    requires Allowed(l, m)
  {
    match m
    case Push(item) => l.(queue := l.queue + [item], pushed := l.pushed + [item])
    case Raise => l.(flag := true)
    case Work => WorkStep(l)
  }

  function WorkStep<T>(l: Loop<T>): Loop<T> {
    match l.worker
    case AtTop => l.(worker := Draining(l.flag))
    case Draining(last) => l.(worker := Working(last, l.queue), queue := [])
    case Working(last, rest) =>
      if rest != [] then l.(worker := Working(last, rest[1..]), done := l.done + [rest[0]])
      else l.(worker := if last then Exited else AtTop)
    case Exited => l
  }

  function Initial<T>(): Loop<T> {
    Loop(false, [], AtTop, [], [])
  }

  /** The state after any interleaving of the two threads. */
  function After<T>(l0: Loop<T>, moves: seq<Move<T>>): Loop<T> {
    if moves == [] then l0
    else
      var l, m := After(l0, moves[..|moves| - 1]), moves[|moves| - 1];
      if Allowed(l, m) then Step(l, m) else l
  }

  function InHand<T>(w: Worker<T>): seq<T> {
    if w.Working? then w.rest else []
  }

  /** Nothing is lost or reordered; once the worker has seen the flag, nothing new can come. */
  ghost predicate Inv<T>(l: Loop<T>) {
    && l.pushed == l.done + InHand(l.worker) + l.queue
    && (l.worker.Draining? && l.worker.last ==> l.flag)
    && (l.worker.Working? && l.worker.last ==> l.flag && l.queue == [])
    && (l.worker.Exited? ==> l.flag && l.queue == [])
  }

  lemma StepKeeps<T>(l: Loop<T>, m: Move<T>)
    requires Inv(l) && Allowed(l, m)
    ensures Inv(Step(l, m))
  {
    var l' := Step(l, m);
    if m.Work? && l.worker.Working? && l.worker.rest != [] {
      var rest := l.worker.rest;
      assert l.done + rest + l.queue == (l.done + [rest[0]]) + rest[1..] + l.queue;
    } else if m.Push? {
      assert l'.pushed == l.done + InHand(l.worker) + (l.queue + [m.item]);
    } else {
      assert l'.pushed == l'.done + InHand(l'.worker) + l'.queue;
    }
  }

  function IsRaised<T>(moves: seq<Move<T>>): bool {
    moves != [] && (moves[|moves| - 1].Raise? || IsRaised(moves[..|moves| - 1]))
  }

  /** The items of the pushes before the flag is raised. */
  function PushedItems<T>(moves: seq<Move<T>>): seq<T> {
    if moves == [] then []
    else
      var front, m := moves[..|moves| - 1], moves[|moves| - 1];
      PushedItems(front) + if m.Push? && !IsRaised(front) then [m.item] else []
  }

  /** In every interleaving the worker deals with the items in the order of the pushes, and has dealt with all of
      them when it exits. */
  lemma {:induction false} NothingIsLeft<T>(moves: seq<Move<T>>)
    ensures var l := After(Initial<T>(), moves);
            && Inv(l) && l.flag == IsRaised(moves) && l.pushed == PushedItems(moves)
            && l.done <= PushedItems(moves)
            && (l.worker.Exited? ==> IsRaised(moves) && l.done == PushedItems(moves))
  {
    if moves != [] {
      var front, m := moves[..|moves| - 1], moves[|moves| - 1];
      NothingIsLeft(front);
      var l := After(Initial<T>(), front);
      if Allowed(l, m) {
        StepKeeps(l, m);
      }
    }
  }

  /** How many steps of the worker remain once the flag is raised. */
  function StepsLeft<T>(l: Loop<T>): nat {
    match l.worker
    case AtTop => 3 + |l.queue|
    case Draining(last) => if last then 2 + |l.queue| else 5 + |l.queue|
    case Working(last, rest) => if last then 1 + |rest| else 4 + |rest| + |l.queue|
    case Exited => 0
  }

  /** After the flag is raised, every step of the worker brings its exit one step nearer, so the join returns. */
  lemma WorkerExits<T>(l: Loop<T>)
    requires Inv(l) && l.flag && !l.worker.Exited?
    ensures StepsLeft(WorkStep(l)) == StepsLeft(l) - 1
    ensures WorkStep(l).flag && (StepsLeft(l) == 1 ==> WorkStep(l).worker.Exited?)
  {
  }

  function WorkSteps<T>(l: Loop<T>, n: nat): Loop<T>
    decreases n
  {
    if n == 0 then l else WorkSteps(WorkStep(l), n - 1)
  }

  lemma {:induction false} ExitIsReached<T>(l: Loop<T>)
    requires Inv(l) && l.flag
    ensures WorkSteps(l, StepsLeft(l)).worker.Exited?
    ensures WorkSteps(l, StepsLeft(l)).done == l.pushed
    decreases StepsLeft(l)
  {
    if !l.worker.Exited? {
      WorkerExits(l);
      StepKeeps(l, Work);
      ExitIsReached(WorkStep(l));
    }
  }
}
