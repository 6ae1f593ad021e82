/** AtomicMultipleReadersVar, as interleaved steps of any number of threads. One step is one load or store of a shared
    word, or one operation on a semaphore; values are copied and overwritten word by word. AtomicVar is the case in
    which all threads take the exclusive path. */
module ReadersWriter {

  /** The variable's value, as the words it is copied in. */
  type Word = int
  type Value = seq<Word>

  /** What is done between taking the writer semaphore and giving it back: write puts, read_and_replace gets and puts,
      and between lock and unlock there may be any number of locked_read and locked_write. */
  datatype Access = Get | Put(v: Value)

  datatype Op = Read | Exclusive(script: seq<Access>)

  /** Where a thread is. `began` is the number of values the variable had held when the read started, `base` that when
      the exclusive section was entered. */
  datatype Thread =
    | Idle
    | ReadEnter(began: nat)
    | ReadLoad(began: nat)
    | ReadStore(began: nat, loaded: int)
    | ReadTest(began: nat)
    | ReadWait(began: nat)
    | ReadAdmit(began: nat)
    | Copying(began: nat, copied: Value)
    | ReadLeave(began: nat, copied: Value)
    | LeaveLoad(began: nat, copied: Value)
    | LeaveStore(began: nat, copied: Value, loaded: int)
    | LeaveTest(began: nat, copied: Value)
    | LeavePost(began: nat, copied: Value)
    | ReadRelease(began: nat, copied: Value)
    | Returned(began: nat, copied: Value)
    | Entering(script: seq<Access>)
    | Inside(script: seq<Access>, done: seq<Access>, got: seq<Value>, partial: Value, written: nat, base: nat)
    | Releasing(done: seq<Access>, got: seq<Value>, base: nat)
    | Finished(done: seq<Access>, got: seq<Value>, base: nat)

  /** `history` is every value the variable has held, oldest first; the last one is current. */
  datatype State = State(
    val: Value, readerQueue: int, writerQueue: int, readerCount: int, threads: seq<Thread>, history: seq<Value>)

  // ---------- Steps ----------

  /** The thread is not waiting for a semaphore. */
  predicate CanStep(s: State, i: nat)
    requires i < |s.threads|
  {
    match s.threads[i]
    case ReadEnter(_) => s.readerQueue > 0
    case ReadWait(_) => s.writerQueue > 0
    case ReadLeave(_, _) => s.readerQueue > 0
    case Entering(_) => s.writerQueue > 0
    case _ => true
  }

  function To(s: State, i: nat, t: Thread): State
    requires i < |s.threads|
  {
    s.(threads := s.threads[i := t])
  }

  /** One step of a thread; an idle one starts the operation. */
  function Step(s: State, i: nat, op: Op): (s': State)
    requires i < |s.threads| && CanStep(s, i)
    ensures |s'.threads| == |s.threads|
  {
    match s.threads[i]
    case Idle => To(s, i, if op.Read? then ReadEnter(|s.history|) else Entering(op.script))
    case ReadEnter(began) => To(s.(readerQueue := s.readerQueue - 1), i, ReadLoad(began))
    case ReadLoad(began) => To(s, i, ReadStore(began, s.readerCount))
    case ReadStore(began, loaded) => To(s.(readerCount := loaded + 1), i, ReadTest(began))
    case ReadTest(began) => To(s, i, if s.readerCount == 1 then ReadWait(began) else ReadAdmit(began))
    case ReadWait(began) => To(s.(writerQueue := s.writerQueue - 1), i, ReadAdmit(began))
    case ReadAdmit(began) => To(s.(readerQueue := s.readerQueue + 1), i, Copying(began, []))
    case Copying(began, copied) =>
      To(s, i, if |copied| < |s.val| then Copying(began, copied + [s.val[|copied|]]) else ReadLeave(began, copied))
    case ReadLeave(began, copied) => To(s.(readerQueue := s.readerQueue - 1), i, LeaveLoad(began, copied))
    case LeaveLoad(began, copied) => To(s, i, LeaveStore(began, copied, s.readerCount))
    case LeaveStore(began, copied, loaded) => To(s.(readerCount := loaded - 1), i, LeaveTest(began, copied))
    case LeaveTest(began, copied) =>
      To(s, i, if s.readerCount == 0 then LeavePost(began, copied) else ReadRelease(began, copied))
    case LeavePost(began, copied) => To(s.(writerQueue := s.writerQueue + 1), i, ReadRelease(began, copied))
    case ReadRelease(began, copied) => To(s.(readerQueue := s.readerQueue + 1), i, Returned(began, copied))
    case Returned(_, _) => To(s, i, Idle)
    case Entering(script) =>
      To(s.(writerQueue := s.writerQueue - 1), i, Inside(script, [], [], [], 0, |s.history|))
    case Inside(_, _, _, _, _, _) => InsideStep(s, i, s.threads[i])
    case Releasing(done, got, base) => To(s.(writerQueue := s.writerQueue + 1), i, Finished(done, got, base))
    case Finished(_, _, _) => To(s, i, Idle)
  }

  /** Inside the exclusive section: the words of one access after the other, then the way out. A value is current as
      soon as all its words are written. */
  function InsideStep(s: State, i: nat, t: Thread): (s': State)
    requires i < |s.threads| && t.Inside?
    ensures |s'.threads| == |s.threads|
  {
    if t.script == [] then To(s, i, Releasing(t.done, t.got, t.base))
    else
      var next := t.(script := t.script[1..], done := t.done + [t.script[0]]);
      match t.script[0]
      case Get =>
        if |t.partial| < |s.val| then To(s, i, t.(partial := t.partial + [s.val[|t.partial|]]))
        else To(s, i, next.(got := t.got + [t.partial], partial := []))
      case Put(v) =>
        if t.written < |s.val| && t.written < |v| then
          To(s.(val := s.val[t.written := v[t.written]]), i, t.(written := t.written + 1))
        else To(s.(history := s.history + [v]), i, next.(written := 0))
  }

  // ---------- Counting threads ----------

  /** How many threads are between increment and decrement, hold the reader semaphore, are at the first-reader test,
      are at the last-reader test, and are in the exclusive section. */
  datatype Tally = Tally(counted: int, holding: int, first: int, last: int, exclusive: int)

  function Weight(t: Thread): Tally {
    var first, last := t.ReadTest? || t.ReadWait?, t.LeaveTest? || t.LeavePost?;
    var leaving := t.LeaveLoad? || t.LeaveStore?;
    Tally(
      if first || t.ReadAdmit? || t.Copying? || t.ReadLeave? || leaving then 1 else 0,
      if first || last || leaving || t.ReadLoad? || t.ReadStore? || t.ReadAdmit? || t.ReadRelease? then 1 else 0,
      if first then 1 else 0,
      if last then 1 else 0,
      if t.Inside? || t.Releasing? then 1 else 0)
  }

  function Plus(a: Tally, b: Tally): Tally {
    Tally(a.counted + b.counted, a.holding + b.holding, a.first + b.first, a.last + b.last, a.exclusive + b.exclusive)
  }

  function Total(threads: seq<Thread>): Tally {
    if threads == [] then Tally(0, 0, 0, 0, 0)
    else Plus(Total(threads[..|threads| - 1]), Weight(threads[|threads| - 1]))
  }

  /** The total is that of the other threads and of the one. */
  ghost function Others(threads: seq<Thread>, i: nat): Tally
    requires i < |threads|
  {
    var t, w := Total(threads), Weight(threads[i]);
    Tally(t.counted - w.counted, t.holding - w.holding, t.first - w.first, t.last - w.last, t.exclusive - w.exclusive)
  }

  ghost predicate NonNegative(t: Tally) {
    t.counted >= 0 && t.holding >= 0 && t.first >= 0 && t.last >= 0 && t.exclusive >= 0
    && t.first + t.last <= t.holding && t.first <= t.counted
  }

  lemma {:induction false} OthersKept(threads: seq<Thread>, i: nat, t: Thread)
    requires i < |threads|
    ensures Others(threads[i := t], i) == Others(threads, i)
    ensures NonNegative(Others(threads, i))
  {
    hide Weight;
    var front, last := threads[..|threads| - 1], threads[|threads| - 1];
    if i < |front| {
      assert threads[i := t][..|front|] == front[i := t];
      OthersKept(front, i, t);
      WeightNonNegative(last);
    } else {
      assert threads[i := t][..|front|] == front;
      TotalNonNegative(front);
    }
  }

  lemma WeightNonNegative(t: Thread)
    ensures NonNegative(Weight(t))
  {
  }

  lemma {:induction false} TotalNonNegative(threads: seq<Thread>)
    ensures NonNegative(Total(threads))
  {
    if threads != [] {
      TotalNonNegative(threads[..|threads| - 1]);
    }
  }

  /** Two threads count at least for themselves. */
  lemma {:induction false} TwoCounted(threads: seq<Thread>, i: nat, j: nat)
    requires i < |threads| && j < |threads| && i != j
    ensures var t, v, w := Total(threads), Weight(threads[i]), Weight(threads[j]);
            && v.counted + w.counted <= t.counted && v.exclusive + w.exclusive <= t.exclusive
            && v.first + w.first <= t.first && v.holding + w.holding <= t.holding
            && (v.counted - v.first) + (w.counted - w.first) <= t.counted - t.first
  {
    var last := |threads| - 1;
    var front := threads[..last];
    TotalNonNegative(front);
    if i == last {
      OthersKept(front, j, Idle);
    } else if j == last {
      OthersKept(front, i, Idle);
    } else {
      TwoCounted(front, i, j);
    }
  }

  // ---------- The protocol ----------

  /** Whether the readers, as a group, hold the writer semaphore: from the first-reader test of the first one to the
      last-reader test of the last one. */
  function ReadersHold(readerCount: int, t: Tally): int {
    if t.first > 0 && readerCount == 1 then 0
    else if t.last > 0 && readerCount == 0 then 1
    else if readerCount > 0 then 1
    else 0
  }

  /** What a thread knows of the count while it holds the reader semaphore. */
  predicate Knows(t: Thread, readerCount: int) {
    && (t.ReadStore? || t.LeaveStore? ==> t.loaded == readerCount)
    && (t.ReadWait? ==> readerCount == 1)
    && (t.LeavePost? ==> readerCount == 0)
  }

  ghost predicate Balanced(s: State) {
    var t := Total(s.threads);
    && s.readerCount == t.counted
    && s.readerQueue >= 0 && s.readerQueue + t.holding == 1
    && s.writerQueue >= 0 && s.writerQueue + t.exclusive + ReadersHold(s.readerCount, t) == 1
  }

  ghost predicate Protocol(s: State) {
    Balanced(s) && forall i :: 0 <= i < |s.threads| ==> Knows(s.threads[i], s.readerCount)
  }

  lemma StepKeepsProtocol(s: State, i: nat, op: Op)
    requires i < |s.threads| && CanStep(s, i) && Protocol(s)
    ensures Protocol(Step(s, i, op))
  {
    hide Balanced, Step, CanStep;
    StepIsBalanced(s, i, op);
    var s' := Step(s, i, op);
    OthersStay(s, i, op);
    forall j | 0 <= j < |s'.threads| ensures Knows(s'.threads[j], s'.readerCount) {
      if j == i {
        OwnCount(s, i, op);
      } else {
        OtherCount(s, i, op, j);
      }
    }
  }

  lemma StepIsBalanced(s: State, i: nat, op: Op)
    requires i < |s.threads| && CanStep(s, i) && Protocol(s)
    ensures Balanced(Step(s, i, op))
  {
    var s' := Step(s, i, op);
    OthersKept(s.threads, i, s'.threads[i]);
    OthersStay(s, i, op);
    assert s'.threads == s.threads[i := s'.threads[i]];
    if s.threads[i].Inside? {
      InsideStays(s, i, op);
      hide Step, CanStep, Total;
    } else {
      TallyKept(s, s', i, op);
    }
  }

  lemma TallyKept(s: State, s': State, i: nat, op: Op)
    requires i < |s.threads| && CanStep(s, i) && !s.threads[i].Inside? && s' == Step(s, i, op)
    requires Balanced(s) && Knows(s.threads[i], s.readerCount)
    requires Others(s'.threads, i) == Others(s.threads, i) && NonNegative(Others(s.threads, i))
    ensures Balanced(s')
  {
    hide Total, InsideStep;
  }

  lemma InsideStays(s: State, i: nat, op: Op)
    requires i < |s.threads| && CanStep(s, i) && s.threads[i].Inside?
    ensures var s' := Step(s, i, op);
            && (s'.threads[i].Inside? || s'.threads[i].Releasing?)
            && s'.readerCount == s.readerCount && s'.readerQueue == s.readerQueue && s'.writerQueue == s.writerQueue
  {
  }

  lemma OthersStay(s: State, i: nat, op: Op)
    requires i < |s.threads| && CanStep(s, i)
    ensures forall j :: 0 <= j < |s.threads| && j != i ==> Step(s, i, op).threads[j] == s.threads[j]
  {
  }

  lemma OwnCount(s: State, i: nat, op: Op)
    requires i < |s.threads| && CanStep(s, i) && Knows(s.threads[i], s.readerCount)
    ensures Knows(Step(s, i, op).threads[i], Step(s, i, op).readerCount)
  {
    if s.threads[i].Inside? {
      InsideStays(s, i, op);
    } else {
      hide InsideStep;
    }
  }

  /** Only a holder of the reader semaphore changes the count, and only a holder relies on it. */
  lemma OtherCount(s: State, i: nat, op: Op, j: nat)
    requires i < |s.threads| && CanStep(s, i) && Protocol(s) && j < |s.threads| && i != j
    ensures Knows(s.threads[j], Step(s, i, op).readerCount)
  {
    TwoCounted(s.threads, i, j);
    CountChange(s, i, op);
    hide Step, CanStep, Total;
  }

  lemma CountChange(s: State, i: nat, op: Op)
    requires i < |s.threads| && CanStep(s, i)
    ensures Step(s, i, op).readerCount != s.readerCount ==> Weight(s.threads[i]).holding == 1
  {
    if s.threads[i].Inside? {
      InsideStays(s, i, op);
    } else {
      hide InsideStep;
    }
  }

  /** A reader that has been admitted and has not yet left. */
  predicate Reading(t: Thread) {
    t.ReadAdmit? || t.Copying? || t.ReadLeave? || t.LeaveLoad? || t.LeaveStore?
  }

  predicate Writing(t: Thread) {
    t.Inside? || t.Releasing?
  }

  /** No writer is in its section together with a reader or another writer. */
  lemma MutualExclusion(s: State, i: nat, j: nat)
    requires Protocol(s) && i < |s.threads| && j < |s.threads| && i != j
    ensures Writing(s.threads[i]) ==> !Writing(s.threads[j]) && !Reading(s.threads[j])
    ensures s.readerQueue in {0, 1} && s.writerQueue in {0, 1}
  {
    TwoCounted(s.threads, i, j);
    TotalNonNegative(s.threads);
  }

  // ---------- No deadlock ----------

  datatype Part = Counted | Holding | Exclusives

  function PartOf(t: Tally, part: Part): int {
    match part
    case Counted => t.counted
    case Holding => t.holding
    case Exclusives => t.exclusive
  }

  /** A thread that counts. */
  lemma {:induction false} FindThread(threads: seq<Thread>, part: Part) returns (i: nat)
    requires PartOf(Total(threads), part) > 0
    ensures i < |threads| && PartOf(Weight(threads[i]), part) > 0
  {
    i := |threads| - 1;
    if PartOf(Weight(threads[i]), part) <= 0 {
      i := FindThread(threads[..i], part);
    }
  }

  /** With nobody in the exclusive section, no holder of the reader semaphore waits, and when there is none, nobody
      between increment and decrement waits. */
  lemma ReaderSteps(s: State, i: nat)
    requires Protocol(s) && i < |s.threads| && Total(s.threads).exclusive == 0
    requires Weight(s.threads[i]).holding > 0 || (Weight(s.threads[i]).counted > 0 && Total(s.threads).holding == 0)
    ensures s.threads[i] != Idle && CanStep(s, i)
  {
    OthersKept(s.threads, i, Idle);
  }

  lemma WriterSteps(s: State, i: nat)
    requires i < |s.threads| && Weight(s.threads[i]).exclusive > 0
    ensures s.threads[i] != Idle && CanStep(s, i)
  {
  }

  /** With both semaphores free, nobody waits. */
  lemma AnyoneSteps(s: State, i: nat)
    requires i < |s.threads| && s.readerQueue > 0 && s.writerQueue > 0
    ensures CanStep(s, i)
  {
  }

  /** Whenever some thread has not finished, some unfinished thread can make a step. */
  lemma NoDeadlock(s: State, unfinished: nat) returns (i: nat)
    requires Protocol(s) && unfinished < |s.threads| && s.threads[unfinished] != Idle
    ensures i < |s.threads| && s.threads[i] != Idle && CanStep(s, i)
  {
    hide CanStep, Weight, Total;
    TotalNonNegative(s.threads);
    var t := Total(s.threads);
    if t.exclusive > 0 {
      i := FindThread(s.threads, Exclusives);
      WriterSteps(s, i);
    } else if t.holding > 0 {
      i := FindThread(s.threads, Holding);
      ReaderSteps(s, i);
    } else if t.counted > 0 {
      i := FindThread(s.threads, Counted);
      ReaderSteps(s, i);
    } else {
      i := unfinished;
      AnyoneSteps(s, i);
    }
  }
}
