/** The operations on a shared variable, from the moves that start them to what they return and leave behind. */
module SharedOperations {
  import opened ReadersWriter
  import opened SharedValue

  // ---------- Which operation a thread is in ----------

  /** The move finds its thread idle, and starts an operation. */
  predicate Starts(s0: State, moves: seq<Move>, j: nat) {
    j < |moves| && var s := After(s0, moves[..j]);
    Allowed(s, moves[j]) && s.threads[moves[j].thread] == Idle
  }

  /** The thread has been in the operation started by that move ever since. */
  ghost predicate InOperation(s0: State, moves: seq<Move>, j: nat, i: nat) {
    && Starts(s0, moves, j) && moves[j].thread == i
    && forall k :: j < k <= |moves| ==>
         i < |After(s0, moves[..k]).threads| && After(s0, moves[..k]).threads[i] != Idle
  }

  /** How many values the variable had held before the move. */
  function HeldBefore(s0: State, moves: seq<Move>, j: nat): nat
    requires j <= |moves|
  {
    |After(s0, moves[..j]).history|
  }

  /** The thread carries out this operation, which started when the variable had held so many values: a reader remembers
      their number, and what an exclusive section has done and has still to do make up its script. */
  predicate CarriesOut(t: Thread, op: Op, held: nat) {
    match t
    case Idle => false
    case Entering(script) => op == Exclusive(script)
    case Inside(script, done, _, _, _, base) => op.Exclusive? && op.script == done + script && base >= held
    case Releasing(done, _, base) => op == Exclusive(done) && base >= held
    case Finished(done, _, base) => op == Exclusive(done) && base >= held
    case _ => op == Read && t.began == held
  }

  lemma StartCarriesOut(s: State, i: nat, op: Op)
    requires i < |s.threads| && s.threads[i] == Idle
    ensures CarriesOut(Step(s, i, op).threads[i], op, |s.history|)
  {
  }

  lemma StepCarriesOut(s: State, i: nat, next: Op, op: Op, held: nat)
    requires i < |s.threads| && CanStep(s, i) && CarriesOut(s.threads[i], op, held) && held <= |s.history|
    ensures var t := Step(s, i, next).threads[i]; t != Idle ==> CarriesOut(t, op, held)
  {
    var t := s.threads[i];
    if t.Inside? && t.script != [] {
      assert t.done + t.script == (t.done + [t.script[0]]) + t.script[1..];
    } else if t.Inside? {
      assert t.done + t.script == t.done;
    }
  }

  lemma StillInOperation(s0: State, moves: seq<Move>, j: nat, i: nat)
    requires moves != [] && InOperation(s0, moves[..|moves| - 1], j, i)
    requires i < |After(s0, moves).threads| && After(s0, moves).threads[i] != Idle
    ensures InOperation(s0, moves, j, i)
  {
    var front := moves[..|moves| - 1];
    hide After, Allowed;
    assert moves[..j] == front[..j] && moves[..|moves|] == moves;
    forall k | j < k <= |moves|
      ensures i < |After(s0, moves[..k]).threads| && After(s0, moves[..k]).threads[i] != Idle
    {
      assert k < |moves| ==> moves[..k] == front[..k];
    }
  }

  /** Every thread that is not idle carries out the operation of one move of its own. */
  lemma {:induction false} OperationOf(s0: State, moves: seq<Move>, i: nat) returns (j: nat)
    requires forall k :: 0 <= k < |s0.threads| ==> s0.threads[k] == Idle
    requires i < |After(s0, moves).threads| && After(s0, moves).threads[i] != Idle
    ensures j < |moves| && InOperation(s0, moves, j, i)
    ensures CarriesOut(After(s0, moves).threads[i], moves[j].op, HeldBefore(s0, moves, j))
  {
    assert moves[..|moves|] == moves;
    hide Step, CanStep, Fits, CarriesOut;
    HistoryGrows(s0, moves);
    var front, m := moves[..|moves| - 1], moves[|moves| - 1];
    HistoryGrows(s0, front);
    var s := After(s0, front);
    if Allowed(s, m) {
      OthersStay(s, m.thread, m.op);
    }
    if s.threads[i] == Idle {
      j := |front|;
      StartCarriesOut(s, i, m.op);
    } else {
      j := OperationOf(s0, front, i);
      StillInOperation(s0, moves, j, i);
      assert moves[..j] == front[..j];
      hide InOperation;
      HeldStays(s0, front, j);
      if Allowed(s, m) && m.thread == i {
        StepCarriesOut(s, i, m.op, moves[j].op, HeldBefore(s0, moves, j));
      }
    }
  }

  /** The history goes on from what it was before a move. */
  lemma {:induction false} HeldStays(s0: State, moves: seq<Move>, j: nat)
    requires j <= |moves|
    ensures HeldBefore(s0, moves, j) <= |After(s0, moves).history|
    ensures After(s0, moves).history[..HeldBefore(s0, moves, j)] == After(s0, moves[..j]).history
  {
    if j == |moves| {
      assert moves[..j] == moves;
    } else {
      var front := moves[..|moves| - 1];
      HeldStays(s0, front, j);
      assert front[..j] == moves[..j];
      var s, m := After(s0, front), moves[|moves| - 1];
      if Allowed(s, m) {
        hide Fits, Allowed, After;
        StepHistory(s, m.thread, m.op);
      }
    }
  }

  // ---------- What the operations do ----------

  /** A value read is never torn: it was the whole value of the variable at some time since the read was started. */
  lemma ReadIsNotTorn(v: Value, threads: nat, moves: seq<Move>, i: nat) returns (j: nat)
    requires i < |After(Initial(v, threads), moves).threads| && After(Initial(v, threads), moves).threads[i].Returned?
    ensures j < |moves| && InOperation(Initial(v, threads), moves, j, i) && moves[j].op == Read
    ensures var s, held := After(Initial(v, threads), moves), HeldBefore(Initial(v, threads), moves, j);
            held >= 1 && exists k :: held - 1 <= k < |s.history| && s.history[k] == s.threads[i].copied
  {
    hide InOperation, After;
    RunKeeps(v, threads, moves);
    j := OperationOf(Initial(v, threads), moves, i);
    assert ThreadData(After(Initial(v, threads), moves), After(Initial(v, threads), moves).threads[i]);
  }

  /** What an operation does in its exclusive section is atomic, and all of its script is done: from some place in the
      history on, reached since the operation was started, the variable held exactly the values of the script, one after
      the other, and the values got are those of a variable that nobody else touches. */
  lemma SectionIsAtomic(v: Value, threads: nat, moves: seq<Move>, i: nat) returns (j: nat)
    requires i < |After(Initial(v, threads), moves).threads| && After(Initial(v, threads), moves).threads[i].Finished?
    ensures j < |moves| && InOperation(Initial(v, threads), moves, j, i) && moves[j].op.Exclusive?
    ensures var s, script := After(Initial(v, threads), moves), moves[j].op.script;
            var base := s.threads[i].base;
            && 1 <= HeldBefore(Initial(v, threads), moves, j) <= base && base + |Puts(script)| <= |s.history|
            && s.history[base..base + |Puts(script)|] == Puts(script)
            && s.threads[i].got == Gets(s.history[base - 1], script)
  {
    hide InOperation, After;
    RunKeeps(v, threads, moves);
    j := OperationOf(Initial(v, threads), moves, i);
    RunKeeps(v, threads, moves[..j]);
    assert ThreadData(After(Initial(v, threads), moves), After(Initial(v, threads), moves).threads[i]);
  }

  /** write: the value is stored. */
  lemma WriteStores(v: Value, threads: nat, moves: seq<Move>, i: nat, w: Value) returns (j: nat)
    requires i < |After(Initial(v, threads), moves).threads| && After(Initial(v, threads), moves).threads[i].Finished?
    ensures j < |moves| && InOperation(Initial(v, threads), moves, j, i)
    ensures var s, held := After(Initial(v, threads), moves), HeldBefore(Initial(v, threads), moves, j);
            moves[j].op == Exclusive([Put(w)]) ==>
              exists k :: held <= k < |s.history| && s.history[k] == w
  {
    hide InOperation, After;
    j := SectionIsAtomic(v, threads, moves, i);
    var s := After(Initial(v, threads), moves);
    var base := s.threads[i].base;
    if moves[j].op == Exclusive([Put(w)]) {
      assert [Put(w)][..0] == [];
      assert Puts([Put(w)]) == [w];
      assert s.history[base..base + 1][0] == s.history[base];
    }
  }

  /** read_and_replace: the value is stored, and what is returned is the value that it replaced. */
  lemma ReplaceReturnsReplaced(v: Value, threads: nat, moves: seq<Move>, i: nat, w: Value) returns (j: nat)
    requires i < |After(Initial(v, threads), moves).threads| && After(Initial(v, threads), moves).threads[i].Finished?
    ensures j < |moves| && InOperation(Initial(v, threads), moves, j, i)
    ensures var s, held := After(Initial(v, threads), moves), HeldBefore(Initial(v, threads), moves, j);
            moves[j].op == Exclusive([Get, Put(w)]) ==>
              exists k :: 1 <= held <= k < |s.history| && s.history[k] == w && s.threads[i].got == [s.history[k - 1]]
  {
    hide InOperation, After;
    j := SectionIsAtomic(v, threads, moves, i);
    var s := After(Initial(v, threads), moves);
    var base := s.threads[i].base;
    if moves[j].op == Exclusive([Get, Put(w)]) {
      assert [Get, Put(w)][..1] == [Get] && [Get][..0] == [];
      assert Gets(s.history[base - 1], [Get]) == [s.history[base - 1]];
      assert Puts([Get, Put(w)]) == [w];
      assert s.history[base..base + 1][0] == s.history[base];
    }
  }

  /** Nothing else changes the variable: whatever it has held after its first value was put by a started operation. */
  ghost predicate WasPut(s0: State, moves: seq<Move>, w: Value) {
    exists j: nat :: Starts(s0, moves, j) && moves[j].op.Exclusive? && Put(w) in moves[j].op.script
  }

  lemma {:induction false} HistoryIsPut(v: Value, threads: nat, moves: seq<Move>)
    ensures var s := After(Initial(v, threads), moves);
            && |s.history| >= 1 && s.history[0] == v
            && forall k :: 1 <= k < |s.history| ==> WasPut(Initial(v, threads), moves, s.history[k])
  {
    var s0 := Initial(v, threads);
    if moves != [] {
      var front, m := moves[..|moves| - 1], moves[|moves| - 1];
      var s := After(s0, front);
      HistoryIsPut(v, threads, front);
      hide Step, CanStep, Fits, Initial;
      forall w | WasPut(s0, front, w) ensures WasPut(s0, moves, w) {
        var j: nat :| Starts(s0, front, j) && front[j].op.Exclusive? && Put(w) in front[j].op.script;
        assert front[..j] == moves[..j] && Starts(s0, moves, j);
      }
      if Allowed(s, m) {
        StepPuts(s, m.thread, m.op);
        var s' := Step(s, m.thread, m.op);
        if s'.history != s.history {
          AllIdle(v, threads);
          var j := OperationOf(s0, front, m.thread);
          assert front[..j] == moves[..j] && Starts(s0, moves, j);
          assert WasPut(s0, moves, s'.history[|s.history|]);
        }
      }
    }
  }

  lemma AllIdle(v: Value, threads: nat)
    ensures forall k :: 0 <= k < |Initial(v, threads).threads| ==> Initial(v, threads).threads[k] == Idle
  {
  }

  /** Only a thread with a put at the head of its script lengthens the history. */
  lemma StepPuts(s: State, i: nat, op: Op)
    requires i < |s.threads| && CanStep(s, i)
    ensures var s', t := Step(s, i, op), s.threads[i];
            s'.history == s.history
            || (t.Inside? && t.script != [] && t.script[0].Put? && s'.history == s.history + [t.script[0].v])
  {
  }

  // ---------- Operations end ----------

  function Left(width: nat, moved: nat): nat {
    if moved < width then width - moved else 0
  }

  /** The steps that the accesses of a script take, with all words still to go. */
  function ScriptSteps(width: nat, script: seq<Access>): nat {
    if script == [] then 0 else width + 1 + ScriptSteps(width, script[1..])
  }

  /** A bound on the steps that its operation still takes of the thread. */
  function StepsLeft(width: nat, t: Thread): nat {
    match t
    case Idle => 0
    case ReadEnter(_) => width + 14
    case ReadLoad(_) => width + 13
    case ReadStore(_, _) => width + 12
    case ReadTest(_) => width + 11
    case ReadWait(_) => width + 10
    case ReadAdmit(_) => width + 9
    case Copying(_, copied) => 8 + Left(width, |copied|)
    case ReadLeave(_, _) => 7
    case LeaveLoad(_, _) => 6
    case LeaveStore(_, _, _) => 5
    case LeaveTest(_, _) => 4
    case LeavePost(_, _) => 3
    case ReadRelease(_, _) => 2
    case Returned(_, _) => 1
    case Entering(script) => 4 + ScriptSteps(width, script)
    case Inside(script, _, _, partial, written, _) =>
      if script == [] then 3
      else 4 + Left(width, if script[0].Get? then |partial| else written) + ScriptSteps(width, script[1..])
    case Releasing(_, _, _) => 2
    case Finished(_, _, _) => 1
  }

  /** Every step of a thread brings the end of its operation nearer, an operation ends only by returning what it has
      read or done, and the width of the variable stays. */
  lemma OperationAdvances(s: State, i: nat, op: Op)
    requires i < |s.threads| && CanStep(s, i) && s.threads[i] != Idle
    ensures var s' := Step(s, i, op);
            && |s'.val| == |s.val| && StepsLeft(|s.val|, s'.threads[i]) < StepsLeft(|s.val|, s.threads[i])
            && (s'.threads[i] == Idle ==> s.threads[i].Returned? || s.threads[i].Finished?)
  {
    if s.threads[i].Inside? {
      SectionAdvances(s, i, s.threads[i]);
    } else {
      hide InsideStep, ScriptSteps;
    }
  }

  lemma SectionAdvances(s: State, i: nat, t: Thread)
    requires i < |s.threads| && t.Inside?
    ensures var s' := InsideStep(s, i, t);
            |s'.val| == |s.val| && StepsLeft(|s.val|, s'.threads[i]) < StepsLeft(|s.val|, t)
  {
    if t.script != [] {
      var rest := t.script[1..];
      assert rest != [] ==> ScriptSteps(|s.val|, rest) == |s.val| + 1 + ScriptSteps(|s.val|, rest[1..]);
      hide ScriptSteps;
    }
  }

  /** So in every reachable state in which some operation has not ended, one can go on, and does so a bounded number of
      times. */
  lemma OperationsEnd(v: Value, threads: nat, moves: seq<Move>, unfinished: nat, op: Op) returns (i: nat)
    requires var s := After(Initial(v, threads), moves); unfinished < |s.threads| && s.threads[unfinished] != Idle
    ensures var s := After(Initial(v, threads), moves);
            && i < |s.threads| && s.threads[i] != Idle && CanStep(s, i)
            && StepsLeft(|s.val|, Step(s, i, op).threads[i]) < StepsLeft(|s.val|, s.threads[i])
  {
    RunKeeps(v, threads, moves);
    var s := After(Initial(v, threads), moves);
    i := NoDeadlock(s, unfinished);
    hide After, Step, CanStep, StepsLeft;
    OperationAdvances(s, i, op);
  }
}
