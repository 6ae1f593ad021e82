/** The value that readers and writers share: what they copy and what they leave behind, over every interleaving. */
module SharedValue {
  import opened ReadersWriter

  // ---------- The values ----------

  ghost predicate HasHistory(s: State) {
    |s.history| >= 1 && forall v <- s.history :: |v| == |s.val|
  }

  function Current(s: State): Value
    requires s.history != []
  {
    s.history[|s.history| - 1]
  }

  /** The value was current at some time since the operation began. */
  ghost predicate Seen(history: seq<Value>, began: nat, v: Value) {
    began >= 1 && exists k :: began - 1 <= k < |history| && history[k] == v
  }

  /** The values put, in order. */
  function Puts(done: seq<Access>): seq<Value> {
    if done == [] then []
    else Puts(done[..|done| - 1]) + (if done[|done| - 1].Put? then [done[|done| - 1].v] else [])
  }

  /** The value of a variable that only these accesses have touched. */
  function ValueAfter(v: Value, done: seq<Access>): Value {
    if done == [] then v
    else if done[|done| - 1].Put? then done[|done| - 1].v
    else ValueAfter(v, done[..|done| - 1])
  }

  /** What the accesses get if nobody else interferes. */
  function Gets(v: Value, done: seq<Access>): seq<Value> {
    if done == [] then []
    else Gets(v, done[..|done| - 1]) + (if done[|done| - 1].Get? then [ValueAfter(v, done[..|done| - 1])] else [])
  }

  /** From `base` on the variable held exactly the values put, and the values got are those of a variable that nobody
      else has touched. */
  ghost predicate Alone(history: seq<Value>, base: nat, done: seq<Access>, got: seq<Value>) {
    && base >= 1 && base + |Puts(done)| <= |history|
    && history[base..base + |Puts(done)|] == Puts(done)
    && got == Gets(history[base - 1], done)
  }

  predicate ScriptFits(s: State, script: seq<Access>) {
    forall a <- script :: a.Put? ==> |a.v| == |s.val|
  }

  /** The words written are the new ones, the rest still those of the current value; the words copied are those of the
      current value. */
  ghost predicate InsideData(s: State, t: Thread)
    requires HasHistory(s) && t.Inside?
  {
    var putting := t.script != [] && t.script[0].Put?;
    && ScriptFits(s, t.script)
    && Alone(s.history, t.base, t.done, t.got) && |s.history| == t.base + |Puts(t.done)|
    && |t.partial| <= |s.val| && t.partial == Current(s)[..|t.partial|]
    && t.written <= |s.val|
    && (t.script == [] || t.script[0].Put? ==> t.partial == [])
    && (!putting ==> t.written == 0)
    && s.val == if putting then t.script[0].v[..t.written] + Current(s)[t.written..] else Current(s)
  }

  ghost predicate ThreadData(s: State, t: Thread)
    requires HasHistory(s)
  {
    match t
    case Idle => true
    case Copying(began, copied) =>
      1 <= began <= |s.history| && |copied| <= |s.val| && copied == Current(s)[..|copied|]
    case ReadLeave(began, copied) => Seen(s.history, began, copied)
    case LeaveLoad(began, copied) => Seen(s.history, began, copied)
    case LeaveStore(began, copied, _) => Seen(s.history, began, copied)
    case LeaveTest(began, copied) => Seen(s.history, began, copied)
    case LeavePost(began, copied) => Seen(s.history, began, copied)
    case ReadRelease(began, copied) => Seen(s.history, began, copied)
    case Returned(began, copied) => Seen(s.history, began, copied)
    case Entering(script) => ScriptFits(s, script)
    case Inside(_, _, _, _, _, _) => InsideData(s, t)
    case Releasing(done, got, base) =>
      Alone(s.history, base, done, got) && s.val == Current(s)
    case Finished(done, got, base) => Alone(s.history, base, done, got)
    case _ => 1 <= t.began <= |s.history|
  }

  ghost predicate Inv(s: State) {
    && Protocol(s) && HasHistory(s)
    && (Total(s.threads).exclusive == 0 ==> s.val == Current(s))
    && forall i :: 0 <= i < |s.threads| ==> ThreadData(s, s.threads[i])
  }

  /** New values are of the variable's type. */
  predicate Fits(s: State, op: Op) {
    op.Exclusive? ==> ScriptFits(s, op.script)
  }

  /** While a reader reads, nobody writes; while a writer may enter, nobody writes either. */
  lemma NobodyWrites(s: State, i: nat)
    requires Protocol(s) && i < |s.threads|
    ensures Reading(s.threads[i]) ==> Total(s.threads).exclusive == 0
    ensures s.writerQueue > 0 ==> Total(s.threads).exclusive == 0
  {
    OthersKept(s.threads, i, Idle);
    TotalNonNegative(s.threads);
  }

  /** The thread is putting a value. */
  predicate Putting(t: Thread) {
    t.Inside? && t.script != [] && t.script[0].Put?
  }

  lemma OnlyPuttingWrites(s: State, i: nat, op: Op)
    requires i < |s.threads| && CanStep(s, i) && !Putting(s.threads[i])
    ensures Step(s, i, op).val == s.val && Step(s, i, op).history == s.history
  {
  }

  /** A step that neither writes nor lengthens the history leaves the data of all other threads as they are. */
  lemma SameData(s: State, s': State, t: Thread)
    requires HasHistory(s) && s'.val == s.val && s'.history == s.history
    ensures HasHistory(s') && (ThreadData(s, t) ==> ThreadData(s', t))
  {
    hide Seen, Alone, Puts;
  }

  // ---------- The thread's own data ----------

  lemma CopyingOwnData(s: State, i: nat, op: Op)
    requires i < |s.threads| && s.threads[i].Copying? && HasHistory(s) && ThreadData(s, s.threads[i]) && s.val == Current(s)
    ensures var s' := Step(s, i, op); HasHistory(s') && ThreadData(s', s'.threads[i])
  {
    var t, current := s.threads[i], Current(s);
    var k := |t.copied|;
    if k < |s.val| {
      assert current[..k + 1] == current[..k] + [current[k]];
    } else {
      assert s.history[|s.history| - 1] == t.copied;
    }
  }

  lemma EnteringOwnData(s: State, i: nat, op: Op)
    requires i < |s.threads| && s.threads[i].Entering? && CanStep(s, i)
    requires HasHistory(s) && ThreadData(s, s.threads[i]) && s.val == Current(s)
    ensures var s' := Step(s, i, op); HasHistory(s') && ThreadData(s', s'.threads[i])
  {
    var script := s.threads[i].script;
    assert script != [] && script[0].Put? ==> script[0] in script && script[0].v[..0] + Current(s)[0..] == Current(s);
  }

  /** Getting a word, finishing a get, and leaving. */
  lemma GettingOwnData(s: State, i: nat, op: Op)
    requires i < |s.threads| && s.threads[i].Inside? && !Putting(s.threads[i])
    requires HasHistory(s) && ThreadData(s, s.threads[i])
    ensures var s' := Step(s, i, op); HasHistory(s') && ThreadData(s', s'.threads[i])
  {
    var t := s.threads[i];
    if t.script != [] && |t.partial| < |s.val| {
      WordOwnData(s, i, op);
    } else if t.script != [] {
      GotOwnData(s, i, op);
    } else {
      hide Alone, Puts, ScriptFits;
    }
  }

  lemma WordOwnData(s: State, i: nat, op: Op)
    requires i < |s.threads| && s.threads[i].Inside? && s.threads[i].script != [] && !Putting(s.threads[i])
    requires |s.threads[i].partial| < |s.val| && HasHistory(s) && ThreadData(s, s.threads[i])
    ensures var s' := Step(s, i, op); HasHistory(s') && ThreadData(s', s'.threads[i])
  {
    hide Alone, Puts;
    var t, current := s.threads[i], Current(s);
    var k := |t.partial|;
    assert Step(s, i, op) == To(s, i, t.(partial := t.partial + [s.val[k]]));
    hide Step, InsideStep;
    assert current[..k + 1] == current[..k] + [current[k]];
  }

  lemma GotOwnData(s: State, i: nat, op: Op)
    requires i < |s.threads| && s.threads[i].Inside? && s.threads[i].script != [] && !Putting(s.threads[i])
    requires |s.threads[i].partial| == |s.val| && HasHistory(s) && ThreadData(s, s.threads[i])
    ensures var s' := Step(s, i, op); HasHistory(s') && ThreadData(s', s'.threads[i])
  {
    hide Alone, Puts, ScriptFits;
    var t := s.threads[i];
    assert t.partial == Current(s) by {
      assert Current(s)[..|s.val|] == Current(s);
    }
    var t' := t.(script := t.script[1..], done := t.done + [Get], got := t.got + [t.partial], partial := []);
    assert Step(s, i, op) == To(s, i, t');
    hide Step, InsideStep;
    AloneGets(s.history, t.base, t.done, t.got);
    NextAccess(s, t);
    SameScript(s, To(s, i, t'), t'.script);
  }

  lemma SameScript(s: State, s': State, script: seq<Access>)
    requires ScriptFits(s, script) && |s'.val| == |s.val|
    ensures ScriptFits(s', script)
  {
  }

  /** The script after its first access. */
  lemma NextAccess(s: State, t: Thread)
    requires t.Inside? && t.script != [] && HasHistory(s) && ScriptFits(s, t.script)
    ensures ScriptFits(s, t.script[1..])
    ensures var rest := t.script[1..];
            rest != [] && rest[0].Put? ==> |rest[0].v| == |s.val| && rest[0].v[..0] + Current(s)[0..] == Current(s)
  {
    assert forall a <- t.script[1..] :: a in t.script;
  }

  lemma {:induction false} ValueIsLastPut(v: Value, done: seq<Access>)
    ensures ValueAfter(v, done) == if Puts(done) == [] then v else Puts(done)[|Puts(done)| - 1]
  {
    if done != [] {
      ValueIsLastPut(v, done[..|done| - 1]);
    }
  }

  /** A get at the end of the history gets the current value. */
  lemma AloneGets(history: seq<Value>, base: nat, done: seq<Access>, got: seq<Value>)
    requires Alone(history, base, done, got) && |history| == base + |Puts(done)|
    ensures Alone(history, base, done + [Get], got + [history[|history| - 1]]) && Puts(done + [Get]) == Puts(done)
  {
    assert (done + [Get])[..|done|] == done;
    ValueIsLastPut(history[base - 1], done);
    assert Puts(done) != [] ==> history[base..base + |Puts(done)|][|Puts(done)| - 1] == history[|history| - 1];
  }

  /** A put at the end of the history lengthens it. */
  lemma AlonePuts(history: seq<Value>, base: nat, done: seq<Access>, got: seq<Value>, v: Value)
    requires Alone(history, base, done, got) && |history| == base + |Puts(done)|
    ensures Alone(history + [v], base, done + [Put(v)], got)
    ensures |history + [v]| == base + |Puts(done + [Put(v)])|
  {
    var longer, n := history + [v], |Puts(done)|;
    OneMorePut(history[base - 1], done, v);
    hide Puts, Gets;
    assert longer[..|history|] == history;
    SameSlice(history, longer, base, base + n);
    assert longer[base..base + n + 1] == longer[base..base + n] + [longer[base + n]];
    assert longer[base - 1] == history[base - 1];
  }

  lemma OneMorePut(first: Value, done: seq<Access>, v: Value)
    ensures Puts(done + [Put(v)]) == Puts(done) + [v] && Gets(first, done + [Put(v)]) == Gets(first, done)
  {
    assert (done + [Put(v)])[..|done|] == done;
  }

  lemma SimpleOwnData(s: State, i: nat, op: Op)
    requires i < |s.threads| && CanStep(s, i) && Fits(s, op) && HasHistory(s) && ThreadData(s, s.threads[i])
    requires !s.threads[i].Copying? && !s.threads[i].Inside? && !s.threads[i].Entering?
    ensures var s' := Step(s, i, op); HasHistory(s') && ThreadData(s', s'.threads[i])
  {
    hide InsideStep, InsideData, Seen, Alone;
    SameHistory(s, i, op);
  }

  lemma SameHistory(s: State, i: nat, op: Op)
    requires i < |s.threads| && CanStep(s, i) && !s.threads[i].Inside?
    ensures Step(s, i, op).val == s.val && Step(s, i, op).history == s.history
  {
  }

  /** The thread's own data after a step that does not put. */
  lemma OwnData(s: State, i: nat, op: Op)
    requires i < |s.threads| && CanStep(s, i) && Fits(s, op) && Inv(s) && !Putting(s.threads[i])
    ensures var s' := Step(s, i, op); HasHistory(s') && ThreadData(s', s'.threads[i])
  {
    NobodyWrites(s, i);
    assert ThreadData(s, s.threads[i]);
    hide Protocol, Total, InsideStep, InsideData, Seen, Alone, Fits, ScriptFits;
    if s.threads[i].Copying? {
      CopyingOwnData(s, i, op);
    } else if s.threads[i].Inside? {
      GettingOwnData(s, i, op);
    } else if s.threads[i].Entering? {
      EnteringOwnData(s, i, op);
    } else {
      SimpleOwnData(s, i, op);
    }
  }

  // ---------- Putting ----------

  lemma PutStep(s: State, i: nat, op: Op)
    requires i < |s.threads| && Putting(s.threads[i]) && HasHistory(s) && ThreadData(s, s.threads[i])
    ensures var s', t := Step(s, i, op), s.threads[i];
            var v := t.script[0].v;
            && |v| == |s.val|
            && if t.written < |s.val|
               then s' == To(s.(val := s.val[t.written := v[t.written]]), i, t.(written := t.written + 1))
               else s' == To(s.(history := s.history + [v]), i,
                             t.(script := t.script[1..], done := t.done + [Put(v)], written := 0))
  {
    assert s.threads[i].script[0] in s.threads[i].script;
    hide Alone;
  }

  /** The putting thread's data; the width stays, and the history only grows. */
  lemma PutterData(s: State, i: nat, op: Op)
    requires i < |s.threads| && Putting(s.threads[i]) && HasHistory(s) && ThreadData(s, s.threads[i])
    ensures var s' := Step(s, i, op);
            && HasHistory(s') && ThreadData(s', s'.threads[i]) && |s'.val| == |s.val|
            && |s.history| <= |s'.history| && s'.history[..|s.history|] == s.history
  {
    var s', t := Step(s, i, op), s.threads[i];
    var v := t.script[0].v;
    PutStep(s, i, op);
    hide Step, InsideStep, Alone, Puts, ScriptFits;
    if t.written < |s.val| {
      PutWord(s, s', i, t, v);
    } else {
      assert s.val == v by {
        assert v[..|s.val|] == v && Current(s)[|s.val|..] == [];
      }
      PutDone(s, s', i, t, v);
    }
  }

  lemma PutWord(s: State, s': State, i: nat, t: Thread, v: Value)
    requires i < |s.threads| && Putting(t) && HasHistory(s) && ThreadData(s, t)
    requires v == t.script[0].v && |v| == |s.val| && t.written < |s.val|
    requires s' == To(s.(val := s.val[t.written := v[t.written]]), i, t.(written := t.written + 1))
    ensures HasHistory(s') && ThreadData(s', s'.threads[i]) && |s'.val| == |s.val|
  {
    hide Alone, Puts, ScriptFits;
    assert s'.val == v[..t.written + 1] + Current(s)[t.written + 1..];
    SameScript(s, s', t.script);
  }

  lemma PutDone(s: State, s': State, i: nat, t: Thread, v: Value)
    requires i < |s.threads| && Putting(t) && HasHistory(s) && ThreadData(s, t) && s.val == v == t.script[0].v
    requires s' == To(s.(history := s.history + [v]), i, t.(script := t.script[1..], done := t.done + [Put(v)], written := 0))
    ensures HasHistory(s') && ThreadData(s', s'.threads[i])
  {
    hide Alone, Puts, ScriptFits;
    AlonePuts(s.history, t.base, t.done, t.got, v);
    assert Current(s') == v && s'.val == v;
    SameScript(s, s', t.script);
    NextAccess(s', t);
  }

  lemma OtherData(s: State, s': State, t: Thread)
    requires HasHistory(s) && HasHistory(s') && |s'.val| == |s.val|
    requires |s.history| <= |s'.history| && s'.history[..|s.history|] == s.history
    requires ThreadData(s, t) && !Writing(t) && !Reading(t)
    ensures ThreadData(s', t)
  {
    forall v, began: nat | Seen(s.history, began, v) ensures Seen(s'.history, began, v) {
      var k :| began - 1 <= k < |s.history| && s.history[k] == v;
      assert s'.history[k] == v;
    }
    if t.Finished? {
      StaysAlone(s.history, s'.history, t.base, t.done, t.got);
    }
    hide Seen, Alone;
  }

  lemma StaysAlone(history: seq<Value>, longer: seq<Value>, base: nat, done: seq<Access>, got: seq<Value>)
    requires Alone(history, base, done, got) && |history| <= |longer| && longer[..|history|] == history
    ensures Alone(longer, base, done, got)
  {
    hide Puts, Gets;
    SameSlice(history, longer, base, base + |Puts(done)|);
    assert longer[base - 1] == longer[..|history|][base - 1];
  }

  lemma SameSlice(history: seq<Value>, longer: seq<Value>, a: nat, b: nat)
    requires |history| <= |longer| && longer[..|history|] == history && a <= b <= |history|
    ensures longer[a..b] == history[a..b]
  {
    forall i | a <= i < b ensures longer[i] == history[i] {
      assert longer[..|history|][i] == longer[i];
    }
  }

  /** Putting: nobody else is inside, and nobody is reading. */
  lemma PutKeeps(s: State, i: nat, op: Op)
    requires i < |s.threads| && CanStep(s, i) && Inv(s) && Putting(s.threads[i])
    ensures Inv(Step(s, i, op))
  {
    StepKeepsProtocol(s, i, op);
    InsideStays(s, i, op);
    OthersStay(s, i, op);
    PutterData(s, i, op);
    var s' := Step(s, i, op);
    assert s'.threads[i].Inside? by { PutStep(s, i, op); }
    hide Step, CanStep;
    forall j | 0 <= j < |s'.threads| ensures ThreadData(s', s'.threads[j]) {
      if j != i {
        MutualExclusion(s, i, j);
        hide Protocol, Total;
        OtherData(s, s', s.threads[j]);
      }
    }
    OthersKept(s'.threads, i, Idle);
  }

  // ---------- Every step ----------

  lemma StepKeeps(s: State, i: nat, op: Op)
    requires i < |s.threads| && CanStep(s, i) && Fits(s, op) && Inv(s)
    ensures Inv(Step(s, i, op))
  {
    hide Step, ThreadData, Protocol, Total, CanStep, Fits, Putting;
    if Putting(s.threads[i]) {
      PutKeeps(s, i, op);
    } else {
      StepKeepsProtocol(s, i, op);
      OwnData(s, i, op);
      OthersData(s, i, op);
      QuietAfter(s, i, op);
    }
  }

  lemma OthersData(s: State, i: nat, op: Op)
    requires i < |s.threads| && CanStep(s, i) && !Putting(s.threads[i])
    requires HasHistory(s) && forall j :: 0 <= j < |s.threads| ==> ThreadData(s, s.threads[j])
    ensures var s' := Step(s, i, op);
            HasHistory(s') && forall j :: 0 <= j < |s'.threads| && j != i ==> ThreadData(s', s'.threads[j])
  {
    var s' := Step(s, i, op);
    OnlyPuttingWrites(s, i, op);
    OthersStay(s, i, op);
    hide Step, ThreadData, CanStep;
    forall j | 0 <= j < |s'.threads| && j != i ensures HasHistory(s') && ThreadData(s', s'.threads[j]) {
      SameData(s, s', s.threads[j]);
    }
  }

  /** Whoever leaves the exclusive section leaves the current value behind. */
  lemma QuietAfter(s: State, i: nat, op: Op)
    requires i < |s.threads| && CanStep(s, i) && Inv(s) && !Putting(s.threads[i])
    ensures var s' := Step(s, i, op);
            s'.history == s.history && (Total(s'.threads).exclusive == 0 ==> s'.val == s.val == Current(s))
  {
    var s' := Step(s, i, op);
    OnlyPuttingWrites(s, i, op);
    OthersStay(s, i, op);
    OthersKept(s.threads, i, s'.threads[i]);
    assert s'.threads == s.threads[i := s'.threads[i]];
    assert ThreadData(s, s.threads[i]);
    if s.threads[i].Inside? {
      InsideStays(s, i, op);
    }
  }

  // ---------- Runs ----------

  /** A thread, and what it starts if it is idle. */
  datatype Move = Move(thread: nat, op: Op)

  predicate Allowed(s: State, m: Move) {
    m.thread < |s.threads| && CanStep(s, m.thread) && Fits(s, m.op)
  }

  function Initial(v: Value, threads: nat): State {
    State(v, 1, 1, 0, seq(threads, _ => Idle), [v])
  }

  /** The state after any interleaving; a thread that is waiting makes no step. */
  function After(s0: State, moves: seq<Move>): State {
    if moves == [] then s0
    else
      var s, m := After(s0, moves[..|moves| - 1]), moves[|moves| - 1];
      if Allowed(s, m) then Step(s, m.thread, m.op) else s
  }

  lemma {:induction false} IdleThreads(threads: seq<Thread>)
    requires forall i :: 0 <= i < |threads| ==> threads[i] == Idle
    ensures Total(threads) == Tally(0, 0, 0, 0, 0)
  {
    if threads != [] {
      IdleThreads(threads[..|threads| - 1]);
    }
  }

  /** Every interleaving of any number of threads keeps the invariant. */
  lemma {:induction false} RunKeeps(v: Value, threads: nat, moves: seq<Move>)
    ensures Inv(After(Initial(v, threads), moves))
  {
    if moves == [] {
      IdleThreads(Initial(v, threads).threads);
    } else {
      hide Inv, Initial, Step, CanStep, Fits;
      var front, m := moves[..|moves| - 1], moves[|moves| - 1];
      RunKeeps(v, threads, front);
      var s := After(Initial(v, threads), front);
      if Allowed(s, m) {
        StepKeeps(s, m.thread, m.op);
      }
    }
  }

  /** The semaphores are 0 or 1, the count is that of the readers between increment and decrement, and no writer is in
      its section together with a reader or another writer. */
  lemma RunIsExclusive(v: Value, threads: nat, moves: seq<Move>, i: nat, j: nat)
    requires i < |After(Initial(v, threads), moves).threads| && j < |After(Initial(v, threads), moves).threads| && i != j
    ensures var s := After(Initial(v, threads), moves);
            && s.readerQueue in {0, 1} && s.writerQueue in {0, 1}
            && s.readerCount == Total(s.threads).counted
            && (Writing(s.threads[i]) ==> !Writing(s.threads[j]) && !Reading(s.threads[j]))
  {
    RunKeeps(v, threads, moves);
    MutualExclusion(After(Initial(v, threads), moves), i, j);
  }

  /** The history is never rewritten, so what was current stays on record. */
  lemma {:induction false} HistoryGrows(s0: State, moves: seq<Move>)
    ensures |s0.history| <= |After(s0, moves).history| && After(s0, moves).history[..|s0.history|] == s0.history
    ensures |After(s0, moves).threads| == |s0.threads|
  {
    if moves != [] {
      var front, m := moves[..|moves| - 1], moves[|moves| - 1];
      HistoryGrows(s0, front);
      var s := After(s0, front);
      hide After;
      if Allowed(s, m) {
        hide Fits;
        StepHistory(s, m.thread, m.op);
      }
    }
  }

  lemma StepHistory(s: State, i: nat, op: Op)
    requires i < |s.threads| && CanStep(s, i)
    ensures var s' := Step(s, i, op);
            (s'.history == s.history || (|s'.history| == |s.history| + 1 && s'.history[..|s.history|] == s.history))
            && |s'.threads| == |s.threads|
  {
  }
}
