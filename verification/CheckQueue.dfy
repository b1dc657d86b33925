/**
 The script-check queue: one master and any number of workers share a queue of checks under a mutex.

 The system is a step machine. Every stretch of code that runs under the mutex is cut at the points
 where the cancellation token is read, because the token can flip at any moment; between two steps any
 other thread may run. `Step` gives the effect of each label, `Enabled` says when the code reaches it.
 */
module CheckQueue {
  import opened Common

  /** Identity of one verification; what it returns is decided by the environment. */
  type Check = int

  /** `nTodo` is a 32-bit unsigned counter. */
  const UINT_LIMIT: int := 0x1_0000_0000

  /** Where a thread stands in `Loop`. */
  datatype Thread =
    | Out                                                    // not inside Loop
    | Starting                                               // called Loop, has not had the mutex yet
    | Inside                                                 // holds the mutex
    | Waiting(notified: bool)                                // blocked in cond.wait
    | Busy(batch: seq<Check>, done: nat, ok: Option<bool>)   // runs its batch without the mutex
    | Leaving(verdict: Option<bool>)                         // master only: returned, nTotal not yet lowered

  /** History of the current session; the code itself keeps none of it. */
  datatype Log = Log(added: multiset<Check>, passed: multiset<Check>, failed: multiset<Check>,
                     unknown: multiset<Check>, dropped: multiset<Check>)

  const EMPTY_LOG: Log := Log(multiset{}, multiset{}, multiset{}, multiset{}, multiset{})

  datatype State = State(
    batchSize: nat,
    queue: seq<Check>,
    todo: int,
    idle: int,
    total: int,
    allOk: Option<bool>,
    session: bool,                   // mSessionToken is set
    waitCalled: bool,
    canceled: bool,                  // what the session token answers
    threads: seq<Thread>,            // thread 0 is the master
    answer: Option<Option<bool>>,    // what Wait returned in this session
    log: Log)

  datatype Label =
    | Call(i: nat)
    | Begin(i: nat)
    | Wake(i: nat)
    | Exec(i: nat, result: Option<bool>)
    | Finish(i: nat)
    | Settle(i: nat)
    | Leave
    | Cancel
    | Add(checks: seq<Check>)
    | StartSession(alreadyCanceled: bool)

  // ---------------------------------------------------------------- counting threads

  function Weight(t: Thread): nat {
    if t.Busy? then |t.batch| else 0
  }

  function IdleWeight(t: Thread): nat {
    if t.Waiting? then 1 else 0
  }

  function TotalWeight(t: Thread): nat {
    if t.Out? || t.Starting? then 0 else 1
  }

  function Sum(f: Thread -> nat, ts: seq<Thread>): nat {
    if ts == [] then 0 else f(ts[0]) + Sum(f, ts[1..])
  }

  /** How often a thread holds check `c` without having run it. */
  function Remaining(t: Thread, c: Check): nat {
    if t.Busy? && t.done <= |t.batch| then multiset(t.batch[t.done..])[c] else 0
  }

  function Pending(ts: seq<Thread>, c: Check): nat {
    if ts == [] then 0 else Remaining(ts[0], c) + Pending(ts[1..], c)
  }

  lemma {:induction false} SumUpdate(f: Thread -> nat, ts: seq<Thread>, i: nat, t: Thread)
    requires i < |ts|
    ensures Sum(f, ts[i := t]) + f(ts[i]) == Sum(f, ts) + f(t)
  {
    if i == 0 {
      assert ts[0 := t][1..] == ts[1..];
    } else {
      SumUpdate(f, ts[1..], i - 1, t);
      assert ts[i := t][1..] == ts[1..][i - 1 := t];
    }
  }

  lemma {:induction false} PendingUpdate(ts: seq<Thread>, i: nat, t: Thread, c: Check)
    requires i < |ts|
    ensures Pending(ts[i := t], c) + Remaining(ts[i], c) == Pending(ts, c) + Remaining(t, c)
  {
    if i == 0 {
      assert ts[0 := t][1..] == ts[1..];
    } else {
      PendingUpdate(ts[1..], i - 1, t, c);
      assert ts[i := t][1..] == ts[1..][i - 1 := t];
    }
  }

  lemma {:induction false} SumAtLeast(f: Thread -> nat, ts: seq<Thread>, i: nat)
    requires i < |ts|
    ensures f(ts[i]) <= Sum(f, ts)
  {
    if i > 0 {
      SumAtLeast(f, ts[1..], i - 1);
    }
  }

  lemma {:induction false} SumPositive(f: Thread -> nat, ts: seq<Thread>) returns (i: nat)
    requires Sum(f, ts) > 0
    ensures i < |ts| && f(ts[i]) > 0
  {
    if f(ts[0]) > 0 {
      i := 0;
    } else {
      i := SumPositive(f, ts[1..]);
      i := i + 1;
    }
  }

  /** With nobody at work, everybody who is inside Loop sleeps. */
  lemma {:induction false} AllAsleep(ts: seq<Thread>)
    requires forall j :: 0 <= j < |ts| ==> !ts[j].Busy? && !ts[j].Inside? && !ts[j].Leaving?
    ensures Sum(TotalWeight, ts) == Sum(IdleWeight, ts)
  {
    if ts != [] {
      AllAsleep(ts[1..]);
    }
  }

  lemma {:induction false} NothingPending(ts: seq<Thread>, c: Check)
    requires forall j :: 0 <= j < |ts| ==> !ts[j].Busy?
    ensures Pending(ts, c) == 0
  {
    if ts != [] {
      NothingPending(ts[1..], c);
    }
  }

  // ---------------------------------------------------------------- invariant

  /** The counters say what their comments say. */
  predicate Counters(s: State) {
    && s.todo == |s.queue| + Sum(Weight, s.threads)
    && s.todo < UINT_LIMIT
    && s.idle == Sum(IdleWeight, s.threads)
    && s.total == Sum(TotalWeight, s.threads)
  }

  predicate ThreadsOk(s: State) {
    && |s.threads| > 0
    && (forall j :: 0 <= j < |s.threads| && s.threads[j].Busy? ==>
          1 <= |s.threads[j].batch| && s.threads[j].done <= |s.threads[j].batch|)
    && (forall j :: 0 < j < |s.threads| ==> !s.threads[j].Leaving?)
  }

  /** What the master's position tells about the work. */
  predicate MasterOk(s: State)
    requires |s.threads| > 0
  {
    var m := s.threads[0];
    && (!s.session ==> s.waitCalled && s.todo == 0 && m.Out?)
    && (!m.Out? ==> s.waitCalled)
    && (s.waitCalled && (m.Out? || m.Leaving?) ==> s.todo == 0)
    && (m.Waiting? ==> s.queue == [] && (m.notified <==> s.todo == 0))
    && (s.answer.Some? ==> s.waitCalled && s.todo == 0)
  }

  /** Where the session's occurrences of check `c` are. */
  function Accounted(s: State, c: Check): nat {
    Ran(s.log, c) + s.log.dropped[c] + multiset(s.queue)[c] + Pending(s.threads, c)
  }

  /** Every check added in the session is in exactly one place. */
  ghost predicate Conserved(s: State) {
    forall c: Check :: s.log.added[c] == Accounted(s, c)
  }

  /** A verdict, of a batch or of the session, has a check (or the token) to blame. */
  predicate Justified(v: Option<bool>, log: Log, canceled: bool) {
    && (v == Some(false) ==> |log.failed| > 0)
    && (v == None ==> |log.unknown| > 0 || canceled)
  }

  predicate BatchesOk(ts: seq<Thread>) {
    forall j :: 0 <= j < |ts| && ts[j].Busy? ==> ts[j].ok == Some(true)
  }

  predicate BatchesKnown(ts: seq<Thread>) {
    forall j :: 0 <= j < |ts| && ts[j].Busy? ==> ts[j].ok.Some?
  }

  predicate VerdictOk(s: State) {
    var l := s.log;
    && Justified(s.allOk, l, s.canceled)
    && (forall j :: 0 <= j < |s.threads| && s.threads[j].Busy? ==> Justified(s.threads[j].ok, l, s.canceled))
    && (|l.dropped| > 0 ==> s.canceled || s.allOk != Some(true))
    && (s.allOk == Some(true) && BatchesOk(s.threads) ==> |l.failed| == |l.unknown| == 0)
    && (s.allOk.Some? && BatchesKnown(s.threads) ==> |l.unknown| == 0)
  }

  /** What an answer of `Wait` means to its caller. */
  predicate Meaning(v: Option<bool>, log: Log, canceled: bool) {
    && Justified(v, log, canceled)
    && (v == Some(true) ==> log.passed == log.added)
    && log.failed <= log.added
  }

  predicate AnswerOk(s: State)
    requires |s.threads| > 0
  {
    && (s.threads[0].Leaving? ==> Meaning(s.threads[0].verdict, s.log, s.canceled))
    && (s.answer.Some? ==> Meaning(s.answer.value, s.log, s.canceled))
  }

  ghost predicate Inv(s: State) {
    ThreadsOk(s) && Counters(s) && MasterOk(s) && Conserved(s) && VerdictOk(s) && AnswerOk(s)
  }

  // ---------------------------------------------------------------- steps

  predicate LockFree(s: State) {
    forall j :: 0 <= j < |s.threads| ==> !s.threads[j].Inside?
  }

  /** `IsIdle()`. */
  predicate IsIdle(s: State) {
    s.total == s.idle && s.todo == 0
  }

  predicate BatchOver(s: State, t: Thread)
    requires t.Busy?
  {
    t.done >= |t.batch| || t.ok != Some(true) || s.canceled
  }

  predicate Enabled(s: State, l: Label) {
    match l
    case Call(i) => i < |s.threads| && s.threads[i].Out? && (i == 0 ==> s.session)
    case Begin(i) => i < |s.threads| && s.threads[i].Starting? && LockFree(s)
    case Wake(i) => i < |s.threads| && s.threads[i].Waiting? && LockFree(s)
    case Exec(i, _) =>
      i < |s.threads| && s.threads[i].Busy? && s.threads[i].done < |s.threads[i].batch| && s.threads[i].ok == Some(true)
    case Finish(i) => i < |s.threads| && s.threads[i].Busy? && BatchOver(s, s.threads[i]) && LockFree(s)
    case Settle(i) => i < |s.threads| && s.threads[i].Inside?
    case Leave => 0 < |s.threads| && s.threads[0].Leaving? && LockFree(s)
    case Cancel => true
    case Add(checks) =>
      0 < |s.threads| && s.threads[0].Out? && s.session && !s.waitCalled && LockFree(s)
          && s.todo + |checks| < UINT_LIMIT
    case StartSession(_) => 0 < |s.threads| && s.threads[0].Out? && s.waitCalled && IsIdle(s) && LockFree(s)
  }

  /** How many checks to take: a fair share, at most `batchSize`, at least one. */
  function BatchCount(queued: nat, total: int, idle: int, batchSize: nat): (n: nat)
    requires total >= 0 && idle >= 0 && queued > 0
    ensures 1 <= n <= queued
    ensures n == 1 || (n <= batchSize && n <= queued / (total + idle + 1))
    ensures n >= batchSize || n >= queued / (total + idle + 1)
  {
    var share := queued / (total + idle + 1);
    var capped := if batchSize < share then batchSize else share;
    if capped < 1 then 1 else capped
  }

  function BatchLength(s: State): (n: nat)
    requires s.total >= 0 && s.idle >= 0 && s.queue != []
    ensures 1 <= n <= |s.queue|
  {
    BatchCount(|s.queue|, s.total, s.idle, s.batchSize)
  }

  /** A check returned: count it under its result. */
  function Record(log: Log, c: Check, result: Option<bool>): Log {
    match result
    case Some(true) => log.(passed := log.passed + multiset{c})
    case Some(false) => log.(failed := log.failed + multiset{c})
    case None => log.(unknown := log.unknown + multiset{c})
  }

  /** Merge of one batch verdict into the session verdict. */
  function Merge(all: Option<bool>, one: Option<bool>): Option<bool> {
    if all.Some? && one.Some? then Some(all.value && one.value) else None
  }

  function Notified(threads: seq<Thread>): seq<Thread>
    requires |threads| > 0
  {
    if threads[0].Waiting? then threads[0 := Waiting(true)] else threads
  }

  /** Checks given up without running them. */
  function Drop(log: Log, checks: seq<Check>): Log {
    log.(dropped := log.dropped + multiset(checks))
  }

  /** A finished batch is merged and uncounted. */
  function MergeStep(s: State, i: nat): State
    requires i < |s.threads| && s.threads[i].Busy? && s.threads[i].done <= |s.threads[i].batch|
  {
    var t := s.threads[i];
    s.(allOk := Merge(s.allOk, t.ok), todo := s.todo - |t.batch|, threads := s.threads[i := Inside],
       log := Drop(s.log, t.batch[t.done..]))
  }

  /** A canceled session gives up everything still queued. */
  function DrainStep(s: State): State {
    if s.canceled then s.(todo := s.todo - |s.queue|, queue := [], log := Drop(s.log, s.queue)) else s
  }

  /** First half of the critical section after a batch. */
  function FinishStep(s: State, i: nat): State
    requires i < |s.threads| && s.threads[i].Busy? && s.threads[i].done <= |s.threads[i].batch|
  {
    var s1 := DrainStep(MergeStep(s, i));
    if s1.todo == 0 && i != 0 then s1.(threads := Notified(s1.threads)) else s1
  }

  /** Second half: take work, go to sleep or, for the master, return. */
  function SettleStep(s: State, i: nat): State
    requires i < |s.threads| && s.threads[i].Inside? && s.total >= 0 && s.idle >= 0
  {
    if s.queue == [] then
      if i == 0 && s.todo == 0 then
        var allOk := if s.canceled then None else s.allOk;
        s.(allOk := allOk, threads := s.threads[i := Leaving(allOk)])
      else
        s.(idle := s.idle + 1, threads := s.threads[i := Waiting(false)])
    else
      var n := BatchLength(s);
      s.(queue := s.queue[n..], threads := s.threads[i := Busy(s.queue[..n], 0, s.allOk)])
  }

  function Step(s: State, l: Label): State
    requires ThreadsOk(s) && Counters(s) && Enabled(s, l)
  {
    match l
    case Call(i) =>
      s.(threads := s.threads[i := Starting], waitCalled := s.waitCalled || i == 0)
    case Begin(i) => s.(threads := s.threads[i := Inside], total := s.total + 1)
    case Wake(i) => s.(threads := s.threads[i := Inside], idle := s.idle - 1)
    case Exec(i, result) =>
      var t := s.threads[i];
      s.(threads := s.threads[i := t.(done := t.done + 1, ok := result)],
         log := Record(s.log, t.batch[t.done], result))
    case Finish(i) => FinishStep(s, i)
    case Settle(i) => SettleStep(s, i)
    case Leave =>
      s.(threads := s.threads[0 := Out], total := s.total - 1, answer := Some(s.threads[0].verdict))
    case Cancel => s.(canceled := true)
    case Add(checks) =>
      s.(queue := s.queue + checks, todo := s.todo + |checks|,
         log := s.log.(added := s.log.added + multiset(checks)))
    case StartSession(alreadyCanceled) =>
      s.(session := true, allOk := Some(true), waitCalled := false, canceled := alreadyCanceled,
         answer := None, log := EMPTY_LOG)
  }

  // ---------------------------------------------------------------- every step keeps the invariant

  /** The effect on the three counters of replacing one thread. */
  lemma Replaced(ts: seq<Thread>, i: nat, t: Thread)
    requires i < |ts|
    ensures Sum(Weight, ts[i := t]) + Weight(ts[i]) == Sum(Weight, ts) + Weight(t)
    ensures Sum(IdleWeight, ts[i := t]) + IdleWeight(ts[i]) == Sum(IdleWeight, ts) + IdleWeight(t)
    ensures Sum(TotalWeight, ts[i := t]) + TotalWeight(ts[i]) == Sum(TotalWeight, ts) + TotalWeight(t)
  {
    SumUpdate(Weight, ts, i, t);
    SumUpdate(IdleWeight, ts, i, t);
    SumUpdate(TotalWeight, ts, i, t);
  }

  lemma NobodyBusy(s: State)
    requires Counters(s) && ThreadsOk(s) && s.todo == 0
    ensures forall j :: 0 <= j < |s.threads| ==> !s.threads[j].Busy?
  {
    forall j | 0 <= j < |s.threads|
      ensures !s.threads[j].Busy?
    {
      SumAtLeast(Weight, s.threads, j);
    }
  }

  /** A step that replaces thread `i` by `t` and adjusts the counters accordingly keeps them right. */
  lemma CountersReplace(s: State, s': State, i: nat, t: Thread)
    requires Counters(s) && ThreadsOk(s) && i < |s.threads| && s'.threads == s.threads[i := t]
    requires s'.todo - |s'.queue| - Weight(t) == s.todo - |s.queue| - Weight(s.threads[i]) && s'.todo < UINT_LIMIT
    requires s'.idle - IdleWeight(t) == s.idle - IdleWeight(s.threads[i])
    requires s'.total - TotalWeight(t) == s.total - TotalWeight(s.threads[i])
    requires t.Busy? ==> 1 <= |t.batch| && t.done <= |t.batch|
    requires t.Leaving? ==> i == 0
    ensures Counters(s') && ThreadsOk(s')
  {
    Replaced(s.threads, i, t);
  }

  lemma FinishCounters(s: State, i: nat)
    requires ThreadsOk(s) && Counters(s) && Enabled(s, Finish(i))
    ensures Counters(FinishStep(s, i)) && ThreadsOk(FinishStep(s, i))
  {
    var s' := FinishStep(s, i);
    var mid := DrainStep(MergeStep(s, i));
    CountersReplace(s, mid, i, Inside);
    if s' != mid && mid.threads[0].Waiting? {
      CountersReplace(mid, s', 0, Waiting(true));
    }
  }

  lemma SettleCounters(s: State, i: nat)
    requires ThreadsOk(s) && Counters(s) && Enabled(s, Settle(i))
    ensures Counters(SettleStep(s, i)) && ThreadsOk(SettleStep(s, i))
  {
    var s' := SettleStep(s, i);
    CountersReplace(s, s', i, s'.threads[i]);
  }

  lemma TouchCounters(s: State, l: Label)
    requires ThreadsOk(s) && Counters(s) && Enabled(s, l) && (l.Call? || l.Begin? || l.Wake? || l.Exec?)
    ensures Counters(Step(s, l)) && ThreadsOk(Step(s, l))
  {
    var s' := Step(s, l);
    CountersReplace(s, s', l.i, s'.threads[l.i]);
  }

  lemma CountersKept(s: State, l: Label)
    requires ThreadsOk(s) && Counters(s) && Enabled(s, l)
    ensures Counters(Step(s, l)) && ThreadsOk(Step(s, l))
  {
    if l.Finish? {
      FinishCounters(s, l.i);
    } else if l.Settle? {
      SettleCounters(s, l.i);
    } else if l.Leave? {
      CountersReplace(s, Step(s, l), 0, Out);
    } else if l.Call? || l.Begin? || l.Wake? || l.Exec? {
      TouchCounters(s, l);
    }
  }

  lemma MasterKept(s: State, l: Label)
    requires ThreadsOk(s) && Counters(s) && MasterOk(s) && Enabled(s, l)
    ensures |Step(s, l).threads| > 0 && MasterOk(Step(s, l))
  {
    match l
    case Finish(i) => SumAtLeast(Weight, s.threads, i);
    case Exec(i, _) => SumAtLeast(Weight, s.threads, i);
    case _ =>
  }

  lemma RunOne(t: Thread, t': Thread, c: Check)
    requires t.Busy? && t.done < |t.batch| && t'.Busy? && t'.batch == t.batch && t'.done == t.done + 1
    ensures Remaining(t, c) == Remaining(t', c) + (if t.batch[t.done] == c then 1 else 0)
  {
    assert t.batch[t.done..] == [t.batch[t.done]] + t.batch[t.done + 1..];
  }

  function Ran(log: Log, c: Check): nat {
    log.passed[c] + log.failed[c] + log.unknown[c]
  }

  lemma RecordOne(log: Log, d: Check, result: Option<bool>, c: Check)
    ensures Ran(Record(log, d, result), c) == Ran(log, c) + (if d == c then 1 else 0)
    ensures Record(log, d, result).added == log.added && Record(log, d, result).dropped == log.dropped
  {
  }

  lemma ExecConserves(s: State, i: nat, result: Option<bool>, c: Check)
    requires ThreadsOk(s) && Counters(s) && s.log.added[c] == Accounted(s, c) && Enabled(s, Exec(i, result))
    ensures Step(s, Exec(i, result)).log.added[c] == Accounted(Step(s, Exec(i, result)), c)
  {
    var t := s.threads[i];
    var t' := t.(done := t.done + 1, ok := result);
    PendingUpdate(s.threads, i, t', c);
    RunOne(t, t', c);
    RecordOne(s.log, t.batch[t.done], result, c);
  }

  lemma FinishConserves(s: State, i: nat, c: Check)
    requires ThreadsOk(s) && Counters(s) && s.log.added[c] == Accounted(s, c) && Enabled(s, Finish(i))
    ensures FinishStep(s, i).log.added[c] == Accounted(FinishStep(s, i), c)
  {
    PendingUpdate(s.threads, i, Inside, c);
    var ts := s.threads[i := Inside];
    PendingUpdate(ts, 0, Waiting(true), c);
  }

  lemma SplitCount(q: seq<Check>, n: nat, c: Check)
    requires n <= |q|
    ensures multiset(q)[c] == multiset(q[..n][0..])[c] + multiset(q[n..])[c]
  {
    assert q == q[..n] + q[n..];
    assert q[..n][0..] == q[..n];
  }

  lemma SettleConserves(s: State, i: nat, c: Check)
    requires ThreadsOk(s) && Counters(s) && s.log.added[c] == Accounted(s, c) && Enabled(s, Settle(i))
    ensures SettleStep(s, i).log.added[c] == Accounted(SettleStep(s, i), c)
  {
    PendingUpdate(s.threads, i, SettleStep(s, i).threads[i], c);
    if s.queue != [] {
      SplitCount(s.queue, BatchLength(s), c);
    }
  }

  /** No step loses or duplicates an occurrence of `c`. */
  lemma ConservedKept(s: State, l: Label, c: Check)
    requires ThreadsOk(s) && Counters(s) && s.log.added[c] == Accounted(s, c) && Enabled(s, l)
    ensures Step(s, l).log.added[c] == Accounted(Step(s, l), c)
  {
    match l
    case Call(i) => PendingUpdate(s.threads, i, Starting, c);
    case Begin(i) => PendingUpdate(s.threads, i, Inside, c);
    case Wake(i) => PendingUpdate(s.threads, i, Inside, c);
    case Exec(i, result) => ExecConserves(s, i, result, c);
    case Finish(i) => FinishConserves(s, i, c);
    case Settle(i) => SettleConserves(s, i, c);
    case Leave => PendingUpdate(s.threads, 0, Out, c);
    case Cancel =>
    case Add(checks) =>
    case StartSession(_) =>
      NobodyBusy(s);
      NothingPending(s.threads, c);
  }

  /** Replacing a thread without a bad verdict cannot hide one. */
  lemma BatchesOkBefore(ts: seq<Thread>, i: nat, t: Thread)
    requires i < |ts| && BatchesOk(ts[i := t]) && (ts[i].Busy? ==> ts[i].ok == Some(true))
    ensures BatchesOk(ts)
  {
    forall j | 0 <= j < |ts| && ts[j].Busy?
      ensures ts[j].ok == Some(true)
    {
      assert j != i ==> ts[i := t][j] == ts[j];
    }
  }

  lemma BatchesKnownBefore(ts: seq<Thread>, i: nat, t: Thread)
    requires i < |ts| && BatchesKnown(ts[i := t]) && (ts[i].Busy? ==> ts[i].ok.Some?)
    ensures BatchesKnown(ts)
  {
    forall j | 0 <= j < |ts| && ts[j].Busy?
      ensures ts[j].ok.Some?
    {
      assert j != i ==> ts[i := t][j] == ts[j];
    }
  }

  /** Replacing one thread, with log and verdict untouched, by one whose own verdict is justified. */
  lemma VerdictReplace(s: State, s': State, i: nat, t: Thread)
    requires VerdictOk(s) && i < |s.threads| && s'.threads == s.threads[i := t]
    requires s'.log == s.log && s'.canceled == s.canceled && s'.allOk == s.allOk
    requires t.Busy? ==> t.ok == s.allOk
    requires s.threads[i].Busy? ==> s.threads[i].ok == Some(true)
    ensures VerdictOk(s')
  {
    if BatchesOk(s'.threads) {
      BatchesOkBefore(s.threads, i, t);
    }
    if BatchesKnown(s'.threads) {
      BatchesKnownBefore(s.threads, i, t);
    }
  }

  /** The clean-up merges the batch verdict; whatever it gives up has a reason. */
  lemma MergeVerdict(s: State, s': State, i: nat)
    requires VerdictOk(s) && i < |s.threads| && s.threads[i].Busy? && s'.threads == s.threads[i := Inside]
    requires s'.allOk == Merge(s.allOk, s.threads[i].ok) && s'.canceled == s.canceled
    requires s'.log == s.log.(dropped := s'.log.dropped)
    requires |s'.log.dropped| > 0 ==> |s.log.dropped| > 0 || s.canceled || s.threads[i].ok != Some(true)
    ensures VerdictOk(s')
  {
    if s'.allOk == Some(true) && BatchesOk(s'.threads) {
      BatchesOkBefore(s.threads, i, Inside);
    }
    if s'.allOk.Some? && BatchesKnown(s'.threads) {
      BatchesKnownBefore(s.threads, i, Inside);
    }
  }

  lemma FinishVerdict(s: State, i: nat)
    requires ThreadsOk(s) && VerdictOk(s) && Enabled(s, Finish(i))
    ensures VerdictOk(FinishStep(s, i))
  {
    var s' := FinishStep(s, i);
    var mid := DrainStep(MergeStep(s, i));
    MergeVerdict(s, mid, i);
    if s' != mid && mid.threads[0].Waiting? {
      VerdictReplace(mid, s', 0, Waiting(true));
    }
  }

  lemma ExecVerdict(s: State, i: nat, result: Option<bool>)
    requires ThreadsOk(s) && Counters(s) && VerdictOk(s) && Enabled(s, Exec(i, result))
    ensures VerdictOk(Step(s, Exec(i, result)))
  {
    var s' := Step(s, Exec(i, result));
    if s'.allOk == Some(true) && BatchesOk(s'.threads) {
      BatchesOkBefore(s.threads, i, s'.threads[i]);
      assert s'.threads[i].ok == result;
    }
    if s'.allOk.Some? && BatchesKnown(s'.threads) {
      BatchesKnownBefore(s.threads, i, s'.threads[i]);
      assert s'.threads[i].ok == result;
    }
  }

  lemma TouchVerdict(s: State, l: Label)
    requires ThreadsOk(s) && Counters(s) && VerdictOk(s) && Enabled(s, l)
    requires l.Call? || l.Begin? || l.Wake? || (l.Settle? && !(l.i == 0 && s.queue == [] && s.todo == 0))
    ensures VerdictOk(Step(s, l))
  {
    var s' := Step(s, l);
    VerdictReplace(s, s', l.i, s'.threads[l.i]);
  }

  lemma ReturnVerdict(s: State)
    requires ThreadsOk(s) && Counters(s) && VerdictOk(s) && Enabled(s, Settle(0)) && s.queue == [] && s.todo == 0
    ensures VerdictOk(SettleStep(s, 0))
  {
    NobodyBusy(s);
  }

  lemma VerdictKept(s: State, l: Label)
    requires ThreadsOk(s) && Counters(s) && VerdictOk(s) && Enabled(s, l)
    ensures VerdictOk(Step(s, l))
  {
    if l.Exec? {
      ExecVerdict(s, l.i, l.result);
    } else if l.Finish? {
      FinishVerdict(s, l.i);
    } else if l == Settle(0) && s.queue == [] && s.todo == 0 {
      ReturnVerdict(s);
    } else if l.Leave? {
      VerdictReplace(s, Step(s, l), 0, Out);
    } else if l.StartSession? {
      NobodyBusy(s);
    } else if l.Call? || l.Begin? || l.Wake? || l.Settle? {
      TouchVerdict(s, l);
    }
  }

  lemma OneOfThree(v: Option<bool>)
    ensures v == None || v == Some(true) || v == Some(false)
  {
    match v
    case None =>
    case Some(b) => assert b || !b;
  }

  /**
   When the master returns, its answer is `true` exactly if every check passed and nobody canceled, empty exactly if
   somebody did or a check was undecided, and `false` exactly if otherwise one failed.
   */
  lemma VerdictExact(s: State)
    requires ThreadsOk(s) && Counters(s) && Conserved(s) && VerdictOk(s) && Enabled(s, Settle(0)) && s.queue == []
             && s.todo == 0
    ensures var v := SettleStep(s, 0).threads[0].verdict;
            && (v == Some(true) <==> !s.canceled && s.log.passed == s.log.added)
            && (v == None <==> s.canceled || |s.log.unknown| > 0)
            && (v == Some(false) <==> !s.canceled && |s.log.unknown| == 0 && |s.log.failed| > 0)
            && Meaning(v, s.log, s.canceled)
  {
    NobodyBusy(s);
    assert BatchesKnown(s.threads) && BatchesOk(s.threads);
    OneOfThree(s.allOk);
    var l := s.log;
    forall c: Check
      ensures l.added[c] == l.passed[c] + l.failed[c] + l.unknown[c] + l.dropped[c]
    {
      NothingPending(s.threads, c);
      assert l.added[c] == Accounted(s, c);
    }
    if !s.canceled && s.allOk == Some(true) {
      assert l.passed == l.added;
    }
    if l.passed == l.added {
      forall c: Check
        ensures c !in l.failed && c !in l.unknown
      {
        assert l.added[c] == l.passed[c];
      }
      assert l.failed == multiset{} && l.unknown == multiset{};
      match s.allOk {
        case None => assert s.canceled;
        case Some(b) => assert b;
      }
    }
  }

  lemma NoAnswerYet(s: State, i: nat)
    requires ThreadsOk(s) && Counters(s) && MasterOk(s) && i < |s.threads| && s.threads[i].Busy?
    ensures s.todo > 0 && s.answer.None? && !s.threads[0].Leaving?
  {
    SumAtLeast(Weight, s.threads, i);
  }

  /** An answer keeps its meaning while the log rests; a later cancellation does not hurt. */
  lemma AnswerStable(s: State, s': State)
    requires |s.threads| > 0 && |s'.threads| > 0 && AnswerOk(s)
    requires s'.answer.Some? || s'.threads[0].Leaving? ==> s'.log == s.log && (s.canceled ==> s'.canceled)
    requires s'.answer.Some? ==>
             s'.answer == s.answer || (s.threads[0].Leaving? && s'.answer.value == s.threads[0].verdict)
    requires s'.threads[0].Leaving? ==> s'.threads[0] == s.threads[0]
    ensures AnswerOk(s')
  {
  }

  lemma FinishAnswer(s: State, i: nat)
    requires ThreadsOk(s) && Counters(s) && MasterOk(s) && Enabled(s, Finish(i))
    ensures |FinishStep(s, i).threads| > 0 && AnswerOk(FinishStep(s, i))
  {
    NoAnswerYet(s, i);
  }

  lemma ExecAnswer(s: State, i: nat, result: Option<bool>)
    requires ThreadsOk(s) && Counters(s) && MasterOk(s) && Enabled(s, Exec(i, result))
    ensures |Step(s, Exec(i, result)).threads| > 0 && AnswerOk(Step(s, Exec(i, result)))
  {
    NoAnswerYet(s, i);
  }

  lemma SettleAnswer(s: State, i: nat)
    requires ThreadsOk(s) && Counters(s) && AnswerOk(s) && Enabled(s, Settle(i)) && Conserved(s) && VerdictOk(s)
    ensures |SettleStep(s, i).threads| > 0 && AnswerOk(SettleStep(s, i))
  {
    if i == 0 && s.queue == [] && s.todo == 0 {
      VerdictExact(s);
    } else {
      AnswerStable(s, SettleStep(s, i));
    }
  }

  lemma AnswerKept(s: State, l: Label)
    requires Inv(s) && Enabled(s, l)
    ensures |Step(s, l).threads| > 0 && AnswerOk(Step(s, l))
  {
    if l.Finish? {
      FinishAnswer(s, l.i);
    } else if l.Exec? {
      ExecAnswer(s, l.i, l.result);
    } else if l.Settle? {
      SettleAnswer(s, l.i);
    } else {
      AnswerStable(s, Step(s, l));
    }
  }

  lemma StepKeepsInv(s: State, l: Label)
    requires Inv(s) && Enabled(s, l)
    ensures Inv(Step(s, l))
  {
    CountersKept(s, l);
    MasterKept(s, l);
    forall c: Check
      ensures Step(s, l).log.added[c] == Accounted(Step(s, l), c)
    {
      assert s.log.added[c] == Accounted(s, c);
      ConservedKept(s, l, c);
    }
    VerdictKept(s, l);
    AnswerKept(s, l);
  }

  // ---------------------------------------------------------------- whole runs

  /** A queue just constructed, with `workers` spawned threads that have not run yet. */
  function Fresh(batchSize: nat, workers: nat): State {
    State(batchSize, [], 0, 0, 0, Some(true), false, true, false, seq(workers + 1, _ => Out), None, EMPTY_LOG)
  }

  /** One step; where the code would misbehave on broken counters, anything may follow. */
  predicate Next(s: State, l: Label, s': State) {
    Enabled(s, l) && (ThreadsOk(s) && Counters(s) ==> s' == Step(s, l))
  }

  ghost predicate IsRun(states: seq<State>, labels: seq<Label>) {
    && |states| == |labels| + 1
    && (exists batchSize, workers: nat :: states[0] == Fresh(batchSize, workers))
    && (forall k :: 0 <= k < |labels| ==> Next(states[k], labels[k], states[k + 1]))
  }

  lemma {:induction false} AllOut(n: nat, c: Check)
    ensures var ts := seq(n, _ => Out);
            Sum(Weight, ts) == 0 && Sum(IdleWeight, ts) == 0 && Sum(TotalWeight, ts) == 0 && Pending(ts, c) == 0
  {
    if n > 0 {
      AllOut(n - 1, c);
      assert seq(n, _ => Out)[1..] == seq(n - 1, _ => Out);
    }
  }

  lemma FreshInv(batchSize: nat, workers: nat)
    ensures Inv(Fresh(batchSize, workers))
  {
    AllOut(workers + 1, 0);
    forall c: Check
      ensures Fresh(batchSize, workers).log.added[c] == Accounted(Fresh(batchSize, workers), c)
    {
      AllOut(workers + 1, c);
    }
  }

  /** Whatever the interleaving, every state of every run satisfies the invariant. */
  lemma {:induction false} RunSafe(states: seq<State>, labels: seq<Label>, k: nat)
    requires IsRun(states, labels) && k < |states|
    ensures Inv(states[k])
  {
    if k == 0 {
      var batchSize, workers: nat :| states[0] == Fresh(batchSize, workers);
      FreshInv(batchSize, workers);
    } else {
      RunSafe(states, labels, k - 1);
      assert Next(states[k - 1], labels[k - 1], states[k - 1 + 1]);
      StepKeepsInv(states[k - 1], labels[k - 1]);
    }
  }

  /** What a caller of `Wait` may conclude, in every run: true means that every check it added ran and passed. */
  lemma RunAnswers(states: seq<State>, labels: seq<Label>, k: nat)
    requires IsRun(states, labels) && k < |states| && states[k].answer.Some?
    ensures var s, v := states[k], states[k].answer.value;
            && (v == Some(true) ==> s.log.passed == s.log.added)
            && (v == Some(false) ==> |s.log.failed| > 0 && s.log.failed <= s.log.added)
            && (v == None ==> s.canceled || |s.log.unknown| > 0)
            && s.todo == 0
  {
    RunSafe(states, labels, k);
  }

  /** Master asleep and not yet notified: some worker is still at work and will notify it. */
  lemma MasterNeverStranded(s: State) returns (j: nat)
    requires Inv(s) && s.threads[0] == Waiting(false)
    ensures 0 < j < |s.threads| && s.threads[j].Busy?
  {
    j := SumPositive(Weight, s.threads);
  }

  /** Once `Wait` has returned, the queue is idle, so a new session can start. */
  lemma IdleAfterWait(s: State)
    requires Inv(s) && s.waitCalled && s.threads[0].Out? && LockFree(s)
    ensures IsIdle(s) && s.queue == []
  {
    NobodyBusy(s);
    AllAsleep(s.threads);
  }

  // ---------------------------------------------------------------- Wait always comes back

  /** Brings the end of `Wait` nearer: neither a request from outside nor a wake-up other than the notified master's. */
  predicate Productive(s: State, l: Label) {
    match l
    case Call(i) => i > 0
    case Wake(i) => i == 0 && |s.threads| > 0 && s.threads[0] == Waiting(true)
    case Begin(_) | Exec(_, _) | Finish(_) | Settle(_) | Leave => true
    case Cancel | Add(_) | StartSession(_) => false
  }

  function Effort(t: Thread): nat {
    match t
    case Out => 3
    case Starting => 2
    case Inside => 1
    case Waiting(_) => 0
    case Busy(batch, done, _) => if done <= |batch| then |batch| - done + 2 else 2
    case Leaving(_) => 0
  }

  function MasterExtra(s: State): int
    requires |s.threads| > 0
  {
    match s.threads[0]
    case Out => -3
    case Starting | Busy(_, _, _) => 5
    case Inside => if s.todo == 0 && s.queue == [] then 1 else 5
    case Waiting(notified) => if notified then 4 else 5
    case Leaving(_) => 1
  }

  /** Upper bound on the productive steps left in this session's Wait. */
  function Bound(s: State): int
    requires |s.threads| > 0
  {
    4 * |s.queue| + Sum(Effort, s.threads) + MasterExtra(s)
  }

  lemma FinishShortens(s: State, i: nat)
    requires ThreadsOk(s) && MasterOk(s) && Enabled(s, Finish(i)) && !s.threads[0].Out?
    ensures Bound(FinishStep(s, i)) < Bound(s)
  {
    SumUpdate(Effort, s.threads, i, Inside);
    var ts := s.threads[i := Inside];
    if ts[0].Waiting? {
      SumUpdate(Effort, ts, 0, Waiting(true));
    }
  }

  lemma SettleShortens(s: State, i: nat)
    requires ThreadsOk(s) && Counters(s) && MasterOk(s) && Enabled(s, Settle(i))
    ensures Bound(SettleStep(s, i)) < Bound(s)
  {
    SumUpdate(Effort, s.threads, i, SettleStep(s, i).threads[i]);
  }

  lemma TouchShortens(s: State, l: Label)
    requires ThreadsOk(s) && Counters(s) && MasterOk(s) && Enabled(s, l) && Productive(s, l) && !s.threads[0].Out?
    requires l.Call? || l.Begin? || l.Wake? || l.Exec?
    ensures |Step(s, l).threads| > 0 && Bound(Step(s, l)) < Bound(s)
  {
    SumUpdate(Effort, s.threads, l.i, Step(s, l).threads[l.i]);
  }

  /** Between `Wait` and its return, each productive step uses up some of the bound. */
  lemma ProductiveShortens(s: State, l: Label)
    requires ThreadsOk(s) && Counters(s) && MasterOk(s) && Enabled(s, l) && Productive(s, l) && !s.threads[0].Out?
    ensures |Step(s, l).threads| > 0 && Bound(Step(s, l)) < Bound(s)
  {
    if l.Finish? {
      FinishShortens(s, l.i);
    } else if l.Settle? {
      SettleShortens(s, l.i);
    } else if l.Leave? {
      SumUpdate(Effort, s.threads, 0, Out);
    } else {
      TouchShortens(s, l);
    }
  }

  /** As long as the master is in `Loop`, somebody can take a productive step. */
  lemma Progress(s: State) returns (l: Label)
    requires Inv(s) && !s.threads[0].Out?
    ensures Enabled(s, l) && Productive(s, l)
  {
    if j: nat :| j < |s.threads| && s.threads[j].Inside? {
      return Settle(j);
    }
    match s.threads[0]
    case Starting => return Begin(0);
    case Leaving(_) => return Leave;
    case Busy(_, _, _) => return if BatchOver(s, s.threads[0]) then Finish(0) else Exec(0, Some(true));
    case Waiting(notified) =>
      if notified {
        return Wake(0);
      }
      var j := MasterNeverStranded(s);
      return if BatchOver(s, s.threads[j]) then Finish(j) else Exec(j, Some(true));
  }

  /** A cancellation costs nothing, and any other wake-up at most one more productive step. */
  lemma OthersLengthen(s: State, l: Label)
    requires ThreadsOk(s) && Counters(s) && MasterOk(s) && Enabled(s, l) && !Productive(s, l) && !s.threads[0].Out?
    ensures l.Wake? || l.Cancel?
    ensures |Step(s, l).threads| > 0 && Bound(Step(s, l)) <= Bound(s) + if l.Wake? then 1 else 0
  {
    if l.Wake? {
      SumUpdate(Effort, s.threads, l.i, Inside);
    }
  }

  /** Any steps at all, with the master in `Loop` before each of them. */
  ghost predicate WaitPath(states: seq<State>, labels: seq<Label>) {
    && |states| == |labels| + 1 && Inv(states[0])
    && (forall k :: 0 <= k < |labels| ==>
          Next(states[k], labels[k], states[k + 1]) && |states[k].threads| > 0 && !states[k].threads[0].Out?)
  }

  function ProductiveSteps(states: seq<State>, labels: seq<Label>): nat
    requires |states| == |labels| + 1
  {
    if labels == [] then 0
    else (if Productive(states[0], labels[0]) then 1 else 0) + ProductiveSteps(states[1..], labels[1..])
  }

  /** Wake-ups of workers, and of a master that has not been notified. */
  function OtherWakes(states: seq<State>, labels: seq<Label>): nat
    requires |states| == |labels| + 1
  {
    if labels == [] then 0
    else (if labels[0].Wake? && !Productive(states[0], labels[0]) then 1 else 0) + OtherWakes(states[1..], labels[1..])
  }

  lemma WaitPathTail(states: seq<State>, labels: seq<Label>)
    requires WaitPath(states, labels) && labels != []
    ensures Enabled(states[0], labels[0]) && states[1] == Step(states[0], labels[0])
            && WaitPath(states[1..], labels[1..])
  {
    assert Next(states[0], labels[0], states[0 + 1]);
    StepKeepsInv(states[0], labels[0]);
    forall k | 0 <= k < |labels[1..]|
      ensures Next(states[1..][k], labels[1..][k], states[1..][k + 1])
      ensures |states[1..][k].threads| > 0 && !states[1..][k].threads[0].Out?
    {
      assert Next(states[k + 1], labels[k + 1], states[k + 2]);
    }
  }

  /**
   Whatever the schedule, a `Wait` in progress takes at most `Bound` productive steps plus one for every wake-up of a
   worker or of an un-notified master. So it ends unless such wake-ups never stop; by `Progress` it never gets stuck.
   */
  lemma {:induction false} WaitTerminates(states: seq<State>, labels: seq<Label>)
    requires WaitPath(states, labels)
    ensures |states[0].threads| > 0 && ProductiveSteps(states, labels) <= Bound(states[0]) + OtherWakes(states, labels)
    decreases |labels|
  {
    SumAtLeast(Effort, states[0].threads, 0);
    if labels != [] {
      WaitPathTail(states, labels);
      if Productive(states[0], labels[0]) {
        ProductiveShortens(states[0], labels[0]);
      } else {
        OthersLengthen(states[0], labels[0]);
      }
      WaitTerminates(states[1..], labels[1..]);
    }
  }

  // ---------------------------------------------------------------- the object itself

  /**
   `CCheckQueue` with its own fields, one method for each stretch of locked code. `threads` holds what
   the source keeps in the local variables of every thread running `Loop`.
   */
  class Queue {
    const nBatchSize: nat
    var queue: seq<Check>
    var nIdle: int
    var nTotal: int
    var fAllOk: Option<bool>
    var nTodo: int
    var mHasToken: bool
    var mCanceled: bool
    var mWaitCalled: bool
    var threads: seq<Thread>
    ghost var answer: Option<Option<bool>>
    ghost var log: Log

    ghost function Snapshot(): State
      reads this
    {
      State(nBatchSize, queue, nTodo, nIdle, nTotal, fAllOk, mHasToken, mWaitCalled, mCanceled, threads, answer, log)
    }

    constructor (batchSize: nat, workerThreadCount: nat)
      ensures Snapshot() == Fresh(batchSize, workerThreadCount) && Inv(Snapshot())
    {
      nBatchSize := batchSize;
      queue, nIdle, nTotal, nTodo, fAllOk := [], 0, 0, 0, Some(true);
      mHasToken, mCanceled, mWaitCalled := false, false, true;
      threads := seq(workerThreadCount + 1, _ => Out);
      answer, log := None, EMPTY_LOG;
      new;
      FreshInv(batchSize, workerThreadCount);
    }

    /** `Add`: refuses without a session or after `Wait`, otherwise appends and counts. */
    method AddChecks(vChecks: seq<Check>) returns (thrown: bool)
      requires Inv(Snapshot()) && threads[0].Out? && LockFree(Snapshot()) && nTodo + |vChecks| < UINT_LIMIT
      modifies this
      ensures thrown <==> !old(Enabled(Snapshot(), Add(vChecks)))
      ensures thrown <==> !old(mHasToken) || old(mWaitCalled)
      ensures !thrown ==> queue == old(queue) + vChecks && nTodo == old(nTodo) + |vChecks|
      ensures Snapshot() == if thrown then old(Snapshot()) else Step(old(Snapshot()), Add(vChecks))
      ensures Inv(Snapshot())
    {
      if !mHasToken || mWaitCalled {
        return true;
      }
      StepKeepsInv(Snapshot(), Add(vChecks));
      for k := 0 to |vChecks|
        invariant queue == old(queue) + vChecks[..k]
        invariant Snapshot() == old(Snapshot()).(queue := queue)
      {
        queue := queue + [vChecks[k]];
      }
      nTodo := nTodo + |vChecks|;
      log := log.(added := log.added + multiset(vChecks));
      thrown := false;
    }

    /** `StartCheckingSession`: refuses exactly while the previous session is not over. */
    method StartCheckingSession(alreadyCanceled: bool) returns (thrown: bool)
      requires Inv(Snapshot()) && threads[0].Out? && LockFree(Snapshot())
      modifies this
      ensures thrown <==> !old(Enabled(Snapshot(), StartSession(alreadyCanceled)))
      ensures thrown <==> !old(mWaitCalled)
      ensures Snapshot() == if thrown then old(Snapshot()) else Step(old(Snapshot()), StartSession(alreadyCanceled))
      ensures !thrown ==> mHasToken && mCanceled == alreadyCanceled && fAllOk == Some(true) && !mWaitCalled
      ensures Inv(Snapshot())
    {
      if mWaitCalled {
        IdleAfterWait(Snapshot());
      }
      if !mWaitCalled || !(nTotal == nIdle && nTodo == 0) {
        return true;
      }
      StepKeepsInv(Snapshot(), StartSession(alreadyCanceled));
      mHasToken, mCanceled, fAllOk, mWaitCalled := true, alreadyCanceled, Some(true), false;
      answer, log := None, EMPTY_LOG;
      thrown := false;
    }

    method MergeBatch(i: nat)
      requires i < |threads| && threads[i].Busy? && threads[i].done <= |threads[i].batch|
      modifies this
      ensures Snapshot() == MergeStep(old(Snapshot()), i)
    {
      var t := threads[i];
      if fAllOk.Some? && t.ok.Some? {
        fAllOk := Some(fAllOk.value && t.ok.value);
      } else {
        fAllOk := None;
      }
      nTodo := nTodo - |t.batch|;
      threads := threads[i := Inside];
      log := Drop(log, t.batch[t.done..]);
    }

    /** Locked code up to the end of the clean-up after a batch. */
    method CleanUp(i: nat)
      requires i < |threads| && threads[i].Busy? && threads[i].done <= |threads[i].batch|
      modifies this
      ensures Snapshot() == FinishStep(old(Snapshot()), i)
    {
      MergeBatch(i);
      if mCanceled {
        log := Drop(log, queue);
        nTodo := nTodo - |queue|;
        queue := [];
      }
      if nTodo == 0 && i != 0 {
        threads := Notified(threads);
      }
    }

    /** Locked code from the emptiness test on: sleep, return or take a batch from the front. */
    method TakeWork(i: nat)
      requires i < |threads| && threads[i].Inside? && nTotal >= 0 && nIdle >= 0
      modifies this
      ensures Snapshot() == SettleStep(old(Snapshot()), i)
    {
      if queue == [] {
        if i == 0 && nTodo == 0 {
          if mCanceled {
            fAllOk := None;
          }
          threads := threads[i := Leaving(fAllOk)];
          return;
        }
        nIdle := nIdle + 1;
        threads := threads[i := Waiting(false)];
        return;
      }
      var nNow := BatchCount(|queue|, nTotal, nIdle, nBatchSize);
      threads := threads[i := Busy(queue[..nNow], 0, fAllOk)];
      queue := queue[nNow..];
    }
  }
}
