/**
 What `Wait` answers, told by what happened: the labels of a run say which session is open, what was added to it, how
 each check came out and whether somebody canceled; the answer follows from that alone.
 */
module CheckQueueRuns {
  import opened Common
  import opened CheckQueue

  // ---------------------------------------------------------------- what happened

  /** The session open before label `k` was opened at `from`. */
  predicate SessionFrom(labels: seq<Label>, from: int, k: int) {
    && 0 <= from < k <= |labels| && labels[from].StartSession?
    && (forall j :: from < j < k ==> !labels[j].StartSession?)
  }

  /** The last time before `leave` that the master passed the emptiness test. */
  predicate ReturnedAt(labels: seq<Label>, ret: int, leave: int) {
    && 0 <= ret < leave <= |labels| && labels[ret] == Settle(0)
    && (forall j :: ret < j < leave ==> labels[j] != Settle(0))
  }

  /** The last time before `k` that the master left `Loop`. */
  predicate LeftAt(labels: seq<Label>, leave: int, k: int) {
    && 0 <= leave < k <= |labels| && labels[leave].Leave?
    && (forall j :: leave < j < k ==> !labels[j].Leave?)
  }

  /** The session was opened with a token already canceled, or somebody canceled before `k`. */
  predicate CanceledBy(labels: seq<Label>, from: int, k: int)
    requires SessionFrom(labels, from, k)
  {
    labels[from].alreadyCanceled || exists j :: from < j < k && labels[j].Cancel?
  }

  /** What was added between `from` and `k`. */
  function AddedIn(labels: seq<Label>, from: nat, k: nat): multiset<Check>
    requires k <= |labels|
    decreases k
  {
    if k <= from + 1 then multiset{}
    else AddedIn(labels, from, k - 1) + if labels[k - 1].Add? then multiset(labels[k - 1].checks) else multiset{}
  }

  /** Thread `i` is about to run a check. */
  predicate HasCheck(s: State, i: nat) {
    i < |s.threads| && s.threads[i].Busy? && s.threads[i].done < |s.threads[i].batch|
  }

  /** The checks that came out as `result` between `from` and `k`. */
  function CameOut(states: seq<State>, labels: seq<Label>, from: nat, k: nat, result: Option<bool>): multiset<Check>
    requires k <= |labels| < |states|
    decreases k
  {
    if k <= from + 1 then multiset{}
    else
      CameOut(states, labels, from, k - 1, result)
      + OneResult(states[k - 1], labels[k - 1], result)
  }

  function OneResult(s: State, l: Label, result: Option<bool>): multiset<Check> {
    if l.Exec? && l.result == result && HasCheck(s, l.i) then multiset{s.threads[l.i].batch[s.threads[l.i].done]}
    else multiset{}
  }

  // ---------------------------------------------------------------- the state keeps track of it

  lemma NextIsStep(states: seq<State>, labels: seq<Label>, k: nat)
    requires IsRun(states, labels) && k < |labels|
    ensures Inv(states[k]) && Enabled(states[k], labels[k]) && states[k + 1] == Step(states[k], labels[k])
  {
    RunSafe(states, labels, k);
    assert Next(states[k], labels[k], states[k + 1]);
  }

  lemma OpenedAt(states: seq<State>, labels: seq<Label>, k: nat)
    requires IsRun(states, labels) && k < |labels| && labels[k].StartSession?
    ensures states[k + 1].canceled == labels[k].alreadyCanceled && states[k + 1].log == EMPTY_LOG
  {
    NextIsStep(states, labels, k);
  }

  lemma TokenAt(states: seq<State>, labels: seq<Label>, k: nat)
    requires IsRun(states, labels) && k < |labels| && !labels[k].StartSession?
    ensures states[k + 1].canceled == (states[k].canceled || labels[k].Cancel?)
  {
    NextIsStep(states, labels, k);
  }

  /** The token answers what the labels say. */
  lemma {:induction false} TokenTold(states: seq<State>, labels: seq<Label>, from: nat, k: nat)
    requires IsRun(states, labels) && SessionFrom(labels, from, k)
    ensures states[k].canceled <==> CanceledBy(labels, from, k)
    decreases k
  {
    if k - 1 > from {
      TokenTold(states, labels, from, k - 1);
      TokenAt(states, labels, k - 1);
      if CanceledBy(labels, from, k) && !labels[from].alreadyCanceled && !labels[k - 1].Cancel? {
        var j :| from < j < k && labels[j].Cancel?;
        assert from < j < k - 1;
      }
    } else {
      OpenedAt(states, labels, from);
    }
  }

  /** The part of the log with the checks that came out as `result`. */
  function Logged(log: Log, result: Option<bool>): multiset<Check> {
    match result
    case Some(true) => log.passed
    case Some(false) => log.failed
    case None => log.unknown
  }

  lemma AddedAt(states: seq<State>, labels: seq<Label>, k: nat)
    requires IsRun(states, labels) && k < |labels| && !labels[k].StartSession?
    ensures states[k + 1].log.added
            == states[k].log.added + if labels[k].Add? then multiset(labels[k].checks) else multiset{}
  {
    NextIsStep(states, labels, k);
    var s, l := states[k], labels[k];
    if l.Exec? {
      RecordOne(s.log, s.threads[l.i].batch[s.threads[l.i].done], l.result, 0);
    }
  }

  lemma RecordLogs(log: Log, c: Check, r: Option<bool>, result: Option<bool>)
    ensures Logged(Record(log, c, r), result) == Logged(log, result) + if r == result then multiset{c} else multiset{}
  {
    OneOfThree(r);
    OneOfThree(result);
  }

  lemma OtherLogs(s: State, l: Label)
    requires ThreadsOk(s) && Counters(s) && Enabled(s, l) && !l.StartSession? && !l.Exec?
    ensures Step(s, l).log.passed == s.log.passed && Step(s, l).log.failed == s.log.failed
    ensures Step(s, l).log.unknown == s.log.unknown
  {
    match l
    case Finish(i) => assert FinishStep(s, i).log.passed == s.log.passed;
    case Settle(i) => assert SettleStep(s, i).log == s.log;
    case _ =>
  }

  lemma LoggedAt(states: seq<State>, labels: seq<Label>, k: nat, result: Option<bool>)
    requires IsRun(states, labels) && k < |labels| && !labels[k].StartSession?
    ensures Logged(states[k + 1].log, result) == Logged(states[k].log, result) + OneResult(states[k], labels[k], result)
  {
    NextIsStep(states, labels, k);
    var s, l := states[k], labels[k];
    if l.Exec? {
      RecordLogs(s.log, s.threads[l.i].batch[s.threads[l.i].done], l.result, result);
    } else {
      OtherLogs(s, l);
    }
  }

  /** The history kept beside the state is what the labels say: what was added, */
  lemma {:induction false} AddedTold(states: seq<State>, labels: seq<Label>, from: nat, k: nat)
    requires IsRun(states, labels) && SessionFrom(labels, from, k)
    ensures states[k].log.added == AddedIn(labels, from, k)
    decreases k
  {
    if k - 1 > from {
      AddedTold(states, labels, from, k - 1);
      AddedAt(states, labels, k - 1);
    } else {
      OpenedAt(states, labels, from);
    }
  }

  lemma {:induction false} ResultsAddUp(states: seq<State>, labels: seq<Label>, from: nat, k: nat, result: Option<bool>)
    requires from < k <= |labels| < |states| && Logged(states[from + 1].log, result) == multiset{}
    requires forall j :: from < j < k ==>
               Logged(states[j + 1].log, result)
               == Logged(states[j].log, result) + OneResult(states[j], labels[j], result)
    ensures Logged(states[k].log, result) == CameOut(states, labels, from, k, result)
    decreases k
  {
    if k - 1 > from {
      ResultsAddUp(states, labels, from, k - 1, result);
      assert Logged(states[k - 1 + 1].log, result)
             == Logged(states[k - 1].log, result) + OneResult(states[k - 1], labels[k - 1], result);
    }
  }

  /** and how the checks came out. */
  lemma ResultsTold(states: seq<State>, labels: seq<Label>, from: nat, k: nat, result: Option<bool>)
    requires IsRun(states, labels) && SessionFrom(labels, from, k)
    ensures Logged(states[k].log, result) == CameOut(states, labels, from, k, result)
  {
    OpenedAt(states, labels, from);
    assert Logged(EMPTY_LOG, result) == multiset{};
    forall j | from < j < k
      ensures Logged(states[j + 1].log, result)
              == Logged(states[j].log, result) + OneResult(states[j], labels[j], result)
    {
      LoggedAt(states, labels, j, result);
    }
    ResultsAddUp(states, labels, from, k, result);
  }

  /** Only passing the emptiness test makes the master return. */
  lemma StaysLeaving(s: State, l: Label)
    requires ThreadsOk(s) && Counters(s) && Enabled(s, l) && l != Settle(0)
    requires |Step(s, l).threads| > 0 && Step(s, l).threads[0].Leaving?
    ensures s.threads[0] == Step(s, l).threads[0] && !l.StartSession?
  {
    match l
    case Finish(i) => assert FinishStep(s, i).threads[0] == s.threads[0];
    case Settle(i) => assert SettleStep(s, i).threads[0] == s.threads[0];
    case _ =>
  }

  /** Between the test and the end of `Loop` the verdict rests. */
  lemma {:induction false} VerdictRests(states: seq<State>, labels: seq<Label>, k: nat, leave: nat)
    requires IsRun(states, labels) && k <= leave < |states|
    requires |states[leave].threads| > 0 && states[leave].threads[0].Leaving?
    requires forall j :: k <= j < leave ==> labels[j] != Settle(0)
    ensures |states[k].threads| > 0 && states[k].threads[0] == states[leave].threads[0]
    ensures forall j :: k <= j < leave ==> !labels[j].StartSession?
    decreases leave - k
  {
    if k < leave {
      VerdictRests(states, labels, k + 1, leave);
      NextIsStep(states, labels, k);
      StaysLeaving(states[k], labels[k]);
    }
  }

  /** An answer rests until the next one or the next session. */
  lemma {:induction false} AnswerRests(states: seq<State>, labels: seq<Label>, j: nat, k: nat)
    requires IsRun(states, labels) && j <= k < |states|
    requires forall m :: j <= m < k ==> !labels[m].Leave? && !labels[m].StartSession?
    ensures states[k].answer == states[j].answer
    decreases k - j
  {
    if j < k {
      AnswerRests(states, labels, j, k - 1);
      NextIsStep(states, labels, k - 1);
    }
  }

  // ---------------------------------------------------------------- the answer

  /** What `Wait` must answer. */
  ghost predicate RightAnswer(v: Option<bool>, canceled: bool, added: multiset<Check>, passed: multiset<Check>,
                              failed: multiset<Check>, unknown: multiset<Check>)
  {
    && (v == Some(true) <==> !canceled && passed == added)
    && (v == None <==> canceled || unknown != multiset{})
    && (v == Some(false) <==> !canceled && unknown == multiset{} && failed != multiset{})
  }

  lemma ReturnIsRight(s: State)
    requires Inv(s) && Enabled(s, Settle(0)) && Step(s, Settle(0)).threads[0].Leaving?
    ensures RightAnswer(Step(s, Settle(0)).threads[0].verdict, s.canceled, s.log.added, s.log.passed, s.log.failed,
                        s.log.unknown)
  {
    VerdictExact(s);
  }

  /**
   In every interleaving, the answer of the last `Wait` of the session: empty exactly if the session was opened with a
   canceled token, or canceled before the master returned, or a check was undecided; true exactly if neither and every
   check added has passed; false exactly if otherwise one has failed.
   */
  lemma RunVerdict(states: seq<State>, labels: seq<Label>, from: nat, ret: nat, leave: nat, k: nat)
    requires IsRun(states, labels) && SessionFrom(labels, from, k) && from < leave
    requires LeftAt(labels, leave, k) && ReturnedAt(labels, ret, leave)
    ensures SessionFrom(labels, from, ret) && states[k].answer.Some?
    ensures RightAnswer(states[k].answer.value, CanceledBy(labels, from, ret), AddedIn(labels, from, ret),
                        CameOut(states, labels, from, ret, Some(true)), CameOut(states, labels, from, ret, Some(false)),
                        CameOut(states, labels, from, ret, None))
  {
    NextIsStep(states, labels, leave);
    AnswerRests(states, labels, leave + 1, k);
    VerdictRests(states, labels, ret + 1, leave);
    assert labels[from].StartSession?;
    assert from < ret;
    NextIsStep(states, labels, ret);
    TokenTold(states, labels, from, ret);
    AddedTold(states, labels, from, ret);
    ResultsTold(states, labels, from, ret, Some(true));
    ResultsTold(states, labels, from, ret, Some(false));
    ResultsTold(states, labels, from, ret, None);
    ReturnIsRight(states[ret]);
  }

  /** A constructed queue has no session, no answer and nobody in it. */
  lemma NotAtStart(states: seq<State>, labels: seq<Label>, k: nat)
    requires IsRun(states, labels) && k < |states|
    requires states[k].session || states[k].answer.Some? || (|states[k].threads| > 0 && states[k].threads[0].Leaving?)
    ensures k > 0
  {
    var batchSize, workers: nat :| states[0] == Fresh(batchSize, workers);
  }

  /** Every answer has such a session, such a return and such an end. */
  lemma {:induction false} AnswerHasRun(states: seq<State>, labels: seq<Label>, k: nat)
    returns (from: nat, ret: nat, leave: nat)
    requires IsRun(states, labels) && k < |states| && states[k].answer.Some?
    ensures SessionFrom(labels, from, k) && from < leave && LeftAt(labels, leave, k) && ReturnedAt(labels, ret, leave)
    decreases k
  {
    NotAtStart(states, labels, k);
    NextIsStep(states, labels, k - 1);
    if labels[k - 1].Leave? {
      leave := k - 1;
      ret := LastReturn(states, labels, leave);
      from := LastStart(states, labels, leave);
      assert SessionFrom(labels, from, k);
    } else {
      from, ret, leave := AnswerHasRun(states, labels, k - 1);
      assert SessionFrom(labels, from, k) && LeftAt(labels, leave, k);
    }
  }

  /** A returned master has passed the test. */
  lemma {:induction false} LastReturn(states: seq<State>, labels: seq<Label>, k: nat) returns (ret: nat)
    requires IsRun(states, labels) && k < |states| && |states[k].threads| > 0 && states[k].threads[0].Leaving?
    ensures ReturnedAt(labels, ret, k)
    decreases k
  {
    NotAtStart(states, labels, k);
    NextIsStep(states, labels, k - 1);
    if labels[k - 1] == Settle(0) {
      ret := k - 1;
    } else {
      StaysLeaving(states[k - 1], labels[k - 1]);
      ret := LastReturn(states, labels, k - 1);
    }
  }

  /** While a session is open there is where it was opened. */
  lemma {:induction false} LastStart(states: seq<State>, labels: seq<Label>, k: nat) returns (from: nat)
    requires IsRun(states, labels) && k < |states| && states[k].session
    ensures SessionFrom(labels, from, k)
    decreases k
  {
    NotAtStart(states, labels, k);
    NextIsStep(states, labels, k - 1);
    if labels[k - 1].StartSession? {
      from := k - 1;
    } else {
      from := LastStart(states, labels, k - 1);
    }
  }

  // ---------------------------------------------------------------- work is taken in order and given up early

  /** What a step takes off the queue: a batch, or everything once the session is canceled. */
  function TakenBy(s: State, l: Label, s': State): seq<Check> {
    match l
    case Settle(i) => if i < |s'.threads| && s'.threads[i].Busy? then s'.threads[i].batch else []
    case Finish(_) => if s.canceled then s.queue else []
    case _ => []
  }

  /** What was added between `from` and `k`, in order. */
  function AddedList(labels: seq<Label>, from: nat, k: nat): seq<Check>
    requires k <= |labels|
    decreases k
  {
    if k <= from + 1 then []
    else AddedList(labels, from, k - 1) + if labels[k - 1].Add? then labels[k - 1].checks else []
  }

  function TakenList(states: seq<State>, labels: seq<Label>, from: nat, k: nat): seq<Check>
    requires k <= |labels| < |states|
    decreases k
  {
    if k <= from + 1 then []
    else TakenList(states, labels, from, k - 1) + TakenBy(states[k - 1], labels[k - 1], states[k])
  }

  lemma QueueAt(states: seq<State>, labels: seq<Label>, k: nat)
    requires IsRun(states, labels) && k < |labels| && !labels[k].StartSession?
    ensures TakenBy(states[k], labels[k], states[k + 1]) + states[k + 1].queue
            == states[k].queue + if labels[k].Add? then labels[k].checks else []
  {
    NextIsStep(states, labels, k);
    var s, l, s' := states[k], labels[k], states[k + 1];
    if l.Settle? && s.queue != [] {
      var n := BatchLength(s);
      assert s.queue == s.queue[..n] + s.queue[n..];
    }
  }

  lemma EmptyAtStart(states: seq<State>, labels: seq<Label>, k: nat)
    requires IsRun(states, labels) && k < |labels| && labels[k].StartSession?
    ensures states[k + 1].queue == []
  {
    NextIsStep(states, labels, k);
    IdleAfterWait(states[k]);
  }

  /** First come, first served: what was taken, then what is still queued, is what was added, in that order. */
  lemma {:induction false} TakenInOrder(states: seq<State>, labels: seq<Label>, from: nat, k: nat)
    requires IsRun(states, labels) && SessionFrom(labels, from, k)
    ensures TakenList(states, labels, from, k) + states[k].queue == AddedList(labels, from, k)
    decreases k
  {
    if k - 1 > from {
      TakenInOrder(states, labels, from, k - 1);
      QueueAt(states, labels, k - 1);
      Reordered(TakenList(states, labels, from, k - 1), TakenBy(states[k - 1], labels[k - 1], states[k]),
                states[k].queue, states[k - 1].queue, AddedList(labels, from, k - 1),
                if labels[k - 1].Add? then labels[k - 1].checks else []);
    } else {
      EmptyAtStart(states, labels, from);
    }
  }

  lemma Reordered(t: seq<Check>, a: seq<Check>, q': seq<Check>, q: seq<Check>, all: seq<Check>, b: seq<Check>)
    requires t + q == all && a + q' == q + b
    ensures (t + a) + q' == all + b
  {
    assert (t + a) + q' == t + (a + q') == t + (q + b) == (t + q) + b;
  }

  /** Once the verdict is not true, or the session is canceled, nobody starts on a batch taken afterwards. */
  lemma NoWorkAfterVerdict(s: State, i: nat, result: Option<bool>)
    requires Inv(s) && Enabled(s, Settle(i)) && s.allOk != Some(true)
    ensures !Enabled(Step(s, Settle(i)), Exec(i, result))
  {
  }

  /** The clean-up after a batch gives up the queue exactly if the session is canceled. */
  lemma FinishGivesUp(s: State, i: nat)
    requires Inv(s) && Enabled(s, Finish(i))
    ensures var s' := Step(s, Finish(i));
            && s'.queue == (if s.canceled then [] else s.queue)
            && s'.log.dropped == s.log.dropped + multiset(s.threads[i].batch[s.threads[i].done..])
                                 + (if s.canceled then multiset(s.queue) else multiset{})
            && (s'.todo == 0 && s.threads[0].Waiting? ==> s'.threads[0] == Waiting(true))
  {
    NoAnswerYet(s, i);
  }
}
