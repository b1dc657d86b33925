/**
 The pool of script-check queues: every queue is either idle or lent to one checker. A pool step either
 runs the pool's own locked code or lets one of the queues take a step of its own machine.
 */
module CheckQueuePool {
  import opened Common
  import Q = CheckQueue
  import Runs = CheckQueueRuns

  /** `CRunningChecker`; `premature` tells whether its termination source was fired. */
  datatype Running = Running(value: int, start: int, queue: nat, premature: bool)

  datatype Pool = Pool(queues: seq<Q.State>, idle: seq<nat>, running: seq<Running>)

  datatype Label =
    | Request(value: int)
    | Acquire(value: int, now: int, alreadyCanceled: bool)
    | Inner(q: nat, step: Q.Label)
    | Return(q: nat)

  function Lent(running: seq<Running>): seq<nat> {
    seq(|running|, k requires 0 <= k < |running| => running[k].queue)
  }

  /** Lower priority: smaller value, or the same value and started earlier. */
  predicate Below(a: Running, b: Running) {
    a.value < b.value || (a.value == b.value && a.start < b.start)
  }

  predicate IsWorst(running: seq<Running>, k: nat) {
    && k < |running|
    && (forall j :: 0 <= j < |running| ==> !Below(running[j], running[k]))
    && (forall j :: 0 <= j < k ==> Below(running[k], running[j]))
  }

  /** The search of GetChecker; the first of the lowest running checkers. */
  method FindWorst(running: seq<Running>) returns (k: nat)
    requires running != []
    ensures IsWorst(running, k)
  {
    k := 0;
    for i := 1 to |running|
      invariant k < i
      invariant forall j :: 0 <= j < i ==> !Below(running[j], running[k])
      invariant forall j :: 0 <= j < k ==> Below(running[k], running[j])
    {
      if running[k].value > running[i].value {
        k := i;
      } else if running[k].value == running[i].value && running[k].start > running[i].start {
        k := i;
      }
    }
  }

  // ---------------------------------------------------------------- invariant

  /** In how many places queue `q` is registered. */
  function Places(p: Pool, q: nat): nat {
    multiset(p.idle)[q] + multiset(Lent(p.running))[q]
  }

  /** Each queue is in exactly one place, and an idle one has no session open. */
  ghost predicate Inv(p: Pool) {
    && |p.queues| > 0
    && (forall q: nat :: Places(p, q) == if q < |p.queues| then 1 else 0)
    && (forall q :: 0 <= q < |p.queues| ==> Q.Inv(p.queues[q]))
    && (forall q :: 0 <= q < |p.queues| && q in p.idle ==> AtRest(p.queues[q]))
  }

  /** The last session is over: its master has returned. */
  predicate AtRest(s: Q.State) {
    |s.threads| > 0 && s.waitCalled && s.threads[0].Out?
  }

  /** What an idle queue's threads may do on their own; only the owner of a lent one may use it. */
  predicate OwnerLabel(l: Q.Label) {
    l == Q.Call(0) || l.Add? || l.StartSession?
  }

  ghost predicate Enabled(p: Pool, l: Label) {
    match l
    case Request(_) => true
    case Acquire(_, _, _) => p.idle != [] && (p.idle[0] < |p.queues| ==> Q.LockFree(p.queues[p.idle[0]]))
    case Inner(q, ql) =>
      q < |p.queues| && Q.Enabled(p.queues[q], ql) && !ql.StartSession? && (OwnerLabel(ql) ==> q in Lent(p.running))
    case Return(q) =>
      q < |p.queues| && q in Lent(p.running) && AtRest(p.queues[q]) && p.queues[q].answer.Some?
          && Q.LockFree(p.queues[q])
  }

  /** `assert(queue.IsIdle())`, and what StartCheckingSession insists on. */
  lemma AtRestIsIdle(s: Q.State)
    requires Q.Inv(s) && AtRest(s) && Q.LockFree(s)
    ensures Q.IsIdle(s) && forall c :: Q.Enabled(s, Q.StartSession(c))
  {
    Q.IdleAfterWait(s);
  }

  lemma LentOrIdle(p: Pool, q: nat)
    requires Inv(p)
    ensures q in p.idle ==> q < |p.queues| && q !in Lent(p.running)
    ensures q in Lent(p.running) ==> q < |p.queues| && q !in p.idle
  {
    assert Places(p, q) == if q < |p.queues| then 1 else 0;
    assert q in p.idle ==> multiset(p.idle)[q] > 0;
    assert q in Lent(p.running) ==> multiset(Lent(p.running))[q] > 0;
  }

  /** `assert(mRunningCheckers.begin() != mRunningCheckers.end())`: no idle queue means one is lent. */
  lemma SomebodyRuns(p: Pool)
    requires Inv(p) && p.idle == []
    ensures p.running != []
  {
    assert Places(p, 0) == 1;
  }

  // ---------------------------------------------------------------- steps

  /** Cancel the lowest checker if the requester outranks it; `worst` is where the search stops. */
  function Preempt(p: Pool, value: int, worst: nat): Pool
    requires worst < |p.running| && p.running[worst].queue < |p.queues|
  {
    var r := p.running[worst];
    if r.value < value then
      p.(running := p.running[worst := r.(premature := true)],
         queues := p.queues[r.queue := p.queues[r.queue].(canceled := true)])
    else p
  }

  ghost predicate Next(p: Pool, l: Label, p': Pool) {
    && Enabled(p, l)
    && (Inv(p) ==>
          match l
          case Request(value) =>
            (p.idle != [] ==> p' == p) &&
            (p.idle == [] ==> exists worst: nat :: IsWorst(p.running, worst) && p.running[worst].queue < |p.queues|
                                             && p' == Preempt(p, value, worst))
          case Acquire(value, now, c) =>
            var q := p.idle[0];
            q < |p.queues| && Q.Inv(p.queues[q]) && Q.Enabled(p.queues[q], Q.StartSession(c)) ==>
              p' == Pool(p.queues[q := Q.Step(p.queues[q], Q.StartSession(c))], p.idle[1..],
                         p.running + [Running(value, now, q, false)])
          case Inner(q, ql) => p' == p.(queues := p.queues[q := Q.Step(p.queues[q], ql)])
          case Return(q) =>
            exists k :: 0 <= k < |p.running| && p.running[k].queue == q
                && (forall j :: 0 <= j < k ==> p.running[j].queue != q)
                        && p' == p.(idle := p.idle + [q], running := p.running[..k] + p.running[k + 1..]))
  }

  lemma AcquireKeepsInv(p: Pool, p': Pool, value: int, now: int, c: bool)
    requires Inv(p) && Next(p, Acquire(value, now, c), p')
    ensures Inv(p')
  {
    var q := p.idle[0];
    LentOrIdle(p, q);
    AtRestIsIdle(p.queues[q]);
    Q.StepKeepsInv(p.queues[q], Q.StartSession(c));
    assert p.idle == [q] + p.idle[1..];
    assert Lent(p'.running) == Lent(p.running) + [q];
    forall x: nat
      ensures Places(p', x) == if x < |p'.queues| then 1 else 0
    {
      assert Places(p, x) == if x < |p.queues| then 1 else 0;
    }
    forall x | 0 <= x < |p'.queues| && x in p'.idle
      ensures AtRest(p'.queues[x])
    {
      assert x in p.idle;
      assert Places(p', q) == 1;
    }
  }

  lemma InnerKeepsInv(p: Pool, p': Pool, q: nat, ql: Q.Label)
    requires Inv(p) && Next(p, Inner(q, ql), p')
    ensures Inv(p')
  {
    Q.StepKeepsInv(p.queues[q], ql);
    forall x: nat
      ensures Places(p', x) == if x < |p'.queues| then 1 else 0
    {
      assert Places(p, x) == if x < |p.queues| then 1 else 0;
    }
    LentOrIdle(p, q);
    if q in p.idle {
      assert AtRest(p.queues[q]);
      assert AtRest(p'.queues[q]);
    }
  }

  lemma RemoveAt(l: seq<nat>, k: nat, x: nat)
    requires k < |l|
    ensures multiset(l)[x] == multiset(l[..k] + l[k + 1..])[x] + if x == l[k] then 1 else 0
  {
    assert l == l[..k] + [l[k]] + l[k + 1..];
  }

  lemma ReturnPlaces(p: Pool, p': Pool, k: nat, x: nat)
    requires k < |p.running| && p'.idle == p.idle + [p.running[k].queue]
    requires p'.running == p.running[..k] + p.running[k + 1..]
    ensures Places(p', x) == Places(p, x)
  {
    var l := Lent(p.running);
    assert Lent(p'.running) == l[..k] + l[k + 1..];
    RemoveAt(l, k, x);
  }

  lemma ReturnKeepsInv(p: Pool, p': Pool, q: nat)
    requires Inv(p) && Next(p, Return(q), p')
    ensures Inv(p')
  {
    var k :| 0 <= k < |p.running| && p.running[k].queue == q && p'.running == p.running[..k] + p.running[k + 1..];
    forall x: nat
      ensures Places(p', x) == if x < |p'.queues| then 1 else 0
    {
      ReturnPlaces(p, p', k, x);
      assert Places(p, x) == if x < |p.queues| then 1 else 0;
    }
  }

  lemma RequestKeepsInv(p: Pool, p': Pool, value: int)
    requires Inv(p) && Next(p, Request(value), p')
    ensures Inv(p')
  {
    if p.idle == [] {
      var worst: nat :| IsWorst(p.running, worst) && p.running[worst].queue < |p.queues|
          && p' == Preempt(p, value, worst);
      var q := p.running[worst].queue;
      Q.StepKeepsInv(p.queues[q], Q.Cancel);
      assert Lent(p'.running) == Lent(p.running);
      forall x: nat
        ensures Places(p', x) == if x < |p'.queues| then 1 else 0
      {
        assert Places(p, x) == if x < |p.queues| then 1 else 0;
      }
    }
  }

  lemma StepKeepsInv(p: Pool, l: Label, p': Pool)
    requires Inv(p) && Next(p, l, p')
    ensures Inv(p')
  {
    match l
    case Request(value) => RequestKeepsInv(p, p', value);
    case Acquire(value, now, c) => AcquireKeepsInv(p, p', value, now, c);
    case Inner(q, ql) => InnerKeepsInv(p, p', q, ql);
    case Return(q) => ReturnKeepsInv(p, p', q);
  }

  // ---------------------------------------------------------------- what a request does

  /** There is no idle queue, and of the running checkers the `k`-th is the lowest and lower than the requester. */
  predicate Outranked(p: Pool, value: int, k: nat) {
    p.idle == [] && IsWorst(p.running, k) && p.running[k].value < value
  }

  /** Checker `k` has been told to stop and its session is canceled; nothing else has happened. */
  predicate Stopped(p: Pool, p': Pool, k: nat)
    requires k < |p.running|
  {
    var q := p.running[k].queue;
    && p'.idle == p.idle && |p'.running| == |p.running| && |p'.queues| == |p.queues|
    && p'.running[k] == p.running[k].(premature := true)
    && (forall j :: 0 <= j < |p.running| && j != k ==> p'.running[j] == p.running[j])
    && q < |p.queues| && p'.queues[q].canceled && p'.queues[q].(canceled := p.queues[q].canceled) == p.queues[q]
    && (forall j :: 0 <= j < |p.queues| && j != q ==> p'.queues[j] == p.queues[j])
  }

  /** The lowest checker has the smallest value and, among those, started first. */
  lemma WorstIsLowest(running: seq<Running>, k: nat, j: nat)
    requires IsWorst(running, k) && j < |running|
    ensures running[k].value <= running[j].value
    ensures running[k].value == running[j].value ==> running[k].start <= running[j].start
    ensures j < k && running[k].value == running[j].value ==> running[k].start < running[j].start
  {
    assert !Below(running[j], running[k]);
    assert j < k ==> Below(running[k], running[j]);
  }

  lemma WorstUnique(running: seq<Running>, j: nat, k: nat)
    requires IsWorst(running, j) && IsWorst(running, k)
    ensures j == k
  {
    assert !Below(running[j], running[k]) && !Below(running[k], running[j]);
  }

  /** A request stops the lowest checker if it outranks it, and otherwise nobody. */
  lemma RequestExact(p: Pool, value: int, p': Pool)
    requires Inv(p) && Next(p, Request(value), p')
    ensures forall k: nat :: Outranked(p, value, k) ==> Stopped(p, p', k)
    ensures (forall k: nat :: !Outranked(p, value, k)) ==> p' == p
  {
    if p.idle == [] {
      var worst: nat :| IsWorst(p.running, worst) && p.running[worst].queue < |p.queues|
          && p' == Preempt(p, value, worst);
      forall k: nat | Outranked(p, value, k)
        ensures Stopped(p, p', k)
      {
        WorstUnique(p.running, k, worst);
      }
      assert p.running[worst].value < value ==> Outranked(p, value, worst);
    }
  }

  // ---------------------------------------------------------------- whole runs

  function Fresh(poolSize: nat, batchSize: nat, workers: nat): Pool {
    Pool(seq(poolSize, _ => Q.Fresh(batchSize, workers)), seq(poolSize, i => i), [])
  }

  lemma {:induction false} CountUp(n: nat, q: nat)
    ensures multiset(seq(n, i => i))[q] == if q < n then 1 else 0
  {
    if n > 0 {
      CountUp(n - 1, q);
      assert seq(n, i => i) == seq(n - 1, i => i) + [n - 1];
    }
  }

  lemma FreshInv(poolSize: nat, batchSize: nat, workers: nat)
    requires poolSize > 0
    ensures Inv(Fresh(poolSize, batchSize, workers))
  {
    Q.FreshInv(batchSize, workers);
    var p := Fresh(poolSize, batchSize, workers);
    forall q: nat
      ensures Places(p, q) == if q < |p.queues| then 1 else 0
    {
      CountUp(poolSize, q);
      assert Lent(p.running) == [];
    }
  }

  ghost predicate IsRun(states: seq<Pool>, labels: seq<Label>) {
    && |states| == |labels| + 1
    && (exists n: nat, batchSize: nat, workers: nat :: n > 0 && states[0] == Fresh(n, batchSize, workers))
    && (forall k :: 0 <= k < |labels| ==> Next(states[k], labels[k], states[k + 1]))
  }

  /** Over every run of the pool the registration stays exact and every queue keeps its own invariant. */
  lemma {:induction false} RunSafe(states: seq<Pool>, labels: seq<Label>, k: nat)
    requires IsRun(states, labels) && k < |states|
    ensures Inv(states[k])
  {
    if k == 0 {
      var n: nat, batchSize: nat, workers: nat :| n > 0 && states[0] == Fresh(n, batchSize, workers);
      FreshInv(n, batchSize, workers);
    } else {
      RunSafe(states, labels, k - 1);
      assert Next(states[k - 1], labels[k - 1], states[k - 1 + 1]);
      StepKeepsInv(states[k - 1], labels[k - 1], states[k]);
    }
  }

  // ---------------------------------------------------------------- the queues in a run of the pool

  /** What a step of the pool is to queue `q`: a step of its own, or nothing. */
  ghost function QueueLabel(p: Pool, l: Label, q: nat): Option<Q.Label> {
    match l
    case Request(value) =>
      if exists k: nat :: Outranked(p, value, k) && p.running[k].queue == q then Some(Q.Cancel) else None
    case Acquire(_, _, c) => if p.idle != [] && p.idle[0] == q then Some(Q.StartSession(c)) else None
    case Inner(q', ql) => if q' == q then Some(ql) else None
    case Return(_) => None
  }

  lemma QueueMoves(p: Pool, l: Label, p': Pool, q: nat)
    requires Inv(p) && Next(p, l, p') && q < |p.queues|
    ensures |p'.queues| == |p.queues|
    ensures QueueLabel(p, l, q).None? ==> p'.queues[q] == p.queues[q]
    ensures QueueLabel(p, l, q).Some? ==>
              var ql := QueueLabel(p, l, q).value;
              Q.Enabled(p.queues[q], ql) && Q.Inv(p.queues[q]) && p'.queues[q] == Q.Step(p.queues[q], ql)
  {
    match l
    case Request(value) => RequestMoves(p, value, p', q);
    case Acquire(value, now, c) =>
      var q0 := p.idle[0];
      LentOrIdle(p, q0);
      AtRestIsIdle(p.queues[q0]);
    case Inner(q', ql) =>
    case Return(_) =>
  }

  lemma RequestMoves(p: Pool, value: int, p': Pool, q: nat)
    requires Inv(p) && Next(p, Request(value), p') && q < |p.queues|
    ensures |p'.queues| == |p.queues|
    ensures p'.queues[q]
            == if QueueLabel(p, Request(value), q).Some? then Q.Step(p.queues[q], Q.Cancel) else p.queues[q]
  {
    RequestExact(p, value, p');
    if k: nat :| Outranked(p, value, k) {
      assert Stopped(p, p', k);
      forall j: nat | Outranked(p, value, j)
        ensures j == k
      {
        WorstUnique(p.running, j, k);
      }
    }
  }

  /** The labels of queue `q` in the first `k` steps of the pool. */
  ghost function QueueLabels(states: seq<Pool>, labels: seq<Label>, q: nat, k: nat): seq<Q.Label>
    requires k <= |labels| < |states|
  {
    if k == 0 then []
    else
      QueueLabels(states, labels, q, k - 1) + Maybe(QueueLabel(states[k - 1], labels[k - 1], q))
  }

  lemma RunExtended(qs: seq<Q.State>, ls: seq<Q.Label>, l: Q.Label, s: Q.State)
    requires Q.IsRun(qs, ls) && Q.Inv(qs[|ls|]) && Q.Enabled(qs[|ls|], l) && s == Q.Step(qs[|ls|], l)
    ensures Q.IsRun(qs + [s], ls + [l])
  {
    var qs', ls' := qs + [s], ls + [l];
    var batchSize, workers: nat :| qs[0] == Q.Fresh(batchSize, workers);
    assert qs'[0] == Q.Fresh(batchSize, workers);
    forall k | 0 <= k < |ls'|
      ensures Q.Next(qs'[k], ls'[k], qs'[k + 1])
    {
      if k < |ls| {
        assert Q.Next(qs[k], ls[k], qs[k + 1]);
      }
    }
  }

  /** In every run of the pool each queue goes through a run of its own, so what holds of those holds here. */
  lemma {:induction false} QueueRun(states: seq<Pool>, labels: seq<Label>, q: nat, k: nat) returns (qs: seq<Q.State>)
    requires IsRun(states, labels) && k < |states| && q < |states[0].queues|
    ensures |states[k].queues| == |states[0].queues|
    ensures Q.IsRun(qs, QueueLabels(states, labels, q, k)) && qs[|qs| - 1] == states[k].queues[q]
    decreases k
  {
    if k == 0 {
      var n: nat, batchSize: nat, workers: nat :| n > 0 && states[0] == Fresh(n, batchSize, workers);
      qs := [states[0].queues[q]];
      assert qs[0] == Q.Fresh(batchSize, workers);
    } else {
      qs := QueueRun(states, labels, q, k - 1);
      var ls, p, p' := QueueLabels(states, labels, q, k - 1), states[k - 1], states[k];
      RunSafe(states, labels, k - 1);
      assert Next(p, labels[k - 1], states[k - 1 + 1]);
      qs := OneMoreStep(qs, ls, p, labels[k - 1], p', q);
    }
  }

  ghost function Maybe(ql: Option<Q.Label>): seq<Q.Label> {
    if ql.Some? then [ql.value] else []
  }

  lemma OneMoreStep(qs: seq<Q.State>, ls: seq<Q.Label>, p: Pool, l: Label, p': Pool, q: nat) returns (qs': seq<Q.State>)
    requires Inv(p) && Next(p, l, p') && q < |p.queues| && Q.IsRun(qs, ls) && qs[|qs| - 1] == p.queues[q]
    ensures |p'.queues| == |p.queues|
    ensures Q.IsRun(qs', ls + Maybe(QueueLabel(p, l, q))) && qs'[|qs'| - 1] == p'.queues[q]
  {
    QueueMoves(p, l, p', q);
    var ql := QueueLabel(p, l, q);
    if ql.Some? {
      RunExtended(qs, ls, ql.value, p'.queues[q]);
      qs' := qs + [p'.queues[q]];
    } else {
      qs' := qs;
      assert ls + Maybe(ql) == ls;
    }
  }

  /** So every answer given in the pool is the right one for what happened to its queue. */
  lemma PoolAnswers(states: seq<Pool>, labels: seq<Label>, q: nat, k: nat)
    returns (qs: seq<Q.State>, from: nat, ret: nat, leave: nat)
    requires IsRun(states, labels) && k < |states| && q < |states[0].queues|
    requires |states[k].queues| == |states[0].queues| ==> states[k].queues[q].answer.Some?
    ensures |states[k].queues| == |states[0].queues|
    ensures var ls := QueueLabels(states, labels, q, k);
            && Q.IsRun(qs, ls) && qs[|ls|] == states[k].queues[q] && Runs.LeftAt(ls, leave, |ls|)
            && Runs.ReturnedAt(ls, ret, leave) && from < ret && Runs.SessionFrom(ls, from, |ls|)
            && Runs.SessionFrom(ls, from, ret) && states[k].queues[q].answer.Some?
            && Runs.RightAnswer(states[k].queues[q].answer.value, Runs.CanceledBy(ls, from, ret),
                                Runs.AddedIn(ls, from, ret), Runs.CameOut(qs, ls, from, ret, Some(true)),
                                Runs.CameOut(qs, ls, from, ret, Some(false)), Runs.CameOut(qs, ls, from, ret, None))
  {
    qs := QueueRun(states, labels, q, k);
    var ls := QueueLabels(states, labels, q, k);
    from, ret, leave := Runs.AnswerHasRun(qs, ls, |ls|);
    Runs.RunVerdict(qs, ls, from, ret, leave, |ls|);
  }

  /** The session is canceled and no other answer than the empty one has been given or is on its way. */
  predicate Doomed(s: Q.State) {
    && s.canceled && (s.answer.Some? ==> s.answer == Some(None))
    && |s.threads| > 0 && (s.threads[0].Leaving? ==> s.threads[0].verdict == None)
  }

  lemma DoomedStays(s: Q.State, l: Q.Label)
    requires Q.Inv(s) && Q.Enabled(s, l) && Doomed(s) && !l.StartSession?
    ensures Doomed(Q.Step(s, l))
  {
    match l
    case Finish(i) => assert Q.FinishStep(s, i).threads[0].Leaving? ==> s.threads[0].Leaving?;
    case Settle(i) => assert i != 0 ==> Q.SettleStep(s, i).threads[0] == s.threads[0];
    case _ =>
  }

  /**
   A checker that is stopped while its `Wait` has not returned gets the empty answer, whatever its checks say: until its
   queue is returned no other answer is given, and the queue is not returned without one.
   */
  lemma {:induction false} PreemptedAnswersEmpty(states: seq<Pool>, labels: seq<Label>, r: nat, k: nat, m: nat)
    requires IsRun(states, labels) && r < m < |states| && labels[r].Request? && Outranked(states[r], labels[r].value, k)
    requires var q := states[r].running[k].queue;
             && q < |states[r].queues| && states[r].queues[q].answer.None?
             && |states[r].queues[q].threads| > 0 && !states[r].queues[q].threads[0].Leaving?
             && (forall j :: r < j < m ==> labels[j] != Return(q))
    ensures var q := states[r].running[k].queue;
            && q < |states[m].queues| && q in Lent(states[m].running) && Doomed(states[m].queues[q])
            && (Enabled(states[m], Return(q)) ==> states[m].queues[q].answer == Some(None))
    decreases m
  {
    var q := states[r].running[k].queue;
    RunSafe(states, labels, m - 1);
    assert Next(states[m - 1], labels[m - 1], states[m - 1 + 1]);
    if m - 1 == r {
      RequestExact(states[r], labels[r].value, states[m]);
      assert Stopped(states[r], states[m], k);
      assert Lent(states[m].running)[k] == q;
    } else {
      PreemptedAnswersEmpty(states, labels, r, k, m - 1);
      LentOrIdle(states[m - 1], q);
      QueueMoves(states[m - 1], labels[m - 1], states[m], q);
      var ql := QueueLabel(states[m - 1], labels[m - 1], q);
      if ql.Some? {
        DoomedStays(states[m - 1].queues[q], ql.value);
      }
      StillLent(states[m - 1], labels[m - 1], states[m], q);
    }
  }

  lemma LentAfterRequest(p: Pool, value: int, p': Pool)
    requires Inv(p) && Next(p, Request(value), p')
    ensures Lent(p'.running) == Lent(p.running)
  {
    RequestExact(p, value, p');
    if w: nat :| Outranked(p, value, w) {
      assert Stopped(p, p', w);
    }
  }

  lemma LentAfterAcquire(p: Pool, value: int, now: int, c: bool, p': Pool)
    requires Inv(p) && Next(p, Acquire(value, now, c), p')
    ensures Lent(p'.running) == Lent(p.running) + [p.idle[0]]
  {
    LentOrIdle(p, p.idle[0]);
    AtRestIsIdle(p.queues[p.idle[0]]);
  }

  lemma LentAfterReturn(p: Pool, q': nat, p': Pool, q: nat)
    requires Inv(p) && Next(p, Return(q'), p') && q in Lent(p.running) && q != q'
    ensures q in Lent(p'.running)
  {
    var k :| 0 <= k < |p.running| && p.running[k].queue == q;
    var j :| 0 <= j < |p.running| && p.running[j].queue == q' && p'.running == p.running[..j] + p.running[j + 1..];
    assert Lent(p'.running)[if k < j then k else k - 1] == q;
  }

  lemma StillLent(p: Pool, l: Label, p': Pool, q: nat)
    requires Inv(p) && Next(p, l, p') && q in Lent(p.running) && l != Return(q)
    ensures q in Lent(p'.running)
  {
    match l
    case Request(value) => LentAfterRequest(p, value, p');
    case Acquire(value, now, c) => LentAfterAcquire(p, value, now, c, p');
    case Inner(_, _) =>
    case Return(q') => LentAfterReturn(p, q', p', q);
  }

  // ---------------------------------------------------------------- the object itself

  function Removed(running: seq<Running>, k: nat): seq<Running>
    requires k < |running|
  {
    running[..k] + running[k + 1..]
  }

  /** `CCheckQueuePool`; the three `assert`s of the source are asserted here and proved. */
  class CheckerPool {
    var mScriptCheckQueue: seq<Q.State>
    var mIdleQueues: seq<nat>
    var mRunningCheckers: seq<Running>

    ghost function Snapshot(): Pool
      reads this
    {
      Pool(mScriptCheckQueue, mIdleQueues, mRunningCheckers)
    }

    constructor (poolSize: nat, threadCount: nat, batchSize: nat)
      requires poolSize > 0 && batchSize > 0
      ensures Snapshot() == Fresh(poolSize, batchSize, threadCount) && Inv(Snapshot())
    {
      mScriptCheckQueue := seq(poolSize, _ => Q.Fresh(batchSize, threadCount));
      mIdleQueues := seq(poolSize, i => i);
      mRunningCheckers := [];
      new;
      FreshInv(poolSize, batchSize, threadCount);
    }

    /** GetChecker up to the wait: make room by canceling a checker of lower value. */
    method MakeRoom(value: int)
      requires Inv(Snapshot())
      modifies this
      ensures Next(old(Snapshot()), Request(value), Snapshot()) && Inv(Snapshot())
      ensures forall k: nat :: Outranked(old(Snapshot()), value, k) ==> Stopped(old(Snapshot()), Snapshot(), k)
      ensures (forall k: nat :: !Outranked(old(Snapshot()), value, k)) ==> Snapshot() == old(Snapshot())
    {
      ghost var p := Snapshot();
      if mIdleQueues == [] {
        SomebodyRuns(p);
        assert mRunningCheckers != [];
        var worst := FindWorst(mRunningCheckers);
        var r := mRunningCheckers[worst];
        assert Lent(mRunningCheckers)[worst] == r.queue;
        LentOrIdle(p, r.queue);
        if r.value < value {
          mRunningCheckers := mRunningCheckers[worst := r.(premature := true)];
          mScriptCheckQueue := mScriptCheckQueue[r.queue := mScriptCheckQueue[r.queue].(canceled := true)];
        }
        assert Snapshot() == Preempt(p, value, worst);
      }
      RequestKeepsInv(p, Snapshot(), value);
      RequestExact(p, value, Snapshot());
    }

    /** GetChecker after the wait: lend the front queue; opening its session cannot throw. */
    method Lend(value: int, now: int, alreadyCanceled: bool) returns (q: nat)
      requires Inv(Snapshot()) && Enabled(Snapshot(), Acquire(value, now, alreadyCanceled))
      modifies this
      ensures q == old(mIdleQueues[0]) && q in Lent(mRunningCheckers) && q < |mScriptCheckQueue|
      ensures Next(old(Snapshot()), Acquire(value, now, alreadyCanceled), Snapshot()) && Inv(Snapshot())
      ensures old(q < |mScriptCheckQueue| && Q.Enabled(mScriptCheckQueue[q], Q.StartSession(alreadyCanceled)))
      ensures mIdleQueues == old(mIdleQueues)[1..]
      ensures mRunningCheckers == old(mRunningCheckers) + [Running(value, now, q, false)]
      ensures mScriptCheckQueue[q].session && !mScriptCheckQueue[q].waitCalled
      ensures mScriptCheckQueue[q].canceled == alreadyCanceled && mScriptCheckQueue[q].allOk == Some(true)
      ensures mScriptCheckQueue == old(mScriptCheckQueue)[q := mScriptCheckQueue[q]]
    {
      ghost var p := Snapshot();
      q := mIdleQueues[0];
      LentOrIdle(p, q);
      AtRestIsIdle(mScriptCheckQueue[q]);
      mRunningCheckers := mRunningCheckers + [Running(value, now, q, false)];
      mIdleQueues := mIdleQueues[1..];
      mScriptCheckQueue := mScriptCheckQueue[q := Q.Step(mScriptCheckQueue[q], Q.StartSession(alreadyCanceled))];
      AcquireKeepsInv(p, Snapshot(), value, now, alreadyCanceled);
      assert Lent(mRunningCheckers)[|mRunningCheckers| - 1] == q;
    }

    method ReturnQueueToPool(q: nat)
      requires Inv(Snapshot()) && Enabled(Snapshot(), Return(q))
      modifies this
      ensures Next(old(Snapshot()), Return(q), Snapshot()) && Inv(Snapshot())
      ensures mIdleQueues == old(mIdleQueues) + [q] && mScriptCheckQueue == old(mScriptCheckQueue)
      ensures q !in Lent(mRunningCheckers)
      ensures exists k :: 0 <= k < |old(mRunningCheckers)| && mRunningCheckers == Removed(old(mRunningCheckers), k)
    {
      ghost var p := Snapshot();
      AtRestIsIdle(mScriptCheckQueue[q]);
      assert Q.IsIdle(mScriptCheckQueue[q]);
      mIdleQueues := mIdleQueues + [q];
      var k := 0;
      while k < |mRunningCheckers| && mRunningCheckers[k].queue != q
        invariant 0 <= k <= |mRunningCheckers|
        invariant forall j :: 0 <= j < k ==> mRunningCheckers[j].queue != q
      {
        k := k + 1;
      }
      assert k < |mRunningCheckers|;
      assert mRunningCheckers == old(mRunningCheckers);
      mRunningCheckers := Removed(mRunningCheckers, k);
      ReturnKeepsInv(p, Snapshot(), q);
      LentOrIdle(Snapshot(), q);
    }
  }
}
