/**
 The mempool transaction database behind its coalescing batch. Adds and removes of the same transaction cancel in
 memory; what reaches the disk at each synchronisation is what executing the tasks one at a time would have left.

 A transaction stands for its id and size. Counters are 64-bit and wrap.
 */
module MempoolBatch {
  import opened Common

  datatype TxId = TxId(hash: int)

  const WRAP: int := 0x1_0000_0000_0000_0000

  /** The database on disk and the counters kept in memory beside it. */
  datatype Db = Db(txs: map<TxId, nat>, txCount: int, diskUsage: int, storedCount: int, storedUsage: int,
      xref: Option<int>)

  datatype Batch = Batch(adds: map<TxId, nat>, removes: map<TxId, nat>)

  const EMPTY: Batch := Batch(map[], map[])

  // ---------------------------------------------------------------- sums

  ghost function Total(m: map<TxId, nat>): nat
    decreases |m|
  {
    if forall t :: t !in m then 0
    else
      var t :| t in m;
      m[t] + Total(m - {t})
  }

  lemma {:induction false} TotalWithout(m: map<TxId, nat>, t: TxId)
    requires t in m
    ensures Total(m) == m[t] + Total(m - {t})
    decreases |m|
  {
    var u :| u in m && Total(m) == m[u] + Total(m - {u});
    if u != t {
      TotalWithout(m - {u}, t);
      TotalWithout(m - {t}, u);
      assert m - {u} - {t} == m - {t} - {u};
    }
  }

  lemma TotalPut(m: map<TxId, nat>, t: TxId, n: nat)
    requires t !in m
    ensures Total(m[t := n]) == Total(m) + n && |m[t := n]| == |m| + 1
  {
    TotalWithout(m[t := n], t);
    assert m[t := n] - {t} == m;
  }

  // ---------------------------------------------------------------- the batch

  /** Batch::Add. */
  function Added(b: Batch, t: TxId, size: nat): Batch {
    if t in b.removes then b.(removes := b.removes - {t})
    else if t in b.adds then b
    else b.(adds := b.adds[t := size])
  }

  /** Batch::Remove. */
  function Removed(b: Batch, t: TxId, size: nat): Batch {
    if t in b.adds then b.(adds := b.adds - {t})
    else if t in b.removes then b
    else b.(removes := b.removes[t := size])
  }

  /** What the database will hold once the batch is committed. */
  function Pending(txs: map<TxId, nat>, b: Batch): map<TxId, nat> {
    (txs - b.removes.Keys) + b.adds
  }

  /** A batch holds only what changes the database. */
  predicate Consistent(txs: map<TxId, nat>, b: Batch) {
    && (forall t :: t in b.adds ==> t !in txs && t !in b.removes)
    && (forall t :: t in b.removes ==> t in txs && b.removes[t] == txs[t])
  }

  /** An id names one transaction, so its size is always the same. */
  predicate Sized(txs: map<TxId, nat>, b: Batch, sizeOf: TxId -> nat) {
    && (forall t :: t in txs ==> txs[t] == sizeOf(t))
    && (forall t :: t in b.adds ==> b.adds[t] == sizeOf(t))
  }

  /** What Add assumes of its callers: not yet there, unless the batch itself still holds it. */
  predicate MayAdd(txs: map<TxId, nat>, b: Batch, t: TxId) {
    t !in Pending(txs, b) || t in b.adds
  }

  predicate MayRemove(txs: map<TxId, nat>, b: Batch, t: TxId) {
    t in Pending(txs, b) || t in b.removes
  }

  lemma AddConsistent(txs: map<TxId, nat>, b: Batch, t: TxId, sizeOf: TxId -> nat)
    requires Consistent(txs, b) && Sized(txs, b, sizeOf) && MayAdd(txs, b, t)
    ensures Consistent(txs, Added(b, t, sizeOf(t))) && Sized(txs, Added(b, t, sizeOf(t)), sizeOf)
  {
  }

  /** Adding through the batch is adding to the pending database. */
  lemma AddRefines(txs: map<TxId, nat>, b: Batch, t: TxId, sizeOf: TxId -> nat)
    requires Consistent(txs, b) && Sized(txs, b, sizeOf) && MayAdd(txs, b, t)
    ensures Pending(txs, Added(b, t, sizeOf(t))) == Pending(txs, b)[t := sizeOf(t)]
  {
    var p, p' := Pending(txs, b), Pending(txs, Added(b, t, sizeOf(t)));
    forall u
      ensures u in p' <==> u in p || u == t
      ensures u in p' ==> p'[u] == if u == t then sizeOf(t) else p[u]
    {
    }
  }

  lemma RemoveConsistent(txs: map<TxId, nat>, b: Batch, t: TxId, sizeOf: TxId -> nat)
    requires Consistent(txs, b) && Sized(txs, b, sizeOf) && MayRemove(txs, b, t)
    ensures Consistent(txs, Removed(b, t, sizeOf(t))) && Sized(txs, Removed(b, t, sizeOf(t)), sizeOf)
  {
  }

  lemma RemoveRefines(txs: map<TxId, nat>, b: Batch, t: TxId, sizeOf: TxId -> nat)
    requires Consistent(txs, b) && Sized(txs, b, sizeOf) && MayRemove(txs, b, t)
    ensures Pending(txs, Removed(b, t, sizeOf(t))) == Pending(txs, b) - {t}
  {
    var p, p' := Pending(txs, b), Pending(txs, Removed(b, t, sizeOf(t)));
    forall u
      ensures u in p' <==> u in p && u != t
      ensures u in p' ==> p'[u] == p[u]
    {
    }
  }

  // ---------------------------------------------------------------- committing

  /** The differences, which wrap where more is removed than added. */
  ghost function CountDiff(b: Batch): int {
    Wrap(|b.adds| - |b.removes|)
  }

  ghost function UsageDiff(b: Batch): int {
    Wrap(Total(b.adds) - Total(b.removes))
  }

  ghost predicate TotalsOk(txs: map<TxId, nat>, b: Batch) {
    && |Pending(txs, b)| == |txs| + |b.adds| - |b.removes|
    && Total(Pending(txs, b)) == Total(txs) + Total(b.adds) - Total(b.removes)
  }

  lemma OneMoreAdd(txs: map<TxId, nat>, b: Batch, t: TxId)
    requires Consistent(txs, b) && t in b.adds && TotalsOk(txs, b.(adds := b.adds - {t}))
    ensures TotalsOk(txs, b)
  {
    AddTotals(txs, b, t);
  }

  lemma OneMoreRemove(txs: map<TxId, nat>, b: Batch, t: TxId)
    requires Consistent(txs, b) && t in b.removes && TotalsOk(txs, b.(removes := b.removes - {t}))
    ensures TotalsOk(txs, b)
  {
    RemoveTotals(txs, b, t);
  }

  lemma NothingTotals(txs: map<TxId, nat>, b: Batch)
    requires (forall t :: t !in b.adds) && forall t :: t !in b.removes
    ensures TotalsOk(txs, b)
  {
    NoneTotal(b.adds);
    NoneTotal(b.removes);
    assert Pending(txs, b) == txs;
  }

  lemma Fewer(m: map<TxId, nat>, t: TxId)
    requires t in m
    ensures |m - {t}| < |m|
  {
    Without(m, t);
  }

  /** Number and size of what is pending differ from the database by what the batch adds and removes. */
  lemma {:induction false} PendingTotals(txs: map<TxId, nat>, b: Batch)
    requires Consistent(txs, b)
    ensures TotalsOk(txs, b)
    decreases |b.adds| + |b.removes|
  {
    if t :| t in b.adds {
      Fewer(b.adds, t);
      PendingTotals(txs, b.(adds := b.adds - {t}));
      OneMoreAdd(txs, b, t);
    } else if t :| t in b.removes {
      Fewer(b.removes, t);
      PendingTotals(txs, b.(removes := b.removes - {t}));
      OneMoreRemove(txs, b, t);
    } else {
      NothingTotals(txs, b);
    }
  }

  lemma NoneTotal(m: map<TxId, nat>)
    requires forall t :: t !in m
    ensures Total(m) == 0 && |m| == 0
  {
    if m != map[] {
      assert false;
    }
  }

  lemma Without(m: map<TxId, nat>, t: TxId)
    requires t in m
    ensures Total(m) == Total(m - {t}) + m[t] && |m| == |m - {t}| + 1
  {
    TotalPut(m - {t}, t, m[t]);
    assert (m - {t})[t := m[t]] == m;
  }

  lemma PendingAdd(txs: map<TxId, nat>, b: Batch, t: TxId)
    requires Consistent(txs, b) && t in b.adds
    ensures var p := Pending(txs, b.(adds := b.adds - {t})); t !in p && Pending(txs, b) == p[t := b.adds[t]]
  {
  }

  lemma PendingRemove(txs: map<TxId, nat>, b: Batch, t: TxId)
    requires Consistent(txs, b) && t in b.removes
    ensures var p := Pending(txs, b); t !in p && Pending(txs, b.(removes := b.removes - {t})) == p[t := b.removes[t]]
  {
  }

  lemma AddTotals(txs: map<TxId, nat>, b: Batch, t: TxId)
    requires Consistent(txs, b) && t in b.adds
    ensures var b' := b.(adds := b.adds - {t});
            && |b.adds| == |b'.adds| + 1 && Total(b.adds) == Total(b'.adds) + b.adds[t]
            && |Pending(txs, b)| == |Pending(txs, b')| + 1
               && Total(Pending(txs, b)) == Total(Pending(txs, b')) + b.adds[t]
  {
    Without(b.adds, t);
    PendingAdd(txs, b, t);
    TotalPut(Pending(txs, b.(adds := b.adds - {t})), t, b.adds[t]);
  }

  lemma RemoveTotals(txs: map<TxId, nat>, b: Batch, t: TxId)
    requires Consistent(txs, b) && t in b.removes
    ensures var b' := b.(removes := b.removes - {t});
            && |b.removes| == |b'.removes| + 1 && Total(b.removes) == Total(b'.removes) + b.removes[t]
            && |Pending(txs, b')| == |Pending(txs, b)| + 1
               && Total(Pending(txs, b')) == Total(Pending(txs, b)) + b.removes[t]
  {
    Without(b.removes, t);
    PendingRemove(txs, b, t);
    TotalPut(Pending(txs, b), t, b.removes[t]);
  }

  /** The counters that go with a set of transactions, as 64-bit numbers. */
  ghost predicate Counted(db: Db) {
    && db.txCount == Wrap(|db.txs|) && db.diskUsage == Wrap(Total(db.txs))
    && db.storedCount == db.txCount && db.storedUsage == db.diskUsage
  }

  /** A 64-bit counter after going round. */
  function Wrap(x: int): (w: int)
    ensures 0 <= w < WRAP
    decreases if x < 0 then 1 else 0, if x < 0 then -x else x
  {
    if x < 0 then Wrap(x + WRAP) else if x >= WRAP then Wrap(x - WRAP) else x
  }

  lemma {:induction false} WrapIsMod(x: int)
    ensures Wrap(x) == x % WRAP
    decreases if x < 0 then 1 else 0, if x < 0 then -x else x
  {
    if x < 0 {
      WrapIsMod(x + WRAP);
    } else if x >= WRAP {
      WrapIsMod(x - WRAP);
    }
  }

  lemma WrapSum(x: int, d: int, wx: int, wd: int, sum: int)
    requires wx == Wrap(x) && wd == Wrap(d) && sum == x + d
    ensures Wrap(wx + wd) == Wrap(sum)
  {
    WrapIsMod(x);
    WrapIsMod(d);
    WrapIsMod(wx + wd);
    WrapIsMod(sum);
  }

  lemma WrapBack(x: int, d: int)
    requires 0 <= x < WRAP
    ensures Wrap(Wrap(x + d) - d) == x
  {
    WrapIsMod(x + d);
    WrapIsMod(Wrap(x + d) - d);
  }

  /** The counters after fetch_add. */
  ghost function NewCount(db: Db, b: Batch): int {
    Wrap(db.txCount + CountDiff(b))
  }

  ghost function NewUsage(db: Db, b: Batch): int {
    Wrap(db.diskUsage + UsageDiff(b))
  }

  ghost predicate NothingToDo(b: Batch) {
    |b.adds| == 0 && |b.removes| == 0
  }

  /** CMempoolTxDB::Commit where the write succeeds, */
  ghost function Committed(db: Db, b: Batch): Db {
    if NothingToDo(b) then db
    else Db(Pending(db.txs, b), NewCount(db, b), NewUsage(db, b), NewCount(db, b), NewUsage(db, b), None)
  }

  /** and where it fails. */
  ghost function NotCommitted(db: Db, b: Batch): Db {
    if NothingToDo(b) then db
    else db.(txCount := Wrap(NewCount(db, b) - CountDiff(b)), diskUsage := Wrap(NewUsage(db, b) - UsageDiff(b)))
  }

  /** A commit leaves what was pending, and counters that are right although the differences wrap. */
  lemma CommitExact(db: Db, b: Batch)
    requires Consistent(db.txs, b) && Counted(db)
    ensures var db' := Committed(db, b); db'.txs == Pending(db.txs, b) && Counted(db')
  {
    if NothingToDo(b) {
      EmptyBatch(db.txs, b);
    } else {
      var txs := Pending(db.txs, b);
      PendingTotals(db.txs, b);
      CountAfter(db, b, |db.txs|, |b.adds| - |b.removes|, |txs|);
      UsageAfter(db, b, Total(db.txs), Total(b.adds) - Total(b.removes), Total(txs));
    }
  }

  /** A count that is off by one stays off by one when it wraps. */
  lemma WrapNext(x: int)
    ensures Wrap(x + 1) != Wrap(x)
  {
    WrapIsMod(x);
    WrapIsMod(x + 1);
    var q := x / WRAP;
    assert x == q * WRAP + x % WRAP && x + 1 == (x + 1) / WRAP * WRAP + (x + 1) % WRAP;
  }

  /** A commit whose count is not the number of transactions. */
  lemma Miscounts(db: Db, b: Batch, x: int, n: int)
    requires db.txCount == Wrap(x) && n == x + |b.adds| - |b.removes| && !NothingToDo(b)
    requires Wrap(n) != Wrap(|Pending(db.txs, b)|)
    ensures !Counted(Committed(db, b))
  {
    CountAfter(db, b, x, |b.adds| - |b.removes|, n);
  }

  lemma SameKeys(m: map<TxId, nat>, m': map<TxId, nat>)
    requires forall t :: t in m <==> t in m'
    ensures |m| == |m'|
  {
    assert m.Keys == m'.Keys;
  }

  lemma DoubleAddKeys(txs: map<TxId, nat>, b: Batch, t: TxId, size: nat, u: TxId)
    requires !MayAdd(txs, b, t)
    ensures Added(b, t, size) == b.(adds := b.adds[t := size]) && t !in b.adds
    ensures u in Pending(txs, Added(b, t, size)) <==> u in Pending(txs, b)
  {
  }

  lemma DoubleAddSizes(txs: map<TxId, nat>, b: Batch, t: TxId, size: nat, b': Batch)
    requires !MayAdd(txs, b, t) && b' == Added(b, t, size)
    ensures |b'.adds| == |b.adds| + 1 && |b'.removes| == |b.removes| && |Pending(txs, b')| == |Pending(txs, b)|
    ensures !NothingToDo(b')
  {
    DoubleAddKeys(txs, b, t, size, t);
    TotalPut(b.adds, t, size);
    var p, p' := Pending(txs, b), Pending(txs, b');
    forall u
      ensures u in p <==> u in p'
    {
      DoubleAddKeys(txs, b, t, size, u);
    }
    SameKeys(p, p');
  }

  lemma EmptyRemoveKeys(txs: map<TxId, nat>, b: Batch, t: TxId, size: nat, u: TxId)
    requires !MayRemove(txs, b, t)
    ensures Removed(b, t, size) == b.(removes := b.removes[t := size]) && t !in b.removes
    ensures u in Pending(txs, Removed(b, t, size)) <==> u in Pending(txs, b)
  {
  }

  lemma EmptyRemoveSizes(txs: map<TxId, nat>, b: Batch, t: TxId, size: nat, b': Batch)
    requires !MayRemove(txs, b, t) && b' == Removed(b, t, size)
    ensures |b'.removes| == |b.removes| + 1 && |b'.adds| == |b.adds| && |Pending(txs, b')| == |Pending(txs, b)|
    ensures !NothingToDo(b')
  {
    EmptyRemoveKeys(txs, b, t, size, t);
    TotalPut(b.removes, t, size);
    var p, p' := Pending(txs, b), Pending(txs, b');
    forall u
      ensures u in p <==> u in p'
    {
      EmptyRemoveKeys(txs, b, t, size, u);
    }
    SameKeys(p, p');
  }

  /** Adding what is already on disk would count it twice, */
  lemma DoubleAdd(db: Db, b: Batch, t: TxId, size: nat, b': Batch)
    requires Consistent(db.txs, b) && Counted(db) && !MayAdd(db.txs, b, t) && b' == Added(b, t, size)
    ensures !Counted(Committed(db, b'))
  {
    PendingTotals(db.txs, b);
    var n := |Pending(db.txs, b)|;
    DoubleAddSizes(db.txs, b, t, size, b');
    WrapNext(n);
    Miscounts(db, b', |db.txs|, n + 1);
  }

  /** and removing what is not there would take it off the count. */
  lemma EmptyRemove(db: Db, b: Batch, t: TxId, size: nat, b': Batch)
    requires Consistent(db.txs, b) && Counted(db) && !MayRemove(db.txs, b, t) && b' == Removed(b, t, size)
    ensures !Counted(Committed(db, b'))
  {
    PendingTotals(db.txs, b);
    var n := |Pending(db.txs, b)|;
    EmptyRemoveSizes(db.txs, b, t, size, b');
    WrapNext(n - 1);
    Miscounts(db, b', |db.txs|, n - 1);
  }

  /** What the callers promise is exactly what the counters need to be right after the next commit. */
  lemma PromisesNeeded(db: Db, b: Batch, t: TxId, sizeOf: TxId -> nat)
    requires Consistent(db.txs, b) && Sized(db.txs, b, sizeOf) && Counted(db)
    ensures Counted(Committed(db, Added(b, t, sizeOf(t)))) <==> MayAdd(db.txs, b, t)
    ensures Counted(Committed(db, Removed(b, t, sizeOf(t)))) <==> MayRemove(db.txs, b, t)
  {
    if MayAdd(db.txs, b, t) {
      AddConsistent(db.txs, b, t, sizeOf);
      CommitExact(db, Added(b, t, sizeOf(t)));
    } else {
      DoubleAdd(db, b, t, sizeOf(t), Added(b, t, sizeOf(t)));
    }
    if MayRemove(db.txs, b, t) {
      RemoveConsistent(db.txs, b, t, sizeOf);
      CommitExact(db, Removed(b, t, sizeOf(t)));
    } else {
      EmptyRemove(db, b, t, sizeOf(t), Removed(b, t, sizeOf(t)));
    }
  }

  lemma CountAfter(db: Db, b: Batch, x: int, d: int, sum: int)
    requires db.txCount == Wrap(x) && d == |b.adds| - |b.removes| && sum == x + d
    ensures NewCount(db, b) == Wrap(sum)
  {
    WrapSum(x, d, db.txCount, CountDiff(b), sum);
  }

  lemma UsageAfter(db: Db, b: Batch, x: int, d: int, sum: int)
    requires db.diskUsage == Wrap(x) && d == Total(b.adds) - Total(b.removes) && sum == x + d
    ensures NewUsage(db, b) == Wrap(sum)
  {
    WrapSum(x, d, db.diskUsage, UsageDiff(b), sum);
  }

  lemma EmptyBatch(txs: map<TxId, nat>, b: Batch)
    requires NothingToDo(b)
    ensures Pending(txs, b) == txs
  {
    NoneIn(b.adds);
    NoneIn(b.removes);
  }

  lemma NoneIn(m: map<TxId, nat>)
    requires |m| == 0
    ensures forall t :: t !in m
  {
    forall t
      ensures t !in m
    {
      if t in m {
        Without(m, t);
        assert false;
      }
    }
  }

  /** A failed commit restores both counters. */
  lemma FailedCommitRestores(db: Db, b: Batch)
    requires 0 <= db.txCount < WRAP && 0 <= db.diskUsage < WRAP
    ensures NotCommitted(db, b) == db
  {
    WrapBack(db.txCount, CountDiff(b));
    WrapBack(db.diskUsage, UsageDiff(b));
  }

  // ---------------------------------------------------------------- the worker

  /** `written` is what the database will answer to the commit that comes with it. */
  datatype Task =
    | Add(id: TxId, size: nat)
    | Remove(id: TxId, size: nat)
    | Clear
    | SetXref(key: int, written: bool)
    | RemoveXref(written: bool)
    | Sync(written: bool)
  {
    predicate Commits() { Sync? || SetXref? || RemoveXref? }
  }

  datatype Worker = Worker(db: Db, batch: Batch)

  const NEW_DB: Db := Db(map[], 0, 0, 0, 0, None)

  ghost function TryCommit(db: Db, b: Batch, written: bool): Db {
    if written then Committed(db, b) else NotCommitted(db, b)
  }

  /** One task; the end of a group of tasks commits like a Sync. The batch is emptied even if the write fails. */
  ghost function Execute(w: Worker, task: Task): Worker {
    match task
    case Add(t, size) => w.(batch := Added(w.batch, t, size))
    case Remove(t, size) => w.(batch := Removed(w.batch, t, size))
    case Clear => Worker(NEW_DB, EMPTY)
    case SetXref(key, written) => Worker(TryCommit(w.db, w.batch, written).(xref := Some(key)), EMPTY)
    case RemoveXref(written) => Worker(TryCommit(w.db, w.batch, written).(xref := None), EMPTY)
    case Sync(written) => Worker(TryCommit(w.db, w.batch, written), EMPTY)
  }

  /** Without a batch: what is on disk, and what has been asked for since. */
  datatype Plain = Plain(disk: map<TxId, nat>, asked: map<TxId, nat>)

  /** The tasks one at a time; a write that fails takes everything back to the last one that did not. */
  function Reference(p: Plain, task: Task): Plain {
    match task
    case Add(t, size) => p.(asked := p.asked[t := size])
    case Remove(t, _) => p.(asked := p.asked - {t})
    case Clear => Plain(map[], map[])
    case SetXref(_, written) => if written then Plain(p.asked, p.asked) else Plain(p.disk, p.disk)
    case RemoveXref(written) => if written then Plain(p.asked, p.asked) else Plain(p.disk, p.disk)
    case Sync(written) => if written then Plain(p.asked, p.asked) else Plain(p.disk, p.disk)
  }

  /** What the queue's producers guarantee. */
  predicate Allowed(w: Worker, task: Task, sizeOf: TxId -> nat) {
    match task
    case Add(t, size) => size == sizeOf(t) && MayAdd(w.db.txs, w.batch, t)
    case Remove(t, size) => size == sizeOf(t) && MayRemove(w.db.txs, w.batch, t)
    case _ => true
  }

  ghost predicate Refines(w: Worker, p: Plain, sizeOf: TxId -> nat) {
    && Consistent(w.db.txs, w.batch) && Sized(w.db.txs, w.batch, sizeOf) && Counted(w.db)
    && w.db.txs == p.disk && Pending(w.db.txs, w.batch) == p.asked
  }

  /** A new database with an empty batch refines nothing asked for. */
  lemma FreshRefines(sizeOf: TxId -> nat)
    ensures Refines(Worker(NEW_DB, EMPTY), Plain(map[], map[]), sizeOf)
  {
    NoneTotal(map[]);
    NothingPending(map[]);
  }

  /** A commit, written or not, leaves the counters right and the transactions the reference has on disk. */
  lemma CommitSettles(w: Worker, p: Plain, sizeOf: TxId -> nat, written: bool) returns (db: Db)
    requires Refines(w, p, sizeOf)
    ensures db == TryCommit(w.db, w.batch, written) && Counted(db)
    ensures db.txs == (if written then p.asked else p.disk) && (forall t :: t in db.txs ==> db.txs[t] == sizeOf(t))
  {
    db := TryCommit(w.db, w.batch, written);
    if written {
      CommitExact(w.db, w.batch);
      forall t | t in db.txs
        ensures db.txs[t] == sizeOf(t)
      {
        assert t in Pending(w.db.txs, w.batch);
      }
    } else {
      FailedCommitRestores(w.db, w.batch);
    }
  }

  lemma SettledRefines(w: Worker, p: Plain, task: Task, db: Db, sizeOf: TxId -> nat)
    requires task.Commits() && db == TryCommit(w.db, w.batch, task.written) && Counted(db)
    requires db.txs == (if task.written then p.asked else p.disk)
             && (forall t :: t in db.txs ==> db.txs[t] == sizeOf(t))
    ensures Refines(Execute(w, task), Reference(p, task), sizeOf)
  {
    NothingPending(db.txs);
  }

  lemma CommitRefines(w: Worker, p: Plain, sizeOf: TxId -> nat, task: Task)
    requires Refines(w, p, sizeOf) && task.Commits()
    ensures Refines(Execute(w, task), Reference(p, task), sizeOf)
  {
    var db := CommitSettles(w, p, sizeOf, task.written);
    SettledRefines(w, p, task, db, sizeOf);
  }

  lemma NothingPending(txs: map<TxId, nat>)
    ensures Pending(txs, EMPTY) == txs && Consistent(txs, EMPTY)
  {
  }

  lemma AddStepRefines(w: Worker, p: Plain, t: TxId, sizeOf: TxId -> nat)
    requires Refines(w, p, sizeOf) && MayAdd(w.db.txs, w.batch, t)
    ensures Refines(w.(batch := Added(w.batch, t, sizeOf(t))), p.(asked := p.asked[t := sizeOf(t)]), sizeOf)
  {
    AddConsistent(w.db.txs, w.batch, t, sizeOf);
    AddRefines(w.db.txs, w.batch, t, sizeOf);
  }

  lemma RemoveStepRefines(w: Worker, p: Plain, t: TxId, sizeOf: TxId -> nat)
    requires Refines(w, p, sizeOf) && MayRemove(w.db.txs, w.batch, t)
    ensures Refines(w.(batch := Removed(w.batch, t, sizeOf(t))), p.(asked := p.asked - {t}), sizeOf)
  {
    RemoveConsistent(w.db.txs, w.batch, t, sizeOf);
    RemoveRefines(w.db.txs, w.batch, t, sizeOf);
  }

  /** Each task on database and batch does what it does without a batch. */
  lemma StepRefines(w: Worker, p: Plain, task: Task, sizeOf: TxId -> nat)
    requires Refines(w, p, sizeOf) && Allowed(w, task, sizeOf)
    ensures Refines(Execute(w, task), Reference(p, task), sizeOf)
  {
    match task
    case Add(t, size) => AddStepRefines(w, p, t, sizeOf);
    case Remove(t, size) => RemoveStepRefines(w, p, t, sizeOf);
    case Clear => FreshRefines(sizeOf);
    case _ => CommitRefines(w, p, sizeOf, task);
  }

  ghost predicate IsRun(states: seq<Worker>, refs: seq<Plain>, tasks: seq<Task>, sizeOf: TxId -> nat) {
    && |states| == |refs| == |tasks| + 1
    && states[0] == Worker(NEW_DB, EMPTY) && refs[0] == Plain(map[], map[])
    && (forall k :: 0 <= k < |tasks| ==>
          && Allowed(states[k], tasks[k], sizeOf) && states[k + 1] == Execute(states[k], tasks[k])
          && refs[k + 1] == Reference(refs[k], tasks[k]))
  }

  /** From a new database, over every sequence of tasks, with writes that succeed and writes that fail. */
  lemma {:induction false} RunRefines(states: seq<Worker>, refs: seq<Plain>, tasks: seq<Task>, sizeOf: TxId -> nat,
                                      k: nat)
    requires IsRun(states, refs, tasks, sizeOf) && k <= |tasks|
    ensures Refines(states[k], refs[k], sizeOf)
  {
    if k == 0 {
      FreshRefines(sizeOf);
    } else {
      RunRefines(states, refs, tasks, sizeOf, k - 1);
      StepRefines(states[k - 1], refs[k - 1], tasks[k - 1], sizeOf);
      assert states[k - 1 + 1] == Execute(states[k - 1], tasks[k - 1]);
    }
  }

  // ---------------------------------------------------------------- the cross-reference key

  /** Tasks that concern the key itself. */
  predicate AboutXref(task: Task) {
    task.SetXref? || task.RemoveXref? || task.Clear?
  }

  /** The step brings a changed database to disk. */
  ghost predicate Writes(w: Worker, task: Task) {
    task.Sync? && task.written && !NothingToDo(w.batch)
  }

  lemma XrefStep(w: Worker, task: Task)
    ensures var x := Execute(w, task).db.xref;
            && (task.SetXref? ==> x == Some(task.key))
            && (task.RemoveXref? || task.Clear? || Writes(w, task) ==> x == None)
            && (!AboutXref(task) && !Writes(w, task) ==> x == w.db.xref && Execute(w, task).db.txs == w.db.txs)
  {
  }

  /** A stored key was put there, and since then neither taken away nor has the database on disk changed. */
  lemma {:induction false} XrefMeans(states: seq<Worker>, refs: seq<Plain>, tasks: seq<Task>, sizeOf: TxId -> nat,
                                     k: nat)
    returns (j: nat)
    requires IsRun(states, refs, tasks, sizeOf) && k <= |tasks| && states[k].db.xref.Some?
    ensures j < k && tasks[j].SetXref? && states[k].db.xref == Some(tasks[j].key)
    ensures forall m :: j < m < k ==> !AboutXref(tasks[m]) && !Writes(states[m], tasks[m])
    ensures states[k].db.txs == states[j + 1].db.txs
  {
    assert k > 0;
    XrefStep(states[k - 1], tasks[k - 1]);
    assert states[k - 1 + 1] == Execute(states[k - 1], tasks[k - 1]);
    if tasks[k - 1].SetXref? {
      j := k - 1;
    } else {
      j := XrefMeans(states, refs, tasks, sizeOf, k - 1);
    }
  }

  /** And it stays as long as neither happens. */
  lemma {:induction false} XrefStays(states: seq<Worker>, refs: seq<Plain>, tasks: seq<Task>, sizeOf: TxId -> nat,
                                     j: nat, k: nat)
    requires IsRun(states, refs, tasks, sizeOf) && j < k <= |tasks| && tasks[j].SetXref?
    requires forall m :: j < m < k ==> !AboutXref(tasks[m]) && !Writes(states[m], tasks[m])
    ensures states[k].db.xref == Some(tasks[j].key)
    decreases k
  {
    XrefStep(states[k - 1], tasks[k - 1]);
    assert states[k - 1 + 1] == Execute(states[k - 1], tasks[k - 1]);
    if j < k - 1 {
      XrefStays(states, refs, tasks, sizeOf, j, k - 1);
    }
  }

  /** The tasks one at a time, from `p`. */
  function Executed(p: Plain, tasks: seq<Task>): Plain {
    if tasks == [] then p else Reference(Executed(p, tasks[..|tasks| - 1]), tasks[|tasks| - 1])
  }

  /** What is asked for when no write fails: adds, removes and clears in order. */
  function OneByOne(txs: map<TxId, nat>, tasks: seq<Task>): map<TxId, nat> {
    if tasks == [] then txs
    else
      var before := OneByOne(txs, tasks[..|tasks| - 1]);
      match tasks[|tasks| - 1]
      case Add(t, size) => before[t := size]
      case Remove(t, _) => before - {t}
      case Clear => map[]
      case _ => before
  }

  predicate AllWritten(tasks: seq<Task>) {
    forall k :: 0 <= k < |tasks| && tasks[k].Commits() ==> tasks[k].written
  }

  /** While no write fails everything asked for is kept, and each synchronisation brings it to disk. */
  lemma {:induction false} NothingLost(p: Plain, tasks: seq<Task>)
    requires AllWritten(tasks)
    ensures Executed(p, tasks).asked == OneByOne(p.asked, tasks)
    ensures tasks != [] && tasks[|tasks| - 1].Commits() ==> Executed(p, tasks).disk == OneByOne(p.asked, tasks)
  {
    if tasks != [] {
      NothingLost(p, tasks[..|tasks| - 1]);
    }
  }

  /** As long as they fit into 64 bits the counters are the number of keys and the sum of sizes. */
  lemma CountersExact(db: Db)
    requires Counted(db) && |db.txs| < WRAP && Total(db.txs) < WRAP
    ensures db.txCount == |db.txs| && db.diskUsage == Total(db.txs)
  {
  }

  // ---------------------------------------------------------------- in place

  lemma WrapStep(x: int, d: int)
    ensures Wrap(Wrap(x) + d) == Wrap(x + d)
  {
    WrapIsMod(x);
    WrapIsMod(Wrap(x) + d);
    WrapIsMod(x + d);
  }

  /** A transaction of a non-empty batch. */
  lemma SomeTx(m: map<TxId, nat>)
    requires m != map[]
    ensures exists t :: t in m
  {
    if forall t :: t !in m {
      assert false;
    }
  }

  /** Commit's loop over the adds, */
  method SumOf(m: map<TxId, nat>) returns (acc: int)
    ensures acc == Wrap(Total(m))
  {
    acc := 0;
    var rest := m;
    ghost var sum := 0;
    while rest != map[]
      invariant acc == Wrap(sum) && sum + Total(rest) == Total(m)
      decreases |rest|
    {
      SomeTx(rest);
      var t :| t in rest;
      Without(rest, t);
      WrapStep(sum, rest[t]);
      acc, sum := Wrap(acc + rest[t]), sum + rest[t];
      rest := rest - {t};
    }
    NoneTotal(rest);
  }

  /** and over the removes. */
  method LessSumOf(start: int, m: map<TxId, nat>, ghost from: int) returns (acc: int)
    requires start == Wrap(from)
    ensures acc == Wrap(from - Total(m))
  {
    acc := start;
    var rest := m;
    ghost var sum := 0;
    while rest != map[]
      invariant acc == Wrap(from - sum) && sum + Total(rest) == Total(m)
      decreases |rest|
    {
      SomeTx(rest);
      var t :| t in rest;
      Without(rest, t);
      var size: int := rest[t];
      WrapStep(from - sum, -size);
      acc, sum := Wrap(acc - size), sum + size;
      rest := rest - {t};
    }
    NoneTotal(rest);
  }

  class AsyncTxDb {
    var txs: map<TxId, nat>
    var txCount: int
    var diskUsage: int
    var storedCount: int
    var storedUsage: int
    var xref: Option<int>
    var adds: map<TxId, nat>
    var removes: map<TxId, nat>

    ghost function Snapshot(): Worker
      reads this
    {
      Worker(Db(txs, txCount, diskUsage, storedCount, storedUsage, xref), Batch(adds, removes))
    }

    constructor ()
      ensures Snapshot() == Worker(NEW_DB, EMPTY)
    {
      txs, txCount, diskUsage, storedCount, storedUsage, xref := map[], 0, 0, 0, 0, None;
      adds, removes := map[], map[];
    }

    /** Batch::Add; a repeated transaction has the size it had, as the source asserts. */
    method AddTx(t: TxId, size: nat)
      requires t !in removes && t in adds ==> adds[t] == size
      modifies this`adds, this`removes
      ensures Snapshot().batch == Added(old(Snapshot()).batch, t, size)
    {
      if t in removes {
        removes := removes - {t};
      } else if t !in adds {
        adds := adds[t := size];
      } else {
        assert adds[t] == size;
      }
    }

    method RemoveTx(t: TxId, size: nat)
      requires t !in adds && t in removes ==> removes[t] == size
      modifies this`adds, this`removes
      ensures Snapshot().batch == Removed(old(Snapshot()).batch, t, size)
    {
      if t in adds {
        adds := adds - {t};
      } else if t !in removes {
        removes := removes[t := size];
      } else {
        assert removes[t] == size;
      }
    }

    /** The differences a batch makes to the counters. */
    method Differences() returns (count: int, usage: int)
      ensures count == CountDiff(Snapshot().batch) && usage == UsageDiff(Snapshot().batch)
    {
      count := Wrap(|adds| - |removes|);
      var added := SumOf(adds);
      usage := LessSumOf(added, removes, Total(adds));
    }

    /** The counters go up first, and back down if the write fails. */
    method TryWrite(written: bool, count: int, usage: int)
      modifies this`txs, this`txCount, this`diskUsage, this`storedCount, this`storedUsage, this`xref
      ensures written ==>
              && txs == Pending(old(txs), Batch(adds, removes))
              && storedCount == txCount == Wrap(old(txCount) + count)
              && storedUsage == diskUsage == Wrap(old(diskUsage) + usage) && xref == None
      ensures !written ==> Snapshot().db == old(Snapshot()).db.(txCount := Wrap(Wrap(old(txCount) + count) - count),
                                                                diskUsage := Wrap(Wrap(old(diskUsage) + usage) - usage))
    {
      diskUsage, txCount := Wrap(diskUsage + usage), Wrap(txCount + count);
      if written {
        txs := txs - removes.Keys + adds;
        storedUsage, storedCount, xref := diskUsage, txCount, None;
      } else {
        diskUsage, txCount := Wrap(diskUsage - usage), Wrap(txCount - count);
      }
    }

    /** Commit; `written` says whether the database accepts the batch. */
    method Commit(written: bool) returns (ok: bool)
      modifies this`txs, this`txCount, this`diskUsage, this`storedCount, this`storedUsage, this`xref
      ensures var w := old(Snapshot()); Snapshot() == w.(db := TryCommit(w.db, w.batch, written))
      ensures ok <==> written || NothingToDo(old(Snapshot()).batch)
    {
      if |adds| == 0 && |removes| == 0 {
        return true;
      }
      var countDiff, usageDiff := Differences();
      TryWrite(written, countDiff, usageDiff);
      return written;
    }

    /** The worker's own commit drops the batch whatever becomes of it. */
    method CommitAndClear(written: bool)
      modifies this
      ensures Snapshot() == Execute(old(Snapshot()), Sync(written))
    {
      var ok := Commit(written);
      adds, removes := map[], map[];
    }

    /** The dispatcher; a repeated transaction comes with the size it had. */
    method Dispatch(task: Task)
      requires SameSize(Snapshot().batch, task)
      modifies this
      ensures Snapshot() == Execute(old(Snapshot()), task)
    {
      match task
      case Add(t, size) => AddTx(t, size);
      case Remove(t, size) => RemoveTx(t, size);
      case Clear =>
        adds, removes := map[], map[];
        txs, txCount, diskUsage, storedCount, storedUsage, xref := map[], 0, 0, 0, 0, None;
      case SetXref(key, written) =>
        CommitAndClear(written);
        xref := Some(key);
      case RemoveXref(written) =>
        CommitAndClear(written);
        xref := None;
      case Sync(written) =>
        CommitAndClear(written);
    }

    method DispatchAll(tasks: seq<Task>, ghost start: Plain, ghost sizeOf: TxId -> nat)
      requires Refines(Snapshot(), start, sizeOf) && AllAllowed(Snapshot(), tasks, sizeOf)
      modifies this
      ensures GroupSoFar(Snapshot(), start, tasks, |tasks|, sizeOf)
    {
      assert tasks[..0] == [] && tasks[0..] == tasks;
      for n := 0 to |tasks|
        invariant GroupSoFar(Snapshot(), start, tasks, n, sizeOf)
      {
        OneTask(Snapshot(), start, tasks, n, sizeOf);
        Dispatch(tasks[n]);
      }
    }

    /** The commit after the last task of a group. */
    method EndGroup(tasks: seq<Task>, written: bool, ghost start: Plain, ghost sizeOf: TxId -> nat)
      returns (ghost result: Plain)
      requires GroupSoFar(Snapshot(), start, tasks, |tasks|, sizeOf)
      modifies this
      ensures result == Reference(Executed(start, tasks), Sync(written)) && Refines(Snapshot(), result, sizeOf)
      ensures txs == result.disk && adds == map[] && removes == map[]
      ensures written && AllWritten(tasks) ==> txs == OneByOne(start.asked, tasks)
    {
      ghost var w';
      result, w' := GroupEnds(Snapshot(), start, tasks, written, sizeOf);
      CommitAndClear(written);
      assert Snapshot() == w';
    }

    /** Work, for one group of tasks: afterwards the database is where the tasks one by one would have left it. */
    method Work(tasks: seq<Task>, written: bool, ghost start: Plain, ghost sizeOf: TxId -> nat)
                returns (ghost result: Plain)
      requires Refines(Snapshot(), start, sizeOf) && AllAllowed(Snapshot(), tasks, sizeOf)
      modifies this
      ensures result == Reference(Executed(start, tasks), Sync(written)) && Refines(Snapshot(), result, sizeOf)
      ensures txs == result.disk && adds == map[] && removes == map[]
      ensures written && AllWritten(tasks) ==> txs == OneByOne(start.asked, tasks)
    {
      DispatchAll(tasks, start, sizeOf);
      result := EndGroup(tasks, written, start, sizeOf);
    }
  }

  /** What the assertions in Batch::Add and Batch::Remove demand. */
  predicate SameSize(b: Batch, task: Task) {
    && (task.Add? && task.id !in b.removes && task.id in b.adds ==> b.adds[task.id] == task.size)
    && (task.Remove? && task.id !in b.adds && task.id in b.removes ==> b.removes[task.id] == task.size)
  }

  /** The first `n` tasks of a group have been executed. */
  ghost predicate GroupSoFar(w: Worker, start: Plain, tasks: seq<Task>, n: nat, sizeOf: TxId -> nat)
    requires n <= |tasks|
  {
    Refines(w, Executed(start, tasks[..n]), sizeOf) && AllAllowed(w, tasks[n..], sizeOf)
  }

  lemma OneTask(w: Worker, start: Plain, tasks: seq<Task>, n: nat, sizeOf: TxId -> nat)
    requires n < |tasks| && GroupSoFar(w, start, tasks, n, sizeOf)
    ensures SameSize(w.batch, tasks[n]) && GroupSoFar(Execute(w, tasks[n]), start, tasks, n + 1, sizeOf)
  {
    assert tasks[n..][0] == tasks[n] && tasks[n..][1..] == tasks[n + 1..] && tasks[..n + 1][..n] == tasks[..n];
    StepRefines(w, Executed(start, tasks[..n]), tasks[n], sizeOf);
  }

  lemma GroupEnds(w: Worker, start: Plain, tasks: seq<Task>, written: bool, sizeOf: TxId -> nat)
    returns (result: Plain, w': Worker)
    requires GroupSoFar(w, start, tasks, |tasks|, sizeOf)
    ensures result == Reference(Executed(start, tasks), Sync(written))
    ensures w' == Execute(w, Sync(written)) && Refines(w', result, sizeOf) && w'.db.txs == result.disk
    ensures written && AllWritten(tasks) ==> result.disk == OneByOne(start.asked, tasks)
  {
    assert tasks[..|tasks|] == tasks;
    result, w' := Reference(Executed(start, tasks), Sync(written)), Execute(w, Sync(written));
    CommitRefines(w, Executed(start, tasks), sizeOf, Sync(written));
    if AllWritten(tasks) {
      NothingLost(start, tasks);
    }
  }

  ghost predicate AllAllowed(w: Worker, tasks: seq<Task>, sizeOf: TxId -> nat)
    decreases |tasks|
  {
    tasks == [] || (Allowed(w, tasks[0], sizeOf) && AllAllowed(Execute(w, tasks[0]), tasks[1..], sizeOf))
  }
}
