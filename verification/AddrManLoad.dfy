/**
 Loading any file at all, not only one that was saved: if no two of its entries share an address, the manager that comes
 out is consistent, whatever the version, the bucket lists and the indexes in them say.
 */
module AddrManLoad {
  import opened AddrMan
  import opened AddrManSteps
  import opened AddrManager
  import opened AddrManStore

  predicate DistinctIps(ps: seq<Saved>) {
    forall i, j :: 0 <= i < j < |ps| ==> ps[i].addr.ip != ps[j].addr.ip
  }

  predicate IpAmong(ps: seq<Saved>, n: nat, a: NetAddr)
    requires n <= |ps|
  {
    exists k :: 0 <= k < n && ps[k].addr.ip == a
  }

  /** The addresses known are among those of the first `n`. */
  predicate IpsFrom(addrs: map<NetAddr, int>, ps: seq<Saved>, n: nat)
    requires n <= |ps|
  {
    forall a :: a in addrs ==> IpAmong(ps, n, a)
  }

  lemma NextIpNew(addrs: map<NetAddr, int>, ps: seq<Saved>, n: nat)
    requires n < |ps| && DistinctIps(ps) && IpsFrom(addrs, ps, n)
    ensures ps[n].addr.ip !in addrs
  {
  }

  lemma IpsGrow(addrs: map<NetAddr, int>, ps: seq<Saved>, n: nat, id: int)
    requires n < |ps| && IpsFrom(addrs, ps, n)
    ensures IpsFrom(addrs[ps[n].addr.ip := id], ps, n + 1) && IpsFrom(addrs, ps, n + 1)
  {
    forall a | a in addrs
      ensures IpAmong(ps, n + 1, a)
    {
      assert IpAmong(ps, n, a);
    }
    assert IpAmong(ps, n + 1, ps[n].addr.ip);
  }

  // ---------------------------------------------------------------- one more entry

  /** An entry under the next id, not in any table yet. */
  function Enrolled(s: State, i: Info): State {
    var id := s.idCount;
    s.(idCount := id + 1, info := s.info[id := i], addrs := s.addrs[i.addr.ip := id], random := s.random + [id],
       nNew := s.nNew + 1)
  }

  lemma EnrolledTables(s: State, i: Info)
    requires Tables(s) && i.addr.ip !in s.addrs && !i.inTried && i.randomPos == |s.random|
    ensures s.idCount !in s.info && Tables(Enrolled(s, i))
  {
    var c := Create(s, i.addr, i.time, i.services, i.source);
    CreateIndexOk(s, i.addr, i.time, i.services, i.source);
    CreateTablesOk(s, i.addr, i.time, i.services, i.source);
    IndexOk(c, Enrolled(s, i), s.idCount, i);
    NewTablesOk(c, Enrolled(s, i), s.idCount, i);
  }

  lemma EnrolledRefs(s: State, i: Info, limbo: set<int>)
    requires NewsOk(s) && RefsOk(s, limbo) && s.idCount !in s.info && !i.inTried && i.refCount == 0
    ensures RefsOk(Enrolled(s, i), limbo + {s.idCount})
  {
    var s', id := Enrolled(s, i), s.idCount;
    assert SlotsOf(s.news, id) == {};
    forall x | x in s'.info
      ensures RefOk(s'.info[x], |SlotsOf(s'.news, x)|, x in limbo + {id})
    {
      assert x != id ==> RefOk(s.info[x], |SlotsOf(s.news, x)|, x in limbo);
    }
  }

  lemma EnrolledCounts(s: State, i: Info)
    requires Counts(s, 0) && s.idCount !in s.info && !i.inTried
    ensures Counts(Enrolled(s, i), 0)
  {
    var s', id := Enrolled(s, i), s.idCount;
    assert TriedIds(s') == TriedIds(s) && NewIds(s') == NewIds(s) + {id} && id !in NewIds(s);
  }

  lemma EnrollKeeps(s: State, i: Info, limbo: set<int>)
    requires Midway(s, limbo, 0) && i.addr.ip !in s.addrs && !i.inTried && i.refCount == 0 && i.randomPos == |s.random|
    ensures s.idCount !in s.info && Midway(Enrolled(s, i), limbo + {s.idCount}, 0)
  {
    EnrolledTables(s, i);
    EnrolledRefs(s, i, limbo);
    EnrolledCounts(s, i);
  }

  /** More entries may be without a slot than are. */
  lemma LimboGrows(s: State, limbo: set<int>, more: set<int>, uncounted: int)
    requires Midway(s, limbo, uncounted) && limbo <= more
    ensures Midway(s, more, uncounted)
  {
  }

  // ---------------------------------------------------------------- the new entries

  /** `r` with the counters of what has been read so far. */
  function Level(r: State, id: int, n: int, m: int): State {
    r.(idCount := id, nNew := n, nTried := m)
  }

  /** The first `n` entries are the new ones of the file. */
  predicate NewsFirst(r: State, n: nat) {
    forall k :: 0 <= k < n ==> k in r.info && !r.info[k].inTried
  }

  /** What holds when the first `n` entries have been read, all of them new. */
  ghost predicate NewsSoFar(r: State, ps: seq<Saved>, n: nat)
    requires n <= |ps|
  {
    && Midway(Level(r, n, n, 0), r.info.Keys, 0) && IpsFrom(r.addrs, ps, n) && |r.random| == n && NewsFirst(r, n)
  }

  lemma NewEnrolled(r: State, ps: seq<Saved>, n: nat) returns (s1: State)
    requires n < |ps| && DistinctIps(ps) && NewsSoFar(r, ps, n)
    ensures s1 == Enrolled(Level(r, n, n, 0), Load(ps[n], 0, false, |r.random|))
    ensures Midway(s1, s1.info.Keys, 0) && IpsFrom(s1.addrs, ps, n + 1) && |s1.random| == n + 1 && NewsFirst(s1, n + 1)
  {
    var s, i := Level(r, n, n, 0), Load(ps[n], 0, false, |r.random|);
    NextIpNew(r.addrs, ps, n);
    EnrollKeeps(s, i, r.info.Keys);
    IpsGrow(r.addrs, ps, n, n);
    s1 := Enrolled(s, i);
    assert s1.info.Keys == r.info.Keys + {n};
  }

  lemma LinkedKeeps(s: State, id: int, t: Slot)
    requires Midway(s, s.info.Keys, 0) && id in s.info && t !in s.news && !s.info[id].inTried
    requires s.info[id].refCount < NEW_BUCKETS_PER_ADDRESS
    requires 0 <= t.0 < NEW_BUCKET_COUNT && t == s.key.NewSlot(s.info[id].addr, t.0)
    ensures Midway(Link(s, id, t), Link(s, id, t).info.Keys, 0)
  {
    LinkKeeps(s, id, t, s.info.Keys, 0);
    assert Link(s, id, t).info.Keys == s.info.Keys;
    LimboGrows(Link(s, id, t), s.info.Keys - {id}, s.info.Keys, 0);
  }

  lemma NewRead(r: State, usable: bool, ps: seq<Saved>, n: nat)
    requires n < |ps| && DistinctIps(ps) && NewsSoFar(r, ps, n)
    ensures NewsSoFar(ReadNew(r, usable, n, ps[n]), ps, n + 1)
  {
    var s1 := NewEnrolled(r, ps, n);
    var t := r.key.NewSlot(ps[n].addr, r.key.NewBucket(ps[n].addr, ps[n].source));
    var r' := ReadNew(r, usable, n, ps[n]);
    if !usable && t !in r.news {
      LinkedKeeps(s1, n, t);
      NewLevel(r', Link(s1, n, t), ps, n + 1);
    } else {
      NewLevel(r', s1, ps, n + 1);
    }
  }

  lemma NewLevel(r: State, s: State, ps: seq<Saved>, n: nat)
    requires n <= |ps| && s == Level(r, n, n, 0) && Midway(s, s.info.Keys, 0) && IpsFrom(s.addrs, ps, n)
    requires |s.random| == n && NewsFirst(s, n)
    ensures NewsSoFar(r, ps, n)
  {
  }

  lemma {:induction false} NewsRead(r: State, usable: bool, ps: seq<Saved>, n: nat)
    requires n <= |ps| && DistinctIps(ps) && NewsSoFar(r, ps, 0)
    ensures NewsSoFar(ReadNews(r, usable, ps[..n]), ps, n)
  {
    if n > 0 {
      NewsRead(r, usable, ps, n - 1);
      assert ps[..n][..n - 1] == ps[..n - 1];
      NewRead(ReadNews(r, usable, ps[..n - 1]), usable, ps, n - 1);
    }
  }

  // ---------------------------------------------------------------- the tried entries

  /** What holds when `k` entries have been looked at, the first `n` of them new; `m` tried ones have been stored. */
  predicate TriedsSoFar(r: State, all: seq<Saved>, n: nat, k: nat, m: int)
    requires k <= |all|
  {
    && Midway(Level(r, r.idCount, n, m), r.info.Keys, 0) && IpsFrom(r.addrs, all, k) && r.idCount == |r.random|
    && NewsFirst(r, n)
  }

  lemma TriedStored(r: State, all: seq<Saved>, n: nat, k: nat, m: int)
    requires k < |all| && DistinctIps(all) && TriedsSoFar(r, all, n, k, m)
    requires r.key.TriedSlot(all[k].addr) !in r.tried && n <= r.idCount
    ensures TriedsSoFar(ReadTried(r, all[k]), all, n, k + 1, m + 1)
  {
    var s, i := Level(r, r.idCount, n, m), Load(all[k], 0, false, |r.random|);
    var id := r.idCount;
    NextIpNew(r.addrs, all, k);
    EnrollKeeps(s, i, r.info.Keys);
    IpsGrow(r.addrs, all, k, id);
    var s1 := Enrolled(s, i);
    PutTriedKeeps(s1, id, r.info.Keys + {id}, 0);
    TriedPut(r, all[k], n, m, s1);
  }

  /** What ReadTried leaves is the entry put into the tried table, but for the counters. */
  lemma TriedPut(r: State, p: Saved, n: nat, m: int, s1: State)
    requires r.key.TriedSlot(p.addr) !in r.tried && r.idCount !in r.info
    requires s1 == Enrolled(Level(r, r.idCount, n, m), Load(p, 0, false, |r.random|))
    requires Midway(PutTried(s1, r.idCount), r.info.Keys + {r.idCount} - {r.idCount}, -1)
    ensures var r' := ReadTried(r, p);
            Midway(Level(r', r'.idCount, n, m + 1), r'.info.Keys, 0)
  {
    var r', s2, id := ReadTried(r, p), PutTried(s1, r.idCount), r.idCount;
    assert r'.info.Keys == r.info.Keys + {id};
    CountOne(s2, r.info.Keys + {id} - {id}, -1);
    var s3 := s2.(nNew := s2.nNew - 1);
    assert s3 == Level(r', r'.idCount, n, m + 1);
    LimboGrows(s3, r.info.Keys + {id} - {id}, r'.info.Keys, 0);
  }

  /** From `r`, where the new entries had been read, `k` entries have been looked at. */
  predicate TriedsDone(r: State, r': State, all: seq<Saved>, n: nat, k: nat, m: int)
    requires k <= |all|
  {
    && TriedsSoFar(r', all, n, k, m) && n <= r'.idCount && n <= k
    && r'.nTried - r.nTried == m - (k - n) && r'.nNew == r.nNew
  }

  lemma TriedLooked(r: State, r1: State, all: seq<Saved>, n: nat, k: nat, m: int) returns (m': int)
    requires k < |all| && DistinctIps(all) && TriedsDone(r, r1, all, n, k, m)
    ensures TriedsDone(r, ReadTried(r1, all[k]), all, n, k + 1, m')
  {
    if r1.key.TriedSlot(all[k].addr) !in r1.tried {
      TriedStored(r1, all, n, k, m);
      m' := m + 1;
    } else {
      IpsGrow(r1.addrs, all, k, 0);
      m' := m;
      assert Level(ReadTried(r1, all[k]), r1.idCount, n, m) == Level(r1, r1.idCount, n, m);
    }
  }

  lemma OneMoreTried(r: State, all: seq<Saved>, n: nat, k: nat)
    requires n <= k < |all|
    ensures ReadTrieds(r, all[n..k + 1]) == ReadTried(ReadTrieds(r, all[n..k]), all[k])
  {
    assert all[n..k + 1][..k - n] == all[n..k];
  }

  /** What every round keeps holds at the end. */
  lemma {:induction false} EveryTried(r: State, all: seq<Saved>, n: nat, k: nat, p: (State, nat) -> bool)
    requires n <= k <= |all| && p(r, n)
    requires forall s: State, j: nat :: n <= j < |all| && p(s, j) ==> p(ReadTried(s, all[j]), j + 1)
    ensures p(ReadTrieds(r, all[n..k]), k)
    decreases k
  {
    if k == n {
      assert all[n..k] == [];
    } else {
      EveryTried(r, all, n, k - 1, p);
      var before := ReadTrieds(r, all[n..k - 1]);
      var after := ReadTried(before, all[k - 1]);
      assert after == ReadTrieds(r, all[n..k]) by {
        OneMoreTried(r, all, n, k - 1);
      }
      assert p(after, k - 1 + 1);
    }
  }

  predicate SomeDone(r: State, r': State, all: seq<Saved>, n: nat, k: nat) {
    k <= |all| && TriedsDone(r, r', all, n, k, r'.nTried - r.nTried + k - n)
  }

  lemma TriedsRead(r: State, all: seq<Saved>, n: nat)
    requires n <= |all| && DistinctIps(all) && TriedsDone(r, r, all, n, n, 0)
    ensures SomeDone(r, ReadTrieds(r, all[n..]), all, n, |all|)
  {
    var p := EveryRound(r, all, n);
    EveryTried(r, all, n, |all|, p);
    assert all[n..|all|] == all[n..];
  }

  lemma EveryRound(r: State, all: seq<Saved>, n: nat) returns (p: (State, nat) -> bool)
    requires n <= |all| && DistinctIps(all) && TriedsDone(r, r, all, n, n, 0)
    ensures p(r, n)
    ensures forall s: State, j: nat :: n <= j < |all| && p(s, j) ==> p(ReadTried(s, all[j]), j + 1)
    ensures forall s: State :: p(s, |all|) ==> SomeDone(r, s, all, n, |all|)
  {
    p := (s: State, j: nat) => SomeDone(r, s, all, n, j);
    forall s: State, j: nat | n <= j < |all| && p(s, j)
      ensures p(ReadTried(s, all[j]), j + 1)
    {
      OneMoreDone(r, s, all, n, j);
    }
  }

  lemma OneMoreDone(r: State, s: State, all: seq<Saved>, n: nat, j: nat)
    requires n <= j < |all| && DistinctIps(all) && SomeDone(r, s, all, n, j)
    ensures SomeDone(r, ReadTried(s, all[j]), all, n, j + 1)
  {
    var m' := TriedLooked(r, s, all, n, j, s.nTried - r.nTried + j - n);
  }

  // ---------------------------------------------------------------- the buckets

  /** What holds while the bucket lists are read. */
  ghost predicate SlotsSoFar(r: State) {
    OnlySlotsMissing(r) && NewsFirst(r, r.nNew)
  }

  lemma SlotRead(r: State, bucket: int, index: int)
    requires r.nNew >= 0 && SlotsSoFar(r) && 0 <= bucket < NEW_BUCKET_COUNT
    ensures ReadSlot(r, bucket, index).nNew == r.nNew && SlotsSoFar(ReadSlot(r, bucket, index))
  {
    if 0 <= index < r.nNew {
      var t := r.key.NewSlot(r.info[index].addr, bucket);
      if t !in r.news && r.info[index].refCount < NEW_BUCKETS_PER_ADDRESS {
        LinkedKeeps(r, index, t);
      }
    }
  }

  lemma {:induction false} BucketRead(r: State, bucket: int, list: seq<int>)
    requires r.nNew >= 0 && SlotsSoFar(r) && 0 <= bucket < NEW_BUCKET_COUNT
    ensures ReadBucket(r, bucket, list).nNew == r.nNew && SlotsSoFar(ReadBucket(r, bucket, list))
  {
    if list != [] {
      BucketRead(r, bucket, list[..|list| - 1]);
      SlotRead(ReadBucket(r, bucket, list[..|list| - 1]), bucket, list[|list| - 1]);
    }
  }

  lemma {:induction false} BucketsRead(r: State, lists: seq<seq<int>>)
    requires r.nNew >= 0 && SlotsSoFar(r) && |lists| <= NEW_BUCKET_COUNT
    ensures ReadBuckets(r, lists).nNew == r.nNew && SlotsSoFar(ReadBuckets(r, lists))
  {
    if lists != [] {
      BucketsRead(r, lists[..|lists| - 1]);
      BucketRead(ReadBuckets(r, lists[..|lists| - 1]), |lists| - 1, lists[|lists| - 1]);
    }
  }

  // ---------------------------------------------------------------- whole files

  lemma FreshLevel(key: Key, f: File)
    ensures NewsSoFar(Fresh(key).(nNew := |f.news|, nTried := |f.trieds|), f.news, 0)
  {
    FreshChecks(key);
    var r := Fresh(key);
    assert Level(r.(nNew := |f.news|, nTried := |f.trieds|), 0, 0, 0) == r;
    LimboGrows(r, {}, {}, 0);
    assert r.info.Keys == {};
  }

  lemma BothDistinct(f: File)
    requires DistinctIps(f.news + f.trieds)
    ensures DistinctIps(f.news)
  {
    var all := f.news + f.trieds;
    forall i, j | 0 <= i < j < |f.news|
      ensures f.news[i].addr.ip != f.news[j].addr.ip
    {
      assert all[i] == f.news[i] && all[j] == f.news[j];
    }
  }

  lemma IpsAmongAll(addrs: map<NetAddr, int>, f: File)
    requires IpsFrom(addrs, f.news, |f.news|)
    ensures IpsFrom(addrs, f.news + f.trieds, |f.news|)
  {
    var all, n := f.news + f.trieds, |f.news|;
    forall a | a in addrs
      ensures IpAmong(all, n, a)
    {
      assert IpAmong(f.news, n, a);
      var k :| 0 <= k < n && f.news[k].addr.ip == a;
      assert all[k] == f.news[k];
    }
  }

  lemma NewHalf(key: Key, f: File) returns (r: State)
    requires DistinctIps(f.news + f.trieds)
    ensures ReadEntries(key, f) == ReadTrieds(r, f.trieds) && r.nNew == r.idCount == |f.news| && r.nTried == |f.trieds|
    ensures TriedsDone(r, r, f.news + f.trieds, |f.news|, |f.news|, 0)
  {
    var n := |f.news|;
    FreshLevel(key, f);
    BothDistinct(f);
    var r0 := Fresh(key).(nNew := |f.news|, nTried := |f.trieds|);
    NewsRead(r0, f.Usable(), f.news, n);
    assert f.news[..n] == f.news;
    NewsCounters(r0, f.Usable(), f.news);
    r := ReadNews(r0, f.Usable(), f.news).(idCount := n);
    IpsAmongAll(r.addrs, f);
  }

  lemma EntriesRead(key: Key, f: File)
    requires DistinctIps(f.news + f.trieds)
    ensures SlotsSoFar(ReadEntries(key, f)) && ReadEntries(key, f).nNew == |f.news|
  {
    var all, n := f.news + f.trieds, |f.news|;
    var r := NewHalf(key, f);
    TriedsRead(r, all, n);
    assert all[n..] == f.trieds;
    var r' := ReadTrieds(r, f.trieds);
    LevelReached(r', |f.news|, r'.nTried);
  }

  lemma LevelReached(r: State, n: nat, m: int)
    requires r.nNew == n && r.nTried == m && Midway(Level(r, r.idCount, n, m), r.info.Keys, 0) && NewsFirst(r, n)
    ensures SlotsSoFar(r)
  {
    assert Level(r, r.idCount, n, m) == r;
  }

  lemma {:induction false} NewsCounters(r: State, usable: bool, ps: seq<Saved>)
    ensures var r' := ReadNews(r, usable, ps); r'.nNew == r.nNew && r'.nTried == r.nTried && r'.key == r.key
  {
    if ps != [] {
      NewsCounters(r, usable, ps[..|ps| - 1]);
    }
  }

  /** Whatever the file says about versions and buckets: if its addresses differ, only slots can be missing. */
  lemma AnyFileReads(key: Key, f: File)
    requires DistinctIps(f.news + f.trieds)
    ensures OnlySlotsMissing(ReadAll(key, f))
  {
    EntriesRead(key, f);
    if f.Usable() {
      BucketsRead(ReadEntries(key, f), f.buckets);
    }
  }

  // ---------------------------------------------------------------- times

  predicate SavedTimesOk(f: File) {
    && (forall k :: 0 <= k < |f.news| ==> f.news[k].lastSuccess >= 0)
    && (forall k :: 0 <= k < |f.trieds| ==> f.trieds[k].lastSuccess > 0)
  }

  lemma {:induction false} NewsTimes(r: State, usable: bool, ps: seq<Saved>)
    requires TimesOk(r) && forall k :: 0 <= k < |ps| ==> ps[k].lastSuccess >= 0
    ensures TimesOk(ReadNews(r, usable, ps))
  {
    if ps != [] {
      NewsTimes(r, usable, ps[..|ps| - 1]);
    }
  }

  lemma {:induction false} TriedsTimes(r: State, ps: seq<Saved>)
    requires TimesOk(r) && forall k :: 0 <= k < |ps| ==> ps[k].lastSuccess > 0
    ensures TimesOk(ReadTrieds(r, ps))
  {
    if ps != [] {
      TriedsTimes(r, ps[..|ps| - 1]);
    }
  }

  lemma {:induction false} BucketTimes(r: State, bucket: int, list: seq<int>)
    requires TimesOk(r)
    ensures TimesOk(ReadBucket(r, bucket, list))
  {
    if list != [] {
      BucketTimes(r, bucket, list[..|list| - 1]);
    }
  }

  lemma {:induction false} BucketsTimes(r: State, lists: seq<seq<int>>)
    requires TimesOk(r)
    ensures TimesOk(ReadBuckets(r, lists))
  {
    if lists != [] {
      BucketsTimes(r, lists[..|lists| - 1]);
      BucketTimes(ReadBuckets(r, lists[..|lists| - 1]), |lists| - 1, lists[|lists| - 1]);
    }
  }

  lemma AllTimes(key: Key, f: File)
    requires SavedTimesOk(f)
    ensures TimesOk(ReadAll(key, f))
  {
    var r := Fresh(key).(nNew := |f.news|, nTried := |f.trieds|);
    NewsTimes(r, f.Usable(), f.news);
    TriedsTimes(ReadNews(r, f.Usable(), f.news).(idCount := |f.news|), f.trieds);
    BucketsTimes(ReadEntries(key, f), f.buckets);
  }

  /** Every file whose addresses differ loads into a consistent manager; with proper times it passes the full check. */
  method LoadAny(key: Key, f: File) returns (m: Manager?)
    ensures m == null <==> |f.news| > NEW_BUCKET_COUNT * BUCKET_SIZE || |f.trieds| > TRIED_BUCKET_COUNT * BUCKET_SIZE
    ensures m != null && DistinctIps(f.news + f.trieds) ==> Sound(m.Snapshot())
    ensures m != null && DistinctIps(f.news + f.trieds) && SavedTimesOk(f) ==> Check(m.Snapshot())
  {
    if DistinctIps(f.news + f.trieds) {
      AnyFileReads(key, f);
    }
    m := Unserialize(key, f);
    if m != null && SavedTimesOk(f) {
      AllTimes(key, f);
      TimesKept(ReadAll(key, f), m.Snapshot());
    }
  }

  /** Two tried entries under one address do not: the index by address finds only one of them. */
  lemma SameAddressBreaks(key: Key, f: File, p: Saved, q: Saved)
    requires f.news == [] && f.trieds == [p, q] && p.addr.ip == q.addr.ip
    requires key.TriedSlot(p.addr) != key.TriedSlot(q.addr) && !f.Usable()
    ensures !Sound(ReadAll(key, f)) && NothingToPrune(ReadAll(key, f))
  {
    var r := Fresh(key).(nNew := 0, nTried := 2);
    assert ReadNews(r, false, f.news) == r;
    var r0 := r.(idCount := 0);
    assert f.trieds[..1] == [p] && f.trieds[..1][..0] == [];
    assert ReadTrieds(r0, []) == r0;
    var r1 := ReadTried(r0, p);
    assert ReadTrieds(r0, [p]) == r1;
    var r2 := ReadTried(r1, q);
    assert ReadTrieds(r0, f.trieds) == r2;
    assert 0 in r2.info && r2.addrs[r2.info[0].addr.ip] == 1;
  }

  // ---------------------------------------------------------------- files without usable buckets

  function HomeOf(key: Key, p: Saved): Slot {
    key.NewSlot(p.addr, key.NewBucket(p.addr, p.source))
  }

  /** Slot `t` is the home of entry `k` and of none before it. */
  predicate FirstAt(key: Key, ps: seq<Saved>, t: Slot, k: int) {
    0 <= k < |ps| && HomeOf(key, ps[k]) == t && forall j :: 0 <= j < k ==> HomeOf(key, ps[j]) != t
  }

  /** The new table has each entry that came first to its home slot, and nothing else. */
  ghost predicate Homes(r: State, ps: seq<Saved>) {
    && (forall t :: t in r.news ==> FirstAt(r.key, ps, t, r.news[t]))
    && (forall k :: 0 <= k < |ps| ==> HomeOf(r.key, ps[k]) in r.news)
  }

  lemma {:induction false} HomesRead(r: State, ps: seq<Saved>)
    requires r.news == map[]
    ensures Homes(ReadNews(r, false, ps), ps) && ReadNews(r, false, ps).key == r.key
  {
    if ps != [] {
      var n := |ps| - 1;
      HomesRead(r, ps[..n]);
      HomeRead(ReadNews(r, false, ps[..n]), ps, n);
    }
  }

  lemma HomeRead(r: State, ps: seq<Saved>, n: nat)
    requires n == |ps| - 1 && Homes(r, ps[..n])
    ensures Homes(ReadNew(r, false, n, ps[n]), ps) && ReadNew(r, false, n, ps[n]).key == r.key
  {
    var r', t := ReadNew(r, false, n, ps[n]), HomeOf(r.key, ps[n]);
    forall u | u in r'.news
      ensures FirstAt(r'.key, ps, u, r'.news[u])
    {
      if u in r.news {
        assert FirstAt(r.key, ps[..n], u, r.news[u]);
        StillFirst(r.key, ps, n, u, r.news[u]);
      } else {
        forall j | 0 <= j < n
          ensures HomeOf(r.key, ps[j]) != t
        {
          assert HomeOf(r.key, ps[..n][j]) in r.news;
        }
      }
    }
    forall k | 0 <= k < |ps|
      ensures HomeOf(r'.key, ps[k]) in r'.news
    {
      if k < n {
        assert HomeOf(r.key, ps[..n][k]) in r.news;
      }
    }
  }

  lemma StillFirst(key: Key, ps: seq<Saved>, n: nat, t: Slot, k: int)
    requires n <= |ps| && FirstAt(key, ps[..n], t, k)
    ensures FirstAt(key, ps, t, k)
  {
    assert ps[..n][k] == ps[k];
    forall j | 0 <= j < k
      ensures HomeOf(key, ps[j]) != t
    {
      assert HomeOf(key, ps[..n][j]) != t;
    }
  }

  lemma {:induction false} TriedsLeaveNews(r: State, ps: seq<Saved>)
    ensures ReadTrieds(r, ps).news == r.news && ReadTrieds(r, ps).key == r.key
  {
    if ps != [] {
      TriedsLeaveNews(r, ps[..|ps| - 1]);
    }
  }

  /** A file of another version or with another number of buckets keeps the first entry for each home slot. */
  lemma ForeignFile(key: Key, f: File)
    requires f.version != 1 || |f.buckets| != NEW_BUCKET_COUNT
    ensures Homes(ReadAll(key, f), f.news) && ReadAll(key, f).key == key
  {
    var r := Fresh(key).(nNew := |f.news|, nTried := |f.trieds|);
    HomesRead(r, f.news);
    TriedsLeaveNews(ReadNews(r, false, f.news).(idCount := |f.news|), f.trieds);
  }
}
