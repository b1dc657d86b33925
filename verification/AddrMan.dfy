/**
 The tables of the address manager: entries indexed five ways. `Check` collects everything the source's own
 consistency check tests; the table operations are shown to keep it.

 A bucket table is a map from (bucket, position) to an entry's id; a slot holding -1 in the source is absent.
 The keyed hashes are arbitrary functions, reduced to the table sizes as the source does.
 */
module AddrMan {
  type NetAddr = int
  datatype Service = Service(ip: NetAddr, port: int)

  const TRIED_BUCKET_COUNT: int := 256
  const NEW_BUCKET_COUNT: int := 1024
  const BUCKET_SIZE: int := 64
  const NEW_BUCKETS_PER_ADDRESS: int := 8
  const HORIZON_DAYS: int := 7
  const RETRIES: int := 3
  const MAX_FAILURES: int := 10
  const MIN_FAIL_DAYS: int := 2
  const GETADDR_MAX_PCT: int := 23
  const GETADDR_MAX: int := 2500

  /** `CAddrInfo`. */
  datatype Info = Info(addr: Service, source: NetAddr, time: int, services: set<nat>, lastTry: int,
      lastCountAttempt: int,
                       lastSuccess: int, attempts: int, refCount: int, inTried: bool, randomPos: int)
  {
    predicate IsTerrible(now: int) {
      if lastTry != 0 && lastTry >= now - 60 then false
      else if time > now + 10 * 60 then true
      else if time == 0 || now - time > HORIZON_DAYS * 24 * 60 * 60 then true
      else if lastSuccess == 0 && attempts >= RETRIES then true
      else now - lastSuccess > MIN_FAIL_DAYS * 24 * 60 * 60 && attempts >= MAX_FAILURES
    }

    /** Where the entry belongs and how the tables count it; its place in vRandom may differ. */
    predicate SamePlace(i: Info) {
      addr == i.addr && source == i.source && refCount == i.refCount && inTried == i.inTried
    }
  }

  type Slot = (int, int)

  /** The secret key, as the three hash functions it selects. */
  datatype Key = Key(tried: Service -> int, fresher: (Service, NetAddr) -> int, place: (Service, bool, int) -> int)
  {
    function TriedBucket(a: Service): (b: int)
      ensures 0 <= b < TRIED_BUCKET_COUNT
    {
      tried(a) % TRIED_BUCKET_COUNT
    }

    function NewBucket(a: Service, source: NetAddr): (b: int)
      ensures 0 <= b < NEW_BUCKET_COUNT
    {
      fresher(a, source) % NEW_BUCKET_COUNT
    }

    function Position(a: Service, isNew: bool, bucket: int): (p: int)
      ensures 0 <= p < BUCKET_SIZE
    {
      place(a, isNew, bucket) % BUCKET_SIZE
    }

    function TriedSlot(a: Service): Slot {
      (TriedBucket(a), Position(a, false, TriedBucket(a)))
    }

    function NewSlot(a: Service, bucket: int): Slot {
      (bucket, Position(a, true, bucket))
    }
  }

  datatype State = State(
    key: Key,
    idCount: int,
    info: map<int, Info>,
    addrs: map<NetAddr, int>,
    random: seq<int>,
    nTried: int,
    tried: map<Slot, int>,
    nNew: int,
    news: map<Slot, int>,
    lastGood: int)

  // ---------------------------------------------------------------- the consistency check

  predicate RandomOk(s: State) {
    && (forall id :: id in s.info ==> 0 <= s.info[id].randomPos < |s.random| && s.random[s.info[id].randomPos] == id)
    && (forall i :: 0 <= i < |s.random| ==> s.random[i] in s.info && s.info[s.random[i]].randomPos == i)
  }

  predicate AddrsOk(s: State) {
    && s.idCount >= 0
    && (forall id :: id in s.info ==>
         0 <= id < s.idCount && s.info[id].addr.ip in s.addrs && s.addrs[s.info[id].addr.ip] == id)
    && (forall a :: a in s.addrs ==> s.addrs[a] in s.info && s.info[s.addrs[a]].addr.ip == a)
  }

  predicate NewsOk(s: State) {
    forall t :: t in s.news ==>
      s.news[t] in s.info && !s.info[s.news[t]].inTried && 0 <= t.0 < NEW_BUCKET_COUNT
          && t == s.key.NewSlot(s.info[s.news[t]].addr, t.0)
  }

  predicate TriedOk(s: State) {
    && (forall t :: t in s.tried ==>
          s.tried[t] in s.info && s.info[s.tried[t]].inTried && t == s.key.TriedSlot(s.info[s.tried[t]].addr))
    && (forall id :: id in s.info && s.info[id].inTried ==>
          s.key.TriedSlot(s.info[id].addr) in s.tried && s.tried[s.key.TriedSlot(s.info[id].addr)] == id)
  }

  function SlotsOf(news: map<Slot, int>, id: int): set<Slot> {
    set t | t in news && news[t] == id
  }

  /** The reference count is the number of new slots, at most eight; only an exempt new entry may have none. */
  predicate RefOk(i: Info, slots: nat, exempt: bool) {
    && i.refCount == slots && i.refCount <= NEW_BUCKETS_PER_ADDRESS
    && (i.inTried ==> i.refCount == 0)
    && (!i.inTried && !exempt ==> i.refCount > 0)
  }

  predicate RefsOk(s: State, limbo: set<int>) {
    forall id :: id in s.info ==> RefOk(s.info[id], |SlotsOf(s.news, id)|, id in limbo)
  }

  predicate TimesOk(s: State) {
    forall id :: id in s.info ==>
      s.info[id].lastTry >= 0 && s.info[id].lastSuccess >= 0 && (s.info[id].inTried ==> s.info[id].lastSuccess != 0)
  }

  function TriedIds(s: State): set<int> {
    set id | id in s.info && s.info[id].inTried
  }

  function NewIds(s: State): set<int> {
    set id | id in s.info && !s.info[id].inTried
  }

  predicate Tables(s: State) {
    RandomOk(s) && AddrsOk(s) && NewsOk(s) && TriedOk(s)
  }

  predicate Counts(s: State, uncounted: int) {
    s.nTried == |TriedIds(s)| && s.nNew + uncounted == |NewIds(s)|
  }

  /** The state amid an operation: entries in `limbo` may be in no table, `uncounted` are missing from nNew. */
  predicate Midway(s: State, limbo: set<int>, uncounted: int) {
    Tables(s) && RefsOk(s, limbo) && Counts(s, uncounted)
  }

  /** What the operations rely on: everything Check_ tests, except for the times and the key. */
  predicate Sound(s: State) {
    Midway(s, {}, 0)
  }

  /** What Check_ tests, except for the key. */
  predicate Check(s: State) {
    Sound(s) && TimesOk(s)
  }

  /** Its first test, the length of vRandom, follows. */
  lemma {:induction false} RandomCovers(random: seq<int>, info: map<int, Info>)
    requires forall id :: id in info ==> 0 <= info[id].randomPos < |random| && random[info[id].randomPos] == id
    requires forall i :: 0 <= i < |random| ==> random[i] in info && info[random[i]].randomPos == i
    ensures |random| == |info|
    decreases |random|
  {
    if random == [] {
      assert forall id :: id !in info;
      assert info == map[];
    } else {
      var last := random[|random| - 1];
      var r, m := random[..|random| - 1], info - {last};
      RandomCovers(r, m);
      assert |m| == |info| - 1;
    }
  }

  lemma SplitIds(s: State)
    ensures |TriedIds(s)| + |NewIds(s)| == |s.info|
  {
    assert TriedIds(s) + NewIds(s) == s.info.Keys && TriedIds(s) !! NewIds(s);
    assert |TriedIds(s) + NewIds(s)| == |TriedIds(s)| + |NewIds(s)|;
  }

  lemma CheckSize(s: State)
    requires RandomOk(s) && Counts(s, 0)
    ensures |s.random| == s.nTried + s.nNew
  {
    RandomCovers(s.random, s.info);
    SplitIds(s);
  }

  // ---------------------------------------------------------------- building blocks

  function Create(s: State, addr: Service, time: int, services: set<nat>, source: NetAddr): State {
    var id := s.idCount;
    s.(idCount := id + 1,
       info := s.info[id := Info(addr, source, time, services, 0, 0, 0, 0, 0, false, |s.random|)],
       addrs := s.addrs[addr.ip := id],
       random := s.random + [id])
  }

  function SwapRandom(s: State, i: nat, j: nat): State
    requires i < |s.random| && j < |s.random| && s.random[i] in s.info && s.random[j] in s.info
  {
    if i == j then s
    else
      var a, b := s.random[i], s.random[j];
      var info := s.info[a := s.info[a].(randomPos := j)];
      s.(info := info[b := info[b].(randomPos := i)], random := s.random[i := b][j := a])
  }

  /** Everything but where the entries stand in vRandom, and their statistics. */
  ghost predicate SameTables(s: State, s': State) {
    && s' == s.(info := s'.info, random := s'.random, lastGood := s'.lastGood)
    && (forall id :: id in s.info ==> id in s'.info && s'.info[id].SamePlace(s.info[id]))
    && (forall id :: id in s'.info ==> id in s.info)
  }

  lemma SameTablesOk(s: State, s': State)
    requires AddrsOk(s) && NewsOk(s) && TriedOk(s) && SameTables(s, s')
    ensures AddrsOk(s') && NewsOk(s') && TriedOk(s')
  {
    forall a | a in s'.addrs
      ensures s'.addrs[a] in s'.info && s'.info[s'.addrs[a]].addr.ip == a
    {
      SamePlaced(s, s', s.addrs[a]);
    }
    forall t | t in s'.news
      ensures s'.news[t] in s'.info && !s'.info[s'.news[t]].inTried
              && t == s'.key.NewSlot(s'.info[s'.news[t]].addr, t.0)
    {
      SamePlaced(s, s', s.news[t]);
    }
    forall t | t in s'.tried
      ensures s'.tried[t] in s'.info && s'.info[s'.tried[t]].inTried && t == s'.key.TriedSlot(s'.info[s'.tried[t]].addr)
    {
      SamePlaced(s, s', s.tried[t]);
    }
  }

  lemma SameTablesCounts(s: State, s': State, limbo: set<int>, uncounted: int)
    requires RefsOk(s, limbo) && Counts(s, uncounted) && SameTables(s, s')
    ensures RefsOk(s', limbo) && Counts(s', uncounted)
  {
    forall id
      ensures id in TriedIds(s') <==> id in TriedIds(s)
      ensures id in NewIds(s') <==> id in NewIds(s)
    {
      SamePlaced(s, s', id);
    }
    assert TriedIds(s') == TriedIds(s) && NewIds(s') == NewIds(s);
  }

  lemma SameTablesKeeps(s: State, s': State, limbo: set<int>, uncounted: int)
    requires Midway(s, limbo, uncounted) && SameTables(s, s') && RandomOk(s')
    ensures Midway(s', limbo, uncounted)
  {
    SameTablesOk(s, s');
    SameTablesCounts(s, s', limbo, uncounted);
  }

  lemma SamePlaced(s: State, s': State, id: int)
    requires SameTables(s, s')
    ensures id in s.info <==> id in s'.info
    ensures id in s.info ==> s'.info[id].SamePlace(s.info[id])
  {
  }

  /** What a swap does to each entry. */
  lemma SwapEntry(s: State, i: nat, j: nat, id: int)
    requires i < |s.random| && j < |s.random| && s.random[i] in s.info && s.random[j] in s.info
    requires i != j ==> s.random[i] != s.random[j]
    requires i == j ==> s.info[s.random[i]].randomPos == i
    ensures var s' := SwapRandom(s, i, j);
            && (id in s'.info <==> id in s.info)
            && (id in s.info ==>
                  s'.info[id] == s.info[id].(randomPos := if id == s.random[i] then j else if id == s.random[j]
                      then i else s.info[id].randomPos))
  {
  }

  lemma SwapSameTables(s: State, i: nat, j: nat)
    requires RandomOk(s) && i < |s.random| && j < |s.random|
    ensures SameTables(s, SwapRandom(s, i, j)) && (TimesOk(s) ==> TimesOk(SwapRandom(s, i, j)))
  {
    var s' := SwapRandom(s, i, j);
    forall id
      ensures id in s'.info <==> id in s.info
      ensures id in s.info ==> s'.info[id].SamePlace(s.info[id])
      ensures id in s.info ==>
              s'.info[id].lastTry == s.info[id].lastTry && s'.info[id].lastSuccess == s.info[id].lastSuccess
    {
      SwapEntry(s, i, j, id);
    }
  }

  lemma SwapRandomOk(s: State, i: nat, j: nat)
    requires RandomOk(s) && i < |s.random| && j < |s.random|
    ensures RandomOk(SwapRandom(s, i, j))
  {
    var s' := SwapRandom(s, i, j);
    forall k | 0 <= k < |s'.random|
      ensures s'.random[k] in s'.info && s'.info[s'.random[k]].randomPos == k
    {
      SwapEntry(s, i, j, s'.random[k]);
    }
    forall id | id in s'.info
      ensures 0 <= s'.info[id].randomPos < |s'.random| && s'.random[s'.info[id].randomPos] == id
    {
      SwapEntry(s, i, j, id);
    }
  }

  lemma SwapKeeps(s: State, i: nat, j: nat, limbo: set<int>, uncounted: int)
    requires Midway(s, limbo, uncounted) && i < |s.random| && j < |s.random|
    ensures s.random[i] in s.info && s.random[j] in s.info
    ensures Midway(SwapRandom(s, i, j), limbo, uncounted) && SameTables(s, SwapRandom(s, i, j))
  {
    SwapRandomOk(s, i, j);
    SwapSameTables(s, i, j);
    SameTablesKeeps(s, SwapRandom(s, i, j), limbo, uncounted);
  }

  lemma CreateIndexOk(s: State, addr: Service, time: int, services: set<nat>, source: NetAddr)
    requires RandomOk(s) && AddrsOk(s) && addr.ip !in s.addrs
    ensures s.idCount !in s.info
    ensures RandomOk(Create(s, addr, time, services, source)) && AddrsOk(Create(s, addr, time, services, source))
  {
  }

  lemma CreateTablesOk(s: State, addr: Service, time: int, services: set<nat>, source: NetAddr)
    requires NewsOk(s) && TriedOk(s) && s.idCount !in s.info
    ensures var s' := Create(s, addr, time, services, source); NewsOk(s') && TriedOk(s')
  {
    var s' := Create(s, addr, time, services, source);
    forall id | id in s'.info && s'.info[id].inTried
      ensures s'.key.TriedSlot(s'.info[id].addr) in s'.tried && s'.tried[s'.key.TriedSlot(s'.info[id].addr)] == id
    {
      assert id in s.info;
    }
  }

  lemma CreateRefsOk(s: State, addr: Service, time: int, services: set<nat>, source: NetAddr)
    requires NewsOk(s) && RefsOk(s, {}) && s.idCount !in s.info
    ensures RefsOk(Create(s, addr, time, services, source), {s.idCount})
  {
    assert SlotsOf(s.news, s.idCount) == {};
  }

  lemma CreateCounts(s: State, addr: Service, time: int, services: set<nat>, source: NetAddr)
    requires Counts(s, 0) && s.idCount !in s.info
    ensures Counts(Create(s, addr, time, services, source), 1)
  {
    var s' := Create(s, addr, time, services, source);
    assert NewIds(s') == NewIds(s) + {s.idCount} && TriedIds(s') == TriedIds(s);
  }

  lemma CreateKeeps(s: State, addr: Service, time: int, services: set<nat>, source: NetAddr)
    requires Sound(s) && addr.ip !in s.addrs
    ensures s.idCount !in s.info && Midway(Create(s, addr, time, services, source), {s.idCount}, 1)
  {
    CreateIndexOk(s, addr, time, services, source);
    CreateTablesOk(s, addr, time, services, source);
    CreateRefsOk(s, addr, time, services, source);
    CreateCounts(s, addr, time, services, source);
  }

  /** The end of Delete: forget the entry that is now last in vRandom. */
  function RemoveLast(s: State): State
    requires s.random != [] && s.random[|s.random| - 1] in s.info
  {
    var id := s.random[|s.random| - 1];
    s.(random := s.random[..|s.random| - 1], addrs := s.addrs - {s.info[id].addr.ip}, info := s.info - {id},
        nNew := s.nNew - 1)
  }

  function Delete(s: State, id: int): State
    requires RandomOk(s) && id in s.info
  {
    SwapRandomOk(s, s.info[id].randomPos, |s.random| - 1);
    RemoveLast(SwapRandom(s, s.info[id].randomPos, |s.random| - 1))
  }

  lemma RemoveLastIndexOk(s: State)
    requires RandomOk(s) && AddrsOk(s) && s.random != []
    ensures RandomOk(RemoveLast(s)) && AddrsOk(RemoveLast(s))
  {
    var s', id := RemoveLast(s), s.random[|s.random| - 1];
    forall k | 0 <= k < |s'.random|
      ensures s'.random[k] in s'.info && s'.info[s'.random[k]].randomPos == k
    {
      assert s.random[k] != id;
    }
    forall a | a in s'.addrs
      ensures s'.addrs[a] in s'.info && s'.info[s'.addrs[a]].addr.ip == a
    {
      var x := s.addrs[a];
      assert x in s.info && x != id;
    }
  }

  lemma RemoveLastTablesOk(s: State)
    requires s.random != [] && s.random[|s.random| - 1] in s.info
    requires NewsOk(s) && TriedOk(s)
    requires var id := s.random[|s.random| - 1]; !s.info[id].inTried && SlotsOf(s.news, id) == {}
    ensures NewsOk(RemoveLast(s)) && TriedOk(RemoveLast(s))
  {
    var s', id := RemoveLast(s), s.random[|s.random| - 1];
    forall t | t in s'.news
      ensures s'.news[t] in s'.info && s'.info[s'.news[t]] == s.info[s.news[t]]
    {
      var x := s.news[t];
      assert x in s.info && t !in SlotsOf(s.news, id);
    }
    forall t | t in s'.tried
      ensures s'.tried[t] in s'.info && s'.info[s'.tried[t]] == s.info[s.tried[t]]
    {
      var x := s.tried[t];
      assert x in s.info && x != id;
    }
    forall x | x in s'.info && s'.info[x].inTried
      ensures s'.key.TriedSlot(s'.info[x].addr) in s'.tried && s'.tried[s'.key.TriedSlot(s'.info[x].addr)] == x
    {
      assert x in s.info;
    }
  }

  lemma RemoveLastCounts(s: State, limbo: set<int>, uncounted: int)
    requires s.random != [] && s.random[|s.random| - 1] in s.info && !s.info[s.random[|s.random| - 1]].inTried
    requires RefsOk(s, limbo) && Counts(s, uncounted)
    ensures RefsOk(RemoveLast(s), limbo) && Counts(RemoveLast(s), uncounted)
  {
    var s', id := RemoveLast(s), s.random[|s.random| - 1];
    assert NewIds(s') == NewIds(s) - {id} && TriedIds(s') == TriedIds(s);
    assert id in NewIds(s);
  }

  lemma RemoveLastKeeps(s: State, limbo: set<int>, uncounted: int)
    requires Midway(s, limbo, uncounted) && s.random != []
    requires s.random[|s.random| - 1] in s.info
    requires var id := s.random[|s.random| - 1]; !s.info[id].inTried && s.info[id].refCount == 0
    ensures Midway(RemoveLast(s), limbo, uncounted)
  {
    RemoveLastIndexOk(s);
    RemoveLastTablesOk(s);
    RemoveLastCounts(s, limbo, uncounted);
  }

  /** The entries other than `gone` are the same up to their place in vRandom, and so are the tables. */
  ghost predicate OthersKept(s: State, s': State, gone: set<int>) {
    && s'.key == s.key && s'.tried == s.tried && s'.nTried == s.nTried && s'.idCount == s.idCount
       && s'.lastGood == s.lastGood
    && (forall id :: id in s.info && id !in gone ==>
          id in s'.info && s'.info[id] == s.info[id].(randomPos := s'.info[id].randomPos))
    && (forall id :: id in s'.info ==> id in s.info && id !in gone)
  }

  lemma DeleteOthers(s: State, id: int)
    requires RandomOk(s) && id in s.info
    ensures OthersKept(s, Delete(s, id), {id}) && Delete(s, id).news == s.news
  {
    var p, last := s.info[id].randomPos, |s.random| - 1;
    var s' := Delete(s, id);
    SwapEntry(s, p, last, id);
    forall x
      ensures x in s.info && x != id ==> x in s'.info && s'.info[x] == s.info[x].(randomPos := s'.info[x].randomPos)
      ensures x in s'.info ==> x in s.info && x != id
    {
      SwapEntry(s, p, last, x);
    }
  }

  /** The first step of Delete puts the entry last. */
  lemma PutLast(s: State, id: int) returns (s1: State)
    requires RandomOk(s) && id in s.info
    ensures RandomOk(s1) && SameTables(s, s1) && s1.random != [] && s1.random[|s1.random| - 1] == id
    ensures Delete(s, id) == RemoveLast(s1)
  {
    var p, last := s.info[id].randomPos, |s.random| - 1;
    s1 := SwapRandom(s, p, last);
    SwapEntry(s, p, last, id);
    SwapRandomOk(s, p, last);
    SwapSameTables(s, p, last);
  }

  lemma RemovedKeeps(s: State, s1: State, id: int, limbo: set<int>, uncounted: int)
    requires Midway(s, limbo, uncounted) && id in s.info && !s.info[id].inTried && s.info[id].refCount == 0
    requires RandomOk(s1) && SameTables(s, s1) && s1.random != [] && s1.random[|s1.random| - 1] == id
    ensures Midway(RemoveLast(s1), limbo, uncounted)
  {
    SameTablesKeeps(s, s1, limbo, uncounted);
    SamePlaced(s, s1, id);
    RemoveLastKeeps(s1, limbo, uncounted);
  }

  lemma DeleteKeeps(s: State, id: int, limbo: set<int>, uncounted: int)
    requires Midway(s, limbo, uncounted) && id in s.info && !s.info[id].inTried && s.info[id].refCount == 0
    ensures Midway(Delete(s, id), limbo, uncounted)
  {
    var s1 := PutLast(s, id);
    RemovedKeeps(s, s1, id, limbo, uncounted);
  }

  // ---------------------------------------------------------------- slots of the new table

  lemma SlotsPut(news: map<Slot, int>, t: Slot, id: int, x: int)
    requires t !in news
    ensures SlotsOf(news[t := id], x) == if x == id then SlotsOf(news, x) + {t} else SlotsOf(news, x)
    ensures |SlotsOf(news[t := id], x)| == |SlotsOf(news, x)| + if x == id then 1 else 0
  {
  }

  lemma SlotsErase(news: map<Slot, int>, t: Slot, x: int)
    requires t in news
    ensures SlotsOf(news - {t}, x) == if x == news[t] then SlotsOf(news, x) - {t} else SlotsOf(news, x)
    ensures |SlotsOf(news - {t}, x)| == |SlotsOf(news, x)| - if x == news[t] then 1 else 0
  {
    assert t in SlotsOf(news, news[t]);
  }

  function SetInfo(s: State, id: int, i: Info): State {
    s.(info := s.info[id := i])
  }

  /** One slot less for the entry in it. */
  function Unlink(s: State, t: Slot): State
    requires t in s.news && s.news[t] in s.info
  {
    var id := s.news[t];
    SetInfo(s, id, s.info[id].(refCount := s.info[id].refCount - 1)).(news := s.news - {t})
  }

  /** One slot more. */
  function Link(s: State, id: int, t: Slot): State
    requires id in s.info
  {
    SetInfo(s, id, s.info[id].(refCount := s.info[id].refCount + 1)).(news := s.news[t := id])
  }

  /** Changing only an entry's count, its table flag or its statistics leaves the indexes alone. */
  lemma IndexOk(s: State, s': State, id: int, i: Info)
    requires RandomOk(s) && AddrsOk(s) && id in s.info && i.addr == s.info[id].addr
             && i.randomPos == s.info[id].randomPos
    requires s'.info == s.info[id := i] && s'.random == s.random && s'.addrs == s.addrs && s'.idCount == s.idCount
    ensures RandomOk(s') && AddrsOk(s')
  {
    forall k | 0 <= k < |s'.random|
      ensures s'.random[k] in s'.info && s'.info[s'.random[k]].randomPos == k
    {
      var x := s.random[k];
      assert x in s.info;
    }
    forall a | a in s'.addrs
      ensures s'.addrs[a] in s'.info && s'.info[s'.addrs[a]].addr.ip == a
    {
      var x := s.addrs[a];
      assert x in s.info;
    }
  }

  /** ... and the tables, if the flag stays too and only slots of the same kind come or go. */
  lemma NewTablesOk(s: State, s': State, id: int, i: Info)
    requires NewsOk(s) && TriedOk(s) && id in s.info
    requires i.addr == s.info[id].addr && i.inTried == s.info[id].inTried
    requires s'.key == s.key && s'.info == s.info[id := i] && s'.tried == s.tried
    requires forall t :: t in s'.news ==>
               (t in s.news && s'.news[t] == s.news[t])
               || (s'.news[t] == id && !i.inTried && 0 <= t.0 < NEW_BUCKET_COUNT && t == s.key.NewSlot(i.addr, t.0))
    ensures NewsOk(s') && TriedOk(s')
  {
    forall t | t in s'.news
      ensures s'.news[t] in s'.info && !s'.info[s'.news[t]].inTried && 0 <= t.0 < NEW_BUCKET_COUNT
      ensures t == s'.key.NewSlot(s'.info[s'.news[t]].addr, t.0)
    {
      var x := s'.news[t];
      assert x in s.info;
    }
    forall t | t in s'.tried
      ensures s'.tried[t] in s'.info && s'.info[s'.tried[t]].inTried && t == s'.key.TriedSlot(s'.info[s'.tried[t]].addr)
    {
      var x := s.tried[t];
      assert x in s.info;
    }
    forall x | x in s'.info && s'.info[x].inTried
      ensures s'.key.TriedSlot(s'.info[x].addr) in s'.tried && s'.tried[s'.key.TriedSlot(s'.info[x].addr)] == x
    {
      assert x in s.info && s.info[x].inTried;
    }
  }

  lemma SameIds(s: State, s': State, id: int, i: Info, uncounted: int)
    requires id in s.info && i.inTried == s.info[id].inTried && s'.info == s.info[id := i]
    requires Counts(s, uncounted) && s'.nTried == s.nTried && s'.nNew == s.nNew
    ensures Counts(s', uncounted)
  {
    assert TriedIds(s') == TriedIds(s) && NewIds(s') == NewIds(s);
  }

  lemma UnlinkTables(s: State, t: Slot)
    requires Tables(s) && t in s.news
    ensures s.news[t] in s.info && Tables(Unlink(s, t))
  {
    var id := s.news[t];
    var i := s.info[id].(refCount := s.info[id].refCount - 1);
    IndexOk(s, Unlink(s, t), id, i);
    NewTablesOk(s, Unlink(s, t), id, i);
  }

  lemma UnlinkRefs(s: State, t: Slot, limbo: set<int>)
    requires RefsOk(s, limbo) && t in s.news && s.news[t] in s.info && !s.info[s.news[t]].inTried
    ensures s.info[s.news[t]].refCount > 0 && RefsOk(Unlink(s, t), limbo + {s.news[t]})
  {
    var s' := Unlink(s, t);
    SlotsErase(s.news, t, s.news[t]);
    forall x | x in s'.info
      ensures RefOk(s'.info[x], |SlotsOf(s'.news, x)|, x in limbo + {s.news[t]})
    {
      SlotsErase(s.news, t, x);
    }
  }

  lemma UnlinkKeeps(s: State, t: Slot, limbo: set<int>, uncounted: int)
    requires Midway(s, limbo, uncounted) && t in s.news
    ensures s.news[t] in s.info && !s.info[s.news[t]].inTried && s.info[s.news[t]].refCount > 0
    ensures Midway(Unlink(s, t), limbo + {s.news[t]}, uncounted)
  {
    var id := s.news[t];
    UnlinkTables(s, t);
    UnlinkRefs(s, t, limbo);
    SameIds(s, Unlink(s, t), id, s.info[id].(refCount := s.info[id].refCount - 1), uncounted);
  }

  lemma LinkTables(s: State, id: int, t: Slot)
    requires Tables(s) && id in s.info && !s.info[id].inTried
    requires 0 <= t.0 < NEW_BUCKET_COUNT && t == s.key.NewSlot(s.info[id].addr, t.0)
    ensures Tables(Link(s, id, t))
  {
    var i := s.info[id].(refCount := s.info[id].refCount + 1);
    IndexOk(s, Link(s, id, t), id, i);
    NewTablesOk(s, Link(s, id, t), id, i);
  }

  lemma LinkRefs(s: State, id: int, t: Slot, limbo: set<int>)
    requires RefsOk(s, limbo) && id in s.info && t !in s.news && !s.info[id].inTried
    requires s.info[id].refCount < NEW_BUCKETS_PER_ADDRESS
    ensures RefsOk(Link(s, id, t), limbo - {id})
  {
    var s' := Link(s, id, t);
    forall x | x in s'.info
      ensures RefOk(s'.info[x], |SlotsOf(s'.news, x)|, x in limbo - {id})
    {
      SlotsPut(s.news, t, id, x);
    }
  }

  lemma LinkKeeps(s: State, id: int, t: Slot, limbo: set<int>, uncounted: int)
    requires Midway(s, limbo, uncounted) && id in s.info && t !in s.news && !s.info[id].inTried
    requires s.info[id].refCount < NEW_BUCKETS_PER_ADDRESS
    requires 0 <= t.0 < NEW_BUCKET_COUNT && t == s.key.NewSlot(s.info[id].addr, t.0)
    ensures Midway(Link(s, id, t), limbo - {id}, uncounted)
  {
    LinkTables(s, id, t);
    LinkRefs(s, id, t, limbo);
    SameIds(s, Link(s, id, t), id, s.info[id].(refCount := s.info[id].refCount + 1), uncounted);
  }

  lemma LimboShrinks(s: State, limbo: set<int>, id: int, uncounted: int)
    requires Midway(s, limbo + {id}, uncounted)
    requires id in s.info ==> s.info[id].refCount > 0 || s.info[id].inTried
    ensures Midway(s, limbo, uncounted)
  {
  }

  lemma UnlinkRandomOk(s: State, t: Slot)
    requires Tables(s) && t in s.news
    ensures s.news[t] in s.info && RandomOk(Unlink(s, t))
  {
    var id := s.news[t];
    IndexOk(s, Unlink(s, t), id, s.info[id].(refCount := s.info[id].refCount - 1));
  }

  /** ClearNew: empty a slot, and delete the entry that was in it if that was its last one. */
  function ClearNew(s: State, t: Slot): State
    requires Tables(s)
  {
    if t !in s.news then s
    else
      UnlinkRandomOk(s, t);
      var id := s.news[t];
      var s1 := Unlink(s, t);
      if s1.info[id].refCount == 0 then Delete(s1, id) else s1
  }

  lemma ClearKeeps(s: State, t: Slot, limbo: set<int>, uncounted: int)
    requires Midway(s, limbo, uncounted)
    ensures Midway(ClearNew(s, t), limbo, uncounted)
  {
    if t in s.news {
      UnlinkKeeps(s, t, limbo, uncounted);
      var id := s.news[t];
      var s1 := Unlink(s, t);
      if s1.info[id].refCount == 0 {
        DeleteKeeps(s1, id, limbo + {id}, uncounted);
        DeleteOthers(s1, id);
      }
      LimboShrinks(ClearNew(s, t), limbo, id, uncounted);
    }
  }

  /** Only the entry in the slot is touched; the slot is empty afterwards, the others stay. */
  lemma ClearOthers(s: State, t: Slot)
    requires Tables(s)
    ensures var s' := ClearNew(s, t);
            && s'.news == s.news - {t}
            && s'.key == s.key && s'.tried == s.tried && s'.nTried == s.nTried && s'.idCount == s.idCount
               && s'.lastGood == s.lastGood
            && (forall id :: id in s.info && (t in s.news ==> id != s.news[t]) ==>
                  id in s'.info && s'.info[id] == s.info[id].(randomPos := s'.info[id].randomPos))
            && (forall id :: id in s'.info ==> id in s.info)
  {
    if t in s.news {
      UnlinkRandomOk(s, t);
      var id := s.news[t];
      var s1 := Unlink(s, t);
      if s1.info[id].refCount == 0 {
        DeleteOthers(s1, id);
      }
    } else {
      assert s.news - {t} == s.news;
    }
  }

  /** The first loop of MakeTried: the entry leaves all its new slots. */
  function DropNew(s: State, id: int): State
    requires id in s.info
  {
    SetInfo(s, id, s.info[id].(refCount := 0)).(news := map t | t in s.news && s.news[t] != id :: s.news[t])
  }

  lemma DropRefs(s: State, id: int, limbo: set<int>)
    requires RefsOk(s, limbo) && id in s.info && !s.info[id].inTried
    ensures RefsOk(DropNew(s, id), limbo + {id}) && SlotsOf(DropNew(s, id).news, id) == {}
  {
    var s' := DropNew(s, id);
    forall x | x in s'.info
      ensures RefOk(s'.info[x], |SlotsOf(s'.news, x)|, x in limbo + {id})
    {
      assert SlotsOf(s'.news, x) == if x == id then {} else SlotsOf(s.news, x);
    }
  }

  lemma DropKeeps(s: State, id: int, limbo: set<int>, uncounted: int)
    requires Midway(s, limbo, uncounted) && id in s.info && !s.info[id].inTried
    ensures Midway(DropNew(s, id), limbo + {id}, uncounted)
  {
    var i := s.info[id].(refCount := 0);
    IndexOk(s, DropNew(s, id), id, i);
    NewTablesOk(s, DropNew(s, id), id, i);
    DropRefs(s, id, limbo);
    SameIds(s, DropNew(s, id), id, i, uncounted);
  }

  /** An entry leaves the tried table. */
  function Evict(s: State, t: Slot): State
    requires t in s.tried && s.tried[t] in s.info
  {
    var id := s.tried[t];
    SetInfo(s, id, s.info[id].(inTried := false)).(tried := s.tried - {t}, nTried := s.nTried - 1)
  }

  lemma EvictTablesOk(s: State, t: Slot)
    requires NewsOk(s) && TriedOk(s) && t in s.tried
    ensures s.tried[t] in s.info && NewsOk(Evict(s, t)) && TriedOk(Evict(s, t))
  {
    var s', id := Evict(s, t), s.tried[t];
    forall u | u in s'.news
      ensures s'.news[u] in s'.info && !s'.info[s'.news[u]].inTried
              && u == s'.key.NewSlot(s'.info[s'.news[u]].addr, u.0)
    {
      var x := s.news[u];
      assert x in s.info;
    }
    forall u | u in s'.tried
      ensures s'.tried[u] in s'.info && s'.info[s'.tried[u]].inTried && u == s'.key.TriedSlot(s'.info[s'.tried[u]].addr)
    {
      var x := s.tried[u];
      assert x in s.info;
    }
    forall x | x in s'.info && s'.info[x].inTried
      ensures s'.key.TriedSlot(s'.info[x].addr) in s'.tried && s'.tried[s'.key.TriedSlot(s'.info[x].addr)] == x
    {
      assert x in s.info && x != id;
    }
  }

  lemma EvictTables(s: State, t: Slot)
    requires Tables(s) && t in s.tried
    ensures s.tried[t] in s.info && Tables(Evict(s, t))
  {
    EvictTablesOk(s, t);
    var id := s.tried[t];
    IndexOk(s, Evict(s, t), id, s.info[id].(inTried := false));
  }

  lemma EvictRefs(s: State, t: Slot, limbo: set<int>)
    requires RefsOk(s, limbo) && t in s.tried && s.tried[t] in s.info && s.info[s.tried[t]].inTried
    ensures RefsOk(Evict(s, t), limbo + {s.tried[t]}) && Evict(s, t).info[s.tried[t]].refCount == 0
  {
  }

  lemma EvictCounts(s: State, t: Slot, uncounted: int)
    requires Counts(s, uncounted) && t in s.tried && s.tried[t] in s.info && s.info[s.tried[t]].inTried
    ensures Counts(Evict(s, t), uncounted + 1)
  {
    var s', id := Evict(s, t), s.tried[t];
    assert TriedIds(s') == TriedIds(s) - {id} && NewIds(s') == NewIds(s) + {id};
    assert id in TriedIds(s) && id !in NewIds(s);
  }

  lemma EvictKeeps(s: State, t: Slot, limbo: set<int>, uncounted: int)
    requires Midway(s, limbo, uncounted) && t in s.tried
    ensures s.tried[t] in s.info && Midway(Evict(s, t), limbo + {s.tried[t]}, uncounted + 1)
  {
    EvictTables(s, t);
    EvictRefs(s, t, limbo);
    EvictCounts(s, t, uncounted);
  }

  /** An entry enters the tried table. */
  function PutTried(s: State, id: int): State
    requires id in s.info
  {
    var t := s.key.TriedSlot(s.info[id].addr);
    SetInfo(s, id, s.info[id].(inTried := true)).(tried := s.tried[t := id], nTried := s.nTried + 1)
  }

  lemma PutTriedTablesOk(s: State, id: int)
    requires NewsOk(s) && TriedOk(s) && id in s.info && !s.info[id].inTried
    requires s.key.TriedSlot(s.info[id].addr) !in s.tried && SlotsOf(s.news, id) == {}
    ensures NewsOk(PutTried(s, id)) && TriedOk(PutTried(s, id))
  {
    var s' := PutTried(s, id);
    forall u | u in s'.news
      ensures s'.news[u] in s'.info && !s'.info[s'.news[u]].inTried
              && u == s'.key.NewSlot(s'.info[s'.news[u]].addr, u.0)
    {
      var x := s.news[u];
      assert x in s.info && u !in SlotsOf(s.news, id);
    }
    forall u | u in s'.tried
      ensures s'.tried[u] in s'.info && s'.info[s'.tried[u]].inTried && u == s'.key.TriedSlot(s'.info[s'.tried[u]].addr)
    {
      var x := s'.tried[u];
      assert x in s.info;
    }
    forall x | x in s'.info && s'.info[x].inTried
      ensures s'.key.TriedSlot(s'.info[x].addr) in s'.tried && s'.tried[s'.key.TriedSlot(s'.info[x].addr)] == x
    {
      assert x in s.info;
    }
  }

  lemma PutTriedCounts(s: State, id: int, limbo: set<int>, uncounted: int)
    requires RefsOk(s, limbo) && Counts(s, uncounted) && id in s.info && !s.info[id].inTried && s.info[id].refCount == 0
    ensures RefsOk(PutTried(s, id), limbo - {id}) && Counts(PutTried(s, id), uncounted - 1)
  {
    var s' := PutTried(s, id);
    assert TriedIds(s') == TriedIds(s) + {id} && NewIds(s') == NewIds(s) - {id};
    assert id !in TriedIds(s) && id in NewIds(s);
  }

  lemma PutTriedKeeps(s: State, id: int, limbo: set<int>, uncounted: int)
    requires Midway(s, limbo, uncounted) && id in s.info && !s.info[id].inTried
    requires s.key.TriedSlot(s.info[id].addr) !in s.tried && s.info[id].refCount == 0
    ensures Midway(PutTried(s, id), limbo - {id}, uncounted - 1)
  {
    PutTriedTablesOk(s, id);
    IndexOk(s, PutTried(s, id), id, s.info[id].(inTried := true));
    PutTriedCounts(s, id, limbo, uncounted);
  }

  // ---------------------------------------------------------------- times

  /** Entries come from `s` with their times, and none has become tried. */
  ghost predicate TimesFrom(s: State, s': State) {
    forall id :: id in s'.info ==>
      id in s.info && s'.info[id].lastTry == s.info[id].lastTry && s'.info[id].lastSuccess == s.info[id].lastSuccess
      && (s'.info[id].inTried ==> s.info[id].inTried)
  }

  lemma TimesTrans(s: State, s1: State, s2: State)
    requires TimesFrom(s, s1) && TimesFrom(s1, s2)
    ensures TimesFrom(s, s2)
  {
  }

  lemma TimesKept(s: State, s': State)
    requires TimesOk(s) && TimesFrom(s, s')
    ensures TimesOk(s')
  {
  }

  lemma DeleteTimes(s: State, id: int)
    requires RandomOk(s) && id in s.info
    ensures TimesFrom(s, Delete(s, id))
  {
    DeleteOthers(s, id);
  }

  lemma ClearTimes(s: State, t: Slot)
    requires Tables(s)
    ensures TimesFrom(s, ClearNew(s, t))
  {
    if t in s.news {
      UnlinkRandomOk(s, t);
      var s1 := Unlink(s, t);
      if s1.info[s.news[t]].refCount == 0 {
        DeleteTimes(s1, s.news[t]);
        TimesTrans(s, s1, ClearNew(s, t));
      }
    }
  }

  // ---------------------------------------------------------------- MakeTried

  /** Where an entry evicted from the tried table goes. */
  function HomeSlot(s: State, id: int): Slot
    requires id in s.info
  {
    s.key.NewSlot(s.info[id].addr, s.key.NewBucket(s.info[id].addr, s.info[id].source))
  }

  /** Clearing the home slot of an entry without slots does not touch that entry. */
  lemma HomeFree(s: State, e: int)
    requires Tables(s) && e in s.info && SlotsOf(s.news, e) == {}
    ensures var s2 := ClearNew(s, HomeSlot(s, e));
            && e in s2.info && s2.info[e] == s.info[e].(randomPos := s2.info[e].randomPos)
            && s2.key == s.key && HomeSlot(s2, e) == HomeSlot(s, e) && HomeSlot(s, e) !in s2.news
  {
    var h := HomeSlot(s, e);
    ClearOthers(s, h);
    assert h in s.news ==> h !in SlotsOf(s.news, e);
  }

  /** The entry takes slot `h`, its only one, and is counted again. */
  function Relinked(s: State, e: int, h: Slot): State
    requires e in s.info
  {
    SetInfo(s, e, s.info[e].(refCount := 1)).(news := s.news[h := e], nNew := s.nNew + 1)
  }

  /** An entry without slots goes back to the new table, deleting whatever is in its home slot. */
  function SendHome(s: State, e: int): State
    requires Tables(s) && e in s.info && SlotsOf(s.news, e) == {}
  {
    HomeFree(s, e);
    Relinked(ClearNew(s, HomeSlot(s, e)), e, HomeSlot(s, e))
  }

  lemma CountLinked(s: State, e: int, limbo: set<int>, uncounted: int)
    requires Midway(s, limbo + {e} - {e}, uncounted + 1) && e !in limbo
    ensures Midway(s.(nNew := s.nNew + 1), limbo, uncounted)
  {
    assert limbo + {e} - {e} == limbo;
    CountOne(s, limbo, uncounted + 1);
  }

  lemma HomeLinked(s: State, e: int, h: Slot, limbo: set<int>, uncounted: int) returns (s1: State)
    requires Midway(s, limbo + {e}, uncounted + 1)
    requires e in s.info && !s.info[e].inTried && s.info[e].refCount == 0 && h == HomeSlot(s, e) && h !in s.news
    ensures Midway(s1, limbo + {e} - {e}, uncounted + 1) && s1.(nNew := s1.nNew + 1) == Relinked(s, e, h)
  {
    s1 := Link(s, e, h);
    assert s1.(nNew := s1.nNew + 1) == Relinked(s, e, h) by {
      LinkIsRelink(s, e, h);
    }
    LinkKeeps(s, e, h, limbo + {e}, uncounted + 1);
  }

  lemma LinkIsRelink(s: State, e: int, h: Slot)
    requires e in s.info && s.info[e].refCount == 0
    ensures Link(s, e, h).(nNew := s.nNew + 1) == Relinked(s, e, h)
  {
  }

  lemma RelinkKeeps(s: State, e: int, h: Slot, limbo: set<int>, uncounted: int)
    requires Midway(s, limbo + {e}, uncounted + 1) && e !in limbo
    requires e in s.info && !s.info[e].inTried && s.info[e].refCount == 0 && h == HomeSlot(s, e) && h !in s.news
    ensures Midway(Relinked(s, e, h), limbo, uncounted)
  {
    var s1 := HomeLinked(s, e, h, limbo, uncounted);
    CountLinked(s1, e, limbo, uncounted);
  }

  /** The home slot has been cleared: what is left to link. */
  lemma HomeCleared(s: State, e: int, limbo: set<int>, uncounted: int) returns (s2: State, h: Slot)
    requires Midway(s, limbo, uncounted)
    requires e in s.info && !s.info[e].inTried && s.info[e].refCount == 0 && SlotsOf(s.news, e) == {}
    ensures Midway(s2, limbo, uncounted) && e in s2.info && !s2.info[e].inTried && s2.info[e].refCount == 0
    ensures h == HomeSlot(s2, e) && h !in s2.news && SendHome(s, e) == Relinked(s2, e, h)
  {
    h := HomeSlot(s, e);
    s2 := ClearNew(s, h);
    HomeFree(s, e);
    ClearKeeps(s, h, limbo, uncounted);
  }

  lemma SendHomeKeeps(s: State, e: int, limbo: set<int>, uncounted: int)
    requires Midway(s, limbo + {e}, uncounted + 1) && e !in limbo
    requires e in s.info && !s.info[e].inTried && s.info[e].refCount == 0 && SlotsOf(s.news, e) == {}
    ensures Midway(SendHome(s, e), limbo, uncounted)
  {
    var s2, h := HomeCleared(s, e, limbo + {e}, uncounted + 1);
    RelinkKeeps(s2, e, h, limbo, uncounted);
  }

  /** An entry of the tried table has no new slot, so its home slot never evicts it itself. */
  lemma EvictedSurvives(s: State, t: Slot)
    requires Tables(s) && t in s.tried
    ensures s.tried[t] in s.info && Tables(Evict(s, t)) && SlotsOf(Evict(s, t).news, s.tried[t]) == {}
    ensures s.tried[t] in ClearNew(Evict(s, t), HomeSlot(Evict(s, t), s.tried[t])).info
  {
    EvictTables(s, t);
    var e := s.tried[t];
    if u :| u in SlotsOf(s.news, e) {
      var x := s.news[u];
      assert x in s.info && !s.info[x].inTried;
    }
    HomeFree(Evict(s, t), e);
  }

  /** Make space in a tried slot: its entry goes back to the new table. */
  function MakeSpace(s: State, t: Slot): State
    requires Tables(s) && t in s.tried
  {
    EvictedSurvives(s, t);
    SendHome(Evict(s, t), s.tried[t])
  }

  lemma EvictedReady(s: State, t: Slot, limbo: set<int>, uncounted: int) returns (s1: State)
    requires Midway(s, limbo, uncounted) && t in s.tried
    ensures s.tried[t] in s.info && s1 == Evict(s, t) && Midway(s1, limbo + {s.tried[t]}, uncounted + 1)
    ensures var e := s.tried[t];
            e in s1.info && !s1.info[e].inTried && s1.info[e].refCount == 0 && SlotsOf(s1.news, e) == {}
  {
    EvictKeeps(s, t, limbo, uncounted);
    EvictedSurvives(s, t);
    s1 := Evict(s, t);
  }

  lemma MakeSpaceKeeps(s: State, t: Slot, limbo: set<int>, uncounted: int)
    requires Midway(s, limbo, uncounted) && t in s.tried && s.tried[t] !in limbo
    ensures Midway(MakeSpace(s, t), limbo, uncounted)
  {
    var s1 := EvictedReady(s, t, limbo, uncounted);
    SendHomeKeeps(s1, s.tried[t], limbo, uncounted);
  }

  lemma CountOne(s: State, limbo: set<int>, uncounted: int)
    requires Midway(s, limbo, uncounted)
    ensures Midway(s.(nNew := s.nNew + 1), limbo, uncounted - 1) && Midway(s.(nNew := s.nNew - 1), limbo, uncounted + 1)
  {
    CountTables(s, s.nNew + 1);
    CountTables(s, s.nNew - 1);
  }

  lemma CountTables(s: State, n: int)
    ensures var s' := s.(nNew := n);
            && (Tables(s) ==> Tables(s')) && (forall limbo :: RefsOk(s, limbo) ==> RefsOk(s', limbo))
            && TriedIds(s') == TriedIds(s) && NewIds(s') == NewIds(s)
  {
  }

  /** Entries other than the evicted one keep everything but their place in vRandom; at most one other is lost. */
  lemma SendHomeOthers(s: State, e: int, id: int)
    requires Tables(s) && e in s.info && SlotsOf(s.news, e) == {} && id in s.info && id != e
             && SlotsOf(s.news, id) == {}
    ensures var s' := SendHome(s, e);
            && id in s'.info && s'.info[id] == s.info[id].(randomPos := s'.info[id].randomPos)
            && SlotsOf(s'.news, id) == {} && s'.key == s.key && s'.tried == s.tried
  {
    HomeFree(s, e);
    var h := HomeSlot(s, e);
    ClearOthers(s, h);
    assert h in s.news ==> h !in SlotsOf(s.news, id);
    var s' := SendHome(s, e);
    forall u | u in s'.news
      ensures s'.news[u] != id
    {
      assert u in s.news ==> u !in SlotsOf(s.news, id);
    }
  }

  lemma MakeSpaceOthers(s: State, t: Slot, id: int)
    requires Tables(s) && t in s.tried && id in s.info && id != s.tried[t] && SlotsOf(s.news, id) == {}
    ensures var s' := MakeSpace(s, t);
            && id in s'.info && s'.info[id] == s.info[id].(randomPos := s'.info[id].randomPos)
            && SlotsOf(s'.news, id) == {} && s'.key == s.key && t !in s'.tried
  {
    EvictedSurvives(s, t);
    SendHomeOthers(Evict(s, t), s.tried[t], id);
  }

  /** The entry has left the new table and is not counted there any more. */
  function LeaveNew(s: State, id: int): State
    requires id in s.info
  {
    DropNew(s, id).(nNew := s.nNew - 1)
  }

  lemma DropTables(s: State, id: int)
    requires Tables(s) && id in s.info && !s.info[id].inTried
    ensures Tables(LeaveNew(s, id)) && SlotsOf(LeaveNew(s, id).news, id) == {}
  {
    IndexOk(s, LeaveNew(s, id), id, s.info[id].(refCount := 0));
    NewTablesOk(s, LeaveNew(s, id), id, s.info[id].(refCount := 0));
  }

  lemma LeaveFacts(s: State, id: int)
    requires id in s.info
    ensures var s1 := LeaveNew(s, id);
            id in s1.info && s1.info[id] == s.info[id].(refCount := 0) && s1.key == s.key && s1.tried == s.tried
                && TimesFrom(s, s1)
  {
  }

  /** The entry's own tried slot is free or held by somebody else, who makes space. */
  function Vacated(s: State, id: int): (r: State)
    requires Tables(s) && id in s.info && !s.info[id].inTried && SlotsOf(s.news, id) == {}
    ensures id in r.info && r.info[id] == s.info[id].(randomPos := r.info[id].randomPos)
    ensures r.key.TriedSlot(r.info[id].addr) !in r.tried
  {
    var t := s.key.TriedSlot(s.info[id].addr);
    if t in s.tried then
      assert s.tried[t] != id;
      MakeSpaceOthers(s, t, id);
      MakeSpace(s, t)
    else s
  }

  function MakeTried(s: State, id: int): State
    requires Tables(s) && id in s.info && !s.info[id].inTried
  {
    DropTables(s, id);
    PutTried(Vacated(LeaveNew(s, id), id), id)
  }

  lemma VacatedKeeps(s: State, id: int)
    requires Midway(s, {id}, 1) && id in s.info && !s.info[id].inTried && SlotsOf(s.news, id) == {}
    ensures Midway(Vacated(s, id), {id}, 1)
  {
    var t := s.key.TriedSlot(s.info[id].addr);
    if t in s.tried {
      assert s.tried[t] != id;
      MakeSpaceKeeps(s, t, {id}, 1);
    }
  }

  lemma DroppedKeeps(s: State, id: int)
    requires Sound(s) && id in s.info && !s.info[id].inTried
    ensures Midway(LeaveNew(s, id), {id}, 1)
  {
    DropKeeps(s, id, {}, 0);
    CountOne(DropNew(s, id), {id}, 0);
  }

  lemma MakeTriedKeeps(s: State, id: int)
    requires Sound(s) && id in s.info && !s.info[id].inTried
    ensures Sound(MakeTried(s, id))
  {
    var s1 := LeaveNew(s, id);
    DroppedKeeps(s, id);
    DropTables(s, id);
    VacatedKeeps(s1, id);
    PutTriedKeeps(Vacated(s1, id), id, {id}, 1);
    assert {id} - {id} == {};
  }

  lemma SendHomeTimes(s: State, e: int)
    requires Tables(s) && e in s.info && SlotsOf(s.news, e) == {}
    ensures TimesFrom(s, SendHome(s, e))
  {
    HomeFree(s, e);
    ClearTimes(s, HomeSlot(s, e));
    TimesTrans(s, ClearNew(s, HomeSlot(s, e)), SendHome(s, e));
  }

  lemma VacatedTimes(s: State, id: int)
    requires Tables(s) && id in s.info && !s.info[id].inTried && SlotsOf(s.news, id) == {}
    ensures TimesFrom(s, Vacated(s, id))
  {
    var t := s.key.TriedSlot(s.info[id].addr);
    if t in s.tried {
      EvictedSurvives(s, t);
      SendHomeTimes(Evict(s, t), s.tried[t]);
      TimesTrans(s, Evict(s, t), Vacated(s, id));
    }
  }

  /** What the last step of MakeTried gets: the entry has left the new table, nothing else has changed. */
  lemma Dropped(s: State, id: int) returns (s1: State)
    requires Tables(s) && id in s.info && !s.info[id].inTried
    ensures Tables(s1) && id in s1.info && s1.info[id] == s.info[id].(refCount := 0) && SlotsOf(s1.news, id) == {}
    ensures s1.key == s.key && s1.tried == s.tried && TimesFrom(s, s1)
    ensures MakeTried(s, id) == PutTried(Vacated(s1, id), id)
  {
    s1 := LeaveNew(s, id);
    DropTables(s, id);
    LeaveFacts(s, id);
  }

  lemma PutTriedTimes(s: State, id: int)
    requires TimesOk(s) && id in s.info
    ensures TimesOk(PutTried(s, id)) <==> s.info[id].lastSuccess != 0
  {
    assert PutTried(s, id).info[id].inTried;
  }

  /** The moved entry brings its own times along; nobody else's change. */
  lemma MakeTriedTimes(s: State, id: int)
    requires Tables(s) && TimesOk(s) && id in s.info && !s.info[id].inTried
    ensures TimesOk(MakeTried(s, id)) <==> s.info[id].lastSuccess != 0
  {
    var s1 := Dropped(s, id);
    TimesKept(s, s1);
    VacatedTimes(s1, id);
    TimesKept(s1, Vacated(s1, id));
    PutTriedTimes(Vacated(s1, id), id);
  }
}
