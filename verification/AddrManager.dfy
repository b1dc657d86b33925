/** The address manager as an object: fields changed in place, each method proved against its function. */
module AddrManager {
  import opened AddrMan
  import opened AddrManSteps

  /** The addresses of the entries worth telling others about, in order. */
  function Worthy(ids: seq<int>, info: map<int, Info>, now: int): seq<Service> {
    if ids == [] then []
    else
      var id := ids[|ids| - 1];
      var before := Worthy(ids[..|ids| - 1], info, now);
      if id in info && !info[id].IsTerrible(now) then before + [info[id].addr] else before
  }

  lemma {:induction false} WorthySame(ids: seq<int>, info: map<int, Info>, info': map<int, Info>, now: int)
    requires forall id :: id in info <==> id in info'
    requires forall id :: id in info ==> info'[id] == info[id].(randomPos := info'[id].randomPos)
    ensures Worthy(ids, info', now) == Worthy(ids, info, now)
  {
    if ids != [] {
      WorthySame(ids[..|ids| - 1], info, info', now);
    }
  }

  /** One of the ids is an entry with that address that is not terrible. */
  ghost predicate IsWorthy(ids: seq<int>, info: map<int, Info>, now: int, a: Service) {
    exists i :: 0 <= i < |ids| && ids[i] in info && info[ids[i]].addr == a && !info[ids[i]].IsTerrible(now)
  }

  /** What is in the list: known, not terrible, each once, and all of them that the ids name. */
  lemma {:induction false} WorthyExact(ids: seq<int>, info: map<int, Info>, now: int, a: Service)
    requires forall i, j :: 0 <= i < j < |ids| ==> ids[i] != ids[j]
    requires forall x, y :: x in info && y in info && info[x].addr == info[y].addr ==> x == y
    ensures a in Worthy(ids, info, now) <==> IsWorthy(ids, info, now, a)
    ensures multiset(Worthy(ids, info, now))[a] <= 1 && |Worthy(ids, info, now)| <= |ids|
  {
    if ids != [] {
      var front, id := ids[..|ids| - 1], ids[|ids| - 1];
      WorthyExact(front, info, now, a);
      if a in Worthy(front, info, now) {
        var i :| 0 <= i < |front| && front[i] in info && info[front[i]].addr == a && !info[front[i]].IsTerrible(now);
        assert ids[i] == front[i];
      }
      assert ids[|ids| - 1] == id;
    }
  }

  lemma SameTablesSelf(s: State)
    ensures SameTables(s, s)
  {
  }

  /** In a consistent manager the entries of vRandom and their addresses are distinct. */
  lemma CollectedExactly(s: State, seen: nat, now: int)
    requires RandomOk(s) && AddrsOk(s) && seen <= |s.random|
    ensures var list := Worthy(s.random[..seen], s.info, now);
            forall a :: multiset(list)[a] <= 1 && (a in list <==> IsWorthy(s.random[..seen], s.info, now, a))
  {
    forall x, y | x in s.info && y in s.info && s.info[x].addr == s.info[y].addr
      ensures x == y
    {
      assert s.addrs[s.info[x].addr.ip] == x && s.addrs[s.info[y].addr.ip] == y;
    }
    forall a
      ensures var list := Worthy(s.random[..seen], s.info, now);
              multiset(list)[a] <= 1 && (a in list <==> IsWorthy(s.random[..seen], s.info, now, a))
    {
      WorthyExact(s.random[..seen], s.info, now, a);
    }
  }

  function AddrLimit(n: nat): (limit: nat)
    ensures limit <= GETADDR_MAX && limit <= GETADDR_MAX_PCT * n / 100
    ensures limit == GETADDR_MAX || limit == GETADDR_MAX_PCT * n / 100
  {
    if GETADDR_MAX_PCT * n / 100 > GETADDR_MAX then GETADDR_MAX else GETADDR_MAX_PCT * n / 100
  }

  function Among(n: nat, size: nat, random: nat): (p: nat)
    requires n < size
    ensures n <= p < size
  {
    n + random % (size - n)
  }

  class Manager {
    const key: Key
    var nIdCount: int
    var mapInfo: map<int, Info>
    var mapAddr: map<NetAddr, int>
    var vRandom: seq<int>
    var nTried: int
    var vvTried: map<Slot, int>
    var nNew: int
    var vvNew: map<Slot, int>
    var nLastGood: int

    ghost function Snapshot(): State
      reads this
    {
      State(key, nIdCount, mapInfo, mapAddr, vRandom, nTried, vvTried, nNew, vvNew, nLastGood)
    }

    constructor (key: Key)
      ensures this.key == key && Snapshot() == Fresh(key) && Check(Snapshot())
    {
      this.key := key;
      nIdCount, mapInfo, mapAddr, vRandom := 0, map[], map[], [];
      nTried, vvTried, nNew, vvNew, nLastGood := 0, map[], 0, map[], 1;
      new;
      FreshChecks(key);
    }

    method SwapAt(i: nat, j: nat)
      requires i < |vRandom| && j < |vRandom| && vRandom[i] in mapInfo && vRandom[j] in mapInfo
      modifies this
      ensures Snapshot() == SwapRandom(old(Snapshot()), i, j)
    {
      if i == j {
        return;
      }
      var a, b := vRandom[i], vRandom[j];
      mapInfo := mapInfo[a := mapInfo[a].(randomPos := j)];
      mapInfo := mapInfo[b := mapInfo[b].(randomPos := i)];
      vRandom := vRandom[i := b];
      vRandom := vRandom[j := a];
    }

    /** Delete; what it asserts of the entry is what it asks of its callers. */
    method DeleteEntry(id: int)
      requires RandomOk(Snapshot()) && id in mapInfo && !mapInfo[id].inTried && mapInfo[id].refCount == 0
      modifies this
      ensures Snapshot() == Delete(old(Snapshot()), id)
    {
      DeleteParts(Snapshot(), id);
      SwapAt(mapInfo[id].randomPos, |vRandom| - 1);
      ForgetLast();
    }

    method ForgetLast()
      requires vRandom != [] && vRandom[|vRandom| - 1] in mapInfo
      modifies this
      ensures Snapshot() == RemoveLast(old(Snapshot()))
    {
      var id := vRandom[|vRandom| - 1];
      vRandom := vRandom[..|vRandom| - 1];
      mapAddr := mapAddr - {mapInfo[id].addr.ip};
      mapInfo := mapInfo - {id};
      nNew := nNew - 1;
    }

    /** ClearNew: the entry in the slot does have a reference, and is not a tried one if it goes. */
    method ClearSlot(t: Slot, ghost limbo: set<int>)
      requires Tables(Snapshot()) && RefsOk(Snapshot(), limbo)
      modifies this
      ensures Snapshot() == ClearNew(old(Snapshot()), t)
    {
      if t in vvNew {
        UnlinkRandomOk(Snapshot(), t);
        UnlinkRefs(Snapshot(), t, limbo);
        var id := vvNew[t];
        assert mapInfo[id].refCount > 0;
        mapInfo := mapInfo[id := mapInfo[id].(refCount := mapInfo[id].refCount - 1)];
        vvNew := vvNew - {t};
        if mapInfo[id].refCount == 0 {
          DeleteEntry(id);
        }
      }
    }

    /** The loop of MakeTried over all new buckets; it ends with no references left. */
    method LeaveNewBuckets(id: int)
      requires NewsOk(Snapshot()) && id in mapInfo && mapInfo[id].refCount == |SlotsOf(vvNew, id)|
      modifies this
      ensures Snapshot() == DropNew(old(Snapshot()), id)
    {
      ghost var s := Snapshot();
      NoneBelow(s, id);
      for bucket := 0 to NEW_BUCKET_COUNT
        invariant Snapshot() == s.(info := mapInfo, news := vvNew)
        invariant vvNew == s.news - Below(s, id, bucket)
        invariant mapInfo == s.info[id := s.info[id].(refCount := s.info[id].refCount - |Below(s, id, bucket)|)]
      {
        var t := key.NewSlot(mapInfo[id].addr, bucket);
        OneBucket(s, id, bucket);
        if t in vvNew && vvNew[t] == id {
          vvNew := vvNew - {t};
          mapInfo := mapInfo[id := mapInfo[id].(refCount := mapInfo[id].refCount - 1)];
        }
      }
      AllBelow(s, id);
    }

    method EvictAt(t: Slot)
      requires t in vvTried && vvTried[t] in mapInfo
      modifies this
      ensures Snapshot() == Evict(old(Snapshot()), t)
    {
      var e := vvTried[t];
      mapInfo := mapInfo[e := mapInfo[e].(inTried := false)];
      vvTried := vvTried - {t};
      nTried := nTried - 1;
    }

    method LinkAt(id: int, t: Slot)
      requires id in mapInfo
      modifies this
      ensures Snapshot() == Link(old(Snapshot()), id, t)
    {
      mapInfo := mapInfo[id := mapInfo[id].(refCount := mapInfo[id].refCount + 1)];
      vvNew := vvNew[t := id];
    }

    method PutTriedAt(id: int)
      requires id in mapInfo
      modifies this
      ensures Snapshot() == PutTried(old(Snapshot()), id)
    {
      vvTried := vvTried[key.TriedSlot(mapInfo[id].addr) := id];
      nTried := nTried + 1;
      mapInfo := mapInfo[id := mapInfo[id].(inTried := true)];
    }

    /** An entry without slots takes its home slot. */
    method TakeHome(e: int, ghost limbo: set<int>)
      requires Tables(Snapshot()) && RefsOk(Snapshot(), limbo) && e in mapInfo && SlotsOf(vvNew, e) == {}
      modifies this
      ensures Snapshot() == SendHome(old(Snapshot()), e)
    {
      HomeFree(Snapshot(), e);
      var home := key.NewSlot(mapInfo[e].addr, key.NewBucket(mapInfo[e].addr, mapInfo[e].source));
      ClearSlot(home, limbo);
      assert home !in vvNew;
      mapInfo := mapInfo[e := mapInfo[e].(refCount := 1)];
      vvNew := vvNew[home := e];
      nNew := nNew + 1;
    }

    /** The entry in a tried slot goes back to the new table. */
    method MakeSpaceAt(t: Slot, ghost limbo: set<int>)
      requires Tables(Snapshot()) && RefsOk(Snapshot(), limbo) && t in vvTried
      modifies this
      ensures Snapshot() == MakeSpace(old(Snapshot()), t)
    {
      EvictedSurvives(Snapshot(), t);
      EvictRefs(Snapshot(), t, limbo);
      var e := vvTried[t];
      EvictAt(t);
      TakeHome(e, limbo + {e});
    }

    method VacateFor(id: int, ghost limbo: set<int>)
      requires Tables(Snapshot()) && RefsOk(Snapshot(), limbo)
      requires id in mapInfo && !mapInfo[id].inTried && SlotsOf(vvNew, id) == {}
      modifies this
      ensures Snapshot() == Vacated(old(Snapshot()), id)
    {
      var t := key.TriedSlot(mapInfo[id].addr);
      if t in vvTried {
        MakeSpaceAt(t, limbo);
      }
    }

    method MoveToTried(id: int)
      requires Tables(Snapshot()) && RefsOk(Snapshot(), {}) && id in mapInfo && !mapInfo[id].inTried
      modifies this
      ensures Snapshot() == MakeTried(old(Snapshot()), id)
    {
      ghost var s := Snapshot();
      DropTables(s, id);
      DropRefs(s, id, {});
      CountTables(DropNew(s, id), s.nNew - 1);
      LeaveNewBuckets(id);
      nNew := nNew - 1;
      assert Snapshot() == LeaveNew(s, id);
      assert mapInfo[id].refCount == 0;
      VacateFor(id, {} + {id});
      assert key.TriedSlot(mapInfo[id].addr) !in vvTried;
      PutTriedAt(id);
    }

    /** Good_'s search for a bucket, starting anywhere. */
    method SearchBuckets(id: int, start: int) returns (found: bool)
      requires id in mapInfo && 0 <= start < NEW_BUCKET_COUNT
      ensures found <==> InSomeBucket(Snapshot(), id)
    {
      found := false;
      var n := 0;
      while n < NEW_BUCKET_COUNT && !found
        invariant 0 <= n <= NEW_BUCKET_COUNT
        invariant found ==> InSomeBucket(Snapshot(), id)
        invariant !found ==> forall m :: 0 <= m < n ==> !(key.NewSlot(mapInfo[id].addr, Wrap(m, start)) in vvNew
                                                          && vvNew[key.NewSlot(mapInfo[id].addr, Wrap(m, start))] == id)
      {
        var bucket := Wrap(n, start);
        if key.NewSlot(mapInfo[id].addr, bucket) in vvNew && vvNew[key.NewSlot(mapInfo[id].addr, bucket)] == id {
          found := true;
        }
        n := n + 1;
      }
      if !found {
        forall b | 0 <= b < NEW_BUCKET_COUNT
          ensures !(key.NewSlot(mapInfo[id].addr, b) in vvNew && vvNew[key.NewSlot(mapInfo[id].addr, b)] == id)
        {
          var m := if b >= start then b - start else b - start + NEW_BUCKET_COUNT;
          assert Wrap(m, start) == b;
        }
      }
    }

    /** Good_, at whatever time. */
    method MarkGood(addr: Service, time: int, start: int)
      requires Sound(Snapshot()) && 0 <= start < NEW_BUCKET_COUNT
      modifies this
      ensures Snapshot() == Good(old(Snapshot()), addr, time) && Sound(Snapshot())
      ensures old(Check(Snapshot())) ==> (Check(Snapshot()) <==> old(Exact(Snapshot(), addr)).None? || time > 0)
    {
      ghost var s := Snapshot();
      GoodKeeps(s, addr, time);
      if Check(s) {
        GoodChecksIff(s, addr, time);
      }
      nLastGood := time;
      if addr.ip in mapAddr && mapAddr[addr.ip] in mapInfo && mapInfo[mapAddr[addr.ip]].addr == addr {
        var id := mapAddr[addr.ip];
        SucceededSound(s, id, time);
        RecordSuccess(id, time);
        Promote(id, start);
      }
    }

    /** The end of Good_: a new entry moves to the tried table. */
    method Promote(id: int, start: int)
      requires Sound(Snapshot()) && id in mapInfo && 0 <= start < NEW_BUCKET_COUNT
      modifies this
      ensures Snapshot() == Promoted(old(Snapshot()), id)
    {
      if !mapInfo[id].inTried {
        var found := SearchBuckets(id, start);
        if found {
          MoveToTried(id);
        }
      }
    }

    method RecordSuccess(id: int, time: int)
      requires id in mapInfo
      modifies this`mapInfo
      ensures Snapshot() == SetInfo(old(Snapshot()), id, Succeeded(old(mapInfo)[id], time))
    {
      mapInfo := mapInfo[id := mapInfo[id].(lastSuccess := time, lastTry := time, attempts := 0)];
    }

    /** The end of Add_. An entry that is dropped here has no reference and is not a tried one. */
    method PlaceEntry(id: int, source: NetAddr, now: int, ghost limbo: set<int>)
      requires Tables(Snapshot()) && RefsOk(Snapshot(), limbo) && id in mapInfo && !mapInfo[id].inTried
      modifies this
      ensures Snapshot() == Place(old(Snapshot()), id, source, now)
    {
      var t := key.NewSlot(mapInfo[id].addr, key.NewBucket(mapInfo[id].addr, source));
      if t !in vvNew || vvNew[t] != id {
        var insert := t !in vvNew;
        if !insert {
          var existing := mapInfo[vvNew[t]];
          if existing.IsTerrible(now) || (existing.refCount > 1 && mapInfo[id].refCount == 0) {
            insert := true;
          }
        }
        if insert {
          ClearOthers(Snapshot(), t);
          ClearSlot(t, limbo);
          LinkAt(id, t);
        } else if mapInfo[id].refCount == 0 {
          DeleteEntry(id);
        }
      }
    }

    /** Create, and what Add_ does with the new entry at once. */
    method EnlistEntry(a: Announce, source: NetAddr, penalty: int) returns (id: int)
      modifies this
      ensures id == old(nIdCount) && Snapshot() == Enlist(old(Snapshot()), a, source, penalty)
    {
      id := nIdCount;
      nIdCount := nIdCount + 1;
      var time := if a.time - penalty > 0 then a.time - penalty else 0;
      mapInfo := mapInfo[id := Info(a.addr, source, time, a.services, 0, 0, 0, 0, 0, false, |vRandom|)];
      mapAddr := mapAddr[a.addr.ip := id];
      vRandom := vRandom + [id];
      nNew := nNew + 1;
    }

    method RefreshEntry(id: int, a: Announce, penalty: int, now: int)
      requires id in mapInfo
      modifies this`mapInfo
      ensures Snapshot() == SetInfo(old(Snapshot()), id, Refresh(old(mapInfo)[id], a, penalty, now))
    {
      var info := mapInfo[id];
      var currentlyOnline := now - a.time < 24 * 60 * 60;
      var interval := if currentlyOnline then 60 * 60 else 24 * 60 * 60;
      if a.time != 0 && (info.time == 0 || info.time < a.time - interval - penalty) {
        info := info.(time := if a.time - penalty > 0 then a.time - penalty else 0);
      }
      info := info.(services := info.services + a.services);
      mapInfo := mapInfo[id := info];
    }

    method AddAddress(a: Announce, source: NetAddr, timePenalty: int, now: int, dice: nat, routable: bool)
                      returns (isNew: bool)
      requires Sound(Snapshot())
      modifies this
      ensures Snapshot() == Add(old(Snapshot()), a, source, timePenalty, now, dice, routable) && Sound(Snapshot())
      ensures old(Check(Snapshot())) ==> Check(Snapshot())
      ensures isNew <==> routable && a.addr.ip !in old(mapAddr)
    {
      AddChecks(Snapshot(), a, source, timePenalty, now, dice, routable);
      if !routable {
        return false;
      }
      var penalty := if a.addr.ip == source then 0 else timePenalty;
      FindExact(Snapshot(), a.addr.ip);
      if a.addr.ip in mapAddr && mapAddr[a.addr.ip] in mapInfo {
        UpdateKnown(mapAddr[a.addr.ip], a, source, penalty, now, dice);
        return false;
      }
      EnlistNew(a, source, penalty, now);
      isNew := true;
    }

    method UpdateKnown(id: int, a: Announce, source: NetAddr, penalty: int, now: int, dice: nat)
      requires Sound(Snapshot()) && id in mapInfo
      modifies this
      ensures Snapshot() == AddKnown(old(Snapshot()), id, a, source, penalty, now, dice)
    {
      RefreshKeeps(Snapshot(), id, a, penalty, now);
      RefreshEntry(id, a, penalty, now);
      if !Refused(mapInfo[id], a, dice) {
        PlaceEntry(id, source, now, {});
      }
    }

    method EnlistNew(a: Announce, source: NetAddr, penalty: int, now: int)
      requires Sound(Snapshot()) && a.addr.ip !in mapAddr
      modifies this
      ensures Snapshot() == AddUnknown(old(Snapshot()), a, source, penalty, now)
    {
      EnlistKeeps(Snapshot(), a, source, penalty);
      var id := EnlistEntry(a, source, penalty);
      PlaceEntry(id, source, now, {id});
    }

    /** Attempt_. */
    method RecordAttempt(addr: Service, countFailure: bool, time: int)
      modifies this`mapInfo
      ensures Snapshot() == Attempt(old(Snapshot()), addr, countFailure, time)
    {
      if addr.ip in mapAddr && mapAddr[addr.ip] in mapInfo && mapInfo[mapAddr[addr.ip]].addr == addr {
        var id := mapAddr[addr.ip];
        mapInfo := mapInfo[id := mapInfo[id].(lastTry := time)];
        if countFailure && mapInfo[id].lastCountAttempt < nLastGood {
          mapInfo := mapInfo[id := mapInfo[id].(lastCountAttempt := time, attempts := mapInfo[id].attempts + 1)];
        }
      }
    }

    /** Connected_. */
    method RecordConnected(addr: Service, time: int)
      modifies this`mapInfo
      ensures Snapshot() == Connected(old(Snapshot()), addr, time)
    {
      if addr.ip in mapAddr && mapAddr[addr.ip] in mapInfo && mapInfo[mapAddr[addr.ip]].addr == addr {
        var id := mapAddr[addr.ip];
        var updateInterval := 20 * 60;
        if time - mapInfo[id].time > updateInterval {
          mapInfo := mapInfo[id := mapInfo[id].(time := time)];
        }
      }
    }

    /** SetServices_. */
    method RecordServices(addr: Service, services: set<nat>)
      modifies this`mapInfo
      ensures Snapshot() == SetServices(old(Snapshot()), addr, services)
    {
      if addr.ip in mapAddr && mapAddr[addr.ip] in mapInfo && mapInfo[mapAddr[addr.ip]].addr == addr {
        var id := mapAddr[addr.ip];
        mapInfo := mapInfo[id := mapInfo[id].(services := services)];
      }
    }

    /** GetAddr_: shuffle from the front and collect; `pick` supplies the random numbers. */
    method GetAddr(now: int, pick: nat -> nat) returns (vAddr: seq<Service>, ghost seen: nat)
      requires Sound(Snapshot())
      modifies this
      ensures Sound(Snapshot()) && SameTables(old(Snapshot()), Snapshot())
              && (old(TimesOk(Snapshot())) ==> TimesOk(Snapshot()))
      ensures seen <= |vRandom| && vAddr == Worthy(vRandom[..seen], mapInfo, now)
      ensures forall a :: multiset(vAddr)[a] <= 1 && (a in vAddr <==> IsWorthy(vRandom[..seen], mapInfo, now, a))
      ensures |vAddr| <= GETADDR_MAX && |vAddr| <= GETADDR_MAX_PCT * |vRandom| / 100
      ensures seen < |vRandom| ==> |vAddr| == GETADDR_MAX || |vAddr| == GETADDR_MAX_PCT * |vRandom| / 100
    {
      ghost var s := Snapshot();
      SameTablesSelf(s);
      vAddr, seen := Gather(AddrLimit(|vRandom|), now, pick, s);
      SameTablesKeeps(s, Snapshot(), {}, 0);
      CollectedExactly(Snapshot(), seen, now);
    }

    /** The loop of GetAddr_. */
    method Gather(nNodes: nat, now: int, pick: nat -> nat, ghost s: State)
                  returns (vAddr: seq<Service>, ghost seen: nat)
      requires s == Snapshot() && RandomOk(s) && SameTables(s, s)
      modifies this
      ensures |vRandom| == |old(vRandom)| && Gathered(s, seen, vAddr, now)
      ensures |vAddr| <= nNodes && (seen < |vRandom| ==> |vAddr| == nNodes)
    {
      vAddr := [];
      var n := 0;
      while n < |vRandom| && |vAddr| < nNodes
        invariant |vRandom| == |s.random| && |vAddr| <= nNodes && Gathered(s, n, vAddr, now)
        decreases |s.random| - n
      {
        vAddr := GatherOne(s, n, Among(n, |vRandom|, pick(n)), now, vAddr);
        n := n + 1;
      }
      seen := n;
    }

    /** The first `n` places have been shuffled and their worthy addresses collected; the tables are those of `s`. */
    ghost predicate Gathered(s: State, n: nat, vAddr: seq<Service>, now: int)
      reads this
    {
      && n <= |vRandom| && RandomOk(Snapshot()) && (TimesOk(s) ==> TimesOk(Snapshot())) && SameTables(s, Snapshot())
      && vAddr == Worthy(vRandom[..n], mapInfo, now)
    }

    method GatherOne(ghost s: State, n: nat, p: nat, now: int, vAddr: seq<Service>) returns (more: seq<Service>)
      requires n <= p < |vRandom| && Gathered(s, n, vAddr, now)
      modifies this
      ensures Gathered(s, n + 1, more, now) && |more| <= |vAddr| + 1 && |vRandom| == |old(vRandom)|
    {
      ShuffleOne(s, n, p, now);
      var ai := mapInfo[vRandom[n]];
      assert vRandom[..n + 1][..n] == vRandom[..n];
      more := if ai.IsTerrible(now) then vAddr else vAddr + [ai.addr];
    }

    method ShuffleOne(ghost s: State, n: nat, p: nat, now: int)
      requires n <= p < |vRandom| && RandomOk(Snapshot()) && (TimesOk(s) ==> TimesOk(Snapshot()))
               && SameTables(s, Snapshot())
      modifies this
      ensures RandomOk(Snapshot()) && (TimesOk(s) ==> TimesOk(Snapshot())) && SameTables(s, Snapshot())
              && |vRandom| == |old(vRandom)|
      ensures vRandom[..n] == old(vRandom[..n]) && Worthy(vRandom[..n], mapInfo, now)
              == old(Worthy(vRandom[..n], mapInfo, now))
    {
      ghost var before := Snapshot();
      SwapRandomOk(before, n, p);
      SwapSameTables(before, n, p);
      SwapPrefix(before, n, p, now);
      SwapAt(n, p);
      SameTablesTrans(s, before, Snapshot());
    }
  }

  /** The two steps of Delete. */
  lemma DeleteParts(s: State, id: int)
    requires RandomOk(s) && id in s.info
    ensures var p, last := s.info[id].randomPos, |s.random| - 1;
            && 0 <= p < |s.random| && s.random[p] in s.info && s.random[last] in s.info
            && (var s1 := SwapRandom(s, p, last);
                s1.random != [] && s1.random[|s1.random| - 1] in s1.info && Delete(s, id) == RemoveLast(s1))
  {
    SwapRandomOk(s, s.info[id].randomPos, |s.random| - 1);
  }

  function Wrap(n: int, start: int): int {
    (n + start) % NEW_BUCKET_COUNT
  }

  lemma SameTablesTrans(s: State, s': State, s'': State)
    requires SameTables(s, s') && SameTables(s', s'')
    ensures SameTables(s, s'')
  {
    forall id
      ensures id in s.info <==> id in s''.info
      ensures id in s.info ==> s''.info[id].SamePlace(s.info[id])
    {
      SamePlaced(s, s', id);
      SamePlaced(s', s'', id);
    }
  }

  /** Swapping at or behind position `n` leaves what was collected in front of it. */
  lemma SwapPrefix(s: State, n: nat, p: nat, now: int)
    requires RandomOk(s) && n <= p < |s.random|
    ensures var s' := SwapRandom(s, n, p);
            s'.random[..n] == s.random[..n] && Worthy(s'.random[..n], s'.info, now)
                == Worthy(s.random[..n], s.info, now)
  {
    var s' := SwapRandom(s, n, p);
    forall id
      ensures id in s.info <==> id in s'.info
      ensures id in s.info ==> s'.info[id] == s.info[id].(randomPos := s'.info[id].randomPos)
    {
      SwapEntry(s, n, p, id);
    }
    WorthySame(s.random[..n], s.info, s'.info, now);
  }

  /** The entry's slots in the buckets before `bucket`. */
  ghost function Below(s: State, id: int, bucket: int): set<Slot> {
    set t | t in SlotsOf(s.news, id) && t.0 < bucket
  }

  lemma NoneBelow(s: State, id: int)
    requires NewsOk(s) && id in s.info
    ensures Below(s, id, 0) == {} && s.news - Below(s, id, 0) == s.news
    ensures s.info == s.info[id := s.info[id].(refCount := s.info[id].refCount - |Below(s, id, 0)|)]
  {
    assert Below(s, id, 0) == {};
  }

  lemma AllBelow(s: State, id: int)
    requires NewsOk(s) && id in s.info && s.info[id].refCount == |SlotsOf(s.news, id)|
    ensures Below(s, id, NEW_BUCKET_COUNT) == SlotsOf(s.news, id)
    ensures s.news - Below(s, id, NEW_BUCKET_COUNT) == DropNew(s, id).news
  {
    assert Below(s, id, NEW_BUCKET_COUNT) == SlotsOf(s.news, id);
  }

  /** One bucket holds at most one slot of an entry, at the position its hash gives. */
  lemma OneBucket(s: State, id: int, bucket: int)
    requires NewsOk(s) && id in s.info
    ensures var t := s.key.NewSlot(s.info[id].addr, bucket);
            var rest, rest' := s.news - Below(s, id, bucket), s.news - Below(s, id, bucket + 1);
            if t in rest && rest[t] == id
            then rest' == rest - {t} && |Below(s, id, bucket + 1)| == |Below(s, id, bucket)| + 1
            else Below(s, id, bucket + 1) == Below(s, id, bucket)
  {
    var t := s.key.NewSlot(s.info[id].addr, bucket);
    var now, next := Below(s, id, bucket), Below(s, id, bucket + 1);
    forall u | u in next && u !in now
      ensures u == t
    {
      assert u in s.news;
    }
    if t in s.news && s.news[t] == id {
      assert next == now + {t};
    } else {
      assert next == now;
    }
  }
}
