/**
 What the address manager's operations leave in the entries: the time, services and place of an announced address, the
 record of a good or failed connection, and what becomes of an entry that has to make way.
 */
module AddrManLaws {
  import opened AddrMan
  import opened AddrManSteps
  import opened AddrManEffects

  // ---------------------------------------------------------------- making way

  /** An entry that lost one slot: it goes if that was its last one, and otherwise keeps everything else. */
  ghost predicate MadeWay(s: State, s': State, x: int) {
    && x in s.info && (x in s'.info <==> s.info[x].refCount != 1)
    && (x in s'.info ==>
          s'.info[x] == s.info[x].(refCount := s.info[x].refCount - 1, randomPos := s'.info[x].randomPos))
  }

  lemma ClearedHolder(s: State, t: Slot)
    requires Tables(s) && t in s.news
    ensures MadeWay(s, ClearNew(s, t), s.news[t])
  {
    var x := s.news[t];
    UnlinkRandomOk(s, t);
    if s.info[x].refCount == 1 {
      DeleteOthers(Unlink(s, t), x);
    }
  }

  /** Slot `t` has gone to `id`, and whoever held it has made way. */
  ghost predicate Taken(s: State, s': State, t: Slot, id: int) {
    t in s'.news && s'.news[t] == id && (t in s.news ==> MadeWay(s, s', s.news[t]))
  }

  lemma TookSlot(s: State, id: int, t: Slot)
    requires Tables(s) && id in s.info && (t in s.news ==> s.news[t] != id)
    ensures id in ClearNew(s, t).info
    ensures var s' := Link(ClearNew(s, t), id, t);
            && Taken(s, s', t, id) && s'.lastGood == s.lastGood
            && s'.info[id] == s.info[id].(refCount := s.info[id].refCount + 1, randomPos := s'.info[id].randomPos)
  {
    ClearOthers(s, t);
    if t in s.news {
      ClearedHolder(s, t);
    }
  }

  // ---------------------------------------------------------------- Add_: a known address

  /** The end of Add_ for an entry with references, in terms of the tables. */
  lemma PlaceExact(s: State, id: int, source: NetAddr, now: int)
    requires Tables(s) && id in s.info && s.info[id].refCount > 0
    ensures var s', t := Place(s, id, source, now), SourceSlot(s, id, source);
            && (t in s.news ==> s.news[t] in s.info)
            && var takes := t !in s.news || (s.news[t] != id && s.info[s.news[t]].IsTerrible(now));
            && s'.lastGood == s.lastGood && id in s'.info
            && (if takes then Taken(s, s', t, id) else s' == s)
            && s'.info[id] == s.info[id].(refCount := s.info[id].refCount + (if takes then 1 else 0),
                                          randomPos := s'.info[id].randomPos)
  {
    var t := SourceSlot(s, id, source);
    if t in s.news {
      var x := s.news[t];
      assert x in s.info;
    }
    if !(t in s.news && s.news[t] == id) && MayTake(s, id, t, now) {
      TookSlot(s, id, t);
    }
  }

  /** How long an address must have been silent before an announcement moves its time. */
  function UpdateInterval(announced: int, now: int): int {
    if now - announced < 24 * 60 * 60 then 60 * 60 else 24 * 60 * 60
  }

  /** The time of an entry that was `time` follows an announcement. */
  predicate TimeFollows(time: int, announced: int, penalty: int, now: int, time': int) {
    if announced != 0 && (time == 0 || time < announced - UpdateInterval(announced, now) - penalty)
    then time' == (if announced <= penalty then 0 else announced - penalty)
    else time' == time
  }

  /** The announcement says something that the entry, as it now is, does not know. */
  predicate IsNews(announced: int, time': int) {
    announced != 0 && (time' == 0 || announced > time')
  }

  ghost predicate KnownUpdated(s: State, s': State, id: int, t: Slot, a: Announce, penalty: int, now: int, dice: nat)
    requires id in s.info && (t in s.news ==> s.news[t] in s.info)
  {
    && id in s'.info && s'.lastGood == s.lastGood
    && var i, i' := s.info[id], s'.info[id];
       var takes := IsNews(a.time, i'.time) && !i.inTried && i.refCount < NEW_BUCKETS_PER_ADDRESS && dice == 0
                    && (t !in s.news || (s.news[t] != id && s.info[s.news[t]].IsTerrible(now)));
    && TimeFollows(i.time, a.time, penalty, now, i'.time)
    && i' == i.(time := i'.time, services := i.services + a.services,
                refCount := i.refCount + (if takes then 1 else 0), randomPos := i'.randomPos)
    && (if takes then Taken(s, s', t, id) else s'.news == s.news && s'.info == s.info[id := i'])
  }

  lemma KnownExact(s: State, id: int, a: Announce, source: NetAddr, penalty: int, now: int, dice: nat)
    requires Sound(s) && id in s.info
    ensures var t := SourceSlot(s, id, source);
            && (t in s.news ==> s.news[t] in s.info)
            && KnownUpdated(s, AddKnown(s, id, a, source, penalty, now, dice), id, t, a, penalty, now, dice)
  {
    var t := SourceSlot(s, id, source);
    if t in s.news {
      var x := s.news[t];
      assert x in s.info;
    }
    var s1, i1 := Refreshed(s, id, a, penalty, now);
    var s' := AddKnown(s, id, a, source, penalty, now, dice);
    if Refused(i1, a, dice) {
      assert s' == s1;
    } else {
      PlaceExact(s1, id, source, now);
      PlacedKnown(s, s1, s', id, i1, t, a, penalty, now, dice);
    }
  }

  lemma PlacedKnown(s: State, s1: State, s': State, id: int, i1: Info, t: Slot, a: Announce, penalty: int, now: int,
                    dice: nat)
    requires id in s.info && s1 == SetInfo(s, id, i1) && (t in s.news ==> s.news[t] in s.info) && !Refused(i1, a, dice)
    requires TimeFollows(s.info[id].time, a.time, penalty, now, i1.time)
    requires i1 == s.info[id].(time := i1.time, services := s.info[id].services + a.services)
    requires 0 < i1.refCount <= NEW_BUCKETS_PER_ADDRESS
    requires var takes := t !in s.news || (s.news[t] != id && s1.info[s.news[t]].IsTerrible(now));
             && s'.lastGood == s.lastGood && id in s'.info
             && (if takes then Taken(s1, s', t, id) else s' == s1)
             && s'.info[id] == i1.(refCount := i1.refCount + (if takes then 1 else 0),
                                   randomPos := s'.info[id].randomPos)
    ensures KnownUpdated(s, s', id, t, a, penalty, now, dice)
  {
  }

  lemma Refreshed(s: State, id: int, a: Announce, penalty: int, now: int) returns (s1: State, i1: Info)
    requires Sound(s) && id in s.info
    ensures i1 == Refresh(s.info[id], a, penalty, now) && s1 == SetInfo(s, id, i1) && Tables(s1)
    ensures TimeFollows(s.info[id].time, a.time, penalty, now, i1.time)
    ensures i1 == s.info[id].(time := i1.time, services := s.info[id].services + a.services)
    ensures (!i1.inTried ==> i1.refCount > 0) && i1.refCount <= NEW_BUCKETS_PER_ADDRESS
  {
    RefreshKeeps(s, id, a, penalty, now);
    i1 := Refresh(s.info[id], a, penalty, now);
    s1 := SetInfo(s, id, i1);
    assert RefOk(s1.info[id], |SlotsOf(s1.news, id)|, false);
  }

  /**
   A known address that is announced: its time moves exactly if it has been silent for long enough, its services are
   joined, and it takes the slot that the source selects exactly if the announcement is news, the entry is new, has room
   for a reference, the dice allow it and the slot is free or its holder terrible. Nothing else of the entry changes.
   */
  lemma AddUpdates(s: State, a: Announce, source: NetAddr, timePenalty: int, now: int, dice: nat)
    requires Sound(s) && a.addr.ip in s.addrs
    ensures var s', id, t := Add(s, a, source, timePenalty, now, dice, true), s.addrs[a.addr.ip], AddSlot(s, a, source);
            && id in s.info && (t in s.news ==> s.news[t] in s.info)
            && KnownUpdated(s, s', id, t, a, if a.addr.ip == source then 0 else timePenalty, now, dice)
  {
    FindExact(s, a.addr.ip);
    var penalty := if a.addr.ip == source then 0 else timePenalty;
    KnownExact(s, s.addrs[a.addr.ip], a, source, penalty, now, dice);
  }

  lemma AddIgnores(s: State, a: Announce, source: NetAddr, timePenalty: int, now: int, dice: nat)
    requires Sound(s)
    ensures Add(s, a, source, timePenalty, now, dice, false) == s
  {
  }

  // ---------------------------------------------------------------- Add_: an unknown address

  ghost predicate NewcomerStored(s: State, s': State, id: int, t: Slot, a: Announce, source: NetAddr, penalty: int)
  {
    && id in s'.info && a.addr.ip in s'.addrs && s'.addrs[a.addr.ip] == id && Taken(s, s', t, id)
    && s'.info[id] == Info(a.addr, source, if a.time <= penalty then 0 else a.time - penalty, a.services, 0, 0, 0, 0, 1,
                           false, s'.info[id].randomPos)
  }

  lemma PlaceNewcomer(s: State, id: int, source: NetAddr, now: int)
    requires Tables(s) && id in s.info && s.info[id].refCount == 0 && SlotsOf(s.news, id) == {}
    ensures var s', t := Place(s, id, source, now), SourceSlot(s, id, source);
            && s'.lastGood == s.lastGood && (t in s.news ==> s.news[t] in s.info)
            && if MayTake(s, id, t, now)
               then Taken(s, s', t, id) && id in s'.info
                    && s'.info[id] == s.info[id].(refCount := 1, randomPos := s'.info[id].randomPos)
               else s'.news == s.news && OthersKept(s, s', {id})
  {
    var t := SourceSlot(s, id, source);
    if t in s.news {
      var x := s.news[t];
      assert x in s.info;
      assert t !in SlotsOf(s.news, id);
    }
    if MayTake(s, id, t, now) {
      TookSlot(s, id, t);
    } else {
      DeleteOthers(s, id);
    }
  }

  lemma NewcomerExact(s: State, a: Announce, source: NetAddr, penalty: int, now: int)
    requires Sound(s) && a.addr.ip !in s.addrs
    ensures var s', t, id := AddUnknown(s, a, source, penalty, now), AddSlot(s, a, source), s.idCount;
            && s'.lastGood == s.lastGood && (t in s.news ==> s.news[t] in s.info)
            && if t !in s.news || s.info[s.news[t]].IsTerrible(now) || s.info[s.news[t]].refCount > 1
               then NewcomerStored(s, s', id, t, a, source, penalty)
               else s'.news == s.news && a.addr.ip !in s'.addrs
  {
    FindExact(s, a.addr.ip);
    EnlistKeeps(s, a, source, penalty);
    var s1, t, id := Enlist(s, a, source, penalty), AddSlot(s, a, source), s.idCount;
    var s' := AddUnknown(s, a, source, penalty, now);
    if t in s.news {
      var x := s.news[t];
      assert x in s.info && s1.info[x] == s.info[x];
    }
    PlaceNewcomer(s1, id, source, now);
    PlaceKeeps(s1, id, source, now);
    if a.addr.ip in s'.addrs {
      assert s'.addrs[a.addr.ip] in s'.info;
    }
  }

  /**
   An unknown address is stored, as announced and with its time penalised, exactly if its slot is free or held by a
   terrible entry or one with other slots; otherwise nothing is stored and no slot changes.
   */
  lemma AddStores(s: State, a: Announce, source: NetAddr, timePenalty: int, now: int, dice: nat)
    requires Sound(s) && a.addr.ip !in s.addrs
    ensures var s', t := Add(s, a, source, timePenalty, now, dice, true), AddSlot(s, a, source);
            && s'.lastGood == s.lastGood && (t in s.news ==> s.news[t] in s.info)
            && if t !in s.news || s.info[s.news[t]].IsTerrible(now) || s.info[s.news[t]].refCount > 1
               then NewcomerStored(s, s', s.idCount, t, a, source, if a.addr.ip == source then 0 else timePenalty)
               else s'.news == s.news && a.addr.ip !in s'.addrs
  {
    FindExact(s, a.addr.ip);
    var penalty := if a.addr.ip == source then 0 else timePenalty;
    NewcomerExact(s, a, source, penalty, now);
  }

  // ---------------------------------------------------------------- Good_

  /** Everything of entry `x` but its place in vRandom. */
  ghost predicate Stays(s: State, s': State, x: int) {
    x in s.info && x in s'.info && s'.info[x] == s.info[x].(randomPos := s'.info[x].randomPos)
  }

  /** The new table without the slots of `id`. */
  function WithoutSlots(news: map<Slot, int>, id: int): map<Slot, int> {
    map t | t in news && news[t] != id :: news[t]
  }

  /** Entry `e`, which had no new slot, has its home slot; whoever held that has made way; the others stay. */
  ghost predicate WentHome(s: State, s': State, e: int, h: Slot, news: map<Slot, int>, except: int) {
    && s'.news == news[h := e] && e in s.info && e in s'.info
    && s'.info[e] == s.info[e].(inTried := false, refCount := 1, randomPos := s'.info[e].randomPos)
    && (h in news ==> MadeWay(s, s', news[h]))
    && (forall x :: x in s.info && x != e && x != except && (h in news ==> x != news[h]) ==> Stays(s, s', x))
  }

  lemma HomeTaken(s: State, e: int)
    requires Tables(s) && e in s.info && !s.info[e].inTried && SlotsOf(s.news, e) == {}
    ensures WentHome(s, SendHome(s, e), e, HomeSlot(s, e), s.news, e)
    ensures SendHome(s, e).lastGood == s.lastGood && SendHome(s, e).tried == s.tried
  {
    var s2 := HomeEmptied(s, e);
    HomeLinkedTo(s, s2, e, HomeSlot(s, e));
  }

  lemma HomeLinkedTo(s: State, s2: State, e: int, h: Slot)
    requires Stays(s, s2, e) && !s.info[e].inTried && s2.news == s.news - {h}
    requires h in s.news ==> s.news[h] != e && MadeWay(s, s2, s.news[h])
    requires forall x :: x in s.info && (h in s.news ==> x != s.news[h]) ==> Stays(s, s2, x)
    ensures WentHome(s, Relinked(s2, e, h), e, h, s.news, e)
  {
    var s' := Relinked(s2, e, h);
    assert s'.news == s.news[h := e];
    forall x | x in s.info && x != e && (h in s.news ==> x != s.news[h])
      ensures Stays(s, s', x)
    {
      assert Stays(s, s2, x);
    }
  }

  lemma HomeEmptied(s: State, e: int) returns (s2: State)
    requires Tables(s) && e in s.info && SlotsOf(s.news, e) == {}
    ensures Stays(s, s2, e) && SendHome(s, e) == Relinked(s2, e, HomeSlot(s, e))
    ensures s2.news == s.news - {HomeSlot(s, e)} && s2.lastGood == s.lastGood && s2.tried == s.tried
    ensures var h := HomeSlot(s, e);
            && (h in s.news ==> s.news[h] != e && MadeWay(s, s2, s.news[h]))
            && (forall x :: x in s.info && (h in s.news ==> x != s.news[h]) ==> Stays(s, s2, x))
  {
    HomeFree(s, e);
    var h := HomeSlot(s, e);
    s2 := ClearNew(s, h);
    ClearOthers(s, h);
    if h in s.news {
      assert h !in SlotsOf(s.news, e);
      ClearedHolder(s, h);
    }
  }

  /** What making space leaves, for an entry `id` that waits without slots. */
  lemma SpaceExact(s: State, t: Slot, id: int)
    requires Tables(s) && t in s.tried && id in s.info && id != s.tried[t] && SlotsOf(s.news, id) == {}
    ensures s.tried[t] in s.info
    ensures var s' := MakeSpace(s, t);
            && WentHome(s, s', s.tried[t], HomeSlot(s, s.tried[t]), s.news, id) && Stays(s, s', id)
            && s'.lastGood == s.lastGood && s'.tried == s.tried - {t}
  {
    EvictedSurvives(s, t);
    MakeSpaceOthers(s, t, id);
    HomeTaken(Evict(s, t), s.tried[t]);
  }

  lemma LeftNew(s: State, id: int) returns (s1: State)
    requires Tables(s) && id in s.info && !s.info[id].inTried
    ensures Tables(s1) && s1.info == s.info[id := s.info[id].(refCount := 0)] && s1.news == WithoutSlots(s.news, id)
    ensures s1.key == s.key && s1.tried == s.tried && s1.lastGood == s.lastGood && SlotsOf(s1.news, id) == {}
    ensures MakeTried(s, id) == PutTried(Vacated(s1, id), id)
  {
    s1 := LeaveNew(s, id);
    DropTables(s, id);
  }

  /** Entry `id` has become tried and has left the new table; nothing else of it has changed. */
  ghost predicate BecameTried(s: State, s': State, id: int) {
    && id in s.info && id in s'.info
    && s'.info[id] == s.info[id].(refCount := 0, inTried := true, randomPos := s'.info[id].randomPos)
  }

  /** What moving an entry to the tried table does to everybody. */
  lemma MakeTriedExact(s: State, id: int)
    requires Tables(s) && id in s.info && !s.info[id].inTried
    ensures var s', t, news := MakeTried(s, id), s.key.TriedSlot(s.info[id].addr), WithoutSlots(s.news, id);
            && BecameTried(s, s', id) && s'.lastGood == s.lastGood
            && (t in s.tried ==> s.tried[t] in s.info && WentHome(s, s', s.tried[t], HomeSlot(s, s.tried[t]), news, id))
            && (t !in s.tried ==> s'.news == news && forall x :: x in s.info && x != id ==> Stays(s, s', x))
  {
    var t := s.key.TriedSlot(s.info[id].addr);
    var s1 := LeftNew(s, id);
    var s2 := Vacated(s1, id);
    if t in s.tried {
      var e := s.tried[t];
      assert e in s.info && e != id;
      SpaceExact(s1, t, id);
      HomeOfOther(s, s1, s2, PutTried(s2, id), id, e);
    }
  }

  lemma HomeOfOther(s: State, s1: State, s2: State, s': State, id: int, e: int)
    requires id in s.info && e in s.info && e != id && s1.info == s.info[id := s.info[id].(refCount := 0)]
    requires s1.key == s.key && WentHome(s1, s2, e, HomeSlot(s1, e), s1.news, id) && id in s2.info
    requires s'.news == s2.news && s'.info == s2.info[id := s2.info[id].(inTried := true)]
    requires forall t :: t in s1.news ==> s1.news[t] != id
    ensures WentHome(s, s', e, HomeSlot(s, e), s1.news, id)
  {
    forall x | x in s.info && x != e && x != id && (HomeSlot(s, e) in s1.news ==> x != s1.news[HomeSlot(s, e)])
      ensures Stays(s, s', x)
    {
      assert Stays(s1, s2, x);
    }
  }

  /** A good connection to a known address is recorded, and makes it tried if it was not. */
  lemma GoodRecords(s: State, addr: Service, time: int)
    requires Sound(s)
    ensures var s' := Good(s, addr, time);
            && s'.lastGood == time
            && (Exact(s, addr).None? ==> s' == s.(lastGood := time))
            && (Exact(s, addr).Some? ==>
                  var id := Exact(s, addr).value;
                  && id in s.info && id in s'.info
                  && s'.info[id] == s.info[id].(lastSuccess := time, lastTry := time, attempts := 0, inTried := true,
                                                refCount := 0, randomPos := s'.info[id].randomPos)
                  && (s.info[id].inTried ==> s'.info == s.info[id := s'.info[id]] && s'.news == s.news))
  {
    match Exact(s, addr)
    case None =>
    case Some(id) =>
      SucceededSound(s, id, time);
      var s1 := SetInfo(s, id, Succeeded(s.info[id], time)).(lastGood := time);
      if s.info[id].inTried {
        assert RefOk(s.info[id], |SlotsOf(s.news, id)|, false);
      } else {
        AlwaysInSomeBucket(s1, id);
        MakeTriedExact(s1, id);
      }
  }

  /** And the others: an entry in its tried slot goes home, whoever was there makes way, the rest stay. */
  lemma GoodMoves(s: State, addr: Service, time: int)
    requires Sound(s) && Exact(s, addr).Some? && !s.info[Exact(s, addr).value].inTried
    ensures var s', id, t := Good(s, addr, time), Exact(s, addr).value, s.key.TriedSlot(addr);
            var news := WithoutSlots(s.news, id);
            && (t in s.tried ==> s.tried[t] in s.info && var i := s.info[s.tried[t]];
                  WentHome(s, s', s.tried[t], s.key.NewSlot(i.addr, s.key.NewBucket(i.addr, i.source)), news, id))
            && (t !in s.tried ==> s'.news == news && forall x :: x in s.info && x != id ==> Stays(s, s', x))
  {
    var id, t := Exact(s, addr).value, s.key.TriedSlot(addr);
    SucceededSound(s, id, time);
    var s1 := SetInfo(s, id, Succeeded(s.info[id], time)).(lastGood := time);
    AlwaysInSomeBucket(s1, id);
    MakeTriedExact(s1, id);
    var s' := Good(s, addr, time);
    if t in s.tried {
      assert s.tried[t] in s.info && s.tried[t] != id;
      OtherRecord(s, s1, s', id, s.tried[t]);
    } else {
      forall x | x in s.info && x != id
        ensures Stays(s, s', x)
      {
        assert Stays(s1, s', x);
      }
    }
  }

  lemma OtherRecord(s: State, s1: State, s': State, id: int, e: int)
    requires id in s.info && e in s.info && e != id && id in s1.info && s1.info == s.info[id := s1.info[id]]
    requires s1.key == s.key && s1.news == s.news
    requires WentHome(s1, s', e, HomeSlot(s1, e), WithoutSlots(s.news, id), id)
    ensures WentHome(s, s', e, HomeSlot(s, e), WithoutSlots(s.news, id), id)
  {
    var news := WithoutSlots(s.news, id);
    forall x | x in s.info && x != e && x != id && (HomeSlot(s, e) in news ==> x != news[HomeSlot(s, e)])
      ensures Stays(s, s', x)
    {
      assert Stays(s1, s', x);
    }
  }

  // ---------------------------------------------------------------- statistics

  /** Only entry `id` has changed. */
  ghost predicate OnlyEntry(s: State, s': State, id: int) {
    id in s.info && id in s'.info && s' == s.(info := s.info[id := s'.info[id]])
  }

  /** A failed attempt counts once until the next good connection anywhere. */
  lemma AttemptRecords(s: State, addr: Service, countFailure: bool, time: int)
    ensures var s' := Attempt(s, addr, countFailure, time);
            && (Exact(s, addr).None? ==> s' == s)
            && (Exact(s, addr).Some? ==>
                  var id := Exact(s, addr).value;
                  && OnlyEntry(s, s', id)
                  && var i, i' := s.info[id], s'.info[id];
                     var counts := countFailure && i.lastCountAttempt < s.lastGood;
                  && i'.lastTry == time && i'.attempts == i.attempts + (if counts then 1 else 0)
                  && i'.lastCountAttempt == (if counts then time else i.lastCountAttempt)
                  && i' == i.(lastTry := time, attempts := i'.attempts, lastCountAttempt := i'.lastCountAttempt))
  {
  }

  lemma AttemptCountsOnce(s: State, addr: Service, time: int, again: int)
    requires time >= s.lastGood
    ensures var s' := Attempt(s, addr, true, time);
            && Exact(s', addr) == Exact(s, addr)
            && forall id :: id in s.info ==>
                 && id in s'.info && id in Attempt(s', addr, true, again).info
                 && Attempt(s', addr, true, again).info[id].attempts == s'.info[id].attempts <= s.info[id].attempts + 1
  {
  }

  lemma ConnectedRecords(s: State, addr: Service, time: int)
    ensures var s' := Connected(s, addr, time);
            && (Exact(s, addr).None? ==> s' == s)
            && (Exact(s, addr).Some? ==>
                  var id := Exact(s, addr).value;
                  && OnlyEntry(s, s', id)
                  && s'.info[id] == s.info[id].(time := s'.info[id].time) && s'.info[id].time >= time - 20 * 60
                  && s'.info[id].time == (if time > s.info[id].time + 20 * 60 then time else s.info[id].time))
  {
  }

  lemma ServicesRecorded(s: State, addr: Service, services: set<nat>)
    ensures var s' := SetServices(s, addr, services);
            && (Exact(s, addr).None? ==> s' == s)
            && (Exact(s, addr).Some? ==>
                  var id := Exact(s, addr).value;
                  OnlyEntry(s, s', id) && s'.info[id] == s.info[id].(services := services))
  {
  }

  /** When an entry is worth replacing: never within a minute of a try; otherwise by age or by failures. */
  lemma TerribleWhen(i: Info, now: int)
    ensures i.lastTry != 0 && now - i.lastTry <= 60 ==> !i.IsTerrible(now)
    ensures i.lastTry == 0 || now - i.lastTry > 60 ==>
              (i.IsTerrible(now) <==>
                 || i.time == 0 || i.time - now > 600 || now - i.time > 7 * 86400
                 || (i.attempts >= 3 && i.lastSuccess == 0) || (i.attempts >= 10 && now - i.lastSuccess > 2 * 86400))
  {
  }
}
