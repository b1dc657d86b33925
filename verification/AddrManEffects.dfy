/**
 What the address manager's two main operations do to its tables, beyond keeping them consistent: which slots and
 entries they may touch, and where the entry in question ends up.
 */
module AddrManEffects {
  import opened AddrMan
  import opened AddrManSteps

  /** Only slot `t` of the new table may differ, and there only `id` may be new. */
  ghost predicate OnlySlot(s: State, s': State, t: Slot, id: int) {
    && (forall u :: u != t ==> (u in s'.news <==> u in s.news) && (u in s.news ==> s'.news[u] == s.news[u]))
    && (t in s'.news ==> s'.news[t] == id || (t in s.news && s'.news[t] == s.news[t]))
  }

  /** Entries other than `id` and the one in slot `t` keep everything but their place in vRandom. */
  ghost predicate OthersStay(s: State, s': State, t: Slot, id: int) {
    forall x :: x in s.info && x != id && (t in s.news ==> x != s.news[t]) ==>
      x in s'.info && s'.info[x] == s.info[x].(randomPos := s'.info[x].randomPos)
  }

  /** Taking a slot: it holds `id` afterwards, and nothing but the slot and its old holder is touched. */
  lemma TakeEffect(s: State, id: int, t: Slot)
    requires Tables(s) && id in s.info && (t in s.news ==> s.news[t] != id)
    ensures id in ClearNew(s, t).info
    ensures var s' := Link(ClearNew(s, t), id, t);
            && s'.tried == s.tried && s'.key == s.key && OnlySlot(s, s', t, id) && OthersStay(s, s', t, id)
            && t in s'.news && s'.news[t] == id && id in s'.info
  {
    ClearOthers(s, t);
  }

  lemma PlaceEffect(s: State, id: int, source: NetAddr, now: int)
    requires Tables(s) && id in s.info
    ensures var s', t := Place(s, id, source, now), SourceSlot(s, id, source);
            && s'.tried == s.tried && s'.key == s.key && OnlySlot(s, s', t, id) && OthersStay(s, s', t, id)
            && (t in s.news ==> s.news[t] in s.info)
            && ((t in s.news && s.news[t] == id) || MayTake(s, id, t, now) ==>
                  t in s'.news && s'.news[t] == id && id in s'.info)
  {
    var t := SourceSlot(s, id, source);
    if t in s.news && s.news[t] == id {
    } else if MayTake(s, id, t, now) {
      TakeEffect(s, id, t);
    } else if s.info[id].refCount == 0 {
      DeleteOthers(s, id);
    }
  }

  /** An entry with a reference survives, gaining at most one more. */
  lemma PlaceOwn(s: State, id: int, source: NetAddr, now: int)
    requires Tables(s) && id in s.info && s.info[id].refCount > 0
    ensures var s' := Place(s, id, source, now);
            && id in s'.info && s.info[id].refCount <= s'.info[id].refCount <= s.info[id].refCount + 1
            && s'.info[id] == s.info[id].(refCount := s'.info[id].refCount, randomPos := s'.info[id].randomPos)
  {
    var t := SourceSlot(s, id, source);
    if t in s.news {
      var x := s.news[t];
      assert x in s.info;
    }
    if !(t in s.news && s.news[t] == id) && MayTake(s, id, t, now) {
      ClearOthers(s, t);
    }
  }

  /** The slot that an announcement by `source` concerns: a known entry keeps the port it was first announced with. */
  ghost function AddSlot(s: State, a: Announce, source: NetAddr): Slot
    requires Sound(s)
  {
    FindExact(s, a.addr.ip);
    var addr := match Find(s, a.addr.ip) case Some(id) => s.info[id].addr case None => a.addr;
    s.key.NewSlot(addr, s.key.NewBucket(addr, source))
  }

  ghost function AddId(s: State, a: Announce): int
    requires Sound(s)
  {
    FindExact(s, a.addr.ip);
    match Find(s, a.addr.ip) case Some(id) => id case None => s.idCount
  }

  ghost predicate Touches(s: State, s': State, t: Slot, id: int) {
    s'.tried == s.tried && OnlySlot(s, s', t, id) && OthersStay(s, s', t, id)
  }

  lemma KnownTouches(s: State, id: int, i: Info, source: NetAddr, now: int)
    requires Tables(s) && id in s.info && Tables(SetInfo(s, id, i)) && i.addr == s.info[id].addr
    ensures var s1, t := SetInfo(s, id, i), SourceSlot(s, id, source);
            Touches(s, s1, t, id) && Touches(s, Place(s1, id, source, now), t, id)
  {
    PlaceEffect(SetInfo(s, id, i), id, source, now);
  }

  lemma UnknownTouches(s: State, a: Announce, source: NetAddr, penalty: int, now: int)
    requires Sound(s) && a.addr.ip !in s.addrs && Tables(Enlist(s, a, source, penalty))
    ensures Touches(s, Place(Enlist(s, a, source, penalty), s.idCount, source, now), AddSlot(s, a, source), s.idCount)
  {
    PlaceEffect(Enlist(s, a, source, penalty), s.idCount, source, now);
  }

  /** An announcement leaves the tried table alone and concerns one slot of the new table and one displaced entry. */
  lemma AddTouches(s: State, a: Announce, source: NetAddr, timePenalty: int, now: int, dice: nat, routable: bool)
    requires Sound(s)
    ensures Touches(s, Add(s, a, source, timePenalty, now, dice, routable), AddSlot(s, a, source), AddId(s, a))
  {
    if routable {
      var penalty := if a.addr.ip == source then 0 else timePenalty;
      FindExact(s, a.addr.ip);
      match Find(s, a.addr.ip)
      case Some(id) =>
        RefreshKeeps(s, id, a, penalty, now);
        KnownTouches(s, id, Refresh(s.info[id], a, penalty, now), source, now);
      case None =>
        EnlistKeeps(s, a, source, penalty);
        UnknownTouches(s, a, source, penalty, now);
    }
  }

  /** An entry without references, not yet in any slot, is kept just when it may take its slot. */
  lemma PlaceFresh(s: State, id: int, source: NetAddr, now: int)
    requires Tables(s) && id in s.info && s.info[id].refCount == 0 && SlotsOf(s.news, id) == {}
    ensures var s', t := Place(s, id, source, now), SourceSlot(s, id, source);
            && (t in s.news ==> s.news[t] in s.info)
            && (id in s'.info <==> MayTake(s, id, t, now))
            && (id in s'.info ==>
                 t in s'.news && s'.news[t] == id && s'.info[id].addr == s.info[id].addr && s'.info[id].refCount == 1)
  {
    var t := SourceSlot(s, id, source);
    if t in s.news {
      var x := s.news[t];
      assert x in s.info;
      assert t !in SlotsOf(s.news, id);
    }
    if MayTake(s, id, t, now) {
      ClearOthers(s, t);
    } else {
      DeleteOthers(s, id);
    }
  }

  /** An announced address that is not known yet gets its slot if that is free or held by a replaceable entry. */
  lemma AddPlaces(s: State, a: Announce, source: NetAddr, timePenalty: int, now: int, dice: nat)
    requires Sound(s) && a.addr.ip !in s.addrs
    ensures var s', t, id := Add(s, a, source, timePenalty, now, dice, true), AddSlot(s, a, source), s.idCount;
            && (t in s.news ==> s.news[t] in s.info)
            && (id in s'.info <==> t !in s.news || s.info[s.news[t]].IsTerrible(now) || s.info[s.news[t]].refCount > 1)
            && (id in s'.info ==>
                 t in s'.news && s'.news[t] == id && s'.info[id].addr == a.addr && s'.info[id].refCount == 1)
  {
    var penalty := if a.addr.ip == source then 0 else timePenalty;
    FindExact(s, a.addr.ip);
    EnlistKeeps(s, a, source, penalty);
    var s1, id, t := Enlist(s, a, source, penalty), s.idCount, AddSlot(s, a, source);
    PlaceFresh(s1, id, source, now);
    if t in s.news {
      var x := s.news[t];
      assert x in s.info;
    }
  }

  /** A known address is never lost by being announced again; it gains the services, and at most one reference. */
  lemma AddRefreshes(s: State, a: Announce, source: NetAddr, timePenalty: int, now: int, dice: nat, routable: bool)
    requires Sound(s) && Find(s, a.addr.ip).Some?
    ensures var s', id := Add(s, a, source, timePenalty, now, dice, routable), AddId(s, a);
            && id in s'.info && id in s.info && s'.info[id].addr == s.info[id].addr
            && s'.info[id].inTried == s.info[id].inTried
            && s.info[id].refCount <= s'.info[id].refCount <= s.info[id].refCount + 1
            && s'.info[id].services == s.info[id].services + if routable then a.services else {}
  {
    FindExact(s, a.addr.ip);
    if routable {
      var penalty, id := if a.addr.ip == source then 0 else timePenalty, AddId(s, a);
      RefreshKeeps(s, id, a, penalty, now);
      var s1 := SetInfo(s, id, Refresh(s.info[id], a, penalty, now));
      if !Refused(s1.info[id], a, dice) {
        assert s1.info[id].refCount > 0;
        PlaceOwn(s1, id, source, now);
      }
    }
  }

  /** Entry `e` is in the new table, in the slot that its own address and source select. */
  ghost predicate BackHome(s: State, e: int) {
    e in s.info && !s.info[e].inTried && HomeSlot(s, e) in s.news && s.news[HomeSlot(s, e)] == e
  }

  lemma SentHome(s: State, e: int)
    requires Tables(s) && e in s.info && !s.info[e].inTried && SlotsOf(s.news, e) == {}
    ensures SendHome(s, e).tried == s.tried && BackHome(SendHome(s, e), e)
  {
    HomeFree(s, e);
    ClearOthers(s, HomeSlot(s, e));
  }

  lemma SpaceMade(s: State, t: Slot)
    requires Tables(s) && t in s.tried
    ensures s.tried[t] in s.info && MakeSpace(s, t).tried == s.tried - {t} && BackHome(MakeSpace(s, t), s.tried[t])
  {
    EvictedSurvives(s, t);
    SentHome(Evict(s, t), s.tried[t]);
  }

  lemma VacatedEffect(s: State, id: int)
    requires Tables(s) && id in s.info && !s.info[id].inTried && SlotsOf(s.news, id) == {}
    ensures var s', t := Vacated(s, id), s.key.TriedSlot(s.info[id].addr);
            && s'.key == s.key && s'.tried == s.tried - {t} && SlotsOf(s'.news, id) == {}
            && (t in s.tried ==> s.tried[t] != id && BackHome(s', s.tried[t]))
  {
    var t := s.key.TriedSlot(s.info[id].addr);
    if t in s.tried {
      var e := s.tried[t];
      assert e in s.info && e != id;
      MakeSpaceOthers(s, t, id);
      SpaceMade(s, t);
    }
  }

  lemma PutTriedEffect(s: State, id: int, e: int)
    requires id in s.info && SlotsOf(s.news, id) == {} && e != id && s.key.TriedSlot(s.info[id].addr) !in s.tried
    ensures var s' := PutTried(s, id);
            && s'.tried == s.tried[s.key.TriedSlot(s.info[id].addr) := id] && SlotsOf(s'.news, id) == {}
            && (BackHome(s, e) ==> BackHome(s', e))
  {
  }

  /** The entry is in its tried slot and in no new slot; whoever had that tried slot is back in the new table. */
  ghost predicate Moved(s: State, s': State, t: Slot, id: int) {
    s'.tried == s.tried[t := id] && SlotsOf(s'.news, id) == {}
        && (t in s.tried && s.tried[t] != id ==> BackHome(s', s.tried[t]))
  }

  lemma VacatedMoves(s: State, id: int, t: Slot)
    requires Tables(s) && id in s.info && !s.info[id].inTried && SlotsOf(s.news, id) == {}
    requires t == s.key.TriedSlot(s.info[id].addr)
    ensures Moved(s, PutTried(Vacated(s, id), id), t, id)
  {
    VacatedEffect(s, id);
    var s2 := Vacated(s, id);
    if t in s.tried {
      PutTriedEffect(s2, id, s.tried[t]);
    }
    assert s2.tried[t := id] == s.tried[t := id];
  }

  lemma SameTried(s: State, s1: State, s': State, t: Slot, id: int)
    requires Moved(s1, s', t, id) && s1.tried == s.tried
    ensures Moved(s, s', t, id)
  {
  }

  /** Moving to the tried table loses neither the entry nor the one it displaces. */
  lemma MakeTriedEffect(s: State, id: int)
    requires Tables(s) && id in s.info && !s.info[id].inTried
    ensures Moved(s, MakeTried(s, id), s.key.TriedSlot(s.info[id].addr), id)
  {
    var t := s.key.TriedSlot(s.info[id].addr);
    var s1 := Dropped(s, id);
    VacatedMoves(s1, id, t);
    SameTried(s, s1, MakeTried(s, id), t, id);
  }

  lemma TriedInPlace(s: State, id: int)
    requires Sound(s) && id in s.info && s.info[id].inTried
    ensures var t := s.key.TriedSlot(s.info[id].addr); Moved(s, s, t, id)
  {
    var t := s.key.TriedSlot(s.info[id].addr);
    assert s.tried == s.tried[t := id];
  }

  /** A good connection to a known entry: only its own tried slot changes, and an entry evicted from it lives on. */
  lemma GoodEffect(s: State, addr: Service, time: int)
    requires Sound(s) && Exact(s, addr).Some?
    ensures Moved(s, Good(s, addr, time), s.key.TriedSlot(addr), Exact(s, addr).value)
  {
    var id := Exact(s, addr).value;
    SucceededSound(s, id, time);
    var s1 := SetInfo(s, id, Succeeded(s.info[id], time)).(lastGood := time);
    if s1.info[id].inTried {
      TriedInPlace(s, id);
    } else {
      AlwaysInSomeBucket(s1, id);
      MakeTriedEffect(s1, id);
    }
  }
}
