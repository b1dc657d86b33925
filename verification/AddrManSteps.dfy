/**
 The operations of the address manager, each built from the table operations and each shown to keep the source's own
 consistency check; hence every sequence of operations does.
 */
module AddrManSteps {
  import opened Common
  import opened AddrMan

  // ---------------------------------------------------------------- operations

  /** Changing only statistics. */
  lemma TouchKeeps(s: State, id: int, i: Info)
    requires Sound(s) && id in s.info && i.SamePlace(s.info[id]) && i.randomPos == s.info[id].randomPos
    ensures Sound(SetInfo(s, id, i))
  {
    IndexOk(s, SetInfo(s, id, i), id, i);
    NewTablesOk(s, SetInfo(s, id, i), id, i);
    SameIds(s, SetInfo(s, id, i), id, i, 0);
  }

  predicate InfoTimesOk(i: Info) {
    i.lastTry >= 0 && i.lastSuccess >= 0 && (i.inTried ==> i.lastSuccess != 0)
  }

  lemma TouchTimes(s: State, id: int, i: Info)
    requires TimesOk(s) && id in s.info
    ensures TimesOk(SetInfo(s, id, i)) <==> InfoTimesOk(i)
  {
    assert SetInfo(s, id, i).info[id] == i;
  }

  function Find(s: State, ip: NetAddr): (r: Option<int>)
    ensures r.Some? ==> r.value in s.info
  {
    if ip in s.addrs && s.addrs[ip] in s.info then Some(s.addrs[ip]) else None
  }

  /** An entry is found by its address, whatever the port, and only by it. */
  lemma FindExact(s: State, ip: NetAddr)
    requires Sound(s)
    ensures Find(s, ip).Some? <==> ip in s.addrs
    ensures Find(s, ip).Some? ==> s.info[Find(s, ip).value].addr.ip == ip
    ensures forall id :: id in s.info && s.info[id].addr.ip == ip ==> Find(s, ip) == Some(id)
  {
    if ip in s.addrs {
      var id := s.addrs[ip];
      assert id in s.info;
    }
  }

  /** Attempt_, Connected_, SetServices_ and the head of Good_ touch an entry only if the port matches too. */
  function Exact(s: State, addr: Service): Option<int> {
    match Find(s, addr.ip)
    case None => None
    case Some(id) => if s.info[id].addr == addr then Some(id) else None
  }

  function Attempt(s: State, addr: Service, countFailure: bool, time: int): State {
    match Exact(s, addr)
    case None => s
    case Some(id) =>
      var i := s.info[id].(lastTry := time);
      SetInfo(s, id, if countFailure && i.lastCountAttempt < s.lastGood
                     then i.(lastCountAttempt := time, attempts := i.attempts + 1) else i)
  }

  function Connected(s: State, addr: Service, time: int): State {
    match Exact(s, addr)
    case None => s
    case Some(id) => if time - s.info[id].time > 20 * 60 then SetInfo(s, id, s.info[id].(time := time)) else s
  }

  function SetServices(s: State, addr: Service, services: set<nat>): State {
    match Exact(s, addr)
    case None => s
    case Some(id) => SetInfo(s, id, s.info[id].(services := services))
  }

  /** Good_'s search: is the entry in some new bucket? */
  predicate InSomeBucket(s: State, id: int)
    requires id in s.info
  {
    exists b :: 0 <= b < NEW_BUCKET_COUNT && s.key.NewSlot(s.info[id].addr, b) in s.news
        && s.news[s.key.NewSlot(s.info[id].addr, b)] == id
  }

  /** The exit for "something bad happened" is never taken. */
  lemma AlwaysInSomeBucket(s: State, id: int)
    requires Sound(s) && id in s.info && !s.info[id].inTried
    ensures InSomeBucket(s, id)
  {
    assert |SlotsOf(s.news, id)| > 0;
    var t :| t in SlotsOf(s.news, id);
    assert t == s.key.NewSlot(s.info[id].addr, t.0);
  }

  /** The entry once a connection to it has succeeded. */
  function Succeeded(i: Info, time: int): Info {
    i.(lastSuccess := time, lastTry := time, attempts := 0)
  }

  lemma SucceededSound(s: State, id: int, time: int)
    requires Sound(s) && id in s.info
    ensures Sound(SetInfo(s, id, Succeeded(s.info[id], time)).(lastGood := time))
  {
    TouchKeeps(s, id, Succeeded(s.info[id], time));
    LastGoodKeeps(SetInfo(s, id, Succeeded(s.info[id], time)), time);
  }

  lemma LastGoodKeeps(s: State, time: int)
    requires Sound(s)
    ensures Sound(s.(lastGood := time))
  {
    SameTablesKeeps(s, s.(lastGood := time), {}, 0);
  }

  /** The end of Good_: a new entry that is in some bucket moves. */
  function Promoted(s: State, id: int): State
    requires Sound(s) && id in s.info
  {
    if s.info[id].inTried || !InSomeBucket(s, id) then s else MakeTried(s, id)
  }

  function Good(s: State, addr: Service, time: int): State
    requires Sound(s)
  {
    match Exact(s, addr)
    case None => s.(lastGood := time)
    case Some(id) =>
      SucceededSound(s, id, time);
      Promoted(SetInfo(s, id, Succeeded(s.info[id], time)).(lastGood := time), id)
  }

  /** A good connection, at whatever time, moves the entry to the tried table, where its hash says. */
  lemma GoodKeeps(s: State, addr: Service, time: int)
    requires Sound(s)
    ensures Sound(Good(s, addr, time))
    ensures Exact(s, addr).Some? ==>
              var id, s' := Exact(s, addr).value, Good(s, addr, time);
              id in s'.info && s'.info[id].inTried && s'.info[id].lastSuccess == time && s'.info[id].addr == addr
  {
    match Exact(s, addr)
    case None => LastGoodKeeps(s, time);
    case Some(id) =>
      SucceededSound(s, id, time);
      var s1 := SetInfo(s, id, Succeeded(s.info[id], time)).(lastGood := time);
      if !s1.info[id].inTried {
        AlwaysInSomeBucket(s1, id);
        MakeTriedKeeps(s1, id);
        MakeTriedMoves(s1, id);
      }
  }

  /** The full check survives `Good_` exactly if the time is positive or the entry unknown. */
  lemma GoodChecksIff(s: State, addr: Service, time: int)
    requires Check(s)
    ensures Check(Good(s, addr, time)) <==> Exact(s, addr).None? || time > 0
  {
    GoodKeeps(s, addr, time);
    match Exact(s, addr)
    case None => TimesKept(s, s.(lastGood := time));
    case Some(id) =>
      SucceededSound(s, id, time);
      var s1 := SetInfo(s, id, Succeeded(s.info[id], time)).(lastGood := time);
      if time > 0 {
        TouchTimes(s, id, Succeeded(s.info[id], time));
        TimesKept(SetInfo(s, id, Succeeded(s.info[id], time)), s1);
        if !s1.info[id].inTried {
          MakeTriedTimes(s1, id);
        }
      }
  }

  lemma MakeTriedMoves(s: State, id: int)
    requires Tables(s) && id in s.info && !s.info[id].inTried
    ensures var s' := MakeTried(s, id);
            id in s'.info && s'.info[id] == s.info[id].(refCount := 0, inTried := true,
                randomPos := s'.info[id].randomPos)
  {
    DropTables(s, id);
  }

  // ---------------------------------------------------------------- Add_

  datatype Announce = Announce(addr: Service, time: int, services: set<nat>)

  /** Time and services of a known entry follow the announcement. */
  function Refresh(i: Info, a: Announce, penalty: int, now: int): Info {
    var interval := if now - a.time < 24 * 60 * 60 then 60 * 60 else 24 * 60 * 60;
    var time :=
      if a.time != 0 && (i.time == 0 || i.time < a.time - interval - penalty)
      then if a.time - penalty > 0 then a.time - penalty else 0
      else i.time;
    i.(time := time, services := i.services + a.services)
  }

  /**
   An announced time never sets an entry back, moves it by more than an hour if at all, and a repetition of the same
   announcement changes nothing more.
   */
  lemma RefreshSettles(i: Info, a: Announce, penalty: int, now: int)
    ensures var r := Refresh(i, a, penalty, now);
            && r.SamePlace(i) && i.services <= r.services && r.time >= i.time
            && (r.time != i.time && i.time != 0 ==> r.time > i.time + 60 * 60)
            && Refresh(r, a, penalty, now) == r
  {
  }

  /** Nothing new, already tried, enough references, or the dice say no. */
  predicate Refused(i: Info, a: Announce, dice: nat) {
    || a.time == 0 || (i.time != 0 && a.time <= i.time)
    || i.inTried || i.refCount == NEW_BUCKETS_PER_ADDRESS || (i.refCount > 0 && dice != 0)
  }

  function SourceSlot(s: State, id: int, source: NetAddr): Slot
    requires id in s.info
  {
    s.key.NewSlot(s.info[id].addr, s.key.NewBucket(s.info[id].addr, source))
  }

  /** May the entry take the slot? */
  predicate MayTake(s: State, id: int, t: Slot, now: int)
    requires id in s.info && (t in s.news ==> s.news[t] in s.info)
  {
    t !in s.news || s.info[s.news[t]].IsTerrible(now) || (s.info[s.news[t]].refCount > 1 && s.info[id].refCount == 0)
  }

  /** The end of Add_: give the entry the slot that its source selects, or drop an entry without any slot. */
  function Place(s: State, id: int, source: NetAddr, now: int): State
    requires Tables(s) && id in s.info
  {
    var t := SourceSlot(s, id, source);
    if t in s.news && s.news[t] == id then s
    else if MayTake(s, id, t, now) then
      ClearOthers(s, t);
      Link(ClearNew(s, t), id, t)
    else if s.info[id].refCount == 0 then Delete(s, id)
    else s
  }

  lemma TakeKeeps(s: State, id: int, t: Slot)
    requires Midway(s, {id}, 0) && id in s.info && !s.info[id].inTried && s.info[id].refCount < NEW_BUCKETS_PER_ADDRESS
    requires 0 <= t.0 < NEW_BUCKET_COUNT && t == s.key.NewSlot(s.info[id].addr, t.0)
             && (t in s.news ==> s.news[t] != id)
    ensures id in ClearNew(s, t).info && Sound(Link(ClearNew(s, t), id, t))
  {
    ClearOthers(s, t);
    ClearKeeps(s, t, {id}, 0);
    LinkKeeps(ClearNew(s, t), id, t, {id}, 0);
    assert {id} - {id} == {};
  }

  lemma PlaceKeeps(s: State, id: int, source: NetAddr, now: int)
    requires Midway(s, {id}, 0) && id in s.info && !s.info[id].inTried && s.info[id].refCount < NEW_BUCKETS_PER_ADDRESS
    ensures Sound(Place(s, id, source, now))
  {
    var t := SourceSlot(s, id, source);
    assert {} + {id} == {id};
    if t in s.news && s.news[t] == id {
      assert t in SlotsOf(s.news, id);
      LimboShrinks(s, {}, id, 0);
    } else if MayTake(s, id, t, now) {
      TakeKeeps(s, id, t);
    } else if s.info[id].refCount == 0 {
      DeleteKeeps(s, id, {id}, 0);
      DeleteOthers(s, id);
      LimboShrinks(Delete(s, id), {}, id, 0);
    } else {
      LimboShrinks(s, {}, id, 0);
    }
  }

  /** A new entry, counted but not yet in any slot. */
  function Enlist(s: State, a: Announce, source: NetAddr, penalty: int): State {
    Create(s, a.addr, if a.time - penalty > 0 then a.time - penalty else 0, a.services, source).(nNew := s.nNew + 1)
  }

  lemma EnlistKeeps(s: State, a: Announce, source: NetAddr, penalty: int)
    requires Sound(s) && a.addr.ip !in s.addrs
    ensures Midway(Enlist(s, a, source, penalty), {s.idCount}, 0)
  {
    var time := if a.time - penalty > 0 then a.time - penalty else 0;
    CreateKeeps(s, a.addr, time, a.services, source);
    CountOne(Create(s, a.addr, time, a.services, source), {s.idCount}, 1);
  }

  lemma RefreshKeeps(s: State, id: int, a: Announce, penalty: int, now: int)
    requires Sound(s) && id in s.info
    ensures Sound(SetInfo(s, id, Refresh(s.info[id], a, penalty, now)))
  {
    TouchKeeps(s, id, Refresh(s.info[id], a, penalty, now));
  }

  function AddKnown(s: State, id: int, a: Announce, source: NetAddr, penalty: int, now: int, dice: nat): State
    requires Sound(s) && id in s.info
  {
    RefreshKeeps(s, id, a, penalty, now);
    var s1 := SetInfo(s, id, Refresh(s.info[id], a, penalty, now));
    if Refused(s1.info[id], a, dice) then s1 else Place(s1, id, source, now)
  }

  function AddUnknown(s: State, a: Announce, source: NetAddr, penalty: int, now: int): State
    requires Sound(s) && a.addr.ip !in s.addrs
  {
    EnlistKeeps(s, a, source, penalty);
    Place(Enlist(s, a, source, penalty), s.idCount, source, now)
  }

  function Add(s: State, a: Announce, source: NetAddr, timePenalty: int, now: int, dice: nat, routable: bool): State
    requires Sound(s)
  {
    if !routable then s
    else
      var penalty := if a.addr.ip == source then 0 else timePenalty;
      FindExact(s, a.addr.ip);
      match Find(s, a.addr.ip)
      case Some(id) => AddKnown(s, id, a, source, penalty, now, dice)
      case None => AddUnknown(s, a, source, penalty, now)
  }

  lemma WiderLimbo(s: State, id: int)
    requires Sound(s)
    ensures Midway(s, {id}, 0)
  {
  }

  lemma AddKeeps(s: State, a: Announce, source: NetAddr, timePenalty: int, now: int, dice: nat, routable: bool)
    requires Sound(s)
    ensures Sound(Add(s, a, source, timePenalty, now, dice, routable))
  {
    if routable {
      var penalty := if a.addr.ip == source then 0 else timePenalty;
      FindExact(s, a.addr.ip);
      match Find(s, a.addr.ip)
      case Some(id) =>
        RefreshKeeps(s, id, a, penalty, now);
        var s1 := SetInfo(s, id, Refresh(s.info[id], a, penalty, now));
        if !Refused(s1.info[id], a, dice) {
          WiderLimbo(s1, id);
          PlaceKeeps(s1, id, source, now);
        }
      case None =>
        EnlistKeeps(s, a, source, penalty);
        PlaceKeeps(Enlist(s, a, source, penalty), s.idCount, source, now);
    }
  }

  lemma PlaceTimes(s: State, id: int, source: NetAddr, now: int)
    requires Tables(s) && id in s.info
    ensures TimesFrom(s, Place(s, id, source, now))
  {
    var t := SourceSlot(s, id, source);
    if t in s.news && s.news[t] == id {
    } else if MayTake(s, id, t, now) {
      ClearOthers(s, t);
      ClearTimes(s, t);
      TimesTrans(s, ClearNew(s, t), Place(s, id, source, now));
    } else if s.info[id].refCount == 0 {
      DeleteTimes(s, id);
    }
  }

  lemma KnownTimes(s: State, id: int, i: Info, source: NetAddr, now: int)
    requires TimesOk(s) && id in s.info && InfoTimesOk(i) && Tables(SetInfo(s, id, i))
    ensures TimesOk(SetInfo(s, id, i)) && TimesOk(Place(SetInfo(s, id, i), id, source, now))
  {
    TouchTimes(s, id, i);
    PlaceTimes(SetInfo(s, id, i), id, source, now);
    TimesKept(SetInfo(s, id, i), Place(SetInfo(s, id, i), id, source, now));
  }

  lemma UnknownTimes(s: State, a: Announce, source: NetAddr, penalty: int, now: int)
    requires TimesOk(s) && Tables(Enlist(s, a, source, penalty))
    ensures TimesOk(Place(Enlist(s, a, source, penalty), s.idCount, source, now))
  {
    PlaceTimes(Enlist(s, a, source, penalty), s.idCount, source, now);
    TimesKept(Enlist(s, a, source, penalty), Place(Enlist(s, a, source, penalty), s.idCount, source, now));
  }

  lemma AddTimes(s: State, a: Announce, source: NetAddr, timePenalty: int, now: int, dice: nat, routable: bool)
    requires Check(s)
    ensures TimesOk(Add(s, a, source, timePenalty, now, dice, routable))
  {
    if routable {
      var penalty := if a.addr.ip == source then 0 else timePenalty;
      FindExact(s, a.addr.ip);
      match Find(s, a.addr.ip)
      case Some(id) =>
        RefreshKeeps(s, id, a, penalty, now);
        KnownTimes(s, id, Refresh(s.info[id], a, penalty, now), source, now);
      case None =>
        EnlistKeeps(s, a, source, penalty);
        UnknownTimes(s, a, source, penalty, now);
    }
  }

  lemma AddChecks(s: State, a: Announce, source: NetAddr, timePenalty: int, now: int, dice: nat, routable: bool)
    requires Sound(s)
    ensures var s' := Add(s, a, source, timePenalty, now, dice, routable); Sound(s') && (Check(s) ==> Check(s'))
  {
    AddKeeps(s, a, source, timePenalty, now, dice, routable);
    if Check(s) {
      AddTimes(s, a, source, timePenalty, now, dice, routable);
    }
  }

  // ---------------------------------------------------------------- runs

  datatype Label =
    | DoAdd(a: Announce, source: NetAddr, penalty: int, now: int, dice: nat, routable: bool)
    | DoGood(addr: Service, time: int)
    | DoAttempt(addr: Service, countFailure: bool, time: int)
    | DoConnected(addr: Service, time: int)
    | DoSetServices(addr: Service, services: set<nat>)
    | DoSwap(i: nat, j: nat)    // one round of GetAddr_

  /** GetAddr_ swaps inside the vector; everything else may come with any argument. */
  predicate Enabled(s: State, l: Label) {
    l.DoSwap? ==> l.i < |s.random| && l.j < |s.random|
  }

  function Step(s: State, l: Label): State
    requires Sound(s) && Enabled(s, l)
  {
    match l
    case DoAdd(a, source, penalty, now, dice, routable) => Add(s, a, source, penalty, now, dice, routable)
    case DoGood(addr, time) => Good(s, addr, time)
    case DoAttempt(addr, countFailure, time) => Attempt(s, addr, countFailure, time)
    case DoConnected(addr, time) => Connected(s, addr, time)
    case DoSetServices(addr, services) => SetServices(s, addr, services)
    case DoSwap(i, j) => SwapRandom(s, i, j)
  }

  lemma StatisticsKeep(s: State, l: Label)
    requires Sound(s) && (l.DoAttempt? || l.DoConnected? || l.DoSetServices?)
    ensures Sound(Step(s, l))
  {
    match Exact(s, l.addr)
    case None =>
    case Some(id) =>
      if Step(s, l) != s {
        TouchKeeps(s, id, Step(s, l).info[id]);
      }
  }

  lemma StepKeeps(s: State, l: Label)
    requires Sound(s) && Enabled(s, l)
    ensures Sound(Step(s, l))
  {
    match l
    case DoAdd(a, source, penalty, now, dice, routable) => AddKeeps(s, a, source, penalty, now, dice, routable);
    case DoGood(addr, time) => GoodKeeps(s, addr, time);
    case DoSwap(i, j) => SwapKeeps(s, i, j, {}, 0);
    case _ => StatisticsKeep(s, l);
  }

  /** The time comes from a clock that Check_ accepts. */
  predicate TimeOk(s: State, l: Label) {
    match l
    case DoGood(addr, time) => Exact(s, addr).None? || time > 0
    case DoAttempt(addr, _, time) => Exact(s, addr).None? || time >= 0
    case _ => true
  }

  lemma StatisticsTimes(s: State, l: Label)
    requires Check(s) && (l.DoAttempt? || l.DoConnected? || l.DoSetServices?)
    ensures TimesOk(Step(s, l)) <==> TimeOk(s, l)
  {
    match Exact(s, l.addr)
    case None =>
    case Some(id) =>
      if Step(s, l) != s {
        TouchTimes(s, id, Step(s, l).info[id]);
      }
  }

  /** The full check survives an operation exactly if its time is one that the check accepts. */
  lemma StepChecksIff(s: State, l: Label)
    requires Check(s) && Enabled(s, l)
    ensures Check(Step(s, l)) <==> TimeOk(s, l)
  {
    StepKeeps(s, l);
    match l
    case DoAdd(a, source, penalty, now, dice, routable) => AddTimes(s, a, source, penalty, now, dice, routable);
    case DoGood(addr, time) => GoodChecksIff(s, addr, time);
    case DoSwap(i, j) => SwapSameTables(s, i, j);
    case _ => StatisticsTimes(s, l);
  }

  function Fresh(key: Key): State {
    State(key, 0, map[], map[], [], 0, map[], 0, map[], 1)
  }

  lemma FreshChecks(key: Key)
    ensures Check(Fresh(key))
  {
    assert TriedIds(Fresh(key)) == {} && NewIds(Fresh(key)) == {};
  }

  ghost predicate IsRun(states: seq<State>, labels: seq<Label>) {
    && |states| == |labels| + 1
    && states[0] == Fresh(states[0].key)
    && (forall k :: 0 <= k < |labels| ==>
          Enabled(states[k], labels[k]) && (Sound(states[k]) ==> states[k + 1] == Step(states[k], labels[k])))
  }

  /** Every state of every run is sound, whatever the times. */
  lemma {:induction false} RunSound(states: seq<State>, labels: seq<Label>, k: nat)
    requires IsRun(states, labels) && k < |states|
    ensures Sound(states[k])
  {
    if k == 0 {
      FreshChecks(states[0].key);
    } else {
      RunSound(states, labels, k - 1);
      assert states[k - 1 + 1] == Step(states[k - 1], labels[k - 1]);
      StepKeeps(states[k - 1], labels[k - 1]);
    }
  }

  /** Every state of every run whose clocks show proper times passes the full consistency check. */
  lemma {:induction false} RunChecks(states: seq<State>, labels: seq<Label>, k: nat)
    requires IsRun(states, labels) && k < |states|
    requires forall j :: 0 <= j < k ==> TimeOk(states[j], labels[j])
    ensures Check(states[k])
  {
    if k == 0 {
      FreshChecks(states[0].key);
    } else {
      RunChecks(states, labels, k - 1);
      assert states[k - 1 + 1] == Step(states[k - 1], labels[k - 1]);
      StepChecksIff(states[k - 1], labels[k - 1]);
    }
  }
}
