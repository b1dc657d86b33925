/**
 Saving and loading the address manager. Ids are not stored: the file lists new entries, then tried ones, and
 the buckets by position in the first list. Loading what was saved gives the same tables up to renaming.
 */
module AddrManStore {
  import opened AddrMan
  import opened AddrManSteps
  import opened AddrManager

  /** What of an entry goes to disk. */
  datatype Saved = Saved(addr: Service, time: int, services: set<nat>, source: NetAddr, lastSuccess: int, attempts: int)

  function Save(i: Info): Saved {
    Saved(i.addr, i.time, i.services, i.source, i.lastSuccess, i.attempts)
  }

  function Load(p: Saved, refCount: int, inTried: bool, randomPos: int): Info {
    Info(p.addr, p.source, p.time, p.services, 0, 0, p.lastSuccess, p.attempts, refCount, inTried, randomPos)
  }

  datatype File = File(version: int, news: seq<Saved>, trieds: seq<Saved>, buckets: seq<seq<int>>)
  {
    /** Whether the bucket lists can be used. */
    predicate Usable() {
      version == 1 && |buckets| == NEW_BUCKET_COUNT
    }
  }

  // ---------------------------------------------------------------- naming by position

  /** The entries in the order of the file, and each one's place there. */
  datatype Naming = Naming(all: seq<int>, at: map<int, int>)

  predicate Inverse(c: Naming) {
    && (forall id :: id in c.at ==> 0 <= c.at[id] < |c.all| && c.all[c.at[id]] == id)
    && (forall k :: 0 <= k < |c.all| ==> c.all[k] in c.at && c.at[c.all[k]] == k)
  }

  /** Every entry is named once: first the new ones, then the tried ones. */
  predicate Names(s: State, c: Naming) {
    && Inverse(c) && 0 <= s.nNew <= |c.all|
    && (forall k :: 0 <= k < |c.all| ==> c.all[k] in s.info)
    && (forall id :: id in s.info ==> id in c.at && (s.info[id].inTried <==> s.nNew <= c.at[id]))
  }

  /** The occupied slots of a bucket, by position. */
  function Occupied(news: map<Slot, int>, bucket: int, n: nat): seq<Slot> {
    if n == 0 then []
    else Occupied(news, bucket, n - 1) + if (bucket, n - 1) in news then [(bucket, n - 1)] else []
  }

  lemma {:induction false} OccupiedExact(news: map<Slot, int>, bucket: int, n: nat)
    ensures forall t :: t in Occupied(news, bucket, n) <==> t in news && t.0 == bucket && 0 <= t.1 < n
    ensures forall i, j :: 0 <= i < j < |Occupied(news, bucket, n)| ==>
            Occupied(news, bucket, n)[i].1 < Occupied(news, bucket, n)[j].1
  {
    if n > 0 {
      OccupiedExact(news, bucket, n - 1);
      var before := Occupied(news, bucket, n - 1);
      forall t
        ensures t in Occupied(news, bucket, n) <==> t in news && t.0 == bucket && 0 <= t.1 < n
      {
        assert t in before <==> t in news && t.0 == bucket && 0 <= t.1 < n - 1;
      }
      forall i | 0 <= i < |before|
        ensures before[i].1 < n - 1
      {
        assert before[i] in before;
      }
    }
  }

  /** The file lists the manager's entries under the names of `c`, */
  ghost predicate ListsEntries(s: State, c: Naming, f: File) {
    && Names(s, c)
    && |f.news| == s.nNew && |f.trieds| == s.nTried && |c.all| == s.nNew + s.nTried
    && (forall k :: 0 <= k < s.nNew ==> f.news[k] == Save(s.info[c.all[k]]))
    && (forall k :: 0 <= k < s.nTried ==> f.trieds[k] == Save(s.info[c.all[s.nNew + k]]))
  }

  /** and for each bucket of `size` places the names of what is in it. */
  ghost predicate ListsBuckets(s: State, c: Naming, f: File, size: nat) {
    f.Usable() && forall b :: 0 <= b < NEW_BUCKET_COUNT ==> IsBucket(s.news, c.all, b, f.buckets[b], size)
  }

  predicate IsBucket(news: map<Slot, int>, all: seq<int>, b: int, list: seq<int>, size: nat) {
    var slots := Occupied(news, b, size);
    |list| == |slots| && forall j :: 0 <= j < |list| ==>
      0 <= list[j] < |all| && slots[j] in news && all[list[j]] == news[slots[j]]
  }

  // ---------------------------------------------------------------- the loaded manager

  /** The first `n` entries under their new names, when the slots `read` have been read. */
  ghost predicate InfoLoaded(info: map<int, Info>, s: State, c: Naming, n: nat, read: set<Slot>)
    requires Names(s, c) && n <= |c.all|
  {
    && (forall k :: k in info <==> 0 <= k < n)
    && (forall k :: 0 <= k < n ==>
          info[k] == Load(Save(s.info[c.all[k]]), |SlotsOf(s.news, c.all[k]) * read|, s.info[c.all[k]].inTried, k))
  }

  /** A table with ids replaced by positions, as far as the first `n` go. */
  ghost predicate TableLoaded<K(!new)>(m: map<K, int>, table: map<K, int>, c: Naming, n: nat) {
    && (forall t :: t in m ==> t in table && table[t] in c.at && m[t] == c.at[table[t]] < n)
    && (forall t :: t in table && table[t] in c.at && c.at[table[t]] < n ==> t in m)
  }

  function Restrict(news: map<Slot, int>, read: set<Slot>): map<Slot, int> {
    map t | t in news && t in read :: news[t]
  }

  /** The loaded manager when `n` entries and the slots `read` have been read. */
  ghost predicate IsLoaded(r: State, s: State, c: Naming, n: nat, read: set<Slot>)
    requires Names(s, c) && n <= |c.all|
  {
    && r == s.(idCount := r.idCount, info := r.info, addrs := r.addrs, random := r.random, tried := r.tried,
       news := r.news, lastGood := 1)
    && InfoLoaded(r.info, s, c, n, read)
    && TableLoaded(r.addrs, s.addrs, c, n)
    && TableLoaded(r.tried, s.tried, c, n)
    && TableLoaded(r.news, Restrict(s.news, read), c, |c.all|)
    && |r.random| == n && forall i :: 0 <= i < n ==> r.random[i] == i
  }

  // ---------------------------------------------------------------- reading

  /** One round of the loop over the new entries; without usable buckets it goes where its source puts it. */
  function ReadNew(r: State, usable: bool, n: int, p: Saved): State {
    var r1 := r.(info := r.info[n := Load(p, 0, false, |r.random|)], addrs := r.addrs[p.addr.ip := n],
        random := r.random + [n]);
    var t := r.key.NewSlot(p.addr, r.key.NewBucket(p.addr, p.source));
    if usable || t in r1.news then r1 else Link(r1, n, t)
  }

  function ReadNews(r: State, usable: bool, ps: seq<Saved>): State {
    if ps == [] then r
    else ReadNew(ReadNews(r, usable, ps[..|ps| - 1]), usable, |ps| - 1, ps[|ps| - 1])
  }

  /** One round of the loop over the tried entries; a taken slot loses the entry. */
  function ReadTried(r: State, p: Saved): State {
    var t := r.key.TriedSlot(p.addr);
    if t in r.tried then r.(nTried := r.nTried - 1)
    else
      var id := r.idCount;
      r.(info := r.info[id := Load(p, 0, true, |r.random|)], addrs := r.addrs[p.addr.ip := id],
          random := r.random + [id],
         tried := r.tried[t := id], idCount := id + 1)
  }

  function ReadTrieds(r: State, ps: seq<Saved>): State {
    if ps == [] then r
    else ReadTried(ReadTrieds(r, ps[..|ps| - 1]), ps[|ps| - 1])
  }

  /** One index read from a bucket. */
  function ReadSlot(r: State, bucket: int, index: int): State {
    if !(0 <= index < r.nNew && index in r.info) then r
    else
      var t := r.key.NewSlot(r.info[index].addr, bucket);
      if t in r.news || r.info[index].refCount >= NEW_BUCKETS_PER_ADDRESS then r
      else Link(r, index, t)
  }

  function ReadBucket(r: State, bucket: int, list: seq<int>): State {
    if list == [] then r
    else ReadSlot(ReadBucket(r, bucket, list[..|list| - 1]), bucket, list[|list| - 1])
  }

  function ReadBuckets(r: State, lists: seq<seq<int>>): State {
    if lists == [] then r
    else ReadBucket(ReadBuckets(r, lists[..|lists| - 1]), |lists| - 1, lists[|lists| - 1])
  }

  function ReadEntries(key: Key, f: File): State {
    var r := ReadNews(Fresh(key).(nNew := |f.news|, nTried := |f.trieds|), f.Usable(), f.news);
    ReadTrieds(r.(idCount := |f.news|), f.trieds)
  }

  /** Everything up to the pruning. */
  function ReadAll(key: Key, f: File): State {
    if f.Usable() then ReadBuckets(ReadEntries(key, f), f.buckets) else ReadEntries(key, f)
  }

  predicate NothingToPrune(r: State) {
    forall id :: id in r.info ==> r.info[id].inTried || r.info[id].refCount != 0
  }

  /** If `key` is the only place where the n-th id occurs, one more entry adds exactly that place. */
  lemma TableStep<K(!new)>(m: map<K, int>, table: map<K, int>, c: Naming, n: nat, key: K)
    requires Inverse(c) && TableLoaded(m, table, c, n) && n < |c.all| && key in table && table[key] == c.all[n]
    requires forall t :: t in table && table[t] == c.all[n] ==> t == key
    ensures key !in m && TableLoaded(m[key := n], table, c, n + 1)
  {
  }

  lemma TableSame<K(!new)>(m: map<K, int>, table: map<K, int>, c: Naming, n: nat)
    requires Inverse(c) && TableLoaded(m, table, c, n) && n < |c.all| && forall t :: t in table ==> table[t] != c.all[n]
    ensures TableLoaded(m, table, c, n + 1)
  {
  }

  lemma AddrsStep(addrs: map<NetAddr, int>, s: State, c: Naming, n: nat)
    requires Names(s, c) && AddrsOk(s) && n < |c.all| && TableLoaded(addrs, s.addrs, c, n)
    ensures TableLoaded(addrs[s.info[c.all[n]].addr.ip := n], s.addrs, c, n + 1)
  {
    var id := c.all[n];
    assert id in s.info;
    forall a | a in s.addrs && s.addrs[a] == id
      ensures a == s.info[id].addr.ip
    {
      var x := s.addrs[a];
      assert x in s.info;
    }
    TableStep(addrs, s.addrs, c, n, s.info[id].addr.ip);
  }

  lemma TriedStep(tried: map<Slot, int>, s: State, c: Naming, n: nat)
    requires Names(s, c) && TriedOk(s) && n < |c.all| && TableLoaded(tried, s.tried, c, n)
    ensures n < s.nNew ==> TableLoaded(tried, s.tried, c, n + 1)
    ensures var t := s.key.TriedSlot(s.info[c.all[n]].addr);
            s.nNew <= n ==> t !in tried && TableLoaded(tried[t := n], s.tried, c, n + 1)
  {
    var id := c.all[n];
    assert id in s.info;
    if n < s.nNew {
      TableSame(tried, s.tried, c, n);
    } else {
      TableStep(tried, s.tried, c, n, s.key.TriedSlot(s.info[id].addr));
    }
  }

  lemma InfoStep(info: map<int, Info>, s: State, c: Naming, n: nat)
    requires Names(s, c) && n < |c.all| && InfoLoaded(info, s, c, n, {})
    ensures InfoLoaded(info[n := Load(Save(s.info[c.all[n]]), 0, s.info[c.all[n]].inTried, n)], s, c, n + 1, {})
  {
    assert SlotsOf(s.news, c.all[n]) * {} == {};
  }

  /** Reading the n-th entry names it `n` and loses nothing. */
  lemma NewEntryStep(r: State, s: State, c: Naming, n: nat)
    requires Names(s, c) && AddrsOk(s) && TriedOk(s) && n < s.nNew && IsLoaded(r, s, c, n, {})
    ensures IsLoaded(ReadNew(r, true, n, Save(s.info[c.all[n]])), s, c, n + 1, {})
  {
    AddrsStep(r.addrs, s, c, n);
    TriedStep(r.tried, s, c, n);
    InfoStep(r.info, s, c, n);
  }

  lemma TriedEntryStep(r: State, s: State, c: Naming, n: nat)
    requires Names(s, c) && AddrsOk(s) && TriedOk(s) && s.nNew <= n < |c.all| && IsLoaded(r, s, c, n, {})
             && r.idCount == n
    ensures IsLoaded(ReadTried(r, Save(s.info[c.all[n]])), s, c, n + 1, {})
    ensures ReadTried(r, Save(s.info[c.all[n]])).idCount == n + 1
  {
    AddrsStep(r.addrs, s, c, n);
    TriedStep(r.tried, s, c, n);
    InfoStep(r.info, s, c, n);
  }

  lemma SmallerSet(a: set<Slot>, b: set<Slot>)
    requires a < b
    ensures |a| < |b|
  {
    var rest := b - a;
    assert b == a + rest && a !! rest;
    assert rest != {};
  }

  lemma RefCountStep(a: set<Slot>, read: set<Slot>, t: Slot)
    requires t !in read
    ensures |a * (read + {t})| == |a * read| + if t in a then 1 else 0
  {
    if t in a {
      assert a * (read + {t}) == a * read + {t};
    } else {
      assert a * (read + {t}) == a * read;
    }
  }

  lemma RefStep(info: map<int, Info>, s: State, c: Naming, read: set<Slot>, t: Slot, k: nat)
    requires Names(s, c) && t in s.news && t !in read && k < |c.all| && c.all[k] == s.news[t]
             && InfoLoaded(info, s, c, |c.all|, read)
    ensures InfoLoaded(info[k := info[k].(refCount := info[k].refCount + 1)], s, c, |c.all|, read + {t})
  {
    forall x | 0 <= x < |c.all|
      ensures |SlotsOf(s.news, c.all[x]) * (read + {t})| == |SlotsOf(s.news, c.all[x]) * read| + if x == k then 1 else 0
    {
      RefCountStep(SlotsOf(s.news, c.all[x]), read, t);
      assert x != k ==> c.all[x] != c.all[k];
    }
  }

  lemma NewsStep(news: map<Slot, int>, s: State, c: Naming, read: set<Slot>, t: Slot, k: nat)
    requires Names(s, c) && t in s.news && k < |c.all| && c.all[k] == s.news[t]
             && TableLoaded(news, Restrict(s.news, read), c, |c.all|)
    ensures TableLoaded(news[t := k], Restrict(s.news, read + {t}), c, |c.all|)
  {
  }

  /** The slot of an index that has not been read yet is free, and its entry has room for one more. */
  lemma SlotLinks(r: State, s: State, c: Naming, read: set<Slot>, t: Slot, k: nat)
    requires Names(s, c) && NewsOk(s) && RefsOk(s, {}) && t in s.news && t !in read && IsLoaded(r, s, c, |c.all|, read)
    requires k < |c.all| && c.all[k] == s.news[t]
    ensures k in r.info && ReadSlot(r, t.0, k) == Link(r, k, t)
  {
    var id := s.news[t];
    assert id in s.info && t == s.key.NewSlot(s.info[id].addr, t.0);
    var have := SlotsOf(s.news, id) * read;
    assert have < SlotsOf(s.news, id) by {
      assert t in SlotsOf(s.news, id) && t !in have;
    }
    SmallerSet(have, SlotsOf(s.news, id));
    assert t !in r.news && r.info[k].refCount < NEW_BUCKETS_PER_ADDRESS;
  }

  lemma LinkLoaded(r: State, s: State, c: Naming, read: set<Slot>, t: Slot, k: nat)
    requires Names(s, c) && t in s.news && t !in read && IsLoaded(r, s, c, |c.all|, read)
    requires k < |c.all| && c.all[k] == s.news[t]
    ensures IsLoaded(Link(r, k, t), s, c, |c.all|, read + {t})
  {
    RefStep(r.info, s, c, read, t, k);
    NewsStep(r.news, s, c, read, t, k);
  }

  /** Reading the index for an occupied slot puts its entry back into that slot. */
  lemma SlotStep(r: State, s: State, c: Naming, read: set<Slot>, t: Slot, k: nat)
    requires Names(s, c) && NewsOk(s) && RefsOk(s, {}) && t in s.news && t !in read && IsLoaded(r, s, c, |c.all|, read)
    requires k < |c.all| && c.all[k] == s.news[t]
    ensures IsLoaded(ReadSlot(r, t.0, k), s, c, |c.all|, read + {t})
    ensures ReadSlot(r, t.0, k).idCount == r.idCount
  {
    SlotLinks(r, s, c, read, t, k);
    LinkLoaded(r, s, c, read, t, k);
  }

  // ---------------------------------------------------------------- the loops

  /** `ps` are the saved entries that are named `from` and up. */
  ghost predicate SavedFrom(s: State, c: Naming, ps: seq<Saved>, from: nat)
    requires Names(s, c)
  {
    from + |ps| <= |c.all| && forall k :: 0 <= k < |ps| ==> ps[k] == Save(s.info[c.all[from + k]])
  }

  lemma LastSaved(s: State, c: Naming, ps: seq<Saved>, from: nat)
    requires Names(s, c) && SavedFrom(s, c, ps, from) && ps != []
    ensures SavedFrom(s, c, ps[..|ps| - 1], from)
    ensures from + |ps| - 1 < |c.all| && ps[|ps| - 1] == Save(s.info[c.all[from + |ps| - 1]])
  {
    assert ps[|ps| - 1] == Save(s.info[c.all[from + (|ps| - 1)]]);
  }

  lemma {:induction false} NewsRead(r: State, s: State, c: Naming, ps: seq<Saved>)
    requires Names(s, c) && AddrsOk(s) && TriedOk(s) && |ps| <= s.nNew && IsLoaded(r, s, c, 0, {})
             && SavedFrom(s, c, ps, 0)
    ensures IsLoaded(ReadNews(r, true, ps), s, c, |ps|, {})
  {
    if ps != [] {
      LastSaved(s, c, ps, 0);
      NewsRead(r, s, c, ps[..|ps| - 1]);
      NewEntryStep(ReadNews(r, true, ps[..|ps| - 1]), s, c, |ps| - 1);
    }
  }

  /** `n` entries have been read, the last under the id `n - 1`. */
  ghost predicate LoadedTo(r: State, s: State, c: Naming, n: nat)
    requires Names(s, c) && n <= |c.all|
  {
    IsLoaded(r, s, c, n, {}) && r.idCount == n
  }

  lemma {:induction false} TriedsRead(r: State, s: State, c: Naming, ps: seq<Saved>, n: nat)
    requires Names(s, c) && AddrsOk(s) && TriedOk(s) && IsLoaded(r, s, c, s.nNew, {}) && r.idCount == s.nNew
    requires SavedFrom(s, c, ps, s.nNew) && n == s.nNew + |ps|
    ensures IsLoaded(ReadTrieds(r, ps), s, c, n, {}) && ReadTrieds(r, ps).idCount == n
  {
    if ps != [] {
      var before, now := ReadTrieds(r, ps[..|ps| - 1]), ReadTrieds(r, ps);
      LastSaved(s, c, ps, s.nNew);
      assert now == ReadTried(before, Save(s.info[c.all[n - 1]]));
      assert IsLoaded(before, s, c, n - 1, {}) && before.idCount == n - 1 by {
        TriedsRead(r, s, c, ps[..|ps| - 1], n - 1);
      }
      TriedEntryStep(before, s, c, n - 1);
    }
  }

  lemma NoTable<K(!new)>(table: map<K, int>, c: Naming)
    requires Inverse(c)
    ensures TableLoaded(map[], table, c, 0)
  {
    forall t | t in table && table[t] in c.at
      ensures c.at[table[t]] >= 0
    {
      var id := table[t];
      assert c.at[id] >= 0;
    }
  }

  lemma NothingRead(s: State, c: Naming)
    requires Names(s, c)
    ensures IsLoaded(Fresh(s.key).(nNew := s.nNew, nTried := s.nTried), s, c, 0, {})
  {
    var r := Fresh(s.key).(nNew := s.nNew, nTried := s.nTried);
    assert TableLoaded(r.addrs, s.addrs, c, 0) by {
      NoTable(s.addrs, c);
    }
    assert TableLoaded(r.tried, s.tried, c, 0) by {
      NoTable(s.tried, c);
    }
    assert Restrict(s.news, {}) == map[];
    assert TableLoaded(r.news, Restrict(s.news, {}), c, |c.all|);
    assert InfoLoaded(r.info, s, c, 0, {});
  }

  /** The new entries have been read, and ids go on behind them. */
  lemma NewHalfRead(s: State, c: Naming, f: File) returns (r: State)
    requires ListsEntries(s, c, f) && f.Usable() && AddrsOk(s) && TriedOk(s)
    ensures LoadedTo(r, s, c, s.nNew) && ReadEntries(s.key, f) == ReadTrieds(r, f.trieds)
  {
    var start := Fresh(s.key).(nNew := s.nNew, nTried := s.nTried);
    NothingRead(s, c);
    NewsRead(start, s, c, f.news);
    r := ReadNews(start, true, f.news).(idCount := s.nNew);
  }

  lemma EntriesRead(s: State, c: Naming, f: File)
    requires ListsEntries(s, c, f) && f.Usable() && AddrsOk(s) && TriedOk(s)
    ensures IsLoaded(ReadEntries(s.key, f), s, c, |c.all|, {}) && ReadEntries(s.key, f).idCount == |c.all|
  {
    var r := NewHalfRead(s, c, f);
    TriedsRead(r, s, c, f.trieds, |c.all|);
  }

  function ToSet(slots: seq<Slot>): set<Slot> {
    set t | t in slots
  }

  /** Reading the right position for a slot not read yet keeps `inv`, which speaks of what has been read. */
  ghost predicate Reads(inv: (set<Slot>, State) -> bool, news: map<Slot, int>, all: seq<int>) {
    forall read, r, t, k :: inv(read, r) && t in news && t !in read && 0 <= k < |all| && all[k] == news[t] ==>
      inv(read + {t}, ReadSlot(r, t.0, k))
  }

  /** A list of positions for pairwise different occupied slots of bucket `b`. */
  ghost predicate ListsSlots(list: seq<int>, slots: seq<Slot>, news: map<Slot, int>, all: seq<int>, b: int) {
    && |list| == |slots|
    && (forall i, j :: 0 <= i < j < |slots| ==> slots[i] != slots[j])
    && (forall j :: 0 <= j < |slots| ==> slots[j] in news && slots[j].0 == b)
    && (forall j :: 0 <= j < |slots| ==> 0 <= list[j] < |all| && all[list[j]] == news[slots[j]])
  }

  lemma {:induction false} BucketRead(r: State, news: map<Slot, int>, all: seq<int>, b: int, list: seq<int>,
                                      slots: seq<Slot>,
                                      read: set<Slot>, inv: (set<Slot>, State) -> bool)
    requires Reads(inv, news, all) && inv(read, r) && ListsSlots(list, slots, news, all, b)
    requires forall j :: 0 <= j < |slots| ==> slots[j] !in read
    ensures inv(read + ToSet(slots), ReadBucket(r, b, list))
  {
    if list == [] {
      assert read + ToSet(slots) == read;
    } else {
      var n := |list| - 1;
      BucketRead(r, news, all, b, list[..n], slots[..n], read, inv);
      LastSlot(slots, read);
      assert slots[n] !in read + ToSet(slots[..n]);
    }
  }

  lemma LastSlot(slots: seq<Slot>, read: set<Slot>)
    requires slots != []
    ensures read + ToSet(slots) == read + ToSet(slots[..|slots| - 1]) + {slots[|slots| - 1]}
  {
    var n := |slots| - 1;
    assert slots == slots[..n] + [slots[n]];
  }

  function Before(news: map<Slot, int>, b: int): set<Slot> {
    set t | t in news && t.0 < b
  }

  /** All occupied slots are in the tables. */
  predicate InRange(news: map<Slot, int>, size: nat) {
    forall t :: t in news ==> 0 <= t.0 < NEW_BUCKET_COUNT && 0 <= t.1 < size
  }

  lemma NextBucket(news: map<Slot, int>, b: nat, size: nat)
    requires InRange(news, size)
    ensures Before(news, b) + ToSet(Occupied(news, b, size)) == Before(news, b + 1)
  {
    OccupiedExact(news, b, size);
  }

  lemma BucketLists(news: map<Slot, int>, all: seq<int>, b: int, list: seq<int>, size: nat)
    requires IsBucket(news, all, b, list, size)
    ensures ListsSlots(list, Occupied(news, b, size), news, all, b)
  {
    var slots := Occupied(news, b, size);
    OccupiedExact(news, b, size);
    assert forall j :: 0 <= j < |slots| ==> slots[j] in slots;
  }

  lemma {:induction false} BucketsRead(r: State, news: map<Slot, int>, all: seq<int>, lists: seq<seq<int>>, size: nat,
                                       inv: (set<Slot>, State) -> bool)
    requires Reads(inv, news, all) && inv({}, r) && InRange(news, size)
    requires forall b :: 0 <= b < |lists| ==> IsBucket(news, all, b, lists[b], size)
    ensures inv(Before(news, |lists|), ReadBuckets(r, lists))
  {
    if lists == [] {
      assert Before(news, 0) == {};
    } else {
      var n := |lists| - 1;
      BucketsRead(r, news, all, lists[..n], size, inv);
      BucketLists(news, all, n, lists[n], size);
      BucketRead(ReadBuckets(r, lists[..n]), news, all, n, lists[n], Occupied(news, n, size), Before(news, n), inv);
      NextBucket(news, n, size);
    }
  }

  lemma AllInRange(s: State, size: nat)
    requires NewsOk(s) && size == BUCKET_SIZE
    ensures InRange(s.news, size)
  {
    forall t | t in s.news
      ensures 0 <= t.1 < size
    {
      var id := s.news[t];
      assert t == s.key.NewSlot(s.info[id].addr, t.0);
    }
  }

  ghost function LoadedInv(s: State, c: Naming, idCount: int): (set<Slot>, State) -> bool
    requires Names(s, c)
  {
    (read, x) => IsLoaded(x, s, c, |c.all|, read) && x.idCount == idCount
  }

  lemma LoadedReads(s: State, c: Naming, idCount: int)
    requires Names(s, c) && NewsOk(s) && RefsOk(s, {})
    ensures Reads(LoadedInv(s, c, idCount), s.news, c.all)
  {
    var inv := LoadedInv(s, c, idCount);
    forall read, x, t, k | inv(read, x) && t in s.news && t !in read && 0 <= k < |c.all| && c.all[k] == s.news[t]
      ensures inv(read + {t}, ReadSlot(x, t.0, k))
    {
      var x' := ReadSlot(x, t.0, k);
      assert IsLoaded(x', s, c, |c.all|, read + {t}) && x'.idCount == idCount by {
        SlotStep(x, s, c, read, t, k);
      }
    }
  }

  /** Everything has been read when every bucket has. */
  lemma EverySlotRead(r: State, news: map<Slot, int>, all: seq<int>, lists: seq<seq<int>>, size: nat,
                      inv: (set<Slot>, State) -> bool)
    requires Reads(inv, news, all) && inv({}, r) && InRange(news, size) && |lists| == NEW_BUCKET_COUNT
    requires forall b :: 0 <= b < |lists| ==> IsBucket(news, all, b, lists[b], size)
    ensures inv(news.Keys, ReadBuckets(r, lists))
  {
    BucketsRead(r, news, all, lists, size, inv);
    assert Before(news, |lists|) == news.Keys;
  }

  lemma SlotsRead(r: State, s: State, c: Naming, f: File, size: nat)
    requires Names(s, c) && NewsOk(s) && RefsOk(s, {}) && IsLoaded(r, s, c, |c.all|, {})
             && ListsBuckets(s, c, f, size) && size == BUCKET_SIZE
    ensures LoadedInv(s, c, r.idCount)(s.news.Keys, ReadBuckets(r, f.buckets))
  {
    LoadedReads(s, c, r.idCount);
    AllInRange(s, size);
    EverySlotRead(r, s.news, c.all, f.buckets, size, LoadedInv(s, c, r.idCount));
  }

  // ---------------------------------------------------------------- the round trip

  /** The same manager with each entry's id replaced by its position; only the attempt times are not kept. */
  ghost predicate IsRenaming(r: State, s: State, c: Naming)
    requires Names(s, c)
  {
    && r == s.(idCount := |c.all|, info := r.info, addrs := r.addrs, random := r.random, tried := r.tried,
       news := r.news, lastGood := 1)
    && (forall k :: k in r.info <==> 0 <= k < |c.all|)
    && (forall k :: 0 <= k < |c.all| ==>
         r.info[k] == s.info[c.all[k]].(lastTry := 0, lastCountAttempt := 0, randomPos := k))
    && IsRenamedTable(r.addrs, s.addrs, c) && IsRenamedTable(r.tried, s.tried, c) && IsRenamedTable(r.news, s.news, c)
    && |r.random| == |c.all| && forall i :: 0 <= i < |c.all| ==> r.random[i] == i
  }

  ghost predicate IsRenamedTable<K(!new)>(m: map<K, int>, table: map<K, int>, c: Naming) {
    && (forall t :: t in m <==> t in table)
    && (forall t :: t in m ==> 0 <= m[t] < |c.all| && c.all[m[t]] == table[t])
  }

  lemma TableRenamed<K(!new)>(m: map<K, int>, table: map<K, int>, c: Naming)
    requires Inverse(c) && TableLoaded(m, table, c, |c.all|) && forall t :: t in table ==> table[t] in c.at
    ensures IsRenamedTable(m, table, c)
  {
    forall t | t in table
      ensures 0 <= c.at[table[t]] < |c.all| && c.all[c.at[table[t]]] == table[t]
    {
      var id := table[t];
      assert id in c.at;
    }
  }

  lemma InfoRenamed(info: map<int, Info>, s: State, c: Naming, k: nat)
    requires Names(s, c) && InfoLoaded(info, s, c, |c.all|, s.news.Keys) && k < |c.all| && RefsOk(s, {})
    ensures info[k] == s.info[c.all[k]].(lastTry := 0, lastCountAttempt := 0, randomPos := k)
  {
    assert SlotsOf(s.news, c.all[k]) * s.news.Keys == SlotsOf(s.news, c.all[k]);
  }

  lemma AddrsRenamed(m: map<NetAddr, int>, s: State, c: Naming)
    requires Names(s, c) && AddrsOk(s) && TableLoaded(m, s.addrs, c, |c.all|)
    ensures IsRenamedTable(m, s.addrs, c)
  {
    forall a | a in s.addrs
      ensures s.addrs[a] in c.at
    {
      var id := s.addrs[a];
      assert id in s.info;
    }
    TableRenamed(m, s.addrs, c);
  }

  lemma TriedRenamed(m: map<Slot, int>, s: State, c: Naming)
    requires Names(s, c) && TriedOk(s) && TableLoaded(m, s.tried, c, |c.all|)
    ensures IsRenamedTable(m, s.tried, c)
  {
    forall t | t in s.tried
      ensures s.tried[t] in c.at
    {
      var id := s.tried[t];
      assert id in s.info;
    }
    TableRenamed(m, s.tried, c);
  }

  lemma NewsRenamed(m: map<Slot, int>, s: State, c: Naming)
    requires Names(s, c) && NewsOk(s) && TableLoaded(m, Restrict(s.news, s.news.Keys), c, |c.all|)
    ensures IsRenamedTable(m, s.news, c)
  {
    assert Restrict(s.news, s.news.Keys) == s.news;
    forall t | t in s.news
      ensures s.news[t] in c.at
    {
      var id := s.news[t];
      assert id in s.info;
    }
    TableRenamed(m, s.news, c);
  }

  lemma AllRead(r: State, s: State, c: Naming)
    requires Names(s, c) && LoadedInv(s, c, |c.all|)(s.news.Keys, r)
    requires IsRenamedTable(r.addrs, s.addrs, c) && IsRenamedTable(r.tried, s.tried, c)
             && IsRenamedTable(r.news, s.news, c)
    requires RefsOk(s, {})
    ensures IsRenaming(r, s, c)
  {
    forall k | 0 <= k < |c.all|
      ensures r.info[k] == s.info[c.all[k]].(lastTry := 0, lastCountAttempt := 0, randomPos := k)
    {
      InfoRenamed(r.info, s, c, k);
    }
  }

  lemma ReadsLoaded(s: State, c: Naming, f: File, size: nat)
    requires AddrsOk(s) && TriedOk(s) && NewsOk(s) && RefsOk(s, {})
    requires ListsEntries(s, c, f) && ListsBuckets(s, c, f, size) && size == BUCKET_SIZE
    ensures LoadedInv(s, c, |c.all|)(s.news.Keys, ReadAll(s.key, f))
  {
    EntriesRead(s, c, f);
    SlotsRead(ReadEntries(s.key, f), s, c, f, size);
  }

  /** Unserialize after Serialize. */
  lemma ReadsBack(s: State, c: Naming, f: File, size: nat)
    requires Check(s) && ListsEntries(s, c, f) && ListsBuckets(s, c, f, size) && size == BUCKET_SIZE
    ensures IsRenaming(ReadAll(s.key, f), s, c)
  {
    var now := ReadAll(s.key, f);
    assert LoadedInv(s, c, |c.all|)(s.news.Keys, now) by {
      ReadsLoaded(s, c, f, size);
    }
    assert IsRenamedTable(now.addrs, s.addrs, c) by {
      AddrsRenamed(now.addrs, s, c);
    }
    assert IsRenamedTable(now.tried, s.tried, c) by {
      TriedRenamed(now.tried, s, c);
    }
    assert IsRenamedTable(now.news, s.news, c) by {
      NewsRenamed(now.news, s, c);
    }
    AllRead(now, s, c);
  }

  lemma IndexesRenamed(r: State, s: State, c: Naming)
    requires Names(s, c) && IsRenaming(r, s, c) && AddrsOk(s)
    ensures RandomOk(r) && AddrsOk(r)
  {
    forall k | k in r.info
      ensures r.info[k].addr.ip in r.addrs && r.addrs[r.info[k].addr.ip] == k
    {
      var id := c.all[k];
      assert id in s.info && s.info[id].addr.ip in s.addrs;
    }
    forall a | a in r.addrs
      ensures r.addrs[a] in r.info && r.info[r.addrs[a]].addr.ip == a
    {
      var id := s.addrs[a];
      assert id in s.info;
    }
  }

  lemma NewsTableRenamed(r: State, s: State, c: Naming)
    requires Names(s, c) && IsRenaming(r, s, c) && NewsOk(s)
    ensures NewsOk(r)
  {
    forall t | t in r.news
      ensures r.news[t] in r.info && !r.info[r.news[t]].inTried && 0 <= t.0 < NEW_BUCKET_COUNT
              && t == r.key.NewSlot(r.info[r.news[t]].addr, t.0)
    {
      var id := s.news[t];
      assert id in s.info;
    }
  }

  lemma TriedTableRenamed(r: State, s: State, c: Naming)
    requires Names(s, c) && IsRenaming(r, s, c) && TriedOk(s)
    ensures TriedOk(r)
  {
    forall t | t in r.tried
      ensures r.tried[t] in r.info && r.info[r.tried[t]].inTried && t == r.key.TriedSlot(r.info[r.tried[t]].addr)
    {
      var id := s.tried[t];
      assert id in s.info;
    }
    forall k | k in r.info && r.info[k].inTried
      ensures r.key.TriedSlot(r.info[k].addr) in r.tried && r.tried[r.key.TriedSlot(r.info[k].addr)] == k
    {
      var id := c.all[k];
      assert id in s.info && s.info[id].inTried;
    }
  }

  lemma RefsRenamed(r: State, s: State, c: Naming)
    requires Names(s, c) && IsRenaming(r, s, c) && RefsOk(s, {})
    ensures RefsOk(r, {})
  {
    forall k | k in r.info
      ensures SlotsOf(r.news, k) == SlotsOf(s.news, c.all[k]) && c.all[k] in s.info
    {
      forall t
        ensures t in SlotsOf(r.news, k) <==> t in SlotsOf(s.news, c.all[k])
      {
        if t in r.news {
          assert c.all[r.news[t]] == s.news[t];
          var j := r.news[t];
          assert c.at[c.all[j]] == j && c.at[c.all[k]] == k;
        }
      }
    }
  }

  lemma {:induction false} Interval(ks: set<int>, lo: int, hi: int)
    requires lo <= hi && forall k :: k in ks <==> lo <= k < hi
    ensures |ks| == hi - lo
    decreases hi - lo
  {
    if lo < hi {
      Interval(ks - {hi - 1}, lo, hi - 1);
    } else {
      assert forall k :: k !in ks;
      assert ks == {};
    }
  }

  lemma CountsRenamed(r: State, s: State, c: Naming)
    requires Names(s, c) && IsRenaming(r, s, c) && |c.all| == s.nNew + s.nTried
    ensures r.nTried == |TriedIds(r)| && r.nNew == |NewIds(r)|
  {
    forall k
      ensures k in NewIds(r) <==> 0 <= k < s.nNew
      ensures k in TriedIds(r) <==> s.nNew <= k < |c.all|
    {
      if 0 <= k < |c.all| {
        var id := c.all[k];
        assert id in s.info && c.at[id] == k;
      }
    }
    Interval(NewIds(r), 0, s.nNew);
    Interval(TriedIds(r), s.nNew, |c.all|);
  }

  /** What is loaded passes the consistency check and leaves nothing to prune. */
  lemma RenamingChecks(r: State, s: State, c: Naming)
    requires Check(s) && Names(s, c) && IsRenaming(r, s, c) && |c.all| == s.nNew + s.nTried
    ensures Check(r) && NothingToPrune(r)
  {
    assert RefsOk(r, {}) by {
      RefsRenamed(r, s, c);
    }
    assert RandomOk(r) && AddrsOk(r) by {
      IndexesRenamed(r, s, c);
    }
    assert NewsOk(r) by {
      NewsTableRenamed(r, s, c);
    }
    assert TriedOk(r) by {
      TriedTableRenamed(r, s, c);
    }
    assert r.nTried == |TriedIds(r)| && r.nNew == |NewIds(r)| by {
      CountsRenamed(r, s, c);
    }
  }

  // ---------------------------------------------------------------- sizes

  lemma {:induction false} Pigeonhole<A(!new), B(!new)>(a: set<A>, b: set<B>, f: A -> B)
    requires forall x :: x in a ==> f(x) in b
    requires forall x, y :: x in a && y in a && x != y ==> f(x) != f(y)
    ensures |a| <= |b|
  {
    if a != {} {
      var x :| x in a;
      Pigeonhole(a - {x}, b - {f(x)}, f);
    }
  }

  ghost function Cells(n: nat): (ks: set<int>)
    ensures |ks| == n && forall k :: k in ks <==> 0 <= k < n
  {
    if n == 0 then {} else Cells(n - 1) + {n - 1}
  }

  lemma GridSize(slots: set<Slot>, count: nat)
    requires forall t :: t in slots ==> 0 <= t.0 < count && 0 <= t.1 < BUCKET_SIZE
    ensures |slots| <= count * BUCKET_SIZE
  {
    Pigeonhole(slots, Cells(count * BUCKET_SIZE), (t: Slot) => t.0 * BUCKET_SIZE + t.1);
  }

  ghost function SomeSlot(table: map<Slot, int>, id: int): Slot {
    if exists t :: t in table && table[t] == id then var t :| t in table && table[t] == id; t else (0, 0)
  }

  /** The limits Unserialize imposes never reject what was saved. */
  lemma SizesFit(s: State)
    requires Check(s)
    ensures s.nNew <= NEW_BUCKET_COUNT * BUCKET_SIZE && s.nTried <= TRIED_BUCKET_COUNT * BUCKET_SIZE
  {
    assert s.nTried <= |s.tried.Keys| by {
      TriedFit(s);
    }
    assert s.nNew <= |s.news.Keys| by {
      NewFit(s);
    }
    assert |s.tried.Keys| <= TRIED_BUCKET_COUNT * BUCKET_SIZE by {
      forall t | t in s.tried.Keys
        ensures 0 <= t.0 < TRIED_BUCKET_COUNT && 0 <= t.1 < BUCKET_SIZE
      {
        var id := s.tried[t];
        assert t == s.key.TriedSlot(s.info[id].addr);
      }
      GridSize(s.tried.Keys, TRIED_BUCKET_COUNT);
    }
    assert |s.news.Keys| <= NEW_BUCKET_COUNT * BUCKET_SIZE by {
      AllInRange(s, BUCKET_SIZE);
      GridSize(s.news.Keys, NEW_BUCKET_COUNT);
    }
  }

  lemma TriedFit(s: State)
    requires TriedOk(s)
    ensures |TriedIds(s)| <= |s.tried.Keys|
  {
    forall id | id in TriedIds(s)
      ensures SomeSlot(s.tried, id) in s.tried && s.tried[SomeSlot(s.tried, id)] == id
    {
      var t := s.key.TriedSlot(s.info[id].addr);
      assert t in s.tried && s.tried[t] == id;
    }
    Pigeonhole(TriedIds(s), s.tried.Keys, (id: int) => SomeSlot(s.tried, id));
  }

  lemma NewFit(s: State)
    requires RefsOk(s, {})
    ensures |NewIds(s)| <= |s.news.Keys|
  {
    forall id | id in NewIds(s)
      ensures SomeSlot(s.news, id) in s.news && s.news[SomeSlot(s.news, id)] == id
    {
      assert |SlotsOf(s.news, id)| > 0;
      var t :| t in SlotsOf(s.news, id);
      assert t in s.news && s.news[t] == id;
    }
    Pigeonhole(NewIds(s), s.news.Keys, (id: int) => SomeSlot(s.news, id));
  }

  // ---------------------------------------------------------------- Serialize

  /** The entries in the order in which the map is walked. */
  predicate Orders(order: seq<int>, s: State) {
    && (forall i, j :: 0 <= i < j < |order| ==> order[i] != order[j])
    && (forall i :: 0 <= i < |order| ==> order[i] in s.info)
    && (forall id :: id in s.info ==> id in order)
  }

  lemma SubsetSize(a: set<int>, b: set<int>)
    requires a <= b
    ensures |a| <= |b|
  {
    assert b == a + (b - a);
  }

  /** `names` are the entries of one table, once each, and `at` their places. */
  ghost predicate IsHalf(s: State, tried: bool, names: seq<int>, at: map<int, int>) {
    && (forall k :: 0 <= k < |names| ==>
         names[k] in s.info && s.info[names[k]].inTried == tried && names[k] in at && at[names[k]] == k)
    && (forall id :: id in s.info && s.info[id].inTried == tried ==>
         id in at && 0 <= at[id] < |names| && names[at[id]] == id)
  }

  /** The loop over the new entries, with `tried` over the tried entries; its bound is the source's assertion. */
  method ListEntries(s: State, order: seq<int>, tried: bool)
                     returns (list: seq<Saved>, unkIds: map<int, int>, ghost names: seq<int>)
    requires RefsOk(s, {}) && Counts(s, 0) && Orders(order, s)
    ensures |list| == |names| == if tried then s.nTried else s.nNew
    ensures IsHalf(s, tried, names, unkIds)
    ensures forall k :: 0 <= k < |names| ==> list[k] == Save(s.info[names[k]])
  {
    list, unkIds, names := [], map[], [];
    ghost var seen, ids := {}, if tried then TriedIds(s) else NewIds(s);
    assert forall x :: x in ids <==> x in s.info && s.info[x].inTried == tried;
    for i := 0 to |order|
      invariant Walked(s, ids, order, i, list, unkIds, names, seen)
    {
      var id := order[i];
      var nIds := |list|;
      ghost var before := unkIds;
      unkIds := unkIds[id := nIds];
      var info := s.info[id];
      if (if tried then info.inTried else info.refCount != 0) {
        assert nIds != if tried then s.nTried else s.nNew by {
          assert seen + {id} <= ids && id !in seen;
          SubsetSize(seen + {id}, ids);
        }
        WalkIn(s, ids, order, i, list, before, names, seen);
        list := list + [Save(info)];
        names, seen := names + [id], seen + {id};
      } else {
        WalkPast(s, ids, order, i, list, before, names, seen);
      }
    }
    WalkedAll(s, ids, order, list, unkIds, names, seen);
  }

  /** The first `i` entries have been walked past, and those among `ids` listed. */
  ghost predicate Walked(s: State, ids: set<int>, order: seq<int>, i: nat, list: seq<Saved>, at: map<int, int>,
                         names: seq<int>, seen: set<int>) {
    && ids <= s.info.Keys && i <= |order| && |list| == |names| == |seen|
    && seen <= ids
    && (forall j :: i <= j < |order| ==> order[j] !in seen)
    && (forall k :: 0 <= k < |names| ==>
          names[k] in seen && names[k] in s.info && list[k] == Save(s.info[names[k]]) && names[k] in at
              && at[names[k]] == k)
    && (forall j :: 0 <= j < i && order[j] in ids ==>
          order[j] in seen && order[j] in at && 0 <= at[order[j]] < |names| && names[at[order[j]]] == order[j])
  }

  lemma WalkIn(s: State, ids: set<int>, order: seq<int>, i: nat, list: seq<Saved>, at: map<int, int>,
               names: seq<int>, seen: set<int>)
    requires Walked(s, ids, order, i, list, at, names, seen) && Orders(order, s) && i < |order| && order[i] in ids
    ensures Walked(s, ids, order, i + 1, list + [Save(s.info[order[i]])], at[order[i] := |list|], names + [order[i]],
            seen + {order[i]})
  {
  }

  lemma WalkPast(s: State, ids: set<int>, order: seq<int>, i: nat, list: seq<Saved>, at: map<int, int>,
                 names: seq<int>, seen: set<int>)
    requires Walked(s, ids, order, i, list, at, names, seen) && Orders(order, s) && i < |order| && order[i] !in ids
    ensures Walked(s, ids, order, i + 1, list, at[order[i] := |list|], names, seen)
  {
  }

  lemma WalkedAll(s: State, ids: set<int>, order: seq<int>, list: seq<Saved>, at: map<int, int>, names: seq<int>,
                  seen: set<int>)
    requires Walked(s, ids, order, |order|, list, at, names, seen) && Orders(order, s)
    ensures seen == ids
    ensures forall id :: id in ids ==> id in at && 0 <= at[id] < |names| && names[at[id]] == id
  {
    forall id | id in ids
      ensures id in seen && id in at && 0 <= at[id] < |names| && names[at[id]] == id
    {
      var j :| 0 <= j < |order| && order[j] == id;
    }
    assert ids <= seen;
  }

  /** The map gives each new entry its name. */
  ghost predicate Finds(s: State, unkIds: map<int, int>, c: Naming) {
    forall id :: id in s.info && !s.info[id].inTried ==>
      id in unkIds && 0 <= unkIds[id] < |c.all| && c.all[unkIds[id]] == id
  }

  method ListBucket(s: State, unkIds: map<int, int>, ghost c: Naming, b: int, size: nat) returns (list: seq<int>)
    requires NewsOk(s) && Finds(s, unkIds, c)
    ensures IsBucket(s.news, c.all, b, list, size)
  {
    list := [];
    for i := 0 to size
      invariant IsBucket(s.news, c.all, b, list, i)
    {
      if (b, i) in s.news {
        var id := s.news[(b, i)];
        assert id in s.info && !s.info[id].inTried;
        list := list + [unkIds[id]];
      }
    }
  }

  ghost function Joined(s: State, news: seq<int>, newAt: map<int, int>, trieds: seq<int>,
                        triedAt: map<int, int>): Naming
    requires IsHalf(s, false, news, newAt) && IsHalf(s, true, trieds, triedAt)
  {
    Naming(news + trieds, map id | id in s.info :: if s.info[id].inTried then |news| + triedAt[id] else newAt[id])
  }

  lemma JoinedNames(s: State, news: seq<int>, newAt: map<int, int>, trieds: seq<int>, triedAt: map<int, int>)
    requires IsHalf(s, false, news, newAt) && IsHalf(s, true, trieds, triedAt) && |news| == s.nNew
    ensures Names(s, Joined(s, news, newAt, trieds, triedAt))
  {
  }

  /** The bucket loop. */
  method ListBuckets(s: State, unkIds: map<int, int>, ghost c: Naming, size: nat) returns (buckets: seq<seq<int>>)
    requires NewsOk(s) && Finds(s, unkIds, c)
    ensures |buckets| == NEW_BUCKET_COUNT
    ensures forall b :: 0 <= b < NEW_BUCKET_COUNT ==> IsBucket(s.news, c.all, b, buckets[b], size)
  {
    buckets := [];
    while |buckets| < NEW_BUCKET_COUNT
      invariant |buckets| <= NEW_BUCKET_COUNT
      invariant forall b :: 0 <= b < |buckets| ==> IsBucket(s.news, c.all, b, buckets[b], size)
    {
      var list := ListBucket(s, unkIds, c, |buckets|, size);
      buckets := buckets + [list];
    }
  }

  /** Both halves together list all entries. */
  lemma JoinedLists(s: State, c: Naming, f: File, news: seq<int>, newAt: map<int, int>, trieds: seq<int>,
                    triedAt: map<int, int>)
    requires IsHalf(s, false, news, newAt) && IsHalf(s, true, trieds, triedAt)
    requires c == Joined(s, news, newAt, trieds, triedAt)
    requires |f.news| == |news| == s.nNew && |f.trieds| == |trieds| == s.nTried
    requires forall k :: 0 <= k < |news| ==> f.news[k] == Save(s.info[news[k]])
    requires forall k :: 0 <= k < |trieds| ==> f.trieds[k] == Save(s.info[trieds[k]])
    ensures ListsEntries(s, c, f) && Finds(s, newAt, c)
  {
    JoinedNames(s, news, newAt, trieds, triedAt);
  }

  /** CAddrMan::Serialize. */
  method Serialize(s: State, order: seq<int>) returns (f: File, ghost c: Naming)
    requires Sound(s) && Orders(order, s)
    ensures ListsEntries(s, c, f)
    ensures forall size: nat :: size == BUCKET_SIZE ==> ListsBuckets(s, c, f, size)
  {
    var news, unkIds, newNames := ListEntries(s, order, false);
    var trieds, triedIds, triedNames := ListEntries(s, order, true);
    c := Joined(s, newNames, unkIds, triedNames, triedIds);
    f := File(1, news, trieds, []);
    JoinedLists(s, c, f, newNames, unkIds, triedNames, triedIds);
    var buckets := ListBuckets(s, unkIds, c, BUCKET_SIZE);
    f := f.(buckets := buckets);
  }

  // ---------------------------------------------------------------- Unserialize

  method LoadNews(m: Manager, usable: bool, news: seq<Saved>)
    modifies m
    ensures m.Snapshot() == ReadNews(old(m.Snapshot()), usable, news)
  {
    ghost var start := m.Snapshot();
    for n := 0 to |news|
      invariant m.Snapshot() == ReadNews(start, usable, news[..n])
    {
      var p := news[n];
      assert news[..n + 1][..n] == news[..n];
      m.mapInfo := m.mapInfo[n := Load(p, 0, false, |m.vRandom|)];
      m.mapAddr := m.mapAddr[p.addr.ip := n];
      m.vRandom := m.vRandom + [n];
      if !usable {
        var t := m.key.NewSlot(p.addr, m.key.NewBucket(p.addr, p.source));
        if t !in m.vvNew {
          m.LinkAt(n, t);
        }
      }
    }
    assert news[..|news|] == news;
  }

  method LoadTrieds(m: Manager, trieds: seq<Saved>)
    modifies m
    ensures m.Snapshot() == ReadTrieds(old(m.Snapshot()), trieds)
  {
    ghost var start := m.Snapshot();
    var nLost := 0;
    for n := 0 to |trieds|
      invariant m.Snapshot().(nTried := m.nTried - nLost) == ReadTrieds(start, trieds[..n])
    {
      var p := trieds[n];
      assert trieds[..n + 1][..n] == trieds[..n];
      var t := m.key.TriedSlot(p.addr);
      if t in m.vvTried {
        nLost := nLost + 1;
      } else {
        m.mapInfo := m.mapInfo[m.nIdCount := Load(p, 0, true, |m.vRandom|)];
        m.vRandom := m.vRandom + [m.nIdCount];
        m.mapAddr := m.mapAddr[p.addr.ip := m.nIdCount];
        m.vvTried := m.vvTried[t := m.nIdCount];
        m.nIdCount := m.nIdCount + 1;
      }
    }
    assert trieds[..|trieds|] == trieds;
    m.nTried := m.nTried - nLost;
  }

  method LoadBucket(m: Manager, bucket: int, list: seq<int>)
    modifies m
    ensures m.Snapshot() == ReadBucket(old(m.Snapshot()), bucket, list)
  {
    ghost var start := m.Snapshot();
    for n := 0 to |list|
      invariant m.Snapshot() == ReadBucket(start, bucket, list[..n])
    {
      var nIndex := list[n];
      assert list[..n + 1][..n] == list[..n];
      if 0 <= nIndex < m.nNew && nIndex in m.mapInfo {
        var t := m.key.NewSlot(m.mapInfo[nIndex].addr, bucket);
        if t !in m.vvNew && m.mapInfo[nIndex].refCount < NEW_BUCKETS_PER_ADDRESS {
          m.LinkAt(nIndex, t);
        }
      }
    }
    assert list[..|list|] == list;
  }

  method LoadBuckets(m: Manager, lists: seq<seq<int>>)
    modifies m
    ensures m.Snapshot() == ReadBuckets(old(m.Snapshot()), lists)
  {
    ghost var start := m.Snapshot();
    for bucket := 0 to |lists|
      invariant m.Snapshot() == ReadBuckets(start, lists[..bucket])
    {
      assert lists[..bucket + 1][..bucket] == lists[..bucket];
      LoadBucket(m, bucket, lists[bucket]);
    }
    assert lists[..|lists|] == lists;
  }

  lemma RemoveLastRandomOk(s: State)
    requires RandomOk(s) && s.random != []
    ensures s.random[|s.random| - 1] in s.info && RandomOk(RemoveLast(s))
  {
    var s', id := RemoveLast(s), s.random[|s.random| - 1];
    forall k | 0 <= k < |s'.random|
      ensures s'.random[k] in s'.info && s'.info[s'.random[k]].randomPos == k
    {
      assert s.random[k] != id;
    }
  }

  /** Neither tried nor in any bucket. */
  predicate Prunable(i: Info) {
    !i.inTried && i.refCount == 0
  }

  /** The entries of `gone`, all prunable, have been deleted; nothing else has happened but in vRandom and mapAddr. */
  ghost predicate Without(r: State, r': State, gone: set<int>) {
    && RandomOk(r') && OthersKept(r, r', gone) && r'.news == r.news && r'.nNew == r.nNew - |gone|
    && gone <= r.info.Keys && forall id :: id in gone ==> Prunable(r.info[id])
  }

  lemma PruneOne(r: State, r': State, gone: set<int>, id: int)
    requires Without(r, r', gone) && id in r'.info && Prunable(r'.info[id])
    ensures Without(r, Delete(r', id), gone + {id})
  {
    assert RandomOk(Delete(r', id)) by {
      var s1 := PutLast(r', id);
      RemoveLastRandomOk(s1);
    }
    DeleteOthers(r', id);
  }

  /** What is left once everything prunable has been deleted. */
  ghost predicate Pruned(r: State, r': State) {
    Without(r, r', set id | id in r.info && Prunable(r.info[id]))
  }

  /** Consistent, but for new entries that no bucket holds. */
  ghost predicate OnlySlotsMissing(r: State) {
    Midway(r, r.info.Keys, 0)
  }

  lemma CleanIsSound(r: State, limbo: set<int>)
    requires Midway(r, limbo, 0) && NothingToPrune(r)
    ensures Sound(r)
  {
    forall id | id in r.info
      ensures RefOk(r.info[id], |SlotsOf(r.news, id)|, false)
    {
      assert RefOk(r.info[id], |SlotsOf(r.news, id)|, id in limbo);
    }
  }

  lemma PrunedIsClean(r: State, r': State)
    requires Pruned(r, r')
    ensures NothingToPrune(r')
  {
  }

  lemma NonePruned(r: State, r': State, gone: set<int>)
    requires Without(r, r', gone)
    ensures NothingToPrune(r) ==> gone == {}
  {
    if NothingToPrune(r) {
      forall id
        ensures id !in gone
      {
      }
    }
  }

  /** The end of Unserialize: exactly the new entries that no bucket holds are deleted. */
  method Prune(m: Manager)
    requires RandomOk(m.Snapshot())
    modifies m
    ensures Pruned(old(m.Snapshot()), m.Snapshot()) && NothingToPrune(m.Snapshot())
    ensures NothingToPrune(old(m.Snapshot())) ==> m.Snapshot() == old(m.Snapshot())
    ensures OnlySlotsMissing(old(m.Snapshot())) ==> Sound(m.Snapshot())
  {
    ghost var start, gone := m.Snapshot(), {};
    var todo := m.mapInfo.Keys;
    while exists id :: id in todo
      invariant Without(start, m.Snapshot(), gone) && todo <= start.info.Keys && todo !! gone
      invariant forall id :: id in start.info && id !in todo && id !in gone ==> !Prunable(start.info[id])
      invariant gone == {} ==> m.Snapshot() == start
      invariant OnlySlotsMissing(start) ==> Midway(m.Snapshot(), start.info.Keys, 0)
      decreases todo
    {
      var id :| id in todo;
      assert id in start.info && id !in gone;
      todo := todo - {id};
      if !m.mapInfo[id].inTried && m.mapInfo[id].refCount == 0 {
        PruneOne(start, m.Snapshot(), gone, id);
        if OnlySlotsMissing(start) {
          DeleteKeeps(m.Snapshot(), id, start.info.Keys, 0);
        }
        m.DeleteEntry(id);
        gone := gone + {id};
      }
    }
    forall id
      ensures id in gone <==> id in start.info && Prunable(start.info[id])
    {
      assert id !in todo;
    }
    assert gone == set id | id in start.info && Prunable(start.info[id]);
    PrunedIsClean(start, m.Snapshot());
    if OnlySlotsMissing(start) {
      CleanIsSound(m.Snapshot(), start.info.Keys);
    }
    NonePruned(start, m.Snapshot(), gone);
  }

  // Whatever the file says, vRandom is consistent when the pruning starts.

  /** Entries are numbered in the order in which they came. */
  predicate Numbered(r: State) {
    RandomOk(r) && forall id :: id in r.info ==> id < |r.random|
  }

  lemma LinkNumbered(r: State, id: int, t: Slot)
    requires Numbered(r) && id in r.info
    ensures Numbered(Link(r, id, t))
  {
  }

  lemma {:induction false} NewsNumbered(r: State, usable: bool, ps: seq<Saved>)
    requires Numbered(r) && r.random == []
    ensures Numbered(ReadNews(r, usable, ps)) && |ReadNews(r, usable, ps).random| == |ps|
  {
    if ps != [] {
      var p, before := ps[|ps| - 1], ReadNews(r, usable, ps[..|ps| - 1]);
      NewsNumbered(r, usable, ps[..|ps| - 1]);
      var r1 := before.(info := before.info[|ps| - 1 := Load(p, 0, false, |before.random|)],
          addrs := before.addrs[p.addr.ip := |ps| - 1],
                        random := before.random + [|ps| - 1]);
      assert Numbered(r1);
      LinkNumbered(r1, |ps| - 1, r.key.NewSlot(p.addr, r.key.NewBucket(p.addr, p.source)));
      KeyKept(r, usable, ps[..|ps| - 1]);
    }
  }

  lemma {:induction false} KeyKept(r: State, usable: bool, ps: seq<Saved>)
    ensures ReadNews(r, usable, ps).key == r.key
  {
    if ps != [] {
      KeyKept(r, usable, ps[..|ps| - 1]);
    }
  }

  lemma {:induction false} TriedsNumbered(r: State, ps: seq<Saved>)
    requires Numbered(r) && r.idCount == |r.random|
    ensures Numbered(ReadTrieds(r, ps)) && ReadTrieds(r, ps).idCount == |ReadTrieds(r, ps).random|
  {
    if ps != [] {
      TriedsNumbered(r, ps[..|ps| - 1]);
    }
  }

  lemma {:induction false} BucketNumbered(r: State, bucket: int, list: seq<int>)
    requires Numbered(r)
    ensures Numbered(ReadBucket(r, bucket, list))
  {
    if list != [] {
      BucketNumbered(r, bucket, list[..|list| - 1]);
    }
  }

  lemma {:induction false} BucketsNumbered(r: State, lists: seq<seq<int>>)
    requires Numbered(r)
    ensures Numbered(ReadBuckets(r, lists))
  {
    if lists != [] {
      BucketsNumbered(r, lists[..|lists| - 1]);
      BucketNumbered(ReadBuckets(r, lists[..|lists| - 1]), |lists| - 1, lists[|lists| - 1]);
    }
  }

  lemma AllNumbered(key: Key, f: File)
    ensures Numbered(ReadAll(key, f))
  {
    var r := Fresh(key).(nNew := |f.news|, nTried := |f.trieds|);
    NewsNumbered(r, f.Usable(), f.news);
    TriedsNumbered(ReadNews(r, f.Usable(), f.news).(idCount := |f.news|), f.trieds);
    BucketsNumbered(ReadEntries(key, f), f.buckets);
  }

  predicate TooLarge(f: File) {
    |f.news| > NEW_BUCKET_COUNT * BUCKET_SIZE || |f.trieds| > TRIED_BUCKET_COUNT * BUCKET_SIZE
  }

  /** CAddrMan::Unserialize; null where it throws. */
  method Unserialize(key: Key, f: File) returns (m: Manager?)
    ensures m == null <==> TooLarge(f)
    ensures m != null ==> fresh(m) && Pruned(ReadAll(key, f), m.Snapshot()) && NothingToPrune(m.Snapshot())
    ensures m != null && NothingToPrune(ReadAll(key, f)) ==> m.Snapshot() == ReadAll(key, f)
    ensures m != null && OnlySlotsMissing(ReadAll(key, f)) ==> Sound(m.Snapshot())
  {
    if TooLarge(f) {
      return null;
    }
    var manager := new Manager(key);
    manager.nNew := |f.news|;
    manager.nTried := |f.trieds|;
    LoadNews(manager, f.Usable(), f.news);
    manager.nIdCount := |f.news|;
    LoadTrieds(manager, f.trieds);
    if f.Usable() {
      LoadBuckets(manager, f.buckets);
    }
    AllNumbered(key, f);
    Prune(manager);
    return manager;
  }

  /** Saving and loading: every entry and every slot comes back under the new names, and the result passes the check. */
  method SaveAndLoad(s: State, order: seq<int>) returns (m: Manager, ghost c: Naming)
    requires Check(s) && Orders(order, s)
    ensures fresh(m) && Names(s, c) && IsRenaming(m.Snapshot(), s, c) && Check(m.Snapshot())
  {
    var f, names := Serialize(s, order);
    c := names;
    ghost var size: nat := BUCKET_SIZE;
    assert ListsBuckets(s, c, f, size);
    ReadsBack(s, c, f, size);
    RenamingChecks(ReadAll(s.key, f), s, c);
    SizesFit(s);
    var loaded := Unserialize(s.key, f);
    m := loaded;
  }
}

