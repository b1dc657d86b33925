/**
 The UTXO cache stack: the coin database, the cache over it and a span's cache over that. Flags and missing
 scripts must be invisible: each layer shows the coins that a plain map with the same updates would hold.

 An outpoint is a number; who owns a coin's memory is kept as a flag because it decides the memory accounting.
 */
module CoinsCache {
  import opened Common

  type OutPoint = int

  const SPENT: int := -1

  datatype TxOut = TxOut(amount: int, script: seq<int>, height: int, coinbase: bool)

  /** What a view shows for an outpoint that is not spent. */
  type Unspent = u: TxOut | u.amount != SPENT witness TxOut(0, [], 0, false)

  /** `CoinImpl`: the script may be missing, its size is always known. */
  datatype Coin = Coin(amount: int, script: seq<int>, scriptSize: nat, height: int, coinbase: bool, owns: bool)
  {
    predicate IsSpent() { amount == SPENT }

    predicate HasScript() { scriptSize == |script| }

    function WithoutScript(): Coin { Coin(amount, [], scriptSize, height, coinbase, true) }

    /** FetchCoin: a coin with its script is lent, any other is copied. */
    function Handed(): Coin { this.(owns := !HasScript()) }

    function Value(): Unspent
      requires !IsSpent()
    {
      TxOut(amount, script, height, coinbase)
    }

    /** The coin tells about `u` all that it tells at all. */
    predicate Describes(u: Unspent) {
      amount == u.amount && scriptSize == |u.script| && height == u.height && coinbase == u.coinbase
      && (HasScript() ==> script == u.script)
    }
  }

  const CLEARED: Coin := Coin(SPENT, [], 0, 0, false, true)

  function FromOut(u: Unspent): Coin {
    Coin(u.amount, u.script, |u.script|, u.height, u.coinbase, true)
  }

  /** `CCoinsCacheEntry`. */
  datatype Entry = Entry(coin: Coin, isDirty: bool, isFresh: bool)

  type Cache = map<OutPoint, Entry>

  /** What a view answers, for every outpoint. */
  type View = OutPoint -> Option<Unspent>

  // ---------------------------------------------------------------- what a layer shows

  /** The layer's own entry decides, unless it is missing or lacks the script. */
  function Show(m: Cache, below: Option<Unspent>, o: OutPoint): Option<Unspent> {
    if o !in m then below
    else if m[o].coin.IsSpent() then None
    else if m[o].coin.HasScript() then Some(m[o].coin.Value())
    else below
  }

  /** What the flags and a missing script promise about the view below. */
  predicate EntryOk(e: Entry, below: Option<Unspent>) {
    && (e.isFresh ==> below.None?)
    && (!e.isDirty ==> if e.coin.IsSpent() then below.None? else below.Some? && e.coin.Describes(below.value))
    && (e.isDirty ==> e.coin.IsSpent() || e.coin.HasScript())
  }

  ghost predicate LayerOk(m: Cache, below: View) {
    forall o :: o in m ==> EntryOk(m[o], below(o))
  }

  // ---------------------------------------------------------------- operations of the store

  /** AddCoin of a coin fetched from below. */
  function Fetched(coin: Coin): Entry {
    Entry(coin, false, coin.IsSpent())
  }

  predicate AddThrows(m: Cache, o: OutPoint, overwrite: bool) {
    !overwrite && o in m && !m[o].coin.IsSpent()
  }

  /** AddCoin of a new coin. */
  function Added(m: Cache, o: OutPoint, coin: Coin, overwrite: bool): Cache {
    var was := if o in m then m[o] else Entry(CLEARED, false, false);
    m[o := Entry(coin, true, was.isFresh || (!overwrite && !was.isDirty))]
  }

  function Spent(m: Cache, o: OutPoint): Cache {
    if o !in m then m
    else if m[o].isFresh then m - {o}
    else m[o := Entry(CLEARED, true, false)]
  }

  function Uncached(m: Cache, o: OutPoint): Cache {
    if o in m && !m[o].isDirty && !m[o].isFresh then m - {o} else m
  }

  /** One dirty entry of a child arrives: what becomes of ours. */
  function MergeEntry(ours: Option<Entry>, child: Entry): Option<Entry> {
    match ours
    case None => if child.isFresh && child.coin.IsSpent() then None else Some(Entry(child.coin, true, child.isFresh))
    case Some(e) => if e.isFresh && child.coin.IsSpent() then None else Some(Entry(child.coin, true, e.isFresh))
  }

  function Get(m: Cache, o: OutPoint): Option<Entry> {
    if o in m then Some(m[o]) else None
  }

  function Put(m: Cache, o: OutPoint, e: Option<Entry>): Cache {
    match e
    case None => m - {o}
    case Some(x) => m[o := x]
  }

  predicate MergeThrows(m: Cache, o: OutPoint, child: Entry) {
    child.isDirty && child.isFresh && o in m && !m[o].coin.IsSpent()
  }

  /** `m` is what BatchWrite leaves of `m0` after the entries of `child`. */
  ghost predicate IsMerge(m0: Cache, child: Cache, m: Cache) {
    forall o :: Get(m, o) == if o in child && child[o].isDirty then MergeEntry(Get(m0, o), child[o]) else Get(m0, o)
  }

  // ---------------------------------------------------------------- they keep the promises

  lemma FetchKeeps(m: Cache, below: View, o: OutPoint, coin: Coin)
    requires LayerOk(m, below) && o !in m && below(o).Some? && !coin.IsSpent() && coin.Describes(below(o).value)
    ensures LayerOk(m[o := Fetched(coin)], below)
    ensures forall x :: Show(m[o := Fetched(coin)], below(x), x) == Show(m, below(x), x)
  {
  }

  /**
   Adding keeps the promises exactly if the caller allowed an overwrite, had looked the coin up, or the view
   below has no such coin.
   */
  lemma AddKeepsIff(m: Cache, below: View, o: OutPoint, coin: Coin, overwrite: bool)
    requires LayerOk(m, below) && !coin.IsSpent() && coin.HasScript() && !AddThrows(m, o, overwrite)
    ensures LayerOk(Added(m, o, coin, overwrite), below) <==> overwrite || o in m || below(o).None?
    ensures forall x :: Show(Added(m, o, coin, overwrite), below(x), x) == if x == o then Some(coin.Value())
            else Show(m, below(x), x)
  {
    var m' := Added(m, o, coin, overwrite);
    assert o in m';
    if overwrite || o in m || below(o).None? {
      forall x | x in m'
        ensures EntryOk(m'[x], below(x))
      {
        assert o in m ==> EntryOk(m[o], below(o));
      }
    } else {
      assert !EntryOk(m'[o], below(o));
    }
  }

  /** Why it matters: add blindly, spend, and the coin below is back. */
  lemma BlindAddResurrects(coin: Coin, hidden: Unspent, o: OutPoint)
    requires !coin.IsSpent() && coin.HasScript()
    ensures !AddThrows(map[], o, false)
    ensures Show(Spent(Added(map[], o, coin, false), o), Some(hidden), o) == Some(hidden)
  {
    assert Spent(Added(map[], o, coin, false), o) == map[];
  }

  lemma SpendKeeps(m: Cache, below: View, o: OutPoint)
    requires LayerOk(m, below) && (o in m || below(o).None?)
    ensures LayerOk(Spent(m, o), below)
    ensures forall x :: Show(Spent(m, o), below(x), x) == if x == o then None else Show(m, below(x), x)
  {
    assert o in m ==> EntryOk(m[o], below(o));
  }

  lemma UncacheKeeps(m: Cache, below: View, o: OutPoint)
    requires LayerOk(m, below)
    ensures LayerOk(Uncached(m, o), below)
    ensures forall x :: Show(Uncached(m, o), below(x), x) == Show(m, below(x), x)
    ensures o in Uncached(m, o) <==> o in m && (m[o].isDirty || m[o].isFresh)
    ensures forall x :: x != o ==> Get(Uncached(m, o), x) == Get(m, x)
  {
    assert o in m ==> EntryOk(m[o], below(o));
  }

  /** A child with honest flags cannot make BatchWrite throw. */
  lemma MergeNeverThrows(m: Cache, below: View, child: Cache, o: OutPoint)
    requires LayerOk(m, below) && o in child && EntryOk(child[o], Show(m, below(o), o))
    ensures !MergeThrows(m, o, child[o])
  {
  }

  /** BatchWrite leaves the parent showing exactly what the child showed, with honest flags of its own. */
  lemma MergeRefines(m0: Cache, below: View, child: Cache, m: Cache)
    requires LayerOk(m0, below) && (forall o :: o in child ==> EntryOk(child[o], Show(m0, below(o), o)))
             && IsMerge(m0, child, m)
    ensures LayerOk(m, below)
    ensures forall o :: Show(m, below(o), o) == Show(child, Show(m0, below(o), o), o)
  {
    forall o
      ensures Show(m, below(o), o) == Show(child, Show(m0, below(o), o), o)
      ensures o in m ==> EntryOk(m[o], below(o))
    {
      assert Get(m, o) == if o in child && child[o].isDirty then MergeEntry(Get(m0, o), child[o]) else Get(m0, o);
      assert o in m0 ==> EntryOk(m0[o], below(o));
    }
  }

  // ---------------------------------------------------------------- lookups

  type Db = map<OutPoint, Unspent>

  function Find(db: Db, o: OutPoint): Option<Unspent> {
    if o in db then Some(db[o]) else None
  }

  function DbView(db: Db): View {
    o => Find(db, o)
  }

  function BaseView(db: Db, base: Cache): View {
    o => Show(base, Find(db, o), o)
  }

  function SpanShow(db: Db, base: Cache, span: Cache, o: OutPoint): Option<Unspent> {
    Show(span, Show(base, Find(db, o), o), o)
  }

  /** Room left for scripts: `used` bytes of `threshold`. */
  datatype Room = Room(used: nat, threshold: nat)
  {
    predicate Fits(size: nat) { threshold >= used + size }

    function MaxLoad(requested: nat): nat {
      if threshold > used && threshold - used > requested then threshold - used else requested
    }
  }

  /** DBGetCoin: a script longer than `maxScript` stays on disk. */
  function DbGet(db: Db, o: OutPoint, maxScript: nat): Option<Coin> {
    if o !in db then None
    else if |db[o].script| <= maxScript then Some(FromOut(db[o]))
    else Some(FromOut(db[o]).WithoutScript())
  }

  datatype BaseFetch = BaseFetch(coin: Option<Coin>, base: Cache)

  /** CoinsDB::GetCoin. */
  function BaseGet(db: Db, base: Cache, o: OutPoint, maxScript: nat, room: Room): BaseFetch {
    if o in base && base[o].coin.IsSpent() then BaseFetch(None, base)
    else if o in base && base[o].coin.HasScript() then BaseFetch(Some(base[o].coin.Handed()), base)
    else if o in base && maxScript < base[o].coin.scriptSize then BaseFetch(Some(base[o].coin.WithoutScript()), base)
    else
      match DbGet(db, o, room.MaxLoad(maxScript))
      case None => BaseFetch(None, base)
      case Some(c) =>
        if !room.Fits(c.scriptSize) then
          BaseFetch(Some(c), if o in base then base else base[o := Fetched(c.WithoutScript())])
        else
          BaseFetch(Some(c.(owns := false)), base[o := if o in base then base[o].(coin := c) else Fetched(c)])
  }

  /** A lookup answers for the coin the view shows; whoever got no memory of its own got the script. */
  predicate Answers(c: Option<Coin>, shown: Option<Unspent>, maxScript: nat) {
    match shown
    case None => c.None? || c.value.IsSpent()
    case Some(u) =>
      && c.Some? && !c.value.IsSpent() && c.value.Describes(u)
      && (|u.script| <= maxScript ==> c.value.HasScript())
      && (!c.value.owns ==> c.value.HasScript())
  }

  lemma BaseGetAnswers(db: Db, base: Cache, o: OutPoint, maxScript: nat, room: Room)
    requires LayerOk(base, DbView(db))
    ensures var f := BaseGet(db, base, o, maxScript, room);
            && Answers(f.coin, Show(base, Find(db, o), o), maxScript)
            && (f.coin.Some? ==> !f.coin.value.IsSpent())
            && LayerOk(f.base, DbView(db))
            && forall x :: Show(f.base, Find(db, x), x) == Show(base, Find(db, x), x)
  {
    assert o in base ==> EntryOk(base[o], DbView(db)(o));
  }

  /**
   What a lookup leaves in the cache, and whether the answer has the script: the coin it found, with a script only where
   there is room for it. A cached coin is not touched unless its script is asked for. The answer borrows what is cached.
   */
  lemma BaseGetCaches(db: Db, base: Cache, o: OutPoint, maxScript: nat, room: Room)
    requires LayerOk(base, DbView(db))
    ensures var f := BaseGet(db, base, o, maxScript, room);
            && (f.coin.Some? <==> o in f.base && !f.base[o].coin.IsSpent())
            && (forall x :: x != o ==> Get(f.base, x) == Get(base, x))
            && (f.coin.Some? ==>
                  var c, kept, had := f.coin.value, f.base[o].coin, o in base && base[o].coin.HasScript();
                  var size := c.scriptSize;
                  && (c.HasScript() <==> had || size == 0 || size <= maxScript || (o !in base && room.Fits(size)))
                  && (o in base && (had || size > maxScript) ==> f.base == base)
                  && var loads := o !in base || size <= maxScript;
                  && (kept.HasScript() <==> had || (o !in base && size == 0) || (room.Fits(size) && loads))
                  && (size > 0 ==> (c.owns <==> !kept.HasScript())) && (!c.owns ==> kept == c.(owns := kept.owns)))
  {
    assert o in base ==> EntryOk(base[o], DbView(db)(o));
  }

  const MAX_UINT64: nat := 0xFFFF_FFFF_FFFF_FFFF

  datatype SpanFetch = SpanFetch(coin: Option<Coin>, span: Cache, base: Cache)

  /** CCoinsViewCache::GetCoin over CoinsDB. */
  function SpanGet(db: Db, base: Cache, span: Cache, o: OutPoint, requiresScript: bool, room: Room): SpanFetch {
    if o in span && (span[o].coin.IsSpent() || span[o].coin.HasScript()) then
      SpanFetch(Some(span[o].coin.Handed()), span, base)
    else if o in span && !requiresScript then SpanFetch(Some(span[o].coin.WithoutScript()), span, base)
    else
      var f := BaseGet(db, base, o, if requiresScript then MAX_UINT64 else 0, room);
      if f.coin.Some? && o !in span then
        SpanFetch(f.coin, span[o := Fetched(if f.coin.value.owns then f.coin.value.WithoutScript()
            else f.coin.value)], f.base)
      else SpanFetch(f.coin, span, f.base)
  }

  /** A lookup leaves at most a clean entry in the span's cache, and no script of its own: that takes no memory. */
  lemma SpanGetCaches(use: seq<int> -> nat, db: Db, base: Cache, span: Cache, o: OutPoint, requiresScript: bool,
                      room: Room)
    requires StackOk(db, base, span) && use([]) == 0
    ensures var f := SpanGet(db, base, span, o, requiresScript, room);
            && (o in span ==> f.span == span)
            && (o !in span && f.coin.None? ==> f.span == span)
            && (o !in span && f.coin.Some? ==>
                  && o in f.span && f.span == span[o := f.span[o]] && !f.span[o].isDirty && !f.span[o].isFresh
                  && f.span[o].coin.scriptSize == f.coin.value.scriptSize && Usage(use, f.span[o].coin) == 0
                  && o in f.base && var size := f.coin.value.scriptSize;
                  && (f.span[o].coin.HasScript() <==> size == 0 || f.base[o].coin.HasScript()))
  {
    if o !in span {
      BaseGetAnswers(db, base, o, if requiresScript then MAX_UINT64 else 0, room);
      BaseGetCaches(db, base, o, if requiresScript then MAX_UINT64 else 0, room);
    }
  }

  lemma LayerExt(m: Cache, v: View, v': View)
    requires LayerOk(m, v) && forall o :: v(o) == v'(o)
    ensures LayerOk(m, v')
  {
    forall o | o in m
      ensures EntryOk(m[o], v'(o))
    {
      assert v(o) == v'(o);
    }
  }

  ghost predicate StackOk(db: Db, base: Cache, span: Cache) {
    LayerOk(base, DbView(db)) && LayerOk(span, BaseView(db, base))
  }

  /** A lookup through the whole stack answers truly and changes nothing that any layer shows. */
  lemma SpanGetAnswers(db: Db, base: Cache, span: Cache, o: OutPoint, requiresScript: bool, room: Room)
    requires StackOk(db, base, span)
    ensures var f := SpanGet(db, base, span, o, requiresScript, room);
            && StackOk(db, f.base, f.span)
            && (f.coin.Some? ==> o in f.span)
            && (f.coin.None? ==> Show(base, Find(db, o), o).None?)
            && (forall x :: Show(f.base, Find(db, x), x) == Show(base, Find(db, x), x))
            && (forall x :: SpanShow(db, f.base, f.span, x) == SpanShow(db, base, span, x))
    ensures Answers(SpanGet(db, base, span, o, requiresScript, room).coin, SpanShow(db, base, span, o),
                    if requiresScript then MAX_UINT64 else 0)
  {
    assert o in span ==> EntryOk(span[o], BaseView(db, base)(o));
    if o in span && (span[o].coin.IsSpent() || span[o].coin.HasScript() || !requiresScript) {
    } else {
      var maxScript := if requiresScript then MAX_UINT64 else 0;
      BaseGetAnswers(db, base, o, maxScript, room);
      var f := BaseGet(db, base, o, maxScript, room);
      LayerExt(span, BaseView(db, base), BaseView(db, f.base));
      if f.coin.Some? && o !in span {
        FetchKeeps(span, BaseView(db, f.base), o, if f.coin.value.owns then f.coin.value.WithoutScript()
            else f.coin.value);
      }
    }
  }

  // ---------------------------------------------------------------- flushing

  /** The result of CoinsStore::BatchWrite, key by key. */
  function Merged(m: Cache, child: Cache): Cache {
    map o | o in m.Keys + child.Keys && MergedAt(m, child, o).Some? :: MergedAt(m, child, o).value
  }

  function MergedAt(m: Cache, child: Cache, o: OutPoint): Option<Entry> {
    if o in child && child[o].isDirty then MergeEntry(Get(m, o), child[o]) else Get(m, o)
  }

  /** The database after DBBatchWrite. */
  function Written(db: Db, base: Cache): Db {
    map o | o in db.Keys + base.Keys && WrittenAt(db, base, o).Some? :: WrittenAt(db, base, o).value
  }

  function WrittenAt(db: Db, base: Cache, o: OutPoint): Option<Unspent> {
    if o in base && base[o].isDirty then
      if base[o].coin.IsSpent() then None else Some(base[o].coin.Value())
    else Find(db, o)
  }

  /** Writing the cache out leaves the database showing what the cache showed. */
  lemma WriteRefines(db: Db, base: Cache)
    requires LayerOk(base, DbView(db))
    ensures forall o :: Find(Written(db, base), o) == Show(base, Find(db, o), o)
    ensures forall o :: o in base && base[o].isDirty && !base[o].coin.IsSpent() ==> base[o].coin.HasScript()
  {
    forall o
      ensures Find(Written(db, base), o) == Show(base, Find(db, o), o)
    {
      assert o in base ==> EntryOk(base[o], DbView(db)(o));
    }
    forall o | o in base && base[o].isDirty && !base[o].coin.IsSpent()
      ensures base[o].coin.HasScript()
    {
      assert EntryOk(base[o], DbView(db)(o));
    }
  }

  // ---------------------------------------------------------------- runs

  datatype State = State(db: Db, base: Cache, span: Cache)

  /** The same history on plain maps. */
  datatype Reference = Reference(db: Db, base: Db, span: Db)

  datatype Label =
    | Lookup(o: OutPoint, requiresScript: bool, room: Room)
    | Add(o: OutPoint, out: Unspent, overwrite: bool, unspendable: bool)
    | Spend(o: OutPoint, withScript: bool, room: Room)
    | Uncache(o: OutPoint)
    | FlushSpan
    | FlushBase
    | Discard

  /** Only AddCoin asks something of its caller: without overwrite, look the coin up first. */
  predicate Enabled(s: State, l: Label) {
    l.Add? ==> l.unspendable || l.overwrite || l.o in s.span || Show(s.base, Find(s.db, l.o), l.o).None?
  }

  function Step(s: State, l: Label): State {
    match l
    case Lookup(o, requiresScript, room) =>
      var f := SpanGet(s.db, s.base, s.span, o, requiresScript, room);
      s.(base := f.base, span := f.span)
    case Add(o, u, overwrite, unspendable) =>
      if unspendable || AddThrows(s.span, o, overwrite) then s
      else s.(span := Added(s.span, o, FromOut(u), overwrite))
    case Spend(o, withScript, room) =>
      var f := SpanGet(s.db, s.base, s.span, o, withScript, room);
      s.(base := f.base, span := if f.coin.None? then f.span else Spent(f.span, o))
    case Uncache(o) => s.(base := Uncached(s.base, o))
    case FlushSpan => s.(base := Merged(s.base, s.span), span := map[])
    case FlushBase => s.(db := Written(s.db, s.base), base := map[])
    case Discard => s.(span := map[])
  }

  function ReferenceStep(r: Reference, l: Label): Reference {
    match l
    case Lookup(_, _, _) | Uncache(_) => r
    case Add(o, u, overwrite, unspendable) =>
      if unspendable || (!overwrite && o in r.span) then r else r.(span := r.span[o := u])
    case Spend(o, _, _) => r.(span := r.span - {o})
    case FlushSpan => r.(base := r.span)
    case FlushBase => r.(db := r.base)
    case Discard => r.(span := r.base)
  }

  /** Every layer shows what the plain map holds. */
  ghost predicate Refines(s: State, r: Reference) {
    && StackOk(s.db, s.base, s.span)
    && (forall o :: Find(r.db, o) == Find(s.db, o))
    && (forall o :: Find(r.base, o) == Show(s.base, Find(s.db, o), o))
    && (forall o :: Find(r.span, o) == SpanShow(s.db, s.base, s.span, o))
  }

  /** The span's cache shows what the plain map holds. */
  ghost predicate ShowsSpan(db: Db, base: Cache, span: Cache, plain: Db) {
    forall o :: Find(plain, o) == SpanShow(db, base, span, o)
  }

  lemma AddedShows(db: Db, base: Cache, span: Cache, plain: Db, o: OutPoint, u: Unspent, overwrite: bool)
    requires LayerOk(span, BaseView(db, base)) && ShowsSpan(db, base, span, plain) && !AddThrows(span, o, overwrite)
    requires overwrite || o in span || Show(base, Find(db, o), o).None?
    ensures var span' := Added(span, o, FromOut(u), overwrite);
            LayerOk(span', BaseView(db, base)) && ShowsSpan(db, base, span', plain[o := u])
  {
    var below, span' := BaseView(db, base), Added(span, o, FromOut(u), overwrite);
    AddKeepsIff(span, below, o, FromOut(u), overwrite);
    forall x
      ensures Find(plain[o := u], x) == SpanShow(db, base, span', x)
    {
      assert Show(span', below(x), x) == if x == o then Some(FromOut(u).Value()) else Show(span, below(x), x);
      assert Find(plain, x) == SpanShow(db, base, span, x);
    }
  }

  /** Without overwrite the cache throws exactly where the plain map has the coin. */
  lemma AddThrowsShown(db: Db, base: Cache, span: Cache, plain: Db, o: OutPoint)
    requires LayerOk(span, BaseView(db, base)) && ShowsSpan(db, base, span, plain)
    requires o in span || Show(base, Find(db, o), o).None?
    ensures AddThrows(span, o, false) <==> o in plain
  {
    assert o in span ==> EntryOk(span[o], BaseView(db, base)(o));
    assert Find(plain, o) == SpanShow(db, base, span, o);
  }

  lemma AddRefines(s: State, r: Reference, l: Label)
    requires Refines(s, r) && l.Add? && Enabled(s, l)
    ensures Refines(Step(s, l), ReferenceStep(r, l))
  {
    assert ShowsSpan(s.db, s.base, s.span, r.span);
    if !l.unspendable {
      if !l.overwrite {
        AddThrowsShown(s.db, s.base, s.span, r.span, l.o);
      }
      if !AddThrows(s.span, l.o, l.overwrite) {
        AddedShows(s.db, s.base, s.span, r.span, l.o, l.out, l.overwrite);
      }
    }
  }

  lemma SpentShows(db: Db, base: Cache, span: Cache, plain: Db, o: OutPoint)
    requires LayerOk(span, BaseView(db, base)) && ShowsSpan(db, base, span, plain) && o in span
    ensures LayerOk(Spent(span, o), BaseView(db, base)) && ShowsSpan(db, base, Spent(span, o), plain - {o})
  {
    var below := BaseView(db, base);
    SpendKeeps(span, below, o);
    forall x
      ensures Find(plain - {o}, x) == SpanShow(db, base, Spent(span, o), x)
    {
      assert Show(Spent(span, o), below(x), x) == if x == o then None else Show(span, below(x), x);
      assert Find(plain, x) == SpanShow(db, base, span, x);
    }
  }

  lemma LookupRefines(s: State, r: Reference, o: OutPoint, requiresScript: bool, room: Room)
    requires Refines(s, r)
    ensures Refines(Step(s, Lookup(o, requiresScript, room)), r)
  {
    SpanGetAnswers(s.db, s.base, s.span, o, requiresScript, room);
  }

  /** A lookup that finds no coin at all proves that there is none. */
  lemma NotFound(s: State, r: Reference, o: OutPoint, requiresScript: bool, room: Room)
    requires Refines(s, r)
    ensures var f := SpanGet(s.db, s.base, s.span, o, requiresScript, room);
            if f.coin.Some? then o in f.span else o !in r.span
  {
    SpanGetAnswers(s.db, s.base, s.span, o, requiresScript, room);
    assert Find(r.span, o) == SpanShow(s.db, s.base, s.span, o);
  }

  lemma SpendRefines(s: State, r: Reference, o: OutPoint, withScript: bool, room: Room)
    requires Refines(s, r)
    ensures Refines(Step(s, Spend(o, withScript, room)), ReferenceStep(r, Spend(o, withScript, room)))
  {
    LookupRefines(s, r, o, withScript, room);
    NotFound(s, r, o, withScript, room);
    var f := SpanGet(s.db, s.base, s.span, o, withScript, room);
    if f.coin.Some? {
      SpentShows(s.db, f.base, f.span, r.span, o);
    } else {
      assert r.span - {o} == r.span;
    }
  }

  lemma FlushSpanRefines(s: State, r: Reference)
    requires Refines(s, r)
    ensures Refines(Step(s, FlushSpan), ReferenceStep(r, FlushSpan))
    ensures forall o :: o in s.span ==> !MergeThrows(s.base, o, s.span[o])
  {
    var below := DbView(s.db);
    forall o | o in s.span
      ensures EntryOk(s.span[o], Show(s.base, below(o), o)) && !MergeThrows(s.base, o, s.span[o])
    {
      assert EntryOk(s.span[o], BaseView(s.db, s.base)(o));
      MergeNeverThrows(s.base, below, s.span, o);
    }
    MergeRefines(s.base, below, s.span, Merged(s.base, s.span));
    forall x
      ensures Show(Merged(s.base, s.span), Find(s.db, x), x) == SpanShow(s.db, s.base, s.span, x)
    {
      assert Show(Merged(s.base, s.span), below(x), x) == Show(s.span, Show(s.base, below(x), x), x);
    }
  }

  lemma FlushBaseRefines(s: State, r: Reference)
    requires Refines(s, r)
    ensures Refines(Step(s, FlushBase), ReferenceStep(r, FlushBase))
  {
    WriteRefines(s.db, s.base);
    LayerExt(s.span, BaseView(s.db, s.base), BaseView(Written(s.db, s.base), map[]));
  }

  /** Each step of the cache stack is a step of the plain maps. */
  lemma StepRefines(s: State, r: Reference, l: Label)
    requires Refines(s, r) && Enabled(s, l)
    ensures Refines(Step(s, l), ReferenceStep(r, l))
  {
    match l
    case Lookup(o, requiresScript, room) => LookupRefines(s, r, o, requiresScript, room);
    case Add(_, _, _, _) => AddRefines(s, r, l);
    case Spend(o, withScript, room) => SpendRefines(s, r, o, withScript, room);
    case Uncache(o) =>
      UncacheKeeps(s.base, DbView(s.db), o);
      forall x
        ensures BaseView(s.db, s.base)(x) == BaseView(s.db, Uncached(s.base, o))(x)
      {
        assert Show(Uncached(s.base, o), DbView(s.db)(x), x) == Show(s.base, DbView(s.db)(x), x);
      }
      LayerExt(s.span, BaseView(s.db, s.base), BaseView(s.db, Uncached(s.base, o)));
    case FlushSpan => FlushSpanRefines(s, r);
    case FlushBase => FlushBaseRefines(s, r);
    case Discard =>
  }

  ghost predicate IsRun(states: seq<State>, refs: seq<Reference>, labels: seq<Label>) {
    && |states| == |refs| == |labels| + 1
    && states[0].base == map[] && states[0].span == map[]
    && refs[0] == Reference(states[0].db, states[0].db, states[0].db)
    && (forall k :: 0 <= k < |labels| ==>
          && Enabled(states[k], labels[k])
          && states[k + 1] == Step(states[k], labels[k])
          && refs[k + 1] == ReferenceStep(refs[k], labels[k]))
  }

  /** Over every run, from any database, the stack of caches is indistinguishable from the plain maps. */
  lemma {:induction false} RunRefines(states: seq<State>, refs: seq<Reference>, labels: seq<Label>, k: nat)
    requires IsRun(states, refs, labels) && k < |states|
    ensures Refines(states[k], refs[k])
  {
    if k > 0 {
      RunRefines(states, refs, labels, k - 1);
      assert states[k - 1 + 1] == Step(states[k - 1], labels[k - 1]);
      StepRefines(states[k - 1], refs[k - 1], labels[k - 1]);
    }
  }

  // ---------------------------------------------------------------- short-lived coins

  /** A coin that the parent does not know, added and spent, leaves nothing in the cache. */
  lemma AddedAndSpent(m: Cache, o: OutPoint, coin: Coin)
    requires o !in m && !coin.IsSpent()
    ensures !AddThrows(m, o, false) && Spent(Added(m, o, coin, false), o) == m
  {
  }

  /** The same if the cache was flushed in between: the spending erases the parent's entry. */
  lemma FlushedAndSpent(base: Cache, o: OutPoint, coin: Coin)
    requires o !in base && !coin.IsSpent()
    ensures var m := Merged(base, Added(map[], o, coin, false));
            && Get(m, o) == Some(Entry(coin, true, true))
            && forall spent: Entry :: spent.isDirty && spent.coin.IsSpent() ==> Merged(m, map[o := spent]) == base
  {
    var m := Merged(base, Added(map[], o, coin, false));
    assert forall x :: Get(m, x) == if x == o then Some(Entry(coin, true, true)) else Get(base, x);
    forall spent: Entry | spent.isDirty && spent.coin.IsSpent()
      ensures Merged(m, map[o := spent]) == base
    {
      var m2 := Merged(m, map[o := spent]);
      forall x
        ensures Get(m2, x) == Get(base, x)
      {
        assert Get(m, x) == if x == o then Some(Entry(coin, true, true)) else Get(base, x);
      }
      SameEntries(m2, base);
    }
  }

  // ---------------------------------------------------------------- memory accounting

  /** Bytes a coin's own script takes; `use` measures a script. */
  function Usage(use: seq<int> -> nat, c: Coin): nat {
    if c.HasScript() && c.owns then use(c.script) else 0
  }

  ghost function Pick(m: Cache): (o: OutPoint)
    requires m != map[]
    ensures o in m
  {
    NonEmpty(m);
    var o :| o in m;
    o
  }

  lemma NonEmpty(m: Cache)
    requires m != map[]
    ensures exists o :: o in m
  {
    if forall o :: o !in m {
      assert false;
    }
  }

  ghost function TotalUsage(use: seq<int> -> nat, m: Cache): nat
    decreases |m|
  {
    if m == map[] then 0 else Usage(use, m[Pick(m)].coin) + TotalUsage(use, m - {Pick(m)})
  }

  lemma {:induction false} UsageWithout(use: seq<int> -> nat, m: Cache, o: OutPoint)
    requires o in m
    ensures TotalUsage(use, m) == Usage(use, m[o].coin) + TotalUsage(use, m - {o})
    decreases |m|
  {
    var x := Pick(m);
    if x != o {
      UsageWithout(use, m - {x}, o);
      UsageWithout(use, m - {o}, x);
      assert m - {x} - {o} == m - {o} - {x};
    }
  }

  lemma UsagePut(use: seq<int> -> nat, m: Cache, o: OutPoint, e: Entry)
    ensures TotalUsage(use, m[o := e]) + (if o in m then Usage(use, m[o].coin) else 0)
            == TotalUsage(use, m) + Usage(use, e.coin)
  {
    UsageWithout(use, m[o := e], o);
    assert m[o := e] - {o} == m - {o};
    if o in m {
      UsageWithout(use, m, o);
    } else {
      assert m - {o} == m;
    }
  }

  // ---------------------------------------------------------------- the store itself

  /** `CoinsStore`: the map changes in place and its memory counter stays exact. */
  class CoinsStore {
    const use: seq<int> -> nat
    var cacheCoins: Cache
    var cachedCoinsUsage: int

    /** A script without bytes takes no memory; the counter is the sum over the entries. */
    ghost predicate Valid()
      reads this
    {
      use([]) == 0 && cachedCoinsUsage == TotalUsage(use, cacheCoins)
    }

    constructor (use: seq<int> -> nat)
      requires use([]) == 0
      ensures Valid() && cacheCoins == map[]
    {
      this.use := use;
      cacheCoins, cachedCoinsUsage := map[], 0;
    }

    method AddFetched(o: OutPoint, coin: Coin)
      requires Valid() && o !in cacheCoins
      modifies this
      ensures Valid() && cacheCoins == old(cacheCoins)[o := Fetched(coin)]
      ensures cacheCoins[o].coin == coin && !cacheCoins[o].isDirty && (cacheCoins[o].isFresh <==> coin.IsSpent())
    {
      var entry := Entry(coin, false, false);
      if entry.coin.IsSpent() {
        entry := Entry(coin, false, true);
      }
      UsagePut(use, cacheCoins, o, entry);
      cacheCoins := cacheCoins[o := entry];
      cachedCoinsUsage := cachedCoinsUsage + Usage(use, entry.coin);
    }

    method AddCoin(o: OutPoint, coin: Coin, possibleOverwrite: bool) returns (thrown: bool)
      requires Valid()
      modifies this
      ensures Valid() && (thrown <==> AddThrows(old(cacheCoins), o, possibleOverwrite))
      ensures thrown <==> !possibleOverwrite && o in old(cacheCoins) && old(cacheCoins[o]).coin.amount != SPENT
      ensures cacheCoins == if thrown then old(cacheCoins) else Added(old(cacheCoins), o, coin, possibleOverwrite)
      ensures !thrown && o !in old(cacheCoins) && coin.owns && coin.HasScript() ==>
                cachedCoinsUsage == old(cachedCoinsUsage) + use(coin.script)
    {
      var inserted := o !in cacheCoins;
      var entry := if inserted then Entry(CLEARED, false, false) else cacheCoins[o];
      var isFresh := false;
      if !possibleOverwrite {
        if !entry.coin.IsSpent() {
          return true;
        }
        isFresh := !entry.isDirty;
      }
      if !inserted {
        cachedCoinsUsage := cachedCoinsUsage - Usage(use, entry.coin);
      }
      entry := Entry(coin, true, entry.isFresh || isFresh);
      UsagePut(use, cacheCoins, o, entry);
      cacheCoins := cacheCoins[o := entry];
      cachedCoinsUsage := cachedCoinsUsage + Usage(use, coin);
      thrown := false;
    }

    method SpendCoin(o: OutPoint) returns (found: bool)
      requires Valid()
      modifies this
      ensures Valid() && (found <==> o in old(cacheCoins)) && cacheCoins == Spent(old(cacheCoins), o)
    {
      if o !in cacheCoins {
        return false;
      }
      cachedCoinsUsage := cachedCoinsUsage - Usage(use, cacheCoins[o].coin);
      if cacheCoins[o].isFresh {
        UsageWithout(use, cacheCoins, o);
        cacheCoins := cacheCoins - {o};
      } else {
        UsagePut(use, cacheCoins, o, Entry(CLEARED, true, false));
        cacheCoins := cacheCoins[o := Entry(CLEARED, true, false)];
      }
      found := true;
    }

    method EraseCoin(o: OutPoint)
      requires Valid() && o in cacheCoins
      modifies this
      ensures Valid() && cacheCoins == old(cacheCoins) - {o}
    {
      UsageWithout(use, cacheCoins, o);
      cachedCoinsUsage := cachedCoinsUsage - Usage(use, cacheCoins[o].coin);
      cacheCoins := cacheCoins - {o};
    }

    method UncacheOne(o: OutPoint)
      requires Valid()
      modifies this
      ensures Valid() && cacheCoins == Uncached(old(cacheCoins), o)
    {
      if o in cacheCoins && !cacheCoins[o].isDirty && !cacheCoins[o].isFresh {
        EraseCoin(o);
      }
    }

    /** The script of a coin that was kept without it arrives. */
    method ReplaceWithCoinWithScript(o: OutPoint, coin: Coin)
      requires Valid() && o in cacheCoins && !cacheCoins[o].coin.HasScript() && coin.HasScript()
      modifies this
      ensures Valid() && cacheCoins == old(cacheCoins)[o := old(cacheCoins)[o].(coin := coin)]
    {
      UsagePut(use, cacheCoins, o, cacheCoins[o].(coin := coin));
      cacheCoins := cacheCoins[o := cacheCoins[o].(coin := coin)];
      cachedCoinsUsage := cachedCoinsUsage + Usage(use, coin);
    }

    method MoveOutCoins() returns (m: Cache)
      requires Valid()
      modifies this
      ensures Valid() && m == old(cacheCoins) && cacheCoins == map[]
    {
      cachedCoinsUsage := 0;
      m := cacheCoins;
      cacheCoins := map[];
    }

    /** One dirty entry of a child. */
    method MergeOne(o: OutPoint, entry: Entry) returns (thrown: bool)
      requires Valid() && entry.isDirty
      modifies this
      ensures Valid() && (thrown <==> MergeThrows(old(cacheCoins), o, entry))
      ensures cacheCoins == if thrown then old(cacheCoins)
              else Put(old(cacheCoins), o, MergeEntry(Get(old(cacheCoins), o), entry))
    {
      thrown := false;
      if o !in cacheCoins {
        if !(entry.isFresh && entry.coin.IsSpent()) {
          UsagePut(use, cacheCoins, o, Entry(entry.coin, true, entry.isFresh));
          cacheCoins := cacheCoins[o := Entry(entry.coin, true, entry.isFresh)];
          cachedCoinsUsage := cachedCoinsUsage + Usage(use, entry.coin);
        } else {
          assert cacheCoins - {o} == cacheCoins;
        }
      } else if entry.isFresh && !cacheCoins[o].coin.IsSpent() {
        thrown := true;
      } else if cacheCoins[o].isFresh && entry.coin.IsSpent() {
        EraseCoin(o);
      } else {
        var updated := Entry(entry.coin, true, cacheCoins[o].isFresh);
        UsagePut(use, cacheCoins, o, updated);
        cachedCoinsUsage := cachedCoinsUsage - Usage(use, cacheCoins[o].coin) + Usage(use, entry.coin);
        cacheCoins := cacheCoins[o := updated];
      }
    }

    /** The child's entries come in any order; it throws only if some FRESH flag was wrong. */
    method BatchWrite(child: Cache) returns (thrown: bool)
      requires Valid()
      modifies this
      ensures Valid()
      ensures thrown <==> exists o :: o in child && child[o].isDirty && child[o].isFresh && o in old(cacheCoins)
                                      && !old(cacheCoins)[o].coin.IsSpent()
      ensures !thrown ==> cacheCoins == Merged(old(cacheCoins), child)
    {
      var rest := child;
      thrown := false;
      while rest != map[]
        invariant Valid()
        invariant forall o :: o in rest ==> o in child && rest[o] == child[o]
        invariant forall o :: o in child && o !in rest ==> !MergeThrows(old(cacheCoins), o, child[o])
        invariant forall o :: Get(cacheCoins, o) == if o in rest then Get(old(cacheCoins), o)
                  else MergedAt(old(cacheCoins), child, o)
        decreases |rest|
      {
        NonEmpty(rest);
        var o :| o in rest;
        assert Get(cacheCoins, o) == Get(old(cacheCoins), o);
        if rest[o].isDirty {
          var t := MergeOne(o, rest[o]);
          if t {
            return true;
          }
        }
        rest := rest - {o};
      }
      assert cacheCoins == Merged(old(cacheCoins), child) by {
        forall o
          ensures Get(cacheCoins, o) == Get(Merged(old(cacheCoins), child), o)
        {
        }
        SameEntries(cacheCoins, Merged(old(cacheCoins), child));
      }
    }
  }

  lemma SameEntries(m: Cache, m': Cache)
    requires forall o :: Get(m, o) == Get(m', o)
    ensures m == m'
  {
    forall o
      ensures o in m <==> o in m'
      ensures o in m ==> m[o] == m'[o]
    {
      assert Get(m, o) == Get(m', o);
    }
  }

  // ---------------------------------------------------------------- the layers themselves

  /** `CoinsDB`: the database and the cache over it. */
  class CoinsDB {
    var db: Db
    const mCache: CoinsStore

    constructor (db: Db, use: seq<int> -> nat)
      requires use([]) == 0
      ensures this.db == db && fresh(mCache) && mCache.Valid() && mCache.cacheCoins == map[]
    {
      this.db := db;
      mCache := new CoinsStore(use);
    }

    method GetCoin(o: OutPoint, maxScriptSize: nat, room: Room) returns (coin: Option<Coin>)
      requires mCache.Valid() && LayerOk(mCache.cacheCoins, DbView(db))
      modifies mCache
      ensures mCache.Valid()
      ensures BaseFetch(coin, mCache.cacheCoins) == BaseGet(db, old(mCache.cacheCoins), o, maxScriptSize, room)
    {
      BaseGetAnswers(db, mCache.cacheCoins, o, maxScriptSize, room);
      var cached := o in mCache.cacheCoins;
      if cached {
        var c := mCache.cacheCoins[o].coin;
        if c.IsSpent() {
          return None;
        } else if c.HasScript() {
          return Some(c.Handed());
        } else if maxScriptSize < c.scriptSize {
          return Some(c.WithoutScript());
        }
      }
      var fromDisk := DbGet(db, o, room.MaxLoad(maxScriptSize));
      if fromDisk.None? {
        return None;
      }
      var c := fromDisk.value;
      if cached {
        assert EntryOk(mCache.cacheCoins[o], DbView(db)(o));
        assert c.HasScript();
        if room.Fits(c.scriptSize) {
          mCache.ReplaceWithCoinWithScript(o, c);
          return Some(c.(owns := false));
        }
        return fromDisk;
      }
      if !room.Fits(c.scriptSize) {
        mCache.AddFetched(o, c.WithoutScript());
        return fromDisk;
      }
      mCache.AddFetched(o, c);
      coin := Some(c.(owns := false));
    }

    /** Flush: the database takes over what the cache showed. */
    method Flush()
      requires mCache.Valid() && LayerOk(mCache.cacheCoins, DbView(db))
      modifies this, mCache
      ensures mCache.Valid() && mCache.cacheCoins == map[] && db == Written(old(db), old(mCache.cacheCoins))
      ensures forall o :: Find(db, o) == Show(old(mCache.cacheCoins), Find(old(db), o), o)
    {
      WriteRefines(db, mCache.cacheCoins);
      var coins := mCache.MoveOutCoins();
      db := Written(db, coins);
    }
  }

  /** `CCoinsViewCache` over a CoinsDB, with the flush of CoinsDBSpan. */
  class ViewCache {
    const mView: CoinsDB
    const mCache: CoinsStore

    ghost predicate Valid()
      reads this, mView, mView.mCache, mCache
    {
      && mCache != mView.mCache && mCache.Valid() && mView.mCache.Valid()
      && StackOk(mView.db, mView.mCache.cacheCoins, mCache.cacheCoins)
    }

    ghost function Snapshot(): State
      reads this, mView, mView.mCache, mCache
    {
      State(mView.db, mView.mCache.cacheCoins, mCache.cacheCoins)
    }

    constructor (view: CoinsDB, use: seq<int> -> nat)
      requires use([]) == 0 && view.mCache.Valid() && LayerOk(view.mCache.cacheCoins, DbView(view.db))
      ensures Valid() && mView == view && fresh(mCache) && mCache.cacheCoins == map[]
    {
      mView := view;
      mCache := new CoinsStore(use);
    }

    method GetCoin(o: OutPoint, requiresScript: bool, room: Room) returns (coin: Option<Coin>)
      requires Valid()
      modifies mView.mCache, mCache
      ensures Valid() && Snapshot() == Step(old(Snapshot()), Lookup(o, requiresScript, room))
      ensures coin == SpanGet(mView.db, old(mView.mCache.cacheCoins), old(mCache.cacheCoins), o, requiresScript,
              room).coin
      ensures Answers(coin, SpanShow(mView.db, old(mView.mCache.cacheCoins), old(mCache.cacheCoins), o),
                      if requiresScript then MAX_UINT64 else 0)
    {
      SpanGetAnswers(mView.db, mView.mCache.cacheCoins, mCache.cacheCoins, o, requiresScript, room);
      var cached := o in mCache.cacheCoins;
      if cached {
        var c := mCache.cacheCoins[o].coin;
        if c.IsSpent() || c.HasScript() {
          return Some(c.Handed());
        } else if !requiresScript {
          return Some(c.WithoutScript());
        }
      }
      coin := mView.GetCoin(o, if requiresScript then MAX_UINT64 else 0, room);
      if coin.Some? && !cached {
        mCache.AddFetched(o, if coin.value.owns then coin.value.WithoutScript() else coin.value);
      }
    }

    /** True exactly if the view shows the coin. */
    method HaveCoin(o: OutPoint, room: Room) returns (have: bool)
      requires Valid()
      modifies mView.mCache, mCache
      ensures Valid() && (have <==> SpanShow(mView.db, old(mView.mCache.cacheCoins), old(mCache.cacheCoins), o).Some?)
    {
      var coin := GetCoin(o, false, room);
      have := coin.Some? && !coin.value.IsSpent();
    }

    /** Also says so of a coin that the cache already holds as spent. */
    method SpendCoin(o: OutPoint, withScript: bool, room: Room) returns (done: bool)
      requires Valid()
      modifies mView.mCache, mCache
      ensures Valid() && Snapshot() == Step(old(Snapshot()), Spend(o, withScript, room))
      ensures done <==> old(SpanShow(mView.db, mView.mCache.cacheCoins, mCache.cacheCoins, o)).Some?
                        || old(o in mCache.cacheCoins && mCache.cacheCoins[o].coin.IsSpent())
    {
      SpanGetAnswers(mView.db, mView.mCache.cacheCoins, mCache.cacheCoins, o, withScript, room);
      var coin := GetCoin(o, withScript, room);
      if coin.None? {
        return false;
      }
      SpendKeeps(mCache.cacheCoins, BaseView(mView.db, mView.mCache.cacheCoins), o);
      done := mCache.SpendCoin(o);
    }

    /** TryFlush with the write lock held: the database cache takes over and never throws. */
    method Flush() returns (thrown: bool)
      requires Valid()
      modifies mView.mCache, mCache
      ensures Valid() && !thrown && Snapshot() == Step(old(Snapshot()), FlushSpan)
      ensures forall o :: Show(mView.mCache.cacheCoins, Find(mView.db, o), o)
                       == SpanShow(mView.db, old(mView.mCache.cacheCoins), old(mCache.cacheCoins), o)
    {
      var below := DbView(mView.db);
      forall o | o in mCache.cacheCoins
        ensures EntryOk(mCache.cacheCoins[o], Show(mView.mCache.cacheCoins, below(o), o))
        ensures !MergeThrows(mView.mCache.cacheCoins, o, mCache.cacheCoins[o])
      {
        assert EntryOk(mCache.cacheCoins[o], BaseView(mView.db, mView.mCache.cacheCoins)(o));
        MergeNeverThrows(mView.mCache.cacheCoins, below, mCache.cacheCoins, o);
      }
      MergeRefines(mView.mCache.cacheCoins, below, mCache.cacheCoins,
          Merged(mView.mCache.cacheCoins, mCache.cacheCoins));
      ghost var base := mView.mCache.cacheCoins;
      var coins := mCache.MoveOutCoins();
      thrown := mView.mCache.BatchWrite(coins);
      forall o
        ensures Show(mView.mCache.cacheCoins, Find(mView.db, o), o) == SpanShow(mView.db, base, coins, o)
      {
        assert Show(mView.mCache.cacheCoins, below(o), o) == Show(coins, Show(base, below(o), o), o);
      }
    }
  }
}
