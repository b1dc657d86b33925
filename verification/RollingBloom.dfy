/**
 The rolling Bloom filter. Every position carries a generation number in two bits, 0 meaning unset; starting a
 generation wipes the positions that still carry its number from three generations ago.

 A 64-bit word is its sequence of bits. The number of words and of hash functions are parameters.
 */
module RollingBloom {
  import opened Powers

  type Key = seq<int>
  type Word = w: seq<bool> | |w| == 64 witness seq(64, i => false)

  const HASH_RANGE: int := 0x1_0000_0000

  const ZERO: Word := seq(64, i => false)

  /** (x * n) >> 32. */
  function FastMod(x: int, n: int): int {
    x * n / HASH_RANGE
  }

  lemma FastModInRange(x: int, n: int)
    requires 0 <= x < HASH_RANGE && n > 0
    ensures 0 <= FastMod(x, n) < n
  {
    MulMono(0, x, n);
    MulMono(x, HASH_RANGE - 1, n);
  }

  /** The generation of a position: bit 0 in the even word, bit 1 in the odd one. */
  function GenOf(data: seq<Word>, w: nat, bit: nat): (g: nat)
    requires 2 * w + 1 < |data| && bit < 64
    ensures g < 4
  {
    (if data[2 * w][bit] then 1 else 0) + if data[2 * w + 1][bit] then 2 else 0
  }

  function Low(g: nat): bool { g % 2 == 1 }

  function High(g: nat): bool { g / 2 % 2 == 1 }

  // ---------------------------------------------------------------- wiping

  /** data & mask, where mask = (p1 ^ mask1) | (p2 ^ mask2) clears the bits of one generation. */
  function Masked(word: Word, p1: Word, p2: Word, low: bool, high: bool): Word {
    seq(64, i requires 0 <= i < 64 => word[i] && (p1[i] != low || p2[i] != high))
  }

  // ---------------------------------------------------------------- positions

  /** Where the n-th hash of a key points: a pair of words and a bit. */
  datatype Hashing = Hashing(h: (int, int, Key) -> int, tweak: int, funcs: nat, pairs: nat)
  {
    function Hash(n: int, key: Key): (x: int)
      ensures 0 <= x < HASH_RANGE
    {
      h(n, tweak, key) % HASH_RANGE
    }

    function Pair(n: int, key: Key): (w: nat)
      requires pairs > 0
      ensures w < pairs
    {
      FastModInRange(Hash(n, key), 2 * pairs);
      FastMod(Hash(n, key), 2 * pairs) / 2
    }

    function Bit(n: int, key: Key): (b: nat)
      ensures b < 64
    {
      Hash(n, key) % 64
    }
  }

  /** The positions of the first `funcs` hashes of a key are set. */
  ghost predicate IsSet(data: seq<Word>, hs: Hashing, key: Key, funcs: nat)
    requires hs.pairs > 0 && |data| == 2 * hs.pairs
  {
    forall n :: 0 <= n < funcs ==> GenOf(data, hs.Pair(n, key), hs.Bit(n, key)) != 0
  }

  // ---------------------------------------------------------------- what the bits remember

  /** The generation number of the p-th period. */
  function Number(p: nat): (g: nat)
    ensures 1 <= g <= 3
  {
    p % 3 + 1
  }

  /** `last` holds the period in which each position was last stamped; the data shows it for three periods. */
  ghost predicate Remembers(data: seq<Word>, last: map<(nat, nat), nat>, pairs: nat, now: nat)
    requires |data| == 2 * pairs
  {
    forall w: nat, b: nat :: w < pairs && b < 64 ==>
      (if (w, b) in last && last[(w, b)] + 3 > now then last[(w, b)] <= now && GenOf(data, w, b) == Number(last[(w, b)])
       else GenOf(data, w, b) == 0)
  }

  /** The positions of the first `funcs` hashes of a key have been stamped in period `p` or later. */
  ghost predicate StampedSince(last: map<(nat, nat), nat>, hs: Hashing, key: Key, p: nat, funcs: nat)
    requires hs.pairs > 0
  {
    forall n :: 0 <= n < funcs ==> Stamped(last, (hs.Pair(n, key), hs.Bit(n, key)), p)
  }

  predicate Stamped(last: map<(nat, nat), nat>, position: (nat, nat), p: nat) {
    position in last && last[position] >= p
  }

  /** Each key has been stamped in its period or later. */
  ghost predicate AllStamped(last: map<(nat, nat), nat>, hs: Hashing, history: seq<Key>, perGen: nat)
    requires hs.pairs > 0 && perGen > 0
  {
    forall t :: 0 <= t < |history| ==> StampedSince(last, hs, history[t], PeriodOf(t, perGen), hs.funcs)
  }

  /** One of the first `funcs` hashes of a key points to the position. */
  ghost predicate PointsTo(hs: Hashing, key: Key, position: (nat, nat), funcs: nat)
    requires hs.pairs > 0
  {
    exists n :: 0 <= n < funcs && (hs.Pair(n, key), hs.Bit(n, key)) == position
  }

  /** Each stamp is that of a key inserted in its period. */
  ghost predicate Traced(last: map<(nat, nat), nat>, hs: Hashing, history: seq<Key>, perGen: nat)
    requires hs.pairs > 0 && perGen > 0
  {
    forall position :: position in last ==> exists t :: StampedBy(hs, history, perGen, t, position, last[position])
  }

  ghost predicate StampedBy(hs: Hashing, history: seq<Key>, perGen: nat, t: int, position: (nat, nat), period: nat)
    requires hs.pairs > 0 && perGen > 0
  {
    0 <= t < |history| && PeriodOf(t, perGen) == period && PointsTo(hs, history[t], position, hs.funcs)
  }

  /** A key inserted in period `since` or later points to the position. */
  ghost predicate PointedToSince(hs: Hashing, history: seq<Key>, perGen: nat, position: (nat, nat), since: int)
    requires hs.pairs > 0 && perGen > 0
  {
    exists t :: 0 <= t < |history| && PeriodOf(t, perGen) >= since && PointsTo(hs, history[t], position, hs.funcs)
  }

  /** Keys inserted in period `since` or later point to all positions of the key. */
  ghost predicate KnownSince(hs: Hashing, history: seq<Key>, perGen: nat, key: Key, since: int)
    requires hs.pairs > 0 && perGen > 0
  {
    forall n :: 0 <= n < hs.funcs ==> PointedToSince(hs, history, perGen, (hs.Pair(n, key), hs.Bit(n, key)), since)
  }

  /** Starting a period wipes what was last stamped three periods ago, and nothing else. */
  lemma WipeRemembers(data: seq<Word>, data': seq<Word>, last: map<(nat, nat), nat>, pairs: nat, now: nat)
    requires |data| == |data'| == 2 * pairs && Remembers(data, last, pairs, now)
    requires forall w: nat, b: nat :: w < pairs && b < 64 ==>
      GenOf(data', w, b) == if GenOf(data, w, b) == Number(now + 1) then 0 else GenOf(data, w, b)
    ensures Remembers(data', last, pairs, now + 1)
  {
    forall w: nat, b: nat | w < pairs && b < 64
      ensures if (w, b) in last && last[(w, b)] + 3 > now + 1 then last[(w, b)] <= now + 1
              && GenOf(data', w, b) == Number(last[(w, b)])
              else GenOf(data', w, b) == 0
    {
      if (w, b) in last && last[(w, b)] + 3 > now {
        NumbersDiffer(last[(w, b)], now);
      }
    }
  }

  lemma NextNumber(p: nat)
    ensures Number(p + 1) == if Number(p) == 3 then 1 else Number(p) + 1
  {
  }

  lemma NumbersDiffer(p: nat, now: nat)
    requires p <= now < p + 3
    ensures Number(p) == Number(now + 1) <==> p + 2 == now
  {
  }

  lemma StampRemembers(data: seq<Word>, data': seq<Word>, last: map<(nat, nat), nat>, pairs: nat, now: nat, w: nat,
                       b: nat)
    requires |data| == |data'| == 2 * pairs && w < pairs && b < 64 && Remembers(data, last, pairs, now)
    requires forall v: nat, c: nat :: v < pairs && c < 64 ==>
      GenOf(data', v, c) == if v == w && c == b then Number(now) else GenOf(data, v, c)
    ensures Remembers(data', last[(w, b) := now], pairs, now)
  {
  }

  /** The period of the t-th insertion. */
  function PeriodOf(t: nat, perGen: nat): nat
    requires perGen > 0
  {
    t / perGen
  }

  /** The period the filter is in after `n` insertions: the next one only starts with its first insertion. */
  function CurrentPeriod(n: nat, perGen: nat): nat
    requires perGen > 0
  {
    if n == 0 then 0 else (n - 1) / perGen
  }

  lemma PeriodBounds(t: nat, perGen: nat)
    requires perGen > 0
    ensures PeriodOf(t, perGen) * perGen <= t < PeriodOf(t, perGen) * perGen + perGen
  {
    DivIs(t, perGen);
  }

  /** The last 2 * perGen insertions fall into the last three periods. */
  lemma RecentPeriods(n: nat, t: nat, perGen: nat)
    requires perGen > 0 && n - 2 * perGen <= t < n
    ensures PeriodOf(t, perGen) <= CurrentPeriod(n, perGen) <= PeriodOf(t, perGen) + 2
  {
    PeriodBounds(t, perGen);
    PeriodBounds(n - 1, perGen);
    NearMultiples(PeriodOf(t, perGen), CurrentPeriod(n, perGen), perGen, t, n);
  }

  lemma NearMultiples(p: nat, q: nat, m: nat, t: nat, n: nat)
    requires m > 0 && p * m <= t < p * m + m && q * m <= n - 1 < q * m + m && n - 2 * m <= t < n
    ensures p <= q <= p + 2
  {
    Distribute(q, m);
    Distribute(p, m);
    Distribute(p + 1, m);
    Distribute(p + 2, m);
    if q > p + 2 {
      MulMono(p + 3, q, m);
      assert false;
    }
    if p > q {
      MulMono(q + 1, p, m);
      assert false;
    }
  }

  class Filter {
    const perGen: nat
    const elements: nat
    var hs: Hashing
    var data: seq<Word>
    var generation: nat
    var thisGen: nat

    /** The keys inserted since the last reset, and when each position was last stamped. */
    ghost var history: seq<Key>
    ghost var last: map<(nat, nat), nat>

    ghost function Now(): nat
      requires perGen > 0
      reads this
    {
      CurrentPeriod(|history|, perGen)
    }

    ghost predicate Valid()
      reads this
    {
      && perGen > 0 && perGen == (elements + 1) / 2 && hs.pairs > 0 && |data| == 2 * hs.pairs
      && generation == Number(Now()) && Now() * perGen + thisGen == |history| && thisGen <= perGen
      && Remembers(data, last, hs.pairs, Now())
      && AllStamped(last, hs, history, perGen)
      && Traced(last, hs, history, perGen)
    }

    constructor (elements: nat, funcs: nat, pairs: nat, h: (int, int, Key) -> int, tweak: int)
      requires elements >= 1 && pairs > 0
      ensures Valid() && this.elements == elements && hs == Hashing(h, tweak, funcs, pairs) && history == []
    {
      this.elements, this.perGen := elements, (elements + 1) / 2;
      hs := Hashing(h, tweak, funcs, pairs);
      data := seq(2 * pairs, i => ZERO);
      generation, thisGen := 1, 0;
      history, last := [], map[];
    }

    /** reset, with the new random tweak as parameter. */
    method Reset(tweak: int)
      requires Valid()
      modifies this
      ensures Valid() && history == [] && hs == old(hs).(tweak := tweak)
    {
      hs := hs.(tweak := tweak);
      thisGen, generation := 0, 1;
      ClearData();
      history, last := [], map[];
    }

    method ClearData()
      modifies this`data
      ensures |data| == |old(data)| && forall i :: 0 <= i < |data| ==> data[i] == ZERO
    {
      ghost var words := |data|;
      for i := 0 to |data|
        invariant |data| == words && forall j :: 0 <= j < i ==> data[j] == ZERO
      {
        data := data[i := ZERO];
      }
    }

    /** The wiping loop of insert. */
    method Wipe(g: nat)
      requires hs.pairs > 0 && |data| == 2 * hs.pairs && 1 <= g <= 3
      modifies this`data
      ensures |data| == 2 * hs.pairs
      ensures forall w: nat, b: nat :: w < hs.pairs && b < 64 ==>
        GenOf(data, w, b) == if old(GenOf(data, w, b)) == g then 0 else old(GenOf(data, w, b))
    {
      ghost var before := data;
      var p := 0;
      while p < |data|
        invariant 0 <= p <= |data| == |before| && p % 2 == 0
        invariant forall i :: p <= i < |data| ==> data[i] == before[i]
        invariant forall w: nat, b: nat :: 2 * w < p && b < 64 ==>
          GenOf(data, w, b) == if GenOf(before, w, b) == g then 0 else GenOf(before, w, b)
      {
        var p1, p2 := data[p], data[p + 1];
        data := data[p := Masked(p1, p1, p2, Low(g), High(g))];
        data := data[p + 1 := Masked(p2, p1, p2, Low(g), High(g))];
        p := p + 2;
      }
    }

    /** Setting one position to the current generation. */
    method StampAt(w: nat, b: nat, g: nat)
      requires hs.pairs > 0 && |data| == 2 * hs.pairs && w < hs.pairs && b < 64 && 1 <= g <= 3
      modifies this`data
      ensures |data| == 2 * hs.pairs
      ensures forall v: nat, c: nat :: v < hs.pairs && c < 64 ==>
        GenOf(data, v, c) == if v == w && c == b then g else old(GenOf(data, v, c))
    {
      data := data[2 * w := data[2 * w][b := Low(g)]];
      data := data[2 * w + 1 := data[2 * w + 1][b := High(g)]];
    }

    /** The stamping loop of insert. */
    method Stamp(key: Key, ghost now: nat)
      requires hs.pairs > 0 && |data| == 2 * hs.pairs && generation == Number(now)
               && Remembers(data, last, hs.pairs, now)
      modifies this`data, this`last
      ensures |data| == 2 * hs.pairs && Remembers(data, last, hs.pairs, now)
              && StampedSince(last, hs, key, now, hs.funcs)
      ensures Later(old(last), last, now) && OnlyStamps(old(last), last, hs, key, now, hs.funcs)
    {
      for n := 0 to hs.funcs
        invariant |data| == 2 * hs.pairs && Remembers(data, last, hs.pairs, now) && Later(old(last), last, now)
        invariant StampedSince(last, hs, key, now, n) && OnlyStamps(old(last), last, hs, key, now, n)
      {
        var w, b := hs.Pair(n, key), hs.Bit(n, key);
        ghost var before := data;
        StampAt(w, b, generation);
        StampRemembers(before, data, last, hs.pairs, now, w, b);
        OneMoreStamp(last, hs, key, n, now);
        OnlyOneMore(old(last), last, hs, key, n, now);
        last := last[(w, b) := now];
      }
    }

    /** The first part of insert: start the next generation if this one is full. */
    method MakeRoom()
      requires Valid()
      modifies this`data, this`generation, this`thisGen
      ensures thisGen < perGen && |data| == 2 * hs.pairs
      ensures var now := PeriodOf(|history|, perGen);
              now * perGen + thisGen == |history| && generation == Number(now) && Remembers(data, last, hs.pairs, now)
    {
      ghost var now, n := Now(), |history|;
      if thisGen == perGen {
        thisGen := 0;
        generation := generation + 1;
        if generation == 4 {
          generation := 1;
        }
        NextNumber(now);
        ghost var before := data;
        Wipe(generation);
        WipeRemembers(before, data, last, hs.pairs, now);
        Distribute(now, perGen);
        now := now + 1;
      }
      DivModUnique(n, now, thisGen, perGen);
    }

    /** CRollingBloomFilter::insert. */
    method Insert(key: Key)
      requires Valid()
      modifies this
      ensures Valid() && history == old(history) + [key] && hs == old(hs)
    {
      ghost var now, before := PeriodOf(|history|, perGen), last;
      MakeRoom();
      thisGen := thisGen + 1;
      Stamp(key, now);
      AllStillStamped(before, last, hs, history, key, perGen, now);
      StillTraced(before, last, hs, history, key, perGen, now);
      history := history + [key];
    }

    /**
     CRollingBloomFilter::contains. A key is reported exactly when keys of the last three generations point to all its
     positions, so each of the last `elements` keys is reported.
     */
    method Contains(key: Key) returns (found: bool)
      requires Valid()
      ensures found <==> KnownSince(hs, history, perGen, key, Now() - 2)
      ensures key in LastOf(history, elements) ==> found
    {
      Recent(key);
      IsSetExactly(key);
      for n := 0 to hs.funcs
        invariant IsSet(data, hs, key, n)
      {
        var w, b := hs.Pair(n, key), hs.Bit(n, key);
        if !(data[2 * w][b] || data[2 * w + 1][b]) {
          assert GenOf(data, w, b) == 0;
          return false;
        }
      }
      return true;
    }

    /** A position is set exactly if a key of the last three generations points to it. */
    lemma SetExactly(w: nat, b: nat)
      requires Valid() && w < hs.pairs && b < 64
      ensures GenOf(data, w, b) != 0 <==> PointedToSince(hs, history, perGen, (w, b), Now() - 2)
    {
      if GenOf(data, w, b) != 0 {
        var t :| StampedBy(hs, history, perGen, t, (w, b), last[(w, b)]);
      }
      if PointedToSince(hs, history, perGen, (w, b), Now() - 2) {
        var t :| 0 <= t < |history| && PeriodOf(t, perGen) >= Now() - 2 && PointsTo(hs, history[t], (w, b), hs.funcs);
        assert StampedSince(last, hs, history[t], PeriodOf(t, perGen), hs.funcs);
        assert Stamped(last, (w, b), PeriodOf(t, perGen));
      }
    }

    lemma IsSetExactly(key: Key)
      requires Valid()
      ensures IsSet(data, hs, key, hs.funcs) <==> KnownSince(hs, history, perGen, key, Now() - 2)
    {
      forall n | 0 <= n < hs.funcs
        ensures GenOf(data, hs.Pair(n, key), hs.Bit(n, key)) != 0 <==>
          PointedToSince(hs, history, perGen, (hs.Pair(n, key), hs.Bit(n, key)), Now() - 2)
      {
        SetExactly(hs.Pair(n, key), hs.Bit(n, key));
      }
    }

    /** No false negatives within the window. */
    lemma Recent(key: Key)
      requires Valid()
      ensures key in LastOf(history, elements) ==> IsSet(data, hs, key, hs.funcs)
    {
      if key in LastOf(history, elements) {
        var i :| 0 <= i < |LastOf(history, elements)| && LastOf(history, elements)[i] == key;
        var t := |history| - |LastOf(history, elements)| + i;
        assert history[t] == key;
        RecentPeriods(|history|, t, perGen);
        assert StampedSince(last, hs, key, PeriodOf(t, perGen), hs.funcs);
      }
    }
  }

  /** Stamps only move forward, and never past now. */
  ghost predicate Later(before: map<(nat, nat), nat>, after: map<(nat, nat), nat>, now: nat) {
    forall p :: p in before ==> p in after && (after[p] == before[p] || after[p] == now)
  }

  /** The stamps that are new are those of the key's first `funcs` positions. */
  ghost predicate OnlyStamps(before: map<(nat, nat), nat>, after: map<(nat, nat), nat>, hs: Hashing, key: Key, now: nat,
                             funcs: nat)
    requires hs.pairs > 0
  {
    forall p :: p in after ==>
      (p in before && after[p] == before[p]) || (after[p] == now && PointsTo(hs, key, p, funcs))
  }

  lemma OnlyOneMore(before: map<(nat, nat), nat>, last: map<(nat, nat), nat>, hs: Hashing, key: Key, n: nat, now: nat)
    requires hs.pairs > 0 && OnlyStamps(before, last, hs, key, now, n)
    ensures OnlyStamps(before, last[(hs.Pair(n, key), hs.Bit(n, key)) := now], hs, key, now, n + 1)
  {
    var position := (hs.Pair(n, key), hs.Bit(n, key));
    forall p | p in last[position := now]
      ensures (p in before && last[position := now][p] == before[p])
              || (last[position := now][p] == now && PointsTo(hs, key, p, n + 1))
    {
      if p != position && PointsTo(hs, key, p, n) {
        var m :| 0 <= m < n && (hs.Pair(m, key), hs.Bit(m, key)) == p;
      }
    }
  }

  lemma StillTraced(before: map<(nat, nat), nat>, after: map<(nat, nat), nat>, hs: Hashing, history: seq<Key>, key: Key,
                    perGen: nat, now: nat)
    requires hs.pairs > 0 && perGen > 0 && now == PeriodOf(|history|, perGen)
    requires Traced(before, hs, history, perGen) && OnlyStamps(before, after, hs, key, now, hs.funcs)
    ensures Traced(after, hs, history + [key], perGen)
  {
    forall p | p in after
      ensures exists t :: StampedBy(hs, history + [key], perGen, t, p, after[p])
    {
      if p in before && after[p] == before[p] {
        var t :| StampedBy(hs, history, perGen, t, p, before[p]);
        assert StampedBy(hs, history + [key], perGen, t, p, after[p]);
      } else {
        assert StampedBy(hs, history + [key], perGen, |history|, p, now);
      }
    }
  }

  lemma StillStamped(before: map<(nat, nat), nat>, after: map<(nat, nat), nat>, hs: Hashing, key: Key, p: nat, now: nat)
    requires hs.pairs > 0 && Later(before, after, now) && p <= now && StampedSince(before, hs, key, p, hs.funcs)
    ensures StampedSince(after, hs, key, p, hs.funcs)
  {
    forall n | 0 <= n < hs.funcs
      ensures Stamped(after, (hs.Pair(n, key), hs.Bit(n, key)), p)
    {
      assert Stamped(before, (hs.Pair(n, key), hs.Bit(n, key)), p);
    }
  }

  lemma AllStillStamped(before: map<(nat, nat), nat>, after: map<(nat, nat), nat>, hs: Hashing, history: seq<Key>,
                        key: Key, perGen: nat, now: nat)
    requires hs.pairs > 0 && perGen > 0 && now == PeriodOf(|history|, perGen) && AllStamped(before, hs, history, perGen)
    requires Later(before, after, now) && StampedSince(after, hs, key, now, hs.funcs)
    ensures AllStamped(after, hs, history + [key], perGen)
  {
    forall t | 0 <= t < |history|
      ensures StampedSince(after, hs, history[t], PeriodOf(t, perGen), hs.funcs)
    {
      PeriodGrows(t, |history|, perGen);
      StillStamped(before, after, hs, history[t], PeriodOf(t, perGen), now);
    }
  }

  lemma OneMoreStamp(last: map<(nat, nat), nat>, hs: Hashing, key: Key, n: nat, now: nat)
    requires hs.pairs > 0 && StampedSince(last, hs, key, now, n)
    ensures StampedSince(last[(hs.Pair(n, key), hs.Bit(n, key)) := now], hs, key, now, n + 1)
  {
    var last' := last[(hs.Pair(n, key), hs.Bit(n, key)) := now];
    forall m | 0 <= m < n + 1
      ensures Stamped(last', (hs.Pair(m, key), hs.Bit(m, key)), now)
    {
      if m < n {
        assert Stamped(last, (hs.Pair(m, key), hs.Bit(m, key)), now);
      }
    }
  }

  function LastOf(history: seq<Key>, n: nat): seq<Key> {
    if |history| <= n then history else history[|history| - n..]
  }

  lemma Distribute(k: int, m: int)
    ensures (k + 1) * m == k * m + m
  {
  }

  lemma PeriodGrows(t: nat, n: nat, perGen: nat)
    requires perGen > 0 && t <= n
    ensures PeriodOf(t, perGen) <= PeriodOf(n, perGen)
  {
    PeriodBounds(t, perGen);
    PeriodBounds(n, perGen);
    if PeriodOf(t, perGen) > PeriodOf(n, perGen) {
      MulMono(PeriodOf(n, perGen) + 1, PeriodOf(t, perGen), perGen);
      Distribute(PeriodOf(n, perGen), perGen);
      assert false;
    }
  }
}
