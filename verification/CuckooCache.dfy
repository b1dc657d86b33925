/**
 The cuckoo cache: eight possible places per element, eviction chains of bounded length, and two generations of
 elements. Erased slots keep their content until the space is needed.
 */
module CuckooCache {
  import opened ByteBits
  import opened Common
  import opened Powers

  type Element = int

  /** A default-constructed element: an unused slot holds it, and it can be inserted like any other. */
  const DEFAULT: Element := 0
  const PLACES: nat := 8

  /** The eight masked hashes of an element. */
  datatype Hashes = Hashes(h: (int, Element) -> int, size: nat)
  {
    function At(k: int, e: Element): (loc: int)
      requires size > 0
      ensures 0 <= loc < size
    {
      h(k, e) % size
    }

    function Locs(e: Element): (locs: seq<int>)
      requires size > 0
      ensures |locs| == PLACES && forall k :: 0 <= k < PLACES ==> 0 <= locs[k] < size
    {
      [At(0, e), At(1, e), At(2, e), At(3, e), At(4, e), At(5, e), At(6, e), At(7, e)]
    }
  }

  // ---------------------------------------------------------------- what the table is like

  /** Whatever is stored is stored at one of its places. */
  ghost predicate Placed(hs: Hashes, table: seq<Element>)
    requires hs.size == |table| > 0
  {
    forall i :: 0 <= i < |table| && table[i] != DEFAULT ==> i in hs.Locs(table[i])
  }

  ghost predicate Unique(table: seq<Element>) {
    forall i, j :: 0 <= i < j < |table| && table[i] != DEFAULT ==> table[i] != table[j]
  }

  ghost predicate TableOk(hs: Hashes, table: seq<Element>, erased: seq<bool>) {
    hs.size == |table| == |erased| > 0 && Placed(hs, table) && Unique(table)
  }

  /** One of the places of the element holds it. */
  ghost predicate Stored(hs: Hashes, table: seq<Element>, e: Element)
    requires hs.size == |table| > 0
  {
    exists k :: 0 <= k < PLACES && table[hs.Locs(e)[k]] == e
  }

  /** The elements that must be kept. */
  ghost function Kept(table: seq<Element>, erased: seq<bool>): set<Element>
    requires |erased| == |table|
  {
    set i | 0 <= i < |table| && !erased[i] :: table[i]
  }

  /** An element of a well-kept table is found by looking at its places. */
  lemma FoundAtPlaces(hs: Hashes, table: seq<Element>, e: Element)
    requires hs.size == |table| > 0 && Placed(hs, table) && e != DEFAULT
    ensures e in table <==> Stored(hs, table, e)
  {
    if e in table {
      var i :| 0 <= i < |table| && table[i] == e;
      assert i in hs.Locs(e);
      var k :| 0 <= k < PLACES && hs.Locs(e)[k] == i;
      assert table[hs.Locs(e)[k]] == e;
    }
  }

  // ---------------------------------------------------------------- one step of the chain

  /** Nothing else than an unused slot holds the element. */
  ghost predicate Absent(table: seq<Element>, e: Element) {
    e == DEFAULT || e !in table
  }

  /** The carried element takes the place of one that must be kept. */
  lemma SwapKeeps(hs: Hashes, table: seq<Element>, erased: seq<bool>, l: int, e: Element)
    requires TableOk(hs, table, erased) && 0 <= l < |table| && !erased[l] && Absent(table, e) && l in hs.Locs(e)
    ensures TableOk(hs, table[l := e], erased) && Absent(table[l := e], table[l])
    ensures multiset(table[l := e]) + multiset{table[l]} == multiset(table) + multiset{e}
    ensures Kept(table[l := e], erased) + {table[l]} == Kept(table, erased) + {e}
  {
    var table' := table[l := e];
    forall i | 0 <= i < |table'| && table[l] != DEFAULT
      ensures table'[i] != table[l]
    {
      assert i != l ==> table[i] != table[l];
    }
    assert table[l] in Kept(table, erased);
    forall x
      ensures x in Kept(table', erased) + {table[l]} <==> x in Kept(table, erased) + {e}
    {
      KeptAfter(table, erased, l, e, x);
    }
  }

  lemma KeptAfter(table: seq<Element>, erased: seq<bool>, l: int, e: Element, x: Element)
    requires |erased| == |table| && 0 <= l < |table| && !erased[l]
    ensures x in Kept(table[l := e], erased) + {table[l]} <==> x in Kept(table, erased) + {e}
  {
    var table' := table[l := e];
    assert table'[l] == e;
    if x in Kept(table', erased) {
      var i :| 0 <= i < |table'| && !erased[i] && table'[i] == x;
      assert i != l ==> table[i] == x;
    }
    if x in Kept(table, erased) {
      var i :| 0 <= i < |table| && !erased[i] && table[i] == x;
      assert i != l ==> table'[i] == x;
    }
  }

  /** The carried element takes an erased slot. */
  lemma PlaceKeeps(hs: Hashes, table: seq<Element>, erased: seq<bool>, l: int, e: Element)
    requires TableOk(hs, table, erased) && 0 <= l < |table| && erased[l] && Absent(table, e) && l in hs.Locs(e)
    ensures TableOk(hs, table[l := e], erased[l := false])
    ensures multiset(table[l := e]) + multiset{table[l]} == multiset(table) + multiset{e}
    ensures Kept(table[l := e], erased[l := false]) == Kept(table, erased) + {e}
  {
    var table', erased' := table[l := e], erased[l := false];
    forall x
      ensures x in Kept(table', erased') <==> x in Kept(table, erased) + {e}
    {
      if x in Kept(table', erased') {
        var i :| 0 <= i < |table'| && !erased'[i] && table'[i] == x;
        assert i != l ==> table[i] == x && !erased[i];
      }
      if x in Kept(table, erased) {
        var i :| 0 <= i < |table| && !erased[i] && table[i] == x;
        assert table'[i] == x && !erased'[i];
      }
      assert table'[l] == e && !erased'[l];
    }
  }

  // ---------------------------------------------------------------- the living epoch

  /** Entries of the current epoch that have not been erased. */
  function Living(epoch: seq<bool>, erased: seq<bool>): nat
    requires |epoch| == |erased|
  {
    if epoch == [] then 0
    else
      var n := |epoch| - 1;
      Living(epoch[..n], erased[..n]) + if epoch[n] && !erased[n] then 1 else 0
  }

  lemma {:induction false} LivingUpdate(epoch: seq<bool>, erased: seq<bool>, l: nat, p: bool, q: bool)
    requires |epoch| == |erased| && l < |epoch|
    ensures Living(epoch[l := p], erased[l := q]) + (if epoch[l] && !erased[l] then 1 else 0)
            == Living(epoch, erased) + if p && !q then 1 else 0
  {
    var n := |epoch| - 1;
    if l < n {
      LivingUpdate(epoch[..n], erased[..n], l, p, q);
      assert epoch[l := p][..n] == epoch[..n][l := p] && erased[l := q][..n] == erased[..n][l := q];
    } else {
      assert epoch[l := p][..n] == epoch[..n] && erased[l := q][..n] == erased[..n];
    }
  }

  /** The flags after epoch_check, if the epochs are aged: the old one is given up. */
  function Aged(epoch: seq<bool>, erased: seq<bool>): (r: seq<bool>)
    requires |epoch| == |erased|
    ensures |r| == |erased| && forall i :: 0 <= i < |r| ==> r[i] == (erased[i] || !epoch[i])
  {
    seq(|erased|, i requires 0 <= i < |erased| => erased[i] || !epoch[i])
  }

  predicate AgesNow(epoch: seq<bool>, erased: seq<bool>, counter: nat, epochSize: nat)
    requires |epoch| == |erased|
  {
    counter == 0 && Living(epoch, erased) >= epochSize
  }

  function ErasedAfterCheck(epoch: seq<bool>, erased: seq<bool>, counter: nat, epochSize: nat): (r: seq<bool>)
    requires |epoch| == |erased|
    ensures |r| == |erased|
  {
    if AgesNow(epoch, erased, counter, epochSize) then Aged(epoch, erased) else erased
  }

  function EpochAfterCheck(epoch: seq<bool>, erased: seq<bool>, counter: nat, epochSize: nat): (r: seq<bool>)
    requires |epoch| == |erased|
    ensures |r| == |epoch|
  {
    if AgesNow(epoch, erased, counter, epochSize) then seq(|epoch|, _ => false) else epoch
  }

  /** The kept elements of the living epoch, or of the old one. */
  ghost function KeptOf(table: seq<Element>, erased: seq<bool>, epoch: seq<bool>, young: bool): set<Element>
    requires |epoch| == |erased| == |table|
  {
    set i | 0 <= i < |table| && !erased[i] && epoch[i] == young :: table[i]
  }

  /** The element in hand counts with its epoch. */
  ghost function Held(e: Element, here: bool): set<Element> {
    if here then {e} else {}
  }

  /** What putting an element with its epoch into a slot does to the two epochs. */
  lemma KeptOfUpdate(table: seq<Element>, erased: seq<bool>, epoch: seq<bool>, l: nat, e: Element, f: bool, young: bool)
    requires |epoch| == |erased| == |table| && l < |table|
    ensures KeptOf(table[l := e], erased[l := false], epoch[l := f], young)
            + Held(table[l], !erased[l] && epoch[l] == young)
            == KeptOf(table, erased, epoch, young) + Held(e, f == young)
  {
    var table', erased', epoch' := table[l := e], erased[l := false], epoch[l := f];
    var before := KeptOf(table, erased, epoch, young) + Held(e, f == young);
    var after := KeptOf(table', erased', epoch', young) + Held(table[l], !erased[l] && epoch[l] == young);
    forall x
      ensures x in after <==> x in before
    {
      if x in KeptOf(table', erased', epoch', young) {
        var i :| 0 <= i < |table'| && !erased'[i] && epoch'[i] == young && table'[i] == x;
        assert i != l ==> !erased[i] && epoch[i] == young && table[i] == x;
      }
      if x in KeptOf(table, erased, epoch, young) {
        var i :| 0 <= i < |table| && !erased[i] && epoch[i] == young && table[i] == x;
        assert i != l ==> !erased'[i] && epoch'[i] == young && table'[i] == x;
      }
      assert !erased'[l] && table'[l] == e && epoch'[l] == f;
    }
  }

  /** Ageing: the living epoch becomes the old one, and nothing of the old one is kept. */
  lemma AgedKept(table: seq<Element>, erased: seq<bool>, epoch: seq<bool>)
    requires |epoch| == |erased| == |table|
    ensures var none := seq(|epoch|, _ => false);
            && KeptOf(table, Aged(epoch, erased), none, true) == {}
            && KeptOf(table, Aged(epoch, erased), none, false) == KeptOf(table, erased, epoch, true)
  {
    var erased', epoch' := Aged(epoch, erased), seq(|epoch|, _ => false);
    forall x
      ensures x in KeptOf(table, erased', epoch', false) <==> x in KeptOf(table, erased, epoch, true)
    {
      if x in KeptOf(table, erased', epoch', false) {
        var i :| 0 <= i < |table| && !erased'[i] && table[i] == x;
        assert !erased[i] && epoch[i];
      }
      if x in KeptOf(table, erased, epoch, true) {
        var i :| 0 <= i < |table| && !erased[i] && epoch[i] && table[i] == x;
        assert !erased'[i] && !epoch'[i];
      }
    }
  }

  lemma {:induction false} NoneLiving(epoch: seq<bool>, erased: seq<bool>)
    requires |epoch| == |erased| && forall i :: 0 <= i < |epoch| ==> !epoch[i]
    ensures Living(epoch, erased) == 0
  {
    if epoch != [] {
      NoneLiving(epoch[..|epoch| - 1], erased[..|epoch| - 1]);
    }
  }

  /** The bound on the living epoch. */
  function Slack(epochSize: nat): nat {
    epochSize + Max(1, epochSize / 16)
  }

  /** None of the element's own places has been erased. */
  ghost predicate NoRoom(hs: Hashes, e: Element, erased: seq<bool>)
    requires hs.size == |erased| > 0
  {
    forall k :: 0 <= k < PLACES ==> !erased[hs.Locs(e)[k]]
  }

  /** The table in the middle of a chain, with the element in hand and its epoch. */
  datatype Link = Link(table: seq<Element>, erased: seq<bool>, epoch: seq<bool>, carried: Element, young: bool)

  ghost predicate LinkOk(hs: Hashes, s: Link) {
    TableOk(hs, s.table, s.erased) && |s.epoch| == |s.table| && Absent(s.table, s.carried)
  }

  /** Nothing has been lost since the start, counting the element in hand. */
  ghost predicate ChainOk(hs: Hashes, start: Link, s: Link)
    requires LinkOk(hs, start)
  {
    && LinkOk(hs, s) && |s.table| == |start.table| && s.erased == start.erased
    && multiset(s.table) + multiset{s.carried} == multiset(start.table) + multiset{start.carried}
    && Kept(s.table, s.erased) + {s.carried} == Kept(start.table, start.erased) + {start.carried}
    && Living(s.epoch, s.erased) + (if s.young then 1 else 0)
       == Living(start.epoch, start.erased) + (if start.young then 1 else 0)
    && SameEpoch(start, s, true) && SameEpoch(start, s, false)
  }

  /** Every element is still in the epoch it was in, counting the one in hand. */
  ghost predicate SameEpoch(start: Link, s: Link, young: bool)
    requires |start.epoch| == |start.erased| == |start.table| && |s.epoch| == |s.erased| == |s.table|
  {
    KeptOf(s.table, s.erased, s.epoch, young) + Held(s.carried, s.young == young)
    == KeptOf(start.table, start.erased, start.epoch, young) + Held(start.carried, start.young == young)
  }

  /** Swapping with the k-th place, which is not erased. */
  lemma ChainGoesOn(hs: Hashes, start: Link, s: Link, k: nat)
    requires LinkOk(hs, start) && ChainOk(hs, start, s) && k < PLACES && !s.erased[hs.Locs(s.carried)[k]]
    ensures var l := hs.Locs(s.carried)[k];
            ChainOk(hs, start, Link(s.table[l := s.carried], s.erased, s.epoch[l := s.young], s.table[l], s.epoch[l]))
  {
    var l := hs.Locs(s.carried)[k];
    SwapKeeps(hs, s.table, s.erased, l, s.carried);
    LivingUpdate(s.epoch, s.erased, l, s.young, false);
    assert s.erased[l := false] == s.erased;
    KeptOfUpdate(s.table, s.erased, s.epoch, l, s.carried, s.young, true);
    KeptOfUpdate(s.table, s.erased, s.epoch, l, s.carried, s.young, false);
  }

  /** The chain has ended: `lost` was in an erased slot, everything kept is kept, and in its epoch. */
  ghost predicate Settled(hs: Hashes, start: Link, table: seq<Element>, erased: seq<bool>, epoch: seq<bool>,
                          lost: Element)
    requires LinkOk(hs, start)
  {
    && TableOk(hs, table, erased) && |epoch| == |table| == |start.table|
    && multiset(table) + multiset{lost} == multiset(start.table) + multiset{start.carried}
    && Kept(table, erased) == Kept(start.table, start.erased) + {start.carried}
    && Living(epoch, erased) == Living(start.epoch, start.erased) + (if start.young then 1 else 0)
    && KeptOf(table, erased, epoch, true)
       == KeptOf(start.table, start.erased, start.epoch, true) + Held(start.carried, start.young)
    && KeptOf(table, erased, epoch, false)
       == KeptOf(start.table, start.erased, start.epoch, false) + Held(start.carried, !start.young)
  }

  /** Putting the element into the k-th place, which is erased. */
  lemma ChainEnds(hs: Hashes, start: Link, s: Link, k: nat)
    requires LinkOk(hs, start) && ChainOk(hs, start, s) && k < PLACES && s.erased[hs.Locs(s.carried)[k]]
    ensures var l := hs.Locs(s.carried)[k];
            Settled(hs, start, s.table[l := s.carried], s.erased[l := false], s.epoch[l := s.young], s.table[l])
  {
    var l := hs.Locs(s.carried)[k];
    PlaceKeeps(hs, s.table, s.erased, l, s.carried);
    LivingUpdate(s.epoch, s.erased, l, s.young, false);
    KeptOfUpdate(s.table, s.erased, s.epoch, l, s.carried, s.young, true);
    KeptOfUpdate(s.table, s.erased, s.epoch, l, s.carried, s.young, false);
  }

  class Cache {
    const hs: Hashes
    const epochSize: nat
    const depthLimit: nat
    var table: seq<Element>
    var erased: seq<bool>
    var epoch: seq<bool>
    var counter: nat

    /** Between operations the living epoch has at most `Slack` entries, less what the counter still allows. */
    ghost predicate Valid()
      reads this
    {
      && TableOk(hs, table, erased) && |epoch| == |table| && epochSize >= 1 && depthLimit >= 1
      && Living(epoch, erased) + counter <= Slack(epochSize)
    }

    /** The constructor and setup, with the logarithm taken exactly. */
    constructor (h: (int, Element) -> int, depth: nat)
      requires depth >= 1
      ensures Valid() && hs == Hashes(h, Pow2(depth)) && depthLimit == depth
              && epochSize == Max(1, 45 * Pow2(depth) / 100)
      ensures Kept(table, erased) == {} && forall i :: 0 <= i < |table| ==> table[i] == DEFAULT
      ensures Now().Young() == {} && Now().Aging() == {}
    {
      var size := Pow2(depth);
      hs := Hashes(h, size);
      depthLimit := depth;
      epochSize := Max(1, 45 * size / 100);
      table := seq(size, i => DEFAULT);
      erased := seq(size, i => true);
      epoch := seq(size, i => false);
      counter := Max(1, 45 * size / 100);
      new;
      NoneLiving(epoch, erased);
    }

    /** The scan of epoch_check. */
    method CountLiving() returns (n: nat)
      requires |epoch| == |erased|
      ensures n == Living(epoch, erased)
    {
      n := 0;
      for i := 0 to |epoch|
        invariant n == Living(epoch[..i], erased[..i])
      {
        assert epoch[..i + 1][..i] == epoch[..i] && erased[..i + 1][..i] == erased[..i];
        if epoch[i] && !erased[i] {
          n := n + 1;
        }
      }
      assert epoch[..|epoch|] == epoch && erased[..|epoch|] == erased;
    }

    method AgeEpochs()
      requires |epoch| == |erased|
      modifies this`epoch, this`erased
      ensures |epoch| == |old(epoch)| && (forall i :: 0 <= i < |epoch| ==> !epoch[i])
              && erased == Aged(old(epoch), old(erased))
    {
      ghost var epoch0, erased0 := epoch, erased;
      for i := 0 to |epoch|
        invariant |epoch| == |erased| == |epoch0|
        invariant forall j :: 0 <= j < i ==> !epoch[j] && erased[j] == (erased0[j] || !epoch0[j])
        invariant forall j :: i <= j < |epoch| ==> epoch[j] == epoch0[j] && erased[j] == erased0[j]
      {
        if epoch[i] {
          epoch := epoch[i := false];
        } else {
          erased := erased[i := true];
        }
      }
    }

    /** epoch_check leaves room for one more entry in the living epoch. */
    method EpochCheck()
      requires Valid()
      modifies this`epoch, this`erased, this`counter
      ensures TableOk(hs, table, erased) && |epoch| == |table|
      ensures erased == ErasedAfterCheck(old(epoch), old(erased), old(counter), epochSize)
      ensures epoch == EpochAfterCheck(old(epoch), old(erased), old(counter), epochSize)
      ensures Living(epoch, erased) + counter + 1 <= Slack(epochSize)
      ensures old(counter) > 0 ==> counter == old(counter) - 1
      ensures old(counter) == 0 ==>
                var living := Living(epoch, erased); living + counter == Max(epochSize, living + Max(1, epochSize / 16))
    {
      if counter != 0 {
        counter := counter - 1;
        return;
      }
      var unused := CountLiving();
      if unused >= epochSize {
        AgeEpochs();
        NoneLiving(epoch, erased);
        assert epoch == seq(|epoch|, _ => false);
        counter := epochSize;
      } else {
        counter := Max(1, Max(epochSize / 16, epochSize - unused));
      }
    }

    /** contains. */
    method Contains(e: Element, erase: bool) returns (found: bool)
      requires Valid()
      modifies this`erased
      ensures Valid() && |erased| == |table|
      ensures (found <==> Stored(hs, table, e)) && (e != DEFAULT ==> (found <==> e in table))
      ensures !(found && erase) ==> erased == old(erased)
      ensures found && erase ==> Erased(hs, table, e, old(erased), erased)
      ensures found && erase && e != DEFAULT ==> Kept(table, erased) == old(Kept(table, erased)) - {e}
      ensures Looked(old(Now()), e, erase, Now())
    {
      if e != DEFAULT {
        FoundAtPlaces(hs, table, e);
      }
      var k := FindElement(e);
      if k == PLACES {
        NotThere(Now(), e);
        return false;
      }
      if erase {
        var loc := hs.Locs(e)[k];
        LivingUpdate(epoch, erased, loc, epoch[loc], true);
        assert epoch[loc := epoch[loc]] == epoch;
        if e != DEFAULT {
          EraseKeeps(table, erased, loc);
        }
        ErasedEpochs(Now(), e, loc);
        erased := erased[loc := true];
      }
      return true;
    }

    /** The first place that holds `e`, or PLACES. */
    method FindElement(e: Element) returns (k: nat)
      requires hs.size == |table| > 0
      ensures k <= PLACES && (k < PLACES ==> table[hs.Locs(e)[k]] == e)
      ensures forall j :: 0 <= j < k ==> table[hs.Locs(e)[j]] != e
    {
      var locs := hs.Locs(e);
      k := 0;
      while k < PLACES && table[locs[k]] != e
        invariant 0 <= k <= PLACES && forall j :: 0 <= j < k ==> table[locs[j]] != e
      {
        k := k + 1;
      }
    }

    /** The first place of `e` that is erased, or PLACES. */
    method FindErased(e: Element) returns (k: nat)
      requires hs.size == |erased| > 0
      ensures k <= PLACES && (k < PLACES ==> erased[hs.Locs(e)[k]])
      ensures forall j :: 0 <= j < k ==> !erased[hs.Locs(e)[j]]
    {
      var locs := hs.Locs(e);
      k := 0;
      while k < PLACES && !erased[locs[k]]
        invariant 0 <= k <= PLACES && forall j :: 0 <= j < k ==> !erased[locs[j]]
      {
        k := k + 1;
      }
    }

    /** The element in hand goes into its k-th place, which is erased. */
    method PutDown(carried: Element, young: bool, k: nat, ghost start: Link)
      requires LinkOk(hs, start) && ChainOk(hs, start, Link(table, erased, epoch, carried, young))
      requires k < PLACES && erased[hs.Locs(carried)[k]]
      modifies this`table, this`erased, this`epoch
      ensures Settled(hs, start, table, erased, epoch, old(table[hs.Locs(carried)[k]]))
    {
      var loc := hs.Locs(carried)[k];
      ChainEnds(hs, start, Link(table, erased, epoch, carried, young), k);
      table, erased, epoch := table[loc := carried], erased[loc := false], epoch[loc := young];
    }

    /** The element in hand changes places, and epochs, with the one in its k-th place. */
    method Swap(carried: Element, young: bool, k: nat, ghost start: Link) returns (moved: Element, movedYoung: bool)
      requires LinkOk(hs, start) && ChainOk(hs, start, Link(table, erased, epoch, carried, young))
      requires k < PLACES && !erased[hs.Locs(carried)[k]]
      modifies this`table, this`epoch
      ensures ChainOk(hs, start, Link(table, erased, epoch, moved, movedYoung))
    {
      var loc := hs.Locs(carried)[k];
      ChainGoesOn(hs, start, Link(table, erased, epoch, carried, young), k);
      moved, movedYoung := table[loc], epoch[loc];
      table, epoch := table[loc := carried], epoch[loc := young];
    }

    /** insert's chain: from slot to slot until an erased one is found or the depth runs out. */
    method Chain(e: Element)
      returns (ghost lost: Element, ghost lostYoung: bool, ghost outOfDepth: bool, ghost trail: Trail)
      requires TableOk(hs, table, erased) && |epoch| == |table| && Absent(table, e) && depthLimit >= 1
      modifies this`table, this`erased, this`epoch
      ensures var start := Link(old(table), old(erased), old(epoch), e, true);
              if outOfDepth
              then ChainOk(hs, start, Link(table, erased, epoch, lost, lostYoung)) && NoRoom(hs, e, old(erased))
              else Settled(hs, start, table, erased, epoch, lost)
      ensures IsTrail(hs, trail, e) && |trail.slots| <= depthLimit && (outOfDepth ==> |trail.slots| == depthLimit)
    {
      ghost var start := Link(table, erased, epoch, e, true);
      var carried, lastLoc, lastEpoch := e, -1, true;
      var depth := 0;
      trail := Trail([e], []);
      while depth < depthLimit
        invariant 0 <= depth && erased == start.erased
                  && ChainOk(hs, start, Link(table, erased, epoch, carried, lastEpoch))
        invariant depth == 0 ==> carried == e
        invariant depth > 0 ==> NoRoom(hs, e, erased)
        invariant depth <= depthLimit && OnTrail(hs, trail, e, depth, carried, lastLoc)
      {
        var locs := hs.Locs(carried);
        var k := FindErased(carried);
        if k < PLACES {
          lost, lostYoung, outOfDepth := table[locs[k]], false, false;
          PutDown(carried, lastEpoch, k, start);
          return;
        }
        k := NextPlace(locs, lastLoc);
        ghost var from, before := carried, lastLoc;
        lastLoc := locs[k];
        carried, lastEpoch := Swap(carried, lastEpoch, k, start);
        trail := TrailGoesOn(hs, trail, e, depth, from, before, carried);
        depth := depth + 1;
      }
      lost, lostYoung, outOfDepth := carried, lastEpoch, true;
    }

    ghost function Now(): (s: Snap)
      requires |epoch| == |erased| == |table|
      reads this
      ensures s.Even()
    {
      Snap(table, erased, epoch, counter)
    }

    /** The element is in the table already: make sure that it stays. */
    method Renew(e: Element, loc: nat)
      requires TableOk(hs, table, erased) && |epoch| == |table| && loc < |table| && table[loc] == e
      modifies this`erased, this`epoch
      ensures TableOk(hs, table, erased) && |epoch| == |table|
      ensures Kept(table, erased) == old(Kept(table, erased)) + {e} && KeptYoung(table, erased, epoch, e)
      ensures Living(epoch, erased) <= old(Living(epoch, erased)) + 1
      ensures old(Now().Even()) && EpochsAfter(old(Now().Young()), old(Now().Aging()), e, Now(), None)
    {
      KeepAgain(table, erased, loc);
      LivingUpdate(epoch, erased, loc, true, false);
      KeptAgain(Now(), e, loc);
      erased, epoch := erased[loc := false], epoch[loc := true];
      assert table[loc] == e && !erased[loc] && epoch[loc];
    }

    /**
     insert. A repeated element is kept where it is. Otherwise exactly one element makes way: the content of an erased
     slot, or when the depth runs out the last one carried.
     */
    method Insert(e: Element) returns (ghost lost: Element, ghost lostYoung: bool, ghost outOfDepth: bool)
      requires Valid()
      modifies this
      ensures Valid() && |table| == |old(table)| && |erased| == |table|
      ensures outOfDepth ==> NoRoom(hs, e, ErasedAfterCheck(old(epoch), old(erased), old(counter), epochSize))
      ensures e != DEFAULT ==> (e in old(table) <==> Stored(hs, old(table), e))
      ensures Stored(hs, old(table), e) ==> table == old(table) && !outOfDepth
      ensures !Stored(hs, old(table), e) ==>
                && multiset(table) + multiset{lost} == multiset(old(table)) + multiset{e}
                && Living(epoch, erased) + (if outOfDepth && lostYoung then 1 else 0)
                   == old(Living(EpochAfterCheck(epoch, erased, counter, epochSize),
                                 ErasedAfterCheck(epoch, erased, counter, epochSize))) + 1
      ensures var kept := Kept(old(table), ErasedAfterCheck(old(epoch), old(erased), old(counter), epochSize));
              if outOfDepth then Kept(table, erased) + {lost} == kept + {e} && Absent(table, lost)
              else Kept(table, erased) == kept + {e} && KeptYoung(table, erased, epoch, e)
      ensures Inserted(old(Now()), e, Now(), if outOfDepth then Some((lost, lostYoung)) else None, epochSize)
    {
      ghost var before := Now();
      EpochCheck();
      ghost var checked := Now();
      CheckedEpochs(before, checked, epochSize);
      if e != DEFAULT {
        FoundAtPlaces(hs, table, e);
      }
      var k := FindElement(e);
      if k < PLACES {
        Renew(e, hs.Locs(e)[k]);
        return e, true, false;
      }
      lost, lostYoung, outOfDepth := Enter(e);
    }

    /** The element is not in the table. */
    method Enter(e: Element) returns (ghost lost: Element, ghost lostYoung: bool, ghost outOfDepth: bool)
      requires TableOk(hs, table, erased) && |epoch| == |table| && Absent(table, e) && depthLimit >= 1
      modifies this`table, this`erased, this`epoch
      ensures TableOk(hs, table, erased) && |epoch| == |table| == |old(table)|
      ensures outOfDepth ==> NoRoom(hs, e, old(erased))
      ensures multiset(table) + multiset{lost} == multiset(old(table)) + multiset{e}
      ensures Living(epoch, erased) + (if outOfDepth && lostYoung then 1 else 0) == old(Living(epoch, erased)) + 1
      ensures if outOfDepth then Kept(table, erased) + {lost} == old(Kept(table, erased)) + {e} && Absent(table, lost)
              else Kept(table, erased) == old(Kept(table, erased)) + {e} && KeptYoung(table, erased, epoch, e)
      ensures old(Now().Even()) && EpochsAfter(old(Now().Young()), old(Now().Aging()), e, Now(),
                                               if outOfDepth then Some((lost, lostYoung)) else None)
    {
      ghost var before := Now();
      ghost var trail;
      lost, lostYoung, outOfDepth, trail := Chain(e);
      ChainInserted(hs, Link(before.table, before.erased, before.epoch, e, true), before.counter, Now(), lost,
                    lostYoung, outOfDepth);
    }
  }

  // ---------------------------------------------------------------- what becomes of an element

  datatype Snap = Snap(table: seq<Element>, erased: seq<bool>, epoch: seq<bool>, counter: nat)
  {
    predicate Even() { |epoch| == |erased| == |table| }

    ghost function Young(): set<Element>
      requires Even()
    {
      KeptOf(table, erased, epoch, true)
    }

    ghost function Aging(): set<Element>
      requires Even()
    {
      KeptOf(table, erased, epoch, false)
    }

    predicate Ages(epochSize: nat)
      requires Even()
    {
      AgesNow(epoch, erased, counter, epochSize)
    }
  }

  /** A slot holds the element, is to be kept and belongs to the living epoch. */
  ghost predicate KeptYoung(table: seq<Element>, erased: seq<bool>, epoch: seq<bool>, e: Element)
    requires |epoch| == |erased| == |table|
  {
    exists i :: 0 <= i < |table| && table[i] == e && !erased[i] && epoch[i]
  }

  /** What insert does to the two epochs; `lost` is the kept element given up, with its epoch, if the depth ran out. */
  ghost predicate Inserted(s: Snap, e: Element, s': Snap, lost: Option<(Element, bool)>, epochSize: nat)
    requires s.Even() && s'.Even()
  {
    EpochsAfter(if s.Ages(epochSize) then {} else s.Young(), if s.Ages(epochSize) then s.Young() else s.Aging(), e, s',
                lost)
  }

  ghost predicate EpochsAfter(young: set<Element>, aging: set<Element>, e: Element, s': Snap,
                              lost: Option<(Element, bool)>)
    requires s'.Even()
  {
    match lost
    case None =>
      && s'.Young() == young + {e} && aging - {e} <= s'.Aging() <= aging
      && (e != DEFAULT ==> s'.Aging() == aging - {e})
    case Some((x, f)) =>
      && s'.Young() + Held(x, f) == young + {e} && s'.Aging() + Held(x, !f) == aging
      && (x != DEFAULT ==> x !in s'.Young() && x !in s'.Aging()) && (e != DEFAULT ==> e !in young && e !in aging)
  }

  /** What contains does to the two epochs: with `erase` the element is in neither any more. */
  ghost predicate Looked(s: Snap, e: Element, erase: bool, s': Snap)
    requires s.Even() && s'.Even()
  {
    && s'.Young() <= s.Young() && s'.Aging() <= s.Aging()
    && s.Young() - Held(e, erase) <= s'.Young() && s.Aging() - Held(e, erase) <= s'.Aging()
    && (erase && e != DEFAULT ==> e !in s'.Young() && e !in s'.Aging())
  }

  lemma NotThere(s: Snap, e: Element)
    requires s.Even()
    ensures e != DEFAULT && e !in s.table ==> e !in s.Young() && e !in s.Aging()
  {
  }

  lemma KeptOfErase(table: seq<Element>, erased: seq<bool>, epoch: seq<bool>, l: nat, young: bool)
    requires |epoch| == |erased| == |table| && l < |table|
    ensures KeptOf(table, erased[l := true], epoch, young) <= KeptOf(table, erased, epoch, young)
    ensures KeptOf(table, erased, epoch, young) - {table[l]} <= KeptOf(table, erased[l := true], epoch, young)
  {
    var erased' := erased[l := true];
    forall x | x in KeptOf(table, erased, epoch, young) && x != table[l]
      ensures x in KeptOf(table, erased', epoch, young)
    {
      var i :| 0 <= i < |table| && !erased[i] && epoch[i] == young && table[i] == x;
      assert !erased'[i];
    }
  }

  lemma ErasedEpochs(s: Snap, e: Element, l: nat)
    requires s.Even() && l < |s.table| && s.table[l] == e && Unique(s.table)
    ensures Looked(s, e, true, s.(erased := s.erased[l := true]))
  {
    KeptOfErase(s.table, s.erased, s.epoch, l, true);
    KeptOfErase(s.table, s.erased, s.epoch, l, false);
    forall i | 0 <= i < |s.table| && s.table[i] == e && e != DEFAULT
      ensures i == l
    {
    }
  }

  lemma CheckedEpochs(s: Snap, s': Snap, epochSize: nat)
    requires s.Even() && s'.Even() && s'.table == s.table
    requires s'.erased == ErasedAfterCheck(s.epoch, s.erased, s.counter, epochSize)
    requires s'.epoch == EpochAfterCheck(s.epoch, s.erased, s.counter, epochSize)
    ensures s'.Young() == (if s.Ages(epochSize) then {} else s.Young())
    ensures s'.Aging() == (if s.Ages(epochSize) then s.Young() else s.Aging())
  {
    AgedKept(s.table, s.erased, s.epoch);
  }

  /** The repeated element joins the living epoch. */
  lemma KeptAgain(s: Snap, e: Element, l: nat)
    requires s.Even() && l < |s.table| && s.table[l] == e && Unique(s.table)
    ensures EpochsAfter(s.Young(), s.Aging(), e, s.(erased := s.erased[l := false], epoch := s.epoch[l := true]), None)
  {
    var s' := s.(erased := s.erased[l := false], epoch := s.epoch[l := true]);
    assert s.table[l := e] == s.table;
    KeptOfUpdate(s.table, s.erased, s.epoch, l, e, true, true);
    KeptOfUpdate(s.table, s.erased, s.epoch, l, e, true, false);
    forall i | 0 <= i < |s.table| && s.table[i] == e && e != DEFAULT
      ensures i == l
    {
    }
  }

  lemma ChainInserted(hs: Hashes, start: Link, counter: nat, s': Snap, lost: Element, lostYoung: bool, outOfDepth: bool)
    requires LinkOk(hs, start) && start.young && s'.Even()
    requires if outOfDepth then ChainOk(hs, start, Link(s'.table, s'.erased, s'.epoch, lost, lostYoung))
             else Settled(hs, start, s'.table, s'.erased, s'.epoch, lost)
    ensures var s := Snap(start.table, start.erased, start.epoch, counter);
            EpochsAfter(s.Young(), s.Aging(), start.carried, s', if outOfDepth then Some((lost, lostYoung)) else None)
    ensures !outOfDepth ==> KeptYoung(s'.table, s'.erased, s'.epoch, start.carried)
  {
    var s, e := Snap(start.table, start.erased, start.epoch, counter), start.carried;
    assert e != DEFAULT ==> e !in s.Young() && e !in s.Aging();
    if outOfDepth {
      assert lost != DEFAULT ==> lost !in s'.Young() && lost !in s'.Aging();
    } else {
      assert e in s'.Young();
    }
  }

  datatype Op =
    | DoInsert(e: Element, lost: Option<(Element, bool)>)
    | DoContains(e: Element, erase: bool)

  /** States and operations from an empty cache. */
  ghost predicate IsRun(snaps: seq<Snap>, ops: seq<Op>, epochSize: nat) {
    && |snaps| == |ops| + 1 && (forall k :: 0 <= k < |snaps| ==> snaps[k].Even())
    && snaps[0].Young() == {} && snaps[0].Aging() == {}
    && (forall k :: 0 <= k < |ops| ==> Does(snaps[k], ops[k], snaps[k + 1], epochSize))
  }

  ghost predicate Does(s: Snap, op: Op, s': Snap, epochSize: nat)
    requires s.Even() && s'.Even()
  {
    match op
    case DoInsert(e, lost) => Inserted(s, e, s', lost, epochSize)
    case DoContains(e, erase) => Looked(s, e, erase, s')
  }

  /** The operation gave the element up: erased on request, or lost when the depth ran out. */
  predicate GivesUp(op: Op, e: Element) {
    match op
    case DoInsert(_, lost) => lost.Some? && lost.value.0 == e
    case DoContains(x, erase) => x == e && erase
  }

  /** How often the epochs are aged by the operations from `i` on, before `k`. */
  ghost function Ageings(snaps: seq<Snap>, ops: seq<Op>, epochSize: nat, i: nat, k: nat): nat
    requires |ops| < |snaps| && k <= |ops| && (forall j :: 0 <= j < |snaps| ==> snaps[j].Even())
    decreases k
  {
    if k <= i then 0
    else
      Ageings(snaps, ops, epochSize, i, k - 1) + if ops[k - 1].DoInsert? && snaps[k - 1].Ages(epochSize) then 1 else 0
  }

  ghost predicate InsertedLast(ops: seq<Op>, e: Element, i: nat, k: nat) {
    && i < k <= |ops| && ops[i].DoInsert? && ops[i].e == e
    && (forall j :: i < j < k ==> !(ops[j].DoInsert? && ops[j].e == e))
  }

  ghost predicate GivenUp(ops: seq<Op>, e: Element, i: nat, k: nat)
    requires k <= |ops|
  {
    exists j :: i <= j < k && GivesUp(ops[j], e)
  }

  /** What an operation that does not insert it does to an element. */
  lemma OneOp(s: Snap, op: Op, s': Snap, epochSize: nat, e: Element)
    requires s.Even() && s'.Even() && Does(s, op, s', epochSize) && e != DEFAULT && !(op.DoInsert? && op.e == e)
    ensures var aged := op.DoInsert? && s.Ages(epochSize);
            && (e in s'.Young() <==> !GivesUp(op, e) && !aged && e in s.Young())
            && (e in s'.Aging() <==> !GivesUp(op, e) && (if aged then e in s.Young() else e in s.Aging()))
  {
  }

  lemma OwnInsert(s: Snap, op: Op, s': Snap, epochSize: nat, e: Element)
    requires s.Even() && s'.Even() && Does(s, op, s', epochSize) && e != DEFAULT && op.DoInsert? && op.e == e
    ensures e !in s'.Aging() && (e in s'.Young() <==> !GivesUp(op, e))
  {
    var young := if s.Ages(epochSize) then {} else s.Young();
    assert e in young + {e};
    if op.lost.None? {
      assert s'.Young() == young + {e};
    } else {
      assert e in s'.Young() + Held(op.lost.value.0, op.lost.value.1);
    }
  }

  /**
   The life of an element after its last insertion: in the living epoch until the epochs are aged, in the old one until
   they are aged again, and then given up; unless it was erased or lost before.
   */
  lemma {:induction false} LifeOf(snaps: seq<Snap>, ops: seq<Op>, epochSize: nat, e: Element, i: nat, k: nat)
    requires IsRun(snaps, ops, epochSize) && e != DEFAULT && InsertedLast(ops, e, i, k)
    ensures e in snaps[k].Young() <==> !GivenUp(ops, e, i, k) && Ageings(snaps, ops, epochSize, i + 1, k) == 0
    ensures e in snaps[k].Aging() <==> !GivenUp(ops, e, i, k) && Ageings(snaps, ops, epochSize, i + 1, k) == 1
    decreases k
  {
    assert Does(snaps[k - 1], ops[k - 1], snaps[k - 1 + 1], epochSize);
    if k - 1 == i {
      OwnInsert(snaps[i], ops[i], snaps[k], epochSize, e);
      assert GivenUp(ops, e, i, k) <==> GivesUp(ops[i], e);
    } else {
      LifeOf(snaps, ops, epochSize, e, i, k - 1);
      OneOp(snaps[k - 1], ops[k - 1], snaps[k], epochSize, e);
      GivenUpStep(ops, e, i, k);
    }
  }

  lemma GivenUpStep(ops: seq<Op>, e: Element, i: nat, k: nat)
    requires i < k <= |ops|
    ensures GivenUp(ops, e, i, k) <==> GivenUp(ops, e, i, k - 1) || GivesUp(ops[k - 1], e)
  {
    if GivenUp(ops, e, i, k) && !GivesUp(ops[k - 1], e) {
      var j :| i <= j < k && GivesUp(ops[j], e);
      assert i <= j < k - 1;
    }
  }

  /** What was never inserted is not kept. */
  lemma {:induction false} NeverInserted(snaps: seq<Snap>, ops: seq<Op>, epochSize: nat, e: Element, k: nat)
    requires IsRun(snaps, ops, epochSize) && e != DEFAULT && k <= |ops|
    requires forall j :: 0 <= j < k ==> !(ops[j].DoInsert? && ops[j].e == e)
    ensures e !in snaps[k].Young() && e !in snaps[k].Aging()
  {
    if k > 0 {
      NeverInserted(snaps, ops, epochSize, e, k - 1);
      assert Does(snaps[k - 1], ops[k - 1], snaps[k - 1 + 1], epochSize);
      OneOp(snaps[k - 1], ops[k - 1], snaps[k], epochSize, e);
    }
  }

  /** One place that holds the element has been given up. */
  ghost predicate Erased(hs: Hashes, table: seq<Element>, e: Element, before: seq<bool>, after: seq<bool>)
    requires hs.size == |table| == |before| > 0
  {
    exists k :: 0 <= k < PLACES && table[hs.Locs(e)[k]] == e && after == before[hs.Locs(e)[k] := true]
  }

  /** Giving up a slot, and taking it back. */
  lemma EraseKeeps(table: seq<Element>, erased: seq<bool>, l: int)
    requires |erased| == |table| && 0 <= l < |table| && Unique(table) && table[l] != DEFAULT
    ensures Kept(table, erased[l := true]) == Kept(table, erased) - {table[l]}
  {
    var erased' := erased[l := true];
    forall x
      ensures x in Kept(table, erased') <==> x in Kept(table, erased) && x != table[l]
    {
      if x in Kept(table, erased) && x != table[l] {
        var i :| 0 <= i < |table| && !erased[i] && table[i] == x;
        assert !erased'[i];
      }
    }
  }

  lemma KeepAgain(table: seq<Element>, erased: seq<bool>, l: int)
    requires |erased| == |table| && 0 <= l < |table|
    ensures Kept(table, erased[l := false]) == Kept(table, erased) + {table[l]}
  {
    var erased' := erased[l := false];
    forall x
      ensures x in Kept(table, erased') <==> x in Kept(table, erased) || x == table[l]
    {
      assert !erased'[l];
      if x in Kept(table, erased) {
        var i :| 0 <= i < |table| && !erased[i] && table[i] == x;
        assert !erased'[i];
      }
    }
  }

  /** Where the chain goes on: the place after the last one, wrapping round. */
  function NextPlace(locs: seq<int>, last: int): (k: nat)
    requires |locs| == PLACES
    ensures k < PLACES
  {
    (1 + IndexOrEnd(locs, last)) % PLACES
  }

  /** std::find. */
  function IndexOrEnd(locs: seq<int>, x: int): (k: nat)
    ensures k <= |locs| && (k < |locs| ==> locs[k] == x)
  {
    if locs == [] || locs[0] == x then 0 else 1 + IndexOrEnd(locs[1..], x)
  }

  lemma {:induction false} FindsMember(locs: seq<int>, x: int)
    ensures IndexOrEnd(locs, x) == |locs| <==> x !in locs
  {
    if locs != [] && locs[0] != x {
      FindsMember(locs[1..], x);
      assert locs == [locs[0]] + locs[1..];
    }
  }

  /**
   The chain starts at the second place, not the first as the comment in the source has it; after that it never moves
   the element just put in, if that element's places differ.
   */
  lemma NextPlaceMoves(locs: seq<int>, last: int)
    requires |locs| == PLACES
    ensures last !in locs ==> NextPlace(locs, last) == 1
    ensures last in locs && (forall i, j :: 0 <= i < j < PLACES ==> locs[i] != locs[j]) ==>
            locs[NextPlace(locs, last)] != last
  {
    FindsMember(locs, last);
  }

  /** The elements that were in hand, and the slots they went into. */
  datatype Trail = Trail(held: seq<Element>, slots: seq<int>)

  predicate PlacesDiffer(locs: seq<int>) {
    forall i, j :: 0 <= i < j < |locs| ==> locs[i] != locs[j]
  }

  /** Each element goes to one of its places, the first to its second; none takes back the slot just given up. */
  ghost predicate IsTrail(hs: Hashes, trail: Trail, e: Element) {
    && hs.size > 0 && |trail.held| == |trail.slots| + 1 && trail.held[0] == e
    && (forall j :: 0 <= j < |trail.slots| ==> trail.slots[j] in hs.Locs(trail.held[j]))
    && (trail.slots != [] ==> trail.slots[0] == hs.Locs(e)[1])
    && (forall j :: 0 < j < |trail.slots| && PlacesDiffer(hs.Locs(trail.held[j])) ==>
          trail.slots[j] != trail.slots[j - 1])
  }

  ghost predicate OnTrail(hs: Hashes, trail: Trail, e: Element, depth: nat, carried: Element, lastLoc: int) {
    && IsTrail(hs, trail, e) && |trail.slots| == depth && trail.held[depth] == carried
    && lastLoc == if depth == 0 then -1 else trail.slots[depth - 1]
  }

  lemma TrailGoesOn(hs: Hashes, trail: Trail, e: Element, depth: nat, carried: Element, lastLoc: int, moved: Element)
    returns (trail': Trail)
    requires OnTrail(hs, trail, e, depth, carried, lastLoc)
    ensures var locs := hs.Locs(carried);
            OnTrail(hs, trail', e, depth + 1, moved, locs[NextPlace(locs, lastLoc)])
  {
    var locs := hs.Locs(carried);
    NextPlaceMoves(locs, lastLoc);
    trail' := Trail(trail.held + [moved], trail.slots + [locs[NextPlace(locs, lastLoc)]]);
    forall j | 0 < j < |trail'.slots| && PlacesDiffer(hs.Locs(trail'.held[j]))
      ensures trail'.slots[j] != trail'.slots[j - 1]
    {
      if j < depth {
        assert PlacesDiffer(hs.Locs(trail.held[j]));
      }
    }
  }

  // ---------------------------------------------------------------- flags packed into bytes

  /** bit_packed_atomic_flags as a sequence of flags. */
  class BitFlags {
    var mem: array<bv8>
    const size: nat

    ghost predicate Valid()
      reads this
    {
      mem.Length == (size + 7) / 8
    }

    /** bit_is_set. */
    function IsSet(s: nat): bool
      requires Valid() && s < size
      reads this, mem
    {
      mem[s / 8] & Mask(s % 8) != 0
    }

    constructor (size: nat)
      ensures Valid() && this.size == size && fresh(mem) && forall s :: 0 <= s < size ==> IsSet(s)
    {
      this.size := size;
      mem := new bv8[(size + 7) / 8];
      new;
      for i := 0 to mem.Length
        invariant mem.Length == (size + 7) / 8 && fresh(mem) && forall j :: 0 <= j < i ==> mem[j] == 0xFF
      {
        mem[i] := 0xFF;
      }
    }

    /** bit_set. */
    method Set(s: nat)
      requires Valid() && s < size
      modifies mem
      ensures Valid() && forall i :: 0 <= i < size ==> IsSet(i) == (i == s || old(IsSet(i)))
    {
      ghost var before := mem[s / 8];
      mem[s / 8] := mem[s / 8] | Mask(s % 8);
      forall i | 0 <= i < size
        ensures IsSet(i) == (i == s || old(IsSet(i)))
      {
        if i / 8 == s / 8 {
          MaskSets(before, i % 8, s % 8);
        }
      }
    }

    /** bit_unset. */
    method Unset(s: nat)
      requires Valid() && s < size
      modifies mem
      ensures Valid() && forall i :: 0 <= i < size ==> IsSet(i) == (i != s && old(IsSet(i)))
    {
      ghost var before := mem[s / 8];
      mem[s / 8] := mem[s / 8] & !Mask(s % 8);
      forall i | 0 <= i < size
        ensures IsSet(i) == (i != s && old(IsSet(i)))
      {
        if i / 8 == s / 8 {
          MaskClears(before, i % 8, s % 8);
        }
      }
    }
  }
}
