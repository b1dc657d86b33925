/** The active chain: a vector of blocks by height, kept in step with its tip. */
module Chain {
  import opened BlockTree
  import opened Powers

  class BlockChain {
    var vChain: seq<Block?>
    var tip: Block?

    /** Entry `h` is the tip's ancestor at height `h`. */
    ghost predicate Valid()
      reads this
    {
      if tip == null then vChain == []
      else tip.Valid() && |vChain| == tip.height + 1 && forall h :: 0 <= h < |vChain| ==> vChain[h] == tip.At(h)
    }

    constructor ()
      ensures Valid() && tip == null
    {
      vChain := [];
      tip := null;
    }

    /** operator[]. */
    function Entry(h: int): Block?
      reads this
    {
      if h < 0 || h >= |vChain| then null else vChain[h]
    }

    predicate Contains(b: Block)
      reads this
    {
      Entry(b.height) == b
    }

    function Next(b: Block): Block?
      reads this
    {
      if !Contains(b) then null else Entry(b.height + 1)
    }

    function Height(): int
      reads this
    {
      if tip == null then -1 else tip.height
    }

    /** The chain contains a block exactly when it is the tip or one of its ancestors. */
    lemma ContainsExact(b: Block)
      requires Valid()
      ensures Contains(b) <==> tip != null && b.height <= tip.height && b == tip.At(b.height)
    {
    }

    /** Next gives the block whose predecessor is `b`. */
    lemma NextExact(b: Block)
      requires Valid() && b.Valid()
      ensures Next(b) != null <==> Contains(b) && b != tip
      ensures Next(b) != null ==> Contains(Next(b)) && Next(b).prev == b
    {
      if Contains(b) && b.height < tip.height {
        PrevOf(tip, b.height + 1);
      }
    }

    /** CChain::SetTip stops early where the old chain already agrees. */
    method SetTip(b: Block?)
      requires Valid() && (b != null ==> b.Valid())
      modifies this
      ensures Valid() && tip == b
    {
      ghost var before, oldTip := vChain, tip;
      tip := b;
      if b == null {
        vChain := [];
        return;
      }
      vChain := Resized(vChain, b.height + 1);
      var walk: Block? := b;
      ghost var n: int := b.height;
      while walk != null && vChain[walk.height] != walk
        invariant tip == b && |vChain| == b.height + 1 && -1 <= n <= b.height
        invariant if n == -1 then walk == null else walk == b.At(n)
        invariant forall h :: n < h <= b.height ==> vChain[h] == b.At(h)
        invariant forall h :: 0 <= h <= n ==> vChain[h] == if h < |before| then before[h] else null
        decreases n
      {
        PrevOf(b, n);
        vChain := vChain[walk.height := walk];
        walk := walk.prev;
        n := n - 1;
      }
      if walk != null {
        Agree(b, oldTip, n);
      }
    }

    /** CChain::GetLocator, listing blocks where the source lists their hashes. */
    method GetLocator(b: Block?) returns (have: seq<Block>)
      requires Valid() && (b != null ==> b.Valid())
      ensures b == null && tip == null ==> have == []
      ensures b != null ==> Steps(have, b)
      ensures b == null && tip != null ==> Steps(have, tip)
      ensures have != [] ==> have[|have| - 1].height == 0
    {
      have := [];
      var start := if b == null then tip else b;
      if start == null {
        return;
      }
      var walk: Block := start;
      var nStep := 1;
      while true
        invariant Steps(have + [walk], start)
        invariant nStep == StepAfter(|have| + 1)
        decreases walk.height
      {
        have := have + [walk];
        if walk.height == 0 {
          return;
        }
        var height := if walk.height - nStep < 0 then 0 else walk.height - nStep;
        var next: Block?;
        assert have[|have| - 1] == walk == start.At(walk.height);
        AtAt(start, walk.height, height);
        if Contains(walk) {
          AtAt(tip, walk.height, height);
          next := Entry(height);
        } else {
          next := walk.GetAncestor(height);
        }
        assert next == start.At(height);
        walk := next;
        NextStep(have, start, walk);
        if |have| > 10 {
          nStep := nStep * 2;
        }
      }
    }

    /** CChain::FindFork. */
    method FindFork(b: Block?) returns (r: Block?)
      requires Valid() && (b != null ==> b.Valid())
      ensures b == null || tip == null ==> r == null
      ensures b != null && tip != null ==> IsLastCommon(tip, b, r)
    {
      if b == null {
        return null;
      }
      var walk: Block? := b;
      if b.height > Height() {
        walk := b.GetAncestor(Height());
      }
      if tip == null {
        return walk;
      }
      ghost var n: int := walk.height;
      while walk != null && !Contains(walk)
        invariant -1 <= n <= tip.height && n <= b.height
        invariant if n == -1 then walk == null else walk == b.At(n)
        invariant forall k: nat :: n < k <= tip.height && k <= b.height ==> tip.At(k) != b.At(k)
        decreases n
      {
        PrevOf(b, n);
        walk := walk.prev;
        n := n - 1;
      }
      return walk;
    }

    /** CChain::FindEarliestAtLeast: the binary search over timeMax. */
    method FindEarliestAtLeast(time: int) returns (r: Block?)
      requires Valid()
      ensures r == null ==> forall h :: 0 <= h < |vChain| ==> tip.At(h).time < time
      ensures r != null ==> Contains(r) && r.time >= time && forall h :: 0 <= h < r.height ==> tip.At(h).time < time
    {
      var lo, hi := 0, |vChain|;
      while lo < hi
        invariant 0 <= lo <= hi <= |vChain|
        invariant lo > 0 ==> tip.At(lo - 1).timeMax < time
        invariant hi < |vChain| ==> tip.At(hi).timeMax >= time
      {
        var mid := (lo + hi) / 2;
        if vChain[mid].timeMax < time {
          lo := mid + 1;
        } else {
          hi := mid;
        }
      }
      if lo > 0 {
        forall h | 0 <= h < lo
          ensures tip.At(h).time < time
        {
          TimesBelow(tip, lo - 1, h);
        }
      }
      if lo == |vChain| {
        return null;
      }
      OwnTime(tip, lo);
      return vChain[lo];
    }
  }

  /** Two chains that meet are the same below. */
  lemma Agree(a: Block, b: Block, n: nat)
    requires a.Valid() && b.Valid() && n <= a.height && n <= b.height && a.At(n) == b.At(n)
    ensures forall h: nat :: h <= n ==> a.At(h) == b.At(h)
  {
    forall h: nat | h <= n
      ensures a.At(h) == b.At(h)
    {
      AtAt(a, n, h);
      AtAt(b, n, h);
    }
  }

  /** std::vector::resize. */
  function Resized(s: seq<Block?>, n: nat): (r: seq<Block?>)
    ensures |r| == n && forall i :: 0 <= i < n ==> r[i] == if i < |s| then s[i] else null
  {
    if n <= |s| then s[..n] else s + seq(n - |s|, i => null)
  }

  /** timeMax bounds the times of all ancestors. */
  lemma {:induction false} TimesBelow(b: Block, h: nat, k: nat)
    requires b.Valid() && k <= h <= b.height
    ensures b.At(k).time <= b.At(k).timeMax <= b.At(h).timeMax
    decreases h - k
  {
    AtAt(b, h, h);
    if k < h {
      PrevOf(b, h);
      TimesBelow(b, h - 1, k);
    }
  }

  /** A block that raises timeMax does so with its own time. */
  lemma OwnTime(b: Block, h: nat)
    requires b.Valid() && h <= b.height
    ensures b.At(h).time < b.At(h).timeMax ==> h > 0 && b.At(h - 1).timeMax == b.At(h).timeMax
  {
    AtAt(b, h, h);
    PrevOf(b, h);
  }

  // ---------------------------------------------------------------- locators

  /** The step back after `i` entries: one for the first eleven, then doubling. */
  function StepAfter(i: nat): nat {
    Pow2(if i <= 11 then 0 else i - 11)
  }

  /** Ancestors of `start` at the documented distances. */
  ghost predicate Steps(have: seq<Block>, start: Block)
    requires start.Valid()
  {
    && |have| > 0 && have[0] == start
    && (forall i :: 0 <= i < |have| ==> have[i].height <= start.height && have[i] == start.At(have[i].height))
    && (forall i :: 0 < i < |have| ==> Follows(have, i))
  }

  predicate Follows(have: seq<Block>, i: nat)
    requires 0 < i < |have|
  {
    have[i - 1].height > 0 && have[i].height == Back(have[i - 1].height, StepAfter(i))
  }

  function Back(height: nat, step: nat): nat {
    if height < step then 0 else height - step
  }

  lemma NextStep(have: seq<Block>, start: Block, next: Block)
    requires start.Valid() && Steps(have, start) && next.height <= start.height && next == start.At(next.height)
    requires have[|have| - 1].height > 0 && next.height == Back(have[|have| - 1].height, StepAfter(|have|))
    ensures Steps(have + [next], start)
  {
    var more := have + [next];
    forall i | 0 < i < |more|
      ensures Follows(more, i)
    {
      if i < |have| {
        assert Follows(have, i);
      }
    }
  }

  lemma {:induction false} StepsDescend(have: seq<Block>, start: Block, i: nat, j: nat)
    requires start.Valid() && Steps(have, start) && i < j < |have|
    ensures have[i].height > have[j].height
    decreases j - i
  {
    assert Follows(have, j);
    if i < j - 1 {
      StepsDescend(have, start, i, j - 1);
    }
  }

  /** A locator grows with the logarithm of the height. */
  lemma LocatorShort(have: seq<Block>, start: Block)
    requires start.Valid() && Steps(have, start) && |have| >= 14
    ensures Pow2(|have| - 13) < start.height
  {
    var n := |have|;
    assert Follows(have, n - 1) && Follows(have, n - 2);
    assert have[n - 3].height <= start.height;
  }
}
