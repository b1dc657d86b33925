/**
 The tree of block headers. A block points to its predecessor and, with `skip`, further back, so that ancestors are
 found in few steps. Links, heights and times never change once a block has been made, so they are constants.
 */
module BlockTree {

  // ---------------------------------------------------------------- skip heights

  /** operator& on unsigned integers. */
  function And(x: nat, y: nat): nat {
    if x == 0 || y == 0 then 0
    else 2 * And(x / 2, y / 2) + if x % 2 == 1 && y % 2 == 1 then 1 else 0
  }

  lemma {:induction false} AndSelf(x: nat)
    ensures And(x, x) == x
  {
    if x > 0 {
      AndSelf(x / 2);
    }
  }

  function InvertLowestOne(n: nat): nat {
    if n == 0 then 0 else And(n, n - 1)
  }

  /** It clears the lowest one and leaves the bits above it. */
  lemma {:induction false} InvertClears(n: nat)
    ensures InvertLowestOne(n) == if n == 0 then 0 else if n % 2 == 1 then n - 1 else 2 * InvertLowestOne(n / 2)
    ensures n > 0 ==> InvertLowestOne(n) < n
  {
    if n % 2 == 1 {
      AndSelf(n / 2);
    } else if n > 0 {
      InvertClears(n / 2);
    }
  }

  function GetSkipHeight(height: nat): nat {
    if height < 2 then 0
    else if height % 2 == 1 then InvertLowestOne(InvertLowestOne(height - 1)) + 1
    else InvertLowestOne(height)
  }

  lemma SkipsBack(height: nat)
    requires height > 0
    ensures GetSkipHeight(height) < height
  {
    if height >= 2 {
      InvertClears(height);
      InvertClears(height - 1);
      InvertClears(InvertLowestOne(height - 1));
    }
  }

  /** Where the search for height `t` goes from height `h`: the skip, unless the one before it leads further. */
  function NextHeight(h: nat, t: nat): (n: nat)
    requires t < h
    ensures t <= n < h
  {
    SkipsBack(h);
    var skip, skipPrev := GetSkipHeight(h), GetSkipHeight(h - 1);
    if skip == t || (skip > t && !(skipPrev < skip - 2 && skipPrev >= t)) then skip else h - 1
  }

  /** How often the loop of the search is entered. */
  function SearchSteps(h: nat, t: nat): nat
    requires t <= h
  {
    if h == t then 0 else 1 + SearchSteps(NextHeight(h, t), t)
  }

  // ---------------------------------------------------------------- blocks

  class Block {
    const prev: Block?
    const skip: Block?
    const height: nat
    const time: int
    const timeMax: int

    /** The links are those of a tree built block by block. */
    ghost predicate Valid()
      decreases height, 0
    {
      if prev == null then height == 0 && skip == null && timeMax == time
      else
        && prev.height + 1 == height && prev.Valid()
        && timeMax == (if prev.timeMax < time then time else prev.timeMax)
        && GetSkipHeight(height) <= prev.height && skip == prev.At(GetSkipHeight(height))
    }

    /** The ancestor at a height, by following `prev`. */
    ghost function At(h: nat): (r: Block)
      requires Valid() && h <= height
      ensures r.height == h
      decreases height, 1
    {
      if h == height then this else prev.At(h)
    }

    constructor (prev: Block?, time: int)
      requires prev != null ==> prev.Valid()
      ensures Valid() && this.prev == prev && this.time == time
    {
      this.prev := prev;
      this.time := time;
      if prev == null {
        this.height := 0;
        this.skip := null;
        this.timeMax := time;
      } else {
        this.height := prev.height + 1;
        SkipsBack(prev.height + 1);
        var ancestor := prev.GetAncestor(GetSkipHeight(prev.height + 1));
        this.skip := ancestor;
        this.timeMax := if prev.timeMax < time then time else prev.timeMax;
      }
    }

    /** CBlockIndex::GetAncestor. */
    method GetAncestor(h: int) returns (r: Block?)
      requires Valid()
      ensures r == if 0 <= h <= height then At(h) else null
    {
      if h > height || h < 0 {
        return null;
      }
      ghost var steps;
      r, steps := WalkBack(h);
    }

    /** The loop of GetAncestor, with the number of steps it takes. */
    method WalkBack(h: nat) returns (walk: Block, ghost steps: nat)
      requires Valid() && h <= height
      ensures walk == At(h) && steps == SearchSteps(height, h)
    {
      walk, steps := this, 0;
      var heightWalk := height;
      while heightWalk > h
        invariant h <= heightWalk <= height && walk == At(heightWalk)
        invariant steps + SearchSteps(heightWalk, h) == SearchSteps(height, h)
      {
        steps := steps + 1;
        var heightSkip := GetSkipHeight(heightWalk);
        var heightSkipPrev := GetSkipHeight(heightWalk - 1);
        SkipsBack(heightWalk);
        AtAt(this, heightWalk, heightWalk - 1);
        AtAt(this, heightWalk, heightSkip);
        if walk.skip != null
           && (heightSkip == h || (heightSkip > h && !(heightSkipPrev < heightSkip - 2 && heightSkipPrev >= h))) {
          walk := walk.skip;
          heightWalk := heightSkip;
        } else {
          assert walk.prev != null;
          walk := walk.prev;
          heightWalk := heightWalk - 1;
        }
      }
    }
  }

  /** An ancestor of an ancestor is an ancestor. */
  lemma {:induction false} AtAt(b: Block, h: nat, k: nat)
    requires b.Valid() && k <= h <= b.height
    ensures b.At(h).Valid() && b.At(h).At(k) == b.At(k)
    decreases b.height
  {
    if h < b.height {
      AtAt(b.prev, h, k);
    }
  }

  lemma PrevOf(b: Block, h: nat)
    requires b.Valid() && h <= b.height
    ensures h == 0 ==> b.At(h).prev == null
    ensures h > 0 ==> b.At(h).prev == b.At(h - 1)
  {
    AtAt(b, h, if h > 0 then h - 1 else 0);
  }

  // ---------------------------------------------------------------- common ancestors

  /** `r` is the highest block that both have among their ancestors, themselves included; null if there is none. */
  ghost predicate IsLastCommon(a: Block, b: Block, r: Block?)
    requires a.Valid() && b.Valid()
  {
    && (r != null ==> r.height <= a.height && r.height <= b.height && r == a.At(r.height) == b.At(r.height))
    && (forall k: nat :: k <= a.height && k <= b.height && (r == null || r.height < k) ==> a.At(k) != b.At(k))
  }

  lemma LastCommonUnique(a: Block, b: Block, r: Block?, r': Block?)
    requires a.Valid() && b.Valid() && IsLastCommon(a, b, r) && IsLastCommon(a, b, r')
    ensures r == r'
  {
    if r != null {
      assert a.At(r.height) == b.At(r.height);
    }
    if r' != null {
      assert a.At(r'.height) == b.At(r'.height);
    }
  }

  /** LastCommonAncestor; its final assertion is an assertion here. */
  method LastCommonAncestor(a: Block, b: Block) returns (r: Block?)
    requires a.Valid() && b.Valid()
    ensures IsLastCommon(a, b, r)
  {
    var pa: Block?, pb: Block? := a, b;
    ghost var h: int := if a.height < b.height then a.height else b.height;
    if a.height > b.height {
      pa := a.GetAncestor(b.height);
    } else if b.height > a.height {
      pb := b.GetAncestor(a.height);
    }
    while pa != pb && pa != null && pb != null
      invariant -1 <= h <= a.height && h <= b.height && AtBoth(a, b, h, pa, pb) && NoneAbove(a, b, h)
      decreases h
    {
      PrevOf(a, h);
      PrevOf(b, h);
      pa, pb := pa.prev, pb.prev;
      h := h - 1;
    }
    assert pa == pb;
    return pa;
  }

  ghost predicate AtBoth(a: Block, b: Block, h: int, pa: Block?, pb: Block?)
    requires a.Valid() && b.Valid() && -1 <= h <= a.height && h <= b.height
  {
    if h == -1 then pa == null && pb == null else pa == a.At(h) && pb == b.At(h)
  }

  ghost predicate NoneAbove(a: Block, b: Block, h: int)
    requires a.Valid() && b.Valid()
  {
    forall k: nat :: h < k <= a.height && k <= b.height ==> a.At(k) != b.At(k)
  }
}
