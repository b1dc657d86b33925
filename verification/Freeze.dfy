/**
 Soft consensus freezing. A block may be frozen explicitly for a number of blocks; its descendants inherit what is
 left. The inherited value is stored with every block and brought up to date by a walk over the descendants.
 */
module Freeze {
  import opened Common
  import opened BlockTree
  import opened Descendants

  const INT_MAX: int := 0x7fff_ffff

  /** A status for every block: -1, or for how many more blocks it freezes. */
  ghost predicate Statuses(status: map<Block, int>, all: seq<Block>) {
    forall b :: b in all ==> b in status && status[b] >= -1
  }

  function Inherit(own: int, up: int): int {
    if up != -1 && up - 1 > own then up - 1 else own
  }

  /** What the explicit freezes of a block and its ancestors amount to. */
  ghost function Frozen(explicit: map<Block, int>, all: seq<Block>, b: Block): (n: int)
    requires Known(all) && Statuses(explicit, all) && b in all
    ensures n >= -1
    decreases b.height
  {
    assert b.Valid();
    if b.prev == null then explicit[b] else Inherit(explicit[b], Frozen(explicit, all, b.prev))
  }

  lemma {:induction false} AncestorKnown(all: seq<Block>, b: Block, h: nat)
    requires Known(all) && b in all && b.Valid() && h <= b.height
    ensures b.At(h) in all
    decreases b.height
  {
    if h < b.height {
      AncestorKnown(all, b.prev, h);
    }
  }

  /** The freeze an ancestor `d` blocks back still imposes, or -1. */
  ghost function Remaining(explicit: map<Block, int>, all: seq<Block>, b: Block, d: nat): (n: int)
    requires Known(all) && Statuses(explicit, all) && b in all && b.Valid() && d <= b.height
    ensures n >= -1
  {
    AncestorKnown(all, b, b.height - d);
    var n := explicit[b.At(b.height - d)];
    if n >= d then n - d else -1
  }

  lemma RemainingOfPrev(explicit: map<Block, int>, all: seq<Block>, b: Block, d: nat)
    requires Known(all) && Statuses(explicit, all) && b in all && b.Valid() && 0 < d <= b.height
    ensures var up := Remaining(explicit, all, b.prev, d - 1); Remaining(explicit, all, b, d) == if up >= 0
            then up - 1 else -1
  {
  }

  /** The inherited status is the largest of these, over the block and all its ancestors. */
  lemma {:induction false} FrozenIsMaximum(explicit: map<Block, int>, all: seq<Block>, b: Block)
    requires Known(all) && Statuses(explicit, all) && b in all && b.Valid()
    ensures forall d: nat :: d <= b.height ==> Remaining(explicit, all, b, d) <= Frozen(explicit, all, b)
    ensures exists d: nat :: d <= b.height && Remaining(explicit, all, b, d) == Frozen(explicit, all, b)
    decreases b.height
  {
    var f := Frozen(explicit, all, b);
    assert Remaining(explicit, all, b, 0) == explicit[b];
    if b.prev != null {
      FrozenIsMaximum(explicit, all, b.prev);
      forall d: nat | d <= b.height
        ensures Remaining(explicit, all, b, d) <= f
      {
        if d > 0 {
          RemainingOfPrev(explicit, all, b, d);
        }
      }
      var e: nat :| e <= b.prev.height && Remaining(explicit, all, b.prev, e) == Frozen(explicit, all, b.prev);
      RemainingOfPrev(explicit, all, b, e + 1);
      if f != explicit[b] {
        assert Remaining(explicit, all, b, e + 1) == f;
      }
    }
  }

  /** What is left of a new freeze of `n` blocks, `d` blocks later. */
  function Left(n: int, d: int): int {
    if n >= d then n - d else -1
  }

  /** A new freeze raises descendants to what is left of it, and leaves the others alone. */
  lemma {:induction false} FreezeEffect(explicit: map<Block, int>, all: seq<Block>, root: Block, n: nat, b: Block)
    requires Known(all) && Statuses(explicit, all) && root in all && b in all && b.Valid() && explicit[root] == -1
    ensures Statuses(explicit[root := n], all)
    ensures Frozen(explicit[root := n], all, b)
            == if DescendsFrom(b, root) then Max(Frozen(explicit, all, b), Left(n, b.height - root.height))
                else Frozen(explicit, all, b)
    decreases b.height
  {
    if b.prev != null {
      FreezeEffect(explicit, all, root, n, b.prev);
    }
  }

  // ---------------------------------------------------------------- the update

  /** How far the walk goes; where the sum would overflow the source takes the duration alone. */
  function MaxHeight(height: nat, duration: nat): int {
    if INT_MAX - duration > height then height + duration else duration
  }

  /** Blocks the freeze reaches but the walk does not. */
  ghost predicate Missed(b: Block, root: Block, duration: nat)
    requires b.Valid()
  {
    b != root && DescendsFrom(b, root) && MaxHeight(root.height, duration) < b.height <= root.height + duration
  }

  /** There are none unless the sum overflows, or if every block is within the duration. */
  lemma NoneMissed(b: Block, root: Block, duration: nat)
    requires b.Valid() && (INT_MAX - duration > root.height || b.height <= duration)
    ensures !Missed(b, root, duration)
  {
  }

  /** Only on chains of more than 2^30 blocks: the sum overflows there, and the missed block is beyond that height. */
  lemma MissedOnlyHigh(b: Block, root: Block, duration: nat)
    requires b.Valid() && Missed(b, root, duration)
    ensures root.height + duration >= INT_MAX && b.height > 0x3fff_ffff
  {
  }

  /** There it does happen: a child of a block at height 2^30, frozen for 2^30 - 1 blocks, should be frozen too. */
  lemma MissedChild(b: Block, root: Block, duration: nat)
    requires b.Valid() && b.prev == root && root.height == 0x4000_0000 && duration == 0x3fff_ffff
    ensures Missed(b, root, duration) && Left(duration, b.height - root.height) == 0x3fff_fffe
  {
    assert b.At(root.height) == b.prev.At(root.height);
  }

  /** The predecessor of a visited block is visited before it. */
  lemma VisitedParent(d: DescendantTree, s: seq<int>, k: nat) returns (j: nat)
    requires d.Valid() && s == Preorder(d.Snapshot(), d.Bound()) && 0 < k < |s|
    ensures j < k && (forall i :: 0 <= i < |s| ==> 0 <= s[i] < |d.blocks|)
    ensures var b := d.blocks[s[k]]; b in d.all && b.Valid() && b.prev == d.blocks[s[j]]
  {
    ParentsFirst(d.Snapshot(), d.Bound(), k);
    var b := d.blocks[s[k]];
    assert b in d.blocks;
    j :| 0 <= j < k && s[..k][j] == d.parent[s[k]];
  }

  class FreezeIndex {
    ghost const all: seq<Block>
    var explicit: map<Block, int>
    var cumulative: map<Block, int>

    ghost predicate Valid()
      reads this
    {
      Known(all) && Statuses(explicit, all) && forall b :: b in all ==> b in cumulative
    }

    /** Every block has the status that its ancestors' freezes amount to. */
    ghost predicate UpToDate()
      requires Valid()
      reads this
    {
      forall b :: b in all ==> cumulative[b] == Frozen(explicit, all, b)
    }

    constructor (all: seq<Block>)
      requires Known(all)
      ensures this.all == all && Valid() && UpToDate()
      ensures forall b :: b in all ==> explicit[b] == -1
    {
      this.all := all;
      explicit := map b | b in all :: -1;
      cumulative := map b | b in all :: -1;
      new;
      forall b | b in all
        ensures Frozen(explicit, all, b) == -1
      {
        NoneFrozen(explicit, all, b);
      }
    }

    /** SetSoftConsensusFreezeFor, with its assertions as preconditions. */
    method SetFor(b: Block, n: nat)
      requires b in explicit && b in cumulative && explicit[b] == -1
      modifies this
      ensures explicit == old(explicit)[b := n] && cumulative == old(cumulative)[b := Max(old(cumulative)[b], n)]
    {
      explicit := explicit[b := n];
      cumulative := cumulative[b := Max(cumulative[b], n)];
    }

    /** UpdateSoftConsensusFreezeFromParent. */
    method UpdateFromParent(b: Block)
      requires b.prev != null && b.prev in cumulative && b in explicit
      modifies this`cumulative
      ensures cumulative == old(cumulative)[b := Inherit(explicit[b], old(cumulative)[b.prev])]
    {
      if cumulative[b.prev] != -1 {
        cumulative := cumulative[b := Max(explicit[b], cumulative[b.prev] - 1)];
      } else {
        cumulative := cumulative[b := explicit[b]];
      }
    }

    /** After `k` items of the walk: those are done, all other blocks are as they were. */
    ghost predicate Walked(d: DescendantTree, s: seq<int>, k: nat, before: map<Block, int>)
      requires Valid() && k <= |s| && forall i :: 0 <= i < |s| ==> 0 <= s[i] < |d.blocks|
      reads this, d
    {
      && (forall i :: 0 <= i < k && d.blocks[s[i]] in all ==>
         cumulative[d.blocks[s[i]]] == Frozen(explicit, all, d.blocks[s[i]]))
      && (forall b :: b in all && b in before && (forall i :: 0 <= i < k ==> d.blocks[s[i]] != b) ==>
         cumulative[b] == before[b])
    }

    method UpdateItem(d: DescendantTree, ghost s: seq<int>, ghost k: nat, ghost before: map<Block, int>, x: int)
      requires Valid() && d.Valid() && d.all == all && s == Preorder(d.Snapshot(), d.Bound())
      requires 0 < k < |s| && x == s[k] && Walked(d, s, k, before)
      modifies this`cumulative
      ensures Valid() && Walked(d, s, k + 1, before)
    {
      ghost var j := VisitedParent(d, s, k);
      UpdateBlock(d.blocks[x], d, s, k, before, j);
    }

    method UpdateBlock(b: Block, ghost d: DescendantTree, ghost s: seq<int>, ghost k: nat, ghost before: map<Block,
                       int>, ghost j: nat)
      requires Valid() && j < k < |s| && (forall i :: 0 <= i < |s| ==> 0 <= s[i] < |d.blocks|)
               && Walked(d, s, k, before)
      requires b in all && b.Valid() && b == d.blocks[s[k]] && b.prev == d.blocks[s[j]]
      modifies this`cumulative
      ensures Valid() && Walked(d, s, k + 1, before)
    {
      assert b.prev in all && cumulative[b.prev] == Frozen(explicit, all, b.prev);
      UpdateFromParent(b);
    }

    /** The loop of softConsensusFreeze. */
    method WalkDescendants(d: DescendantTree, ghost s: seq<int>, ghost before: map<Block, int>)
      requires Valid() && d.Valid() && d.all == all && s == Preorder(d.Snapshot(), d.Bound()) && Walked(d, s, 1, before)
      modifies this`cumulative
      ensures Valid() && Walked(d, s, |s|, before)
    {
      NextIsPreorder(d.Snapshot(), d.Bound());
      var item := d.NextItem(0);
      ghost var k := 1;
      assert item == Successor(s, 0, None);
      while item.Some?
        invariant Valid() && 1 <= k <= |s| && item == (if k < |s| then Some(s[k]) else None)
        invariant Walked(d, s, k, before)
        decreases |s| - k
      {
        UpdateItem(d, s, k, before, item.value);
        assert Next(d.Snapshot(), d.Bound(), s[k]) == Successor(s, k, None);
        item := d.NextItem(item.value);
        k := k + 1;
      }
    }

    lemma Settled(d: DescendantTree, s: seq<int>, before: map<Block, int>, was: map<Block, int>, root: Block,
                  duration: nat, b: Block)
      requires Valid() && d.Valid() && d.all == all && s == Preorder(d.Snapshot(), d.Bound())
               && Walked(d, s, |s|, before)
      requires Statuses(was, all) && root in all && b in all && b.Valid() && was[root] == -1
               && explicit == was[root := duration]
      requires d.root == root && d.maxHeight == MaxHeight(root.height, duration) && b in before
               && before[b] == Frozen(was, all, b)
      ensures cumulative[b] == Frozen(explicit, all, b) <==>
              !(Missed(b, root, duration) && before[b] < Left(duration, b.height - root.height))
    {
      FreezeEffect(was, all, root, duration, b);
      VisitedExactly(d, b);
    }

    /** softConsensusFreeze. Afterwards a status is right unless the walk missed the block and the freeze mattered. */
    method SoftFreeze(root: Block, duration: nat, known: seq<Block>)
      requires Valid() && UpToDate() && known == all && root in all && explicit[root] == -1
      modifies this
      ensures Valid() && explicit == old(explicit)[root := duration]
      ensures forall b :: b in all && b.Valid() ==>
        (cumulative[b] == Frozen(explicit, all, b) <==>
         !(Missed(b, root, duration) && old(cumulative)[b] < Left(duration, b.height - root.height)))
      ensures (forall b :: b in all && b.Valid() ==> !Missed(b, root, duration)) ==> UpToDate()
    {
      ghost var was, before := explicit, cumulative;
      assert before[root] == Frozen(was, all, root);
      FreezeEffect(was, all, root, duration, root);
      SetFor(root, duration);
      var d := new DescendantTree(root, known, MaxHeight(root.height, duration));
      ghost var s := Preorder(d.Snapshot(), d.Bound());
      assert s[0] == 0 && Walked(d, s, 1, before);
      WalkDescendants(d, s, before);
      forall b | b in all && b.Valid()
        ensures cumulative[b] == Frozen(explicit, all, b) <==>
                !(Missed(b, root, duration) && before[b] < Left(duration, b.height - root.height))
      {
        Settled(d, s, before, was, root, duration, b);
      }
    }
  }

  lemma {:induction false} NoneFrozen(explicit: map<Block, int>, all: seq<Block>, b: Block)
    requires Known(all) && Statuses(explicit, all) && b in all && forall x :: x in all ==> explicit[x] == -1
    ensures Frozen(explicit, all, b) == -1
    decreases b.height
  {
    assert b.Valid();
    if b.prev != null {
      NoneFrozen(explicit, all, b.prev);
    }
  }
}
