/**
 The tree of a block's descendants: items linked to the item of their predecessor, and the walk over them that
 needs no recursion. The walk is shown to be the recursive preorder.
 */
module Descendants {
  import opened Common
  import opened BlockTree

  /** Items are numbered as in the source's vector; item 0 is the root and -1 stands for no parent. */
  datatype Tree = Tree(height: seq<nat>, parent: seq<int>, children: seq<seq<int>>)

  predicate Distinct(xs: seq<int>) {
    forall i, j :: 0 <= i < j < |xs| ==> xs[i] != xs[j]
  }

  /** Parents and children agree. */
  predicate Linked(t: Tree) {
    && |t.parent| == |t.children| == |t.height|
    && (forall j, k :: 0 <= j < |t.children| && 0 <= k < |t.children[j]| ==>
          0 <= t.children[j][k] < |t.parent| && t.parent[t.children[j][k]] == j)
    && (forall x :: 0 <= x < |t.parent| && t.parent[x] != -1 ==>
          0 <= t.parent[x] < |t.parent| && x in t.children[t.parent[x]] && t.height[x] == t.height[t.parent[x]] + 1)
    && (forall j :: 0 <= j < |t.children| ==> Distinct(t.children[j]))
  }

  /** A finished tree, with all heights up to `limit`. */
  predicate WellFormed(t: Tree, limit: nat) {
    && |t.parent| > 0 && Linked(t) && t.parent[0] == -1
    && forall i :: 0 <= i < |t.height| ==> t.height[i] <= limit
  }

  lemma ChildHeight(t: Tree, limit: nat, p: int, j: nat)
    requires WellFormed(t, limit) && 0 <= p < |t.parent| && j < |t.children[p]|
    ensures var c := t.children[p][j];
            0 <= c < |t.parent| && t.parent[c] == p && t.height[c] == t.height[p] + 1 <= limit
  {
    var c := t.children[p][j];
    assert t.parent[c] == p;
  }

  /** The recursive preorder of the subtrees from the j-th child of `p` on. */
  function Subtrees(t: Tree, limit: nat, p: int, j: nat): (s: seq<int>)
    requires WellFormed(t, limit) && 0 <= p < |t.parent| && j <= |t.children[p]|
    ensures forall k :: 0 <= k < |s| ==> 0 <= s[k] < |t.parent|
    ensures if j == |t.children[p]| then s == [] else s != [] && s[0] == t.children[p][j]
    decreases limit - t.height[p], |t.children[p]| - j
  {
    if j == |t.children[p]| then []
    else
      ChildHeight(t, limit, p, j);
      [t.children[p][j]] + Subtrees(t, limit, t.children[p][j], 0) + Subtrees(t, limit, p, j + 1)
  }

  function Preorder(t: Tree, limit: nat): (s: seq<int>)
    requires WellFormed(t, limit)
    ensures forall k :: 0 <= k < |s| ==> 0 <= s[k] < |t.parent|
  {
    [0] + Subtrees(t, limit, 0, 0)
  }

  // ---------------------------------------------------------------- the walk

  function IndexOf(xs: seq<int>, x: int): (k: nat)
    requires x in xs
    ensures k < |xs| && xs[k] == x && x !in xs[..k]
  {
    if xs[0] == x then 0 else 1 + IndexOf(xs[1..], x)
  }

  /** What follows the whole subtree of `x`. */
  function After(t: Tree, limit: nat, x: int): (r: Option<int>)
    requires WellFormed(t, limit) && 0 <= x < |t.parent|
    ensures r.Some? ==> 0 <= r.value < |t.parent|
    decreases t.height[x]
  {
    var p := t.parent[x];
    if p == -1 then None
    else
      var k := IndexOf(t.children[p], x);
      if k + 1 < |t.children[p]| then Some(t.children[p][k + 1]) else After(t, limit, p)
  }

  /** Item::Next. */
  function Next(t: Tree, limit: nat, x: int): (r: Option<int>)
    requires WellFormed(t, limit) && 0 <= x < |t.parent|
    ensures r.Some? ==> 0 <= r.value < |t.parent|
  {
    if t.children[x] != [] then Some(t.children[x][0]) else After(t, limit, x)
  }

  lemma IndexOfAt(xs: seq<int>, k: nat)
    requires Distinct(xs) && k < |xs|
    ensures IndexOf(xs, xs[k]) == k
  {
    var i := IndexOf(xs, xs[k]);
    assert xs[i] == xs[k];
  }

  /** What comes after position `k` of `s`, which is left towards `end`. */
  function Successor(s: seq<int>, k: nat, end: Option<int>): Option<int> {
    if k + 1 < |s| then Some(s[k + 1]) else end
  }

  /** `s` is walked by Next and then left towards `end`. */
  ghost predicate Walks(t: Tree, limit: nat, s: seq<int>, end: Option<int>)
    requires WellFormed(t, limit) && forall k :: 0 <= k < |s| ==> 0 <= s[k] < |t.parent|
  {
    forall k :: 0 <= k < |s| ==> Next(t, limit, s[k]) == Successor(s, k, end)
  }

  lemma WalksJoin(t: Tree, limit: nat, a: seq<int>, b: seq<int>, mid: Option<int>, end: Option<int>)
    requires WellFormed(t, limit) && (forall k :: 0 <= k < |a| ==> 0 <= a[k] < |t.parent|)
    requires forall k :: 0 <= k < |b| ==> 0 <= b[k] < |t.parent|
    requires Walks(t, limit, a, mid) && Walks(t, limit, b, end) && mid == if b == [] then end else Some(b[0])
    ensures Walks(t, limit, a + b, end)
  {
    var s := a + b;
    forall k | 0 <= k < |s|
      ensures Next(t, limit, s[k]) == Successor(s, k, end)
    {
      if k < |a| {
        assert Next(t, limit, a[k]) == Successor(a, k, mid);
      } else {
        assert Next(t, limit, b[k - |a|]) == Successor(b, k - |a|, end);
      }
    }
  }

  lemma AfterChild(t: Tree, limit: nat, p: int, j: nat)
    requires WellFormed(t, limit) && 0 <= p < |t.parent| && j < |t.children[p]|
    ensures 0 <= t.children[p][j] < |t.parent|
    ensures After(t, limit, t.children[p][j]) == if j + 1 < |t.children[p]| then Some(t.children[p][j + 1])
            else After(t, limit, p)
  {
    var c := t.children[p][j];
    assert t.parent[c] == p;
    IndexOfAt(t.children[p], j);
  }

  /** A child, its subtree and its later siblings' subtrees. */
  lemma SubtreeWalk(t: Tree, limit: nat, p: int, j: nat, below: seq<int>, rest: seq<int>)
    requires WellFormed(t, limit) && 0 <= p < |t.parent| && j < |t.children[p]| && 0 <= t.children[p][j] < |t.parent|
    requires (forall k :: 0 <= k < |below| ==> 0 <= below[k] < |t.parent|)
             && forall k :: 0 <= k < |rest| ==> 0 <= rest[k] < |t.parent|
    requires var c := t.children[p][j];
             && Walks(t, limit, below, After(t, limit, c)) && Walks(t, limit, rest, After(t, limit, p))
             && (if t.children[c] == [] then below == [] else below != [] && below[0] == t.children[c][0])
             && (if j + 1 == |t.children[p]| then rest == [] else rest != [] && rest[0] == t.children[p][j + 1])
    ensures Walks(t, limit, [t.children[p][j]] + below + rest, After(t, limit, p))
  {
    var c := t.children[p][j];
    AfterChild(t, limit, p, j);
    WalksJoin(t, limit, [c], below, Next(t, limit, c), After(t, limit, c));
    WalksJoin(t, limit, [c] + below, rest, After(t, limit, c), After(t, limit, p));
  }

  /** From the j-th child of `p` on, Next goes through the subtrees in preorder and then past `p`. */
  lemma {:induction false} NextInSubtrees(t: Tree, limit: nat, p: int, j: nat)
    requires WellFormed(t, limit) && 0 <= p < |t.parent| && j <= |t.children[p]|
    ensures Walks(t, limit, Subtrees(t, limit, p, j), After(t, limit, p))
    decreases limit - t.height[p], |t.children[p]| - j
  {
    if j < |t.children[p]| {
      ChildHeight(t, limit, p, j);
      var c := t.children[p][j];
      NextInSubtrees(t, limit, c, 0);
      NextInSubtrees(t, limit, p, j + 1);
      SubtreeWalk(t, limit, p, j, Subtrees(t, limit, c, 0), Subtrees(t, limit, p, j + 1));
    }
  }

  /** Repeated Next from the root is the preorder, and ends after it. */
  lemma NextIsPreorder(t: Tree, limit: nat)
    requires WellFormed(t, limit)
    ensures Walks(t, limit, Preorder(t, limit), None)
  {
    NextInSubtrees(t, limit, 0, 0);
    WalksJoin(t, limit, [0], Subtrees(t, limit, 0, 0), Next(t, limit, 0), None);
  }

  // ---------------------------------------------------------------- who is visited

  /** The ancestor at a height, following parents. */
  function Up(t: Tree, limit: nat, x: int, level: nat): (r: Option<int>)
    requires WellFormed(t, limit) && 0 <= x < |t.parent|
    ensures r.Some? ==> 0 <= r.value < |t.parent| && t.height[r.value] == level
    decreases t.height[x]
  {
    if t.height[x] <= level then (if t.height[x] == level then Some(x) else None)
    else if t.parent[x] == -1 then None
    else Up(t, limit, t.parent[x], level)
  }

  lemma {:induction false} UpStep(t: Tree, limit: nat, x: int, level: nat)
    requires WellFormed(t, limit) && 0 <= x < |t.parent| && t.height[x] > level
    ensures var y := Up(t, limit, x, level + 1);
            Up(t, limit, x, level) == if y.None? || t.parent[y.value] == -1 then None else Some(t.parent[y.value])
    decreases t.height[x]
  {
    if t.height[x] > level + 1 && t.parent[x] != -1 {
      UpStep(t, limit, t.parent[x], level);
    }
  }

  /** Whether `x` lies under one of the siblings from the j-th child of `p` on. */
  predicate Under(t: Tree, limit: nat, x: int, p: int, j: nat)
    requires WellFormed(t, limit) && 0 <= x < |t.parent| && 0 <= p < |t.parent| && j <= |t.children[p]|
  {
    var u := Up(t, limit, x, t.height[p] + 1);
    u.Some? && u.value in t.children[p][j..]
  }

  lemma UnderSplit(t: Tree, limit: nat, x: int, p: int, j: nat)
    requires WellFormed(t, limit) && 0 <= x < |t.parent| && 0 <= p < |t.parent| && j < |t.children[p]|
    requires var c := t.children[p][j]; 0 <= c < |t.parent| && t.parent[c] == p && t.height[c] == t.height[p] + 1
    ensures var c := t.children[p][j];
            (if Under(t, limit, x, p, j) then 1 else 0)
            == (if x == c then 1 else 0) + (if Under(t, limit, x, c, 0) then 1 else 0) + if Under(t, limit, x, p,
                j + 1) then 1 else 0
  {
    var c, level := t.children[p][j], t.height[p] + 1;
    var u := Up(t, limit, x, level);
    assert t.children[p][j..] == [c] + t.children[p][j + 1..];
    assert c !in t.children[p][j + 1..];
    assert t.children[c][0..] == t.children[c];
    if t.height[x] > level {
      UpStep(t, limit, x, level);
      var y := Up(t, limit, x, level + 1);
      if y.Some? {
        assert y.value in t.children[c] <==> t.parent[y.value] == c;
      }
    }
  }

  function Count(s: seq<int>, x: int): nat {
    if s == [] then 0 else (if s[|s| - 1] == x then 1 else 0) + Count(s[..|s| - 1], x)
  }

  lemma {:induction false} CountAppend(a: seq<int>, b: seq<int>, x: int)
    ensures Count(a + b, x) == Count(a, x) + Count(b, x)
  {
    if b == [] {
      assert a + b == a;
    } else {
      CountAppend(a, b[..|b| - 1], x);
      assert (a + b)[..|a + b| - 1] == a + b[..|b| - 1];
    }
  }

  lemma CountJoined(c: int, below: seq<int>, rest: seq<int>, x: int)
    ensures Count([c] + below + rest, x) == (if x == c then 1 else 0) + Count(below, x) + Count(rest, x)
  {
    CountAppend([c], below, x);
    CountAppend([c] + below, rest, x);
  }

  /** Each item under the siblings is listed once, and no other. */
  lemma {:induction false} SubtreesCount(t: Tree, limit: nat, p: int, j: nat, x: int)
    requires WellFormed(t, limit) && 0 <= x < |t.parent| && 0 <= p < |t.parent| && j <= |t.children[p]|
    ensures Count(Subtrees(t, limit, p, j), x) == if Under(t, limit, x, p, j) then 1 else 0
    decreases limit - t.height[p], |t.children[p]| - j
  {
    if j < |t.children[p]| {
      ChildHeight(t, limit, p, j);
      var c := t.children[p][j];
      CountJoined(c, Subtrees(t, limit, c, 0), Subtrees(t, limit, p, j + 1), x);
      SubtreesCount(t, limit, c, 0, x);
      SubtreesCount(t, limit, p, j + 1, x);
      UnderSplit(t, limit, x, p, j);
    }
  }

  lemma UnderRoot(t: Tree, limit: nat, x: int)
    requires WellFormed(t, limit) && 0 <= x < |t.parent|
    ensures Under(t, limit, x, 0, 0) <==> x != 0 && Up(t, limit, x, t.height[0]) == Some(0)
  {
    var h := t.height[0];
    assert t.children[0][0..] == t.children[0];
    if t.height[x] > h {
      UpStep(t, limit, x, h);
      var y := Up(t, limit, x, h + 1);
      if y.Some? {
        assert y.value in t.children[0] <==> t.parent[y.value] == 0;
      }
    }
  }

  /** The walk visits exactly the root's descendants, each of them once. */
  lemma VisitsOnce(t: Tree, limit: nat, x: int)
    requires WellFormed(t, limit) && 0 <= x < |t.parent|
    ensures Count(Preorder(t, limit), x) == if Up(t, limit, x, t.height[0]) == Some(0) then 1 else 0
  {
    SubtreesCount(t, limit, 0, 0, x);
    UnderRoot(t, limit, x);
    CountJoined(0, Subtrees(t, limit, 0, 0), [], x);
    assert [0] + Subtrees(t, limit, 0, 0) + [] == Preorder(t, limit);
  }

  /** Every item of `s` has the parent `p` or one that is earlier in `s`. */
  predicate Rooted(parent: seq<int>, s: seq<int>, p: int) {
    forall k :: 0 <= k < |s| ==> 0 <= s[k] < |parent| && (parent[s[k]] == p || parent[s[k]] in s[..k])
  }

  lemma RootedJoin(parent: seq<int>, c: int, below: seq<int>, rest: seq<int>, p: int)
    requires 0 <= c < |parent| && parent[c] == p && Rooted(parent, below, c) && Rooted(parent, rest, p)
    ensures Rooted(parent, [c] + below + rest, p)
  {
    var s := [c] + below + rest;
    forall k | 0 <= k < |s|
      ensures 0 <= s[k] < |parent| && (parent[s[k]] == p || parent[s[k]] in s[..k])
    {
      if 0 < k <= |below| {
        assert s[k] == below[k - 1] && s[..k] == [c] + below[..k - 1];
      } else if k > |below| {
        var i := k - 1 - |below|;
        assert s[k] == rest[i] && s[..k] == [c] + below + rest[..i];
      }
    }
  }

  lemma {:induction false} SubtreesRooted(t: Tree, limit: nat, p: int, j: nat)
    requires WellFormed(t, limit) && 0 <= p < |t.parent| && j <= |t.children[p]|
    ensures Rooted(t.parent, Subtrees(t, limit, p, j), p)
    decreases limit - t.height[p], |t.children[p]| - j
  {
    if j < |t.children[p]| {
      ChildHeight(t, limit, p, j);
      var c := t.children[p][j];
      SubtreesRooted(t, limit, c, 0);
      SubtreesRooted(t, limit, p, j + 1);
      RootedJoin(t.parent, c, Subtrees(t, limit, c, 0), Subtrees(t, limit, p, j + 1), p);
    }
  }

  /** Parents come before their children. */
  lemma ParentsFirst(t: Tree, limit: nat, k: nat)
    requires WellFormed(t, limit) && 0 < k < |Preorder(t, limit)|
    ensures var s := Preorder(t, limit); t.parent[s[k]] in s[..k]
  {
    var s, rest := Preorder(t, limit), Subtrees(t, limit, 0, 0);
    SubtreesRooted(t, limit, 0, 0);
    assert s[k] == rest[k - 1] && s[..k] == [0] + rest[..k - 1];
  }

  // ---------------------------------------------------------------- items of blocks

  function Heights(blocks: seq<Block>): (hs: seq<nat>)
    ensures |hs| == |blocks| && forall i :: 0 <= i < |blocks| ==> hs[i] == blocks[i].height
  {
    seq(|blocks|, i requires 0 <= i < |blocks| => blocks[i].height)
  }

  /** All known blocks: valid, each once, with their predecessors. */
  ghost predicate Known(all: seq<Block>) {
    && (forall i, j :: 0 <= i < j < |all| ==> all[i] != all[j])
    && (forall b :: b in all ==> b.Valid() && (b.prev != null ==> b.prev in all))
  }

  /** Whether a block gets an item. */
  predicate Wanted(b: Block, root: Block, maxHeight: int) {
    root.height < b.height <= maxHeight
  }

  ghost predicate Collected(blocks: seq<Block>, root: Block, all: seq<Block>, maxHeight: int) {
    && |blocks| > 0 && blocks[0] == root
    && (forall i, j :: 0 <= i < j < |blocks| ==> blocks[i] != blocks[j])
    && (forall b :: b in blocks ==> b == root || (b in all && Wanted(b, root, maxHeight)))
    && (forall b :: b in all && Wanted(b, root, maxHeight) ==> b in blocks)
  }

  /** The first part of the constructor. */
  method Collect(root: Block, all: seq<Block>, maxHeight: int) returns (blocks: seq<Block>)
    requires Known(all)
    ensures Collected(blocks, root, all, maxHeight)
  {
    blocks := [root];
    for n := 0 to |all|
      invariant Collected(blocks, root, all[..n], maxHeight)
    {
      var b := all[n];
      assert all[..n + 1] == all[..n] + [b];
      assert b !in all[..n];
      if Wanted(b, root, maxHeight) {
        blocks := blocks + [b];
      }
    }
    assert all[..|all|] == all;
  }

  /** A map from blocks to their items. */
  method IndexItems(blocks: seq<Block>) returns (items: map<Block, int>)
    requires forall i, j :: 0 <= i < j < |blocks| ==> blocks[i] != blocks[j]
    ensures forall b :: b in items <==> b in blocks
    ensures forall b :: b in items ==> 0 <= items[b] < |blocks| && blocks[items[b]] == b
  {
    items := map[];
    for n := 0 to |blocks|
      invariant forall b :: b in items <==> b in blocks[..n]
      invariant forall b :: b in items ==> 0 <= items[b] < n && blocks[items[b]] == b
    {
      assert blocks[..n + 1] == blocks[..n] + [blocks[n]];
      items := items[blocks[n] := n];
    }
    assert blocks[..|blocks|] == blocks;
  }

  /** The first `n` items have been linked to the items of their predecessors. */
  ghost predicate LinkedUpTo(blocks: seq<Block>, parent: seq<int>, children: seq<seq<int>>, n: nat) {
    && |parent| == |children| == |blocks| && n <= |blocks|
    && (forall i :: 0 <= i < n && parent[i] != -1 ==> 0 <= parent[i] < |blocks| && blocks[i].prev == blocks[parent[i]])
    && (forall i :: 0 <= i < n && parent[i] == -1 ==> blocks[i].prev == null || blocks[i].prev !in blocks)
    && (forall i :: n <= i < |blocks| ==> parent[i] == -1)
    && (forall j, k :: 0 <= j < |children| && 0 <= k < |children[j]| ==>
         0 <= children[j][k] < n && parent[children[j][k]] == j)
    && (forall i :: 0 <= i < n && parent[i] != -1 ==> i in children[parent[i]])
    && (forall j :: 0 <= j < |children| ==> Distinct(children[j]))
  }

  /** Item_SetParent on item `n`, all before it being linked. */
  lemma LinkStep(blocks: seq<Block>, parent: seq<int>, children: seq<seq<int>>, n: nat, p: int)
    requires LinkedUpTo(blocks, parent, children, n) && n < |blocks| && 0 <= p < |blocks| && blocks[n].prev == blocks[p]
    ensures LinkedUpTo(blocks, parent[n := p], children[p := children[p] + [n]], n + 1)
  {
    var parent', children' := parent[n := p], children[p := children[p] + [n]];
    forall i | 0 <= i < n + 1 && parent'[i] != -1
      ensures i in children'[parent'[i]]
    {
      if i == n {
        assert children'[p][|children[p]|] == n;
      } else {
        var j := parent[i];
        assert i in children[j];
      }
    }
  }

  ghost function TreeOf(blocks: seq<Block>, parent: seq<int>, children: seq<seq<int>>): Tree {
    Tree(Heights(blocks), parent, children)
  }

  ghost function Limit(root: Block, maxHeight: int): nat {
    if maxHeight < root.height then root.height else maxHeight
  }

  lemma FinishedTree(blocks: seq<Block>, parent: seq<int>, children: seq<seq<int>>, root: Block, all: seq<Block>,
                     maxHeight: int)
    requires Known(all) && root in all && Collected(blocks, root, all, maxHeight)
             && LinkedUpTo(blocks, parent, children, |blocks|)
    ensures WellFormed(TreeOf(blocks, parent, children), Limit(root, maxHeight))
  {
    var t := TreeOf(blocks, parent, children);
    forall x | 0 <= x < |t.parent| && t.parent[x] != -1
      ensures t.height[x] == t.height[t.parent[x]] + 1
    {
      assert blocks[x] in blocks && blocks[x].Valid();
    }
    assert root.Valid();
    forall i | 0 <= i < |t.height|
      ensures root.height <= t.height[i] <= Limit(root, maxHeight)
    {
      assert blocks[i] in blocks;
    }
  }

  ghost predicate DescendsFrom(b: Block, root: Block)
    requires b.Valid()
  {
    b.height >= root.height && b.At(root.height) == root
  }

  /** Among the items, following parents is following predecessors. */
  lemma {:induction false} UpIsAncestor(blocks: seq<Block>, parent: seq<int>, children: seq<seq<int>>,
                                        root: Block, all: seq<Block>, maxHeight: int, i: nat)
    requires Known(all) && root in all && Collected(blocks, root, all, maxHeight)
             && LinkedUpTo(blocks, parent, children, |blocks|)
    requires i < |blocks| && blocks[i].Valid() && WellFormed(TreeOf(blocks, parent, children), Limit(root, maxHeight))
    ensures Up(TreeOf(blocks, parent, children), Limit(root, maxHeight), i, root.height) == Some(0)
            <==> DescendsFrom(blocks[i], root)
    decreases blocks[i].height
  {
    var b := blocks[i];
    assert b in blocks;
    if b.height > root.height {
      assert b in all && b.prev in all;
      if parent[i] != -1 {
        UpIsAncestor(blocks, parent, children, root, all, maxHeight, parent[i]);
      } else {
        assert b.prev !in blocks && blocks[0] in blocks;
        assert b.prev.height == root.height && b.prev != root;
        assert b.prev.At(root.height) == b.prev;
      }
    } else {
      assert b == root == blocks[0];
      assert i == 0;
    }
  }

  /** The tree of a block's descendants up to a height. */
  class DescendantTree {
    const root: Block
    ghost const all: seq<Block>
    const maxHeight: int
    var blocks: seq<Block>
    var parent: seq<int>
    var children: seq<seq<int>>

    ghost function Snapshot(): Tree
      reads this
    {
      TreeOf(blocks, parent, children)
    }

    ghost function Bound(): nat {
      Limit(root, maxHeight)
    }

    ghost predicate Valid()
      reads this
    {
      && Known(all) && root in all && Collected(blocks, root, all, maxHeight)
         && LinkedUpTo(blocks, parent, children, |blocks|)
      && WellFormed(Snapshot(), Bound())
    }

    constructor (root: Block, all: seq<Block>, maxHeight: int)
      requires Known(all) && root in all
      ensures Valid() && this.root == root && this.all == all && this.maxHeight == maxHeight
    {
      this.root, this.all, this.maxHeight := root, all, maxHeight;
      var found := Collect(root, all, maxHeight);
      blocks := found;
      parent := seq(|found|, i => -1);
      children := seq(|found|, i => []);
      new;
      LinkAll();
      FinishedTree(blocks, parent, children, root, all, maxHeight);
    }

    method LinkAll()
      requires LinkedUpTo(blocks, parent, children, 0)
      requires forall i, j :: 0 <= i < j < |blocks| ==> blocks[i] != blocks[j]
      requires forall b :: b in blocks ==> b.Valid()
      modifies this`parent, this`children
      ensures LinkedUpTo(blocks, parent, children, |blocks|)
    {
      var items := IndexItems(blocks);
      for n := 0 to |blocks|
        invariant LinkedUpTo(blocks, parent, children, n)
      {
        var prev := blocks[n].prev;
        assert blocks[n] in blocks;
        if prev != null && prev in items {
          LinkStep(blocks, parent, children, n, items[prev]);
          SetParent(n, items[prev]);
        }
      }
    }

    /** Item_SetParent, with its assertion as precondition. */
    method SetParent(i: nat, p: nat)
      requires i < |parent| == |children| && p < |children| && parent[i] == -1 && p != i
      modifies this`parent, this`children
      ensures parent == old(parent)[i := p] && children == old(children)[p := old(children)[p] + [i]]
    {
      parent := parent[i := p];
      children := children[p := children[p] + [i]];
    }

    /** Item::Next, climbing in a loop. */
    method NextItem(x: nat) returns (r: Option<int>)
      requires Valid() && x < |parent|
      ensures r == Next(Snapshot(), Bound(), x)
    {
      if children[x] != [] {
        return Some(children[x][0]);
      }
      var item, p := x, parent[x];
      while p != -1
        invariant 0 <= item < |parent| && p == parent[item]
        invariant After(Snapshot(), Bound(), x) == After(Snapshot(), Bound(), item)
        decreases blocks[item].height
      {
        assert item in children[p];
        var k := IndexOf(children[p], item);
        if k + 1 < |children[p]| {
          return Some(children[p][k + 1]);
        }
        assert Snapshot().height[item] == Snapshot().height[p] + 1;
        item, p := p, parent[p];
      }
      return None;
    }
  }

  /** The blocks visited are exactly the descendants up to the height. */
  lemma VisitedExactly(d: DescendantTree, b: Block)
    requires d.Valid() && b in d.all
    ensures (exists k ::
            0 <= k < |Preorder(d.Snapshot(), d.Bound())| && d.blocks[Preorder(d.Snapshot(), d.Bound())[k]] == b)
            <==> DescendsFrom(b, d.root) && (b == d.root || b.height <= d.maxHeight)
  {
    var s := Preorder(d.Snapshot(), d.Bound());
    if k :| 0 <= k < |s| && d.blocks[s[k]] == b {
      InPreorder(d, s[k]);
      CountIn(s, s[k]);
      assert b in d.blocks;
    }
    if DescendsFrom(b, d.root) && (b == d.root || b.height <= d.maxHeight) {
      assert b in d.blocks;
      var i :| 0 <= i < |d.blocks| && d.blocks[i] == b;
      InPreorder(d, i);
      CountIn(s, i);
    }
  }

  lemma InPreorder(d: DescendantTree, i: nat)
    requires d.Valid() && i < |d.blocks|
    ensures d.blocks[i].Valid()
    ensures Count(Preorder(d.Snapshot(), d.Bound()), i) == if DescendsFrom(d.blocks[i], d.root) then 1 else 0
  {
    assert d.blocks[i] in d.blocks;
    VisitsOnce(d.Snapshot(), d.Bound(), i);
    UpIsAncestor(d.blocks, d.parent, d.children, d.root, d.all, d.maxHeight, i);
  }

  lemma {:induction false} CountIn(s: seq<int>, x: int)
    ensures Count(s, x) > 0 <==> x in s
  {
    if s != [] {
      CountIn(s[..|s| - 1], x);
      assert s == s[..|s| - 1] + [s[|s| - 1]];
    }
  }
}