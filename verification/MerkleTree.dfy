/**
 The incremental Merkle tree: levels of complete pairs that grow leaf by leaf, the merging of subtrees computed
 apart, and the root that duplicates the last node of odd levels.

 The double hash `h` is a parameter. The root computation uses the null hash as "no node", so it needs an `h`
 that never returns null.
 */
module MerkleTree {
  import opened Powers
  import PMT = PartialMerkleTree

  type Hash = PMT.Hash
  type Combine = PMT.Combine
  type Levels = seq<seq<Hash>>

  // ---------------------------------------------------------------- what the levels should be

  /** The hashes of the complete pairs of a level. */
  function Up(h: Combine, level: seq<Hash>): seq<Hash> {
    seq(|level| / 2, i requires 0 <= i < |level| / 2 => h(level[2 * i], level[2 * i + 1]))
  }

  /** All non-empty levels, each with half of the nodes of the one below, rounded down. */
  function LevelsOf(h: Combine, leaves: seq<Hash>): Levels
    decreases |leaves|
  {
    if leaves == [] then [] else [leaves] + LevelsOf(h, Up(h, leaves))
  }

  lemma UpAppend(h: Combine, level: seq<Hash>, x: Hash)
    ensures Up(h, level + [x]) == Up(h, level) + if |level| % 2 == 1 then [h(level[|level| - 1], x)] else []
  {
    assert |level + [x]| / 2 == |level| / 2 + |level| % 2;
  }

  lemma UpConcat(h: Combine, a: seq<Hash>, b: seq<Hash>)
    requires |a| % 2 == 0
    ensures Up(h, a + b) == Up(h, a) + Up(h, b)
  {
    var u, v := Up(h, a + b), Up(h, a) + Up(h, b);
    assert |u| == |v|;
    forall i | 0 <= i < |u|
      ensures u[i] == v[i]
    {
      if i >= |a| / 2 {
        assert (a + b)[2 * i] == b[2 * (i - |a| / 2)] && (a + b)[2 * i + 1] == b[2 * (i - |a| / 2) + 1];
      }
    }
  }

  /** Level `k` has `n / 2^k` nodes. */
  lemma {:induction false} LevelSize(h: Combine, leaves: seq<Hash>, k: nat)
    requires k < |LevelsOf(h, leaves)|
    ensures |LevelsOf(h, leaves)[k]| == |leaves| / Pow2(k)
    decreases k
  {
    if k > 0 {
      var up := Up(h, leaves);
      assert LevelsOf(h, leaves)[k] == LevelsOf(h, up)[k - 1];
      LevelSize(h, up, k - 1);
      HalfOfHalf(|leaves|, Pow2(k - 1));
    }
  }

  lemma HalfOfHalf(n: nat, p: nat)
    requires p > 0
    ensures n / 2 / p == n / (2 * p)
  {
    var q := n / (2 * p);
    var r := n - q * (2 * p);
    assert 0 <= r < 2 * p;
    assert n / 2 == q * p + r / 2;
    DivModUnique(n / 2, q, r / 2, p);
  }

  // ---------------------------------------------------------------- adding one node

  /** AddNodeAtLevel, from the level it is called on. */
  function Add(h: Combine, levels: Levels, x: Hash): Levels {
    if levels == [] then [[x]]
    else if |levels[0]| % 2 == 1 then [levels[0] + [x]] + Add(h, levels[1..], h(levels[0][|levels[0]| - 1], x))
    else [levels[0] + [x]] + levels[1..]
  }

  /** Adding a leaf to the levels of a list gives the levels of the longer list. */
  lemma {:induction false} AddIsAppend(h: Combine, leaves: seq<Hash>, x: Hash)
    ensures Add(h, LevelsOf(h, leaves), x) == LevelsOf(h, leaves + [x])
    decreases |leaves|
  {
    UpAppend(h, leaves, x);
    if leaves == [] {
      assert Up(h, [x]) == [];
      assert LevelsOf(h, [x]) == [[x]] + LevelsOf(h, Up(h, [x]));
      assert [] + [x] == [x];
    } else {
      var up := Up(h, leaves);
      assert LevelsOf(h, leaves)[1..] == LevelsOf(h, up);
      if |leaves| % 2 == 1 {
        AddIsAppend(h, up, h(leaves[|leaves| - 1], x));
      } else {
        assert up + [] == up;
      }
    }
  }

  // ---------------------------------------------------------------- merging

  /** MergeSubTree: concatenate below the subtree's top, add its top node. */
  function Merge(h: Combine, tree: Levels, sub: Levels): Levels
    requires 1 <= |sub| <= |tree| && sub[|sub| - 1] != []
  {
    if |sub| == 1 then Add(h, tree, sub[0][|sub[0]| - 1])
    else [tree[0] + sub[0]] + Merge(h, tree[1..], sub[1..])
  }

  /** `n` is divisible by `2^(height - 1)`. */
  predicate Aligned(n: nat, height: nat) {
    height <= 1 || (n % 2 == 0 && Aligned(n / 2, height - 1))
  }

  lemma {:induction false} TopIsSingle(h: Combine, leaves: seq<Hash>)
    requires leaves != []
    ensures var l := LevelsOf(h, leaves); l != [] && |l[|l| - 1]| == 1 && (|l| == 1 <==> |leaves| == 1)
    decreases |leaves|
  {
    var up := Up(h, leaves);
    if up != [] {
      TopIsSingle(h, up);
    } else {
      assert LevelsOf(h, leaves) == [leaves];
    }
  }

  /** Merging the subtree of `b` into the tree of an aligned `a` gives the levels of `a + b`. */
  lemma {:induction false} MergeIsConcat(h: Combine, a: seq<Hash>, b: seq<Hash>)
    requires b != [] && |LevelsOf(h, b)| <= |LevelsOf(h, a)| && Aligned(|a|, |LevelsOf(h, b)|)
    ensures var sub := LevelsOf(h, b);
            sub != [] && sub[|sub| - 1] != [] && Merge(h, LevelsOf(h, a), sub) == LevelsOf(h, a + b)
    decreases |b|
  {
    TopIsSingle(h, b);
    var sub := LevelsOf(h, b);
    if |sub| == 1 {
      AddIsAppend(h, a, b[0]);
      assert a + b == a + [b[0]];
    } else {
      UpConcat(h, a, b);
      var ua, ub := Up(h, a), Up(h, b);
      assert sub[1..] == LevelsOf(h, ub) && LevelsOf(h, a)[1..] == LevelsOf(h, ua);
      assert ub != [];
      MergeIsConcat(h, ua, ub);
    }
  }

  /** Number of levels over `n` leaves. */
  function Height(n: nat): nat {
    if n == 0 then 0 else 1 + Height(n / 2)
  }

  lemma {:induction false} LevelCount(h: Combine, leaves: seq<Hash>)
    ensures |LevelsOf(h, leaves)| == Height(|leaves|)
    decreases |leaves|
  {
    if leaves != [] {
      LevelCount(h, Up(h, leaves));
    }
  }

  /** Enough room and alignment: every batch has `m <= 2^p` leaves and follows `k` full ones. */
  lemma {:induction false} BatchFits(m: nat, p: nat, k: nat)
    requires 0 < m <= Pow2(p) && k > 0
    ensures Height(m) <= Height(k * Pow2(p)) && Aligned(k * Pow2(p), Height(m))
    decreases p
  {
    MulMono(1, k, Pow2(p));
    if m > 1 {
      Halve(k, m, p);
      BatchFits(m / 2, p - 1, k);
    } else {
      assert Height(m) == 1;
    }
  }

  lemma Halve(k: nat, m: nat, p: nat)
    requires 1 < m <= Pow2(p)
    ensures p > 0 && (k * Pow2(p)) % 2 == 0 && (k * Pow2(p)) / 2 == k * Pow2(p - 1) && m / 2 <= Pow2(p - 1)
  {
    assert k * Pow2(p) == 2 * (k * Pow2(p - 1));
  }

  // ---------------------------------------------------------------- the root

  /** One level up when the last node of an odd level is paired with itself. */
  function UpDup(h: Combine, level: seq<Hash>): seq<Hash> {
    Up(h, if |level| % 2 == 1 then level + [level[|level| - 1]] else level)
  }

  /** The recursive definition of the Merkle root. */
  function RootOf(h: Combine, level: seq<Hash>): Hash
    decreases |level|
  {
    if level == [] then PMT.NULL_HASH else if |level| == 1 then level[0] else RootOf(h, UpDup(h, level))
  }

  ghost predicate NeverNull(h: Combine) {
    forall a, b :: h(a, b) != PMT.NULL_HASH
  }

  /** CalculateMissingParentNode on a level, given the extra node to its right (null: none). */
  function MissingParent(h: Combine, level: seq<Hash>, extra: Hash): Hash
    requires level != []
  {
    var last := level[|level| - 1];
    if extra != PMT.NULL_HASH then
      if |level| % 2 == 1 then h(last, extra) else h(extra, extra)
    else if |level| > 1 && |level| % 2 == 1 then h(last, last)
    else extra
  }

  function Completed(level: seq<Hash>, extra: Hash): seq<Hash> {
    if extra != PMT.NULL_HASH then level + [extra] else level
  }

  /** GetMerkleRoot's pass over the remaining levels. */
  function Climb(h: Combine, levels: Levels, extra: Hash): Hash
    requires forall k :: 0 <= k < |levels| ==> levels[k] != []
  {
    if levels == [] then extra else Climb(h, levels[1..], MissingParent(h, levels[0], extra))
  }

  /** One step of the pass climbs one level of the completed tree. */
  lemma ClimbStep(h: Combine, level: seq<Hash>, extra: Hash)
    requires level != [] && NeverNull(h) && |Completed(level, extra)| > 1
    ensures Completed(Up(h, level), MissingParent(h, level, extra)) == UpDup(h, Completed(level, extra))
  {
    var full := Completed(level, extra);
    if extra != PMT.NULL_HASH {
      UpAppend(h, level, extra);
      UpAppend(h, full, extra);
      if |level| % 2 == 1 {
        assert full == level + [extra];
      } else {
        assert full[|full| - 1] == extra;
        assert Up(h, level) + [] == Up(h, level);
      }
    } else {
      UpAppend(h, level, level[|level| - 1]);
    }
  }

  lemma {:induction false} LevelsNonEmpty(h: Combine, leaves: seq<Hash>)
    ensures forall k :: 0 <= k < |LevelsOf(h, leaves)| ==> LevelsOf(h, leaves)[k] != []
    decreases |leaves|
  {
    if leaves != [] {
      LevelsNonEmpty(h, Up(h, leaves));
    }
  }

  /** The pass ends in the recursive root, or finds nothing missing under a single top node. */
  lemma {:induction false} ClimbIsRoot(h: Combine, level: seq<Hash>, extra: Hash)
    requires level != [] && NeverNull(h)
    ensures var levels := LevelsOf(h, level);
            && levels != []
            && (forall k :: 0 <= k < |levels| ==> levels[k] != [])
            && (var r := Climb(h, levels, extra);
                var top := levels[|levels| - 1];
                (if r != PMT.NULL_HASH then r else top[|top| - 1]) == RootOf(h, Completed(level, extra)))
    decreases |level|
  {
    LevelsNonEmpty(h, level);
    var levels, up := LevelsOf(h, level), Up(h, level);
    var extra' := MissingParent(h, level, extra);
    assert levels[1..] == LevelsOf(h, up);
    if |Completed(level, extra)| > 1 {
      ClimbStep(h, level, extra);
      if up != [] {
        ClimbIsRoot(h, up, extra');
      } else {
        assert Climb(h, levels, extra) == extra';
        assert Completed(up, extra') == [extra'];
      }
    } else {
      assert up == [];
      assert Climb(h, levels, extra) == extra';
    }
  }

  // ---------------------------------------------------------------- agreement with the partial tree

  lemma UpDupAt(h: Combine, level: seq<Hash>, i: nat)
    requires i < |UpDup(h, level)|
    ensures |UpDup(h, level)| == (|level| + 1) / 2
    ensures UpDup(h, level)[i] == h(level[2 * i], if 2 * i + 1 < |level| then level[2 * i + 1] else level[2 * i])
  {
  }

  /** A level of the tree with duplication holds the hashes that CPartialMerkleTree computes top down. */
  predicate IsLevel(h: Combine, leaves: seq<Hash>, height: nat, level: seq<Hash>) {
    && |level| == PMT.Width(|leaves|, height)
    && forall i :: 0 <= i < |level| ==> level[i] == PMT.CalcHash(h, leaves, height, i)
  }

  lemma NextLevel(h: Combine, leaves: seq<Hash>, height: nat, level: seq<Hash>)
    requires IsLevel(h, leaves, height, level)
    ensures IsLevel(h, leaves, height + 1, UpDup(h, level))
  {
    forall i | 0 <= i < |UpDup(h, level)|
      ensures UpDup(h, level)[i] == PMT.CalcHash(h, leaves, height + 1, i)
    {
      UpDupAt(h, level, i);
    }
  }

  lemma {:induction false} RootsAgreeFrom(h: Combine, leaves: seq<Hash>, height: nat, level: seq<Hash>)
    requires leaves != [] && level != [] && IsLevel(h, leaves, height, level)
    requires PMT.TreeHeightFrom(|leaves|, height) == PMT.TreeHeight(|leaves|)
    ensures RootOf(h, level) == PMT.Root(h, leaves)
    decreases |level|
  {
    if |level| > 1 {
      NextLevel(h, leaves, height, level);
      RootsAgreeFrom(h, leaves, height + 1, UpDup(h, level));
    }
  }

  /** Both Merkle structures compute the same root. */
  lemma RootsAgree(h: Combine, leaves: seq<Hash>)
    requires leaves != []
    ensures RootOf(h, leaves) == PMT.Root(h, leaves)
  {
    RootsAgreeFrom(h, leaves, 0, leaves);
  }

  // ---------------------------------------------------------------- the object itself

  /** The lowest `t` levels of two trees, concatenated level by level. */
  function Zipped(tree: Levels, sub: Levels, t: nat): (z: Levels)
    requires t <= |tree| && t <= |sub|
    ensures |z| == t && forall k :: 0 <= k < t ==> z[k] == tree[k] + sub[k]
  {
    seq(t, k requires 0 <= k < t => tree[k] + sub[k])
  }

  /** The levels below the subtree's top are concatenated, the rest is Add. */
  lemma {:induction false} MergeShape(h: Combine, tree: Levels, sub: Levels)
    requires 1 <= |sub| <= |tree| && sub[|sub| - 1] != []
    ensures var t, top := |sub| - 1, sub[|sub| - 1];
            Merge(h, tree, sub) == Zipped(tree, sub, t) + Add(h, tree[t..], top[|top| - 1])
  {
    var t := |sub| - 1;
    if t == 0 {
      assert tree[0..] == tree;
    } else {
      MergeShape(h, tree[1..], sub[1..]);
      assert tree[1..][t - 1..] == tree[t..];
      assert Zipped(tree, sub, t) == [tree[0] + sub[0]] + Zipped(tree[1..], sub[1..], t - 1);
    }
  }

  lemma ConcatOne(tree: Levels, sub: Levels, z: Levels, tail: Levels, c: nat)
    requires c < |z| <= |tree| && c < |sub| && z[c] == tree[c] + sub[c]
    ensures var before, after := tree[..c + 1] + z[c + 1..] + tail, tree[..c] + z[c..] + tail;
            before[c] == tree[c] && before[c := tree[c] + sub[c]] == after
  {
    assert tree[..c + 1] == tree[..c] + [tree[c]] && z[c..] == [z[c]] + z[c + 1..];
  }

  /** One leaf-by-leaf pass, as a batch task runs it. */
  method BuildLevels(h: Combine, ids: seq<Hash>) returns (tree: Tree)
    ensures fresh(tree) && tree.h == h && tree.levels == LevelsOf(h, ids)
  {
    tree := new Tree(h);
    tree.AddAll(ids);
  }

  class Tree {
    const h: Combine
    var levels: Levels

    constructor (h: Combine)
      ensures this.h == h && levels == []
    {
      this.h := h;
      levels := [];
    }

    method AddNodeAtLevel(hash: Hash, level: nat)
      requires level <= |levels|
      modifies this
      ensures levels == old(levels)[..level] + Add(h, old(levels)[level..], hash)
    {
      var currentNode, current := hash, level;
      while current < |levels|
        invariant level <= current <= |levels| == |old(levels)|
        invariant levels[current..] == old(levels)[current..]
        invariant old(levels)[..level] + Add(h, old(levels)[level..], hash)
                  == levels[..current] + Add(h, levels[current..], currentNode)
      {
        var nodes := levels[current];
        ghost var rest := levels[current..];
        assert rest[1..] == levels[current + 1..];
        if |nodes| % 2 == 1 {
          var right := currentNode;
          currentNode := h(nodes[|nodes| - 1], right);
          levels := levels[current := nodes + [right]];
        } else {
          levels := levels[current := nodes + [currentNode]];
          return;
        }
        current := current + 1;
      }
      levels := levels + [[currentNode]];
    }

    method AddAll(ids: seq<Hash>)
      requires levels == []
      modifies this
      ensures levels == LevelsOf(h, ids)
    {
      for i := 0 to |ids|
        invariant levels == LevelsOf(h, ids[..i])
      {
        AddIsAppend(h, ids[..i], ids[i]);
        assert ids[..i + 1] == ids[..i] + [ids[i]];
        assert levels[0..] == levels && levels[..0] == [];
        AddNodeAtLevel(ids[i], 0);
      }
      assert ids[..|ids|] == ids;
    }

    /** Refuses exactly the subtree that is higher than the tree. */
    method MergeSubTree(sub: Levels) returns (ok: bool)
      requires sub != [] && sub[|sub| - 1] != []
      modifies this
      ensures ok <==> |sub| <= |old(levels)|
      ensures levels == if ok then Merge(h, old(levels), sub) else old(levels)
    {
      if |levels| < |sub| {
        return false;
      }
      var top := |sub| - 1;
      ghost var tree := levels;
      ghost var z := Zipped(tree, sub, top);
      AddNodeAtLevel(sub[top][|sub[top]| - 1], top);
      ghost var tail := Add(h, tree[top..], sub[top][|sub[top]| - 1]);
      var current := top;
      while current > 0
        invariant 0 <= current <= top
        invariant levels == tree[..current] + z[current..] + tail
      {
        current := current - 1;
        ConcatOne(tree, sub, z, tail, current);
        levels := levels[current := levels[current] + sub[current]];
      }
      MergeShape(h, tree, sub);
      ok := true;
    }

    /** GetMerkleRoot on the levels of any list of ids. */
    method GetMerkleRoot(ghost leaves: seq<Hash>) returns (root: Hash)
      requires NeverNull(h) && levels == LevelsOf(h, leaves)
      ensures root == RootOf(h, leaves)
    {
      if levels == [] {
        return PMT.NULL_HASH;
      }
      ClimbIsRoot(h, leaves, PMT.NULL_HASH);
      var missing := PMT.NULL_HASH;
      for current := 0 to |levels|
        invariant Climb(h, levels[current..], missing) == Climb(h, levels, PMT.NULL_HASH)
      {
        assert levels[current..][1..] == levels[current + 1..];
        missing := MissingParent(h, levels[current], missing);
      }
      if missing != PMT.NULL_HASH {
        return missing;
      }
      var top := levels[|levels| - 1];
      root := top[|top| - 1];
    }
  }

  // ---------------------------------------------------------------- batches

  /** The batch size: the first `4096 * 2^i` with which `threads` batches cover all leaves. */
  method PowerOfTwoBatch(threads: nat, n: nat) returns (batch: nat, ghost p: nat)
    requires threads >= 1
    ensures batch == Pow2(p) && batch >= 0x1000 && batch * threads >= n
    ensures batch > 0x1000 ==> (batch / 2) * threads < n
  {
    batch, p := 0x1000, 12;
    assert Pow2(12) == 0x1000 by {
      assert Pow2(4) == 16;
      assert Pow2(8) == 256;
    }
    while batch * threads < n
      invariant batch == Pow2(p) && batch >= 0x1000
      invariant batch > 0x1000 ==> (batch / 2) * threads < n
      decreases n - batch
    {
      MulMono(1, threads, batch);
      batch, p := 2 * batch, p + 1;
    }
  }

  /** The end of the batch that starts at `begin`. */
  function BatchEnd(begin: nat, size: nat, n: nat): nat {
    if begin + size < n then begin + size else n
  }

  /** One more batch: its subtree is not refused, and merging it extends the prefix covered so far. */
  lemma MergeBatch(h: Combine, ids: seq<Hash>, begin: nat, size: nat, p: nat, k: nat)
    requires size == Pow2(p) && k > 0 && begin == k * size && begin < |ids|
    ensures var sub := LevelsOf(h, ids[begin..BatchEnd(begin, size, |ids|)]);
            && 1 <= |sub| <= |LevelsOf(h, ids[..begin])| && sub[|sub| - 1] != []
            && Merge(h, LevelsOf(h, ids[..begin]), sub) == LevelsOf(h, ids[..BatchEnd(begin, size, |ids|)])
  {
    var end := BatchEnd(begin, size, |ids|);
    BatchFits(end - begin, p, k);
    MergeAligned(h, ids, begin, end);
  }

  lemma MergeAligned(h: Combine, ids: seq<Hash>, begin: nat, end: nat)
    requires begin < end <= |ids| && Height(end - begin) <= Height(begin) && Aligned(begin, Height(end - begin))
    ensures var sub := LevelsOf(h, ids[begin..end]);
            && 1 <= |sub| <= |LevelsOf(h, ids[..begin])| && sub[|sub| - 1] != []
            && Merge(h, LevelsOf(h, ids[..begin]), sub) == LevelsOf(h, ids[..end])
  {
    var a, b := ids[..begin], ids[begin..end];
    LevelCount(h, a);
    LevelCount(h, b);
    MergeIsConcat(h, a, b);
    assert a + b == ids[..end];
  }

  /** `subs` are the subtrees of the consecutive batches that cover `from..to`. */
  ghost predicate AreBatches(h: Combine, ids: seq<Hash>, size: nat, from: nat, to: nat, subs: seq<Levels>)
    decreases |subs|
  {
    if subs == [] then from == to
    else from < |ids| && subs[0] == LevelsOf(h, ids[from..BatchEnd(from, size, |ids|)])
         && AreBatches(h, ids, size, BatchEnd(from, size, |ids|), to, subs[1..])
  }

  lemma {:induction false} OneMoreBatch(h: Combine, ids: seq<Hash>, size: nat, from: nat, to: nat, subs: seq<Levels>)
    requires AreBatches(h, ids, size, from, to, subs) && to < |ids|
    ensures var end := BatchEnd(to, size, |ids|);
            AreBatches(h, ids, size, from, end, subs + [LevelsOf(h, ids[to..end])])
    decreases |subs|
  {
    var more := subs + [LevelsOf(h, ids[to..BatchEnd(to, size, |ids|)])];
    if subs == [] {
      assert more[1..] == [];
    } else {
      OneMoreBatch(h, ids, size, BatchEnd(from, size, |ids|), to, subs[1..]);
      assert more[1..] == subs[1..] + [LevelsOf(h, ids[to..BatchEnd(to, size, |ids|)])];
    }
  }

  /** `done` leaves are whole batches, or all leaves. */
  predicate Covered(done: nat, size: nat, k: nat, n: nat) {
    done <= n && k > 0 && (done < n ==> done == k * size)
  }

  lemma CoverNext(done: nat, size: nat, k: nat, n: nat)
    requires Covered(done, size, k, n) && done < n
    ensures Covered(BatchEnd(done, size, n), size, k + 1, n)
  {
    assert (k + 1) * size == k * size + size;
  }

  lemma NextBatch(h: Combine, ids: seq<Hash>, size: nat, done: nat, subs: seq<Levels>, i: nat)
    requires i < |subs| && AreBatches(h, ids, size, done, |ids|, subs[i..])
    ensures done < |ids| && subs[i] == LevelsOf(h, ids[done..BatchEnd(done, size, |ids|)])
    ensures AreBatches(h, ids, size, BatchEnd(done, size, |ids|), |ids|, subs[i + 1..])
  {
    assert subs[i..][1..] == subs[i + 1..];
  }

  /** Merges one batch; it is not refused. */
  method MergeOne(tree: Tree, ids: seq<Hash>, size: nat, ghost p: nat, ghost done: nat, ghost k: nat, sub: Levels)
    requires size == Pow2(p) && done < |ids| && Covered(done, size, k, |ids|)
    requires tree.levels == LevelsOf(tree.h, ids[..done])
             && sub == LevelsOf(tree.h, ids[done..BatchEnd(done, size, |ids|)])
    modifies tree
    ensures tree.levels == LevelsOf(tree.h, ids[..BatchEnd(done, size, |ids|)])
  {
    MergeBatch(tree.h, ids, done, size, p, k);
    var ok := tree.MergeSubTree(sub);
    assert ok;
  }

  /** Merges the batch subtrees in order; none of them is refused. */
  method MergeAll(tree: Tree, ids: seq<Hash>, size: nat, ghost p: nat, subs: seq<Levels>)
    requires size == Pow2(p) && size <= |ids|
    requires tree.levels == LevelsOf(tree.h, ids[..size]) && AreBatches(tree.h, ids, size, size, |ids|, subs)
    modifies tree
    ensures tree.levels == LevelsOf(tree.h, ids)
  {
    ghost var done: nat, k: nat := size, 1;
    for i := 0 to |subs|
      invariant Covered(done, size, k, |ids|) && AreBatches(tree.h, ids, size, done, |ids|, subs[i..])
      invariant tree.levels == LevelsOf(tree.h, ids[..done])
    {
      NextBatch(tree.h, ids, size, done, subs, i);
      CoverNext(done, size, k, |ids|);
      MergeOne(tree, ids, size, p, done, k, subs[i]);
      done, k := BatchEnd(done, size, |ids|), k + 1;
    }
    assert ids[..done] == ids;
  }

  /** CalculateMerkleTree splits, builds every batch apart and merges them: the result is the sequential tree. */
  method CalculateMerkleTree(h: Combine, ids: seq<Hash>, threads: nat) returns (tree: Tree)
    requires threads >= 1
    ensures fresh(tree) && tree.h == h && tree.levels == LevelsOf(h, ids)
  {
    var size, p := PowerOfTwoBatch(threads, |ids|);
    var first := if size < |ids| then size else |ids|;
    var subs := BatchTasks(h, ids, first);
    tree := BuildLevels(h, ids[..first]);
    if first < |ids| {
      MergeAll(tree, ids, size, p, subs);
    } else {
      assert ids[..first] == ids;
    }
  }

  /** The futures: one subtree for each batch behind the first. */
  method BatchTasks(h: Combine, ids: seq<Hash>, size: nat) returns (subs: seq<Levels>)
    requires size <= |ids| && (ids != [] ==> size > 0)
    ensures AreBatches(h, ids, size, size, |ids|, subs)
  {
    subs := [];
    var begin := size;
    while begin < |ids|
      invariant size <= begin <= |ids| && AreBatches(h, ids, size, size, begin, subs)
      decreases |ids| - begin
    {
      var end := BatchEnd(begin, size, |ids|);
      var task := BuildLevels(h, ids[begin..end]);
      OneMoreBatch(h, ids, size, size, begin, subs);
      subs := subs + [task.levels];
      begin := end;
    }
  }

  /** The root of a block, computed in batches: the same for every number of threads, and the recursive one. */
  method ParallelRoot(h: Combine, ids: seq<Hash>, threads: nat) returns (root: Hash)
    requires threads >= 1 && NeverNull(h)
    ensures root == RootOf(h, ids) && (ids != [] ==> root == PMT.Root(h, ids))
  {
    var tree := CalculateMerkleTree(h, ids, threads);
    root := tree.GetMerkleRoot(ids);
    if ids != [] {
      RootsAgree(h, ids);
    }
  }
}
