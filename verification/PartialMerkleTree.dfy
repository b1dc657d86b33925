/**
 Partial Merkle trees (BIP 37): the depth-first encoding of which transactions of a block match, its packing
 into bytes, and the authenticated extraction.

 The double hash of two nodes is a parameter `h`; where a result needs it, `h` is assumed injective.
 */
module PartialMerkleTree {
  import opened ByteBits
  import opened Powers

  type Hash = int

  /** `uint256()`. */
  const NULL_HASH: Hash := 0

  type Combine = (Hash, Hash) -> Hash

  ghost predicate Injective(h: Combine) {
    forall a, b, c, d :: h(a, b) == h(c, d) ==> a == c && b == d
  }

  predicate Distinct(txids: seq<Hash>) {
    forall i, j :: 0 <= i < j < |txids| ==> txids[i] != txids[j]
  }

  // ---------------------------------------------------------------- shape of the tree

  /** Number of nodes at a height: each level has half of the one below, rounded up. */
  function Width(n: nat, height: nat): nat {
    if height == 0 then n else (Width(n, height - 1) + 1) / 2
  }

  /** The code's closed form. */
  function CalcTreeWidth(n: nat, height: nat): nat {
    (n + Pow2(height) - 1) / Pow2(height)
  }

  /** First leaf under a node. */
  function Lo(height: nat, pos: nat): nat {
    if height == 0 then pos else Lo(height - 1, 2 * pos)
  }

  /** One past the last leaf under a node. */
  function Hi(n: nat, height: nat, pos: nat): nat {
    if height == 0 then pos + 1
    else if 2 * pos + 1 < Width(n, height - 1) then Hi(n, height - 1, 2 * pos + 1)
    else Hi(n, height - 1, 2 * pos)
  }

  /** The leaves of neighbours are neighbours, and a node that exists covers at least one leaf. */
  lemma {:induction false} Ranges(n: nat, height: nat, pos: nat)
    requires pos < Width(n, height)
    ensures Lo(height, pos) < Hi(n, height, pos) <= n
    ensures pos + 1 < Width(n, height) ==> Hi(n, height, pos) == Lo(height, pos + 1)
    ensures pos + 1 == Width(n, height) ==> Hi(n, height, pos) == n
  {
    if height > 0 {
      Ranges(n, height - 1, 2 * pos);
      if 2 * pos + 1 < Width(n, height - 1) {
        Ranges(n, height - 1, 2 * pos + 1);
      }
    }
  }

  lemma {:induction false} LoClosedForm(height: nat, pos: nat)
    ensures Lo(height, pos) == pos * Pow2(height)
  {
    if height > 0 {
      LoClosedForm(height - 1, 2 * pos);
    }
  }

  /** A node exists exactly if its first leaf does. */
  lemma {:induction false} InWidth(n: nat, height: nat, pos: nat)
    ensures pos < Width(n, height) <==> pos * Pow2(height) < n
  {
    if height > 0 {
      InWidth(n, height - 1, 2 * pos);
    }
  }

  /** The bounds of the code's scan for a match. */
  lemma RangeClosedForm(n: nat, height: nat, pos: nat)
    requires pos < Width(n, height)
    ensures Lo(height, pos) == pos * Pow2(height)
    ensures var end := (pos + 1) * Pow2(height);
            Hi(n, height, pos) == if end < n then end else n
  {
    Ranges(n, height, pos);
    LoClosedForm(height, pos);
    LoClosedForm(height, pos + 1);
    InWidth(n, height, pos + 1);
  }

  lemma WidthClosedForm(n: nat, height: nat)
    ensures CalcTreeWidth(n, height) == Width(n, height)
  {
    var p, w, c := Pow2(height), Width(n, height), CalcTreeWidth(n, height);
    assert c * p <= n + p - 1 < c * p + p;
    InWidth(n, height, c);
    if c > 0 {
      InWidth(n, height, c - 1);
      assert (c - 1) * p == c * p - p;
    }
  }

  /** The height at which one node is left. */
  function TreeHeightFrom(n: nat, height: nat): (r: nat)
    ensures Width(n, r) <= 1
    decreases Width(n, height)
  {
    if Width(n, height) <= 1 then height else TreeHeightFrom(n, height + 1)
  }

  function TreeHeight(n: nat): (r: nat)
    ensures Width(n, r) <= 1
  {
    TreeHeightFrom(n, 0)
  }

  method ComputeHeight(n: nat) returns (height: nat)
    ensures height == TreeHeight(n)
  {
    height := 0;
    WidthClosedForm(n, height);
    while CalcTreeWidth(n, height) > 1
      invariant CalcTreeWidth(n, height) == Width(n, height)
      invariant TreeHeightFrom(n, height) == TreeHeight(n)
      decreases Width(n, height)
    {
      height := height + 1;
      WidthClosedForm(n, height);
    }
  }

  /** The root exists: a non-empty block leaves one node, not none. */
  lemma RootExists(n: nat, height: nat)
    requires n > 0
    ensures 0 < Width(n, height)
  {
    InWidth(n, height, 0);
  }

  // ---------------------------------------------------------------- hashes of the full tree

  function CalcHash(h: Combine, txids: seq<Hash>, height: nat, pos: nat): Hash
    requires pos < Width(|txids|, height)
  {
    if height == 0 then txids[pos]
    else
      var left := CalcHash(h, txids, height - 1, 2 * pos);
      var right := if 2 * pos + 1 < Width(|txids|, height - 1) then CalcHash(h, txids, height - 1, 2 * pos + 1)
          else left;
      h(left, right)
  }

  /** With distinct leaves, the nodes of one level are distinct. */
  lemma {:induction false} LevelDistinct(h: Combine, txids: seq<Hash>, height: nat, p: nat, q: nat)
    requires Injective(h) && Distinct(txids) && p < Width(|txids|, height) && q < Width(|txids|, height)
    requires CalcHash(h, txids, height, p) == CalcHash(h, txids, height, q)
    ensures p == q
  {
    if height > 0 {
      LevelDistinct(h, txids, height - 1, 2 * p, 2 * q);
    }
  }

  lemma SiblingsDiffer(h: Combine, txids: seq<Hash>, height: nat, pos: nat)
    requires Injective(h) && Distinct(txids) && pos + 1 < Width(|txids|, height)
    ensures CalcHash(h, txids, height, pos) != CalcHash(h, txids, height, pos + 1)
  {
    if CalcHash(h, txids, height, pos) == CalcHash(h, txids, height, pos + 1) {
      LevelDistinct(h, txids, height, pos, pos + 1);
    }
  }

  // ---------------------------------------------------------------- matches

  /** Does any leaf in `lo..hi` match? */
  predicate AnyMatch(mask: seq<bool>, lo: nat, hi: nat)
    requires hi <= |mask|
  {
    exists p :: lo <= p < hi && mask[p]
  }

  function Matched(txids: seq<Hash>, mask: seq<bool>, lo: nat, hi: nat): seq<Hash>
    requires |mask| == |txids| && hi <= |txids|
  {
    if hi <= lo then [] else Matched(txids, mask, lo, hi - 1) + if mask[hi - 1] then [txids[hi - 1]] else []
  }

  function MatchedAt(mask: seq<bool>, lo: nat, hi: nat): seq<nat>
    requires hi <= |mask|
  {
    if hi <= lo then [] else MatchedAt(mask, lo, hi - 1) + if mask[hi - 1] then [hi - 1] else []
  }

  lemma {:induction false} MatchedConcat(txids: seq<Hash>, mask: seq<bool>, lo: nat, mid: nat, hi: nat)
    requires |mask| == |txids| && lo <= mid <= hi <= |txids|
    ensures Matched(txids, mask, lo, hi) == Matched(txids, mask, lo, mid) + Matched(txids, mask, mid, hi)
    ensures MatchedAt(mask, lo, hi) == MatchedAt(mask, lo, mid) + MatchedAt(mask, mid, hi)
  {
    if mid < hi {
      MatchedConcat(txids, mask, lo, mid, hi - 1);
    }
  }

  lemma {:induction false} MatchedNone(txids: seq<Hash>, mask: seq<bool>, lo: nat, hi: nat)
    requires |mask| == |txids| && hi <= |txids| && !AnyMatch(mask, lo, hi)
    ensures Matched(txids, mask, lo, hi) == [] && MatchedAt(mask, lo, hi) == []
  {
    if lo < hi {
      assert !AnyMatch(mask, lo, hi - 1);
      MatchedNone(txids, mask, lo, hi - 1);
    }
  }

  // ---------------------------------------------------------------- construction

  datatype Encoding = Encoding(bits: seq<bool>, hashes: seq<Hash>)

  const NOTHING: Encoding := Encoding([], [])

  function Join(l: Encoding, r: Encoding): Encoding {
    Encoding(l.bits + r.bits, l.hashes + r.hashes)
  }

  function Build(h: Combine, txids: seq<Hash>, mask: seq<bool>, height: nat, pos: nat): Encoding
    requires |mask| == |txids| && pos < Width(|txids|, height)
    decreases height, 1
  {
    Ranges(|txids|, height, pos);
    var flag := AnyMatch(mask, Lo(height, pos), Hi(|txids|, height, pos));
    if height == 0 || !flag then
      Encoding([flag], [CalcHash(h, txids, height, pos)])
    else
      Join(Encoding([flag], []), BuildChildren(h, txids, mask, height, pos))
  }

  /** Both subtrees, or the only one. */
  function BuildChildren(h: Combine, txids: seq<Hash>, mask: seq<bool>, height: nat, pos: nat): Encoding
    requires |mask| == |txids| && pos < Width(|txids|, height) && height > 0
    decreases height, 0
  {
    var left := Build(h, txids, mask, height - 1, 2 * pos);
    var right :=
      if 2 * pos + 1 < Width(|txids|, height - 1) then Build(h, txids, mask, height - 1, 2 * pos + 1) else NOTHING;
    Join(left, right)
  }

  /** A node's leaves are those of its children, in order. */
  lemma SplitRange(n: nat, height: nat, pos: nat)
    requires height > 0 && pos < Width(n, height)
    ensures Lo(height, pos) == Lo(height - 1, 2 * pos) < Hi(n, height - 1, 2 * pos) <= Hi(n, height, pos) <= n
    ensures 2 * pos + 1 < Width(n, height - 1) ==>
              && Hi(n, height - 1, 2 * pos) == Lo(height - 1, 2 * pos + 1) < Hi(n, height - 1, 2 * pos + 1)
              && Hi(n, height - 1, 2 * pos + 1) == Hi(n, height, pos)
    ensures 2 * pos + 1 >= Width(n, height - 1) ==> Hi(n, height - 1, 2 * pos) == Hi(n, height, pos)
  {
    Ranges(n, height - 1, 2 * pos);
    if 2 * pos + 1 < Width(n, height - 1) {
      Ranges(n, height - 1, 2 * pos + 1);
    }
  }

  lemma BoundStep(a: nat, b: nat, l: nat, r: nat, k: nat)
    requires k > 0 && a <= 1 + l * (k - 1) && b <= 1 + r * (k - 1) && l + r >= 1
    ensures a + b <= 1 + (l + r) * k && a <= 1 + l * k
  {
    assert l * (k - 1) == l * k - l && r * (k - 1) == r * k - r && (l + r) * k == l * k + r * k;
  }

  lemma {:induction false} MatchedSome(txids: seq<Hash>, mask: seq<bool>, lo: nat, hi: nat)
    requires |mask| == |txids| && hi <= |txids| && AnyMatch(mask, lo, hi)
    ensures |Matched(txids, mask, lo, hi)| >= 1
  {
    if !mask[hi - 1] {
      assert AnyMatch(mask, lo, hi - 1);
      MatchedSome(txids, mask, lo, hi - 1);
    }
  }

  predicate SizeOk(e: Encoding, leaves: int, matches: nat, height: nat) {
    1 <= |e.hashes| <= |e.bits| && |e.hashes| <= leaves && |e.hashes| <= 1 + matches * height
  }

  lemma JoinSize(flag: bool, l: Encoding, r: Encoding, leavesL: nat, leavesR: nat, matchesL: nat, matchesR: nat,
                 height: nat)
    requires height > 0 && SizeOk(l, leavesL, matchesL, height - 1) && SizeOk(r, leavesR, matchesR, height - 1)
    requires matchesL + matchesR >= 1
    ensures SizeOk(Join(Encoding([flag], []), Join(l, r)), leavesL + leavesR, matchesL + matchesR, height)
  {
    BoundStep(|l.hashes|, |r.hashes|, matchesL, matchesR, height);
  }

  /** Both documented bounds on the number of stored hashes, and one bit per visited node. */
  lemma {:induction false} BuildSize(h: Combine, txids: seq<Hash>, mask: seq<bool>, height: nat, pos: nat)
    requires |mask| == |txids| && pos < Width(|txids|, height)
    ensures Lo(height, pos) < Hi(|txids|, height, pos) <= |txids|
    ensures SizeOk(Build(h, txids, mask, height, pos), Hi(|txids|, height, pos) - Lo(height, pos),
                   |Matched(txids, mask, Lo(height, pos), Hi(|txids|, height, pos))|, height)
  {
    var n := |txids|;
    var lo, hi := Lo(height, pos), Hi(n, height, pos);
    Ranges(n, height, pos);
    if height > 0 && AnyMatch(mask, lo, hi) {
      SplitRange(n, height, pos);
      MatchedSome(txids, mask, lo, hi);
      BuildSize(h, txids, mask, height - 1, 2 * pos);
      var mid := Hi(n, height - 1, 2 * pos);
      var l := Build(h, txids, mask, height - 1, 2 * pos);
      var matches := |Matched(txids, mask, lo, mid)|;
      if 2 * pos + 1 < Width(n, height - 1) {
        BuildSize(h, txids, mask, height - 1, 2 * pos + 1);
        MatchedConcat(txids, mask, lo, mid, hi);
        var r := Build(h, txids, mask, height - 1, 2 * pos + 1);
        JoinSize(true, l, r, mid - lo, hi - mid, matches, |Matched(txids, mask, mid, hi)|, height);
      } else {
        BoundStep(|l.hashes|, 1, matches, 0, height);
      }
    }
  }

  // ---------------------------------------------------------------- extraction

  /** What a receiver holds: the claimed transaction count, flag bits and hashes. */
  datatype Received = Received(n: nat, bits: seq<bool>, hashes: seq<Hash>)

  /** The counters and output vectors threaded through TraverseAndExtract. */
  datatype Walk = Walk(bitsUsed: nat, hashUsed: nat, bad: bool, matches: seq<Hash>, indexes: seq<nat>)

  function Extract(h: Combine, t: Received, height: nat, pos: nat, w: Walk): (Hash, Walk) {
    if w.bitsUsed >= |t.bits| then (NULL_HASH, w.(bad := true))
    else
      var flag := t.bits[w.bitsUsed];
      var w1 := w.(bitsUsed := w.bitsUsed + 1);
      if height == 0 || !flag then
        if w1.hashUsed >= |t.hashes| then (NULL_HASH, w1.(bad := true))
        else
          var hash := t.hashes[w1.hashUsed];
          var w2 := w1.(hashUsed := w1.hashUsed + 1);
          (hash, if height == 0 && flag then w2.(matches := w2.matches + [hash], indexes := w2.indexes + [pos]) else w2)
      else
        var (left, w2) := Extract(h, t, height - 1, 2 * pos, w1);
        if 2 * pos + 1 < Width(t.n, height - 1) then
          var (right, w3) := Extract(h, t, height - 1, 2 * pos + 1, w2);
          (h(left, right), if right == left then w3.(bad := true) else w3)
        else (h(left, left), w2)
  }

  /** The traversal reads `part` at position `at` of `all`. */
  predicate At<T(==)>(all: seq<T>, at: nat, part: seq<T>) {
    at + |part| <= |all| && all[at..at + |part|] == part
  }

  lemma AtSplit<T>(all: seq<T>, at: nat, a: seq<T>, b: seq<T>)
    requires At(all, at, a + b)
    ensures At(all, at, a) && At(all, at + |a|, b)
  {
    assert all[at..at + |a|] == (a + b)[..|a|];
    assert all[at + |a|..at + |a| + |b|] == (a + b)[|a|..];
  }

  function Advance(w: Walk, e: Encoding, matches: seq<Hash>, indexes: seq<nat>): Walk {
    Walk(w.bitsUsed + |e.bits|, w.hashUsed + |e.hashes|, w.bad, w.matches + matches, w.indexes + indexes)
  }

  predicate Holds(t: Received, w: Walk, e: Encoding) {
    At(t.bits, w.bitsUsed, e.bits) && At(t.hashes, w.hashUsed, e.hashes)
  }

  /** If the parent's encoding is there, so are its children's, one after the other. */
  lemma HoldsSplit(t: Received, w: Walk, flag: bool, l: Encoding, r: Encoding, matches: seq<Hash>, indexes: seq<nat>)
    requires Holds(t, w, Join(Encoding([flag], []), Join(l, r)))
    ensures w.bitsUsed < |t.bits| && t.bits[w.bitsUsed] == flag
    ensures var w1 := w.(bitsUsed := w.bitsUsed + 1);
            Holds(t, w1, l) && Holds(t, Advance(w1, l, matches, indexes), r)
  {
    AtSplit(t.bits, w.bitsUsed, [flag], l.bits + r.bits);
    AtSplit(t.bits, w.bitsUsed + 1, l.bits, r.bits);
    assert [] + (l.hashes + r.hashes) == l.hashes + r.hashes;
    AtSplit(t.hashes, w.hashUsed, l.hashes, r.hashes);
    assert t.bits[w.bitsUsed..w.bitsUsed + 1][0] == flag;
  }

  /** Twin siblings under a node, as far as the traversal looks: what makes the extraction refuse. */
  predicate Twins(h: Combine, txids: seq<Hash>, mask: seq<bool>, height: nat, pos: nat)
    requires |mask| == |txids| && pos < Width(|txids|, height)
  {
    Ranges(|txids|, height, pos);
    && height > 0 && AnyMatch(mask, Lo(height, pos), Hi(|txids|, height, pos))
    && (|| Twins(h, txids, mask, height - 1, 2 * pos)
        || (&& 2 * pos + 1 < Width(|txids|, height - 1)
            && (|| Twins(h, txids, mask, height - 1, 2 * pos + 1)
                || CalcHash(h, txids, height - 1, 2 * pos) == CalcHash(h, txids, height - 1, 2 * pos + 1))))
  }

  /** Distinct ids have no twins above them. */
  lemma {:induction false} DistinctNoTwins(h: Combine, txids: seq<Hash>, mask: seq<bool>, height: nat, pos: nat)
    requires |mask| == |txids| && pos < Width(|txids|, height) && Injective(h) && Distinct(txids)
    ensures !Twins(h, txids, mask, height, pos)
  {
    if height > 0 {
      DistinctNoTwins(h, txids, mask, height - 1, 2 * pos);
      if 2 * pos + 1 < Width(|txids|, height - 1) {
        DistinctNoTwins(h, txids, mask, height - 1, 2 * pos + 1);
        SiblingsDiffer(h, txids, height - 1, 2 * pos);
      }
    }
  }

  function Marked(w: Walk, twins: bool): Walk {
    w.(bad := w.bad || twins)
  }

  /** How the results of two children combine. */
  lemma JoinExtract(h: Combine, t: Received, height: nat, pos: nat, w: Walk, l: Encoding, r: Encoding, left: Hash,
                    right: Hash,
                    ml: seq<Hash>, il: seq<nat>, mr: seq<Hash>, ir: seq<nat>, bl: bool, br: bool)
    requires height > 0 && w.bitsUsed < |t.bits| && t.bits[w.bitsUsed] && 2 * pos + 1 < Width(t.n, height - 1)
    requires var w1 := w.(bitsUsed := w.bitsUsed + 1);
             var wl := Marked(Advance(w1, l, ml, il), bl);
             && Extract(h, t, height - 1, 2 * pos, w1) == (left, wl)
             && Extract(h, t, height - 1, 2 * pos + 1, wl) == (right, Marked(Advance(wl, r, mr, ir), br))
    ensures Extract(h, t, height, pos, w) ==
              (h(left, right), Marked(Advance(w, Join(Encoding([true], []), Join(l, r)), ml + mr, il + ir), bl || br
                  || left == right))
  {
    assert w.matches + ml + mr == w.matches + (ml + mr) && w.indexes + il + ir == w.indexes + (il + ir);
  }

  /** Extraction at `w` gives the node's hash and its matched leaves in order, eats its encoding and marks twins. */
  predicate Recovers(h: Combine, txids: seq<Hash>, mask: seq<bool>, height: nat, pos: nat, t: Received, w: Walk)
    requires |mask| == |txids| == t.n && pos < Width(t.n, height) && Hi(t.n, height, pos) <= t.n
  {
    var lo, hi := Lo(height, pos), Hi(t.n, height, pos);
    Extract(h, t, height, pos, w) ==
      (CalcHash(h, txids, height, pos),
       Marked(Advance(w, Build(h, txids, mask, height, pos), Matched(txids, mask, lo, hi), MatchedAt(mask, lo, hi)),
              Twins(h, txids, mask, height, pos)))
  }

  lemma MatchedOne(txids: seq<Hash>, mask: seq<bool>, pos: nat)
    requires |mask| == |txids| && pos < |txids|
    ensures Matched(txids, mask, pos, pos + 1) == if mask[pos] then [txids[pos]] else []
    ensures MatchedAt(mask, pos, pos + 1) == if mask[pos] then [pos] else []
  {
    assert Matched(txids, mask, pos, pos) == [] && MatchedAt(mask, pos, pos) == [];
  }

  lemma ReadStored(h: Combine, t: Received, height: nat, pos: nat, w: Walk, flag: bool, hash: Hash)
    requires (height == 0 || !flag) && Holds(t, w, Encoding([flag], [hash]))
    ensures Extract(h, t, height, pos, w) ==
              (hash, Advance(w, Encoding([flag], [hash]), if flag then [hash] else [], if flag then [pos] else []))
  {
    assert t.bits[w.bitsUsed] == [flag][0];
    assert t.hashes[w.hashUsed] == [hash][0];
    assert w.matches + [] == w.matches && w.indexes + [] == w.indexes;
  }

  /** The node's hash itself was stored. */
  lemma ExtractStored(h: Combine, txids: seq<Hash>, mask: seq<bool>, height: nat, pos: nat, t: Received, w: Walk)
    requires |mask| == |txids| == t.n && pos < Width(t.n, height)
    requires Hi(t.n, height, pos) <= t.n && (height == 0 || !AnyMatch(mask, Lo(height, pos), Hi(t.n, height, pos)))
    requires Holds(t, w, Build(h, txids, mask, height, pos))
    ensures Recovers(h, txids, mask, height, pos, t, w)
  {
    var flag := height == 0 && mask[pos];
    var hash := CalcHash(h, txids, height, pos);
    assert Build(h, txids, mask, height, pos) == Encoding([flag], [hash]) by {
      if height == 0 {
        assert AnyMatch(mask, pos, pos + 1) <==> mask[pos];
      }
    }
    if height == 0 {
      MatchedOne(txids, mask, pos);
    } else {
      MatchedNone(txids, mask, Lo(height, pos), Hi(t.n, height, pos));
    }
    ReadStored(h, t, height, pos, w, flag, hash);
  }

  lemma JoinRecovers(h: Combine, txids: seq<Hash>, mask: seq<bool>, height: nat, pos: nat, t: Received, w: Walk,
                     wl: Walk)
    requires |mask| == |txids| == t.n && pos < Width(t.n, height) && height > 0 && 2 * pos + 1 < Width(t.n, height - 1)
    requires Lo(height, pos) == Lo(height - 1, 2 * pos)
             && Hi(t.n, height - 1, 2 * pos + 1) == Hi(t.n, height, pos) <= t.n
    requires Lo(height, pos) <= Hi(t.n, height - 1, 2 * pos) == Lo(height - 1, 2 * pos + 1) <= Hi(t.n, height, pos)
    requires AnyMatch(mask, Lo(height, pos), Hi(t.n, height, pos))
    requires w.bitsUsed < |t.bits| && t.bits[w.bitsUsed]
    requires Recovers(h, txids, mask, height - 1, 2 * pos, t, w.(bitsUsed := w.bitsUsed + 1))
    requires wl == Extract(h, t, height - 1, 2 * pos, w.(bitsUsed := w.bitsUsed + 1)).1
    requires Recovers(h, txids, mask, height - 1, 2 * pos + 1, t, wl)
    ensures Recovers(h, txids, mask, height, pos, t, w)
  {
    var lo, mid, hi := Lo(height, pos), Hi(t.n, height - 1, 2 * pos), Hi(t.n, height, pos);
    MatchedConcat(txids, mask, lo, mid, hi);
    JoinExtract(h, t, height, pos, w, Build(h, txids, mask, height - 1, 2 * pos),
        Build(h, txids, mask, height - 1, 2 * pos + 1),
                CalcHash(h, txids, height - 1, 2 * pos), CalcHash(h, txids, height - 1, 2 * pos + 1),
                Matched(txids, mask, lo, mid), MatchedAt(mask, lo, mid), Matched(txids, mask, mid, hi),
                    MatchedAt(mask, mid, hi),
                Twins(h, txids, mask, height - 1, 2 * pos), Twins(h, txids, mask, height - 1, 2 * pos + 1));
  }

  lemma OnlyChildRecovers(h: Combine, txids: seq<Hash>, mask: seq<bool>, height: nat, pos: nat, t: Received, w: Walk)
    requires |mask| == |txids| == t.n && pos < Width(t.n, height) && height > 0 && 2 * pos + 1 >= Width(t.n, height - 1)
    requires Lo(height, pos) == Lo(height - 1, 2 * pos) && Hi(t.n, height - 1, 2 * pos) == Hi(t.n, height, pos) <= t.n
    requires AnyMatch(mask, Lo(height, pos), Hi(t.n, height, pos))
    requires w.bitsUsed < |t.bits| && t.bits[w.bitsUsed]
    requires Recovers(h, txids, mask, height - 1, 2 * pos, t, w.(bitsUsed := w.bitsUsed + 1))
    ensures Recovers(h, txids, mask, height, pos, t, w)
  {
    var l := Build(h, txids, mask, height - 1, 2 * pos);
    assert Build(h, txids, mask, height, pos) == Join(Encoding([true], []), Join(l, NOTHING));
  }

  /** Extraction of what construction wrote, at any node. */
  lemma {:induction false} ExtractBuilt(h: Combine, txids: seq<Hash>, mask: seq<bool>, height: nat, pos: nat,
                                        t: Received, w: Walk)
    requires |mask| == |txids| == t.n && pos < Width(t.n, height)
    requires Holds(t, w, Build(h, txids, mask, height, pos))
    ensures Hi(t.n, height, pos) <= t.n && Recovers(h, txids, mask, height, pos, t, w)
    decreases height, 1
  {
    Ranges(t.n, height, pos);
    if height == 0 || !AnyMatch(mask, Lo(height, pos), Hi(t.n, height, pos)) {
      ExtractStored(h, txids, mask, height, pos, t, w);
    } else if 2 * pos + 1 < Width(t.n, height - 1) {
      ExtractTwo(h, txids, mask, height, pos, t, w);
    } else {
      var l := Build(h, txids, mask, height - 1, 2 * pos);
      SplitRange(t.n, height, pos);
      assert Build(h, txids, mask, height, pos) == Join(Encoding([true], []), Join(l, NOTHING));
      HoldsSplit(t, w, true, l, NOTHING, [], []);
      ExtractBuilt(h, txids, mask, height - 1, 2 * pos, t, w.(bitsUsed := w.bitsUsed + 1));
      OnlyChildRecovers(h, txids, mask, height, pos, t, w);
    }
  }

  lemma {:induction false} ExtractTwo(h: Combine, txids: seq<Hash>, mask: seq<bool>, height: nat, pos: nat,
                                      t: Received, w: Walk)
    requires |mask| == |txids| == t.n && pos < Width(t.n, height)
    requires height > 0 && 2 * pos + 1 < Width(t.n, height - 1) && Hi(t.n, height, pos) <= t.n
    requires AnyMatch(mask, Lo(height, pos), Hi(t.n, height, pos))
    requires Holds(t, w, Build(h, txids, mask, height, pos))
    ensures Recovers(h, txids, mask, height, pos, t, w)
    decreases height, 0
  {
    SplitRange(t.n, height, pos);
    var lo, mid := Lo(height, pos), Hi(t.n, height - 1, 2 * pos);
    var l, r := Build(h, txids, mask, height - 1, 2 * pos), Build(h, txids, mask, height - 1, 2 * pos + 1);
    assert Build(h, txids, mask, height, pos) == Join(Encoding([true], []), Join(l, r));
    HoldsSplit(t, w, true, l, r, Matched(txids, mask, lo, mid), MatchedAt(mask, lo, mid));
    var w1 := w.(bitsUsed := w.bitsUsed + 1);
    var wl := Marked(Advance(w1, l, Matched(txids, mask, lo, mid), MatchedAt(mask, lo, mid)),
        Twins(h, txids, mask, height - 1, 2 * pos));
    ExtractBuilt(h, txids, mask, height - 1, 2 * pos, t, w1);
    ExtractBuilt(h, txids, mask, height - 1, 2 * pos + 1, t, wl);
    JoinRecovers(h, txids, mask, height, pos, t, w, wl);
  }

  // ---------------------------------------------------------------- ExtractMatches

  datatype Outcome = Outcome(root: Hash, matches: seq<Hash>, indexes: seq<nat>)

  const START: Walk := Walk(0, 0, false, [], [])

  /** The result of ExtractMatches with both output vectors empty on entry. */
  function ExtractMatches(h: Combine, t: Received): Outcome {
    if t.n == 0 || |t.hashes| > t.n || |t.bits| < |t.hashes| then Outcome(NULL_HASH, [], [])
    else
      var (root, w) := Extract(h, t, TreeHeight(t.n), 0, START);
      if w.bad || (w.bitsUsed + 7) / 8 != (|t.bits| + 7) / 8 || w.hashUsed != |t.hashes|
      then Outcome(NULL_HASH, w.matches, w.indexes)
      else Outcome(root, w.matches, w.indexes)
  }

  function Root(h: Combine, txids: seq<Hash>): Hash
    requires txids != []
  {
    RootExists(|txids|, TreeHeight(|txids|));
    CalcHash(h, txids, TreeHeight(|txids|), 0)
  }

  /** The constructor's traversal. */
  function Encode(h: Combine, txids: seq<Hash>, mask: seq<bool>): Encoding
    requires |mask| == |txids| > 0
  {
    RootExists(|txids|, TreeHeight(|txids|));
    Build(h, txids, mask, TreeHeight(|txids|), 0)
  }

  lemma RootRange(n: nat)
    requires n > 0
    ensures var height := TreeHeight(n); 0 < Width(n, height) && Lo(height, 0) == 0 && Hi(n, height, 0) == n
  {
    RootExists(n, TreeHeight(n));
    Ranges(n, TreeHeight(n), 0);
    LoClosedForm(TreeHeight(n), 0);
  }

  lemma SameBytes(used: nat, padded: nat)
    requires used <= padded < used + 8 && padded % 8 == 0
    ensures (used + 7) / 8 == (padded + 7) / 8
  {
  }

  function Behind(earlier: seq<nat>, w: Walk): Walk {
    w.(indexes := earlier + w.indexes)
  }

  ghost predicate KeepsBehind(h: Combine, t: Received, height: nat, pos: nat, w: Walk, earlier: seq<nat>) {
    var (hash, w') := Extract(h, t, height, pos, w);
    Extract(h, t, height, pos, Behind(earlier, w)) == (hash, Behind(earlier, w'))
  }

  lemma LeafBehind(h: Combine, t: Received, height: nat, pos: nat, w: Walk, earlier: seq<nat>)
    requires w.bitsUsed < |t.bits| && (height == 0 || !t.bits[w.bitsUsed])
    ensures KeepsBehind(h, t, height, pos, w, earlier)
  {
    assert earlier + w.indexes + [pos] == earlier + (w.indexes + [pos]);
  }

  /** Indexes from an earlier extraction stay in front and change nothing else. */
  lemma {:induction false} IndexesKept(h: Combine, t: Received, height: nat, pos: nat, w: Walk, earlier: seq<nat>)
    ensures KeepsBehind(h, t, height, pos, w, earlier)
  {
    if w.bitsUsed < |t.bits| {
      if height == 0 || !t.bits[w.bitsUsed] {
        LeafBehind(h, t, height, pos, w, earlier);
      } else {
        var w1 := w.(bitsUsed := w.bitsUsed + 1);
        IndexesKept(h, t, height - 1, 2 * pos, w1, earlier);
        if 2 * pos + 1 < Width(t.n, height - 1) {
          IndexesKept(h, t, height - 1, 2 * pos + 1, Extract(h, t, height - 1, 2 * pos, w1).1, earlier);
        }
      }
    }
  }

  predicate RootTwins(h: Combine, txids: seq<Hash>, mask: seq<bool>)
    requires |mask| == |txids| > 0
  {
    RootExists(|txids|, TreeHeight(|txids|));
    Twins(h, txids, mask, TreeHeight(|txids|), 0)
  }

  /**
   Whoever receives the encoding of a block's matches, with its flag bits padded to whole bytes, extracts the
   matched ids and their positions, in block order, and the block's Merkle root unless there are twins.
   */
  lemma RoundTrip(h: Combine, txids: seq<Hash>, mask: seq<bool>, padded: seq<bool>)
    requires |mask| == |txids| > 0
    requires Encode(h, txids, mask).bits <= padded && |padded| < |Encode(h, txids, mask).bits| + 8 && |padded| % 8 == 0
    ensures ExtractMatches(h, Received(|txids|, padded, Encode(h, txids, mask).hashes))
            == Outcome(if RootTwins(h, txids, mask) then NULL_HASH else Root(h, txids),
                       Matched(txids, mask, 0, |txids|), MatchedAt(mask, 0, |txids|))
  {
    var n, height := |txids|, TreeHeight(|txids|);
    var e := Encode(h, txids, mask);
    var t := Received(n, padded, e.hashes);
    RootRange(n);
    BuildSize(h, txids, mask, height, 0);
    assert e.hashes[0..|e.hashes|] == e.hashes;
    assert Holds(t, START, e) by {
      assert padded[0..|e.bits|] == e.bits;
    }
    ExtractBuilt(h, txids, mask, height, 0, t, START);
    SameBytes(|e.bits|, |padded|);
  }

  // ---------------------------------------------------------------- soundness

  predicate Authentic(txids: seq<Hash>, matches: seq<Hash>, indexes: seq<nat>) {
    |matches| == |indexes| && forall k :: 0 <= k < |indexes| ==> indexes[k] < |txids| && matches[k] == txids[indexes[k]]
  }

  lemma {:induction false} BadSticks(h: Combine, t: Received, height: nat, pos: nat, w: Walk)
    ensures w.bad ==> Extract(h, t, height, pos, w).1.bad
  {
    if w.bitsUsed < |t.bits| && height > 0 && t.bits[w.bitsUsed] {
      var w1 := w.(bitsUsed := w.bitsUsed + 1);
      BadSticks(h, t, height - 1, 2 * pos, w1);
      BadSticks(h, t, height - 1, 2 * pos + 1, Extract(h, t, height - 1, 2 * pos, w1).1);
    }
  }

  /** A traversal that ends in the true hash of a node, without complaint, recorded only true leaves. */
  lemma {:induction false} ExtractSound(h: Combine, txids: seq<Hash>, t: Received, height: nat, pos: nat, w: Walk)
    requires Injective(h) && t.n == |txids| && pos < Width(t.n, height) && Authentic(txids, w.matches, w.indexes)
    requires Extract(h, t, height, pos, w).0 == CalcHash(h, txids, height, pos) && !Extract(h, t, height, pos, w).1.bad
    ensures Authentic(txids, Extract(h, t, height, pos, w).1.matches, Extract(h, t, height, pos, w).1.indexes)
  {
    if w.bitsUsed < |t.bits| && height > 0 && t.bits[w.bitsUsed] {
      var w1 := w.(bitsUsed := w.bitsUsed + 1);
      var (left, w2) := Extract(h, t, height - 1, 2 * pos, w1);
      if 2 * pos + 1 < Width(t.n, height - 1) {
        BadSticks(h, t, height - 1, 2 * pos + 1, w2);
        assert left == CalcHash(h, txids, height - 1, 2 * pos);
        ExtractSound(h, txids, t, height - 1, 2 * pos, w1);
        ExtractSound(h, txids, t, height - 1, 2 * pos + 1, w2);
      } else {
        ExtractSound(h, txids, t, height - 1, 2 * pos, w1);
      }
    }
  }

  /** Whatever bits and hashes a peer sends: if the extracted root is the block's, every extracted id is real. */
  lemma Soundness(h: Combine, txids: seq<Hash>, bits: seq<bool>, hashes: seq<Hash>)
    requires Injective(h) && txids != [] && Root(h, txids) != NULL_HASH
    requires ExtractMatches(h, Received(|txids|, bits, hashes)).root == Root(h, txids)
    ensures var o := ExtractMatches(h, Received(|txids|, bits, hashes)); Authentic(txids, o.matches, o.indexes)
  {
    RootExists(|txids|, TreeHeight(|txids|));
    ExtractSound(h, txids, Received(|txids|, bits, hashes), TreeHeight(|txids|), 0, START);
  }

  // ---------------------------------------------------------------- flag bits in bytes

  predicate BitOf(bytes: seq<bv8>, p: nat)
    requires p / 8 < |bytes|
  {
    bytes[p / 8] & Mask(p % 8) != 0
  }

  lemma SetBitAt(bytes: seq<bv8>, p: nat)
    requires p / 8 < |bytes|
    ensures var after := bytes[p / 8 := bytes[p / 8] | Mask(p % 8)];
            forall q :: 0 <= q < 8 * |bytes| ==> BitOf(after, q) == (q == p || BitOf(bytes, q))
  {
    var after := bytes[p / 8 := bytes[p / 8] | Mask(p % 8)];
    forall q | 0 <= q < 8 * |bytes|
      ensures BitOf(after, q) == (q == p || BitOf(bytes, q))
    {
      if q / 8 == p / 8 {
        MaskSets(bytes[p / 8], q % 8, p % 8);
        assert q == p <==> q % 8 == p % 8;
      } else {
        assert after[q / 8] == bytes[q / 8];
      }
    }
  }

  /** Least significant bit first, unused bits of the last byte clear. */
  predicate IsPacking(bits: seq<bool>, bytes: seq<bv8>) {
    && |bytes| == (|bits| + 7) / 8
    && (forall p :: 0 <= p < 8 * |bytes| ==> BitOf(bytes, p) == (p < |bits| && bits[p]))
  }

  method Pack(bits: seq<bool>) returns (bytes: seq<bv8>)
    ensures IsPacking(bits, bytes)
  {
    bytes := seq((|bits| + 7) / 8, _ => 0);
    for p := 0 to |bits|
      invariant |bytes| == (|bits| + 7) / 8
      invariant forall q :: 0 <= q < 8 * |bytes| ==> BitOf(bytes, q) == (q < p && bits[q])
    {
      if bits[p] {
        SetBitAt(bytes, p);
        bytes := bytes[p / 8 := bytes[p / 8] | Mask(p % 8)];
      }
    }
  }

  method Unpack(bytes: seq<bv8>) returns (bits: seq<bool>)
    ensures |bits| == 8 * |bytes| && forall p :: 0 <= p < |bits| ==> bits[p] == BitOf(bytes, p)
  {
    bits := [];
    for p := 0 to 8 * |bytes|
      invariant |bits| == p && forall q :: 0 <= q < p ==> bits[q] == BitOf(bytes, q)
    {
      bits := bits + [BitOf(bytes, p)];
    }
  }

  /** Packing and unpacking only pads, which is all `RoundTrip` asks for. */
  lemma PackingPads(bits: seq<bool>, bytes: seq<bv8>, padded: seq<bool>)
    requires IsPacking(bits, bytes)
    requires |padded| == 8 * |bytes| && forall p :: 0 <= p < |padded| ==> padded[p] == BitOf(bytes, p)
    ensures bits <= padded && |padded| < |bits| + 8 && |padded| % 8 == 0
  {
    assert forall p :: 0 <= p < |bits| ==> bits[p] == padded[p];
  }

  // ---------------------------------------------------------------- the object itself

  /** The scan over a node's leaves. */
  method ScanMatch(vMatch: seq<bool>, height: nat, pos: nat) returns (found: bool)
    requires pos < Width(|vMatch|, height)
    ensures Hi(|vMatch|, height, pos) <= |vMatch|
    ensures found <==> AnyMatch(vMatch, Lo(height, pos), Hi(|vMatch|, height, pos))
  {
    found := false;
    var p, end := pos * Pow2(height), (pos + 1) * Pow2(height);
    RangeClosedForm(|vMatch|, height, pos);
    Ranges(|vMatch|, height, pos);
    while p < end && p < |vMatch|
      invariant Lo(height, pos) <= p <= Hi(|vMatch|, height, pos)
      invariant found <==> AnyMatch(vMatch, Lo(height, pos), p)
    {
      found := found || vMatch[p];
      p := p + 1;
    }
  }

  method HasRightChild(n: nat, height: nat, pos: nat) returns (b: bool)
    requires height > 0
    ensures b <==> 2 * pos + 1 < Width(n, height - 1)
  {
    WidthClosedForm(n, height - 1);
    b := 2 * pos + 1 < CalcTreeWidth(n, height - 1);
  }

  /** `CPartialMerkleTree`. */
  class PartialTree {
    var nTransactions: nat
    var vBits: seq<bool>
    var vHash: seq<Hash>
    var fBad: bool

    ghost function Content(): Received
      reads this
    {
      Received(nTransactions, vBits, vHash)
    }

    constructor (h: Combine, vTxid: seq<Hash>, vMatch: seq<bool>)
      requires |vMatch| == |vTxid| > 0
      ensures nTransactions == |vTxid| && !fBad
      ensures Encoding(vBits, vHash) == Encode(h, vTxid, vMatch)
    {
      nTransactions, fBad, vBits, vHash := |vTxid|, false, [], [];
      new;
      var nHeight := ComputeHeight(nTransactions);
      RootExists(nTransactions, nHeight);
      TraverseAndBuild(h, nHeight, 0, vTxid, vMatch);
    }

    method TraverseAndBuild(h: Combine, height: nat, pos: nat, vTxid: seq<Hash>, vMatch: seq<bool>)
      requires |vMatch| == |vTxid| == nTransactions && pos < Width(nTransactions, height)
      modifies this`vBits, this`vHash
      ensures Encoding(vBits, vHash) == Join(old(Encoding(vBits, vHash)), Build(h, vTxid, vMatch, height, pos))
      decreases height, 1
    {
      var fParentOfMatch := ScanMatch(vMatch, height, pos);
      vBits := vBits + [fParentOfMatch];
      if height == 0 || !fParentOfMatch {
        vHash := vHash + [CalcHash(h, vTxid, height, pos)];
      } else {
        Descend(h, height, pos, vTxid, vMatch);
      }
    }

    /** The two recursive calls. */
    method Descend(h: Combine, height: nat, pos: nat, vTxid: seq<Hash>, vMatch: seq<bool>)
      requires |vMatch| == |vTxid| == nTransactions && pos < Width(nTransactions, height) && height > 0
      modifies this`vBits, this`vHash
      ensures Encoding(vBits, vHash) == Join(old(Encoding(vBits, vHash)), BuildChildren(h, vTxid, vMatch, height, pos))
      decreases height, 0
    {
      TraverseAndBuild(h, height - 1, 2 * pos, vTxid, vMatch);
      var two := HasRightChild(nTransactions, height, pos);
      if two {
        TraverseAndBuild(h, height - 1, 2 * pos + 1, vTxid, vMatch);
      }
    }

    method TraverseAndExtract(h: Combine, height: nat, pos: nat, w: Walk) returns (hash: Hash, w': Walk)
      requires w.bad == fBad
      modifies this`fBad
      ensures (hash, w') == Extract(h, old(Content()), height, pos, w) && fBad == w'.bad
      decreases height
    {
      if w.bitsUsed >= |vBits| {
        fBad := true;
        return NULL_HASH, w.(bad := true);
      }
      var fParentOfMatch := vBits[w.bitsUsed];
      w' := w.(bitsUsed := w.bitsUsed + 1);
      if height == 0 || !fParentOfMatch {
        if w'.hashUsed >= |vHash| {
          fBad := true;
          return NULL_HASH, w'.(bad := true);
        }
        hash := vHash[w'.hashUsed];
        w' := w'.(hashUsed := w'.hashUsed + 1);
        if height == 0 && fParentOfMatch {
          w' := w'.(matches := w'.matches + [hash], indexes := w'.indexes + [pos]);
        }
        return;
      }
      var left, right;
      left, w' := TraverseAndExtract(h, height - 1, 2 * pos, w');
      var two := HasRightChild(nTransactions, height, pos);
      if two {
        right, w' := TraverseAndExtract(h, height - 1, 2 * pos + 1, w');
        if right == left {
          fBad := true;
          w' := w'.(bad := true);
        }
      } else {
        right := left;
      }
      hash := h(left, right);
    }

    /** ExtractMatches; what `vnIndex` held on entry, `earlier`, stays in front. */
    method Matches(h: Combine, earlier: seq<nat>) returns (root: Hash, vMatch: seq<Hash>, vnIndex: seq<nat>)
      modifies this`fBad
      ensures !old(fBad) ==> var o := ExtractMatches(h, old(Content()));
              root == o.root && vMatch == o.matches && vnIndex == earlier + o.indexes
      ensures old(fBad) ==> root == NULL_HASH
    {
      vMatch, vnIndex := [], earlier;
      if nTransactions == 0 || |vHash| > nTransactions || |vBits| < |vHash| {
        return NULL_HASH, [], earlier;
      }
      var nHeight := ComputeHeight(nTransactions);
      var w;
      ghost var t := Content();
      BadSticks(h, t, nHeight, 0, START.(bad := fBad, indexes := earlier));
      IndexesKept(h, t, nHeight, 0, START, earlier);
      assert earlier + START.indexes == earlier;
      root, w := TraverseAndExtract(h, nHeight, 0, START.(bad := fBad, indexes := earlier));
      vMatch, vnIndex := w.matches, w.indexes;
      if fBad || (w.bitsUsed + 7) / 8 != (|vBits| + 7) / 8 || w.hashUsed != |vHash| {
        root := NULL_HASH;
      }
    }
  }

  /** Build, serialize, read back, extract: the receiver learns the matches, and the root if there are no twins. */
  method Relay(h: Combine, vTxid: seq<Hash>, vMatch: seq<bool>)
               returns (root: Hash, matches: seq<Hash>, indexes: seq<nat>)
    requires |vMatch| == |vTxid| > 0
    ensures root == if RootTwins(h, vTxid, vMatch) then NULL_HASH else Root(h, vTxid)
    ensures Injective(h) && Distinct(vTxid) ==> root == Root(h, vTxid)
    ensures matches == Matched(vTxid, vMatch, 0, |vTxid|) && indexes == MatchedAt(vMatch, 0, |vTxid|)
  {
    var tree := new PartialTree(h, vTxid, vMatch);
    ghost var bits := tree.vBits;
    var bytes := Pack(tree.vBits);
    tree.vBits := Unpack(bytes);
    PackingPads(bits, bytes, tree.vBits);
    RoundTrip(h, vTxid, vMatch, tree.vBits);
    if Injective(h) && Distinct(vTxid) {
      RootExists(|vTxid|, TreeHeight(|vTxid|));
      DistinctNoTwins(h, vTxid, vMatch, TreeHeight(|vTxid|), 0);
    }
    root, matches, indexes := tree.Matches(h, []);
  }
}
