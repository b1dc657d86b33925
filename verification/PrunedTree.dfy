/**
 What a partial Merkle tree is, independently of how it is traversed: a Merkle tree over n leaves with some subtrees cut
 off and replaced by their hashes. Extraction accepts exactly the depth-first listings of such trees.
 */
module PrunedTree {
  import opened PartialMerkleTree

  /** `Cut` is a stored hash: a subtree cut off, or a leaf; only a leaf can be marked as matching. */
  datatype Pruned =
    | Cut(marked: bool, hash: Hash)
    | Only(child: Pruned)
    | Both(left: Pruned, right: Pruned)

  /** The tree has the shape of node `pos` at `height` in the tree over `n` leaves. */
  predicate Fits(p: Pruned, n: nat, height: nat, pos: nat) {
    match p
    case Cut(marked, _) => marked ==> height == 0
    case Only(child) => height > 0 && 2 * pos + 1 >= Width(n, height - 1) && Fits(child, n, height - 1, 2 * pos)
    case Both(left, right) =>
      height > 0 && 2 * pos + 1 < Width(n, height - 1) && Fits(left, n, height - 1, 2 * pos)
      && Fits(right, n, height - 1, 2 * pos + 1)
  }

  function RootOf(h: Combine, p: Pruned): Hash {
    match p
    case Cut(_, hash) => hash
    case Only(child) => h(RootOf(h, child), RootOf(h, child))
    case Both(left, right) => h(RootOf(h, left), RootOf(h, right))
  }

  /** Depth first: one bit per node, set for inner nodes and matching leaves, and the stored hashes. */
  function Listing(p: Pruned): Encoding {
    match p
    case Cut(marked, hash) => Encoding([marked], [hash])
    case Only(child) => Join(Encoding([true], []), Join(Listing(child), NOTHING))
    case Both(left, right) => Join(Encoding([true], []), Join(Listing(left), Listing(right)))
  }

  function MarkedIds(p: Pruned): seq<Hash> {
    match p
    case Cut(marked, hash) => if marked then [hash] else []
    case Only(child) => MarkedIds(child)
    case Both(left, right) => MarkedIds(left) + MarkedIds(right)
  }

  /** Where the matching leaves are, for the tree at `pos`. */
  function MarkedAt(p: Pruned, pos: nat): seq<nat> {
    match p
    case Cut(marked, _) => if marked then [pos] else []
    case Only(child) => MarkedAt(child, 2 * pos)
    case Both(left, right) => MarkedAt(left, 2 * pos) + MarkedAt(right, 2 * pos + 1)
  }

  predicate HasTwins(h: Combine, p: Pruned) {
    match p
    case Cut(_, _) => false
    case Only(child) => HasTwins(h, child)
    case Both(left, right) => HasTwins(h, left) || HasTwins(h, right) || RootOf(h, left) == RootOf(h, right)
  }

  // ---------------------------------------------------------------- reading a listing

  /** Extraction at `w` reads exactly the listing of `p`. */
  predicate Reads(h: Combine, p: Pruned, t: Received, height: nat, pos: nat, w: Walk) {
    Extract(h, t, height, pos, w)
    == (RootOf(h, p), Marked(Advance(w, Listing(p), MarkedIds(p), MarkedAt(p, pos)), HasTwins(h, p)))
  }

  lemma {:induction false} ReadsListing(h: Combine, p: Pruned, t: Received, height: nat, pos: nat, w: Walk)
    requires Fits(p, t.n, height, pos) && Holds(t, w, Listing(p))
    ensures Reads(h, p, t, height, pos, w)
    decreases p, 1
  {
    match p
    case Cut(marked, hash) => ReadStored(h, t, height, pos, w, marked, hash);
    case Only(child) =>
      HoldsSplit(t, w, true, Listing(child), NOTHING, [], []);
      ReadsListing(h, child, t, height - 1, 2 * pos, w.(bitsUsed := w.bitsUsed + 1));
      OnlyRead(h, child, t, height, pos, w);
    case Both(left, right) =>
      ReadsBoth(h, p, left, right, t, height, pos, w);
  }

  lemma {:induction false} ReadsBoth(h: Combine, p: Pruned, left: Pruned, right: Pruned, t: Received, height: nat,
                                     pos: nat, w: Walk)
    requires p == Both(left, right) && Fits(p, t.n, height, pos) && Holds(t, w, Listing(p))
    ensures Reads(h, p, t, height, pos, w)
    decreases p, 0
  {
    var w1 := LeftHeld(t, w, left, right);
    ReadsListing(h, left, t, height - 1, 2 * pos, w1);
    var wl := RightHeld(h, left, right, t, height, pos, w, w1);
    ReadsListing(h, right, t, height - 1, 2 * pos + 1, wl);
    BothRead(h, left, right, t, height, pos, w, wl);
  }

  lemma LeftHeld(t: Received, w: Walk, left: Pruned, right: Pruned) returns (w1: Walk)
    requires Holds(t, w, Listing(Both(left, right)))
    ensures w1 == w.(bitsUsed := w.bitsUsed + 1) && w.bitsUsed < |t.bits| && t.bits[w.bitsUsed]
    ensures Holds(t, w1, Listing(left))
  {
    HoldsSplit(t, w, true, Listing(left), Listing(right), [], []);
    w1 := w.(bitsUsed := w.bitsUsed + 1);
  }

  lemma RightHeld(h: Combine, left: Pruned, right: Pruned, t: Received, height: nat, pos: nat, w: Walk, w1: Walk)
    returns (wl: Walk)
    requires height > 0 && Holds(t, w, Listing(Both(left, right))) && w1 == w.(bitsUsed := w.bitsUsed + 1)
    requires Reads(h, left, t, height - 1, 2 * pos, w1)
    ensures wl == Extract(h, t, height - 1, 2 * pos, w1).1 && Holds(t, wl, Listing(right))
  {
    HoldsSplit(t, w, true, Listing(left), Listing(right), MarkedIds(left), MarkedAt(left, 2 * pos));
    wl := Extract(h, t, height - 1, 2 * pos, w1).1;
  }

  lemma OnlyRead(h: Combine, child: Pruned, t: Received, height: nat, pos: nat, w: Walk)
    requires height > 0 && 2 * pos + 1 >= Width(t.n, height - 1) && w.bitsUsed < |t.bits| && t.bits[w.bitsUsed]
    requires Reads(h, child, t, height - 1, 2 * pos, w.(bitsUsed := w.bitsUsed + 1))
    ensures Reads(h, Only(child), t, height, pos, w)
  {
  }

  lemma BothRead(h: Combine, left: Pruned, right: Pruned, t: Received, height: nat, pos: nat, w: Walk, wl: Walk)
    requires height > 0 && 2 * pos + 1 < Width(t.n, height - 1) && w.bitsUsed < |t.bits| && t.bits[w.bitsUsed]
    requires Reads(h, left, t, height - 1, 2 * pos, w.(bitsUsed := w.bitsUsed + 1))
    requires wl == Extract(h, t, height - 1, 2 * pos, w.(bitsUsed := w.bitsUsed + 1)).1
    requires Reads(h, right, t, height - 1, 2 * pos + 1, wl)
    ensures Reads(h, Both(left, right), t, height, pos, w)
  {
    JoinExtract(h, t, height, pos, w, Listing(left), Listing(right), RootOf(h, left), RootOf(h, right), MarkedIds(left),
                MarkedAt(left, 2 * pos), MarkedIds(right), MarkedAt(right, 2 * pos + 1), HasTwins(h, left),
                HasTwins(h, right));
  }

  // ---------------------------------------------------------------- nothing else is read

  lemma AtJoin<T>(all: seq<T>, at: nat, a: seq<T>, b: seq<T>)
    requires At(all, at, a) && At(all, at + |a|, b)
    ensures At(all, at, a + b)
  {
    assert all[at..at + |a + b|] == all[at..at + |a|] + all[at + |a|..at + |a| + |b|];
  }

  lemma HoldsJoin(t: Received, w: Walk, w1: Walk, l: Encoding, r: Encoding)
    requires Holds(t, w, l) && w1.bitsUsed == w.bitsUsed + |l.bits| && w1.hashUsed == w.hashUsed + |l.hashes|
    requires Holds(t, w1, r)
    ensures Holds(t, w, Join(l, r))
  {
    AtJoin(t.bits, w.bitsUsed, l.bits, r.bits);
    AtJoin(t.hashes, w.hashUsed, l.hashes, r.hashes);
  }

  lemma HoldsFlag(t: Received, w: Walk)
    requires w.bitsUsed < |t.bits| && t.bits[w.bitsUsed] && w.hashUsed <= |t.hashes|
    ensures Holds(t, w, Encoding([true], []))
  {
  }

  lemma HoldsOne(t: Received, w: Walk)
    requires w.bitsUsed < |t.bits| && w.hashUsed < |t.hashes|
    ensures Holds(t, w, Encoding([t.bits[w.bitsUsed]], [t.hashes[w.hashUsed]]))
  {
    assert t.bits[w.bitsUsed..w.bitsUsed + 1] == [t.bits[w.bitsUsed]];
    assert t.hashes[w.hashUsed..w.hashUsed + 1] == [t.hashes[w.hashUsed]];
  }

  /** The traversal at `w` has read the listing of `p`, which is a tree of the right shape. */
  ghost predicate HasRead(h: Combine, p: Pruned, t: Received, height: nat, pos: nat, w: Walk) {
    Fits(p, t.n, height, pos) && Holds(t, w, Listing(p)) && Reads(h, p, t, height, pos, w)
  }

  lemma ReadWithin(h: Combine, p: Pruned, t: Received, height: nat, pos: nat, w: Walk)
    requires HasRead(h, p, t, height, pos, w)
    ensures Extract(h, t, height, pos, w).1.hashUsed <= |t.hashes|
  {
  }

  /** If there is no complaint about a node there is none about its children. */
  lemma ChildrenFine(h: Combine, t: Received, height: nat, pos: nat, w: Walk) returns (w1: Walk, wl: Walk)
    requires height > 0 && w.bitsUsed < |t.bits| && t.bits[w.bitsUsed] && !Extract(h, t, height, pos, w).1.bad
    ensures w1 == w.(bitsUsed := w.bitsUsed + 1) && wl == Extract(h, t, height - 1, 2 * pos, w1).1 && !wl.bad
    ensures 2 * pos + 1 < Width(t.n, height - 1) ==> !Extract(h, t, height - 1, 2 * pos + 1, wl).1.bad
  {
    w1 := w.(bitsUsed := w.bitsUsed + 1);
    wl := Extract(h, t, height - 1, 2 * pos, w1).1;
    BadSticks(h, t, height - 1, 2 * pos + 1, wl);
  }

  lemma ParsedCut(h: Combine, t: Received, height: nat, pos: nat, w: Walk) returns (p: Pruned)
    requires w.bitsUsed < |t.bits| && (height == 0 || !t.bits[w.bitsUsed]) && !Extract(h, t, height, pos, w).1.bad
    ensures HasRead(h, p, t, height, pos, w)
  {
    var flag := t.bits[w.bitsUsed];
    p := Cut(flag, t.hashes[w.hashUsed]);
    HoldsOne(t, w);
    ReadStored(h, t, height, pos, w, flag, t.hashes[w.hashUsed]);
  }

  lemma SomeBit(h: Combine, t: Received, height: nat, pos: nat, w: Walk)
    requires !Extract(h, t, height, pos, w).1.bad
    ensures w.bitsUsed < |t.bits|
  {
  }

  /** A traversal without complaint has read the listing of some tree. */
  lemma {:induction false} Parsed(h: Combine, t: Received, height: nat, pos: nat, w: Walk) returns (p: Pruned)
    requires !Extract(h, t, height, pos, w).1.bad && w.hashUsed <= |t.hashes|
    ensures HasRead(h, p, t, height, pos, w)
    decreases height, 1
  {
    SomeBit(h, t, height, pos, w);
    if height == 0 || !t.bits[w.bitsUsed] {
      p := ParsedCut(h, t, height, pos, w);
    } else {
      var w1, wl := ChildrenFine(h, t, height, pos, w);
      p := ParsedInner(h, t, height, pos, w, w1, wl);
    }
  }

  lemma {:induction false} ParsedInner(h: Combine, t: Received, height: nat, pos: nat, w: Walk, w1: Walk, wl: Walk)
    returns (p: Pruned)
    requires height > 0 && w.bitsUsed < |t.bits| && t.bits[w.bitsUsed] && w.hashUsed <= |t.hashes|
    requires w1 == w.(bitsUsed := w.bitsUsed + 1) && wl == Extract(h, t, height - 1, 2 * pos, w1).1 && !wl.bad
    requires 2 * pos + 1 < Width(t.n, height - 1) ==> !Extract(h, t, height - 1, 2 * pos + 1, wl).1.bad
    ensures HasRead(h, p, t, height, pos, w)
    decreases height, 0
  {
    var left := Parsed(h, t, height - 1, 2 * pos, w1);
    if 2 * pos + 1 < Width(t.n, height - 1) {
      ReadWithin(h, left, t, height - 1, 2 * pos, w1);
      var right := Parsed(h, t, height - 1, 2 * pos + 1, wl);
      p := Both(left, right);
      BothHasRead(h, left, right, t, height, pos, w, w1, wl);
    } else {
      p := Only(left);
      OnlyHasRead(h, left, t, height, pos, w, w1, wl);
    }
  }

  lemma BothHasRead(h: Combine, left: Pruned, right: Pruned, t: Received, height: nat, pos: nat, w: Walk, w1: Walk,
                    wl: Walk)
    requires height > 0 && 2 * pos + 1 < Width(t.n, height - 1) && w.bitsUsed < |t.bits| && t.bits[w.bitsUsed]
    requires w1 == w.(bitsUsed := w.bitsUsed + 1) && wl == Extract(h, t, height - 1, 2 * pos, w1).1
    requires HasRead(h, left, t, height - 1, 2 * pos, w1) && HasRead(h, right, t, height - 1, 2 * pos + 1, wl)
    ensures HasRead(h, Both(left, right), t, height, pos, w)
  {
    HoldsFlag(t, w);
    HoldsJoin(t, w1, wl, Listing(left), Listing(right));
    HoldsJoin(t, w, w1, Encoding([true], []), Join(Listing(left), Listing(right)));
    BothRead(h, left, right, t, height, pos, w, wl);
  }

  lemma OnlyHasRead(h: Combine, child: Pruned, t: Received, height: nat, pos: nat, w: Walk, w1: Walk, wl: Walk)
    requires height > 0 && 2 * pos + 1 >= Width(t.n, height - 1) && w.bitsUsed < |t.bits| && t.bits[w.bitsUsed]
    requires w1 == w.(bitsUsed := w.bitsUsed + 1) && wl == Extract(h, t, height - 1, 2 * pos, w1).1
    requires HasRead(h, child, t, height - 1, 2 * pos, w1)
    ensures HasRead(h, Only(child), t, height, pos, w)
  {
    HoldsFlag(t, w);
    HoldsJoin(t, w1, wl, Listing(child), NOTHING);
    HoldsJoin(t, w, w1, Encoding([true], []), Join(Listing(child), NOTHING));
    OnlyRead(h, child, t, height, pos, w);
  }

  // ---------------------------------------------------------------- what is accepted

  /** A tree never has more hashes than leaves or than bits, so the tests for that refuse no listing. */
  lemma {:induction false} ListingSize(p: Pruned, n: nat, height: nat, pos: nat)
    requires Fits(p, n, height, pos) && pos < Width(n, height)
    ensures Lo(height, pos) < Hi(n, height, pos) <= n
    ensures 1 <= |Listing(p).hashes| <= Hi(n, height, pos) - Lo(height, pos) && |Listing(p).hashes| <= |Listing(p).bits|
    decreases p
  {
    Ranges(n, height, pos);
    match p
    case Cut(_, _) =>
    case Only(child) =>
      SplitRange(n, height, pos);
      ListingSize(child, n, height - 1, 2 * pos);
    case Both(left, right) =>
      SplitRange(n, height, pos);
      ListingSize(left, n, height - 1, 2 * pos);
      ListingSize(right, n, height - 1, 2 * pos + 1);
  }

  /** What was received is the listing of `p`, with the bits padded to whole bytes at most. */
  ghost predicate Lists(t: Received, p: Pruned) {
    && t.n > 0 && Fits(p, t.n, TreeHeight(t.n), 0) && t.hashes == Listing(p).hashes
    && Listing(p).bits <= t.bits && (|Listing(p).bits| + 7) / 8 == (|t.bits| + 7) / 8
  }

  /** Every listing without twins is accepted, with its root and its marked leaves. */
  lemma ListingAccepted(h: Combine, t: Received, p: Pruned)
    requires Lists(t, p)
    ensures ExtractMatches(h, t)
            == Outcome(if HasTwins(h, p) then NULL_HASH else RootOf(h, p), MarkedIds(p), MarkedAt(p, 0))
  {
    var height, e := TreeHeight(t.n), Listing(p);
    RootExists(t.n, height);
    ListingSize(p, t.n, height, 0);
    assert t.hashes[0..|e.hashes|] == e.hashes && t.bits[0..|e.bits|] == e.bits;
    ReadsListing(h, p, t, height, 0, START);
  }

  /** Whatever does not get the null root is such a listing. */
  lemma AcceptedListing(h: Combine, t: Received) returns (p: Pruned)
    requires ExtractMatches(h, t).root != NULL_HASH
    ensures Lists(t, p) && !HasTwins(h, p)
  {
    var height := TreeHeight(t.n);
    p := Parsed(h, t, height, 0, START);
    var e := Listing(p);
    assert t.hashes[0..|e.hashes|] == e.hashes && t.bits[0..|e.bits|] == e.bits;
    assert t.bits == e.bits + t.bits[|e.bits|..];
    assert t.hashes[0..|t.hashes|] == t.hashes;
  }

  /**
   Of all bits and hashes, exactly the listings of pruned trees without equal siblings are accepted; everything else
   gets the null root.
   */
  lemma AcceptsExactly(h: Combine, t: Received)
    ensures forall p :: Lists(t, p) && !HasTwins(h, p) ==>
              ExtractMatches(h, t) == Outcome(RootOf(h, p), MarkedIds(p), MarkedAt(p, 0))
    ensures (forall p :: Lists(t, p) ==> HasTwins(h, p)) ==> ExtractMatches(h, t).root == NULL_HASH
  {
    forall p | Lists(t, p) && !HasTwins(h, p)
      ensures ExtractMatches(h, t) == Outcome(RootOf(h, p), MarkedIds(p), MarkedAt(p, 0))
    {
      ListingAccepted(h, t, p);
    }
    if ExtractMatches(h, t).root != NULL_HASH {
      var p := AcceptedListing(h, t);
    }
  }

  /** A count, a number of hashes or a number of bits that no listing has is refused at once. */
  lemma RefusedAtOnce(h: Combine, t: Received)
    requires t.n == 0 || |t.hashes| > t.n || |t.bits| < |t.hashes|
    ensures ExtractMatches(h, t) == Outcome(NULL_HASH, [], []) && forall p :: !Lists(t, p)
  {
    forall p
      ensures !Lists(t, p)
    {
      if Lists(t, p) {
        RootExists(t.n, TreeHeight(t.n));
        ListingSize(p, t.n, TreeHeight(t.n), 0);
      }
    }
  }
}
