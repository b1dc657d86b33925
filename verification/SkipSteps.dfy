/**
 How long the search for an ancestor takes. The source states the result of a simulation: at most 110 steps to go back
 among 2^18 blocks. Here the maximum is computed for every size, and 110 is exactly what it is for 2^18.
 */
module SkipSteps {
  import opened BlockTree
  import opened Powers

  // ---------------------------------------------------------------- lowest ones

  /** 2^k divides n. */
  predicate Multiple(n: nat, k: nat) {
    k == 0 || (n % 2 == 0 && Multiple(n / 2, k - 1))
  }

  /** The lowest one of n is the one of weight 2^a. */
  predicate Lowest(n: nat, a: nat) {
    if a == 0 then n % 2 == 1 else n % 2 == 0 && Lowest(n / 2, a - 1)
  }

  lemma {:induction false} LowestOf(n: nat) returns (a: nat)
    requires n > 0
    ensures Lowest(n, a)
    decreases n
  {
    if n % 2 == 1 {
      a := 0;
    } else {
      var b := LowestOf(n / 2);
      a := b + 1;
    }
  }

  /** InvertLowestOne without the bitwise operator. */
  function Cleared(n: nat): (m: nat)
    ensures m <= n && (n > 0 ==> m < n)
  {
    if n == 0 then 0 else if n % 2 == 1 then n - 1 else 2 * Cleared(n / 2)
  }

  lemma {:induction false} ClearedIs(n: nat)
    ensures InvertLowestOne(n) == Cleared(n)
  {
    InvertClears(n);
    if n > 0 && n % 2 == 0 {
      ClearedIs(n / 2);
    }
  }

  function Skip(h: nat): nat {
    if h < 2 then 0 else if h % 2 == 1 then Cleared(Cleared(h - 1)) + 1 else Cleared(h)
  }

  lemma SkipIs(h: nat)
    ensures GetSkipHeight(h) == Skip(h)
  {
    ClearedIs(h);
    if h > 0 {
      ClearedIs(h - 1);
      ClearedIs(Cleared(h - 1));
    }
  }

  lemma {:induction false} ClearsLowest(n: nat, a: nat)
    requires Lowest(n, a)
    ensures n >= Pow2(a) && Cleared(n) == n - Pow2(a) && Multiple(n - Pow2(a), a + 1)
    decreases a
  {
    if a == 0 {
      assert Multiple((n - 1) / 2, 0);
    } else {
      ClearsLowest(n / 2, a - 1);
      assert (n - Pow2(a)) / 2 == n / 2 - Pow2(a - 1);
    }
  }

  lemma {:induction false} MultipleLowest(n: nat, k: nat, a: nat)
    requires Multiple(n, k) && Lowest(n, a)
    ensures k <= a
    decreases k
  {
    if k > 0 {
      MultipleLowest(n / 2, k - 1, a - 1);
    }
  }

  lemma {:induction false} MultipleFewer(n: nat, k: nat, i: nat)
    requires Multiple(n, k) && i <= k
    ensures Multiple(n, i)
    decreases i
  {
    if i > 0 {
      MultipleFewer(n / 2, k - 1, i - 1);
    }
  }

  /** Between a multiple of 2^k and the next one the lowest ones are lower, and clearing them does not lead out. */
  lemma {:induction false} LowestWithin(base: nat, k: nat, n: nat, a: nat)
    requires Multiple(base, k) && base < n < base + Pow2(k) && Lowest(n, a)
    ensures a < k && n - Pow2(a) >= base
    decreases k
  {
    if a > 0 {
      LowestWithin(base / 2, k - 1, n / 2, a - 1);
    }
  }

  lemma {:induction false} LowestMultiple(n: nat, a: nat)
    requires Lowest(n, a)
    ensures Multiple(n, a)
    decreases a
  {
    if a > 0 {
      LowestMultiple(n / 2, a - 1);
    }
  }

  lemma {:induction false} ZeroMultiple(k: nat)
    ensures Multiple(0, k)
  {
    if k > 0 {
      ZeroMultiple(k - 1);
    }
  }

  lemma {:induction false} LowestOfDifference(k: nat, i: nat) returns (e: nat)
    requires i < k
    ensures e == Pow2(k) - Pow2(i) && Lowest(e, i) && Cleared(e) == Pow2(k) - Pow2(i + 1)
    decreases i
  {
    Pow2Grows(i, k);
    e := Pow2(k) - Pow2(i);
    if i > 0 {
      var m := LowestOfDifference(k - 1, i - 1);
      assert e / 2 == m;
    }
    ClearsLowest(e, i);
  }

  lemma ClearedDouble(n: nat)
    ensures Cleared(2 * n) == 2 * Cleared(n)
  {
    assert 2 * n / 2 == n;
  }

  lemma ClearedOdd(n: nat)
    ensures Cleared(2 * n + 1) == 2 * n
  {
  }

  lemma SkipOdd(g: nat)
    requires g >= 1
    ensures Skip(2 * g + 1) == Cleared(2 * Cleared(g)) + 1
  {
    assert (2 * g + 1) % 2 == 1 && 2 * g + 1 - 1 == 2 * g;
    ClearedDouble(g);
  }

  /** The skip of the height before an even one, by its lowest one. */
  lemma SkipBeforeFour(q: nat)
    ensures Skip(4 * q + 3) == Cleared(4 * q) + 1
  {
    var g := 2 * q + 1;
    ClearedOdd(q);
    SkipOdd(g);
  }

  lemma SkipBeforeEight(q: nat)
    ensures Skip(8 * q + 7) == 8 * q + 1
  {
    var p := 2 * q + 1;
    SkipBeforeFour(p);
    ClearedOdd(q);
    ClearedDouble(p);
    ClearedDouble(2 * p);
  }

  lemma Half(h: nat, a: nat) returns (m: nat)
    requires Lowest(h, a) && a >= 1
    ensures h == 2 * m && Lowest(m, a - 1) && m > 0
  {
    m := h / 2;
    ClearsLowest(h, a);
  }

  lemma LowestOnes(h: nat, a: nat) returns (q: nat)
    requires Lowest(h, a) && a >= 1
    ensures if a == 1 then h == 4 * q + 2 else if a == 2 then h == 8 * q + 4 else h == 8 * q + 8
  {
    var m := Half(h, a);
    if a == 1 {
      q := m / 2;
    } else {
      var n := Half(m, a - 1);
      if a == 2 {
        q := n / 2;
      } else {
        var o := Half(n, a - 2);
        q := o - 1;
      }
    }
  }

  lemma SkipBeforeTwo(q: nat)
    requires q >= 1
    ensures Skip(4 * q + 1) == Cleared(Cleared(4 * q)) + 1
  {
    SkipOdd(2 * q);
    ClearedDouble(2 * q);
  }

  lemma SkipBefore(h: nat, a: nat) returns (skip: nat)
    requires Lowest(h, a) && a >= 1 && h >= 4
    ensures skip == Skip(h - 1)
    ensures if a >= 3 then skip == h - 7 else if a == 2 then skip == Cleared(Cleared(h)) + 1
            else skip == Cleared(Cleared(Cleared(h))) + 1
  {
    var q := LowestOnes(h, a);
    if a >= 3 {
      SkipBeforeEight(q);
      skip := 8 * q + 1;
    } else {
      skip := SkipBeforeLow(h, a, q);
    }
  }

  lemma SkipBeforeLow(h: nat, a: nat, q: nat) returns (skip: nat)
    requires Lowest(h, a) && 1 <= a <= 2 && h >= 4 && h == if a == 1 then 4 * q + 2 else 8 * q + 4
    ensures skip == Skip(h - 1)
    ensures skip == if a == 2 then Cleared(Cleared(h)) + 1 else Cleared(Cleared(Cleared(h))) + 1
  {
    ClearsLowest(h, a);
    if a == 2 {
      SkipBeforeFour(2 * q);
      skip := Cleared(4 * (2 * q)) + 1;
    } else {
      SkipBeforeTwo(q);
      skip := Cleared(Cleared(4 * q)) + 1;
    }
  }

  // ---------------------------------------------------------------- one step

  /** The notions above as values, so that what follows rests on what is stated of them, not on their definitions. */
  datatype View = View(steps: (nat, nat) -> nat, clear: nat -> nat, lowest: (nat, nat) -> bool,
      multiple: (nat, nat) -> bool)
  {
    ghost predicate Right() {
      && (forall h: nat, t: nat {:trigger SearchSteps(h, t)} :: t <= h ==> steps(h, t) == SearchSteps(h, t))
      && (forall n: nat {:trigger Cleared(n)} :: clear(n) == Cleared(n))
      && (forall n: nat, a: nat {:trigger Lowest(n, a)} :: lowest(n, a) == Lowest(n, a))
      && (forall n: nat, k: nat {:trigger Multiple(n, k)} :: multiple(n, k) == Multiple(n, k))
    }
  }

  lemma RightView() returns (v: View)
    ensures v.Right()
  {
    v := View((h: nat, t: nat) => if t <= h then SearchSteps(h, t) else 0, n => Cleared(n),
        (n: nat, a: nat) => Lowest(n, a),
              (n: nat, k: nat) => Multiple(n, k));
  }

  lemma Arrived(v: View, t: nat)
    requires v.Right()
    ensures v.steps(t, t) == 0
  {
    assert SearchSteps(t, t) == 0;
  }

  lemma ClearOne(v: View, base: nat, k: nat, n: nat, i: nat) returns (a: nat, m: nat)
    requires v.Right() && v.multiple(base, k) && base < n < base + Pow2(k) && v.multiple(n, i)
    ensures v.lowest(n, a) && i <= a < k && m == v.clear(n) && base <= m == n - Pow2(a) && v.multiple(m, a + 1)
  {
    assert Multiple(base, k) && Multiple(n, i);
    a := LowestOf(n);
    m := Cleared(n);
    LowestWithin(base, k, n, a);
    MultipleLowest(n, i, a);
    ClearsLowest(n, a);
  }

  lemma Fewer(v: View, n: nat, k: nat, i: nat)
    requires v.Right() && v.multiple(n, k) && i <= k
    ensures v.multiple(n, i)
  {
    assert Multiple(n, k);
    MultipleFewer(n, k, i);
  }

  lemma BeforeOdd(v: View, h: nat)
    requires v.Right() && h % 2 == 1
    ensures v.multiple(h - 1, 1)
  {
    assert Multiple((h - 1) / 2, 0) && Multiple(h - 1, 1);
  }

  lemma Genesis(v: View, k: nat)
    requires v.Right()
    ensures v.multiple(0, k) && v.clear(0) == 0
  {
    ZeroMultiple(k);
    assert Cleared(0) == 0;
  }

  lemma NextPair(v: View, e: nat, b: nat, j: nat)
    requires v.Right() && v.multiple(e, b + 1) && 2 * j + 2 <= b
    ensures (e + 1) % 2 == 1 && v.multiple(e, 2 * (j + 1) + 1)
  {
    assert Multiple(e, b + 1);
    MultipleFewer(e, b + 1, 2 * j + 3);
  }

  lemma LowestEven(v: View, n: nat, a: nat)
    requires v.Right() && v.lowest(n, a) && a >= 1
    ensures n % 2 == 0 && n >= 2 && v.clear(n) == n - Pow2(a) && v.multiple(n, a) && v.multiple(v.clear(n), a + 1)
  {
    assert Lowest(n, a);
    ClearsLowest(n, a);
    LowestMultiple(n, a);
  }

  lemma StepOf(v: View, h: nat, t: nat, skip: nat, skipPrev: nat) returns (n: nat)
    requires v.Right() && t < h && skip == Skip(h) && skipPrev == Skip(h - 1)
    ensures n == if skip == t || (skip > t && !(skipPrev < skip - 2 && skipPrev >= t)) then skip else h - 1
    ensures v.steps(h, t) == 1 + v.steps(n, t)
  {
    SkipIs(h);
    SkipIs(h - 1);
    n := NextHeight(h, t);
    assert SearchSteps(h, t) == 1 + SearchSteps(n, t);
  }

  /** From an odd height the search skips if it can. */
  lemma OddStep(v: View, h: nat, t: nat) returns (n: nat)
    requires v.Right() && h % 2 == 1 && h >= 3 && t < h
    ensures var skip := v.clear(v.clear(h - 1)) + 1; n == if skip >= t then skip else h - 1
    ensures v.steps(h, t) == 1 + v.steps(n, t)
  {
    n := StepOf(v, h, t, Skip(h), Skip(h - 1));
  }

  /** From an even height it goes back by one if the skip leads too far. */
  lemma EvenStays(v: View, h: nat, t: nat)
    requires v.Right() && h % 2 == 0 && v.clear(h) < t < h
    ensures v.steps(h, t) == 1 + v.steps(h - 1, t)
  {
    assert Cleared(h) < t;
    var n := StepOf(v, h, t, Skip(h), Skip(h - 1));
  }

  /** Otherwise it skips unless the height before has the better skip. */
  lemma EvenStep(v: View, h: nat, a: nat, t: nat) returns (n: nat, skipPrev: nat)
    requires v.Right() && v.lowest(h, a) && a >= 1 && 1 <= t <= v.clear(h)
    ensures var e := v.clear(h); n == if e > t && skipPrev < e - 2 && skipPrev >= t then h - 1 else e
    ensures if a >= 3 then skipPrev == h - 7 else if a == 2 then skipPrev == v.clear(v.clear(h)) + 1
            else skipPrev == v.clear(v.clear(v.clear(h))) + 1 <= v.clear(v.clear(h)) + 1
    ensures v.steps(h, t) == 1 + v.steps(n, t)
  {
    assert Lowest(h, a) && t <= Cleared(h);
    LowestEven(v, h, a);
    skipPrev := SkipBefore(h, a);
    n := StepOf(v, h, t, Skip(h), skipPrev);
  }

  lemma EvenJumps(v: View, h: nat, a: nat, t: nat)
    requires v.Right() && v.lowest(h, a) && 1 <= a && 1 <= t <= v.clear(h)
    requires a < 3 ==> v.clear(v.clear(h)) + 1 < t
    ensures v.steps(h, t) == 1 + v.steps(v.clear(h), t)
  {
    LowestEven(v, h, a);
    var n, skip := EvenStep(v, h, a, t);
    if a >= 3 {
      Pow2Grows(3, a);
    }
  }

  /** Back to the genesis block the skip is never too long. */
  lemma EvenChoice(v: View, h: nat) returns (n: nat)
    requires v.Right() && h % 2 == 0 && h >= 2
    ensures (n == h - 1 || n == v.clear(h)) && v.steps(h, 0) == 1 + v.steps(n, 0)
  {
    n := StepOf(v, h, 0, Skip(h), Skip(h - 1));
    assert Skip(h) == Cleared(h);
  }

  // ---------------------------------------------------------------- the bound for odd heights

  /** The most steps from an odd height to one above `base` + 1, within 2^k heights above a multiple of 2^k. */
  function Worst(k: nat): nat {
    if k < 2 then 0 else if k == 2 then 1 else Worst(k - 1) + (k + 3) / 2
  }

  /** To `base` + 1 itself it takes one step more if k is 2. */
  function Bound(k: nat, near: bool): nat {
    Worst(k) + if near && k == 2 then 1 else 0
  }

  lemma {:induction false} WorstGrows(a: nat, k: nat)
    requires 2 <= a < k
    ensures Worst(a) + (a + 4) / 2 <= Worst(k)
    decreases k
  {
    if a + 1 < k {
      WorstGrows(a, k - 1);
    }
  }

  lemma {:induction false} WorstAtLeast(k: nat)
    ensures Worst(k) + 1 >= k && (k >= 3 ==> Worst(k) > k)
  {
    if k >= 3 {
      WorstAtLeast(k - 1);
    }
  }

  lemma {:induction false} WorstMono(a: nat, k: nat)
    requires a <= k
    ensures Worst(a) <= Worst(k)
    decreases k
  {
    if a < k {
      WorstMono(a, k - 1);
    }
  }

  lemma WindowCost(a: nat, k: nat, j: nat, near: bool)
    requires 2 * j + 1 <= a < k && (a == 1 ==> near)
    ensures 2 + Bound(a, near) + j <= Bound(k, near)
  {
    if a == 1 {
      WorstAtLeast(k);
    } else {
      WorstGrows(a, k);
      if a == 2 && k > 3 {
        WorstGrows(3, k);
      }
    }
  }

  lemma LowerWindowCost(a: nat, k: nat, j: nat, near: bool)
    requires 2 * j + 1 <= a && a + 2 <= k
    ensures 2 + Bound(a, near) + j <= Worst(k)
  {
    WorstAtLeast(k);
    if a >= 2 {
      WorstGrows(a, a + 1);
      WorstGrows(a + 1, k);
    }
  }

  /**
   The search from an odd height clears two ones at a time until that would lead too far; then it goes on in a smaller
   window, of which it is at the upper end. `j` counts the steps made so far.
   */
  lemma {:induction false} OddBound(v: View, h: nat, base: nat, k: nat, t: nat, j: nat)
    requires v.Right() && h % 2 == 1 && v.multiple(base, k) && base < h < base + Pow2(k) && base < t <= h
    requires v.multiple(h - 1, 2 * j + 1) && 2 * j + 1 <= k
    ensures v.steps(h, t) + j <= Bound(k, t == base + 1)
    decreases k, h, 1
  {
    if h == t {
      Arrived(v, t);
      WorstAtLeast(k);
    } else {
      var a, e2 := ClearOne(v, base, k, h - 1, 2 * j + 1);
      var n := OddStep(v, h, t);
      if e2 == base {
        LastOne(v, h, base, k, t, j, a, n);
      } else {
        var b, e3 := ClearOne(v, base, k, e2, a + 1);
        if e3 + 1 >= t {
          NextPair(v, e3, b, j);
          OddBound(v, n, base, k, t, j + 1);
        } else {
          Overshot(v, n, k, t, j, a, b);
        }
      }
    }
  }

  lemma Clears(v: View, n: nat)
    requires v.Right()
    ensures v.clear(n) <= n && (n > 0 ==> v.clear(n) < n)
  {
    assert Cleared(n) <= n;
  }

  /** Only one one is left above the base. */
  lemma {:induction false} LastOne(v: View, h: nat, base: nat, k: nat, t: nat, j: nat, a: nat, n: nat)
    requires v.Right() && v.multiple(base, k) && base < t < h && 2 * j + 1 <= a < k && v.lowest(h - 1, a)
    requires v.clear(h - 1) == base == h - 1 - Pow2(a) && v.steps(h, t) == 1 + v.steps(n, t)
    requires n == if v.clear(base) + 1 >= t then v.clear(base) + 1 else h - 1
    ensures v.steps(h, t) + j <= Bound(k, t == base + 1)
    decreases k, h, 0
  {
    WorstAtLeast(k);
    Arrived(v, t);
    Clears(v, base);
    if n > t {
      IntoWindow(v, n, a, t);
      WindowCost(a, k, j, t == base + 1);
    }
  }

  /** Below a height with lowest one 2^a the search goes on at the upper end of a window of 2^a heights. */
  lemma {:induction false} IntoWindow(v: View, e: nat, a: nat, t: nat)
    requires v.Right() && v.lowest(e, a) && a >= 1 && v.clear(e) < t < e
    ensures v.steps(e, t) <= 1 + Bound(a, t == v.clear(e) + 1)
    decreases a, e, 0
  {
    var h, base := UpperEnd(v, e, a, t);
    BeforeOdd(v, h);
    OddBound(v, h, base, a, t, 0);
  }

  lemma UpperEnd(v: View, e: nat, a: nat, t: nat) returns (h: nat, base: nat)
    requires v.Right() && v.lowest(e, a) && a >= 1 && v.clear(e) < t < e
    ensures h == e - 1 && base == v.clear(e) && v.steps(e, t) == 1 + v.steps(h, t)
    ensures h % 2 == 1 && base < h < base + Pow2(a) && v.multiple(base, a)
  {
    LowestEven(v, e, a);
    h, base := e - 1, v.clear(e);
    EvenStays(v, e, t);
    Fewer(v, base, a + 1, a);
  }

  /** Clearing two ones, of weights 2^a and 2^b, would lead too far. */
  lemma {:induction false} Overshot(v: View, e: nat, k: nat, t: nat, j: nat, a: nat, b: nat)
    requires v.Right() && 2 * j + 1 <= a < b < k && v.lowest(e, a) && v.lowest(v.clear(e), b)
    requires v.clear(v.clear(e)) + 1 < t <= e
    ensures v.steps(e, t) + 1 + j <= Worst(k)
    decreases k, e, 0
  {
    WorstAtLeast(k);
    Arrived(v, t);
    LowestEven(v, e, a);
    var e2 := v.clear(e);
    if e2 < t < e {
      IntoWindow(v, e, a, t);
      LowerWindowCost(a, k, j, t == e2 + 1);
    } else if t <= e2 {
      EvenJumps(v, e, a, t);
      if t < e2 {
        IntoWindow(v, e2, b, t);
        WorstGrows(b, k);
      }
    }
  }

  // ---------------------------------------------------------------- the bound for all heights

  lemma OddBoundAll(v: View, h: nat, k: nat, t: nat)
    requires v.Right() && k >= 3 && h % 2 == 1 && 1 <= t <= h < Pow2(k)
    ensures v.steps(h, t) <= Worst(k)
  {
    Genesis(v, k);
    BeforeOdd(v, h);
    OddBound(v, h, 0, k, t, 0);
  }

  /** From an even height with a low lowest one the search may turn to the odd heights at once. */
  lemma EvenLowBound(v: View, h: nat, a: nat, k: nat, t: nat)
    requires v.Right() && k >= 3 && 1 <= a <= 2 && v.lowest(h, a) && 1 <= t < h < Pow2(k)
    ensures v.steps(h, t) <= Worst(k) + 1
  {
    LowestEven(v, h, a);
    if v.clear(h) < t {
      EvenStays(v, h, t);
      OddBoundAll(v, h - 1, k, t);
    } else {
      var n, skip := EvenStep(v, h, a, t);
      WorstAtLeast(k);
      Arrived(v, t);
      if n == h - 1 {
        OddBoundAll(v, n, k, t);
      } else if t < n {
        LowJumps(v, h, a, k, t, skip);
      }
    }
  }

  /** If it does not, the skip of the height before leads too far. */
  lemma LowJumps(v: View, h: nat, a: nat, k: nat, t: nat, skip: nat)
    requires v.Right() && k >= 3 && 1 <= a <= 2 && v.lowest(h, a) && 1 <= t < v.clear(h) && h < Pow2(k)
    requires skip == (if a == 2 then v.clear(v.clear(h)) + 1 else v.clear(v.clear(v.clear(h))) + 1)
    requires skip <= v.clear(v.clear(h)) + 1 && (skip >= v.clear(h) - 2 || skip < t)
    ensures v.steps(v.clear(h), t) <= Worst(k)
  {
    var e2 := v.clear(h);
    Genesis(v, k);
    LowestEven(v, h, a);
    var b, e3 := ClearOne(v, 0, k, e2, a + 1);
    Pow2Grows(a + 1, b);
    if a == 2 || t > e3 {
      IntoWindow(v, e2, b, t);
      WorstGrows(b, k);
    } else {
      TwoJumps(v, e2, b, k, t);
    }
  }

  lemma TwoJumps(v: View, e: nat, b: nat, k: nat, t: nat)
    requires v.Right() && 2 <= b < k && v.lowest(e, b) && e < Pow2(k) && v.clear(v.clear(e)) + 1 < t <= v.clear(e)
    ensures v.steps(e, t) <= Worst(k)
  {
    EvenJumps(v, e, b, t);
    LowestEven(v, e, b);
    Genesis(v, k);
    var b', e3 := ClearOne(v, 0, k, e, b);
    WorstAtLeast(k);
    Arrived(v, t);
    if t < e3 {
      var c, e4 := ClearOne(v, 0, k, e3, b' + 1);
      IntoWindow(v, e3, c, t);
      WorstGrows(c, k);
    }
  }

  /** From other even heights it clears one one at a time; `n` counts the steps made so far. */
  lemma {:induction false} EvenHighBound(v: View, h: nat, k: nat, t: nat, n: nat)
    requires v.Right() && k >= 4 && v.multiple(h, n + 3) && 1 <= t <= h < Pow2(k)
    ensures v.steps(h, t) + n <= Worst(k - 1) + k - 3
    decreases h
  {
    Genesis(v, k);
    var a, e2 := ClearOne(v, 0, k, h, n + 3);
    Arrived(v, t);
    if t < h {
      if t <= e2 {
        EvenJumps(v, h, a, t);
        Fewer(v, e2, a + 1, n + 4);
        EvenHighBound(v, e2, k, t, n + 1);
      } else {
        IntoWindow(v, h, a, t);
        WorstMono(a, k - 1);
      }
    }
  }

  lemma OneToGenesis(v: View)
    requires v.Right()
    ensures v.steps(1, 0) == 1
  {
    Arrived(v, 0);
    var n := StepOf(v, 1, 0, Skip(1), Skip(0));
  }

  lemma {:induction false} OddToGenesis(v: View, h: nat, k: nat, j: nat)
    requires v.Right() && h % 2 == 1 && h < Pow2(k) && v.multiple(h - 1, 2 * j + 1) && 2 * j + 1 <= k
    ensures v.steps(h, 0) + j <= k + 1
    decreases h
  {
    OneToGenesis(v);
    if h > 1 {
      Genesis(v, k);
      var n := OddStep(v, h, 0);
      var a, e2 := ClearOne(v, 0, k, h - 1, 2 * j + 1);
      if e2 > 0 {
        var b, e3 := ClearOne(v, 0, k, e2, a + 1);
        NextPair(v, e3, b, j);
        OddToGenesis(v, n, k, j + 1);
      }
    }
  }

  lemma {:induction false} EvenToGenesis(v: View, h: nat, k: nat, n: nat)
    requires v.Right() && 0 < h < Pow2(k) && v.multiple(h, n + 1)
    ensures v.steps(h, 0) + n <= 2 * k + 2
    decreases h
  {
    Genesis(v, k);
    var a, e2 := ClearOne(v, 0, k, h, n + 1);
    LowestEven(v, h, a);
    var next := EvenChoice(v, h);
    if next == h - 1 {
      BeforeOdd(v, next);
      OddToGenesis(v, next, k, 0);
    } else if e2 > 0 {
      Fewer(v, e2, a + 1, n + 2);
      EvenToGenesis(v, e2, k, n + 1);
    } else {
      Arrived(v, 0);
    }
  }

  /** The most steps a search takes among 2^k blocks. */
  function MaxSteps(k: nat): int
    requires k >= 1
  {
    Worst(k - 1) + k - 3
  }

  lemma AnyBound(v: View, h: nat, t: nat, k: nat)
    requires v.Right() && k >= 11 && t <= h < Pow2(k)
    ensures v.steps(h, t) <= MaxSteps(k)
  {
    WorstAtLeast(k - 2);
    assert Worst(k - 1) >= k + 5;
    Arrived(v, t);
    if t < h {
      if h % 2 == 0 {
        EvenBound(v, h, t, k);
      } else if t == 0 {
        BeforeOdd(v, h);
        OddToGenesis(v, h, k, 0);
      } else {
        OddBoundAll(v, h, k, t);
      }
    }
  }

  lemma EvenBound(v: View, h: nat, t: nat, k: nat)
    requires v.Right() && k >= 11 && t < h < Pow2(k) && h % 2 == 0 && Worst(k - 1) >= k + 5
    ensures v.steps(h, t) <= MaxSteps(k)
  {
    var a := LowestOf(h);
    LowestMultiple(h, a);
    if t == 0 {
      Fewer(v, h, a, 1);
      EvenToGenesis(v, h, k, 0);
    } else if a <= 2 {
      EvenLowBound(v, h, a, k, t);
    } else {
      Fewer(v, h, a, 3);
      EvenHighBound(v, h, k, t, 0);
    }
  }

  // ---------------------------------------------------------------- the bound is attained

  /** 2^k - 2^i has the ones from 2^i to 2^(k - 1). */
  lemma OnesFrom(v: View, k: nat, i: nat) returns (e: nat, m: nat)
    requires v.Right() && 1 <= i < k
    ensures e == Pow2(k) - Pow2(i) && v.lowest(e, i) && e % 2 == 0 && e >= 2 && m == v.clear(e) == Pow2(k) - Pow2(i + 1)
  {
    e := LowestOfDifference(k, i);
    m := Cleared(e);
    LowestEven(v, e, i);
  }

  /** Back to height two from a power of two. */
  lemma {:induction false} WorstPower(v: View, k: nat, e: nat, t: nat)
    requires v.Right() && k >= 3 && t == 2 && e == Pow2(k - 1)
    ensures e >= 4 && v.steps(e, t) == 1 + Worst(k - 1)
    decreases k, 0, 0
  {
    var e', m := OnesFrom(v, k, k - 1);
    Pow2Grows(2, k - 1);
    var h, base := UpperEnd(v, e, k - 1, t);
    WorstOdd(v, k - 1, 0, h, t);
  }

  /** Back to height two from the upper end of a window at the bottom. */
  lemma {:induction false} WorstOdd(v: View, k: nat, j: nat, h: nat, t: nat)
    requires v.Right() && 2 * j + 1 < k && t == 2 && h == Pow2(k) - Pow2(2 * j + 1) + 1
    ensures v.steps(h, t) + j == Worst(k)
    decreases k, k - j
  {
    var i := 2 * j + 1;
    var e, e2 := OnesFrom(v, k, i);
    var n := OddStep(v, h, t);
    if i + 1 < k {
      var e2', e3 := OnesFrom(v, k, i + 1);
      if i + 2 < k {
        Pow2Grows(i + 2, k);
        WorstOdd(v, k, j + 1, n, t);
      } else {
        LastTwoOnes(v, k, e, e2, i, t);
      }
    } else {
      Genesis(v, k);
      Arrived(v, t);
      if k > 2 {
        WorstPower(v, k, e, t);
      }
    }
  }

  lemma {:induction false} LastTwoOnes(v: View, k: nat, e: nat, e2: nat, i: nat, t: nat)
    requires v.Right() && i >= 1 && i + 2 == k && t == 2 && v.lowest(e, i) && e2 == v.clear(e) == Pow2(k - 1)
             && v.clear(e2) == 0
    ensures v.steps(e, t) == 2 + Worst(k - 1)
    decreases k, 0, 1
  {
    WorstPower(v, k, e2, t);
    EvenJumps(v, e, i, t);
  }

  lemma {:induction false} WorstEven(v: View, k: nat, i: nat, h: nat, t: nat)
    requires v.Right() && 3 <= i < k && t == 2 && h == Pow2(k) - Pow2(i)
    ensures h >= t && v.steps(h, t) == Worst(k - 1) + k - i
    decreases k - i
  {
    var e, e2 := OnesFrom(v, k, i);
    if i + 1 < k {
      WorstEven(v, k, i + 1, e2, t);
      EvenJumps(v, h, i, t);
    } else {
      WorstPower(v, k, e, t);
    }
  }

  // ---------------------------------------------------------------- main results

  /** No search among 2^k blocks takes more than MaxSteps(k) steps, */
  lemma SearchBound(h: nat, t: nat, k: nat)
    requires k >= 11 && t <= h < Pow2(k)
    ensures SearchSteps(h, t) <= MaxSteps(k)
  {
    var v := RightView();
    AnyBound(v, h, t, k);
  }

  /** and one takes as many. */
  lemma BoundAttained(k: nat, h: nat, t: nat)
    requires k >= 4 && h == Pow2(k) - 8 && t == 2
    ensures h >= t && SearchSteps(h, t) == MaxSteps(k)
  {
    var v := RightView();
    WorstEven(v, k, 3, h, t);
  }

  /** "Max 110 steps to go back up to 2**18 blocks" is exact. */
  lemma SimulationRight(h: nat, t: nat)
    requires t <= h < 0x40000
    ensures SearchSteps(h, t) <= 110 && SearchSteps(0x3fff8, 2) == 110
  {
    assert Pow2(9) == 512;
    Pow2Add(9, 9);
    assert Worst(6) == 15 && Worst(10) == 37 && Worst(14) == 67 && MaxSteps(18) == 110;
    SearchBound(h, t, 18);
    BoundAttained(18, 0x3fff8, 2);
  }
}
