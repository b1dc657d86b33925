/**
 Fixed-width unsigned integers as arrays of 32-bit limbs, least significant first. Each in-place operation is
 proved to compute its integer result modulo 2^(32 * width), for every width; no 64-bit intermediate overflows.

 `n & 0xffffffff` and `n >> 32` on a 64-bit n are written as remainder and quotient by 2^32.
 */
module ArithUint256 {
  import opened Powers

  const LIMB: int := 0x1_0000_0000
  const WORD: int := 0x1_0000_0000_0000_0000

  predicate Limbs(s: seq<int>) {
    forall i :: 0 <= i < |s| ==> 0 <= s[i] < LIMB
  }

  /** 2^(32 k). */
  function Base(k: nat): (p: nat)
    ensures p > 0
  {
    if k == 0 then 1 else LIMB * Base(k - 1)
  }

  function Value(s: seq<int>): int {
    if s == [] then 0 else Value(s[..|s| - 1]) + s[|s| - 1] * Base(|s| - 1)
  }

  lemma {:induction false} ValueBound(s: seq<int>)
    requires Limbs(s)
    ensures 0 <= Value(s) < Base(|s|)
  {
    if s != [] {
      var n := |s| - 1;
      ValueBound(s[..n]);
      MulMono(s[n], LIMB - 1, Base(n));
      MulMono(0, s[n], Base(n));
    }
  }

  lemma ValueStep(s: seq<int>, i: nat)
    requires i < |s|
    ensures Value(s[..i + 1]) == Value(s[..i]) + s[i] * Base(i)
  {
    assert s[..i + 1][..i] == s[..i];
  }

  lemma {:induction false} ValueUpdate(s: seq<int>, j: nat, x: int)
    requires j < |s|
    ensures Value(s[j := x]) == Value(s) + (x - s[j]) * Base(j)
  {
    var n := |s| - 1;
    if j < n {
      assert s[j := x][..n] == s[..n][j := x];
      ValueUpdate(s[..n], j, x);
    } else {
      assert s[j := x][..n] == s[..n];
      assert (x - s[j]) * Base(j) == x * Base(j) - s[j] * Base(j);
    }
  }

  lemma {:induction false} BaseAdd(j: nat, k: nat)
    ensures Base(j + k) == Base(j) * Base(k)
  {
    if j > 0 {
      BaseAdd(j - 1, k);
      assert LIMB * (Base(j - 1) * Base(k)) == (LIMB * Base(j - 1)) * Base(k);
    }
  }

  lemma Distribute(a: int, b: int, x: int, y: int)
    ensures a * (b + x * y) == a * b + x * (a * y)
  {
  }

  lemma {:induction false} ValueSplit(s: seq<int>, k: nat)
    requires k <= |s|
    ensures Value(s) == Value(s[..k]) + Base(k) * Value(s[k..])
  {
    var n := |s| - 1;
    if k == |s| {
      assert s[..k] == s && s[k..] == [];
    } else {
      ValueSplit(s[..n], k);
      assert s[..n][..k] == s[..k] && s[..n][k..] == s[k..][..n - k] && s[k..][n - k] == s[n];
      BaseAdd(k, n - k);
      Distribute(Base(k), Value(s[k..][..n - k]), s[n], Base(n - k));
    }
  }

  /** One column of a carrying loop: what is stored plus what is carried is the column's total. */
  lemma Column(n: int, p: int)
    requires 0 <= n < WORD
    ensures 0 <= n % LIMB < LIMB && 0 <= n / LIMB < LIMB
    ensures n * p == (n % LIMB) * p + (n / LIMB) * (LIMB * p)
  {
    assert n == (n / LIMB) * LIMB + n % LIMB;
    assert (n / LIMB * LIMB + n % LIMB) * p == (n % LIMB) * p + (n / LIMB) * (LIMB * p);
  }

  /** What is left after dropping multiples of the modulus is the remainder. */
  lemma Wraps(z: seq<int>, total: int, dropped: int)
    requires Limbs(z) && Value(z) + dropped * Base(|z|) == total
    ensures Value(z) == total % Base(|z|)
  {
    ValueBound(z);
    var v, m := Value(z), Base(|z|);
    assert total == dropped * m + v;
    DivModUnique(total, dropped, v, m);
  }

  /** operator+=; `b` may be the same object. */
  method AddTo(a: array<int>, b: array<int>)
    requires a.Length == b.Length && Limbs(a[..]) && Limbs(b[..])
    modifies a
    ensures Limbs(a[..])
    ensures Value(a[..]) == (Value(old(a[..])) + Value(old(b[..]))) % Base(a.Length)
  {
    ghost var x, y := a[..], b[..];
    var carry := 0;
    for i := 0 to a.Length
      invariant Limbs(a[..]) && 0 <= carry <= 1
      invariant forall j :: i <= j < a.Length ==> a[j] == x[j] && b[j] == y[j]
      invariant Value(a[..i]) + carry * Base(i) == Value(x[..i]) + Value(y[..i])
    {
      var n := carry + a[i] + b[i];
      ghost var before := a[..];
      a[i] := n % LIMB;
      assert a[..i] == before[..i];
      AddColumn(x, y, a[..], i, carry, n);
      carry := n / LIMB;
    }
    assert a[..a.Length] == a[..] && x[..a.Length] == x && y[..a.Length] == y;
    Wraps(a[..], Value(x) + Value(y), carry);
  }

  lemma AddColumn(x: seq<int>, y: seq<int>, z: seq<int>, i: nat, carry: int, n: int)
    requires i < |x| == |y| == |z| && n == carry + x[i] + y[i] && 0 <= n < WORD && z[i] == n % LIMB
    requires Value(z[..i]) + carry * Base(i) == Value(x[..i]) + Value(y[..i])
    ensures Value(z[..i + 1]) + n / LIMB * Base(i + 1) == Value(x[..i + 1]) + Value(y[..i + 1])
  {
    ValueStep(x, i);
    ValueStep(y, i);
    ValueStep(z, i);
    Column(n, Base(i));
    assert n * Base(i) == carry * Base(i) + x[i] * Base(i) + y[i] * Base(i);
  }

  lemma SameTail(x: seq<int>, y: seq<int>, k: nat)
    requires |x| == |y| && k <= |x| && x[k..] == y[k..]
    ensures Value(x) - Value(x[..k]) == Value(y) - Value(y[..k])
  {
    ValueSplit(x, k);
    ValueSplit(y, k);
  }

  /** The column law for a unit `u` carried in: `z` is the new limb, `c` the unit carried out. */
  lemma UnitColumn(x: seq<int>, z: seq<int>, i: nat, u: int, c: int, d: int)
    requires i < |x| == |z| && z[i] + c * LIMB == x[i] + u
    requires Value(z[..i]) + u * Base(i) == Value(x[..i]) + d
    ensures Value(z[..i + 1]) + c * Base(i + 1) == Value(x[..i + 1]) + d
  {
    ValueStep(x, i);
    ValueStep(z, i);
    assert (z[i] + c * LIMB) * Base(i) == z[i] * Base(i) + c * (LIMB * Base(i));
    assert (x[i] + u) * Base(i) == x[i] * Base(i) + u * Base(i);
  }

  /** `++` and `--` on one limb, with the unit that goes on to the next. */
  function Next(v: int): int { (v + 1) % LIMB }

  function Previous(v: int): int { (v - 1) % LIMB }

  lemma NextLimb(v: int)
    requires 0 <= v < LIMB
    ensures 0 <= Next(v) < LIMB && Next(v) + (if Next(v) == 0 then 1 else 0) * LIMB == v + 1
  {
  }

  lemma PreviousLimb(v: int)
    requires 0 <= v < LIMB
    ensures 0 <= Previous(v) < LIMB && Previous(v) + (if Previous(v) == LIMB - 1 then -1 else 0) * LIMB == v - 1
  {
  }

  /** Prefix operator++. */
  method Increment(a: array<int>)
    requires a.Length > 0 && Limbs(a[..])
    modifies a
    ensures Limbs(a[..]) && Value(a[..]) == (Value(old(a[..])) + 1) % Base(a.Length)
  {
    ghost var x := a[..];
    var i := 0;
    NextLimb(a[0]);
    a[0] := Next(a[0]);
    ghost var c := if a[0] == 0 then 1 else 0;
    UnitColumn(x, a[..], 0, 1, c, 1);
    while a[i] == 0 && i < a.Length - 1
      invariant 0 <= i < a.Length && Limbs(a[..])
      invariant forall j :: i < j < a.Length ==> a[j] == x[j]
      invariant c == (if a[i] == 0 then 1 else 0)
      invariant Value(a[..i + 1]) + c * Base(i + 1) == Value(x[..i + 1]) + 1
    {
      i := i + 1;
      ghost var before := a[..];
      NextLimb(a[i]);
      a[i] := Next(a[i]);
      assert a[..i] == before[..i];
      c := if a[i] == 0 then 1 else 0;
      UnitColumn(x, a[..], i, 1, c, 1);
    }
    UnitDone(x, a[..], i, c, 1);
  }

  /** Prefix operator--. */
  method Decrement(a: array<int>)
    requires a.Length > 0 && Limbs(a[..])
    modifies a
    ensures Limbs(a[..]) && Value(a[..]) == (Value(old(a[..])) - 1) % Base(a.Length)
  {
    ghost var x := a[..];
    var i := 0;
    PreviousLimb(a[0]);
    a[0] := Previous(a[0]);
    ghost var c := if a[0] == LIMB - 1 then -1 else 0;
    UnitColumn(x, a[..], 0, -1, c, -1);
    while a[i] == LIMB - 1 && i < a.Length - 1
      invariant 0 <= i < a.Length && Limbs(a[..])
      invariant forall j :: i < j < a.Length ==> a[j] == x[j]
      invariant c == (if a[i] == LIMB - 1 then -1 else 0)
      invariant Value(a[..i + 1]) + c * Base(i + 1) == Value(x[..i + 1]) - 1
    {
      i := i + 1;
      ghost var before := a[..];
      PreviousLimb(a[i]);
      a[i] := Previous(a[i]);
      assert a[..i] == before[..i];
      c := if a[i] == LIMB - 1 then -1 else 0;
      UnitColumn(x, a[..], i, -1, c, -1);
    }
    UnitDone(x, a[..], i, c, -1);
  }

  lemma UnitDone(x: seq<int>, z: seq<int>, i: nat, c: int, d: int)
    requires i < |x| == |z| && Limbs(z) && (forall j :: i < j < |z| ==> z[j] == x[j]) && (c == 0 || i == |x| - 1)
    requires Value(z[..i + 1]) + c * Base(i + 1) == Value(x[..i + 1]) + d
    ensures Value(z) == (Value(x) + d) % Base(|z|)
  {
    assert z[i + 1..] == x[i + 1..];
    SameTail(z, x, i + 1);
    assert c * Base(i + 1) == c * Base(|z|);
    Wraps(z, Value(x) + d, c);
  }

  lemma {:induction false} ComplementValue(x: seq<int>, z: seq<int>)
    requires |x| == |z| && forall i :: 0 <= i < |x| ==> z[i] == LIMB - 1 - x[i]
    ensures Value(z) == Base(|x|) - 1 - Value(x)
  {
    if x != [] {
      var n := |x| - 1;
      ComplementValue(x[..n], z[..n]);
      assert (LIMB - 1 - x[n]) * Base(n) == LIMB * Base(n) - Base(n) - x[n] * Base(n);
    }
  }

  /** operator~. */
  method Complement(a: array<int>) returns (r: array<int>)
    requires Limbs(a[..])
    ensures fresh(r) && r.Length == a.Length && Limbs(r[..]) && Value(r[..]) == Base(a.Length) - 1 - Value(a[..])
  {
    r := new int[a.Length];
    for i := 0 to a.Length
      invariant forall j :: 0 <= j < i ==> r[j] == LIMB - 1 - a[j]
    {
      r[i] := LIMB - 1 - a[i];
    }
    ComplementValue(a[..], r[..]);
  }

  /** Unary operator-. */
  method Negate(a: array<int>) returns (r: array<int>)
    requires a.Length > 0 && Limbs(a[..])
    ensures fresh(r) && r.Length == a.Length && Limbs(r[..]) && Value(r[..]) == (-Value(a[..])) % Base(a.Length)
  {
    r := Complement(a);
    ghost var m := Base(a.Length);
    Increment(r);
    ModShift(-Value(a[..]), 1, m);
  }

  lemma ModShift(x: int, k: int, m: int)
    requires m > 0
    ensures (x + k * m) % m == x % m
  {
    DivIs(x, m);
    assert x + k * m == (x / m + k) * m + x % m;
    DivModUnique(x + k * m, x / m + k, x % m, m);
  }

  /** operator-=; `b` may be the same object. */
  method SubFrom(a: array<int>, b: array<int>)
    requires a.Length == b.Length > 0 && Limbs(a[..]) && Limbs(b[..])
    modifies a
    ensures Limbs(a[..])
    ensures Value(a[..]) == (Value(old(a[..])) - Value(old(b[..]))) % Base(a.Length)
  {
    ghost var xs, y, m := a[..], Value(b[..]), Base(a.Length);
    var minus := Negate(b);
    assert a[..] == xs;
    ghost var n := Value(minus[..]);
    AddTo(a, minus);
    SubMod(Value(xs), y, n, m);
  }

  lemma SubMod(x: int, y: int, n: int, m: int)
    requires m > 0 && n == (-y) % m
    ensures (x + n) % m == (x - y) % m
  {
    DivIs(-y, m);
    var k := -((-y) / m);
    assert x + n == x - y + k * m;
    ModShift(x - y, k, m);
  }

  // ---------------------------------------------------------------- multiplication

  /** The 64-bit accumulator never overflows. */
  lemma NoOverflow(carry: int, limb: int, x: int, y: int)
    requires 0 <= carry < LIMB && 0 <= limb < LIMB && 0 <= x < LIMB && 0 <= y < LIMB
    ensures 0 <= x * y && 0 <= carry + limb + x * y < WORD
  {
    MulMono(0, x, y);
    MulMono(x, LIMB - 1, y);
    assert (LIMB - 1) * y <= (LIMB - 1) * (LIMB - 1);
  }

  /** operator*= by one limb. */
  method MulWord(a: array<int>, w: int)
    requires Limbs(a[..]) && 0 <= w < LIMB
    modifies a
    ensures Limbs(a[..]) && Value(a[..]) == (Value(old(a[..])) * w) % Base(a.Length)
  {
    ghost var x := a[..];
    var carry := 0;
    for i := 0 to a.Length
      invariant Limbs(a[..]) && 0 <= carry < LIMB
      invariant forall j :: i <= j < a.Length ==> a[j] == x[j]
      invariant Value(a[..i]) + carry * Base(i) == Value(x[..i]) * w
    {
      var n := carry + w * a[i];
      NoOverflow(carry, 0, w, a[i]);
      ghost var before := a[..];
      a[i] := n % LIMB;
      assert a[..i] == before[..i];
      MulColumn(x, a[..], i, carry, w, n);
      carry := n / LIMB;
    }
    assert a[..a.Length] == a[..] && x[..a.Length] == x;
    Wraps(a[..], Value(x) * w, carry);
  }

  lemma MulColumn(x: seq<int>, z: seq<int>, i: nat, carry: int, w: int, n: int)
    requires i < |x| == |z| && n == carry + w * x[i] && 0 <= n < WORD && z[i] == n % LIMB
    requires Value(z[..i]) + carry * Base(i) == Value(x[..i]) * w
    ensures 0 <= n / LIMB < LIMB
    ensures Value(z[..i + 1]) + n / LIMB * Base(i + 1) == Value(x[..i + 1]) * w
  {
    ValueStep(x, i);
    ValueStep(z, i);
    Column(n, Base(i));
    Scaled(n, carry, w * x[i], Base(i));
    ProductTerm(Value(x[..i + 1]), Value(x[..i]), x[i], Base(i), w);
  }

  lemma ProductTerm(total: int, low: int, v: int, b: int, w: int)
    requires total == low + v * b
    ensures total * w == low * w + (w * v) * b
  {
    Scaled(total, low, v * b, w);
    assert (v * b) * w == (w * v) * b;
  }

  /** The first `i` columns of round `j` are done: `z` is what `x` has become. */
  ghost predicate RoundSoFar(x: seq<int>, y: seq<int>, z: seq<int>, i: nat, j: nat, carry: int, m: int)
    requires i + j <= |x| == |z| && i <= |y|
  {
    && Limbs(z) && (forall n :: i + j <= n < |z| ==> z[n] == x[n]) && 0 <= carry < LIMB
    && Value(z[..i + j]) + carry * Base(i + j) == Value(x[..i + j]) + (m * Base(j)) * Value(y[..i])
  }

  method MulCell(a: array<int>, m: int, b: array<int>, i: nat, j: nat, carry: int, ghost x: seq<int>)
                 returns (next: int)
    requires a.Length == b.Length == |x| && i + j < a.Length && 0 <= m < LIMB && Limbs(b[..])
             && RoundSoFar(x, b[..], a[..], i, j, carry, m)
    requires a == b ==> Zeros(a[..]) && carry == 0
    modifies a
    ensures b[..] == old(b[..]) && RoundSoFar(x, b[..], a[..], i + 1, j, next, m)
    ensures a == b ==> Zeros(a[..]) && next == 0
  {
    ghost var before, y := a[..], b[..];
    var n := carry + a[i + j] + m * b[i];
    NoOverflow(carry, a[i + j], m, b[i]);
    a[i + j] := n % LIMB;
    assert a[..i + j] == before[..i + j];
    RoundColumn(x, y, a[..], i, j, carry, m, n);
    next := n / LIMB;
  }

  /** One round of the long multiplication: adds `m * b`, shifted by `j` limbs. */
  method MulRound(a: array<int>, m: int, b: array<int>, j: nat) returns (ghost dropped: int)
    requires a.Length == b.Length && j < a.Length && Limbs(a[..]) && Limbs(b[..]) && 0 <= m < LIMB
    requires a == b ==> Zeros(a[..])
    modifies a
    ensures Limbs(a[..]) && b[..] == old(b[..]) && (a == b ==> Zeros(a[..]))
    ensures Value(a[..]) + dropped * Base(a.Length) == Value(old(a[..])) + (m * Base(j)) * Value(old(b[..]))
  {
    ghost var x, y := a[..], b[..];
    var carry := 0;
    var i := 0;
    while i + j < a.Length
      invariant 0 <= i <= a.Length - j
      invariant b[..] == y && RoundSoFar(x, y, a[..], i, j, carry, m)
      invariant a == b ==> Zeros(a[..]) && carry == 0
    {
      carry := MulCell(a, m, b, i, j, carry, x);
      i := i + 1;
    }
    dropped := RoundDropped(y, m, j, carry);
    assert a[..a.Length] == a[..] && x[..a.Length] == x;
  }

  lemma RoundColumn(x: seq<int>, y: seq<int>, z: seq<int>, i: nat, j: nat, carry: int, m: int, n: int)
    requires i + j < |x| == |z| && i < |y| && n == carry + x[i + j] + m * y[i] && 0 <= n < WORD && z[i + j] == n % LIMB
    requires Value(z[..i + j]) + carry * Base(i + j) == Value(x[..i + j]) + (m * Base(j)) * Value(y[..i])
    ensures 0 <= n / LIMB < LIMB
    ensures Value(z[..i + j + 1]) + n / LIMB * Base(i + j + 1)
            == Value(x[..i + j + 1]) + (m * Base(j)) * Value(y[..i + 1])
  {
    var p, t, u := Base(i + j), (m * Base(j)) * Value(y[..i]), (m * y[i]) * Base(i + j);
    assert (m * Base(j)) * Value(y[..i + 1]) == t + u by {
      ValueStep(y, i);
      BaseAdd(j, i);
      RoundTerm(m, Base(j), Value(y[..i + 1]), Value(y[..i]), y[i], Base(i), p);
    }
    ColumnOf(n, carry, x[i + j], m * y[i], p);
    ValueStep(x, i + j);
    ValueStep(z, i + j);
  }

  lemma ColumnOf(n: int, carry: int, x: int, product: int, p: int)
    requires n == carry + x + product && 0 <= n < WORD
    ensures 0 <= n / LIMB < LIMB && (n % LIMB) * p + (n / LIMB) * (LIMB * p) == carry * p + x * p + product * p
  {
    Column(n, p);
    assert n * p == carry * p + x * p + product * p;
  }

  lemma RoundTerm(m: int, bj: int, total: int, low: int, high: int, bk: int, w: int)
    requires total == low + bk * high && w == bj * bk
    ensures (m * bj) * total == (m * bj) * low + (m * high) * w
  {
    var f := m * bj;
    assert f * total == f * low + f * (bk * high);
    assert f * (bk * high) == (m * high) * (bj * bk);
  }

  lemma RoundSplit(y: seq<int>, m: int, j: nat, k: nat)
    requires j + k == |y|
    ensures (m * Base(j)) * Value(y) == (m * Base(j)) * Value(y[..k]) + (m * Value(y[k..])) * Base(|y|)
  {
    ValueSplit(y, k);
    BaseAdd(j, k);
    RoundTerm(m, Base(j), Value(y), Value(y[..k]), Value(y[k..]), Base(k), Base(|y|));
  }

  /** What the round cuts off: the last carry and the limbs of `y` that do not fit. */
  lemma RoundDropped(y: seq<int>, m: int, j: nat, carry: int) returns (dropped: int)
    requires j <= |y|
    ensures (m * Base(j)) * Value(y[..|y| - j]) - carry * Base(|y|) == (m * Base(j)) * Value(y) - dropped * Base(|y|)
  {
    var k := |y| - j;
    dropped := carry + m * Value(y[k..]);
    RoundSplit(y, m, j, k);
    Scaled(dropped, carry, m * Value(y[k..]), Base(|y|));
  }

  lemma Scaled(sum: int, a: int, b: int, w: int)
    requires sum == a + b
    ensures sum * w == a * w + b * w
  {
  }

  predicate Zeros(s: seq<int>) {
    forall i :: 0 <= i < |s| ==> s[i] == 0
  }

  lemma {:induction false} ZeroValue(s: seq<int>)
    requires Zeros(s)
    ensures Value(s) == 0
  {
    if s != [] {
      ZeroValue(s[..|s| - 1]);
    }
  }

  method Clear(a: array<int>)
    modifies a
    ensures Zeros(a[..]) && Value(a[..]) == 0
  {
    for i := 0 to a.Length
      invariant forall k :: 0 <= k < i ==> a[k] == 0
    {
      a[i] := 0;
    }
    ZeroValue(a[..]);
  }

  /** The copy constructor. */
  method Copy(a: array<int>) returns (r: array<int>)
    ensures fresh(r) && r[..] == a[..]
  {
    r := new int[a.Length];
    for i := 0 to a.Length
      invariant forall k :: 0 <= k < i ==> r[k] == a[k]
    {
      r[i] := a[i];
    }
  }

  /** operator*= by another number. The object is zeroed before `b` is read, so an aliased call gives zero. */
  method MulBig(a: array<int>, b: array<int>)
    requires a.Length == b.Length && Limbs(a[..]) && Limbs(b[..])
    modifies a
    ensures Limbs(a[..])
    ensures a != b ==> Value(a[..]) == (Value(old(a[..])) * Value(b[..])) % Base(a.Length)
    ensures a == b ==> Value(a[..]) == 0
  {
    ghost var x := a[..];
    var copy := Copy(a);
    Clear(a);
    ghost var y := b[..];
    ghost var dropped := 0;
    for j := 0 to a.Length
      invariant Limbs(a[..]) && b[..] == y && copy[..] == x && (a == b ==> Zeros(a[..]))
      invariant Value(a[..]) + dropped * Base(a.Length) == Value(x[..j]) * Value(y)
    {
      ghost var d := MulRound(a, copy[j], b, j);
      ProductStep(x, y, j, dropped, d, Base(a.Length));
      dropped := dropped + d;
    }
    assert x[..a.Length] == x;
    Wraps(a[..], Value(x) * Value(y), dropped);
    if a == b {
      ZeroValue(a[..]);
    }
  }

  lemma ProductStep(x: seq<int>, y: seq<int>, j: nat, dropped: int, d: int, m: int)
    requires j < |x|
    ensures Value(x[..j + 1]) * Value(y) == Value(x[..j]) * Value(y) + (x[j] * Base(j)) * Value(y)
    ensures (dropped + d) * m == dropped * m + d * m
  {
    ValueStep(x, j);
    assert (Value(x[..j]) + x[j] * Base(j)) * Value(y) == Value(x[..j]) * Value(y) + (x[j] * Base(j)) * Value(y);
  }

  // ---------------------------------------------------------------- comparison

  lemma HighLimbDecides(x: seq<int>, y: seq<int>, i: nat)
    requires |x| == |y| && i < |x| && Limbs(x) && Limbs(y) && x[i + 1..] == y[i + 1..] && x[i] < y[i]
    ensures Value(x) < Value(y)
  {
    SameTail(x, y, i + 1);
    ValueStep(x, i);
    ValueStep(y, i);
    ValueBound(x[..i]);
    ValueBound(y[..i]);
    MulMono(x[i] + 1, y[i], Base(i));
    Scaled(x[i] + 1, x[i], 1, Base(i));
  }

  method CompareTo(a: array<int>, b: array<int>) returns (c: int)
    requires a.Length == b.Length && Limbs(a[..]) && Limbs(b[..])
    ensures c == if Value(a[..]) < Value(b[..]) then -1 else if Value(a[..]) > Value(b[..]) then 1 else 0
    ensures c == 0 <==> a[..] == b[..]
  {
    var i := a.Length;
    while i > 0
      invariant 0 <= i <= a.Length && a[i..] == b[i..]
    {
      i := i - 1;
      if a[i] < b[i] {
        HighLimbDecides(a[..], b[..], i);
        return -1;
      }
      if a[i] > b[i] {
        HighLimbDecides(b[..], a[..], i);
        return 1;
      }
      assert a[i..] == [a[i]] + a[i + 1..] && b[i..] == [b[i]] + b[i + 1..];
    }
    assert a[..] == a[0..] && b[..] == b[0..];
    return 0;
  }

  // ---------------------------------------------------------------- bitwise or

  /** operator| on unsigned integers. */
  function Or(x: nat, y: nat): nat
    decreases x + y
  {
    if x == 0 && y == 0 then 0
    else 2 * Or(x / 2, y / 2) + if x % 2 == 1 || y % 2 == 1 then 1 else 0
  }

  lemma {:induction false} OrZero(y: nat)
    ensures Or(0, y) == y
  {
    if y > 0 {
      OrZero(y / 2);
    }
  }

  lemma {:induction false} OrCommutes(x: nat, y: nat)
    ensures Or(x, y) == Or(y, x)
    decreases x + y
  {
    if x != 0 || y != 0 {
      OrCommutes(x / 2, y / 2);
    }
  }

  /** Numbers without a common bit are added. */
  lemma {:induction false} OrIsSum(x: nat, y: nat, q: nat, s: nat)
    requires x < Pow2(s) && y == q * Pow2(s)
    ensures Or(x, y) == x + y
  {
    if s == 0 {
      OrZero(y);
    } else {
      HalfOfMultiple(y, q, Pow2(s - 1));
      OrIsSum(x / 2, y / 2, q, s - 1);
    }
  }

  lemma HalfOfMultiple(y: nat, q: nat, p: nat)
    requires y == q * (2 * p)
    ensures y % 2 == 0 && y / 2 == q * p
  {
    assert q * (2 * p) == 2 * (q * p);
  }

  // ---------------------------------------------------------------- shifts

  lemma {:induction false} BaseIsPow2(k: nat)
    ensures Base(k) == Pow2(32 * k)
  {
    if k > 0 {
      BaseIsPow2(k - 1);
      Pow2Add(32, 32 * (k - 1));
      Pow2Of32();
    }
  }

  lemma Pow2Of32()
    ensures Pow2(32) == LIMB
  {
    assert Pow2(8) == 0x100;
    Pow2Add(8, 8);
    Pow2Add(16, 16);
  }

  /** Shifting a limb left by `s` bits splits it over two limbs. */
  lemma ShiftParts(v: int, s: nat)
    requires 0 <= v < LIMB && s <= 32
    ensures var hi, lo := v / Pow2(32 - s), v % Pow2(32 - s) * Pow2(s);
            && v * Pow2(s) == lo + hi * LIMB && 0 <= hi < Pow2(s) && 0 <= lo <= LIMB - Pow2(s)
               && lo == (v * Pow2(s)) % LIMB
  {
    Pow2Add(32 - s, s);
    Pow2Of32();
    SplitLimb(v, Pow2(32 - s), Pow2(s));
  }

  lemma SplitLimb(v: int, c: int, d: int)
    requires 0 <= v < LIMB && c > 0 && d > 0 && c * d == LIMB
    ensures v * d == v % c * d + v / c * LIMB && 0 <= v / c < d && 0 <= v % c * d <= LIMB - d
            && v % c * d == (v * d) % LIMB
  {
    var hi, r := v / c, v % c;
    DivIs(v, c);
    SplitProduct(v, hi, c, r, d);
    assert 0 <= hi < d by {
      QuotientBound(v, hi, c, r, d);
    }
    assert 0 <= r * d <= LIMB - d by {
      MulMono(0, r, d);
      MulMono(r, c - 1, d);
      Scaled(c - 1, c, -1, d);
    }
    DivModUnique(v * d, hi, r * d, LIMB);
  }

  lemma QuotientBound(v: int, hi: int, c: int, r: int, d: int)
    requires c > 0 && d > 0 && v == hi * c + r && 0 <= r < c && 0 <= v < c * d
    ensures 0 <= hi < d
  {
    if hi >= d {
      MulMono(d, hi, c);
      assert false;
    }
    if hi < 0 {
      MulMono(hi, -1, c);
      assert false;
    }
  }

  lemma SplitProduct(v: int, hi: int, c: int, r: int, d: int)
    requires v == hi * c + r
    ensures v * d == hi * (c * d) + r * d
  {
    assert v * d == (hi * c) * d + r * d;
  }

  predicate Naturals(s: seq<int>) {
    forall i :: 0 <= i < |s| ==> s[i] >= 0
  }

  /** `z` with `add` or-ed into limb `m`, if there is such a limb. */
  function Placed(z: seq<int>, m: int, add: nat): (r: seq<int>)
    requires Naturals(z)
    ensures |r| == |z| && Naturals(r)
  {
    if 0 <= m < |z| then z[m := Or(z[m], add)] else z
  }

  /** When the bits do not collide that adds `add * 2^(32 m)`, modulo the width. */
  lemma PlacedValue(z: seq<int>, m: nat, add: nat) returns (dropped: int)
    requires Naturals(z) && (m < |z| ==> Or(z[m], add) == z[m] + add)
    ensures Value(Placed(z, m, add)) + dropped * Base(|z|) == Value(z) + add * Base(m)
  {
    if m < |z| {
      ValueUpdate(z, m, z[m] + add);
      dropped := 0;
    } else {
      BaseAdd(m - |z|, |z|);
      dropped := add * Base(m - |z|);
      assert dropped * Base(|z|) == add * (Base(m - |z|) * Base(|z|));
    }
  }

  /** After `i` limbs of `x`. */
  ghost predicate LeftSoFar(x: seq<int>, z: seq<int>, i: nat, k: nat, s: nat, dropped: int)
    requires i <= |x|
  {
    && Limbs(z) && (forall m :: i + k < m < |z| ==> z[m] == 0) && (i + k < |z| ==> z[i + k] < Pow2(s))
    && Value(z) + dropped * Base(|z|) == Value(x[..i]) * (Pow2(s) * Base(k))
  }

  /** The halves of a shifted limb: `hi` in the next limb, `lo` in this one. */
  ghost predicate Halves(v: int, s: nat, hi: int, lo: int, q: int) {
    0 <= hi < Pow2(s) && 0 <= q && 0 <= lo == q * Pow2(s) && lo + Pow2(s) <= LIMB && v * Pow2(s) == lo + hi * LIMB
  }

  lemma LeftLimbs(z: seq<int>, m: nat, s: nat, v: int, hi: int, lo: int, q: int)
    requires Limbs(z) && (forall n :: m < n < |z| ==> z[n] == 0) && (m < |z| ==> z[m] < Pow2(s))
             && Halves(v, s, hi, lo, q)
    ensures var z1 := Placed(z, m + 1, hi);
            var z2 := Placed(z1, m, lo);
            && (m + 1 < |z| ==> z1 == z[m + 1 := hi] && Or(z[m + 1], hi) == z[m + 1] + hi)
            && (m < |z| ==> z1[m] == z[m] && Or(z1[m], lo) == z1[m] + lo < LIMB)
            && Limbs(z2) && (forall n :: m + 1 < n < |z2| ==> z2[n] == 0) && (m + 1 < |z2| ==> z2[m + 1] < Pow2(s))
  {
    OrZero(hi);
    if m < |z| {
      OrIsSum(z[m], lo, q, s);
    }
  }

  lemma LeftStep(x: seq<int>, z: seq<int>, i: nat, k: nat, s: nat, dropped: int, hi: int, lo: int, q: int)
                 returns (dropped': int)
    requires i < |x| && LeftSoFar(x, z, i, k, s, dropped) && Halves(x[i], s, hi, lo, q)
    ensures LeftSoFar(x, Placed(Placed(z, i + k + 1, hi), i + k, lo), i + 1, k, s, dropped')
  {
    LeftLimbs(z, i + k, s, x[i], hi, lo, q);
    var d := LeftValue(z, i + k, hi, lo);
    dropped' := dropped + d;
    Scaled(dropped', dropped, d, Base(|z|));
    LeftTotal(x, i, k, s, hi, lo);
  }

  lemma LeftValue(z: seq<int>, m: nat, hi: nat, lo: nat) returns (dropped: int)
    requires Naturals(z) && (m + 1 < |z| ==> Or(z[m + 1], hi) == z[m + 1] + hi)
    requires m < |z| ==> var z1 := Placed(z, m + 1, hi); Or(z1[m], lo) == z1[m] + lo
    ensures Value(Placed(Placed(z, m + 1, hi), m, lo)) + dropped * Base(|z|)
            == Value(z) + hi * Base(m + 1) + lo * Base(m)
  {
    var d1 := PlacedValue(z, m + 1, hi);
    var d2 := PlacedValue(Placed(z, m + 1, hi), m, lo);
    dropped := d1 + d2;
    Scaled(dropped, d1, d2, Base(|z|));
  }

  lemma LeftTotal(x: seq<int>, i: nat, k: nat, s: nat, hi: int, lo: int)
    requires i < |x| && x[i] * Pow2(s) == lo + hi * LIMB
    ensures Value(x[..i + 1]) * (Pow2(s) * Base(k))
            == Value(x[..i]) * (Pow2(s) * Base(k)) + hi * Base(i + k + 1) + lo * Base(i + k)
  {
    ValueStep(x, i);
    BaseAdd(i, k);
    LeftTerms(Value(x[..i + 1]), Value(x[..i]), x[i], Base(i), Pow2(s), Base(k), Base(i + k), hi, lo);
  }

  lemma LeftTerms(total: int, low: int, v: int, b: int, p: int, bk: int, bik: int, hi: int, lo: int)
    requires total == low + v * b && bik == b * bk && v * p == lo + hi * LIMB
    ensures total * (p * bk) == low * (p * bk) + hi * (LIMB * bik) + lo * bik
  {
    var f := p * bk;
    assert total * f == low * f + (v * b) * f;
    assert (v * b) * f == (v * p) * (b * bk);
    assert (v * p) * bik == lo * bik + hi * (LIMB * bik);
  }

  lemma ShiftFactor(shift: nat)
    ensures Pow2(shift % 32) * Base(shift / 32) == Pow2(shift)
  {
    BaseIsPow2(shift / 32);
    Pow2Add(shift % 32, 32 * (shift / 32));
  }

  lemma LimbHalves(v: int, s: nat)
    requires 0 <= v < LIMB && s <= 32
    ensures Halves(v, s, v / Pow2(32 - s), (v * Pow2(s)) % LIMB, v % Pow2(32 - s))
  {
    ShiftParts(v, s);
    DivIs(v, Pow2(32 - s));
  }

  method LeftCell(a: array<int>, v: int, i: nat, k: nat, s: nat, ghost x: seq<int>, ghost dropped: int)
                  returns (ghost dropped': int)
    requires i < |x| && v == x[i] && Limbs(x) && s < 32 && LeftSoFar(x, a[..], i, k, s, dropped)
    modifies a
    ensures LeftSoFar(x, a[..], i + 1, k, s, dropped')
  {
    ghost var z := a[..];
    ghost var hi, lo := v / Pow2(32 - s), (v * Pow2(s)) % LIMB;
    LimbHalves(v, s);
    if i + k + 1 < a.Length && s != 0 {
      a[i + k + 1] := Or(a[i + k + 1], v / Pow2(32 - s));
    }
    assert a[..] == Placed(z, i + k + 1, hi);
    if i + k < a.Length {
      a[i + k] := Or(a[i + k], (v * Pow2(s)) % LIMB);
    }
    assert a[..] == Placed(Placed(z, i + k + 1, hi), i + k, lo);
    dropped' := LeftStep(x, z, i, k, s, dropped, hi, lo, v % Pow2(32 - s));
  }

  /** operator<<=. */
  method ShiftLeft(a: array<int>, shift: nat)
    requires Limbs(a[..])
    modifies a
    ensures Limbs(a[..]) && Value(a[..]) == (Value(old(a[..])) * Pow2(shift)) % Base(a.Length)
  {
    ghost var x := a[..];
    var copy := Copy(a);
    Clear(a);
    var k, s := shift / 32, shift % 32;
    ghost var dropped := 0;
    for i := 0 to a.Length
      invariant copy[..] == x && LeftSoFar(x, a[..], i, k, s, dropped)
    {
      dropped := LeftCell(a, copy[i], i, k, s, x, dropped);
    }
    assert x[..a.Length] == x;
    ShiftFactor(shift);
    Wraps(a[..], Value(x) * Pow2(shift), dropped);
  }

  /** After `i` limbs of `x`: `f` is the divisor, `rem` what has been shifted out. */
  ghost predicate RightSoFar(x: seq<int>, z: seq<int>, i: nat, k: nat, t: nat, f: int, rem: int)
    requires i <= |x|
  {
    && Limbs(z) && (forall m :: 0 <= m < |z| && m >= i - k ==> z[m] == 0)
       && (0 <= i - k - 1 < |z| ==> z[i - k - 1] < Pow2(t))
    && Value(z) * f + rem == Value(x[..i])
    && 0 <= rem < if i <= k then Base(i) else f
  }

  lemma RightLimbs(z: seq<int>, m: nat, t: nat, v: int, hi: int, lo: int, q: int)
    requires Limbs(z) && (forall n :: m < n < |z| ==> z[n] == 0) && m + 1 < |z| && z[m] < Pow2(t)
             && Halves(v, t, hi, lo, q)
    ensures var z1 := Placed(z, m, lo);
            var z2 := Placed(z1, m + 1, hi);
            && z1[m + 1] == z[m + 1] && Or(z[m], lo) == z[m] + lo && Or(z1[m + 1], hi) == z1[m + 1] + hi
            && Limbs(z2) && (forall n :: m + 1 < n < |z2| ==> z2[n] == 0) && z2[m + 1] < Pow2(t)
  {
    OrZero(hi);
    OrIsSum(z[m], lo, q, t);
  }

  lemma RightStep(x: seq<int>, z: seq<int>, i: nat, k: nat, s: nat, f: int, rem: int, hi: int, lo: int, q: int)
    requires k < i < |x| == |z| && s < 32 && f == Pow2(s) * Base(k)
    requires RightSoFar(x, z, i, k, 32 - s, f, rem) && Halves(x[i], 32 - s, hi, lo, q)
    ensures RightSoFar(x, Placed(Placed(z, i - k - 1, lo), i - k, hi), i + 1, k, 32 - s, f, rem)
  {
    var m := i - k - 1;
    RightLimbs(z, m, 32 - s, x[i], hi, lo, q);
    RightValue(z, m, k, s, f, x[i], hi, lo);
    ValueStep(x, i);
  }

  lemma RightValue(z: seq<int>, m: nat, k: nat, s: nat, f: int, v: int, hi: nat, lo: nat)
    requires Naturals(z) && m + 1 < |z| && s < 32 && f == Pow2(s) * Base(k) && v * Pow2(32 - s) == lo + hi * LIMB
    requires var z1 := Placed(z, m, lo); Or(z[m], lo) == z[m] + lo && Or(z1[m + 1], hi) == z1[m + 1] + hi
    ensures Value(Placed(Placed(z, m, lo), m + 1, hi)) * f == Value(z) * f + v * Base(m + 1 + k)
  {
    var z1 := Placed(z, m, lo);
    var z2, add := Placed(z1, m + 1, hi), lo * Base(m) + hi * Base(m + 1);
    assert Value(z2) == Value(z) + add by {
      ValueUpdate(z, m, z[m] + lo);
      ValueUpdate(z1, m + 1, z1[m + 1] + hi);
    }
    assert add * f == v * Base(m + 1 + k) by {
      Pow2Add(s, 32 - s);
      Pow2Of32();
      BaseAdd(m, k);
      RightTerms(v, Base(m), Pow2(s), Pow2(32 - s), Base(k), Base(m + k), hi, lo);
    }
    Scaled(Value(z2), Value(z), add, f);
  }

  lemma RightTerms(v: int, bm: int, p: int, p': int, bk: int, bmk: int, hi: int, lo: int)
    requires p * p' == LIMB && bmk == bm * bk && v * p' == lo + hi * LIMB
    ensures (lo * bm + hi * (LIMB * bm)) * (p * bk) == v * (LIMB * bmk)
  {
    assert lo * bm + hi * (LIMB * bm) == (v * p') * bm;
    assert ((v * p') * bm) * (p * bk) == v * ((p * p') * (bm * bk));
  }

  lemma RightFirst(x: seq<int>, z: seq<int>, k: nat, s: nat, f: int, rem: int, hi: int, low: int)
    requires k < |x| == |z| && s < 32 && f == Pow2(s) * Base(k) && RightSoFar(x, z, k, k, 32 - s, f, rem)
    requires x[k] == hi * Pow2(s) + low && 0 <= low < Pow2(s) && 0 <= hi < Pow2(32 - s) <= LIMB
    ensures RightSoFar(x, Placed(z, 0, hi), k + 1, k, 32 - s, f, rem + low * Base(k))
  {
    var z' := Placed(z, 0, hi);
    ZeroValue(z);
    assert Value(z') == hi && z' == z[0 := hi] by {
      OrZero(hi);
      ValueUpdate(z, 0, hi);
    }
    FirstTerms(x[k], hi, Pow2(s), low, Base(k), rem);
    ValueStep(x, k);
  }

  lemma FirstTerms(v: int, hi: int, p: int, low: int, b: int, rem: int)
    requires v == hi * p + low && 0 <= low < p && 0 <= rem < b
    ensures hi * (p * b) + (rem + low * b) == rem + v * b && 0 <= rem + low * b < p * b
  {
    assert (hi * p + low) * b == hi * (p * b) + low * b;
    MulMono(0, low, b);
    MulMono(low, p - 1, b);
    Scaled(p - 1, p, -1, b);
  }

  lemma RightBefore(x: seq<int>, z: seq<int>, i: nat, k: nat, t: nat, f: int, rem: int)
    requires i < k && i < |x| == |z| && Limbs(x) && RightSoFar(x, z, i, k, t, f, rem)
    ensures RightSoFar(x, z, i + 1, k, t, f, rem + x[i] * Base(i))
  {
    assert Value(z) * f == 0 by {
      ZeroValue(z);
      Scaled(Value(z), 0, 0, f);
    }
    ValueStep(x, i);
    ValueBound(x[..i + 1]);
  }

  method RightCell(a: array<int>, v: int, i: nat, k: nat, s: nat, ghost x: seq<int>, ghost f: int, ghost rem: int)
                   returns (ghost rem': int)
    requires i < |x| == a.Length && v == x[i] && Limbs(x) && s < 32 && f == Pow2(s) * Base(k)
             && RightSoFar(x, a[..], i, k, 32 - s, f, rem)
    modifies a
    ensures RightSoFar(x, a[..], i + 1, k, 32 - s, f, rem')
  {
    ghost var z := a[..];
    ghost var hi, lo := v / Pow2(s), (v * Pow2(32 - s)) % LIMB;
    LimbHalves(v, 32 - s);
    if i - k - 1 >= 0 && s != 0 {
      a[i - k - 1] := Or(a[i - k - 1], (v * Pow2(32 - s)) % LIMB);
    }
    assert i > k ==> a[..] == Placed(z, i - k - 1, lo) by {
      RightIdle(z, i - k - 1, s, lo, v % Pow2(s));
    }
    if i - k >= 0 {
      a[i - k] := Or(a[i - k], v / Pow2(s));
    }
    if i > k {
      assert a[..] == Placed(Placed(z, i - k - 1, lo), i - k, hi);
      RightStep(x, z, i, k, s, f, rem, hi, lo, v % Pow2(s));
      rem' := rem;
    } else if i == k {
      assert a[..] == Placed(z, 0, hi);
      DivIs(v, Pow2(s));
      RightFirst(x, z, k, s, f, rem, hi, v % Pow2(s));
      rem' := rem + v % Pow2(s) * Base(k);
    } else {
      assert a[..] == z;
      RightBefore(x, z, i, k, 32 - s, f, rem);
      rem' := rem + v * Base(i);
    }
  }

  /** Where nothing is shifted within limbs the source skips a step that would change nothing. */
  lemma RightIdle(z: seq<int>, m: int, s: nat, lo: int, q: int)
    requires Naturals(z) && s < 32 && 0 <= lo == q * Pow2(32 - s) && 0 <= q < Pow2(s)
    ensures s == 0 ==> Placed(z, m, lo) == z
  {
    if s == 0 && 0 <= m < |z| {
      OrZero(z[m]);
      OrCommutes(z[m], 0);
    }
  }

  /** operator>>=. */
  method ShiftRight(a: array<int>, shift: nat)
    requires Limbs(a[..])
    modifies a
    ensures Limbs(a[..]) && Value(a[..]) == Value(old(a[..])) / Pow2(shift)
  {
    ghost var x := a[..];
    var copy := Copy(a);
    Clear(a);
    var k, s := shift / 32, shift % 32;
    ghost var f, rem := Pow2(s) * Base(k), 0;
    for i := 0 to a.Length
      invariant copy[..] == x && RightSoFar(x, a[..], i, k, 32 - s, f, rem)
    {
      rem := RightCell(a, copy[i], i, k, s, x, f, rem);
    }
    assert x[..a.Length] == x;
    ShiftFactor(shift);
    if a.Length <= k {
      BaseGrows(a.Length, k);
      MulMono(1, Pow2(s), Base(k));
    }
    DivModUnique(Value(x), Value(a[..]), rem, f);
  }

  lemma BaseGrows(i: nat, k: nat)
    requires i <= k
    ensures Base(i) <= Base(k)
  {
    BaseAdd(i, k - i);
    MulMono(1, Base(k - i), Base(i));
  }
}
