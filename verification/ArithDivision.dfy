/** Bit length and shift-and-subtract division of the limb integers. */
module ArithDivision {
  import opened Powers
  import opened ArithUint256

  // ---------------------------------------------------------------- bits

  /** The top limb fixes the length. */
  lemma TopLimb(x: seq<int>, pos: nat, b: nat)
    requires pos < |x| && Limbs(x) && (forall m :: pos < m < |x| ==> x[m] == 0) && Pow2(b) <= x[pos] < Pow2(b + 1)
    ensures Pow2(32 * pos + b) <= Value(x) < Pow2(32 * pos + b + 1)
  {
    assert Value(x) == Value(x[..pos]) + x[pos] * Base(pos) by {
      ValueSplit(x, pos + 1);
      ZeroValue(x[pos + 1..]);
      Scaled(Value(x[pos + 1..]), 0, 0, Base(pos + 1));
      ValueStep(x, pos);
    }
    ValueBound(x[..pos]);
    BaseIsPow2(pos);
    Pow2Add(b, 32 * pos);
    Pow2Add(b + 1, 32 * pos);
    var p := Base(pos);
    MulMono(Pow2(b), x[pos], p);
    MulMono(x[pos], Pow2(b + 1) - 1, p);
    Scaled(Pow2(b + 1) - 1, Pow2(b + 1), -1, p);
  }

  predicate HasBit(v: int, b: nat) {
    (v / Pow2(b)) % 2 == 1
  }

  lemma BitDecides(v: int, b: nat)
    requires 0 <= v < Pow2(b + 1)
    ensures HasBit(v, b) <==> v >= Pow2(b)
  {
    if v >= Pow2(b) {
      DivModUnique(v, 1, v - Pow2(b), Pow2(b));
    } else {
      DivModUnique(v, 0, v, Pow2(b));
    }
  }

  /** The position of the highest bit set plus one. */
  method Bits(a: array<int>) returns (n: nat)
    requires Limbs(a[..])
    ensures n <= 32 * a.Length && 0 <= Value(a[..]) < Pow2(n) && (n > 0 ==> Pow2(n - 1) <= Value(a[..]))
  {
    Pow2Of32();
    var pos := a.Length - 1;
    while pos >= 0
      invariant -1 <= pos < a.Length && forall m :: pos < m < a.Length ==> a[m] == 0
    {
      if a[pos] != 0 {
        var b := 31;
        while b > 0
          invariant 0 <= b <= 31 && a[pos] < Pow2(b + 1)
        {
          BitDecides(a[pos], b);
          if HasBit(a[pos], b) {
            TopLimb(a[..], pos, b);
            return 32 * pos + b + 1;
          }
          b := b - 1;
        }
        TopLimb(a[..], pos, 0);
        return 32 * pos + 1;
      }
      pos := pos - 1;
    }
    ZeroValue(a[..]);
    return 0;
  }

  // ---------------------------------------------------------------- division

  /** The lowest `s` bits of `v` are clear. */
  predicate LowClear(v: nat, s: nat) {
    s == 0 || (v % 2 == 0 && LowClear(v / 2, s - 1))
  }

  lemma {:induction false} LowClearLess(v: nat, s: nat)
    requires LowClear(v, s + 1)
    ensures LowClear(v, s)
  {
    if s > 0 {
      LowClearLess(v / 2, s - 1);
    }
  }

  lemma {:induction false} ZeroLowClear(s: nat)
    ensures LowClear(0, s)
  {
    if s > 0 {
      ZeroLowClear(s - 1);
    }
  }

  /** Adding a clear bit to a limb of `n` bits. */
  lemma {:induction false} LimbBit(v: nat, s: nat, n: nat)
    requires v < Pow2(n) && s < n && LowClear(v, s + 1)
    ensures Or(v, Pow2(s)) == v + Pow2(s) < Pow2(n) && LowClear(v + Pow2(s), s)
  {
    if s == 0 {
      OrZero(v / 2);
      OrCommutes(v / 2, 0);
    } else {
      LimbBit(v / 2, s - 1, n - 1);
    }
  }

  /** No bit below position `n` is set. */
  ghost predicate ClearBelow(q: seq<int>, n: nat)
    requires Limbs(q)
  {
    && (forall m :: 0 <= m < |q| && m < n / 32 ==> q[m] == 0)
    && (n / 32 < |q| ==> LowClear(q[n / 32], n % 32))
  }

  lemma LimbClear(q: seq<int>, n: nat)
    requires Limbs(q) && n < 32 * |q| && ClearBelow(q, n + 1)
    ensures LowClear(q[n / 32], n % 32 + 1)
  {
    if n % 32 == 31 {
      assert (n + 1) / 32 == n / 32 + 1;
      ZeroLowClear(32);
    } else {
      assert (n + 1) / 32 == n / 32 && (n + 1) % 32 == n % 32 + 1;
    }
  }

  lemma ClearLower(q: seq<int>, n: nat)
    requires Limbs(q) && n < 32 * |q| && ClearBelow(q, n + 1)
    ensures ClearBelow(q, n)
  {
    LimbClear(q, n);
    LowClearLess(q[n / 32], n % 32);
  }

  /** `pn[shift / 32] |= 1 << (shift & 31)` adds 2^shift where that bit and those below are clear. */
  lemma SetBit(q: seq<int>, n: nat, q': seq<int>)
    requires Limbs(q) && n < 32 * |q| && ClearBelow(q, n + 1) && q' == q[n / 32 := Or(q[n / 32], Pow2(n % 32))]
    ensures Limbs(q') && ClearBelow(q', n) && Value(q') == Value(q) + Pow2(n)
  {
    var k, s := n / 32, n % 32;
    LimbClear(q, n);
    Pow2Of32();
    LimbBit(q[k], s, 32);
    BitValue(q, k, s);
  }

  lemma BitValue(q: seq<int>, k: nat, s: nat)
    requires k < |q|
    ensures Value(q[k := q[k] + Pow2(s)]) == Value(q) + Pow2(32 * k + s)
  {
    var add := q[k] + Pow2(s) - q[k];
    ValueUpdate(q, k, q[k] + Pow2(s));
    Scaled(add, Pow2(s), 0, Base(k));
    BaseIsPow2(k);
    Pow2Add(s, 32 * k);
  }

  /** Dividing `x` by `y`, with the quotient's bits above `shift` decided. */
  ghost predicate Dividing(q: seq<int>, num: seq<int>, div: seq<int>, x: int, y: int, shift: int)
    requires shift >= -1
  {
    && |q| == |num| == |div| > 0 && Limbs(q) && Limbs(num) && Limbs(div) && shift < 32 * |q| && ClearBelow(q, shift + 1)
    && Value(q) * y + Value(num) == x && Value(num) < y * Pow2(shift + 1)
       && (shift >= 0 ==> Value(div) == y * Pow2(shift))
  }

  lemma Halved(d: int, y: int, shift: nat)
    requires d == y * Pow2(shift)
    ensures shift > 0 ==> d / 2 == y * Pow2(shift - 1)
  {
    if shift > 0 {
      assert y * Pow2(shift) == 2 * (y * Pow2(shift - 1));
    }
  }

  /** The subtraction does not wrap. */
  method Reduce(num: array<int>, div: array<int>)
    requires num.Length == div.Length > 0 && Limbs(num[..]) && Limbs(div[..]) && num != div
             && Value(num[..]) >= Value(div[..])
    modifies num
    ensures Limbs(num[..]) && Value(num[..]) == Value(old(num[..])) - Value(div[..])
  {
    ghost var n, d, m := Value(num[..]), Value(div[..]), Base(num.Length);
    ValueBound(num[..]);
    ValueBound(div[..]);
    DivModUnique(n - d, 0, n - d, m);
    SubFrom(num, div);
  }

  lemma BitTaken(vq: int, n: int, d: int, x: int, y: int, p: int)
    requires vq * y + n == x && d == y * p && n < y * (2 * p)
    ensures (vq + p) * y + (n - d) == x && n - d < y * p
  {
    Scaled(vq + p, vq, p, y);
    assert y * (2 * p) == 2 * (y * p);
  }

  method DivideStep(q: array<int>, num: array<int>, div: array<int>, shift: nat, ghost x: int, ghost y: int)
    requires q != num && q != div && num != div && Dividing(q[..], num[..], div[..], x, y, shift)
    modifies q, num, div
    ensures Dividing(q[..], num[..], div[..], x, y, shift - 1)
  {
    ghost var vq, n, d := Value(q[..]), Value(num[..]), Value(div[..]);
    var c := CompareTo(num, div);
    if c >= 0 {
      BitTaken(vq, n, d, x, y, Pow2(shift));
      Reduce(num, div);
      ghost var before := q[..];
      q[shift / 32] := Or(q[shift / 32], Pow2(shift % 32));
      SetBit(before, shift, q[..]);
    } else {
      ClearLower(q[..], shift);
    }
    Halved(d, y, shift);
    ShiftRight(div, 1);
  }

  lemma Aligns(x: int, y: int, nx: nat, ny: nat)
    requires 0 < ny <= nx && x < Pow2(nx) && Pow2(ny - 1) <= y < Pow2(ny)
    ensures x < y * Pow2(nx - ny + 1) && 0 <= y * Pow2(nx - ny) < Pow2(nx)
  {
    Pow2Add(ny - 1, nx - ny + 1);
    MulMono(Pow2(ny - 1), y, Pow2(nx - ny + 1));
    Pow2Add(ny, nx - ny);
    MulMono(y, Pow2(ny) - 1, Pow2(nx - ny));
    MulMono(0, y, Pow2(nx - ny));
    Scaled(Pow2(ny) - 1, Pow2(ny), -1, Pow2(nx - ny));
  }

  /** operator/=; false where it throws, with the object zeroed. `b` may be the same object. */
  method Divide(a: array<int>, b: array<int>) returns (ok: bool)
    requires a.Length == b.Length > 0 && Limbs(a[..]) && Limbs(b[..])
    modifies a
    ensures Limbs(a[..]) && (ok <==> Value(old(b[..])) != 0)
    ensures Value(a[..]) == if ok then Value(old(a[..])) / Value(old(b[..])) else 0
  {
    ghost var x, y := Value(a[..]), Value(b[..]);
    var div := Copy(b);
    var num := Copy(a);
    Clear(a);
    var numBits := Bits(num);
    var divBits := Bits(div);
    if divBits == 0 {
      return false;
    }
    if divBits > numBits {
      Pow2Grows(numBits, divBits - 1);
      DivModUnique(x, 0, x, y);
      return true;
    }
    var shift := numBits - divBits;
    Aligns(x, y, numBits, divBits);
    AlignDivisor(div, shift, numBits, y);
    StartDividing(a[..], num[..], div[..], x, y, shift);
    ShiftSubtract(a, num, div, shift, x, y);
    return true;
  }

  lemma StartDividing(q: seq<int>, num: seq<int>, div: seq<int>, x: int, y: int, shift: nat)
    requires |q| == |num| == |div| > 0 && Zeros(q) && Limbs(num) && Limbs(div) && shift < 32 * |q|
    requires Value(num) == x < y * Pow2(shift + 1) && Value(div) == y * Pow2(shift)
    ensures Dividing(q, num, div, x, y, shift)
  {
    ZeroValue(q);
    Scaled(Value(q), 0, 0, y);
    ZeroLowClear((shift + 1) % 32);
  }

  method ShiftSubtract(q: array<int>, num: array<int>, div: array<int>, start: nat, ghost x: int, ghost y: int)
    requires q != num && q != div && num != div && y > 0 && Dividing(q[..], num[..], div[..], x, y, start)
    modifies q, num, div
    ensures Limbs(q[..]) && Value(q[..]) == x / y
  {
    var shift: int := start;
    while shift >= 0
      invariant -1 <= shift && Dividing(q[..], num[..], div[..], x, y, shift)
    {
      DivideStep(q, num, div, shift, x, y);
      shift := shift - 1;
    }
    ValueBound(num[..]);
    DivModUnique(x, Value(q[..]), Value(num[..]), y);
  }

  /** The first shift drops nothing. */
  method AlignDivisor(div: array<int>, shift: nat, numBits: nat, ghost y: int)
    requires Limbs(div[..]) && Value(div[..]) == y && 0 <= y * Pow2(shift) < Pow2(numBits) && numBits <= 32 * div.Length
    modifies div
    ensures Limbs(div[..]) && Value(div[..]) == y * Pow2(shift)
  {
    BaseIsPow2(div.Length);
    Pow2Grows(numBits, 32 * div.Length);
    DivModUnique(y * Pow2(shift), 0, y * Pow2(shift), Base(div.Length));
    ShiftLeft(div, shift);
  }
}
