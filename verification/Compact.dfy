/**
 The compact format of difficulty targets: a byte count and a 23-bit mantissa with a sign bit, packed into 32 bits;
 and the work that a target stands for.
 */
module Compact {
  import opened Powers
  import opened ArithUint256
  import opened ArithDivision

  const MANTISSA: int := 0x80_0000
  const SIZE: int := 0x100_0000

  function Pow256(k: nat): (p: nat)
    ensures p > 0
  {
    if k == 0 then 1 else 256 * Pow256(k - 1)
  }

  lemma {:induction false} Pow256IsPow2(k: nat)
    ensures Pow256(k) == Pow2(8 * k)
  {
    if k > 0 {
      Pow256IsPow2(k - 1);
      Pow2Add(8, 8 * (k - 1));
      assert Pow2(8) == 256;
    }
  }

  lemma {:induction false} Pow256Add(j: nat, k: nat)
    ensures Pow256(j + k) == Pow256(j) * Pow256(k)
  {
    if j > 0 {
      Pow256Add(j - 1, k);
      assert 256 * (Pow256(j - 1) * Pow256(k)) == (256 * Pow256(j - 1)) * Pow256(k);
    }
  }

  // ---------------------------------------------------------------- decoding

  predicate IsCompact(c: int) {
    0 <= c < LIMB
  }

  function SizeOf(c: int): (size: nat)
    requires IsCompact(c)
    ensures size < 256
  {
    c / SIZE
  }

  function MantissaOf(c: int): (m: nat)
    ensures m < MANTISSA
  {
    c % MANTISSA
  }

  predicate SignOf(c: int) { (c / MANTISSA) % 2 == 1 }

  /** The number that is meant: mantissa * 256^(size - 3), without any limit on its width. */
  function Decoded(c: int): (v: nat)
    requires IsCompact(c)
  {
    Scale(MantissaOf(c), SizeOf(c))
  }

  function Scale(mantissa: nat, size: nat): (v: nat) {
    if size <= 3 then ScaleDown(mantissa, Pow256(3 - size)) else ScaleUp(mantissa, Pow256(size - 3))
  }

  function ScaleDown(m: nat, p: nat): nat
    requires p > 0
  {
    m / p
  }

  function ScaleUp(m: nat, p: nat): nat {
    m * p
  }

  /** The source's overflow test. */
  predicate OverflowTest(word: int, size: int) {
    word != 0 && (size > 34 || (word > 0xff && size > 33) || (word > 0xffff && size > 32))
  }

  lemma {:induction false} Pow256Grows(j: nat, k: nat)
    requires j <= k
    ensures Pow256(j) <= Pow256(k)
    decreases k - j
  {
    if j < k {
      Pow256Grows(j, k - 1);
    }
  }

  lemma LowPowers()
    ensures Pow256(0) == 1 && Pow256(1) == 0x100 && Pow256(2) == 0x1_0000 && Pow256(3) == 0x100_0000
  {
  }

  /** A product with a power reaches a higher power exactly when the factor reaches the rest. */
  lemma ReachesPower(word: int, j: nat, k: nat)
    requires 0 <= word && j <= k
    ensures word * Pow256(j) >= Pow256(k) <==> word >= Pow256(k - j)
  {
    var p, r := Pow256(j), Pow256(k - j);
    Pow256Add(k - j, j);
    if word >= r {
      MulMono(r, word, p);
    } else {
      MulMono(word, r - 1, p);
      Scaled(r - 1, r, -1, p);
    }
  }

  /** The overflow flag is set exactly when the number does not fit into 32 bytes. */
  lemma OverflowExact(word: int, size: int, bytes: nat)
    requires 0 <= word < MANTISSA && 3 < size && bytes == 32
    ensures OverflowTest(word, size) <==> word * Pow256(size - 3) >= Pow256(bytes)
  {
    var e := size - 3;
    if size > 34 {
      Pow256Grows(bytes, e);
      if word >= 1 {
        MulMono(1, word, Pow256(e));
      }
    } else {
      ReachesPower(word, e, bytes);
      TestIsPower(word, size, bytes - e);
    }
  }

  lemma TestIsPower(word: int, size: int, k: nat)
    requires 0 <= word < MANTISSA && 3 < size <= 34 && k == 35 - size
    ensures OverflowTest(word, size) <==> word >= Pow256(k)
  {
    LowPowers();
    if size <= 32 {
      Pow256Grows(3, k);
    }
  }

  // ---------------------------------------------------------------- encoding

  /** The number of bytes of `v`. */
  function ByteSize(v: nat): nat {
    if v == 0 then 0 else 1 + ByteSize(v / 256)
  }

  lemma {:induction false} ByteSizeBounds(v: nat)
    ensures v < Pow256(ByteSize(v)) && (v > 0 ==> Pow256(ByteSize(v) - 1) <= v)
  {
    if v > 0 {
      ByteSizeBounds(v / 256);
    }
  }

  lemma {:induction false} ByteSizeUnique(v: nat, n: nat)
    requires v < Pow256(n) && (n > 0 ==> Pow256(n - 1) <= v)
    ensures ByteSize(v) == n
  {
    if n > 0 {
      ByteSizeUnique(v / 256, n - 1);
    }
  }

  /** The three leading bytes. */
  function Leading(v: nat, size: nat): nat {
    if size <= 3 then ScaleUp(v, Pow256(3 - size)) else ScaleDown(v, Pow256(size - 3))
  }

  /** A leading byte of 0x80 or more would look like a sign, so the mantissa is moved down a byte. */
  function Encoded(v: nat): (c: int) {
    var size := ByteSize(v);
    var m := Leading(v, size);
    if m >= MANTISSA then (size + 1) * SIZE + m / 256 else size * SIZE + m
  }

  lemma LeadingBounds(v: nat, size: nat)
    requires v < Pow256(size) && (size > 0 ==> Pow256(size - 1) <= v)
    ensures Leading(v, size) < SIZE && (size > 0 ==> Leading(v, size) >= 0x1_0000)
  {
    LowPowers();
    if size <= 3 {
      var p := Pow256(3 - size);
      Pow256Add(size, 3 - size);
      MulMono(v, Pow256(size) - 1, p);
      Scaled(Pow256(size) - 1, Pow256(size), -1, p);
      if size > 0 {
        Pow256Add(size - 1, 3 - size);
        MulMono(Pow256(size - 1), v, p);
      }
    } else {
      var p := Pow256(size - 3);
      Pow256Add(3, size - 3);
      Pow256Add(2, size - 3);
      DivIs(v, p);
      QuotientBound(v, v / p, p, v % p, 0x100_0000);
      QuotientAtLeast(v, p, 0x1_0000);
    }
  }

  lemma QuotientAtLeast(v: int, p: int, n: int)
    requires p > 0 && v >= n * p
    ensures v / p >= n
  {
    DivIs(v, p);
    if v / p < n {
      MulMono(v / p, n - 1, p);
      Scaled(n - 1, n, -1, p);
      assert false;
    }
  }

  lemma {:induction false} SizeLimit(v: nat, n: nat)
    requires v < Pow256(n)
    ensures ByteSize(v) <= n
  {
    if v > 0 {
      SizeLimit(v / 256, n - 1);
    }
  }

  lemma FieldsOf(size: nat, m: nat)
    requires size < 256 && m < MANTISSA
    ensures var c := size * SIZE + m; IsCompact(c) && SizeOf(c) == size && MantissaOf(c) == m && !SignOf(c)
  {
    var c := size * SIZE + m;
    assert c / SIZE == size;
    assert c % MANTISSA == m;
    assert c / MANTISSA == 2 * size;
  }

  /** What GetCompact packs. */
  lemma EncodedFields(v: nat, n: nat)
    requires v < Pow256(n) && n <= 254
    ensures var size, m, c := ByteSize(v), Leading(v, ByteSize(v)), Encoded(v);
            && size <= n && m < SIZE && IsCompact(c) && !SignOf(c)
            && SizeOf(c) == (if m >= MANTISSA then size + 1 else size)
            && MantissaOf(c) == if m >= MANTISSA then m / 256 else m
  {
    var size, m := ByteSize(v), Leading(v, ByteSize(v));
    SizeLimit(v, n);
    ByteSizeBounds(v);
    LeadingBounds(v, size);
    if m >= MANTISSA {
      FieldsOf(size + 1, m / 256);
    } else {
      FieldsOf(size, m);
    }
  }

  lemma DivTwice(v: nat, p: nat, q: nat)
    requires p > 0 && q > 0
    ensures p * q > 0 && v / p / q == v / (p * q)
  {
    MulMono(1, p, q);
    DivIs(v, p);
    DivIs(v / p, q);
    var t, r := v / p / q, v / p % q;
    assert (t * q + r) * p == t * (p * q) + r * p;
    MulMono(0, r, p);
    MulMono(r, q - 1, p);
    Scaled(q - 1, q, -1, p);
    assert q * p == p * q;
    DivModUnique(v, t, r * p + v % p, p * q);
  }

  lemma TimesThenDiv(v: nat, p: nat)
    requires p > 0
    ensures v * p / p == v
  {
    DivModUnique(v * p, v, 0, p);
  }

  lemma TruncateBounds(v: nat, p: nat)
    requires p > 0
    ensures v / p * p <= v < v / p * p + p
  {
    DivIs(v, p);
  }

  /** Small numbers are encoded exactly. */
  lemma SmallExact(v: nat, n: nat)
    requires v < Pow256(n) && n <= 254 && IsCompact(Encoded(v)) && SizeOf(Encoded(v)) <= 3
    ensures Decoded(Encoded(v)) == v
  {
    EncodedFields(v, n);
    var size := ByteSize(v);
    var m := Leading(v, size);
    if m < MANTISSA {
      TimesThenDiv(v, Pow256(3 - size));
    } else {
      var p := Pow256(2 - size);
      assert m / 256 == v * p by {
        assert v * (256 * p) == 256 * (v * p);
      }
      TimesThenDiv(v, p);
    }
  }

  /** Larger ones lose what lies below the mantissa and nothing else. */
  lemma LargeTruncated(v: nat, n: nat)
    requires v < Pow256(n) && n <= 254 && IsCompact(Encoded(v)) && SizeOf(Encoded(v)) > 3
    ensures var p := Pow256(SizeOf(Encoded(v)) - 3); Decoded(Encoded(v)) == v / p * p
  {
    EncodedFields(v, n);
    LowPowers();
    var size := ByteSize(v);
    var m := Leading(v, size);
    if m >= MANTISSA {
      assert m / 256 == v / Pow256(size - 2) by {
        if size > 3 {
          DivTwice(v, Pow256(size - 3), 256);
        }
      }
    }
  }

  /** SetCompact after GetCompact: never more, and never off by a unit of the last mantissa place. */
  lemma RoundsDown(v: nat, n: nat)
    requires v < Pow256(n) && n <= 254
    ensures IsCompact(Encoded(v)) && !SignOf(Encoded(v))
    ensures var size, d := SizeOf(Encoded(v)), Decoded(Encoded(v));
            d <= v < Pow256(n) && if size <= 3 then d == v else v < d + Pow256(size - 3)
  {
    EncodedFields(v, n);
    if SizeOf(Encoded(v)) <= 3 {
      SmallExact(v, n);
    } else {
      LargeTruncated(v, n);
      TruncateBounds(v, Pow256(SizeOf(Encoded(v)) - 3));
    }
  }

  /** A number is given back by its leading three bytes if the others are zero. */
  lemma FromLeading(m: nat, size: nat, v: nat)
    requires 0x1_0000 <= m < SIZE && size >= 3 && v == m * Pow256(size - 3)
    ensures ByteSize(v) == size && Leading(v, size) == m
  {
    LowPowers();
    var p := Pow256(size - 3);
    Pow256Add(3, size - 3);
    Pow256Add(2, size - 3);
    MulMono(0x1_0000, m, p);
    MulMono(m, 0x100_0000 - 1, p);
    ByteSizeUnique(v, size);
    TimesThenDiv(m, p);
  }

  /** Encoding, decoding and encoding again changes nothing. */
  lemma Idempotent(v: nat, n: nat)
    requires v < Pow256(n) && n <= 254
    ensures IsCompact(Encoded(v)) && Encoded(Decoded(Encoded(v))) == Encoded(v)
  {
    EncodedFields(v, n);
    if SizeOf(Encoded(v)) <= 3 {
      SmallExact(v, n);
    } else {
      LargeAgain(v, n);
    }
  }

  lemma Round256(m: nat)
    requires m >= MANTISSA
    ensures var m' := m / 256 * 256; MANTISSA <= m' <= m && m' / 256 == m / 256
  {
  }

  lemma LargeAgain(v: nat, n: nat)
    requires v < Pow256(n) && n <= 254 && IsCompact(Encoded(v)) && SizeOf(Encoded(v)) > 3
    ensures Encoded(Decoded(Encoded(v))) == Encoded(v)
  {
    var size, d := ByteSize(v), Decoded(Encoded(v));
    var m := Leading(v, size);
    EncodedFields(v, n);
    if m >= MANTISSA {
      Round256(m);
      MovedDown(m / 256, size, d);
    } else {
      ByteSizeBounds(v);
      LeadingBounds(v, size);
      FromLeading(m, size, d);
    }
  }

  lemma MovedDown(k: nat, size: nat, d: nat)
    requires MANTISSA <= k * 256 < SIZE && size >= 3 && d == k * Pow256(size - 2)
    ensures ByteSize(d) == size && Leading(d, size) == k * 256
  {
    var p := Pow256(size - 3);
    assert k * (256 * p) == (k * 256) * p;
    FromLeading(k * 256, size, d);
  }

  // ---------------------------------------------------------------- on limbs

  // ---------------------------------------------------------------- what the format promises

  /** The documented formula, mantissa * 256^(exponent - 3), rounded down where the exponent is below three. */
  lemma CompactFormula(c: int)
    requires IsCompact(c)
    ensures Decoded(c) == MantissaOf(c) * Pow256(SizeOf(c)) / Pow256(3)
  {
    var m, size := MantissaOf(c), SizeOf(c);
    if size <= 3 {
      var p, q := Pow256(3 - size), Pow256(size);
      Pow256Add(size, 3 - size);
      DivTwice(m * q, q, p);
      TimesThenDiv(m, q);
    } else {
      var p, q := Pow256(3), Pow256(size - 3);
      Pow256Add(3, size - 3);
      assert m * (p * q) == m * q * p;
      TimesThenDiv(m * q, p);
    }
  }

  /** The two documented examples. */
  lemma DocumentedExamples()
    ensures Encoded(0x12_3456_0000) == 0x0512_3456 && Decoded(0x0512_3456) == 0x12_3456_0000
    ensures Encoded(0xc0_de00_0000) == 0x0600_c0de && Decoded(0x0600_c0de) == 0xc0_de00_0000
  {
    LowPowers();
    assert Pow256(5) == 0x100_0000_0000 && Pow256(4) == 0x1_0000_0000;
    ByteSizeUnique(0x12_3456_0000, 5);
    ByteSizeUnique(0xc0_de00_0000, 5);
  }

  lemma ManyUnits(v: nat, n: nat)
    requires v < Pow256(n) && n <= 254 && IsCompact(Encoded(v)) && SizeOf(Encoded(v)) > 3
    ensures v / Pow256(SizeOf(Encoded(v)) - 3) >= 0x8000
  {
    EncodedFields(v, n);
    LargeTruncated(v, n);
    var size := ByteSize(v);
    ByteSizeBounds(v);
    LeadingBounds(v, size);
    var p := Pow256(SizeOf(Encoded(v)) - 3);
    assert Decoded(Encoded(v)) == MantissaOf(Encoded(v)) * p;
    MulMono(0x8000, MantissaOf(Encoded(v)), p);
    DivIs(v, p);
    QuotientAtLeast(v, p, 0x8000);
  }

  /** A word with a smaller exponent is below the least mantissa of a larger one. */
  lemma SmallerExponent(c: int, size: nat)
    requires IsCompact(c) && SizeOf(c) < size && size > 3
    ensures Decoded(c) < 0x8000 * Pow256(size - 3)
  {
    var m, s, p := MantissaOf(c), SizeOf(c), Pow256(size - 3);
    if s <= 3 {
      DivIs(m, Pow256(3 - s));
      Pow256Grows(1, size - 3);
      assert m / Pow256(3 - s) <= m < 0x8000 * 256;
    } else {
      var q := Pow256(s - 3);
      Pow256Grows(s - 2, size - 3);
      MulMono(m, MANTISSA - 1, q);
      assert p >= 256 * q;
    }
  }

  /** A word with at least that exponent is a number of whole units. */
  lemma WholeUnits(c: int, size: nat) returns (k: nat)
    requires IsCompact(c) && SizeOf(c) >= size > 3
    ensures Decoded(c) == k * Pow256(size - 3)
  {
    var s := SizeOf(c);
    Pow256Add(s - size, size - 3);
    k := MantissaOf(c) * Pow256(s - size);
    assert MantissaOf(c) * (Pow256(s - size) * Pow256(size - 3)) == k * Pow256(size - 3);
  }

  /** No compact word comes closer to a number from below than its encoding. */
  lemma NoCloser(v: nat, n: nat, c: int)
    requires v < Pow256(n) && n <= 254 && IsCompact(c) && Decoded(c) <= v
    ensures IsCompact(Encoded(v)) && Decoded(c) <= Decoded(Encoded(v)) <= v
  {
    RoundsDown(v, n);
    var size := SizeOf(Encoded(v));
    if size > 3 {
      var p := Pow256(size - 3);
      LargeTruncated(v, n);
      ManyUnits(v, n);
      if SizeOf(c) < size {
        SmallerExponent(c, size);
        MulMono(0x8000, v / p, p);
      } else {
        var k := WholeUnits(c, size);
        QuotientAtLeast(v, p, k);
        MulMono(k, v / p, p);
      }
    }
  }

  lemma Bytes(limbs: nat)
    ensures Base(limbs) == Pow256(4 * limbs)
  {
    BaseIsPow2(limbs);
    Pow256IsPow2(4 * limbs);
  }

  lemma LowValue(s: seq<int>)
    requires |s| >= 2
    ensures Value(s[..2]) == s[0] + s[1] * LIMB && Base(2) == WORD
  {
    ValueStep(s, 0);
    ValueStep(s, 1);
  }

  /** operator= from 64 bits. */
  method Assign(a: array<int>, v: int)
    requires a.Length >= 2 && 0 <= v < WORD
    modifies a
    ensures Limbs(a[..]) && Value(a[..]) == v
  {
    Clear(a);
    a[0] := v % LIMB;
    a[1] := v / LIMB;
    LowValue(a[..]);
    ValueSplit(a[..], 2);
    ZeroValue(a[2..]);
    assert a[..][2..] == a[2..];
  }

  method GetLow64(a: array<int>) returns (v: int)
    requires a.Length >= 2 && Limbs(a[..])
    ensures v == Value(a[..]) % WORD
  {
    Pow2Of32();
    OrIsSum(a[0], a[1] * LIMB, a[1], 32);
    v := Or(a[0], a[1] * LIMB);
    LowValue(a[..]);
    ValueSplit(a[..], 2);
    ValueBound(a[..2]);
    assert a[..][..2] == a[..2];
    DivModUnique(Value(a[..]), Value(a[..][2..]), v, WORD);
  }

  /** arith_uint256::SetCompact. */
  method SetCompact(a: array<int>, c: int) returns (negative: bool, overflow: bool)
    requires a.Length == 8 && IsCompact(c)
    modifies a
    ensures Limbs(a[..]) && Value(a[..]) == Decoded(c) % Base(a.Length)
    ensures negative <==> Decoded(c) != 0 && SignOf(c)
    ensures overflow <==> Decoded(c) >= Base(a.Length)
  {
    var nSize, nWord := SizeOf(c), MantissaOf(c);
    Bytes(a.Length);
    if nSize <= 3 {
      nWord := ScaleDown(nWord, Pow256(3 - nSize));
      Assign(a, nWord);
      SmallWord(MantissaOf(c), Pow256(3 - nSize), a.Length);
    } else {
      Assign(a, nWord);
      Pow256IsPow2(nSize - 3);
      ShiftLeft(a, 8 * (nSize - 3));
      OverflowExact(nWord, nSize, 4 * a.Length);
      ScaleZero(nWord, Pow256(nSize - 3));
    }
    negative := nWord != 0 && SignOf(c);
    overflow := OverflowTest(nWord, nSize);
  }

  lemma SmallWord(m: nat, p: nat, limbs: nat)
    requires m < MANTISSA && p > 0 && limbs >= 1
    ensures ScaleDown(m, p) <= m && ScaleDown(m, p) < Base(limbs) && ScaleDown(m, p) % Base(limbs) == ScaleDown(m, p)
  {
    TruncateBounds(m, p);
    MulAtLeastSelf(m / p, p);
    BaseGrows(1, limbs);
    DivModUnique(m / p, 0, m / p, Base(limbs));
  }

  lemma MulAtLeastSelf(x: nat, p: nat)
    requires p > 0
    ensures x * p >= x
  {
    MulMono(1, p, x);
  }

  lemma ScaleZero(m: nat, p: nat)
    requires p > 0
    ensures ScaleUp(m, p) == 0 <==> m == 0
  {
    if m > 0 {
      MulMono(1, m, p);
    }
  }

  /** A bit length rounded up to bytes is the byte length. */
  lemma BitsToBytes(v: nat, bits: nat)
    requires v < Pow2(bits) && (bits > 0 ==> Pow2(bits - 1) <= v)
    ensures ByteSize(v) == (bits + 7) / 8
  {
    var n := (bits + 7) / 8;
    Pow256IsPow2(n);
    Pow2Grows(bits, 8 * n);
    if n > 0 {
      Pow256IsPow2(n - 1);
      Pow2Grows(8 * (n - 1), bits - 1);
    }
    ByteSizeUnique(v, n);
  }

  /** Adding a bit that is clear. */
  lemma {:induction false} OrClearBit(x: nat, s: nat)
    requires !HasBit(x, s)
    ensures Or(x, Pow2(s)) == x + Pow2(s)
  {
    if s == 0 {
      OrZero(x / 2);
      OrCommutes(x / 2, 0);
    } else {
      DivTwice(x, 2, Pow2(s - 1));
      OrClearBit(x / 2, s - 1);
    }
  }

  lemma Small(v: int, m: int)
    requires 0 <= v < m
    ensures v % m == v
  {
    DivModUnique(v, 0, v, m);
  }

  lemma MantissaBits()
    ensures Pow2(23) == MANTISSA && Pow2(24) == SIZE
  {
    assert Pow2(8) == 256;
    Pow2Add(8, 8);
    Pow2Add(16, 8);
    assert Pow2(24) == 2 * Pow2(23);
  }

  lemma LeadingFits(v: nat)
    ensures var m := Leading(v, ByteSize(v)); m < SIZE && m % LIMB == m && m % WORD == m
    ensures ByteSize(v) <= 3 ==> v % WORD == v
  {
    var size := ByteSize(v);
    ByteSizeBounds(v);
    LeadingBounds(v, size);
    Small(Leading(v, size), LIMB);
    Small(Leading(v, size), WORD);
    if size <= 3 {
      Pow256Grows(size, 3);
      LowPowers();
      Small(v, WORD);
    }
  }

  /** The first half of GetCompact: the leading bytes, which fit into 32 bits. */
  method LeadingBytes(a: array<int>, nSize: nat) returns (nCompact: int)
    requires a.Length == 8 && Limbs(a[..]) && Value(a[..]) >= 0 && nSize == ByteSize(Value(a[..]))
    ensures nCompact == Leading(Value(a[..]), nSize) < SIZE
  {
    ghost var v := Value(a[..]);
    LeadingFits(v);
    if nSize <= 3 {
      var low := GetLow64(a);
      nCompact := ScaleUp(low, Pow256(3 - nSize));
    } else {
      Pow256IsPow2(nSize - 3);
      var bn := Copy(a);
      ShiftRight(bn, 8 * (nSize - 3));
      nCompact := GetLow64(bn);
    }
    nCompact := nCompact % LIMB;
  }

  /** The sign flag is only given to a non-zero mantissa. */
  function Signed(c: int, negative: bool): int {
    if negative && MantissaOf(c) != 0 then c + MANTISSA else c
  }

  lemma SignedFields(size: nat, m: nat)
    requires size < 256 && m < MANTISSA
    ensures var c := size * SIZE + m + MANTISSA; IsCompact(c) && SizeOf(c) == size && MantissaOf(c) == m && SignOf(c)
  {
    var c := size * SIZE + m + MANTISSA;
    assert c / SIZE == size;
    assert c % MANTISSA == m;
    assert c / MANTISSA == 2 * size + 1;
  }

  /** The second half: size and sign go above the mantissa. */
  method Pack(size: nat, m: nat, negative: bool) returns (c: int)
    requires size < 256 && m < MANTISSA
    ensures c == Signed(size * SIZE + m, negative) && IsCompact(c)
  {
    MantissaBits();
    FieldsOf(size, m);
    SignedFields(size, m);
    OrIsSum(m, size * SIZE, size, 24);
    c := Or(m, size * SIZE);
    if negative && MantissaOf(c) != 0 {
      OrClearBit(c, 23);
      c := Or(c, MANTISSA);
    }
  }

  /** arith_uint256::GetCompact. */
  method GetCompact(a: array<int>, negative: bool) returns (nCompact: int)
    requires a.Length == 8 && Limbs(a[..])
    ensures Value(a[..]) >= 0 && nCompact == Signed(Encoded(Value(a[..])), negative) && IsCompact(nCompact)
  {
    ValueBound(a[..]);
    ghost var v := Value(a[..]);
    var bits := Bits(a);
    BitsToBytes(v, bits);
    var nSize := (bits + 7) / 8;
    nCompact := LeadingBytes(a, nSize);
    MantissaBits();
    BitDecides(nCompact, 23);
    if HasBit(nCompact, 23) {
      nCompact := nCompact / 256;
      nSize := nSize + 1;
    }
    nCompact := Pack(nSize, nCompact, negative);
  }

  /** The sign does not touch the number. */
  lemma SignedDecodes(v: nat, n: nat, negative: bool)
    requires v < Pow256(n) && n <= 254
    ensures var c := Signed(Encoded(v), negative);
            && IsCompact(Encoded(v)) && IsCompact(c) && Decoded(c) == Decoded(Encoded(v))
            && (SignOf(c) <==> negative && MantissaOf(Encoded(v)) != 0)
  {
    EncodedFields(v, n);
    SignedFields(SizeOf(Encoded(v)), MantissaOf(Encoded(v)));
  }

  // ---------------------------------------------------------------- work

  /** Whether a target stands for any work. */
  predicate Accepted(c: int, limit: nat)
    requires IsCompact(c)
  {
    Decoded(c) != 0 && !SignOf(c) && Decoded(c) < limit
  }

  /** The expected number of hashes for a target: 2^256 / (target + 1), rounded down. */
  function Work(c: int, limit: nat): int
    requires IsCompact(c)
  {
    if Accepted(c, limit) then limit / (Decoded(c) + 1) else 0
  }

  /** The target plus one does not wrap: an even number or a small one. */
  lemma NotAllOnes(c: int, limbs: nat)
    requires IsCompact(c) && limbs >= 1
    ensures Decoded(c) != Base(limbs) - 1
  {
    var size, m := SizeOf(c), MantissaOf(c);
    BaseEven(limbs);
    if size <= 3 {
      SmallWord(m, Pow256(3 - size), limbs);
      BaseGrows(1, limbs);
    } else {
      EvenMultiple(m, Pow256(size - 4));
    }
  }

  lemma BaseEven(limbs: nat)
    requires limbs >= 1
    ensures Base(limbs) % 2 == 0
  {
  }

  lemma EvenMultiple(m: nat, p: nat)
    ensures m * (256 * p) % 2 == 0
  {
    assert m * (256 * p) == 2 * (m * (128 * p));
  }

  /** ~t / (t + 1) + 1 is the quotient that cannot be computed directly. */
  lemma WorkFormula(t: nat, limit: nat)
    requires t + 1 <= limit
    ensures (limit - 1 - t) / (t + 1) + 1 == limit / (t + 1)
  {
    var q, r := (limit - 1 - t) / (t + 1), (limit - 1 - t) % (t + 1);
    DivIs(limit - 1 - t, t + 1);
    Scaled(q + 1, q, 1, t + 1);
    DivModUnique(limit, q + 1, r, t + 1);
  }

  method AddOne(a: array<int>)
    requires a.Length >= 2 && Limbs(a[..]) && Value(a[..]) + 1 < Base(a.Length)
    modifies a
    ensures Limbs(a[..]) && Value(a[..]) == Value(old(a[..])) + 1
  {
    ghost var v := Value(a[..]);
    ValueBound(a[..]);
    DivModUnique(v + 1, 0, v + 1, Base(a.Length));
    var one := new int[a.Length];
    Assign(one, 1);
    AddTo(a, one);
  }

  /** GetBlockProof. */
  method BlockProof(c: int) returns (work: array<int>)
    requires IsCompact(c)
    ensures fresh(work) && work.Length == 8 && Limbs(work[..]) && Value(work[..]) == Work(c, Base(work.Length))
  {
    var target := new int[8];
    ghost var t, limit := Decoded(c), Base(target.Length);
    var negative, overflow := SetCompact(target, c);
    work := new int[8];
    Clear(work);
    var isZero := IsZero(target);
    if t < limit {
      Small(t, limit);
    }
    if negative || overflow || isZero {
      return;
    }
    NotAllOnes(c, target.Length);
    work := WorkOf(target);
  }

  /** ~t / (t + 1) + 1, changing `target` to t + 1 on the way. */
  method WorkOf(target: array<int>) returns (work: array<int>)
    requires target.Length == 8 && Limbs(target[..]) && 1 <= Value(target[..])
             && Value(target[..]) + 1 < Base(target.Length)
    modifies target
    ensures fresh(work) && work.Length == 8 && Limbs(work[..])
    ensures Value(work[..]) == Base(target.Length) / (Value(old(target[..])) + 1)
  {
    ghost var t, limit := Value(target[..]), Base(target.Length);
    assert (limit - 1 - t) / (t + 1) + 1 == limit / (t + 1) < limit by {
      WorkFormula(t, limit);
      WorkFits(t, limit);
    }
    work := Complement(target);
    ghost var n := Value(work[..]);
    AddOne(target);
    assert Value(target[..]) == t + 1 && Value(work[..]) == n == limit - 1 - t;
    DivideAddOne(work, target);
  }

  method DivideAddOne(a: array<int>, b: array<int>)
    requires a.Length == b.Length >= 2 && Limbs(a[..]) && Limbs(b[..]) && Value(b[..]) > 0
    requires Value(a[..]) / Value(b[..]) + 1 < Base(a.Length)
    modifies a
    ensures Limbs(a[..]) && Value(a[..]) == Value(old(a[..])) / Value(old(b[..])) + 1
  {
    var ok := Divide(a, b);
    AddOne(a);
  }

  method IsZero(a: array<int>) returns (zero: bool)
    requires Limbs(a[..])
    ensures zero <==> Value(a[..]) == 0
  {
    var i := a.Length;
    while i > 0
      invariant 0 <= i <= a.Length && forall m :: i <= m < a.Length ==> a[m] == 0
    {
      i := i - 1;
      if a[i] != 0 {
        SomeValue(a[..], i);
        return false;
      }
    }
    ZeroValue(a[..]);
    return true;
  }

  lemma SomeValue(s: seq<int>, i: nat)
    requires i < |s| && Limbs(s) && s[i] != 0
    ensures Value(s) > 0
  {
    var low, high := Value(s[..i]), Value(s[i + 1..]);
    ValueBound(s[..i]);
    ValueBound(s[i + 1..]);
    ValueSplit(s, i + 1);
    ValueStep(s, i);
    PositiveSum(low, s[i], Base(i), high, Base(i + 1));
  }

  lemma PositiveSum(low: int, v: int, p: int, high: int, q: int)
    requires low >= 0 && v >= 1 && p >= 1 && high >= 0 && q >= 0
    ensures low + v * p + q * high > 0
  {
    MulMono(1, v, p);
    MulMono(0, high, q);
    assert q * high == high * q;
  }

  lemma WorkFits(t: nat, limit: nat)
    requires 1 <= t && t + 1 < limit
    ensures 1 <= limit / (t + 1) < limit
  {
    DivIs(limit, t + 1);
    QuotientAtLeast(limit, t + 1, 1);
    MulMono(2, t + 1, limit / (t + 1));
  }

  /** A smaller target is at least as much work. */
  lemma WorkMonotone(c: int, d: int, limit: nat)
    requires IsCompact(c) && IsCompact(d) && Accepted(c, limit) && Accepted(d, limit) && Decoded(c) <= Decoded(d)
    ensures Work(c, limit) >= Work(d, limit)
  {
    SmallerDivisor(limit, Decoded(c) + 1, Decoded(d) + 1);
  }

  lemma SmallerDivisor(n: nat, x: int, y: int)
    requires 0 < x <= y
    ensures n / x >= n / y
  {
    var q := n / y;
    DivIs(n, y);
    MulMono(x, y, q);
    QuotientAtLeast(n, x, q);
  }
}
