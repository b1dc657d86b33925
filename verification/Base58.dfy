/**
 Base58: conversion of byte strings to digits of base 58 and back, with the leading zero bytes kept as leading '1's.
 Both directions use the same loop, which multiplies a digit buffer in place and adds the next digit.
 */
module Base58 {
  import opened Common
  import opened Powers

  // ---------------------------------------------------------------- numbers and digits

  function Pow(b: nat, n: nat): (p: nat)
    ensures b > 0 ==> p > 0
  {
    if n == 0 then 1 else b * Pow(b, n - 1)
  }

  predicate Digits(s: seq<int>, b: nat) {
    forall i :: 0 <= i < |s| ==> 0 <= s[i] < b
  }

  /** The number written by `s`, most significant digit first. */
  function Number(s: seq<int>, b: nat): int {
    if s == [] then 0 else Number(s[..|s| - 1], b) * b + s[|s| - 1]
  }

  /** The shortest way to write a number. */
  function Written(v: nat, b: nat): seq<int>
    requires b >= 2
  {
    if v == 0 then []
    else
      DivShrinks(v, b);
      Written(v / b, b) + [v % b]
  }

  lemma {:induction false} WrittenDigits(v: nat, b: nat)
    requires b >= 2
    ensures Digits(Written(v, b), b) && (v > 0 ==> Written(v, b) != [] && Written(v, b)[0] != 0)
  {
    if v > 0 {
      DivShrinks(v, b);
      DivIs(v, b);
      WrittenDigits(v / b, b);
    }
  }

  lemma {:induction false} NumberBound(s: seq<int>, b: nat)
    requires Digits(s, b) && b >= 1
    ensures 0 <= Number(s, b) < Pow(b, |s|)
  {
    if s != [] {
      var n := |s| - 1;
      NumberBound(s[..n], b);
      MulMono(Number(s[..n], b), Pow(b, n) - 1, b);
      MulMono(0, Number(s[..n], b), b);
      Less(Pow(b, n), b);
    }
  }

  lemma Less(p: int, b: int)
    ensures (p - 1) * b + b == b * p
  {
  }

  /** Writing a number and reading it back. */
  lemma {:induction false} ReadWritten(v: nat, b: nat)
    requires b >= 2
    ensures Number(Written(v, b), b) == v
  {
    if v > 0 {
      DivIs(v, b);
      DivShrinks(v, b);
      ReadWritten(v / b, b);
      var s := Written(v / b, b);
      assert (s + [v % b])[..|s|] == s;
    }
  }

  lemma DivShrinks(v: nat, b: nat)
    requires b >= 2 && v > 0
    ensures 0 <= v / b < v
  {
    DivIs(v, b);
    if v / b >= v {
      MulMono(v, v / b, b);
      MulMono(2, b, v);
      assert false;
    }
    if v / b < 0 {
      MulMono(v / b, -1, b);
      assert false;
    }
  }

  /** Digits without a leading zero are the shortest ones. */
  lemma {:induction false} WriteRead(s: seq<int>, b: nat)
    requires b >= 2 && Digits(s, b) && (s != [] ==> s[0] != 0)
    ensures Number(s, b) >= 0 && Written(Number(s, b), b) == s
    ensures s != [] ==> Number(s, b) > 0
  {
    if s != [] {
      var n := |s| - 1;
      var v, d := Number(s[..n], b), s[n];
      WriteRead(s[..n], b);
      DivModUnique(v * b + d, v, d, b);
      if n > 0 {
        MulMono(1, v, b);
      }
      assert s == s[..n] + [d];
    }
  }

  // ---------------------------------------------------------------- the buffer

  lemma {:induction false} NumberSplit(s: seq<int>, k: nat, b: nat)
    requires k <= |s|
    ensures Number(s, b) == Number(s[..k], b) * Pow(b, |s| - k) + Number(s[k..], b)
  {
    if k == |s| {
      assert s[..k] == s && s[k..] == [];
    } else {
      var n := |s| - 1;
      NumberSplit(s[..n], k, b);
      assert s[..n][..k] == s[..k] && s[..n][k..] == s[k..][..n - k] && s[k..][n - k] == s[n];
      SplitTerm(Number(s[..k], b), Pow(b, n - k), Number(s[k..n], b), b);
      assert s[k..][..n - k] == s[k..n];
    }
  }

  lemma SplitTerm(x: int, p: int, y: int, b: int)
    ensures (x * p + y) * b == x * (b * p) + y * b
  {
  }

  /** The number in the last `i` digits. */
  function Low(s: seq<int>, i: nat, b: nat): int
    requires i <= |s|
  {
    Number(s[|s| - i..], b)
  }

  lemma LowStep(s: seq<int>, i: nat, b: nat)
    requires i < |s|
    ensures Low(s, i + 1, b) == s[|s| - i - 1] * Pow(b, i) + Low(s, i, b)
  {
    var t := s[|s| - i - 1..];
    NumberSplit(t, 1, b);
    assert t[1..] == s[|s| - i..] && t[..1] == [s[|s| - i - 1]];
    assert Number([s[|s| - i - 1]], b) == s[|s| - i - 1] by {
      assert [s[|s| - i - 1]][..0] == [];
    }
  }

  lemma {:induction false} LeadingZeros(s: seq<int>, k: nat, b: nat)
    requires k <= |s| && forall j :: 0 <= j < k ==> s[j] == 0
    ensures Number(s[..k], b) == 0
  {
    if k > 0 {
      LeadingZeros(s, k - 1, b);
      assert s[..k][..k - 1] == s[..k - 1];
    }
  }

  /** If everything above the last `i` digits is zero they are the number. */
  lemma LowIsAll(s: seq<int>, i: nat, b: nat)
    requires i <= |s| && forall j :: 0 <= j < |s| - i ==> s[j] == 0
    ensures Number(s, b) == Low(s, i, b)
  {
    NumberSplit(s, |s| - i, b);
    LeadingZeros(s, |s| - i, b);
  }

  /** One column of the in-place multiplication. */
  lemma Column(x: seq<int>, z: seq<int>, i: nat, b: nat, m: nat, digit: int, carry: int, total: int)
    requires i < |x| == |z| && b >= 2 && total == carry + m * x[|x| - i - 1] && z[|z| - i - 1] == total % b
    requires Low(z, i, b) + carry * Pow(b, i) == Low(x, i, b) * m + digit
    ensures Low(z, i + 1, b) + total / b * Pow(b, i + 1) == Low(x, i + 1, b) * m + digit
  {
    LowStep(x, i, b);
    LowStep(z, i, b);
    DivIs(total, b);
    ColumnTerms(total, total / b, total % b, b, Pow(b, i), carry, m, x[|x| - i - 1], Low(x, i, b));
  }

  lemma ColumnTerms(total: int, q: int, r: int, b: int, p: int, carry: int, m: int, x: int, low: int)
    requires total == q * b + r && total == carry + m * x
    ensures r * p + q * (b * p) == carry * p + (x * p + low) * m - low * m
  {
    assert (q * b + r) * p == r * p + q * (b * p);
    assert (carry + m * x) * p == carry * p + (x * p) * m;
    assert (x * p + low) * m == (x * p) * m + low * m;
  }

  ghost predicate BufferOk(s: seq<int>, b: nat, length: nat) {
    length <= |s| && Digits(s, b) && forall j :: 0 <= j < |s| - length ==> s[j] == 0
  }

  /** The last `i` digits have been multiplied. */
  ghost predicate MulSoFar(x: seq<int>, z: seq<int>, i: nat, b: nat, m: nat, digit: nat, carry: nat)
    requires i <= |x| == |z|
  {
    Digits(z, b) && (forall j :: 0 <= j < |z| - i ==> z[j] == x[j])
        && Low(z, i, b) + carry * Pow(b, i) == Low(x, i, b) * m + digit
  }

  lemma MulStep(x: seq<int>, z: seq<int>, i: nat, b: nat, m: nat, digit: nat, carry: nat)
    requires i < |x| == |z| && b >= 2 && Digits(x, b) && MulSoFar(x, z, i, b, m, digit, carry)
    ensures var total := carry + m * x[|x| - 1 - i];
            0 <= total % b < b && total / b >= 0 && MulSoFar(x, z[|z| - 1 - i := total % b], i + 1, b, m, digit,
                total / b)
  {
    var at := |x| - 1 - i;
    var total := carry + m * x[at];
    TotalParts(carry, m, x[at], b);
    var z' := z[at := total % b];
    assert z'[|z'| - i..] == z[|z| - i..];
    Column(x, z', i, b, m, digit, carry, total);
  }

  method CarryOnce(buf: array<int>, ghost x: seq<int>, i: nat, b: nat, m: nat, ghost digit: nat, carry: nat)
    returns (more: nat)
    requires i < |x| == buf.Length && b >= 2 && Digits(x, b) && MulSoFar(x, buf[..], i, b, m, digit, carry)
    modifies buf
    ensures MulSoFar(x, buf[..], i + 1, b, m, digit, more)
  {
    var at := buf.Length - 1 - i;
    ghost var before := buf[..];
    assert before[at] == x[at];
    MulStep(x, before, i, b, m, digit, carry);
    var total := carry + m * buf[at];
    more := total / b;
    buf[at] := total % b;
    assert buf[..] == before[at := total % b];
  }

  /** The carrying loop, which stops where nothing is left to do or at the front of the buffer. */
  method Carry(buf: array<int>, b: nat, m: nat, digit: nat, length: nat) returns (i: nat, carry: nat)
    requires b >= 2 && Digits(buf[..], b)
    modifies buf
    ensures i <= buf.Length && MulSoFar(old(buf[..]), buf[..], i, b, m, digit, carry)
    ensures i == buf.Length || (carry == 0 && i >= length)
  {
    ghost var x := buf[..];
    i, carry := 0, digit;
    while (carry != 0 || i < length) && i != buf.Length
      invariant 0 <= i <= buf.Length && MulSoFar(x, buf[..], i, b, m, digit, carry)
      decreases buf.Length - i
    {
      carry := CarryOnce(buf, x, i, b, m, digit, carry);
      i := i + 1;
    }
  }

  /** "buffer = buffer * m + digit" in place; the source's assertion that no carry is left holds. */
  method MulAdd(buf: array<int>, b: nat, m: nat, digit: nat, length: nat) returns (used: nat)
    requires b >= 2 && m >= 1 && BufferOk(buf[..], b, length) && Number(buf[..], b) * m + digit < Pow(b, buf.Length)
    modifies buf
    ensures BufferOk(buf[..], b, used) && Number(buf[..], b) == Number(old(buf[..]), b) * m + digit
  {
    ghost var x := buf[..];
    var carry;
    used, carry := Carry(buf, b, m, digit, length);
    NoCarryLeft(x, buf[..], used, b, m, digit, carry, length);
    assert carry == 0;
  }

  lemma TotalParts(carry: nat, m: nat, digit: int, b: nat)
    requires b >= 2 && digit >= 0
    ensures var total := carry + m * digit; 0 <= total % b < b && total / b >= 0
  {
    MulMono(0, m, digit);
    QuotientNat(carry + m * digit, b);
    DivIs(carry + m * digit, b);
  }

  lemma QuotientNat(v: int, b: nat)
    requires v >= 0 && b >= 2
    ensures v / b >= 0
  {
    DivIs(v, b);
    if v / b < 0 {
      MulMono(v / b, -1, b);
      assert false;
    }
  }

  lemma NoCarryLeft(x: seq<int>, z: seq<int>, i: nat, b: nat, m: nat, digit: nat, carry: nat, length: nat)
    requires b >= 2 && i <= |x| == |z| && Digits(z, b) && BufferOk(x, b, length)
             && (i == |z| || (carry == 0 && i >= length))
    requires forall j :: 0 <= j < |z| - i ==> z[j] == x[j]
    requires Low(z, i, b) + carry * Pow(b, i) == Low(x, i, b) * m + digit && Number(x, b) * m + digit < Pow(b, |z|)
    ensures carry == 0 && Number(z, b) == Number(x, b) * m + digit && BufferOk(z, b, i)
  {
    var total := Number(x, b) * m + digit;
    if i == |z| {
      assert z[|z| - i..] == z && x[|x| - i..] == x;
      NumberBound(z, b);
      CarryZero(Number(z, b), carry, Pow(b, i), total);
    } else {
      LowIsAll(x, i, b);
      LowIsAll(z, i, b);
      CarryNothing(carry, Pow(b, i));
    }
  }

  lemma CarryZero(low: int, carry: nat, p: int, total: int)
    requires low >= 0 && p > 0 && low + carry * p == total < p
    ensures carry == 0 && low == total
  {
    if carry >= 1 {
      MulMono(1, carry, p);
      assert false;
    }
  }

  lemma CarryNothing(carry: int, p: int)
    requires carry == 0
    ensures carry * p == 0
  {
  }

  // ---------------------------------------------------------------- the buffer is large enough

  lemma {:induction false} PowAdd(b: nat, m: nat, n: nat)
    ensures Pow(b, m + n) == Pow(b, m) * Pow(b, n)
  {
    if m > 0 {
      PowAdd(b, m - 1, n);
      Regroup(b, Pow(b, m - 1), Pow(b, n), Pow(b, m - 1 + n), Pow(b, m));
    }
  }

  lemma Regroup(b: int, p: int, q: int, pq: int, bp: int)
    requires pq == p * q && bp == b * p
    ensures b * pq == bp * q
  {
    assert b * (p * q) == (b * p) * q;
  }

  lemma {:induction false} PowGrows(b: nat, m: nat, n: nat)
    requires b >= 1 && m <= n
    ensures Pow(b, m) <= Pow(b, n)
    decreases n - m
  {
    if m < n {
      PowGrows(b, m, n - 1);
      MulMono(1, b, Pow(b, n - 1));
    }
  }

  /** Bounds on powers multiply. */
  lemma PowStep(b: nat, c: nat, m: nat, n: nat, k: nat, l: nat)
    requires c >= 1 && Pow(b, m) <= Pow(c, k) && Pow(b, n) <= Pow(c, l)
    ensures Pow(b, m + n) <= Pow(c, k + l)
  {
    PowAdd(b, m, n);
    PowAdd(c, k, l);
    MulMono(Pow(b, m), Pow(c, k), Pow(b, n));
    MulMono(Pow(b, n), Pow(c, l), Pow(c, k));
  }

  /** Digits of base 58 that EncodeBase58 allocates for `n` bytes. */
  function EncodeSize(n: nat): nat {
    n * 138 / 100 + 1
  }

  /** Bytes that DecodeBase58 allocates for `n` characters. */
  function DecodeSize(n: nat): nat {
    n * 733 / 1000 + 1
  }

  lemma ByteTable()
    ensures Pow(256, 1) <= Pow(58, 2) && Pow(256, 2) <= Pow(58, 3) && Pow(256, 5) <= Pow(58, 7)
            && Pow(256, 8) <= Pow(58, 11)
  {
    assert Pow(58, 2) == 3364 && Pow(58, 3) == 195112;
    assert Pow(58, 4) == 11316496;
    PowAdd(58, 4, 3);
    PowAdd(58, 4, 7);
    assert Pow(256, 2) == 65536;
    PowAdd(256, 2, 2);
    PowAdd(256, 4, 1);
    PowAdd(256, 4, 4);
  }

  /** 256^n never needs more digits of base 58 than are allocated. */
  lemma EncodeFits(n: nat)
    ensures Pow(256, n) <= Pow(58, EncodeSize(n))
  {
    EightAtATime(n, 8, 11);
  }

  lemma {:induction false} EightAtATime(n: nat, m: nat, k: nat)
    requires m == 8 && k == 11
    ensures Pow(256, n) <= Pow(58, EncodeSize(n))
    decreases n
  {
    if n < m {
      FewBytesFit(n);
    } else {
      EightAtATime(n - m, m, k);
      EightMore(m, k, n - m, n);
    }
  }

  lemma EightMore(m: nat, k: nat, n: nat, sum: nat)
    requires m == 8 && k == 11 && Pow(256, n) <= Pow(58, EncodeSize(n)) && sum == n + m
    ensures Pow(256, sum) <= Pow(58, EncodeSize(sum))
  {
    ByteTable();
    BoundSteps(n);
    FitStep(256, 58, m, n, k, EncodeSize(n), EncodeSize(n + m));
  }

  /** The characters needed for `n` bytes, for n below 8. */
  function FewDigits(n: nat): nat
    requires n < 8
  {
    if n == 0 then 0 else if n < 3 then n + 1 else if n < 5 then n + 2 else if n == 5 then 7 else n + 3
  }

  lemma UpToFourBytes(n: nat, d: nat)
    requires n < 5 && d == FewDigits(n)
    ensures Pow(256, n) <= Pow(58, d)
  {
    ByteTable();
    if n >= 3 {
      PowStep(256, 58, 2, n - 2, 3, n - 1);
    }
  }

  lemma FiveBytesAndMore(n: nat, d: nat)
    requires 5 <= n < 8 && d == FewDigits(n)
    ensures Pow(256, n) <= Pow(58, d)
  {
    ByteTable();
    if n >= 6 {
      PowStep(256, 58, 5, n - 5, 7, n - 4);
    }
  }

  lemma FewBytesFit(n: nat)
    requires n < 8
    ensures Pow(256, n) <= Pow(58, EncodeSize(n))
  {
    var d, size := FewDigits(n), EncodeSize(n);
    assert d <= size;
    if n < 5 {
      UpToFourBytes(n, d);
    } else {
      FiveBytesAndMore(n, d);
    }
    PowGrows(58, d, size);
  }

  /** The bytes needed for `n` characters, for n below 15. */
  function FewChars(n: nat): nat
    requires n < 15
  {
    if n < 4 then n else if n < 8 then n - 1 else if n < 12 then n - 2 else n - 3
  }

  lemma {:induction false} FewCharsFit(n: nat)
    requires n < 15
    ensures Pow(58, n) <= Pow(256, FewChars(n))
  {
    assert Pow(58, 1) <= Pow(256, 1);
    assert Pow(58, 4) <= Pow(256, 3) by {
      assert Pow(58, 4) == 11316496 && Pow(256, 3) == 16777216;
    }
    if n >= 4 {
      FewCharsFit(n - 4);
      PowStep(58, 256, 4, n - 4, 3, FewChars(n - 4));
    } else if n > 0 {
      FewCharsFit(n - 1);
      PowStep(58, 256, 1, n - 1, 1, FewChars(n - 1));
    }
  }

  lemma FifteenChars(m: nat, k: nat)
    requires m == 15 && k == 11
    ensures Pow(58, m) == 282761256881297307761016832 && Pow(256, k) == 309485009821345068724781056
  {
    assert Pow(58, 3) == 195112;
    PowAdd(58, 3, 3);
    PowAdd(58, 6, 6);
    PowAdd(58, 12, 3);
    assert Pow(256, 2) == 65536;
    PowAdd(256, 2, 2);
    PowAdd(256, 4, 4);
    PowAdd(256, 8, 2);
    PowAdd(256, 10, 1);
  }

  lemma SeventyOneChars(m: nat, k: nat, m1: nat, k1: nat)
    requires m == 71 && k == 52 && m1 == 15 && k1 == 11
    ensures Pow(58, m) <= Pow(256, k)
  {
    FifteenChars(m1, k1);
    PowAdd(58, m1, m1);
    PowAdd(58, m1 + m1, m1 + m1);
    assert Pow(58, 3) == 195112;
    PowAdd(58, 3, 3);
    PowAdd(58, 6, 3);
    PowAdd(58, 9, 2);
    PowAdd(58, m1 + m1 + m1 + m1, 11);
    PowAdd(256, k1, k1);
    PowAdd(256, k1 + k1, k1 + k1);
    assert Pow(256, 2) == 65536;
    PowAdd(256, 2, 2);
    PowAdd(256, 4, 4);
    PowAdd(256, k1 + k1 + k1 + k1, 8);
  }

  /** Fifteen characters at a time. */
  function CharsBound(n: nat): nat {
    11 * (n / 15) + FewChars(n % 15)
  }

  lemma BoundSteps(n: nat)
    ensures CharsBound(n + 15) == CharsBound(n) + 11 && DecodeSize(n + 71) >= DecodeSize(n) + 52
    ensures EncodeSize(n + 8) >= EncodeSize(n) + 11
  {
  }

  /** Longer numbers fit if their parts do. */
  lemma FitStep(b: nat, c: nat, m: nat, n: nat, k: nat, l: nat, size: nat)
    requires c >= 1 && Pow(b, m) <= Pow(c, k) && Pow(b, n) <= Pow(c, l) && k + l <= size
    ensures Pow(b, n + m) <= Pow(c, size)
  {
    PowStep(b, c, m, n, k, l);
    PowGrows(c, k + l, size);
  }

  lemma FifteenMore(m: nat, k: nat, n: nat)
    requires m == 15 && k == 11 && Pow(58, n) <= Pow(256, CharsBound(n))
    ensures Pow(58, n + m) <= Pow(256, CharsBound(n + m))
  {
    FifteenChars(m, k);
    BoundSteps(n);
    FitStep(58, 256, m, n, k, CharsBound(n), CharsBound(n + m));
  }

  lemma {:induction false} CharsFit(n: nat)
    ensures Pow(58, n) <= Pow(256, CharsBound(n))
  {
    if n < 15 {
      FewCharsFit(n);
      assert CharsBound(n) == FewChars(n);
    } else {
      CharsFit(n - 15);
      FifteenMore(15, 11, n - 15);
    }
  }

  lemma CharsWithin(a: nat, b: nat)
    requires a <= 4 && b < 15
    ensures 11 * a + FewChars(b) <= DecodeSize(15 * a + b)
  {
  }

  /** 58^n never needs more bytes than are allocated. */
  lemma {:induction false} DecodeFits(n: nat)
    ensures Pow(58, n) <= Pow(256, DecodeSize(n))
  {
    if n >= 71 {
      DecodeFits(n - 71);
      SeventyOneMore(71, 52, n - 71);
    } else {
      CharsFit(n);
      CharsWithin(n / 15, n % 15);
      PowGrows(256, CharsBound(n), DecodeSize(n));
    }
  }

  lemma SeventyOneMore(m: nat, k: nat, n: nat)
    requires m == 71 && k == 52 && Pow(58, n) <= Pow(256, DecodeSize(n))
    ensures Pow(58, n + m) <= Pow(256, DecodeSize(n + m))
  {
    SeventyOneChars(m, k, 15, 11);
    BoundSteps(n);
    FitStep(58, 256, m, n, k, DecodeSize(n), DecodeSize(n + m));
  }

  // ---------------------------------------------------------------- the alphabet

  /** All alphanumeric characters except 0, I, O and l, in order. */
  function CharOf(d: int): (c: char)
    requires 0 <= d < 58
  {
    if d < 9 then (d + 49) as char
    else if d < 17 then (d + 56) as char
    else if d < 22 then (d + 57) as char
    else if d < 33 then (d + 58) as char
    else if d < 44 then (d + 64) as char
    else (d + 65) as char
  }

  /** The position of a character in the alphabet, or -1. */
  function DigitOf(c: char): (d: int)
    ensures -1 <= d < 58
  {
    if '1' <= c <= '9' then c as int - 49
    else if 'A' <= c <= 'H' then c as int - 56
    else if 'J' <= c <= 'N' then c as int - 57
    else if 'P' <= c <= 'Z' then c as int - 58
    else if 'a' <= c <= 'k' then c as int - 64
    else if 'm' <= c <= 'z' then c as int - 65
    else -1
  }

  predicate IsSpace(c: char) {
    c == ' ' || 9 as char <= c <= 13 as char
  }

  predicate Alphanumeric(c: char) {
    '0' <= c <= '9' || 'A' <= c <= 'Z' || 'a' <= c <= 'z'
  }

  /** All alphanumeric characters except four that are easily confused, in their usual order. */
  lemma AlphabetIs(c: char, d: int, e: int)
    ensures DigitOf(c) >= 0 <==> Alphanumeric(c) && c != '0' && c != 'I' && c != 'O' && c != 'l'
    ensures 0 <= d < e < 58 ==> CharOf(d) < CharOf(e)
  {
  }

  lemma AlphabetInverse(d: int, c: char)
    ensures 0 <= d < 58 ==> DigitOf(CharOf(d)) == d && !IsSpace(CharOf(d)) && CharOf(d) != 0 as char
    ensures DigitOf(c) >= 0 ==> CharOf(DigitOf(c)) == c && !IsSpace(c) && c != 0 as char
  {
  }

  function Chars(ds: seq<int>): (s: string)
    requires Digits(ds, 58)
    ensures |s| == |ds| && forall i :: 0 <= i < |s| ==> s[i] == CharOf(ds[i])
  {
    seq(|ds|, i requires 0 <= i < |ds| => CharOf(ds[i]))
  }

  predicate InAlphabet(s: string) {
    forall i :: 0 <= i < |s| ==> DigitOf(s[i]) >= 0
  }

  function DigitsOf(s: string): (ds: seq<int>)
    requires InAlphabet(s)
    ensures |ds| == |s| && Digits(ds, 58) && forall i :: 0 <= i < |s| ==> ds[i] == DigitOf(s[i])
  {
    seq(|s|, i requires 0 <= i < |s| => DigitOf(s[i]))
  }

  // ---------------------------------------------------------------- encoding

  function Repeat<T>(n: nat, x: T): (s: seq<T>)
    ensures |s| == n && forall i :: 0 <= i < n ==> s[i] == x
  {
    seq(n, i => x)
  }

  /** How many of the leading elements equal `x`. */
  function Leading<T(==)>(s: seq<T>, x: T): (n: nat)
    ensures n <= |s| && (forall i :: 0 <= i < n ==> s[i] == x) && (n < |s| ==> s[n] != x)
  {
    if s == [] || s[0] != x then 0 else 1 + Leading(s[1..], x)
  }

  lemma LeadingUnique<T>(s: seq<T>, x: T, n: nat)
    requires n <= |s| && (forall i :: 0 <= i < n ==> s[i] == x) && (n < |s| ==> s[n] != x)
    ensures Leading(s, x) == n
  {
    var k := Leading(s, x);
  }

  /** EncodeBase58 as a function: a '1' per leading zero byte, then the shortest digits. */
  function Encoded(bytes: seq<int>): string
    requires Digits(bytes, 256)
  {
    var z := Leading(bytes, 0);
    NumberBound(bytes[z..], 256);
    WrittenDigits(Number(bytes[z..], 256), 58);
    Repeat(z, '1') + Chars(Written(Number(bytes[z..], 256), 58))
  }

  /** Skipping the zeros at the front of the buffer gives the shortest digits. */
  lemma SkippedZeros(s: seq<int>, b: nat, it: nat)
    requires b >= 2 && Digits(s, b) && it <= |s| && (forall j :: 0 <= j < it ==> s[j] == 0) && (it < |s| ==> s[it] != 0)
    ensures Number(s, b) >= 0 && s[it..] == Written(Number(s, b), b)
  {
    LowIsAll(s, |s| - it, b);
    WriteRead(s[it..], b);
  }

  /** Skips the zeros at the front of the part in use and copies the rest. */
  method Significant(buf: array<int>, b: nat, length: nat) returns (digits: seq<int>)
    requires b >= 2 && BufferOk(buf[..], b, length)
    ensures Number(buf[..], b) >= 0 && digits == Written(Number(buf[..], b), b)
  {
    var it := buf.Length - length;
    while it != buf.Length && buf[it] == 0
      invariant buf.Length - length <= it <= buf.Length && forall j :: 0 <= j < it ==> buf[j] == 0
    {
      it := it + 1;
    }
    SkippedZeros(buf[..], b, it);
    digits := buf[it..];
  }

  lemma EmptyBuffer(s: seq<int>, b: nat)
    requires b >= 2 && forall j :: 0 <= j < |s| ==> s[j] == 0
    ensures BufferOk(s, b, 0) && Number(s, b) == 0
  {
    LowIsAll(s, 0, b);
    assert s[|s|..] == [];
  }

  /** The conversion loop of the encoder. */
  method Convert(input: seq<int>, m: nat, b: nat, size: nat) returns (digits: seq<int>)
    requires b >= 2 && m >= 1 && Digits(input, m) && Pow(m, |input|) <= Pow(b, size)
    ensures Number(input, m) >= 0 && digits == Written(Number(input, m), b)
  {
    var buf := new int[size](i => 0);
    var length := 0;
    EmptyBuffer(buf[..], b);
    assert input[..0] == [];
    for n := 0 to |input|
      invariant BufferOk(buf[..], b, length) && Number(buf[..], b) == Number(input[..n], m)
    {
      assert input[..n + 1][..n] == input[..n];
      NumberBound(input[..n + 1], m);
      PowGrows(m, n + 1, |input|);
      length := MulAdd(buf, b, m, input[n], length);
    }
    assert input[..|input|] == input;
    digits := Significant(buf, b, length);
  }

  /** EncodeBase58. */
  method EncodeBase58(bytes: seq<int>) returns (str: string)
    requires Digits(bytes, 256)
    ensures str == Encoded(bytes)
  {
    var zeroes := 0;
    while zeroes != |bytes| && bytes[zeroes] == 0
      invariant 0 <= zeroes <= |bytes| && forall i :: 0 <= i < zeroes ==> bytes[i] == 0
    {
      zeroes := zeroes + 1;
    }
    LeadingUnique(bytes, 0, zeroes);
    var rest := bytes[zeroes..];
    EncodeFits(|rest|);
    var digits := Convert(rest, 256, 58, EncodeSize(|rest|));
    WrittenDigits(Number(rest, 256), 58);
    str := Repeat(zeroes, '1') + Chars(digits);
  }

  // ---------------------------------------------------------------- decoding

  /** A C string ends at its first NUL. */
  function CString(s: string): string {
    if s == [] || s[0] == 0 as char then [] else [s[0]] + CString(s[1..])
  }

  function LeadingSpaces(s: string): (n: nat)
    ensures n <= |s| && (forall i :: 0 <= i < n ==> IsSpace(s[i])) && (n < |s| ==> !IsSpace(s[n]))
  {
    if s == [] || !IsSpace(s[0]) then 0 else 1 + LeadingSpaces(s[1..])
  }

  /** The length of the part before the first space. */
  function WordLength(s: string): (n: nat)
    ensures n <= |s| && (forall i :: 0 <= i < n ==> !IsSpace(s[i])) && (n < |s| ==> IsSpace(s[n]))
  {
    if s == [] || IsSpace(s[0]) then 0 else 1 + WordLength(s[1..])
  }

  /** DecodeBase58 as a function: one word between spaces, all of it in the alphabet. */
  function Decoded(str: string): Option<seq<int>> {
    var s := CString(str);
    var t := s[LeadingSpaces(s)..];
    var u := t[Leading(t, '1')..];
    var word, tail := u[..WordLength(u)], u[WordLength(u)..];
    if InAlphabet(word) && LeadingSpaces(tail) == |tail| then
      NumberBound(DigitsOf(word), 58);
      Some(Repeat(Leading(t, '1'), 0) + Written(Number(DigitsOf(word), 58), 256))
    else None
  }

  method SkipSpaces(s: string) returns (n: nat)
    ensures n == LeadingSpaces(s)
  {
    n := 0;
    while n < |s| && IsSpace(s[n])
      invariant 0 <= n <= |s| && forall i :: 0 <= i < n ==> IsSpace(s[i])
    {
      n := n + 1;
    }
    SpacesUnique(s, n);
  }

  method CountOnes(s: string) returns (n: nat)
    ensures n == Leading(s, '1')
  {
    n := 0;
    while n < |s| && s[n] == '1'
      invariant 0 <= n <= |s| && forall i :: 0 <= i < n ==> s[i] == '1'
    {
      n := n + 1;
    }
    LeadingUnique(s, '1', n);
  }

  lemma PrefixBound(ds: seq<int>, b: nat, n: nat)
    requires Digits(ds, b) && b >= 1 && |ds| <= n
    ensures Number(ds, b) < Pow(b, n)
  {
    NumberBound(ds, b);
    PowGrows(b, |ds|, n);
  }

  /** The first `n` characters are in the alphabet and the buffer holds the number they write. */
  ghost predicate ReadSoFar(u: string, n: nat, x: seq<int>, length: nat)
    requires n <= |u|
  {
    InAlphabet(u[..n]) && BufferOk(x, 256, length) && Number(x, 256) == Number(DigitsOf(u[..n]), 58)
  }

  /** What one more character does to the number. */
  lemma OneMoreChar(u: string, n: nat, x: seq<int>, length: nat)
    requires n < |u| && ReadSoFar(u, n, x, length) && DigitOf(u[n]) >= 0
    ensures InAlphabet(u[..n + 1])
    ensures Number(DigitsOf(u[..n + 1]), 58) == Number(x, 256) * 58 + DigitOf(u[n]) < Pow(58, |u|)
  {
    assert u[..n + 1] == u[..n] + [u[n]];
    var ds := DigitsOf(u[..n + 1]);
    assert ds[..n] == DigitsOf(u[..n]);
    PrefixBound(ds, 58, |u|);
  }

  method TakeChar(u: string, n: nat, buf: array<int>, length: nat) returns (used: nat)
    requires n < |u| && ReadSoFar(u, n, buf[..], length) && DigitOf(u[n]) >= 0 && Pow(58, |u|) <= Pow(256, buf.Length)
    modifies buf
    ensures ReadSoFar(u, n + 1, buf[..], used)
  {
    OneMoreChar(u, n, buf[..], length);
    used := MulAdd(buf, 256, 58, DigitOf(u[n]), length);
  }

  /** Takes in the characters up to a space one by one; fails at one outside the alphabet. */
  method ReadWord(u: string, buf: array<int>) returns (ok: bool, n: nat, length: nat)
    requires Pow(58, |u|) <= Pow(256, buf.Length) && forall j :: 0 <= j < buf.Length ==> buf[j] == 0
    modifies buf
    ensures ok <==> InAlphabet(u[..WordLength(u)])
    ensures ok ==> n == WordLength(u) && BufferOk(buf[..], 256, length)
    ensures ok ==> Number(buf[..], 256) == Number(DigitsOf(u[..WordLength(u)]), 58)
  {
    ok, n, length := false, 0, 0;
    EmptyBuffer(buf[..], 256);
    while n < |u| && !IsSpace(u[n])
      invariant 0 <= n <= |u| && (forall i :: 0 <= i < n ==> !IsSpace(u[i])) && ReadSoFar(u, n, buf[..], length)
    {
      if DigitOf(u[n]) < 0 {
        WordReaches(u, n);
        assert u[..WordLength(u)][n] == u[n];
        return;
      }
      length := TakeChar(u, n, buf, length);
      n := n + 1;
    }
    WordUnique(u, n);
    ok := true;
  }

  predicate AllSpace(s: string) {
    forall i :: 0 <= i < |s| ==> IsSpace(s[i])
  }

  /** What the decoder makes of the parts it finds. */
  lemma FromParts(str: string, s: string, n: nat, z: nat, word: string, v: nat)
    requires s == CString(str) && n == LeadingSpaces(s) && z == Leading(s[n..], '1')
    requires var u := s[n..][z..];
             && word == u[..WordLength(u)] && InAlphabet(word) && v == Number(DigitsOf(word), 58)
             && AllSpace(u[WordLength(u)..])
    ensures Decoded(str) == Some(Repeat(z, 0) + Written(v, 256))
  {
    var u := s[n..][z..];
    SpacesUnique(u[WordLength(u)..], |u| - WordLength(u));
  }

  /** When it refuses them. */
  lemma FromBadParts(str: string, s: string, n: nat, z: nat)
    requires s == CString(str) && n == LeadingSpaces(s) && z == Leading(s[n..], '1')
    requires var u := s[n..][z..];
             !InAlphabet(u[..WordLength(u)]) || LeadingSpaces(u[WordLength(u)..]) != |u| - WordLength(u)
    ensures Decoded(str) == None
  {
  }

  /** The buffer, and the characters of the word taken into it. */
  method ReadIntoBuffer(u: string) returns (ok: bool, n: nat, b256: array<int>, length: nat)
    ensures fresh(b256) && (ok <==> InAlphabet(u[..WordLength(u)]))
    ensures ok ==> n == WordLength(u) && BufferOk(b256[..], 256, length)
    ensures ok ==> Number(b256[..], 256) == Number(DigitsOf(u[..WordLength(u)]), 58)
  {
    DecodeFits(|u|);
    b256 := new int[DecodeSize(|u|)](i => 0);
    ok, n, length := ReadWord(u, b256);
  }

  /** DecodeBase58. */
  method DecodeBase58(str: string) returns (r: Option<seq<int>>)
    ensures r == Decoded(str)
  {
    var s := CString(str);
    var start := SkipSpaces(s);
    var t := s[start..];
    var zeroes := CountOnes(t);
    var u := t[zeroes..];
    var ok, n, b256, length := ReadIntoBuffer(u);
    if !ok {
      FromBadParts(str, s, start, zeroes);
      return None;
    }
    var tail := u[n..];
    var spaces := SkipSpaces(tail);
    if spaces != |tail| {
      FromBadParts(str, s, start, zeroes);
      return None;
    }
    var digits := Significant(b256, 256, length);
    FromParts(str, s, start, zeroes, u[..n], Number(b256[..], 256));
    return Some(Repeat(zeroes, 0) + digits);
  }

  lemma SpacesUnique(s: string, n: nat)
    requires n <= |s| && (forall i :: 0 <= i < n ==> IsSpace(s[i])) && (n < |s| ==> !IsSpace(s[n]))
    ensures LeadingSpaces(s) == n
  {
    var k := LeadingSpaces(s);
  }

  lemma WordUnique(s: string, n: nat)
    requires n <= |s| && (forall i :: 0 <= i < n ==> !IsSpace(s[i])) && (n < |s| ==> IsSpace(s[n]))
    ensures WordLength(s) == n
  {
    var k := WordLength(s);
  }

  lemma WordReaches(s: string, n: nat)
    requires n < |s| && forall i :: 0 <= i <= n ==> !IsSpace(s[i])
    ensures WordLength(s) > n
  {
    var k := WordLength(s);
  }

  // ---------------------------------------------------------------- round trips

  lemma {:induction false} NoNul(s: string)
    requires forall i :: 0 <= i < |s| ==> s[i] != 0 as char
    ensures CString(s) == s
  {
    if s != [] {
      NoNul(s[1..]);
    }
  }

  /** `z` ones, then digits without a leading zero. */
  ghost predicate Spelled(s: string, z: nat, ds: seq<int>) {
    Digits(ds, 58) && (ds != [] ==> ds[0] != 0) && s == Repeat(z, '1') + Chars(ds)
  }

  /** `z` zero bytes, then bytes without a leading zero. */
  ghost predicate Bytes(x: seq<int>, z: nat, w: seq<int>) {
    Digits(w, 256) && (w != [] ==> w[0] != 0) && x == Repeat(z, 0) + w
  }

  lemma CharsDigits(ds: seq<int>)
    requires Digits(ds, 58)
    ensures InAlphabet(Chars(ds)) && DigitsOf(Chars(ds)) == ds
  {
    forall i | 0 <= i < |ds|
      ensures DigitOf(Chars(ds)[i]) == ds[i]
    {
      AlphabetInverse(ds[i], ' ');
    }
  }

  lemma OneIsZero()
    ensures CharOf(0) == '1' && DigitOf('1') == 0
  {
  }

  /** What the decoder sees of a spelled word. */
  lemma SpelledParts(s: string, z: nat, ds: seq<int>)
    requires Spelled(s, z, ds)
    ensures InAlphabet(s) && Leading(s, '1') == z && s[z..] == Chars(ds) && InAlphabet(s[z..]) && DigitsOf(s[z..]) == ds
  {
    CharsDigits(ds);
    OneIsZero();
    if ds != [] {
      AlphabetInverse(ds[0], ' ');
    }
    LeadingUnique(s, '1', z);
    assert s[z..] == Chars(ds);
  }

  /** A word over the alphabet is all the decoder reads. */
  lemma OneWord(s: string)
    requires InAlphabet(s)
    ensures CString(s) == s && LeadingSpaces(s) == 0 && forall i :: 0 <= i < |s| ==> !IsSpace(s[i])
  {
    forall i | 0 <= i < |s|
      ensures !IsSpace(s[i]) && s[i] != 0 as char
    {
      AlphabetInverse(0, s[i]);
    }
    NoNul(s);
    SpacesUnique(s, 0);
  }

  /** What decoding makes of a word over the alphabet. */
  lemma DecodedSpelled(s: string, z: nat, ds: seq<int>, v: nat)
    requires Spelled(s, z, ds) && v == Number(ds, 58)
    ensures Decoded(s) == Some(Repeat(z, 0) + Written(v, 256))
  {
    SpelledParts(s, z, ds);
    OneWord(s);
    assert s[0..] == s;
    var u := s[z..];
    WordUnique(u, |u|);
    assert u[..|u|] == u && u[|u|..] == [];
  }

  lemma EncodedBytes(x: seq<int>, z: nat, w: seq<int>, v: nat) returns (s: string)
    requires Bytes(x, z, w) && v == Number(w, 256)
    ensures Digits(x, 256) && s == Encoded(x) && Spelled(s, z, Written(v, 58))
  {
    LeadingUnique(x, 0, z);
    assert x[z..] == w;
    WrittenDigits(v, 58);
    s := Encoded(x);
  }

  /** DecodeBase58(EncodeBase58(x)) == x. */
  lemma DecodeEncode(x: seq<int>)
    requires Digits(x, 256)
    ensures Decoded(Encoded(x)) == Some(x)
  {
    var z := Leading(x, 0);
    var w := x[z..];
    assert x == Repeat(z, 0) + w;
    WriteRead(w, 256);
    var v := Number(w, 256);
    var s := EncodedBytes(x, z, w, v);
    ReadWritten(v, 58);
    DecodedSpelled(s, z, Written(v, 58), v);
  }

  /** EncodeBase58(DecodeBase58(s)) == s for every string over the alphabet, `x` being what it decodes to. */
  lemma EncodeDecode(s: string) returns (x: seq<int>)
    requires InAlphabet(s)
    ensures Decoded(s) == Some(x) && Digits(x, 256) && Encoded(x) == s
  {
    var z, ds := SpelledOut(s);
    WriteRead(ds, 58);
    var v := Number(ds, 58);
    DecodedSpelled(s, z, ds, v);
    WrittenDigits(v, 256);
    ReadWritten(v, 256);
    x := Repeat(z, 0) + Written(v, 256);
    var s' := EncodedBytes(x, z, Written(v, 256), v);
  }

  /** Every string over the alphabet is spelled that way. */
  lemma SpelledOut(s: string) returns (z: nat, ds: seq<int>)
    requires InAlphabet(s)
    ensures Spelled(s, z, ds)
  {
    OneIsZero();
    z := Leading(s, '1');
    var u := s[z..];
    ds := DigitsOf(u);
    if u != [] {
      AlphabetInverse(0, u[0]);
    }
    CharsBack(u);
    assert s == Repeat(z, '1') + u;
  }

  lemma CharsBack(u: string)
    requires InAlphabet(u)
    ensures Chars(DigitsOf(u)) == u
  {
    forall i | 0 <= i < |u|
      ensures CharOf(DigitsOf(u)[i]) == u[i]
    {
      AlphabetInverse(0, u[i]);
    }
  }

  // ---------------------------------------------------------------- exactly what decodes

  /** The string up to its first NUL. */
  lemma {:induction false} CStringIs(s: string)
    ensures CString(s) <= s && 0 as char !in CString(s)
    ensures CString(s) == s || (|CString(s)| < |s| && s[|CString(s)|] == 0 as char)
    ensures CString(CString(s)) == CString(s)
  {
    if s != [] && s[0] != 0 as char {
      CStringIs(s[1..]);
      assert CString(s)[1..] == CString(s[1..]);
    }
  }

  lemma LeadingBefore(w: string, b: string)
    requires InAlphabet(w) && AllSpace(b)
    ensures Leading(w + b, '1') == Leading(w, '1')
  {
    LeadingUnique(w + b, '1', Leading(w, '1'));
  }

  lemma WordBefore(w: string, b: string)
    requires InAlphabet(w) && AllSpace(b)
    ensures WordLength(w + b) == |w| && (w + b)[..|w|] == w && (w + b)[|w|..] == b
  {
    forall i | 0 <= i < |w|
      ensures !IsSpace((w + b)[i])
    {
      AlphabetInverse(0, w[i]);
    }
    WordUnique(w + b, |w|);
  }

  lemma SpacesBefore(a: string, w: string, b: string)
    requires InAlphabet(w) && AllSpace(a) && AllSpace(b)
    ensures w != [] ==> LeadingSpaces(a + w + b) == |a| && (a + w + b)[|a|..] == w + b
    ensures w == [] ==> LeadingSpaces(a + w + b) == |a + w + b|
  {
    var s := a + w + b;
    if w != [] {
      AlphabetInverse(0, w[0]);
      SpacesUnique(s, |a|);
    } else {
      SpacesUnique(s, |s|);
    }
  }

  lemma PartsAround(a: string, w: string, b: string, z: nat, word: string)
    requires AllSpace(a) && AllSpace(b) && InAlphabet(w) && w != [] && z == Leading(w, '1') && word == w[z..]
    ensures var s := a + w + b;
            && LeadingSpaces(s) == |a| && Leading(s[|a|..], '1') == z
            && WordLength(s[|a|..][z..]) == |word| && s[|a|..][z..][..|word|] == word && s[|a|..][z..][|word|..] == b
  {
    SpacesBefore(a, w, b);
    LeadingBefore(w, b);
    assert (w + b)[z..] == word + b;
    WordBefore(word, b);
  }

  /** A zero byte per leading '1', then the shortest bytes of the number that the rest writes. */
  function ValueOf(w: string): seq<int>
    requires InAlphabet(w)
  {
    var z := Leading(w, '1');
    NumberBound(DigitsOf(w[z..]), 58);
    Repeat(z, 0) + Written(Number(DigitsOf(w[z..]), 58), 256)
  }

  lemma WordAround(str: string, a: string, w: string, b: string)
    requires CString(str) == a + w + b && AllSpace(a) && AllSpace(b) && InAlphabet(w) && w != []
    ensures Decoded(str) == Some(ValueOf(w))
  {
    var z := Leading(w, '1');
    var word := w[z..];
    NumberBound(DigitsOf(word), 58);
    PartsAround(a, w, b, z, word);
    FromParts(str, a + w + b, |a|, z, word, Number(DigitsOf(word), 58));
  }

  lemma OnlySpaces(str: string)
    requires AllSpace(CString(str))
    ensures Decoded(str) == Some([])
  {
    var s := CString(str);
    SpacesUnique(s, |s|);
    assert s[|s|..] == [] && s[|s|..][0..] == [];
    FromParts(str, s, |s|, 0, [], 0);
    assert Repeat(0, 0) + Written(0, 256) == [];
  }

  /** Spaces around a word make no difference. */
  lemma SpacesAround(str: string, a: string, w: string, b: string)
    requires CString(str) == a + w + b && AllSpace(a) && AllSpace(b) && InAlphabet(w)
    ensures Decoded(str) == Decoded(w)
  {
    OneWord(w);
    if w == [] {
      OnlySpaces(str);
      OnlySpaces(w);
    } else {
      WordAround(str, a, w, b);
      assert [] + w + [] == w;
      WordAround(w, [], w, []);
    }
  }

  lemma ThreeParts(s: string, n: nat, z: nat, m: nat)
    requires n <= |s| && z <= |s| - n && m <= |s| - n - z
    ensures s == s[..n] + s[n..][..z + m] + s[n..][z..][m..]
  {
  }

  lemma OnesThenWord(t: string, z: nat, m: nat)
    requires z + m <= |t| && (forall i :: 0 <= i < z ==> t[i] == '1') && InAlphabet(t[z..][..m])
    ensures InAlphabet(t[..z + m])
  {
    OneIsZero();
    var w := t[..z + m];
    forall i | 0 <= i < |w|
      ensures DigitOf(w[i]) >= 0
    {
      if i >= z {
        assert t[i] == t[z..][..m][i - z];
      }
    }
  }

  /** Leading spaces, the word and what follows it, of anything that decodes. */
  lemma DecodedParts(str: string) returns (a: string, w: string, b: string)
    requires Decoded(str).Some?
    ensures CString(str) == a + w + b && AllSpace(a) && AllSpace(b) && InAlphabet(w)
  {
    var s := CString(str);
    var n := LeadingSpaces(s);
    var t := s[n..];
    var z := Leading(t, '1');
    var u := t[z..];
    var m := WordLength(u);
    a, w, b := s[..n], t[..z + m], u[m..];
    ThreeParts(s, n, z, m);
    OnesThenWord(t, z, m);
  }

  /** A string decodes to `x` exactly if, up to its first NUL, it is the encoding of `x` with spaces around it. */
  lemma DecodesIff(str: string, x: seq<int>)
    requires Digits(x, 256)
    ensures Decoded(str) == Some(x) <==>
              exists a: string, b: string :: AllSpace(a) && AllSpace(b) && CString(str) == a + Encoded(x) + b
  {
    if Decoded(str) == Some(x) {
      var a, w, b := DecodedParts(str);
      SpacesAround(str, a, w, b);
      var x' := EncodeDecode(w);
      assert CString(str) == a + Encoded(x) + b;
    }
    if a: string, b: string :| AllSpace(a) && AllSpace(b) && CString(str) == a + Encoded(x) + b {
      EncodedWord(x);
      SpacesAround(str, a, Encoded(x), b);
      DecodeEncode(x);
    }
  }

  lemma EncodedWord(x: seq<int>)
    requires Digits(x, 256)
    ensures InAlphabet(Encoded(x))
  {
    var z := Leading(x, 0);
    var w := x[z..];
    assert x == Repeat(z, 0) + w;
    NumberBound(w, 256);
    var v := Number(w, 256);
    var s := EncodedBytes(x, z, w, v);
    SpelledParts(s, z, Written(v, 58));
  }

  /** Whatever decodes gives bytes. */
  lemma DecodesToBytes(str: string)
    requires Decoded(str).Some?
    ensures Digits(Decoded(str).value, 256)
  {
    var a, w, b := DecodedParts(str);
    SpacesAround(str, a, w, b);
    var x := EncodeDecode(w);
  }
}
