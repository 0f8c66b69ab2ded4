/** Casts between small integers and bit-vectors lose nothing. */
module Casts {

  lemma SextetOfSmall(x: nat)
    requires x < 64
    ensures (x as bv8) < 64 && (x as bv8) as int == x
  {
    OctetOfSmall(x);
  }

  lemma SextetRoundTrip(v: bv8)
    requires v < 64
    ensures v as int < 64 && v as int as bv8 == v
  {
  }

  lemma OctetRoundTrip(v: bv8)
    ensures v as int as bv8 == v
  {
  }

  // Sixteen values at a time, which keeps every single proof cheap.

  lemma OctetBelow16(x: nat)
    requires 0 <= x < 16
    ensures (x as bv8) as int == x
  {
  }

  lemma OctetBelow32(x: nat)
    requires 16 <= x < 32
    ensures (x as bv8) as int == x
  {
  }

  lemma OctetBelow48(x: nat)
    requires 32 <= x < 48
    ensures (x as bv8) as int == x
  {
  }

  lemma OctetBelow64(x: nat)
    requires 48 <= x < 64
    ensures (x as bv8) as int == x
  {
  }

  lemma OctetBelow80(x: nat)
    requires 64 <= x < 80
    ensures (x as bv8) as int == x
  {
  }

  lemma OctetBelow96(x: nat)
    requires 80 <= x < 96
    ensures (x as bv8) as int == x
  {
  }

  lemma OctetBelow112(x: nat)
    requires 96 <= x < 112
    ensures (x as bv8) as int == x
  {
  }

  lemma OctetBelow128(x: nat)
    requires 112 <= x < 128
    ensures (x as bv8) as int == x
  {
  }

  lemma OctetBelow144(x: nat)
    requires 128 <= x < 144
    ensures (x as bv8) as int == x
  {
  }

  lemma OctetBelow160(x: nat)
    requires 144 <= x < 160
    ensures (x as bv8) as int == x
  {
  }

  lemma OctetBelow176(x: nat)
    requires 160 <= x < 176
    ensures (x as bv8) as int == x
  {
  }

  lemma OctetBelow192(x: nat)
    requires 176 <= x < 192
    ensures (x as bv8) as int == x
  {
  }

  lemma OctetBelow208(x: nat)
    requires 192 <= x < 208
    ensures (x as bv8) as int == x
  {
  }

  lemma OctetBelow224(x: nat)
    requires 208 <= x < 224
    ensures (x as bv8) as int == x
  {
  }

  lemma OctetBelow240(x: nat)
    requires 224 <= x < 240
    ensures (x as bv8) as int == x
  {
  }

  lemma OctetBelow256(x: nat)
    requires 240 <= x < 256
    ensures (x as bv8) as int == x
  {
  }

  lemma OctetOfSmall(x: nat)
    requires x < 256
    ensures (x as bv8) as int == x
  {
    if x < 16 {
      OctetBelow16(x);
    } else if x < 32 {
      OctetBelow32(x);
    } else if x < 48 {
      OctetBelow48(x);
    } else if x < 64 {
      OctetBelow64(x);
    } else if x < 80 {
      OctetBelow80(x);
    } else if x < 96 {
      OctetBelow96(x);
    } else if x < 112 {
      OctetBelow112(x);
    } else if x < 128 {
      OctetBelow128(x);
    } else if x < 144 {
      OctetBelow144(x);
    } else if x < 160 {
      OctetBelow160(x);
    } else if x < 176 {
      OctetBelow176(x);
    } else if x < 192 {
      OctetBelow192(x);
    } else if x < 208 {
      OctetBelow208(x);
    } else if x < 224 {
      OctetBelow224(x);
    } else if x < 240 {
      OctetBelow240(x);
    } else {
      OctetBelow256(x);
    }
  }
}

/**
 Octets, big-endian numbers and bit strings.

 Sizes and counts of the source (size_t, uint64_t) are Dafny integers, so a right shift is a
 division by a power of two and a cast to uint8_t is the remainder modulo 256.
 */
module Bytes {
  import Casts

  const TWO_TO_THE_64: int := 0x1_0000_0000_0000_0000

  /** 2^n. */
  function Pow2(n: nat): (p: nat)
    ensures p > 0
  {
    if n == 0 then 1 else 2 * Pow2(n - 1)
  }

  /** A cast to uint8_t. */
  function Octet(x: nat): bv8 {
    (x % 256) as bv8
  }

  /** A logical right shift of an unsigned integer. */
  function ShiftRight(x: nat, bits: nat): nat {
    var p := Pow2(bits);
    QuotientNonNegative(x, p);
    x / p
  }

  lemma QuotientNonNegative(x: nat, p: nat)
    requires p > 0
    ensures x / p >= 0
  {
  }

  /** The number whose base-256 digits, most significant first, are `s`. */
  function BigEndian(s: seq<bv8>): nat {
    if s == [] then 0 else 256 * BigEndian(s[..|s| - 1]) + s[|s| - 1] as int
  }

  /** The low `n` base-256 digits of `x`, most significant first. */
  function BigEndianBytes(x: nat, n: nat): (s: seq<bv8>)
    ensures |s| == n
  {
    if n == 0 then [] else BigEndianBytes(x / 256, n - 1) + [Octet(x)]
  }

  /** The low `n` binary digits of `x`, most significant first. */
  function BinaryDigits(x: nat, n: nat): (s: seq<bool>)
    ensures |s| == n
  {
    if n == 0 then [] else BinaryDigits(x / 2, n - 1) + [x % 2 == 1]
  }

  /** The bit string of an octet string, most significant bit of each octet first. */
  function Bits(s: seq<bv8>): (b: seq<bool>)
    ensures |b| == 8 * |s|
  {
    if s == [] then [] else Bits(s[..|s| - 1]) + BinaryDigits(s[|s| - 1] as int, 8)
  }

  lemma OctetValue(x: nat)
    ensures Octet(x) as int == x % 256
  {
    Casts.OctetOfSmall(x % 256);
  }

  lemma {:induction false} Pow2Add(m: nat, n: nat)
    ensures Pow2(m + n) == Pow2(m) * Pow2(n)
  {
    if m == 0 {
    } else {
      Pow2Add(m - 1, n);
      assert 2 * (Pow2(m - 1) * Pow2(n)) == (2 * Pow2(m - 1)) * Pow2(n);
    }
  }

  lemma Pow2Of8(n: nat)
    ensures Pow2(8 * n + 8) == 256 * Pow2(8 * n)
  {
    Pow2Add(8, 8 * n);
    assert Pow2(8) == 256 by {
      assert Pow2(3) == 8;
      Pow2Add(3, 3);
      Pow2Add(6, 2);
    }
  }

  lemma Pow2Of64()
    ensures Pow2(64) == TWO_TO_THE_64
  {
    assert Pow2(0) == 1;
    hide Pow2;
    Pow2Of8(0);
    Pow2Of8(1);
    Pow2Of8(2);
    Pow2Of8(3);
    Pow2Of8(4);
    Pow2Of8(5);
    Pow2Of8(6);
    Pow2Of8(7);
  }

  lemma MulAtLeast(d: int, k: int)
    requires d > 0 && k >= 1
    ensures d * k >= d
  {
  }

  lemma QuotientUnique(x: int, d: int, q: int, r: int)
    requires d > 0 && x == d * q + r && 0 <= r < d
    ensures x / d == q && x % d == r
  {
    var q', r' := x / d, x % d;
    assert x == d * q' + r';
    var k := q - q';
    assert d * k == r' - r by { assert d * k == d * q - d * q'; }
    if k > 0 {
      MulAtLeast(d, k);
    } else if k < 0 {
      MulAtLeast(d, -k);
    }
  }

  /** Dividing twice, with the remainders of both steps. */
  lemma DivModDivMod(x: nat, a: nat, b: nat)
    requires a > 0 && b > 0
    ensures a * b > 0
    ensures (x / a) / b == x / (a * b)
    ensures x % (a * b) == a * ((x / a) % b) + x % a
  {
    var q, r := x / a, x % a;
    var q', r' := q / b, q % b;
    QuotientNonNegative(x, a);
    NestedDigits(a, b, q', r', r);
    QuotientUnique(x, a * b, q', a * r' + r);
  }

  lemma NestedDigits(a: nat, b: nat, q: int, s: nat, r: nat)
    requires r < a && s < b
    ensures a * (b * q + s) + r == (a * b) * q + (a * s + r)
    ensures 0 <= a * s + r < a * b
  {
    assert a * (b * q + s) == a * (b * q) + a * s;
    assert a * (b * q) == (a * b) * q;
    MulAtLeast(a, b - s);
    assert a * (b - s) == a * b - a * s;
  }

  /** Digit `i` of the big-endian form is the octet the source reads off with a shift. */
  lemma {:induction false} BigEndianByteAt(x: nat, n: nat, i: nat)
    requires i < n
    ensures BigEndianBytes(x, n)[i] == Octet(ShiftRight(x, 8 * (n - 1 - i)))
  {
    if i == n - 1 {
      assert Pow2(0) == 1;
    } else {
      BigEndianByteAt(x / 256, n - 1, i);
      var k := n - 2 - i;
      Pow2Of8(k);
      DivModDivMod(x, 256, Pow2(8 * k));
      assert 8 * (n - 1 - i) == 8 * k + 8;
    }
  }

  /** Writing a number in base 256 and reading it back loses only what does not fit. */
  lemma {:induction false} BigEndianRoundTrip(x: nat, n: nat)
    ensures BigEndian(BigEndianBytes(x, n)) == x % Pow2(8 * n)
  {
    if n == 0 {
      assert Pow2(8 * n) == 1;
    } else {
      var s := BigEndianBytes(x, n);
      assert s[..n - 1] == BigEndianBytes(x / 256, n - 1);
      BigEndianRoundTrip(x / 256, n - 1);
      OctetValue(x);
      var p := Pow2(8 * (n - 1));
      Pow2Of8(n - 1);
      assert 8 * (n - 1) + 8 == 8 * n;
      DivModDivMod(x, 256, p);
    }
  }

  /** Reading an octet string as a number and writing it back is the identity. */
  lemma {:induction false} BigEndianBytesOfValue(s: seq<bv8>)
    ensures BigEndianBytes(BigEndian(s), |s|) == s
    ensures BigEndian(s) < Pow2(8 * |s|)
  {
    if s == [] {
    } else {
      var init, last := s[..|s| - 1], s[|s| - 1];
      BigEndianBytesOfValue(init);
      var v := BigEndian(s);
      QuotientUnique(v, 256, BigEndian(init), last as int);
      OctetValue(v);
      assert Octet(v) == last;
      assert s == init + [last];
      Pow2Of8(|init|);
      assert 8 * |init| + 8 == 8 * |s|;
    }
  }

  lemma BinaryDigitsSplit(x: nat, n: nat)
    ensures BinaryDigits(x, n + 8) == BinaryDigits(x / 256, n) + BinaryDigits(x % 256, 8)
  {
    assert Pow2(8) == 256 by { Pow2Of8(0); assert Pow2(0) == 1; }
    BinaryDigitsJoin(x / 256, x % 256, n, 8);
  }

  lemma {:induction false} BinaryDigitsJoin(hi: nat, lo: nat, n: nat, k: nat)
    requires lo < Pow2(k)
    ensures BinaryDigits(Pow2(k) * hi + lo, n + k) == BinaryDigits(hi, n) + BinaryDigits(lo, k)
  {
    if k == 0 {
      assert Pow2(0) == 1;
    } else {
      BinaryDigitsJoin(hi, lo / 2, n, k - 1);
      HalfStep(Pow2(k - 1), hi, lo);
    }
  }

  lemma HalfStep(p: nat, hi: nat, lo: nat)
    ensures (2 * p * hi + lo) / 2 == p * hi + lo / 2
    ensures (2 * p * hi + lo) % 2 == lo % 2
  {
    QuotientUnique(2 * p * hi + lo, 2, p * hi + lo / 2, lo % 2);
  }

  /** The big-endian octets of a number spell its binary digits. */
  lemma {:induction false} BitsOfBigEndianBytes(x: nat, n: nat)
    ensures Bits(BigEndianBytes(x, n)) == BinaryDigits(x, 8 * n)
  {
    if n == 0 {
    } else {
      var s := BigEndianBytes(x, n);
      assert s[..n - 1] == BigEndianBytes(x / 256, n - 1);
      BitsOfBigEndianBytes(x / 256, n - 1);
      BinaryDigitsSplit(x, 8 * (n - 1));
      OctetValue(x);
    }
  }

  lemma {:induction false} BitsConcat(s: seq<bv8>, t: seq<bv8>)
    ensures Bits(s + t) == Bits(s) + Bits(t)
  {
    hide BinaryDigits;
    if t == [] {
      assert s + t == s;
    } else {
      var t' := t[..|t| - 1];
      BitsConcat(s, t');
      assert (s + t)[..|s + t| - 1] == s + t';
    }
  }
}
