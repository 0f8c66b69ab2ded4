/**
 SHA-1 as the standard defines it: sections 4.1.1, 4.2.1, 5.1.1, 5.2.1, 5.3.1 and 6.1.2 of FIPS 180-4.
 */
module Sha1Spec {
  import opened Bytes

  datatype HashValue = HashValue(a: bv32, b: bv32, c: bv32, d: bv32, e: bv32)

  const INITIAL_HASH := HashValue(0x67452301, 0xEFCDAB89, 0x98BADCFE, 0x10325476, 0xC3D2E1F0)

  function Ch(x: bv32, y: bv32, z: bv32): bv32 {
    (x & y) ^ (!x & z)
  }

  function Parity(x: bv32, y: bv32, z: bv32): bv32 {
    x ^ y ^ z
  }

  function Maj(x: bv32, y: bv32, z: bv32): bv32 {
    (x & y) ^ (x & z) ^ (y & z)
  }

  function F(t: nat, x: bv32, y: bv32, z: bv32): bv32 {
    if t < 20 then Ch(x, y, z)
    else if t < 40 then Parity(x, y, z)
    else if t < 60 then Maj(x, y, z)
    else Parity(x, y, z)
  }

  function K(t: nat): bv32 {
    if t < 20 then 0x5A827999
    else if t < 40 then 0x6ED9EBA1
    else if t < 60 then 0x8F1BBCDC
    else 0xCA62C1D6
  }

  predicate ReachesLastBlock(l: nat, k: int) {
    (l + 1 + k) % 512 == 448
  }

  /** `k` is the smallest non-negative solution of l + 1 + k = 448 (mod 512). */
  ghost predicate IsZeroBitCount(l: nat, k: nat) {
    ReachesLastBlock(l, k) && forall j :: 0 <= j < k ==> !ReachesLastBlock(l, j)
  }

  function ZeroBitCount(l: nat): (k: nat)
    ensures IsZeroBitCount(l, k) && k < 512
  {
    (447 - l) % 512
  }

  function Zeros(n: nat): (s: seq<bv8>)
    ensures |s| == n && forall i :: 0 <= i < n ==> s[i] == 0
  {
    seq(n, i => 0)
  }

  /** The zero octets between the octet 0x80 and the length: 0x80 already carries seven zero bits. */
  function ZeroOctets(n: nat): nat {
    ZeroBitCount(8 * n) / 8
  }

  function Pad(msg: seq<bv8>): seq<bv8> {
    msg + [0x80] + Zeros(ZeroOctets(|msg|)) + BigEndianBytes(8 * |msg|, 8)
  }

  /** A 32-bit word is four octets, most significant first. */
  function Word(data: seq<bv8>, i: nat): bv32
    requires i + 4 <= |data|
  {
    data[i] as bv32 * 0x100_0000 + data[i + 1] as bv32 * 0x1_0000 + data[i + 2] as bv32 * 0x100 + data[i + 3] as bv32
  }

  /** A schedule word after the sixteenth, from the words 3, 8, 14 and 16 places before it. */
  function NextWord(x3: bv32, x8: bv32, x14: bv32, x16: bv32): bv32 {
    (x3 ^ x8 ^ x14 ^ x16).RotateLeft(1)
  }

  /** The message schedule W of one block. */
  function Schedule(block: seq<bv8>, t: nat): bv32
    requires |block| == 64
  {
    if t < 16 then Word(block, 4 * t)
    else NextWord(Schedule(block, t - 3), Schedule(block, t - 8), Schedule(block, t - 14), Schedule(block, t - 16))
  }

  /** The temporary word T of one step; addition is modulo 2^32. */
  function T(rotated: bv32, f: bv32, e: bv32, k: bv32, w: bv32): bv32 {
    rotated + f + e + k + w
  }

  /** One step on the working variables, with the schedule word `w`. */
  function Step(t: nat, v: HashValue, w: bv32): HashValue {
    HashValue(T(v.a.RotateLeft(5), F(t, v.b, v.c, v.d), v.e, K(t), w), v.a, v.b.RotateLeft(30), v.c, v.d)
  }

  /** The working variables after `t` steps. */
  function Rounds(block: seq<bv8>, h: HashValue, t: nat): HashValue
    requires |block| == 64
  {
    if t == 0 then h else Step(t - 1, Rounds(block, h, t - 1), Schedule(block, t - 1))
  }

  /** Addition modulo 2^32. */
  function Plus(x: bv32, y: bv32): bv32 {
    x + y
  }

  function Compress(block: seq<bv8>, h: HashValue): HashValue
    requires |block| == 64
  {
    var v := Rounds(block, h, 80);
    HashValue(Plus(h.a, v.a), Plus(h.b, v.b), Plus(h.c, v.c), Plus(h.d, v.d), Plus(h.e, v.e))
  }

  /** The hash value after the first `n` blocks. */
  function HashBlocks(data: seq<bv8>, n: nat): HashValue
    requires 64 * n <= |data|
  {
    if n == 0 then INITIAL_HASH else Compress(data[64 * (n - 1)..64 * n], HashBlocks(data, n - 1))
  }

  /** Four octets, most significant first. */
  function WordOctets(w: bv32): (s: seq<bv8>)
    ensures |s| == 4
  {
    [(w / 0x100_0000) as bv8, (w / 0x1_0000 % 0x100) as bv8, (w / 0x100 % 0x100) as bv8, (w % 0x100) as bv8]
  }

  function HashOctets(h: HashValue): (s: seq<bv8>)
    ensures |s| == 20
  {
    WordOctets(h.a) + WordOctets(h.b) + WordOctets(h.c) + WordOctets(h.d) + WordOctets(h.e)
  }

  function Digest(msg: seq<bv8>): (digest: seq<bv8>)
    ensures |digest| == 20
  {
    PaddedLength(msg);
    HashOctets(HashBlocks(Pad(msg), |Pad(msg)| / 64))
  }

  /** The padded message is a whole number of 64-octet blocks, and no shorter one leaves room for the suffix. */
  lemma PaddedLength(msg: seq<bv8>)
    ensures |Pad(msg)| % 64 == 0
    ensures |msg| + 9 <= |Pad(msg)| < |msg| + 9 + 64
  {
    hide ZeroOctets, ZeroBitCount;
    ZeroOctetsReach(|msg|);
    AddLengthField(|msg| + 1 + ZeroOctets(|msg|));
  }

  lemma AddLengthField(n: nat)
    requires n % 64 == 56
    ensures (n + 8) % 64 == 0
  {
  }

  lemma ZeroOctetsReach(n: nat)
    ensures (n + 1 + ZeroOctets(n)) % 64 == 56 && ZeroOctets(n) < 64
    ensures ZeroBitCount(8 * n) == 8 * ZeroOctets(n) + 7
  {
    assert ReachesLastBlock(8 * n, ZeroBitCount(8 * n));
  }

  lemma ZeroOctetsLeast(n: nat, z: nat)
    requires (n + 1 + z) % 64 == 56
    ensures ZeroOctets(n) <= z
  {
    assert ReachesLastBlock(8 * n, 8 * z + 7);
  }

  /**
   The padded message, bit by bit, is what section 5.1.1 asks for: the message, a one, the least
   number of zeros that reaches 448 modulo 512, and the message length as a 64-bit number.
   */
  lemma PadFollowsStandard(msg: seq<bv8>)
    ensures Bits(Pad(msg))
            == Bits(msg) + [true] + seq(ZeroBitCount(|Bits(msg)|), i => false) + BinaryDigits(|Bits(msg)|, 64)
  {
    hide ZeroOctets, ZeroBitCount, Bits, BinaryDigits, Zeros, BigEndianBytes;
    var l, z := 8 * |msg|, ZeroOctets(|msg|);
    ZeroOctetsReach(|msg|);
    BitsOfPad(msg, z, BigEndianBytes(l, 8));
    BitsOfBigEndianBytes(l, 8);
  }

  /** The final eight octets give the message length in bits exactly when it fits in 64 bits. */
  lemma LengthFieldExact(msg: seq<bv8>)
    ensures |Pad(msg)| >= 8
    ensures BigEndian(Pad(msg)[|Pad(msg)| - 8..]) == |Bits(msg)| % TWO_TO_THE_64
    ensures |msg| < 0x2000_0000_0000_0000
            <==> BigEndian(Pad(msg)[|Pad(msg)| - 8..]) == |Bits(msg)|
  {
    hide ZeroOctets, Zeros, BigEndianBytes, BigEndian, Bits, Pow2;
    var l := 8 * |msg|;
    assert Pad(msg)[|Pad(msg)| - 8..] == BigEndianBytes(l, 8);
    BigEndianRoundTrip(l, 8);
    Pow2Of64();
    assert |msg| < 0x2000_0000_0000_0000 <==> l < TWO_TO_THE_64;
  }

  lemma BitsOfPad(msg: seq<bv8>, z: nat, length: seq<bv8>)
    ensures Bits(msg + [0x80] + Zeros(z) + length) == Bits(msg) + [true] + seq(8 * z + 7, i => false) + Bits(length)
  {
    hide Bits;
    BitsConcat(msg + [0x80] + Zeros(z), length);
    BitsConcat(msg + [0x80], Zeros(z));
    BitsConcat(msg, [0x80]);
    BitsOf0x80();
    BitsOfZeros(z);
    assert seq(8 * z + 7, i => false) == seq(7, i => false) + seq(8 * z, i => false);
  }

  lemma BitsOf0x80()
    ensures Bits([0x80]) == [true] + seq(7, i => false)
  {
    assert Bits([0x80]) == BinaryDigits(128, 8) by {
      assert Bits([0x80]) == Bits([]) + BinaryDigits(128, 8);
    }
    DigitsOfPower(7);
    assert Pow2(7) == 128 by { Pow2Add(4, 3); assert Pow2(3) == 8 && Pow2(4) == 16; }
  }

  lemma {:induction false} DigitsOfPower(n: nat)
    ensures BinaryDigits(Pow2(n), n + 1) == [true] + seq(n, i => false)
  {
    if n == 0 {
      assert Pow2(0) == 1;
    } else {
      DigitsOfPower(n - 1);
    }
  }

  lemma {:induction false} BitsOfZeros(n: nat)
    ensures Bits(Zeros(n)) == seq(8 * n, i => false)
  {
    if n == 0 {
    } else {
      assert Zeros(n)[..n - 1] == Zeros(n - 1);
      BitsOfZeros(n - 1);
      DigitsOfZero(8);
    }
  }

  lemma {:induction false} DigitsOfZero(n: nat)
    ensures BinaryDigits(0, n) == seq(n, i => false)
  {
    if n == 0 {
    } else {
      DigitsOfZero(n - 1);
    }
  }

  /** The length of the message, read off the last eight octets of its padded form. */
  function Unpad(padded: seq<bv8>): seq<bv8>
    requires 8 <= |padded|
  {
    var n := BigEndian(padded[|padded| - 8..]) / 8;
    if n <= |padded| then padded[..n] else []
  }

  /** The message can be recovered from its padded form, so padding is injective. */
  lemma UnpadPad(msg: seq<bv8>)
    requires |msg| < 0x2000_0000_0000_0000
    ensures |Pad(msg)| >= 8 && Unpad(Pad(msg)) == msg
  {
    PaddedLength(msg);
    LengthFieldExact(msg);
  }
}

/**
 The SHA-1 routine of src/server/http_server.cpp. `msg` is the message buffer, `out` the caller's
 20-byte buffer; `w` is the schedule array of one block.
 */
module Sha1Routine {
  import opened Bytes
  import opened Sha1Spec

  function LeftRotate(v: bv32, n: bv32): bv32
    requires 0 < n < 32
  {
    (v << n) | (v >> (32 - n))
  }

  /** The source's bitwise forms of the round functions and of rotation agree with the standard's. */
  lemma ChooseAgrees(t: nat, b: bv32, c: bv32, d: bv32)
    requires t < 20
    ensures (b & c) | (!b & d) == F(t, b, c, d)
  {
  }

  lemma ParityAgrees(t: nat, b: bv32, c: bv32, d: bv32)
    requires 20 <= t < 40 || 60 <= t < 80
    ensures b ^ c ^ d == F(t, b, c, d)
  {
    hide Ch, Parity, Maj;
    assert F(t, b, c, d) == Parity(b, c, d);
    ParityIs(b, c, d);
  }

  lemma ParityIs(b: bv32, c: bv32, d: bv32)
    ensures b ^ c ^ d == Parity(b, c, d)
  {
  }

  lemma MajorityAgrees(t: nat, b: bv32, c: bv32, d: bv32)
    requires 40 <= t < 60
    ensures (b & c) | (b & d) | (c & d) == F(t, b, c, d)
  {
  }

  lemma RotateAgrees(v: bv32)
    ensures LeftRotate(v, 5) == v.RotateLeft(5)
    ensures LeftRotate(v, 30) == v.RotateLeft(30)
  {
  }

  lemma WordFromShifts(a: bv8, b: bv8, c: bv8, d: bv8)
    ensures (a as bv32 << 24) | (b as bv32 << 16) | (c as bv32 << 8) | d as bv32
            == a as bv32 * 0x100_0000 + b as bv32 * 0x1_0000 + c as bv32 * 0x100 + d as bv32
  {
  }

  /** The word the source assembles from four consecutive octets of the buffer. */
  method LoadWord(buf: array<bv8>, at: nat) returns (w: bv32)
    requires at + 4 <= buf.Length
    ensures w == Word(buf[..], at)
  {
    w := (buf[at] as bv32 << 24) | (buf[at + 1] as bv32 << 16) | (buf[at + 2] as bv32 << 8) | buf[at + 3] as bv32;
    WordFromShifts(buf[at], buf[at + 1], buf[at + 2], buf[at + 3]);
  }

  lemma WordInBlock(data: seq<bv8>, offset: nat, i: nat)
    requires offset + 64 <= |data| && i + 4 <= 64
    ensures Word(data[offset..offset + 64], i) == Word(data, offset + i)
  {
  }

  lemma ScheduleStep(block: seq<bv8>, t: nat)
    requires |block| == 64
    ensures t < 16 ==> Schedule(block, t) == Word(block, 4 * t)
    ensures t >= 16 ==>
              Schedule(block, t) == NextWord(
                Schedule(block, t - 3), Schedule(block, t - 8), Schedule(block, t - 14), Schedule(block, t - 16))
  {
    hide NextWord;
  }

  lemma NextWordAgrees(x3: bv32, x8: bv32, x14: bv32, x16: bv32)
    ensures LeftRotate(x3 ^ x8 ^ x14 ^ x16, 1) == NextWord(x3, x8, x14, x16)
  {
  }

  /** The two loops that fill `w` for the block at `offset`. */
  method FillSchedule(buf: array<bv8>, offset: nat) returns (w: array<bv32>)
    requires offset + 64 <= buf.Length
    ensures fresh(w) && w.Length == 80
    ensures forall t :: 0 <= t < 80 ==> w[t] == Schedule(buf[offset..offset + 64], t)
  {
    hide Schedule, Word, LeftRotate, NextWord;
    ghost var block := buf[offset..offset + 64];
    w := new bv32[80];
    for i := 0 to 16
      invariant forall t :: 0 <= t < i ==> w[t] == Schedule(block, t)
    {
      ScheduleStep(block, i);
      w[i] := LoadWord(buf, offset + 4 * i);
      WordInBlock(buf[..], offset, 4 * i);
      assert buf[..][offset..offset + 64] == block;
    }
    for i := 16 to 80
      invariant forall t :: 0 <= t < i ==> w[t] == Schedule(block, t)
    {
      ScheduleStep(block, i);
      var x := w[i - 3] ^ w[i - 8] ^ w[i - 14] ^ w[i - 16];
      w[i] := LeftRotate(x, 1);
      NextWordAgrees(w[i - 3], w[i - 8], w[i - 14], w[i - 16]);
    }
  }

  /** The function and constant of step `i`. */
  method RoundFunction(i: nat, b: bv32, c: bv32, d: bv32) returns (f: bv32, k: bv32)
    requires i < 80
    ensures f == F(i, b, c, d) && k == K(i)
  {
    hide F;
    if i < 20 {
      f, k := (b & c) | (!b & d), 0x5A827999;
      ChooseAgrees(i, b, c, d);
    } else if i < 40 {
      f, k := b ^ c ^ d, 0x6ED9EBA1;
      ParityAgrees(i, b, c, d);
    } else if i < 60 {
      f, k := (b & c) | (b & d) | (c & d), 0x8F1BBCDC;
      MajorityAgrees(i, b, c, d);
    } else {
      f, k := b ^ c ^ d, 0xCA62C1D6;
      ParityAgrees(i, b, c, d);
    }
  }

  method Temporary(rotated: bv32, f: bv32, e: bv32, k: bv32, w: bv32) returns (tmp: bv32)
    ensures tmp == T(rotated, f, e, k, w)
  {
    tmp := rotated + f + e + k + w;
  }

  /** The 80 steps and the final additions for one block. */
  method ProcessBlock(w: array<bv32>, ghost block: seq<bv8>, h0: bv32, h1: bv32, h2: bv32, h3: bv32, h4: bv32)
    returns (g0: bv32, g1: bv32, g2: bv32, g3: bv32, g4: bv32)
    requires w.Length == 80 && |block| == 64
    requires forall t :: 0 <= t < 80 ==> w[t] == Schedule(block, t)
    ensures HashValue(g0, g1, g2, g3, g4) == Compress(block, HashValue(h0, h1, h2, h3, h4))
  {
    hide F, K, Schedule, T, LeftRotate, Plus;
    var a, b, c, d, e := h0, h1, h2, h3, h4;
    for i := 0 to 80
      invariant HashValue(a, b, c, d, e) == Rounds(block, HashValue(h0, h1, h2, h3, h4), i)
    {
      var f, k := RoundFunction(i, b, c, d);
      RotateAgrees(a);
      RotateAgrees(b);
      var tmp := Temporary(LeftRotate(a, 5), f, e, k, w[i]);
      e, d, c, b, a := d, c, LeftRotate(b, 30), a, tmp;
    }
    g0, g1, g2, g3, g4 := Plus(h0, a), Plus(h1, b), Plus(h2, c), Plus(h3, d), Plus(h4, e);
  }

  /** The loop that looks for the padded length. */
  method PaddedPrefixLength(len: nat) returns (newLen: nat)
    ensures newLen == len + 1 + ZeroOctets(len)
  {
    newLen := len + 1;
    ghost var z := ZeroOctets(len);
    ZeroOctetsReach(len);
    while newLen % 64 != 56
      invariant len + 1 <= newLen <= len + 1 + z
      decreases len + 1 + z - newLen
    {
      newLen := newLen + 1;
    }
    ZeroOctetsLeast(len, newLen - len - 1);
  }

  lemma PaddedPrefix(prefix: seq<bv8>, msg: seq<bv8>)
    requires |prefix| == |msg| + 1 + ZeroOctets(|msg|) && prefix[|msg|] == 0x80
    requires forall i :: 0 <= i < |msg| ==> prefix[i] == msg[i]
    requires forall i :: |msg| < i < |prefix| ==> prefix[i] == 0
    ensures prefix == msg + [0x80] + Zeros(ZeroOctets(|msg|))
  {
    hide ZeroOctets;
  }

  /** The zero-filled buffer with the message, the octet 0x80 and the bit count in place. */
  method PadBuffer(msg: seq<bv8>) returns (buf: array<bv8>)
    ensures fresh(buf) && buf[..] == Pad(msg)
  {
    hide ZeroOctets;
    var len := |msg|;
    var newLen := PaddedPrefixLength(len);
    buf := new bv8[newLen + 8](i => 0);
    forall i | 0 <= i < len {
      buf[i] := msg[i];
    }
    buf[len] := 0x80;
    PaddedPrefix(buf[..newLen], msg);
    WriteBitCount(len, buf, newLen);
    assert buf[..] == buf[..newLen] + buf[newLen..];
  }

  method WriteBitCount(len: nat, buf: array<bv8>, newLen: nat)
    requires buf.Length == newLen + 8
    modifies buf
    ensures buf[..newLen] == old(buf[..newLen])
    ensures buf[newLen..] == BigEndianBytes(8 * len, 8)
  {
    var bits := len * 8 % TWO_TO_THE_64;
    for i := 0 to 8
      invariant buf[..newLen] == old(buf[..newLen])
      invariant forall j :: 0 <= j < i ==> buf[newLen + j] == BigEndianBytes(8 * len, 8)[j]
    {
      buf[newLen + i] := Octet(ShiftRight(bits, 56 - 8 * i));
      LengthOctet(8 * len, i);
    }
  }

  /** Reducing the bit count modulo 2^64 first does not change its low eight octets. */
  lemma LengthOctet(l: nat, i: nat)
    requires i < 8
    ensures Octet(ShiftRight(l % TWO_TO_THE_64, 56 - 8 * i)) == BigEndianBytes(l, 8)[i]
  {
    Pow2Of64();
    BigEndianRoundTrip(l, 8);
    BigEndianBytesOfValue(BigEndianBytes(l, 8));
    BigEndianByteAt(l % TWO_TO_THE_64, 8, i);
  }

  lemma OctetFromShift(w: bv32)
    ensures [((w >> 24) & 0xFF) as bv8, ((w >> 16) & 0xFF) as bv8, ((w >> 8) & 0xFF) as bv8, (w & 0xFF) as bv8]
            == WordOctets(w)
  {
  }

  /** The octets of one word, written at position `at`. */
  method WriteWord(w: bv32, out: array<bv8>, at: nat)
    requires at + 4 <= out.Length
    modifies out
    ensures out[..] == old(out[..at]) + WordOctets(w) + old(out[at + 4..])
  {
    OctetFromShift(w);
    out[at] := ((w >> 24) & 0xFF) as bv8;
    out[at + 1] := ((w >> 16) & 0xFF) as bv8;
    out[at + 2] := ((w >> 8) & 0xFF) as bv8;
    out[at + 3] := (w & 0xFF) as bv8;
  }

  method WriteDigest(h0: bv32, h1: bv32, h2: bv32, h3: bv32, h4: bv32, out: array<bv8>)
    requires out.Length == 20
    modifies out
    ensures out[..] == HashOctets(HashValue(h0, h1, h2, h3, h4))
  {
    hide WordOctets;
    WriteWord(h0, out, 0);
    assert out[..4] == WordOctets(h0);
    WriteWord(h1, out, 4);
    assert out[..8] == WordOctets(h0) + WordOctets(h1);
    WriteWord(h2, out, 8);
    assert out[..12] == WordOctets(h0) + WordOctets(h1) + WordOctets(h2);
    WriteWord(h3, out, 12);
    assert out[..16] == WordOctets(h0) + WordOctets(h1) + WordOctets(h2) + WordOctets(h3);
    WriteWord(h4, out, 16);
  }

  /** The routine computes the digest of the standard. */
  method Sha1(msg: seq<bv8>, out: array<bv8>)
    requires out.Length == 20
    modifies out
    ensures out[..] == Digest(msg)
  {
    hide Pad, Compress, HashOctets;
    var h0, h1, h2, h3, h4 := 0x67452301, 0xEFCDAB89, 0x98BADCFE, 0x10325476, 0xC3D2E1F0;
    var buf := PadBuffer(msg);
    PaddedLength(msg);
    var offset := 0;
    ghost var n := 0;
    while offset < buf.Length
      invariant offset == 64 * n && offset <= buf.Length
      invariant buf[..] == Pad(msg)
      invariant HashValue(h0, h1, h2, h3, h4) == HashBlocks(Pad(msg), n)
    {
      var w := FillSchedule(buf, offset);
      ghost var block := buf[offset..offset + 64];
      assert block == Pad(msg)[64 * n..64 * (n + 1)];
      h0, h1, h2, h3, h4 := ProcessBlock(w, block, h0, h1, h2, h3, h4);
      offset, n := offset + 64, n + 1;
    }
    WriteDigest(h0, h1, h2, h3, h4, out);
  }
}
