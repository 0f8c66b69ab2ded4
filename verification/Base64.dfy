/**
 Base64 as section 4 of RFC 4648 defines it: the alphabet (Table 1) and a strict decoder that
 rejects characters outside the alphabet, misplaced padding and non-zero pad bits (sections 3.3 and 3.5).
 */
module Base64Spec {
  import opened Wrappers

  /** The value that Table 1 gives to a character. */
  function ValueOf(c: char): (v: Option<bv8>)
  {
    if 'A' <= c <= 'Z' then Some((c as int - 'A' as int) as bv8)
    else if 'a' <= c <= 'z' then Some((c as int - 'a' as int + 26) as bv8)
    else if '0' <= c <= '9' then Some((c as int - '0' as int + 52) as bv8)
    else if c == '+' then Some(62)
    else if c == '/' then Some(63)
    else None
  }

  // The three octets spelled by the sextets a, b, c, d.
  function First(a: bv8, b: bv8): bv8 { (a << 2) | (b >> 4) }
  function Second(b: bv8, c: bv8): bv8 { (b << 4) | (c >> 2) }
  function Third(c: bv8, d: bv8): bv8 { (c << 6) | d }

  predicate LowFourClear(b: bv8) { b & 15 == 0 }
  predicate LowTwoClear(c: bv8) { c & 3 == 0 }

  /** One quantum of four characters; only the last quantum may be padded. */
  function DecodeQuantum(q: string, last: bool): Option<seq<bv8>>
    requires |q| == 4
  {
    match (ValueOf(q[0]), ValueOf(q[1]), ValueOf(q[2]), ValueOf(q[3]))
    case (Some(a), Some(b), Some(c), Some(d)) =>
      Some([First(a, b), Second(b, c), Third(c, d)])
    case (Some(a), Some(b), Some(c), None) =>
      if last && q[3] == '=' && LowTwoClear(c) then Some([First(a, b), Second(b, c)]) else None
    case (Some(a), Some(b), None, None) =>
      if last && q[2] == '=' && q[3] == '=' && LowFourClear(b) then Some([First(a, b)]) else None
    case _ => None
  }

  function Decode(s: string): Option<seq<bv8>> {
    if s == "" then Some([])
    else if |s| < 4 then None
    else
      match (DecodeQuantum(s[..4], |s| == 4), Decode(s[4..]))
      case (Some(x), Some(y)) => Some(x + y)
      case _ => None
  }
}

/** The Base64 routine of src/server/http_server.cpp. */
module Base64Routine {

  // One string, written as a concatenation of short literals.
  const BASE64_CHARS := "ABCDEFGHIJKLM" + "NOPQRSTUVWXYZ" + "abcdefghijklm" + "nopqrstuvwxyz" + "0123456789" + "+/"

  /** The `k`-th group of six bits of a 24-bit number. */
  function SextetAt(n: bv32, k: nat): (v: bv8)
    requires k < 4
    ensures v < 64
  {
    if k == 0 then ((n >> 18) & 0x3F) as bv8
    else if k == 1 then ((n >> 12) & 0x3F) as bv8
    else if k == 2 then ((n >> 6) & 0x3F) as bv8
    else (n & 0x3F) as bv8
  }

  /** The alphabet character selected by those six bits. */
  function CharAt(n: bv32, k: nat): char
    requires k < 4
  {
    BASE64_CHARS[SextetAt(n, k) as int]
  }

  /** The 24-bit group of one, two or three octets. */
  function Group(data: seq<bv8>): bv32
    requires 1 <= |data| <= 3
  {
    var n0: bv32 := data[0] as bv32 << 16;
    var n1: bv32 := if 1 < |data| then n0 | (data[1] as bv32 << 8) else n0;
    if 2 < |data| then n1 | data[2] as bv32 else n1
  }

  /** The four characters of a group that came from `count` octets. */
  function Quantum(n: bv32, count: nat): (q: string)
    ensures |q| == 4
  {
    [CharAt(n, 0), CharAt(n, 1), if 1 < count then CharAt(n, 2) else '=', if 2 < count then CharAt(n, 3) else '=']
  }

  function EncodeQuantum(data: seq<bv8>): (q: string)
    requires 1 <= |data| <= 3
    ensures |q| == 4
  {
    Quantum(Group(data), |data|)
  }

  function Encode(data: seq<bv8>): string {
    if |data| == 0 then ""
    else if |data| < 3 then EncodeQuantum(data)
    else EncodeQuantum(data[..3]) + Encode(data[3..])
  }

  method LoadGroup(data: seq<bv8>, i: nat, ghost block: seq<bv8>) returns (n: bv32)
    requires i < |data|
    requires block == data[i..if i + 3 <= |data| then i + 3 else |data|]
    ensures n == Group(block)
  {
    n := data[i] as bv32 << 16;
    if i + 1 < |data| { n := n | (data[i + 1] as bv32 << 8); }
    if i + 2 < |data| { n := n | data[i + 2] as bv32; }
  }

  /** What is left to encode when the loop index is `i`, which may step past the end. */
  function Rest(data: seq<bv8>, i: nat): seq<bv8> {
    if i <= |data| then data[i..] else []
  }

  lemma EncodeStep(data: seq<bv8>, i: nat, block: seq<bv8>)
    requires i < |data|
    requires block == data[i..if i + 3 <= |data| then i + 3 else |data|]
    ensures Encode(Rest(data, i)) == EncodeQuantum(block) + Encode(Rest(data, i + 3))
  {
    var rest := Rest(data, i);
    if |rest| >= 3 {
      assert rest[..3] == block && rest[3..] == Rest(data, i + 3);
    } else {
      assert rest == block;
    }
  }

  /** The index expression of the source selects the character of the sextet. */
  lemma IndexOfSextet(m: bv32)
    ensures (m & 0x3F) as int < 64 && (m & 0x3F) as int == (m & 0x3F) as bv8 as int
  {
  }

  method PickChar(n: bv32, k: nat) returns (c: char)
    requires k < 4
    ensures c == CharAt(n, k)
  {
    var shifted: bv32 := n;
    if k == 0 { shifted := n >> 18; } else if k == 1 { shifted := n >> 12; } else if k == 2 { shifted := n >> 6; }
    IndexOfSextet(shifted);
    c := BASE64_CHARS[(shifted & 0x3F) as int];
  }

  /** The four pushes of one round. */
  method PushQuantum(before: string, data: seq<bv8>, i: nat, n: bv32) returns (out: string)
    requires i < |data|
    ensures out == before + Quantum(n, |data| - i)
  {
    hide CharAt;
    var c := PickChar(n, 0);
    out := before + [c];
    c := PickChar(n, 1);
    out := out + [c];
    c := '=';
    if i + 1 < |data| { c := PickChar(n, 2); }
    out := out + [c];
    c := '=';
    if i + 2 < |data| { c := PickChar(n, 3); }
    out := out + [c];
  }

  method Base64Encode(data: seq<bv8>) returns (out: string)
    ensures out == Encode(data)
  {
    out := "";
    var i := 0;
    while i < |data|
      invariant out + Encode(Rest(data, i)) == Encode(data)
    {
      ghost var before, block := out, data[i..if i + 3 <= |data| then i + 3 else |data|];
      var n := LoadGroup(data, i, block);
      out := PushQuantum(out, data, i, n);
      PushedStep(data, i, block, before);
      i := i + 3;
    }
  }

  lemma CountCapped(block: seq<bv8>, count: nat)
    requires 1 <= |block| <= 3 && (|block| == count || |block| == 3 < count)
    ensures Quantum(Group(block), count) == EncodeQuantum(block)
  {
  }

  lemma PushedStep(data: seq<bv8>, i: nat, block: seq<bv8>, before: string)
    requires i < |data|
    requires block == data[i..if i + 3 <= |data| then i + 3 else |data|]
    ensures before + Quantum(Group(block), |data| - i) + Encode(Rest(data, i + 3)) == before + Encode(Rest(data, i))
  {
    hide Group, Quantum, Encode;
    EncodeStep(data, i, block);
    CountCapped(block, |data| - i);
    assert before + EncodeQuantum(block) + Encode(Rest(data, i + 3))
           == before + (EncodeQuantum(block) + Encode(Rest(data, i + 3)));
  }
}

/** Encoding and decoding are inverse, and the shape of encoded text. */
module Base64Laws {
  import opened Wrappers
  import Casts
  import opened Base64Spec
  import opened Base64Routine

  lemma UpperCase(i: nat)
    requires i < 26
    ensures BASE64_CHARS[i] as int == 'A' as int + i
  {
  }

  lemma LowerCase(i: nat)
    requires 26 <= i < 52
    ensures BASE64_CHARS[i] as int == 'a' as int + (i - 26)
  {
  }

  lemma DigitsAndSigns(i: nat)
    requires 52 <= i < 64
    ensures i < 62 ==> BASE64_CHARS[i] as int == '0' as int + (i - 52)
    ensures i >= 62 ==> BASE64_CHARS[i] == "+/"[i - 62]
  {
  }

  /** The alphabet string is Table 1. */
  lemma AlphabetValue(i: nat)
    requires i < 64
    ensures ValueOf(BASE64_CHARS[i]) == Some(i as bv8) && BASE64_CHARS[i] != '='
  {
    hide BASE64_CHARS;
    if i < 26 {
      UpperCase(i);
    } else if i < 52 {
      LowerCase(i);
    } else {
      DigitsAndSigns(i);
    }
  }

  /** The decoder reads back the six bits that selected a character. */
  lemma ValueOfChar(n: bv32, k: nat)
    requires k < 4
    ensures ValueOf(CharAt(n, k)) == Some(SextetAt(n, k)) && CharAt(n, k) != '='
  {
    hide BASE64_CHARS, ValueOf, SextetAt;
    AlphabetValue(SextetAt(n, k) as int);
    Casts.SextetRoundTrip(SextetAt(n, k));
  }

  /** Every character with a value is the alphabet character of that value. */
  lemma CharOfValue(c: char)
    requires ValueOf(c).Some?
    ensures ValueOf(c).value < 64 && BASE64_CHARS[ValueOf(c).value as int] == c
  {
    hide BASE64_CHARS;
    var i := if 'A' <= c <= 'Z' then c as int - 'A' as int
             else if 'a' <= c <= 'z' then c as int - 'a' as int + 26
             else if '0' <= c <= '9' then c as int - '0' as int + 52
             else if c == '+' then 62 else 63;
    Casts.SextetOfSmall(i);
    if i < 26 {
      UpperCase(i);
    } else if i < 52 {
      LowerCase(i);
    } else {
      DigitsAndSigns(i);
    }
  }

  /** The sextets of a group rebuild its octets, and the bits of absent octets are clear. */
  ghost predicate Holds(n: bv32, x: bv8, y: bv8, z: bv8) {
    var a, b, c, d := SextetAt(n, 0), SextetAt(n, 1), SextetAt(n, 2), SextetAt(n, 3);
    && First(a, b) == x && Second(b, c) == y && Third(c, d) == z
    && (y == 0 ==> LowFourClear(b)) && (z == 0 ==> LowTwoClear(c))
  }

  lemma SextetsRebuildOctets(x: bv8, y: bv8, z: bv8)
    ensures Holds((x as bv32 << 16) | (y as bv32 << 8) | z as bv32, x, y, z)
  {
  }

  lemma OneOctetGroup(x: bv8)
    ensures Holds(x as bv32 << 16, x, 0, 0)
  {
  }

  lemma TwoOctetGroup(x: bv8, y: bv8)
    ensures Holds((x as bv32 << 16) | (y as bv32 << 8), x, y, 0)
  {
  }

  // The group of one, two or three octets.

  function One(x: bv8): bv32 { x as bv32 << 16 }
  function Two(x: bv8, y: bv8): bv32 { (x as bv32 << 16) | (y as bv32 << 8) }
  function Three(x: bv8, y: bv8, z: bv8): bv32 { (x as bv32 << 16) | (y as bv32 << 8) | z as bv32 }

  lemma GroupForms(data: seq<bv8>)
    requires 1 <= |data| <= 3
    ensures |data| == 1 ==> Group(data) == One(data[0])
    ensures |data| == 2 ==> Group(data) == Two(data[0], data[1])
    ensures |data| == 3 ==> Group(data) == Three(data[0], data[1], data[2])
  {
  }

  lemma GroupHolds(data: seq<bv8>)
    requires 1 <= |data| <= 3
    ensures Holds(Group(data), data[0], if |data| > 1 then data[1] else 0, if |data| > 2 then data[2] else 0)
  {
    hide Holds;
    GroupForms(data);
    hide Group;
    if |data| == 1 {
      OneOctetGroup(data[0]);
    } else if |data| == 2 {
      TwoOctetGroup(data[0], data[1]);
    } else {
      SextetsRebuildOctets(data[0], data[1], data[2]);
    }
  }

  lemma ValueOfEquals()
    ensures ValueOf('=') == None
  {
  }

  /** What the decoder makes of a quantum whose sextets are those of `n`. */
  lemma QuantumOfSextets(n: bv32, count: nat, last: bool)
    requires 1 <= count <= 3 && (count < 3 ==> last)
    requires count == 1 ==> LowFourClear(SextetAt(n, 1))
    requires count == 2 ==> LowTwoClear(SextetAt(n, 2))
    ensures var a, b, c, d := SextetAt(n, 0), SextetAt(n, 1), SextetAt(n, 2), SextetAt(n, 3);
            DecodeQuantum(Quantum(n, count), last)
            == Some(if count == 1 then [First(a, b)]
                    else if count == 2 then [First(a, b), Second(b, c)]
                    else [First(a, b), Second(b, c), Third(c, d)])
  {
    hide CharAt, ValueOf, SextetAt, First, Second, Third, LowFourClear, LowTwoClear;
    ValueOfChar(n, 0);
    ValueOfChar(n, 1);
    ValueOfChar(n, 2);
    ValueOfChar(n, 3);
    ValueOfEquals();
  }

  lemma QuantumDecodes(data: seq<bv8>, last: bool)
    requires 1 <= |data| <= 3 && (|data| < 3 ==> last)
    ensures DecodeQuantum(EncodeQuantum(data), last) == Some(data)
  {
    hide Group, Quantum, DecodeQuantum, SextetAt, First, Second, Third, LowFourClear, LowTwoClear;
    GroupHolds(data);
    QuantumOfSextets(Group(data), |data|, last);
    assert data == if |data| == 1 then [data[0]]
                   else if |data| == 2 then [data[0], data[1]]
                   else [data[0], data[1], data[2]];
  }

  /** Decoding recovers every byte string from its encoding. */
  lemma {:induction false} DecodeEncode(data: seq<bv8>)
    ensures Decode(Encode(data)) == Some(data)
  {
    hide EncodeQuantum, DecodeQuantum;
    if |data| == 0 {
    } else if |data| <= 3 {
      QuantumDecodes(data, true);
      var q := EncodeQuantum(data);
      assert Encode(data) == q by { if |data| == 3 { assert data[..3] == data && data[3..] == []; } }
      assert q[..4] == q && q[4..] == "";
      assert data + [] == data;
    } else {
      var q, rest := EncodeQuantum(data[..3]), Encode(data[3..]);
      QuantumDecodes(data[..3], false);
      DecodeEncode(data[3..]);
      assert (q + rest)[..4] == q && (q + rest)[4..] == rest;
      assert rest != "" by { assert |data[3..]| > 0; }
      assert Encode(data) == q + rest;
      assert data[..3] + data[3..] == data;
    }
  }

  /** The sextets are determined by the octets they spell. */
  lemma SextetsOfOne(x: bv8, a: bv8, b: bv8)
    requires a < 64 && b < 64 && x == First(a, b) && LowFourClear(b)
    ensures var n := One(x);
            SextetAt(n, 0) == a && SextetAt(n, 1) == b
  {
  }

  lemma SextetsOfTwo(x: bv8, y: bv8, a: bv8, b: bv8, c: bv8)
    requires a < 64 && b < 64 && c < 64 && x == First(a, b) && y == Second(b, c) && LowTwoClear(c)
    ensures var n := Two(x, y);
            SextetAt(n, 0) == a && SextetAt(n, 1) == b && SextetAt(n, 2) == c
  {
  }

  lemma SextetsOfThree(x: bv8, y: bv8, z: bv8, a: bv8, b: bv8, c: bv8, d: bv8)
    requires a < 64 && b < 64 && c < 64 && d < 64
    requires x == First(a, b) && y == Second(b, c) && z == Third(c, d)
    ensures var n := Three(x, y, z);
            SextetAt(n, 0) == a && SextetAt(n, 1) == b && SextetAt(n, 2) == c && SextetAt(n, 3) == d
  {
  }

  lemma CharOfSextet(n: bv32, k: nat, c: char)
    requires k < 4 && ValueOf(c) == Some(SextetAt(n, k))
    ensures CharAt(n, k) == c
  {
    hide BASE64_CHARS, ValueOf, SextetAt;
    CharOfValue(c);
  }

  lemma OneSextets(data: seq<bv8>, a: bv8, b: bv8)
    requires a < 64 && b < 64 && data == [First(a, b)] && LowFourClear(b)
    ensures SextetAt(Group(data), 0) == a && SextetAt(Group(data), 1) == b
  {
    hide Group, One, SextetAt, First, LowFourClear;
    GroupForms(data);
    SextetsOfOne(data[0], a, b);
  }

  lemma TwoSextets(data: seq<bv8>, a: bv8, b: bv8, c: bv8)
    requires a < 64 && b < 64 && c < 64 && data == [First(a, b), Second(b, c)] && LowTwoClear(c)
    ensures SextetAt(Group(data), 0) == a && SextetAt(Group(data), 1) == b && SextetAt(Group(data), 2) == c
  {
    hide Group, Two, SextetAt, First, Second, LowTwoClear;
    GroupForms(data);
    SextetsOfTwo(data[0], data[1], a, b, c);
  }

  lemma ThreeSextets(data: seq<bv8>, a: bv8, b: bv8, c: bv8, d: bv8)
    requires a < 64 && b < 64 && c < 64 && d < 64 && data == [First(a, b), Second(b, c), Third(c, d)]
    ensures SextetAt(Group(data), 0) == a && SextetAt(Group(data), 1) == b
    ensures SextetAt(Group(data), 2) == c && SextetAt(Group(data), 3) == d
  {
    hide Group, Three, SextetAt, First, Second, Third;
    GroupForms(data);
    SextetsOfThree(data[0], data[1], data[2], a, b, c, d);
  }

  lemma OneEncodes(q: string, a: bv8, b: bv8)
    requires |q| == 4 && ValueOf(q[0]) == Some(a) && ValueOf(q[1]) == Some(b)
    requires LowFourClear(b) && q[2] == '=' && q[3] == '='
    ensures EncodeQuantum([First(a, b)]) == q
  {
    hide Group, CharAt, ValueOf, SextetAt, First, LowFourClear;
    var data := [First(a, b)];
    CharOfValue(q[0]);
    CharOfValue(q[1]);
    OneSextets(data, a, b);
    CharOfSextet(Group(data), 0, q[0]);
    CharOfSextet(Group(data), 1, q[1]);
    assert q == [q[0], q[1], q[2], q[3]];
  }

  lemma TwoEncodes(q: string, a: bv8, b: bv8, c: bv8)
    requires |q| == 4 && ValueOf(q[0]) == Some(a) && ValueOf(q[1]) == Some(b) && ValueOf(q[2]) == Some(c)
    requires LowTwoClear(c) && q[3] == '='
    ensures EncodeQuantum([First(a, b), Second(b, c)]) == q
  {
    hide Group, CharAt, ValueOf, SextetAt, First, Second, LowTwoClear;
    var data := [First(a, b), Second(b, c)];
    CharOfValue(q[0]);
    CharOfValue(q[1]);
    CharOfValue(q[2]);
    TwoSextets(data, a, b, c);
    CharOfSextet(Group(data), 0, q[0]);
    CharOfSextet(Group(data), 1, q[1]);
    CharOfSextet(Group(data), 2, q[2]);
    assert q == [q[0], q[1], q[2], q[3]];
  }

  lemma ThreeEncode(q: string, a: bv8, b: bv8, c: bv8, d: bv8)
    requires |q| == 4 && ValueOf(q[0]) == Some(a) && ValueOf(q[1]) == Some(b)
    requires ValueOf(q[2]) == Some(c) && ValueOf(q[3]) == Some(d)
    ensures EncodeQuantum([First(a, b), Second(b, c), Third(c, d)]) == q
  {
    hide Group, CharAt, ValueOf, SextetAt, First, Second, Third;
    var data := [First(a, b), Second(b, c), Third(c, d)];
    CharOfValue(q[0]);
    CharOfValue(q[1]);
    CharOfValue(q[2]);
    CharOfValue(q[3]);
    ThreeSextets(data, a, b, c, d);
    CharOfSextet(Group(data), 0, q[0]);
    CharOfSextet(Group(data), 1, q[1]);
    CharOfSextet(Group(data), 2, q[2]);
    CharOfSextet(Group(data), 3, q[3]);
    assert q == [q[0], q[1], q[2], q[3]];
  }

  /** A quantum that the strict decoder accepts is the encoding of what it decodes to. */
  lemma QuantumEncodes(q: string, last: bool)
    requires |q| == 4 && DecodeQuantum(q, last).Some?
    ensures var data := DecodeQuantum(q, last).value;
            1 <= |data| <= 3 && (|data| < 3 ==> last) && EncodeQuantum(data) == q
  {
    hide EncodeQuantum, ValueOf, First, Second, Third, LowFourClear, LowTwoClear;
    var a, b := ValueOf(q[0]).value, ValueOf(q[1]).value;
    match (ValueOf(q[2]), ValueOf(q[3]))
    case (None, _) => OneEncodes(q, a, b);
    case (Some(c), None) => TwoEncodes(q, a, b, c);
    case (Some(c), Some(d)) => ThreeEncode(q, a, b, c, d);
  }

  lemma QuantumOfF()
    ensures EncodeQuantum([0x66]) == "Zg=="
  {
    OneEncodes("Zg==", 25, 32);
  }

  lemma QuantumOfFo()
    ensures EncodeQuantum([0x66, 0x6F]) == "Zm8="
  {
    TwoEncodes("Zm8=", 25, 38, 60);
  }

  lemma QuantumOfFoo()
    ensures EncodeQuantum([0x66, 0x6F, 0x6F]) == "Zm9v"
  {
    ThreeEncode("Zm9v", 25, 38, 61, 47);
  }

  lemma OneQuantum(data: seq<bv8>)
    requires 1 <= |data| <= 3
    ensures Encode(data) == EncodeQuantum(data)
  {
    hide EncodeQuantum;
    if |data| == 3 {
      assert data[..3] == data && data[3..] == [];
    }
  }

  /** The first test vectors of section 10 of RFC 4648: "f", "fo" and "foo". */
  lemma TestVectors()
    ensures Encode([0x66]) == "Zg=="
    ensures Encode([0x66, 0x6F]) == "Zm8="
    ensures Encode([0x66, 0x6F, 0x6F]) == "Zm9v"
  {
    hide EncodeQuantum, Encode;
    QuantumOfF();
    QuantumOfFo();
    QuantumOfFoo();
    OneQuantum([0x66]);
    OneQuantum([0x66, 0x6F]);
    OneQuantum([0x66, 0x6F, 0x6F]);
  }

  /** The strict decoder accepts a text exactly when it is an encoding, and then inverts it. */
  lemma DecodeExactlyEncodings(s: string, data: seq<bv8>)
    ensures Decode(s) == Some(data) <==> s == Encode(data)
  {
    DecodeEncode(data);
    if Decode(s) == Some(data) {
      AcceptedIsEncoding(s);
    }
  }

  lemma {:induction false} AcceptedIsEncoding(s: string)
    requires Decode(s).Some?
    ensures s == Encode(Decode(s).value)
  {
    hide EncodeQuantum, DecodeQuantum;
    if s == "" {
    } else {
      var q, rest := s[..4], s[4..];
      var x, y := DecodeQuantum(q, |s| == 4).value, Decode(rest).value;
      QuantumEncodes(q, |s| == 4);
      AcceptedIsEncoding(rest);
      assert s == q + rest;
      if |s| == 4 {
        assert rest == "" && x + y == x;
        if |x| == 3 { assert x[..3] == x && x[3..] == []; }
      } else {
        assert (x + y)[..3] == x && (x + y)[3..] == y;
      }
    }
  }

  /** The number of '=' signs. */
  function PadCount(n: nat): nat {
    if n % 3 == 1 then 2 else if n % 3 == 2 then 1 else 0
  }

  lemma QuantumShape(data: seq<bv8>)
    requires 1 <= |data| <= 3
    ensures forall k :: 0 <= k < 4 ==> (EncodeQuantum(data)[k] == '=' <==> k >= 4 - PadCount(|data|))
  {
    hide Group, CharAt, ValueOf, SextetAt;
    var n := Group(data);
    ValueOfChar(n, 0);
    ValueOfChar(n, 1);
    ValueOfChar(n, 2);
    ValueOfChar(n, 3);
  }

  lemma QuantaCount(n: nat)
    requires n >= 3
    ensures 4 + 4 * ((n - 3 + 2) / 3) == 4 * ((n + 2) / 3)
    ensures PadCount(n - 3) == PadCount(n)
  {
  }

  /** Four characters for every three octets begun, with '=' in the last places and nowhere else. */
  lemma {:induction false} EncodedShape(data: seq<bv8>)
    ensures |Encode(data)| == 4 * ((|data| + 2) / 3)
    ensures forall k :: 0 <= k < |Encode(data)| ==>
              (Encode(data)[k] == '=' <==> k >= |Encode(data)| - PadCount(|data|))
  {
    hide EncodeQuantum;
    if |data| == 0 {
    } else if |data| < 3 {
      QuantumShape(data);
    } else {
      QuantumShape(data[..3]);
      EncodedShape(data[3..]);
      QuantaCount(|data|);
      hide PadCount;
    }
  }
}
