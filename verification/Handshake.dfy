/**
 SHA-1 with a window of sixteen schedule words instead of the whole schedule: section 6.1.3 of
 FIPS 180-4. The routine does not work this way; the window keeps worked examples short.
 */
module SlidingSha1 {
  import opened Sha1Spec

  datatype Window = Window(
    w0: bv32, w1: bv32, w2: bv32, w3: bv32, w4: bv32, w5: bv32, w6: bv32, w7: bv32,
    w8: bv32, w9: bv32, w10: bv32, w11: bv32, w12: bv32, w13: bv32, w14: bv32, w15: bv32)

  datatype State = State(t: nat, v: HashValue, w: Window)

  function Slide(w: Window): Window {
    Window(w.w1, w.w2, w.w3, w.w4, w.w5, w.w6, w.w7, w.w8, w.w9, w.w10, w.w11, w.w12, w.w13, w.w14, w.w15,
           NextWord(w.w13, w.w8, w.w2, w.w0))
  }

  /** The state `n` steps later. */
  function Run(s: State, n: nat): State
    decreases n
  {
    if n == 0 then s else Run(State(s.t + 1, Step(s.t, s.v, s.w.w0), Slide(s.w)), n - 1)
  }

  /** The window covers the words of the steps from `t` on. */
  ghost predicate Covers(block: seq<bv8>, t: nat, w: Window)
    requires |block| == 64
  {
    && Schedule(block, t) == w.w0 && Schedule(block, t + 1) == w.w1
    && Schedule(block, t + 2) == w.w2 && Schedule(block, t + 3) == w.w3
    && Schedule(block, t + 4) == w.w4 && Schedule(block, t + 5) == w.w5
    && Schedule(block, t + 6) == w.w6 && Schedule(block, t + 7) == w.w7
    && Schedule(block, t + 8) == w.w8 && Schedule(block, t + 9) == w.w9
    && Schedule(block, t + 10) == w.w10 && Schedule(block, t + 11) == w.w11
    && Schedule(block, t + 12) == w.w12 && Schedule(block, t + 13) == w.w13
    && Schedule(block, t + 14) == w.w14 && Schedule(block, t + 15) == w.w15
  }

  ghost predicate At(block: seq<bv8>, h: HashValue, s: State)
    requires |block| == 64
  {
    Rounds(block, h, s.t) == s.v && Covers(block, s.t, s.w)
  }

  lemma SlideCovers(block: seq<bv8>, t: nat, w: Window)
    requires |block| == 64 && Covers(block, t, w)
    ensures Schedule(block, t) == w.w0 && Covers(block, t + 1, Slide(w))
  {
    hide NextWord, Word;
  }

  /** The window form passes through the working variables and schedule words of the standard. */
  lemma {:induction false} RunIsRounds(block: seq<bv8>, h: HashValue, s: State, n: nat)
    requires |block| == 64 && At(block, h, s)
    ensures At(block, h, Run(s, n)) && Run(s, n).t == s.t + n
    decreases n
  {
    hide Schedule, Step, Slide, Covers;
    if n == 0 {
    } else {
      var s' := State(s.t + 1, Step(s.t, s.v, s.w.w0), Slide(s.w));
      SlideCovers(block, s.t, s.w);
      assert Rounds(block, h, s'.t) == Step(s.t, Rounds(block, h, s.t), Schedule(block, s.t));
      RunIsRounds(block, h, s', n - 1);
    }
  }

  /** The window of a block before the first step. */
  lemma FirstSixteen(block: seq<bv8>)
    requires |block| == 64
    ensures Covers(block, 0, Window(
      Word(block, 0), Word(block, 4), Word(block, 8), Word(block, 12),
      Word(block, 16), Word(block, 20), Word(block, 24), Word(block, 28),
      Word(block, 32), Word(block, 36), Word(block, 40), Word(block, 44),
      Word(block, 48), Word(block, 52), Word(block, 56), Word(block, 60)))
  {
    hide Word;
  }

  lemma Start(block: seq<bv8>, h: HashValue, w: Window)
    requires |block| == 64 && Covers(block, 0, w)
    ensures At(block, h, State(0, h, w))
  {
    hide Covers;
  }

  /** The hash value after a block whose last working variables are `v`. */
  function Added(h: HashValue, v: HashValue): HashValue {
    HashValue(Plus(h.a, v.a), Plus(h.b, v.b), Plus(h.c, v.c), Plus(h.d, v.d), Plus(h.e, v.e))
  }

  lemma CompressIsAdded(block: seq<bv8>, h: HashValue, s: State)
    requires |block| == 64 && s.t == 80 && At(block, h, s)
    ensures Compress(block, h) == Added(h, s.v)
  {
    hide Rounds, Covers, Plus;
  }
}

/** The opening handshake of section 1.3 of RFC 6455, computed step by step. */
module HandshakeExample {
  import opened Wrappers
  import opened Bytes
  import opened Sha1Spec
  import opened SlidingSha1
  import opened WebSocketRoutine
  import opened Base64Spec
  import opened Base64Routine
  import opened Base64Laws
  import Casts

  // The Sec-WebSocket-Key of the example and the Sec-WebSocket-Accept that answers it.
  const SAMPLE_KEY := "dGhlIHNhbXBs" + "ZSBub25jZQ=="
  const SAMPLE_ACCEPT := "s3pPLMBiTxaQ9k" + "YGzzhZRbK+xOo="

  // The octets that are hashed.
  const SAMPLE := Ascii(SAMPLE_KEY) + Ascii(GUID)

  // Their hash value, and its twenty octets.
  const SAMPLE_HASH := HashValue(0xB37A4F2C, 0xC0624F16, 0x90F64606, 0xCF385945, 0xB2BEC4EA)
  const SAMPLE_DIGEST: seq<bv8> :=
    [0xB3, 0x7A, 0x4F, 0x2C] + [0xC0, 0x62, 0x4F, 0x16] + [0x90, 0xF6, 0x46, 0x06]
    + [0xCF, 0x38, 0x59, 0x45] + [0xB2, 0xBE, 0xC4, 0xEA]

  // The states of the first block, eight steps apart.

  const FIRST_0 := State(0,
    HashValue(0x67452301, 0xEFCDAB89, 0x98BADCFE, 0x10325476, 0xC3D2E1F0),
    Window(0x6447686C, 0x49484E68, 0x62584273, 0x5A534275, 0x6232356A, 0x5A513D3D, 0x32353845, 0x41464135,
           0x2D453931, 0x342D3437, 0x44412D39, 0x3543412D, 0x43354142, 0x30444338, 0x35423131, 0x80000000))

  const FIRST_8 := State(8,
    HashValue(0x2E0CE601, 0x73553E84, 0x5CC82E5A, 0xB7631F04, 0x14F80E6B),
    Window(0x2D453931, 0x342D3437, 0x44412D39, 0x3543412D, 0x43354142, 0x30444338, 0x35423131, 0x80000000,
           0x363CA02C, 0x24E81236, 0x8856B441, 0x06FB3C92, 0x6FB4BCB6, 0x460B16E3, 0x599219AE, 0x35BF9369))

  const FIRST_16 := State(16,
    HashValue(0xA004C468, 0xE922CC9D, 0xAB86825B, 0xD86F6CAF, 0x8D33AE61),
    Window(0x363CA02C, 0x24E81236, 0x8856B441, 0x06FB3C92, 0x6FB4BCB6, 0x460B16E3, 0x599219AE, 0x35BF9369,
           0x3267458E, 0xF828FD04, 0x753A96A7, 0x6336F612, 0xC3D66383, 0x06EB86F9, 0x73B4FD42, 0xA503C5B8))

  const FIRST_24 := State(24,
    HashValue(0x250E26EF, 0xBEAFD554, 0xB44BC2D5, 0xD4611C28, 0x0246AE5F),
    Window(0x3267458E, 0xF828FD04, 0x753A96A7, 0x6336F612, 0xC3D66383, 0x06EB86F9, 0x73B4FD42, 0xA503C5B8,
           0x15CDAE35, 0x531E5DC5, 0x6FB6B7D0, 0x6C16E4AC, 0x4DDD36BD, 0x35D36946, 0xE8AE8B9C, 0x4A933AD0))

  const FIRST_32 := State(32,
    HashValue(0xA6680A1F, 0xB7DABC8B, 0x4206D8F9, 0xC6AEC70D, 0x95C7DF60),
    Window(0x15CDAE35, 0x531E5DC5, 0x6FB6B7D0, 0x6C16E4AC, 0x4DDD36BD, 0x35D36946, 0xE8AE8B9C, 0x4A933AD0,
           0xCE8628B4, 0x415DBA9E, 0x2792F049, 0x8E9B79E7, 0x79C425C5, 0x6353B49D, 0x00994218, 0x8A950ED1))

  const FIRST_40 := State(40,
    HashValue(0x2BA2C83E, 0xD0869081, 0x1A1D8209, 0xD3334889, 0x2779E4F2),
    Window(0xCE8628B4, 0x415DBA9E, 0x2792F049, 0x8E9B79E7, 0x79C425C5, 0x6353B49D, 0x00994218, 0x8A950ED1,
           0xAF5D0B99, 0xFD9883DE, 0x1ED8FFEB, 0xF007FF28, 0x425E3674, 0x059631C0, 0xAD6C3C31, 0x860B71D7))

  const FIRST_48 := State(48,
    HashValue(0xABE1748A, 0xDEE4B7A8, 0x5CBFCCD3, 0x97D7CD14, 0xDB71A8F5),
    Window(0xAF5D0B99, 0xFD9883DE, 0x1ED8FFEB, 0xF007FF28, 0x425E3674, 0x059631C0, 0xAD6C3C31, 0x860B71D7,
           0x87BFC548, 0x3E64F92D, 0x8D0AB761, 0x34E1EE35, 0x0ACF5108, 0xC2B479DA, 0x6C93370A, 0xF7935BA1))

  const FIRST_56 := State(56,
    HashValue(0x7E1242F2, 0x50C9104C, 0x131822B1, 0x49B1A4E5, 0x4439FD9C),
    Window(0x87BFC548, 0x3E64F92D, 0x8D0AB761, 0x34E1EE35, 0x0ACF5108, 0xC2B479DA, 0x6C93370A, 0xF7935BA1,
           0xE91C91C1, 0xBED165A2, 0x4C3E4ABE, 0x50D96238, 0xB6587DDE, 0x1A2EE6E6, 0x2D335896, 0xF3495D0B))

  const FIRST_64 := State(64,
    HashValue(0x685E2FF6, 0x840054D3, 0xE43C0363, 0x3350802E, 0x921CB616),
    Window(0xE91C91C1, 0xBED165A2, 0x4C3E4ABE, 0x50D96238, 0xB6587DDE, 0x1A2EE6E6, 0x2D335896, 0xF3495D0B,
           0xF30E0A1D, 0x32CE5459, 0x7165E3B8, 0xAB05FF94, 0xC5949F0B, 0xBCD84E4A, 0x07720392, 0xFF3FF806))

  const FIRST_72 := State(72,
    HashValue(0x7E65E044, 0x80D59773, 0x81CE06DF, 0xA59B8126, 0x33E1963B),
    Window(0xF30E0A1D, 0x32CE5459, 0x7165E3B8, 0xAB05FF94, 0xC5949F0B, 0xBCD84E4A, 0x07720392, 0xFF3FF806,
           0xD5E93E51, 0xB768A0A3, 0xE87859BC, 0x68368A36, 0xD32E35C1, 0x7B8F5837, 0x62F3B65F, 0xDB2D892B))

  const FIRST_80 := State(80,
    HashValue(0xF48A5426, 0x835995E1, 0x25C11EFB, 0x4A45C402, 0x9A73C2F2),
    Window(0xD5E93E51, 0xB768A0A3, 0xE87859BC, 0x68368A36, 0xD32E35C1, 0x7B8F5837, 0x62F3B65F, 0xDB2D892B,
           0x581B1F86, 0x98A17A62, 0x0F495849, 0x4FE048DC, 0x12D3A675, 0x6E436C64, 0xFF118681, 0x0352EFF7))

  // The states of the second block, eight steps apart.

  const SECOND_0 := State(0,
    HashValue(0x5BCF7727, 0x7327416A, 0xBE7BFBF9, 0x5A781878, 0x5E46A4E2),
    Window(0x00000000, 0x00000000, 0x00000000, 0x00000000, 0x00000000, 0x00000000, 0x00000000, 0x00000000,
           0x00000000, 0x00000000, 0x00000000, 0x00000000, 0x00000000, 0x00000000, 0x00000000, 0x000001E0))

  const SECOND_8 := State(8,
    HashValue(0x25C018BE, 0xB3BBCAFE, 0xE4E97BEE, 0xB90F74BC, 0xC5615548),
    Window(0x00000000, 0x00000000, 0x00000000, 0x00000000, 0x00000000, 0x00000000, 0x00000000, 0x000001E0,
           0x00000000, 0x00000000, 0x000003C0, 0x00000000, 0x00000000, 0x00000780, 0x00000000, 0x000003C0))

  const SECOND_16 := State(16,
    HashValue(0x986DF268, 0x990B7BE7, 0xAB50FCE7, 0x195DB4B7, 0x4941806B),
    Window(0x00000000, 0x00000000, 0x000003C0, 0x00000000, 0x00000000, 0x00000780, 0x00000000, 0x000003C0,
           0x00000F00, 0x00000000, 0x00000000, 0x00001E00, 0x00000000, 0x00000CC0, 0x00003C00, 0x00000440))

  const SECOND_24 := State(24,
    HashValue(0x53C73650, 0x3E5179E7, 0x103EF3E6, 0xC48C56CA, 0x4A8022D4),
    Window(0x00000F00, 0x00000000, 0x00000000, 0x00001E00, 0x00000000, 0x00000CC0, 0x00003C00, 0x00000440,
           0x00000000, 0x00007800, 0x00000F00, 0x00003300, 0x0000F000, 0x00000F00, 0x00000000, 0x0001EF00))

  const SECOND_32 := State(32,
    HashValue(0x3CF6EB58, 0xF4DDD7B7, 0xC90FB815, 0xBD5F2D4F, 0xE4C9F7DB),
    Window(0x00000000, 0x00007800, 0x00000F00, 0x00003300, 0x0000F000, 0x00000F00, 0x00000000, 0x0001EF00,
           0x00000000, 0x0000CC00, 0x0003C000, 0x00004380, 0x00000000, 0x00078F00, 0x0000FF00, 0x00032680))

  const SECOND_40 := State(40,
    HashValue(0x6F698F1A, 0xC6FF0CD3, 0xDE5AB7BC, 0x5F6F3CBB, 0x1DA48A85),
    Window(0x00000000, 0x0000CC00, 0x0003C000, 0x00004380, 0x00000000, 0x00078F00, 0x0000FF00, 0x00032680,
           0x000F0000, 0x0000F000, 0x00003300, 0x001EFF00, 0x00000000, 0x000CB800, 0x003C0000, 0x00040B00))

  const SECOND_48 := State(48,
    HashValue(0xA3EF857E, 0xC8CDA3DA, 0xCEF6480E, 0xFF1EF4D7, 0xC7A4D2B3),
    Window(0x000F0000, 0x0000F000, 0x00003300, 0x001EFF00, 0x00000000, 0x000CB800, 0x003C0000, 0x00040B00,
           0x0000F000, 0x0078FF00, 0x000FF000, 0x00338700, 0x00F00000, 0x000FC300, 0x0000F000, 0x01EFBB00))

  const SECOND_56 := State(56,
    HashValue(0xA1B68141, 0x660DD0B1, 0x0B1CEF5E, 0xE795018D, 0xD7F8A8F6),
    Window(0x0000F000, 0x0078FF00, 0x000FF000, 0x00338700, 0x00F00000, 0x000FC300, 0x0000F000, 0x01EFBB00,
           0x00000000, 0x00CC0000, 0x03C0F000, 0x00438000, 0x00000000, 0x078F0000, 0x00FF0000, 0x03269E00))

  const SECOND_64 := State(64,
    HashValue(0xA5937450, 0xD5EF1ED7, 0xC444CBE3, 0xDDD22788, 0x558467C6),
    Window(0x00000000, 0x00CC0000, 0x03C0F000, 0x00438000, 0x00000000, 0x078F0000, 0x00FF0000, 0x03269E00,
           0x0F000000, 0x00F0F000, 0x00333C00, 0x1EFF8800, 0x00000000, 0x0CB88800, 0x3C00F000, 0x040A4A00))

  const SECOND_72 := State(72,
    HashValue(0xC90888CA, 0xF6D1AFEE, 0x6FCE9FE5, 0x538D8F6E, 0x025E9447),
    Window(0x0F000000, 0x00F0F000, 0x00333C00, 0x1EFF8800, 0x00000000, 0x0CB88800, 0x3C00F000, 0x040A4A00,
           0x00F0F000, 0x78FF0000, 0x0FF30C00, 0x3387F000, 0xF0000000, 0x0FC43400, 0x00F00000, 0xEFB84801))

  const SECOND_80 := State(80,
    HashValue(0x57AAD805, 0x4D3B0DAC, 0xD27A4A0D, 0x74C040CD, 0x54782008),
    Window(0x00F0F000, 0x78FF0000, 0x0FF30C00, 0x3387F000, 0xF0000000, 0x0FC43400, 0x00F00000, 0xEFB84801,
           0x000FF000, 0xCC00F000, 0xC0F0F003, 0x439E0000, 0x00000000, 0x8F0C0C07, 0xFF3C0000, 0x269A0403))

  // The steps of both blocks.

  lemma FirstFrom0()
    ensures Run(FIRST_0, 8) == FIRST_8
  {
  }

  lemma FirstFrom8()
    ensures Run(FIRST_8, 8) == FIRST_16
  {
  }

  lemma FirstFrom16()
    ensures Run(FIRST_16, 8) == FIRST_24
  {
  }

  lemma FirstFrom24()
    ensures Run(FIRST_24, 8) == FIRST_32
  {
  }

  lemma FirstFrom32()
    ensures Run(FIRST_32, 8) == FIRST_40
  {
  }

  lemma FirstFrom40()
    ensures Run(FIRST_40, 8) == FIRST_48
  {
  }

  lemma FirstFrom48()
    ensures Run(FIRST_48, 8) == FIRST_56
  {
  }

  lemma FirstFrom56()
    ensures Run(FIRST_56, 8) == FIRST_64
  {
  }

  lemma FirstFrom64()
    ensures Run(FIRST_64, 8) == FIRST_72
  {
  }

  lemma FirstFrom72()
    ensures Run(FIRST_72, 8) == FIRST_80
  {
  }

  lemma FirstBlock(block: seq<bv8>, h: HashValue)
    requires |block| == 64 && At(block, h, FIRST_0)
    ensures At(block, h, FIRST_80)
  {
    hide Run, At;
    RunIsRounds(block, h, FIRST_0, 8);
    FirstFrom0();
    RunIsRounds(block, h, FIRST_8, 8);
    FirstFrom8();
    RunIsRounds(block, h, FIRST_16, 8);
    FirstFrom16();
    RunIsRounds(block, h, FIRST_24, 8);
    FirstFrom24();
    RunIsRounds(block, h, FIRST_32, 8);
    FirstFrom32();
    RunIsRounds(block, h, FIRST_40, 8);
    FirstFrom40();
    RunIsRounds(block, h, FIRST_48, 8);
    FirstFrom48();
    RunIsRounds(block, h, FIRST_56, 8);
    FirstFrom56();
    RunIsRounds(block, h, FIRST_64, 8);
    FirstFrom64();
    RunIsRounds(block, h, FIRST_72, 8);
    FirstFrom72();
  }

  lemma SecondFrom0()
    ensures Run(SECOND_0, 8) == SECOND_8
  {
  }

  lemma SecondFrom8()
    ensures Run(SECOND_8, 8) == SECOND_16
  {
  }

  lemma SecondFrom16()
    ensures Run(SECOND_16, 8) == SECOND_24
  {
  }

  lemma SecondFrom24()
    ensures Run(SECOND_24, 8) == SECOND_32
  {
  }

  lemma SecondFrom32()
    ensures Run(SECOND_32, 8) == SECOND_40
  {
  }

  lemma SecondFrom40()
    ensures Run(SECOND_40, 8) == SECOND_48
  {
  }

  lemma SecondFrom48()
    ensures Run(SECOND_48, 8) == SECOND_56
  {
  }

  lemma SecondFrom56()
    ensures Run(SECOND_56, 8) == SECOND_64
  {
  }

  lemma SecondFrom64()
    ensures Run(SECOND_64, 8) == SECOND_72
  {
  }

  lemma SecondFrom72()
    ensures Run(SECOND_72, 8) == SECOND_80
  {
  }

  lemma SecondBlock(block: seq<bv8>, h: HashValue)
    requires |block| == 64 && At(block, h, SECOND_0)
    ensures At(block, h, SECOND_80)
  {
    hide Run, At;
    RunIsRounds(block, h, SECOND_0, 8);
    SecondFrom0();
    RunIsRounds(block, h, SECOND_8, 8);
    SecondFrom8();
    RunIsRounds(block, h, SECOND_16, 8);
    SecondFrom16();
    RunIsRounds(block, h, SECOND_24, 8);
    SecondFrom24();
    RunIsRounds(block, h, SECOND_32, 8);
    SecondFrom32();
    RunIsRounds(block, h, SECOND_40, 8);
    SecondFrom40();
    RunIsRounds(block, h, SECOND_48, 8);
    SecondFrom48();
    RunIsRounds(block, h, SECOND_56, 8);
    SecondFrom56();
    RunIsRounds(block, h, SECOND_64, 8);
    SecondFrom64();
    RunIsRounds(block, h, SECOND_72, 8);
    SecondFrom72();
  }

  // The padded text, block by block.

  /** The word with these octets. */
  function Joined(a: bv8, b: bv8, c: bv8, d: bv8): bv32 {
    a as bv32 * 0x100_0000 + b as bv32 * 0x1_0000 + c as bv32 * 0x100 + d as bv32
  }

  lemma OctetIs(n: nat, b: bv8)
    requires b as int == n
    ensures Octet(n) == b
  {
    OctetValue(n);
    Casts.OctetRoundTrip(b);
  }

  lemma OctetOfCode(c: char, b: bv8)
    requires b as int == c as int
    ensures Octet(c as int) == b
  {
    OctetIs(c as int, b);
  }

  /** Four characters of a text, given by their codes. */
  lemma TextWord(text: string, i: nat, a: bv8, b: bv8, c: bv8, d: bv8)
    requires i + 4 <= |text| && a as int == text[i] as int && b as int == text[i + 1] as int
    requires c as int == text[i + 2] as int && d as int == text[i + 3] as int
    ensures Word(Ascii(text), i) == Joined(a, b, c, d)
  {
    hide Octet;
    OctetOfCode(text[i], a);
    OctetOfCode(text[i + 1], b);
    OctetOfCode(text[i + 2], c);
    OctetOfCode(text[i + 3], d);
  }

  lemma KeyWords()
    ensures var s, w := Ascii(SAMPLE_KEY), FIRST_0.w;
            && Word(s, 0) == w.w0 && Word(s, 4) == w.w1 && Word(s, 8) == w.w2
            && Word(s, 12) == w.w3 && Word(s, 16) == w.w4 && Word(s, 20) == w.w5
  {
    hide Ascii, Word, Joined;
    TextWord(SAMPLE_KEY, 0, 0x64, 0x47, 0x68, 0x6C);
    TextWord(SAMPLE_KEY, 4, 0x49, 0x48, 0x4E, 0x68);
    TextWord(SAMPLE_KEY, 8, 0x62, 0x58, 0x42, 0x73);
    TextWord(SAMPLE_KEY, 12, 0x5A, 0x53, 0x42, 0x75);
    TextWord(SAMPLE_KEY, 16, 0x62, 0x32, 0x35, 0x6A);
    TextWord(SAMPLE_KEY, 20, 0x5A, 0x51, 0x3D, 0x3D);
    KeyJoined();
  }

  lemma KeyJoined()
    ensures Joined(0x64, 0x47, 0x68, 0x6C) == 0x6447686C
    ensures Joined(0x49, 0x48, 0x4E, 0x68) == 0x49484E68
    ensures Joined(0x62, 0x58, 0x42, 0x73) == 0x62584273
    ensures Joined(0x5A, 0x53, 0x42, 0x75) == 0x5A534275
    ensures Joined(0x62, 0x32, 0x35, 0x6A) == 0x6232356A
    ensures Joined(0x5A, 0x51, 0x3D, 0x3D) == 0x5A513D3D
  {
  }

  lemma GuidWords()
    ensures var s, w := Ascii(GUID), FIRST_0.w;
            && Word(s, 0) == w.w6 && Word(s, 4) == w.w7 && Word(s, 8) == w.w8
            && Word(s, 12) == w.w9 && Word(s, 16) == w.w10 && Word(s, 20) == w.w11
            && Word(s, 24) == w.w12 && Word(s, 28) == w.w13 && Word(s, 32) == w.w14
  {
    hide Ascii, Word, Joined;
    TextWord(GUID, 0, 0x32, 0x35, 0x38, 0x45);
    TextWord(GUID, 4, 0x41, 0x46, 0x41, 0x35);
    TextWord(GUID, 8, 0x2D, 0x45, 0x39, 0x31);
    TextWord(GUID, 12, 0x34, 0x2D, 0x34, 0x37);
    TextWord(GUID, 16, 0x44, 0x41, 0x2D, 0x39);
    TextWord(GUID, 20, 0x35, 0x43, 0x41, 0x2D);
    TextWord(GUID, 24, 0x43, 0x35, 0x41, 0x42);
    TextWord(GUID, 28, 0x30, 0x44, 0x43, 0x38);
    TextWord(GUID, 32, 0x35, 0x42, 0x31, 0x31);
    GuidJoined();
  }

  lemma GuidJoined()
    ensures Joined(0x32, 0x35, 0x38, 0x45) == 0x32353845
    ensures Joined(0x41, 0x46, 0x41, 0x35) == 0x41464135
    ensures Joined(0x2D, 0x45, 0x39, 0x31) == 0x2D453931
    ensures Joined(0x34, 0x2D, 0x34, 0x37) == 0x342D3437
    ensures Joined(0x44, 0x41, 0x2D, 0x39) == 0x44412D39
    ensures Joined(0x35, 0x43, 0x41, 0x2D) == 0x3543412D
    ensures Joined(0x43, 0x35, 0x41, 0x42) == 0x43354142
    ensures Joined(0x30, 0x44, 0x43, 0x38) == 0x30444338
    ensures Joined(0x35, 0x42, 0x31, 0x31) == 0x35423131
  {
  }

  lemma LengthOctets()
    ensures BigEndianBytes(480, 8) == [0, 0, 0, 0, 0, 0, 0x01, 0xE0]
  {
    hide Octet;
    OctetIs(0, 0);
    OctetIs(1, 1);
    OctetOf480();
  }

  lemma OctetOf480()
    ensures Octet(480) == 0xE0
  {
    OctetValue(480);
    Casts.OctetRoundTrip(0xE0);
  }

  lemma PaddedSample()
    ensures |SAMPLE| == 60
    ensures Pad(SAMPLE) == Ascii(SAMPLE_KEY) + Ascii(GUID) + [0x80] + Zeros(59) + [0, 0, 0, 0, 0, 0, 0x01, 0xE0]
  {
    hide BigEndianBytes;
    LengthOctets();
  }

  lemma WordIs(s: seq<bv8>, i: nat)
    requires i + 4 <= |s|
    ensures Word(s, i) == Joined(s[i], s[i + 1], s[i + 2], s[i + 3])
  {
  }

  /** Two places with the same four octets hold the same word. */
  lemma SameWord(s: seq<bv8>, i: nat, t: seq<bv8>, j: nat)
    requires i + 4 <= |s| && j + 4 <= |t| && s[i..i + 4] == t[j..j + 4]
    ensures Word(s, i) == Word(t, j)
  {
    hide Joined;
    WordIs(s, i);
    WordIs(t, j);
    assert s[i..i + 4] == [s[i], s[i + 1], s[i + 2], s[i + 3]];
    assert t[j..j + 4] == [t[j], t[j + 1], t[j + 2], t[j + 3]];
  }

  lemma LastJoined()
    ensures Joined(0x80, 0, 0, 0) == 0x80000000 && Joined(0, 0, 0, 0) == 0 && Joined(0, 0, 0x01, 0xE0) == 0x01E0
  {
  }

  lemma ZeroWord(s: seq<bv8>, i: nat)
    requires i + 4 <= |s| && s[i] == 0 && s[i + 1] == 0 && s[i + 2] == 0 && s[i + 3] == 0
    ensures Word(s, i) == 0
  {
    hide Joined;
    WordIs(s, i);
    LastJoined();
  }

  lemma TextOfFirstBlock(block: seq<bv8>)
    requires block == Ascii(SAMPLE_KEY) + Ascii(GUID) + [0x80, 0, 0, 0]
    ensures |block| == 64
    ensures forall i: nat :: i <= 20 ==> Word(block, i) == Word(Ascii(SAMPLE_KEY), i)
    ensures forall i: nat :: 24 <= i <= 56 ==> Word(block, i) == Word(Ascii(GUID), i - 24)
  {
    hide Word;
    assert |SAMPLE_KEY| == 24 && |GUID| == 36;
    hide Ascii;
    forall i: nat | i <= 20
      ensures Word(block, i) == Word(Ascii(SAMPLE_KEY), i)
    {
      SameWord(block, i, Ascii(SAMPLE_KEY), i);
    }
    forall i: nat | 24 <= i <= 56
      ensures Word(block, i) == Word(Ascii(GUID), i - 24)
    {
      SameWord(block, i, Ascii(GUID), i - 24);
    }
  }

  /** The first block is the text, the octet 0x80 and three zeros. */
  lemma FirstWindow(block: seq<bv8>)
    requires block == Ascii(SAMPLE_KEY) + Ascii(GUID) + [0x80, 0, 0, 0]
    ensures |block| == 64 && Covers(block, 0, FIRST_0.w)
  {
    hide Ascii, Word, Joined, Covers;
    TextOfFirstBlock(block);
    KeyWords();
    GuidWords();
    WordIs(block, 60);
    LastJoined();
    FirstSixteen(block);
  }

  lemma WordsOfSecondBlock(block: seq<bv8>)
    requires block == Zeros(56) + [0, 0, 0, 0, 0, 0, 0x01, 0xE0]
    ensures forall i: nat :: i <= 56 ==> Word(block, i) == 0
    ensures Word(block, 60) == 0x01E0
  {
    hide Word, Joined, Zeros;
    forall i: nat | i <= 56
      ensures Word(block, i) == 0
    {
      ZeroWord(block, i);
    }
    WordIs(block, 60);
    LastJoined();
  }

  /** The second block is fifty-six zeros and the length of the text in bits. */
  lemma SecondWindow(block: seq<bv8>)
    requires block == Zeros(56) + [0, 0, 0, 0, 0, 0, 0x01, 0xE0]
    ensures Covers(block, 0, SECOND_0.w)
  {
    hide Word, Covers, Zeros;
    WordsOfSecondBlock(block);
    FirstSixteen(block);
  }

  lemma SplitPadded(padded: seq<bv8>)
    requires padded == Ascii(SAMPLE_KEY) + Ascii(GUID) + [0x80] + Zeros(59) + [0, 0, 0, 0, 0, 0, 0x01, 0xE0]
    ensures |padded| == 128
    ensures padded[0..64] == Ascii(SAMPLE_KEY) + Ascii(GUID) + [0x80, 0, 0, 0]
    ensures padded[64..128] == Zeros(56) + [0, 0, 0, 0, 0, 0, 0x01, 0xE0]
  {
    assert |SAMPLE_KEY| == 24 && |GUID| == 36;
    hide Ascii, Zeros;
  }

  lemma Sums()
    ensures INITIAL_HASH == FIRST_0.v
    ensures Added(FIRST_0.v, FIRST_80.v) == SECOND_0.v && Added(SECOND_0.v, SECOND_80.v) == SAMPLE_HASH
  {
  }

  lemma TwoBlocks(data: seq<bv8>)
    requires |data| == 128
    ensures HashBlocks(data, 2) == Compress(data[64..128], Compress(data[0..64], INITIAL_HASH))
  {
    hide Compress;
    assert HashBlocks(data, 1) == Compress(data[64 * 0..64 * 1], HashBlocks(data, 0));
  }

  lemma SampleHash()
    ensures |Pad(SAMPLE)| == 128 && HashBlocks(Pad(SAMPLE), 2) == SAMPLE_HASH
  {
    hide Ascii, Zeros, Pad, Compress, Covers, Rounds, Added;
    PaddedSample();
    Sums();
    var padded := Pad(SAMPLE);
    var first, second := padded[0..64], padded[64..128];
    SplitPadded(padded);
    TwoBlocks(padded);
    FirstWindow(first);
    Start(first, FIRST_0.v, FIRST_0.w);
    FirstBlock(first, FIRST_0.v);
    CompressIsAdded(first, FIRST_0.v, FIRST_80);
    SecondWindow(second);
    Start(second, SECOND_0.v, SECOND_0.w);
    SecondBlock(second, SECOND_0.v);
    CompressIsAdded(second, SECOND_0.v, SECOND_80);
  }

  lemma DigestWords()
    ensures WordOctets(0xB37A4F2C) == [0xB3, 0x7A, 0x4F, 0x2C]
    ensures WordOctets(0xC0624F16) == [0xC0, 0x62, 0x4F, 0x16]
    ensures WordOctets(0x90F64606) == [0x90, 0xF6, 0x46, 0x06]
    ensures WordOctets(0xCF385945) == [0xCF, 0x38, 0x59, 0x45]
    ensures WordOctets(0xB2BEC4EA) == [0xB2, 0xBE, 0xC4, 0xEA]
  {
  }

  // The four characters of every three octets.

  lemma Quantum0()
    ensures EncodeQuantum(SAMPLE_DIGEST[0..3]) == "s3pP"
  {
    assert SAMPLE_DIGEST[0..3] == [0xB3, 0x7A, 0x4F];
    ThreeEncode("s3pP", 44, 55, 41, 15);
  }

  lemma Quantum1()
    ensures EncodeQuantum(SAMPLE_DIGEST[3..6]) == "LMBi"
  {
    assert SAMPLE_DIGEST[3..6] == [0x2C, 0xC0, 0x62];
    ThreeEncode("LMBi", 11, 12, 1, 34);
  }

  lemma Quantum2()
    ensures EncodeQuantum(SAMPLE_DIGEST[6..9]) == "TxaQ"
  {
    assert SAMPLE_DIGEST[6..9] == [0x4F, 0x16, 0x90];
    ThreeEncode("TxaQ", 19, 49, 26, 16);
  }

  lemma Quantum3()
    ensures EncodeQuantum(SAMPLE_DIGEST[9..12]) == "9kYG"
  {
    assert SAMPLE_DIGEST[9..12] == [0xF6, 0x46, 0x06];
    ThreeEncode("9kYG", 61, 36, 24, 6);
  }

  lemma Quantum4()
    ensures EncodeQuantum(SAMPLE_DIGEST[12..15]) == "zzhZ"
  {
    assert SAMPLE_DIGEST[12..15] == [0xCF, 0x38, 0x59];
    ThreeEncode("zzhZ", 51, 51, 33, 25);
  }

  lemma Quantum5()
    ensures EncodeQuantum(SAMPLE_DIGEST[15..18]) == "RbK+"
  {
    assert SAMPLE_DIGEST[15..18] == [0x45, 0xB2, 0xBE];
    ThreeEncode("RbK+", 17, 27, 10, 62);
  }

  lemma Quantum6()
    ensures EncodeQuantum(SAMPLE_DIGEST[18..20]) == "xOo="
  {
    assert SAMPLE_DIGEST[18..20] == [0xC4, 0xEA];
    TwoEncodes("xOo=", 49, 14, 40);
  }

  lemma SampleOctets()
    ensures HashOctets(SAMPLE_HASH) == SAMPLE_DIGEST
  {
    hide WordOctets;
    DigestWords();
  }

  lemma SampleDigest()
    ensures Digest(SAMPLE) == SAMPLE_DIGEST
  {
    hide Pad, HashBlocks, HashOctets;
    SampleHash();
    SampleOctets();
  }

  lemma EncodeGroup(data: seq<bv8>, i: nat)
    requires i + 3 < |data|
    ensures Encode(data[i..]) == EncodeQuantum(data[i..i + 3]) + Encode(data[i + 3..])
  {
    assert data[i..][..3] == data[i..i + 3] && data[i..][3..] == data[i + 3..];
  }

  lemma AcceptGroups()
    ensures SAMPLE_ACCEPT == "s3pP" + ("LMBi" + ("TxaQ" + ("9kYG" + ("zzhZ" + ("RbK+" + "xOo=")))))
  {
  }

  lemma SampleEncodes()
    ensures Encode(SAMPLE_DIGEST) == SAMPLE_ACCEPT
  {
    hide EncodeQuantum, Encode;
    var d := SAMPLE_DIGEST;
    EncodeGroup(d, 0);
    EncodeGroup(d, 3);
    EncodeGroup(d, 6);
    EncodeGroup(d, 9);
    EncodeGroup(d, 12);
    EncodeGroup(d, 15);
    OneQuantum(d[18..]);
    Quantum0();
    Quantum1();
    Quantum2();
    Quantum3();
    Quantum4();
    Quantum5();
    Quantum6();
    assert d[0..] == d && d[18..] == d[18..20];
    AcceptGroups();
  }

  /** The server's answer to the key of the example is the answer given there. */
  lemma SampleHandshake(key: string)
    ensures Decode(key) == Some(Digest(Ascii("dGhlIHNhbXBs" + "ZSBub25jZQ==") + Ascii(GUID)))
            <==> key == "s3pPLMBiTxaQ9k" + "YGzzhZRbK+xOo="
  {
    hide Digest, Decode, Encode, Ascii;
    SampleDigest();
    SampleEncodes();
    DecodeExactlyEncodings(key, SAMPLE_DIGEST);
  }
}
