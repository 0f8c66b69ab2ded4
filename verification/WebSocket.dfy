/**
 The base framing protocol of section 5.2 of RFC 6455, restricted to what a server sends as one
 unfragmented, unmasked text message.
 */
module FrameSpec {
  import opened Wrappers
  import opened Bytes

  /** Payload lengths are 63-bit numbers: the most significant bit of the 64-bit form must be 0. */
  const LENGTH_LIMIT: int := 0x8000_0000_0000_0000

  // The first octet of a text message in one frame: FIN set, RSV clear, opcode 1.
  const FIN_TEXT: bv8 := 0x81

  datatype Header = Header(payloadLength: nat, size: nat)

  /** The frame header at the start of `s`: the length must use the shortest of the three forms. */
  function ParseHeader(s: seq<bv8>): (h: Option<Header>)
    ensures h.Some? ==> h.value.size <= |s| && 2 <= h.value.size && h.value.payloadLength < LENGTH_LIMIT
  {
    if |s| < 2 || s[0] != FIN_TEXT then None
    else
      var len7 := s[1] as int;
      if len7 <= 125 then Some(Header(len7, 2))
      else if len7 == 126 then
        if |s| < 4 then None
        else
          var n := BigEndian(s[2..4]);
          if 126 <= n < LENGTH_LIMIT then Some(Header(n, 4)) else None
      else if len7 == 127 then
        if |s| < 10 then None
        else
          var n := BigEndian(s[2..10]);
          if 65536 <= n < LENGTH_LIMIT then Some(Header(n, 10)) else None
      else None // the MASK bit is set: a server must not mask
  }

  datatype Frame = Frame(payload: seq<bv8>, rest: seq<bv8>)

  function ParseFrame(s: seq<bv8>): (f: Option<Frame>)
    ensures f.Some? ==> |f.value.rest| < |s|
  {
    match ParseHeader(s)
    case None => None
    case Some(h) =>
      if |s| < h.size + h.payloadLength then None
      else Some(Frame(s[h.size..h.size + h.payloadLength], s[h.size + h.payloadLength..]))
  }

  /** All messages of a stream; every octet must belong to some frame. */
  function DecodeStream(s: seq<bv8>): Option<seq<seq<bv8>>>
    decreases |s|
  {
    if s == [] then Some([])
    else
      match ParseFrame(s)
      case None => None
      case Some(f) =>
        match DecodeStream(f.rest)
        case None => None
        case Some(ms) => Some([f.payload] + ms)
  }
}

/** Frame building and the handshake key of src/server/http_server.cpp. */
module WebSocketRoutine {
  import opened Bytes
  import opened FrameSpec
  import opened Wrappers
  import Base64Spec
  import Base64Routine
  import Base64Laws
  import Sha1Spec
  import Sha1Routine

  /** The length octets in the form the source selects. */
  function LengthField(len: nat): seq<bv8> {
    if len < 126 then [Octet(len)]
    else if len < 65536 then [126] + BigEndianBytes(len, 2)
    else [127] + BigEndianBytes(len, 8)
  }

  function FrameOf(msg: seq<bv8>): seq<bv8> {
    [FIN_TEXT] + LengthField(|msg|) + msg
  }

  function StreamOf(msgs: seq<seq<bv8>>): seq<bv8> {
    if msgs == [] then [] else FrameOf(msgs[0]) + StreamOf(msgs[1..])
  }

  lemma TwoOctets(len: nat)
    ensures BigEndianBytes(len, 2) == [Octet(ShiftRight(len, 8)), Octet(len)]
  {
    hide Octet, BigEndianBytes;
    BigEndianByteAt(len, 2, 0);
    BigEndianByteAt(len, 2, 1);
    assert Pow2(0) == 1;
  }

  /** The frame that ws_send_text hands to the socket. */
  method BuildFrame(msg: seq<bv8>) returns (frame: seq<bv8>)
    ensures frame == FrameOf(msg)
  {
    hide Octet, BigEndianBytes, ShiftRight;
    var len := |msg|;
    frame := [0x81];
    if len < 126 {
      frame := frame + [Octet(len)];
    } else if len < 65536 {
      frame := frame + [126];
      TwoOctets(len);
      frame := frame + [Octet(ShiftRight(len, 8))];
      frame := frame + [Octet(len)];
    } else {
      frame := frame + [127];
      frame := PushLength64(frame, len);
    }
    frame := frame + msg;
  }

  /** The loop that pushes the eight octets of the long form. */
  method PushLength64(before: seq<bv8>, len: nat) returns (frame: seq<bv8>)
    ensures frame == before + BigEndianBytes(len, 8)
  {
    frame := before;
    ghost var field := BigEndianBytes(len, 8);
    var i := 7;
    while i >= 0
      invariant -1 <= i <= 7
      invariant frame == before + field[..7 - i]
    {
      BigEndianByteAt(len, 8, 7 - i);
      frame := frame + [Octet(ShiftRight(len, 8 * i))];
      assert field[..8 - i] == field[..7 - i] + [field[7 - i]];
      i := i - 1;
    }
    assert field[..8] == field;
  }

  /** The octets of an ASCII text. */
  function Ascii(text: string): seq<bv8> {
    seq(|text|, i requires 0 <= i < |text| => Octet(text[i] as int))
  }

  // One string, written as a concatenation of short literals.
  const GUID := "258EAFA5-E914" + "-47DA-95CA-" + "C5AB0DC85B11"

  /** The Sec-WebSocket-Accept value of section 4.2.2 of RFC 6455, and its shape. */
  method WsAcceptKey(clientKey: seq<bv8>) returns (key: string)
    ensures Base64Spec.Decode(key) == Some(Sha1Spec.Digest(clientKey + Ascii(GUID)))
    ensures |key| == 28 && forall k :: 0 <= k < 28 ==> (key[k] == '=' <==> k == 27)
  {
    hide Sha1Spec.Digest, Base64Spec.Decode, Base64Routine.Encode, Ascii;
    var combined := clientKey + Ascii(GUID);
    var hash := new bv8[20];
    Sha1Routine.Sha1(combined, hash);
    key := Base64Routine.Base64Encode(hash[..]);
    Base64Laws.DecodeEncode(hash[..]);
    Base64Laws.EncodedShape(hash[..]);
  }
}

/** What a section 5.2 decoder makes of the frames that are built. */
module FrameLaws {
  import opened Wrappers
  import Casts
  import opened Bytes
  import opened FrameSpec
  import opened WebSocketRoutine

  lemma LengthRoundTrips(len: nat)
    ensures len < 65536 ==> BigEndian(BigEndianBytes(len, 2)) == len
    ensures len < TWO_TO_THE_64 ==> BigEndian(BigEndianBytes(len, 8)) == len
  {
    hide BigEndian, BigEndianBytes;
    BigEndianRoundTrip(len, 2);
    BigEndianRoundTrip(len, 8);
    FieldSizes();
  }

  lemma FieldSizes()
    ensures Pow2(16) == 65536 && Pow2(64) == TWO_TO_THE_64
  {
    Pow2Of64();
    assert Pow2(0) == 1;
    Pow2Of8(0);
    Pow2Of8(1);
  }

  /** The header of a built frame is parsed back, and only sizes below 2^63 can be represented. */
  lemma HeaderOfFrame(msg: seq<bv8>, tail: seq<bv8>)
    requires |msg| < LENGTH_LIMIT
    ensures ParseHeader(FrameOf(msg) + tail) == Some(Header(|msg|, 1 + |LengthField(|msg|)|))
  {
    if |msg| < 126 {
      ShortHeader(msg, tail);
    } else if |msg| < 65536 {
      MediumHeader(msg, tail);
    } else {
      LongHeader(msg, tail);
    }
  }

  lemma ShortHeader(msg: seq<bv8>, tail: seq<bv8>)
    requires |msg| < 126
    ensures ParseHeader(FrameOf(msg) + tail) == Some(Header(|msg|, 2))
  {
    hide Octet, BigEndian, BigEndianBytes;
    ShortLength(|msg|);
    var s := FrameOf(msg) + tail;
    assert s[0] == FIN_TEXT && s[1] == Octet(|msg|);
  }

  lemma ShortLength(len: nat)
    requires len < 126
    ensures Octet(len) as int == len
  {
    hide Octet;
    OctetValue(len);
  }

  lemma MediumHeader(msg: seq<bv8>, tail: seq<bv8>)
    requires 126 <= |msg| < 65536
    ensures ParseHeader(FrameOf(msg) + tail) == Some(Header(|msg|, 4))
  {
    hide BigEndianBytes, BigEndian, Octet;
    LengthRoundTrips(|msg|);
    var s := FrameOf(msg) + tail;
    assert s[0] == FIN_TEXT && s[1] == 126 && s[2..4] == BigEndianBytes(|msg|, 2);
  }

  lemma LongHeader(msg: seq<bv8>, tail: seq<bv8>)
    requires 65536 <= |msg| < LENGTH_LIMIT
    ensures ParseHeader(FrameOf(msg) + tail) == Some(Header(|msg|, 10))
  {
    hide BigEndianBytes, BigEndian, Octet;
    LengthRoundTrips(|msg|);
    var s := FrameOf(msg) + tail;
    assert s[0] == FIN_TEXT && s[1] == 127 && s[2..10] == BigEndianBytes(|msg|, 8);
  }

  /** The first octet bit by bit: FIN set, the three reserved bits clear, opcode 1 in the last four. */
  lemma FirstOctet(msg: seq<bv8>)
    ensures |FrameOf(msg)| >= 2
    ensures Bits(FrameOf(msg)[..1]) == [true] + [false, false, false] + [false, false, false, true]
  {
    var first := FrameOf(msg)[..1];
    assert first == [0x81] && first[..0] == [] && Bits([]) == [];
    DigitsOf129();
  }

  lemma DigitsOf129()
    ensures BinaryDigits(129, 8) == [true] + [false, false, false] + [false, false, false, true]
  {
  }

  /** The octets after the first: one of the three length forms, with the MASK bit clear, and the payload. */
  lemma FrameShape(msg: seq<bv8>)
    ensures var f, n := FrameOf(msg), |msg|;
            && (n <= 125 ==> |f| == 2 + n && f[1] as int == n && f[2..] == msg)
            && (126 <= n <= 0xFFFF ==>
                  |f| == 4 + n && f[1] == 126 && f[2] as int * 256 + f[3] as int == n && f[4..] == msg)
            && (0x1_0000 <= n < TWO_TO_THE_64 ==>
                  |f| == 10 + n && f[1] == 127 && BigEndian(f[2..10]) == n && f[10..] == msg)
  {
    var f, n := FrameOf(msg), |msg|;
    if n <= 125 {
      ShortShape(msg);
    } else if n <= 0xFFFF {
      MediumShape(msg);
    } else if n < TWO_TO_THE_64 {
      LongShape(msg);
    }
  }

  lemma ShortShape(msg: seq<bv8>)
    requires |msg| <= 125
    ensures var f, n := FrameOf(msg), |msg|;
            |f| == 2 + n && f[1] as int == n && f[2..] == msg
  {
    hide Octet;
    ShortLength(|msg|);
  }

  lemma MediumShape(msg: seq<bv8>)
    requires 126 <= |msg| <= 0xFFFF
    ensures var f, n := FrameOf(msg), |msg|;
            |f| == 4 + n && f[1] == 126 && f[2] as int * 256 + f[3] as int == n && f[4..] == msg
  {
    hide Octet, BigEndianBytes;
    LengthRoundTrips(|msg|);
    TwoOctetValue(BigEndianBytes(|msg|, 2));
  }

  lemma TwoOctetValue(s: seq<bv8>)
    requires |s| == 2
    ensures BigEndian(s) == s[0] as int * 256 + s[1] as int
  {
    assert s[..1] == [s[0]] && s[..1][..0] == [];
    assert BigEndian(s[..1]) == s[0] as int;
  }

  lemma LongShape(msg: seq<bv8>)
    requires 0x1_0000 <= |msg| < TWO_TO_THE_64
    ensures var f, n := FrameOf(msg), |msg|;
            |f| == 10 + n && f[1] == 127 && BigEndian(f[2..10]) == n && f[10..] == msg
  {
    hide Octet, BigEndianBytes, BigEndian;
    LengthRoundTrips(|msg|);
    assert FrameOf(msg)[2..10] == BigEndianBytes(|msg|, 8);
  }

  lemma FrameParses(msg: seq<bv8>, tail: seq<bv8>)
    requires |msg| < LENGTH_LIMIT
    ensures ParseFrame(FrameOf(msg) + tail) == Some(Frame(msg, tail))
  {
    HeaderOfFrame(msg, tail);
    var s, n := FrameOf(msg) + tail, 1 + |LengthField(|msg|)|;
    assert s[n..n + |msg|] == msg && s[n + |msg|..] == tail;
  }

  /** The octets that a parsed header occupies are the ones the source would have written. */
  lemma HeaderIsCanonical(s: seq<bv8>)
    requires ParseHeader(s).Some?
    ensures var h := ParseHeader(s).value;
            s[..h.size] == [FIN_TEXT] + LengthField(h.payloadLength)
  {
    hide BigEndian, BigEndianBytes;
    var h := ParseHeader(s).value;
    var n := h.payloadLength;
    if h.size == 2 {
      OctetValue(n);
      Casts.OctetRoundTrip(s[1]);
      assert s[..2] == [s[0], s[1]];
    } else if h.size == 4 {
      SmallField(s[2..4]);
      assert s[..4] == [s[0], s[1]] + s[2..4];
    } else {
      BigEndianBytesOfValue(s[2..10]);
      assert s[..10] == [s[0], s[1]] + s[2..10];
    }
  }

  lemma SmallField(field: seq<bv8>)
    requires |field| == 2
    ensures BigEndian(field) < 65536 && BigEndianBytes(BigEndian(field), 2) == field
  {
    hide BigEndian, BigEndianBytes;
    BigEndianBytesOfValue(field);
    assert Pow2(0) == 1;
    Pow2Of8(0);
    Pow2Of8(1);
  }

  lemma ParsedIsFrame(s: seq<bv8>)
    requires ParseFrame(s).Some?
    ensures var f := ParseFrame(s).value;
            |f.payload| < LENGTH_LIMIT && s == FrameOf(f.payload) + f.rest
  {
    hide ParseHeader, LengthField;
    HeaderIsCanonical(s);
    var h, f := ParseHeader(s).value, ParseFrame(s).value;
    assert s == s[..h.size] + f.payload + f.rest;
  }

  ghost predicate Representable(msgs: seq<seq<bv8>>) {
    forall m :: m in msgs ==> |m| < LENGTH_LIMIT
  }

  lemma {:induction false} StreamDecodes(msgs: seq<seq<bv8>>)
    requires Representable(msgs)
    ensures DecodeStream(StreamOf(msgs)) == Some(msgs)
  {
    if msgs == [] {
    } else {
      FrameParses(msgs[0], StreamOf(msgs[1..]));
      StreamDecodes(msgs[1..]);
      assert msgs == [msgs[0]] + msgs[1..];
    }
  }

  lemma {:induction false} DecodedIsStream(s: seq<bv8>)
    requires DecodeStream(s).Some?
    ensures var msgs := DecodeStream(s).value;
            Representable(msgs) && s == StreamOf(msgs)
    decreases |s|
  {
    if s == [] {
    } else {
      var f := ParseFrame(s).value;
      ParsedIsFrame(s);
      DecodedIsStream(f.rest);
      var msgs := DecodeStream(s).value;
      assert msgs[0] == f.payload && msgs[1..] == DecodeStream(f.rest).value;
    }
  }

  /**
   A stream decodes to a list of messages exactly when it is the concatenation of the frames built
   for them and each message is shorter than 2^63 octets. So frame boundaries are never ambiguous,
   every octet is consumed, and no other octet string passes for a list of built frames.
   */
  lemma StreamsDecodeUniquely(s: seq<bv8>, msgs: seq<seq<bv8>>)
    ensures DecodeStream(s) == Some(msgs) <==> s == StreamOf(msgs) && Representable(msgs)
  {
    if Representable(msgs) {
      StreamDecodes(msgs);
    }
    if DecodeStream(s) == Some(msgs) {
      DecodedIsStream(s);
    }
  }
}
