/** Outgoing WebSocket text frames, against a frame decoder written from section 5.2 of RFC 6455. */
module WebSocket {
  import opened Bytes
  import opened Sequences

  // ---------- printing ----------

  /** The payload length, in the shortest of the three forms. */
  function LengthField(len: nat): Bytes {
    if len < 126 then [len]
    else if len <= 0xffff then [126] + BigEndian(len, 2)
    else [127] + BigEndian(len, 8)
  }

  function Frame(message: Bytes): Bytes {
    [0x81] + LengthField(|message|) + message
  }

  /** sendWebSocketText up to the send. A std::string is shorter than 2^64. */
  method BuildFrame(message: Bytes) returns (frame: Bytes)
    requires |message| < Radix(8)
    ensures frame == Frame(message)
  {
    frame := [0x81];
    var len := |message|;
    if len < 126 {
      frame := frame + [len];
    } else if len <= 0xffff {
      frame := frame + [126];
      frame := frame + [ShiftBytes(len, 1) % 256];
      frame := frame + [len % 256];
      BigEndianByte(len, 2, 0);
      BigEndianByte(len, 2, 1);
    } else {
      frame := frame + [127];
      frame := PushBigEndian(frame, len, 8);
    }
    frame := frame + message;
  }

  // ---------- decoding, section 5.2 ----------

  datatype Decoded = Decoded(fin: bool, rsv: int, opcode: int, payload: Bytes)

  /** The payload length and what follows it: unsigned, at most 63 bits, and in the minimal form. */
  function DecodeLength(s: Bytes): (r: Option<(nat, Bytes)>)
    ensures r.Some? ==> |r.value.1| < |s|
  {
    if s == [] || s[0] >= 128 then None   // a server must not mask
    else if s[0] < 126 then Some((s[0], s[1..]))
    else if s[0] == 126 then
      if |s| < 3 || Value(s[1..3]) < 126 then None else Some((Value(s[1..3]), s[3..]))
    else if |s| < 9 || s[1] >= 128 || Value(s[1..9]) < 0x10000 then None
    else Some((Value(s[1..9]), s[9..]))
  }

  function DecodeFrame(s: Bytes): (r: Option<(Decoded, Bytes)>)
    ensures r.Some? ==> |r.value.1| < |s|
  {
    if s == [] then None
    else
      match DecodeLength(s[1..])
      case None => None
      case Some((len, rest)) =>
        if len > |rest| then None
        else Some((Decoded(s[0] >= 128, s[0] / 16 % 8, s[0] % 16, rest[..len]), rest[len..]))
  }

  function DecodeAll(s: Bytes): Option<seq<Decoded>>
    decreases |s|
  {
    if s == [] then Some([])
    else
      match DecodeFrame(s)
      case None => None
      case Some((frame, rest)) =>
        match DecodeAll(rest)
        case None => None
        case Some(frames) => Some([frame] + frames)
  }

  /** An unfragmented text message. */
  function TextMessage(message: Bytes): Decoded {
    Decoded(true, 0, 1, message)
  }

  // ---------- round trip ----------

  lemma Radixes()
    ensures Radix(2) == 0x10000 && Radix(8) == 0x1_0000_0000_0000_0000 && Radix(7) * 256 == Radix(8)
  {
    assert Radix(1) == 256;
    assert Radix(2) == 65536;
    assert Radix(3) == 256 * Radix(2);
    assert Radix(4) == 256 * Radix(3);
    assert Radix(5) == 256 * Radix(4);
    assert Radix(6) == 256 * Radix(5);
    assert Radix(7) == 256 * Radix(6);
  }

  /** The top bit, and no more than the top byte, of a number of k + 1 bytes. */
  lemma {:induction false} TopBit(n: nat, k: nat)
    ensures ShiftBytes(n, k) >= 128 <==> n >= 128 * Radix(k)
    ensures ShiftBytes(n, k) >= 256 <==> n >= Radix(k + 1)
    decreases k
  {
    if k > 0 {
      TopBit(n / 256, k - 1);
    }
  }

  /** The length comes back exactly when it fits the 63 bits the standard allows. */
  lemma DecodeLengthField(len: nat, rest: Bytes)
    requires len < Radix(8)
    ensures DecodeLength(LengthField(len) + rest) == if len < Radix(8) / 2 then Some((len, rest)) else None
  {
    Radixes();
    var s := LengthField(len) + rest;
    if len < 126 {
      assert s[1..] == rest;
    } else if len <= 0xffff {
      ValueOfBigEndian(len, 2);
      assert s[1..3] == BigEndian(len, 2) && s[3..] == rest;
    } else {
      ValueOfBigEndian(len, 8);
      BigEndianByte(len, 8, 0);
      TopBit(len, 7);
      assert s[1..9] == BigEndian(len, 8) && s[9..] == rest && s[1] == BigEndian(len, 8)[0];
    }
  }

  /** A frame decodes to its message exactly when the message is shorter than 2^63 bytes. */
  lemma DecodeBuilt(message: Bytes, rest: Bytes)
    requires |message| < Radix(8)
    ensures DecodeFrame(Frame(message) + rest) ==
            if |message| < Radix(8) / 2 then Some((TextMessage(message), rest)) else None
  {
    var s := Frame(message) + rest;
    assert s[1..] == LengthField(|message|) + (message + rest);
    DecodeLengthField(|message|, message + rest);
    assert (message + rest)[..|message|] == message && (message + rest)[|message|..] == rest;
  }

  function Stream(messages: seq<Bytes>): Bytes {
    if messages == [] then [] else Frame(messages[0]) + Stream(messages[1..])
  }

  function TextMessages(messages: seq<Bytes>): seq<Decoded> {
    if messages == [] then [] else [TextMessage(messages[0])] + TextMessages(messages[1..])
  }

  /** Any concatenation of frames decodes to exactly the messages sent, in order. */
  lemma {:induction false} StreamDecodes(messages: seq<Bytes>)
    requires forall i :: 0 <= i < |messages| ==> |messages[i]| < Radix(8) / 2
    ensures DecodeAll(Stream(messages)) == Some(TextMessages(messages))
    decreases messages
  {
    if messages != [] {
      DecodeBuilt(messages[0], Stream(messages[1..]));
      StreamDecodes(messages[1..]);
    }
  }
}
