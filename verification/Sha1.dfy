/**
 SHA-1 and the WebSocket accept key. The functional part is the definition of RFC 3174 (padding: section 4, functions
 and constants: section 5, method 1: section 6.1); the methods are the loops of web_server.cpp and compute it.
 */
module Sha1 {
  import opened Base64
  import opened Bytes
  import opened Sequences

  // ---------- padding, section 4 ----------

  /** The zero bytes between the 0x80 byte and the 64-bit length. */
  function ZeroCount(n: nat): (z: nat)
    ensures z < 64 && (n + 1 + z) % 64 == 56
  {
    (119 - n % 64) % 64
  }

  function Zeros(k: nat): (r: Bytes)
    ensures |r| == k && forall i :: 0 <= i < k ==> r[i] == 0
  {
    if k == 0 then [] else Zeros(k - 1) + [0]
  }

  /** The message length in bits, as std::uint64_t. */
  function BitLength(n: nat): nat {
    n * 8 % 0x1_0000_0000_0000_0000
  }

  function Pad(input: Bytes): Bytes {
    input + [0x80] + Zeros(ZeroCount(|input|)) + BigEndian(BitLength(|input|), 8)
  }

  /** Padding ends at the least multiple of 64 that leaves room for nine more bytes. */
  lemma PadLength(input: Bytes)
    ensures |Pad(input)| % 64 == 0 && |input| + 9 <= |Pad(input)| < |input| + 9 + 64
  {
    EightMore(|input| + 1 + ZeroCount(|input|));
  }

  lemma EightMore(m: nat)
    requires m % 64 == 56
    ensures (m + 8) % 64 == 0
  {
    assert m + 8 == 64 * (m / 64 + 1);
  }

  /** Different messages pad differently, below the 2^61 bytes the length field can count. */
  lemma PadInjective(x: Bytes, y: Bytes)
    requires 8 * |x| < Radix(8) && 8 * |y| < Radix(8)
    ensures Pad(x) == Pad(y) <==> x == y
  {
    LengthReadBack(x);
    LengthReadBack(y);
    assert x == Pad(x)[..|x|] && y == Pad(y)[..|y|];
  }

  lemma LengthReadBack(x: Bytes)
    requires 8 * |x| < Radix(8)
    ensures Value(Pad(x)[|Pad(x)| - 8..]) == 8 * |x|
  {
    RadixEight();
    assert BitLength(|x|) == 8 * |x|;
    ValueOfBigEndian(BitLength(|x|), 8);
    assert Pad(x)[|Pad(x)| - 8..] == BigEndian(BitLength(|x|), 8);
  }

  lemma RadixEight()
    ensures Radix(8) == 0x1_0000_0000_0000_0000
  {
    assert Radix(2) == 0x1_0000;
    assert Radix(4) == 256 * (256 * Radix(2));
    assert Radix(6) == 256 * (256 * Radix(4));
  }

  /** The padding loops. */
  method PadMessage(input: Bytes) returns (message: Bytes)
    ensures message == Pad(input)
  {
    message := input;
    var bitLen := BitLength(|message|);
    message := message + [0x80];
    ghost var zeros := 0;
    while |message| % 64 != 56
      invariant zeros <= ZeroCount(|input|)
      invariant message == input + [0x80] + Zeros(zeros)
      decreases ZeroCount(|input|) - zeros
    {
      message := message + [0];
      zeros := zeros + 1;
    }
    assert zeros == ZeroCount(|input|) by { ZerosExact(|input|, zeros); }
    message := PushBigEndian(message, bitLen, 8);
  }

  lemma ZerosExact(n: nat, zeros: nat)
    requires zeros <= ZeroCount(n) && (n + 1 + zeros) % 64 == 56
    ensures zeros == ZeroCount(n)
  {
  }

  // ---------- functions and constants, section 5 ----------

  type word = bv32

  function Rotate(x: word, n: nat): word
    requires 0 < n < 32
  {
    (x << n) | (x >> (32 - n))
  }

  function F(t: nat, b: word, c: word, d: word): word {
    if t < 20 then (b & c) | (!b & d)
    else if t < 40 then b ^ c ^ d
    else if t < 60 then (b & c) | (b & d) | (c & d)
    else b ^ c ^ d
  }

  function K(t: nat): word {
    if t < 20 then 0x5A827999 else if t < 40 then 0x6ED9EBA1 else if t < 60 then 0x8F1BBCDC else 0xCA62C1D6
  }

  // ---------- method 1, section 6.1 ----------

  /** Four bytes as a word, most significant first. */
  function Word(p: byte, q: byte, r: byte, s: byte): word {
    ((p as bv32) << 24) | ((q as bv32) << 16) | ((r as bv32) << 8) | (s as bv32)
  }

  function NextWord(x: word, y: word, z: word, u: word): word {
    Rotate(x ^ y ^ z ^ u, 1)
  }

  /** Words in a schedule, and rounds on a block. */
  function Length(): nat {
    80
  }

  /** The first n words of the message schedule of a block. */
  function Schedule(block: Bytes, n: nat): (w: seq<word>)
    requires |block| == 64 && n <= 80
    ensures |w| == n
  {
    if n == 0 then []
    else
      var w := Schedule(block, n - 1);
      var t := n - 1;
      w + [if t < 16 then Word(block[4 * t], block[4 * t + 1], block[4 * t + 2], block[4 * t + 3])
           else NextWord(w[t - 3], w[t - 8], w[t - 14], w[t - 16])]
  }

  datatype State = State(a: word, b: word, c: word, d: word, e: word)

  function Temp(a: word, f: word, e: word, k: word, w: word): word {
    Rotate(a, 5) + f + e + k + w
  }

  function Round(s: State, t: nat, w: word): State {
    State(Temp(s.a, F(t, s.b, s.c, s.d), s.e, K(t), w), s.a, Rotate(s.b, 30), s.c, s.d)
  }

  /** One round for every word of the schedule. */
  function Rounds(s: State, w: seq<word>): State {
    if w == [] then s else var t := |w| - 1; Round(Rounds(s, w[..t]), t, w[t])
  }

  function Add(s: State, t: State): State {
    State(s.a + t.a, s.b + t.b, s.c + t.c, s.d + t.d, s.e + t.e)
  }

  function Compress(h: State, block: Bytes): State
    requires |block| == 64
  {
    Add(h, Rounds(h, Schedule(block, Length())))
  }

  const INITIAL := State(0x67452301, 0xEFCDAB89, 0x98BADCFE, 0x10325476, 0xC3D2E1F0)

  /** The hash state after a whole number of blocks. */
  function HashBlocks(message: Bytes): State
    requires |message| % 64 == 0
  {
    if message == [] then INITIAL
    else var n := |message| - 64; Compress(HashBlocks(message[..n]), message[n..])
  }

  function WordBytes(w: word): (r: Bytes)
    ensures |r| == 4
  {
    [((w >> 24) & 0xff) as int, ((w >> 16) & 0xff) as int, ((w >> 8) & 0xff) as int, (w & 0xff) as int]
  }

  function Digest(s: State): (r: Bytes)
    ensures |r| == 20
  {
    WordBytes(s.a) + WordBytes(s.b) + WordBytes(s.c) + WordBytes(s.d) + WordBytes(s.e)
  }

  function Hash(input: Bytes): (r: Bytes)
    ensures |r| == 20
  {
    PadLength(input);
    Digest(HashBlocks(Pad(input)))
  }

  // ---------- the loops ----------

  /** The schedule of the block at `chunk`, in an array filled front to back. */
  method ExpandBlock(message: Bytes, chunk: nat) returns (words: seq<word>)
    requires chunk + 64 <= |message|
    ensures words == Schedule(message[chunk..chunk + 64], Length())
  {
    var w := new word[80];
    LoadWords(w, message, chunk);
    ExtendWords(w, message[chunk..chunk + 64]);
    words := w[..];
    assert words == w[..80];
  }

  method LoadWords(w: array<word>, message: Bytes, chunk: nat)
    requires w.Length == 80 && chunk + 64 <= |message|
    modifies w
    ensures w[..16] == Schedule(message[chunk..chunk + 64], 16)
  {
    ghost var block := message[chunk..chunk + 64];
    for i := 0 to 16
      invariant w[..i] == Schedule(block, i)
    {
      var j := chunk + i * 4;
      w[i] := Word(message[j], message[j + 1], message[j + 2], message[j + 3]);
      ScheduleLoads(message, chunk, i);
      assert w[..i + 1] == w[..i] + [w[i]];
    }
  }

  lemma ScheduleLoads(message: Bytes, chunk: nat, i: nat)
    requires chunk + 64 <= |message| && i < 16
    ensures var block, j := message[chunk..chunk + 64], chunk + i * 4;
            Schedule(block, i + 1) == Schedule(block, i) + [Word(message[j], message[j + 1], message[j + 2], message[j + 3])]
  {
    var block, j := message[chunk..chunk + 64], chunk + i * 4;
    assert block[4 * i..4 * i + 4] == message[j..j + 4];
    SameWord(block, 4 * i, message, j);
  }

  lemma SameWord(s: Bytes, i: nat, t: Bytes, j: nat)
    requires i + 4 <= |s| && j + 4 <= |t| && s[i..i + 4] == t[j..j + 4]
    ensures Word(s[i], s[i + 1], s[i + 2], s[i + 3]) == Word(t[j], t[j + 1], t[j + 2], t[j + 3])
  {
    var u := s[i..i + 4];
    assert s[i] == u[0] && s[i + 1] == u[1] && s[i + 2] == u[2] && s[i + 3] == u[3];
    assert t[j] == u[0] && t[j + 1] == u[1] && t[j + 2] == u[2] && t[j + 3] == u[3];
  }

  method ExtendWords(w: array<word>, ghost block: Bytes)
    requires w.Length == 80 && |block| == 64 && w[..16] == Schedule(block, 16)
    modifies w
    ensures w[..80] == Schedule(block, Length())
  {
    for i := 16 to 80
      invariant w[..i] == Schedule(block, i)
    {
      ghost var before := w[..i];
      w[i] := NextWord(w[i - 3], w[i - 8], w[i - 14], w[i - 16]);
      ScheduleExtends(block, i, before);
      assert w[..i] == before;
      assert w[..i + 1] == w[..i] + [w[i]];
    }
  }

  lemma ScheduleExtends(block: Bytes, i: nat, w: seq<word>)
    requires |block| == 64 && 16 <= i < 80 && w == Schedule(block, i)
    ensures Schedule(block, i + 1) == w + [NextWord(w[i - 3], w[i - 8], w[i - 14], w[i - 16])]
  {
  }

  /** The body of the round loop on its five variables. */
  method RoundBody(s: State, i: nat, w: word) returns (s': State)
    ensures s' == Round(s, i, w)
  {
    var a, b, c, d, e := s.a, s.b, s.c, s.d, s.e;
    var f, k := F(i, b, c, d), K(i);
    var temp := Temp(a, f, e, k, w);
    e := d;
    d := c;
    c := Rotate(b, 30);
    b := a;
    a := temp;
    s' := State(a, b, c, d, e);
  }

  method RunRounds(h: State, w: seq<word>) returns (s: State)
    ensures s == Rounds(h, w)
  {
    s := h;
    for i := 0 to |w|
      invariant s == Rounds(h, w[..i])
    {
      assert w[..i + 1][..i] == w[..i];
      s := RoundBody(s, i, w[i]);
    }
    assert w[..|w|] == w;
  }

  /** The loop over the blocks of a padded message. */
  method HashMessage(message: Bytes) returns (h: State)
    requires |message| % 64 == 0
    ensures h == HashBlocks(message)
  {
    h := INITIAL;
    var chunk := 0;
    while chunk < |message|
      invariant 0 <= chunk <= |message| && chunk % 64 == 0
      invariant h == HashBlocks(message[..chunk])
      decreases |message| - chunk
    {
      NextBlock(message, chunk);
      h := CompressBlock(h, message, chunk);
      chunk := chunk + 64;
    }
    assert message[..chunk] == message;
  }

  method CompressBlock(h: State, message: Bytes, chunk: nat) returns (h': State)
    requires chunk + 64 <= |message|
    ensures h' == Compress(h, message[chunk..chunk + 64])
  {
    var w := ExpandBlock(message, chunk);
    var s := RunRounds(h, w);
    h' := Add(h, s);
  }

  lemma NextBlock(message: Bytes, chunk: nat)
    requires |message| % 64 == 0 && chunk % 64 == 0 && chunk < |message|
    ensures chunk + 64 <= |message| && (chunk + 64) % 64 == 0
    ensures HashBlocks(message[..chunk + 64]) == Compress(HashBlocks(message[..chunk]), message[chunk..chunk + 64])
  {
    LastBlock(message[..chunk], message[chunk..chunk + 64]);
    assert message[..chunk + 64] == message[..chunk] + message[chunk..chunk + 64];
  }

  lemma LastBlock(message: Bytes, block: Bytes)
    requires |message| % 64 == 0 && |block| == 64
    ensures HashBlocks(message + block) == Compress(HashBlocks(message), block)
  {
    assert (message + block)[..|message|] == message && (message + block)[|message|..] == block;
  }

  /** The blocks taken front to back from a state. */
  function Absorb(h: State, message: Bytes): State
    requires |message| % 64 == 0
    decreases |message|
  {
    if message == [] then h else Absorb(Compress(h, message[..64]), message[64..])
  }

  /** Hashing can stop after any block and go on from the state reached there. */
  lemma {:induction false} HashResumes(a: Bytes, b: Bytes)
    requires |a| % 64 == 0 && |b| % 64 == 0
    ensures |a + b| % 64 == 0 && HashBlocks(a + b) == Absorb(HashBlocks(a), b)
    decreases |b|
  {
    if b == [] {
      assert a + b == a;
    } else {
      var block, rest := b[..64], b[64..];
      assert b == block + rest;
      Whole(|rest|);
      Whole(|a|);
      LastBlock(a, block);
      HashResumes(a + block, rest);
      FirstBlock(HashBlocks(a), block, rest);
      Regroup(a, block, rest);
    }
  }

  lemma Whole(n: nat)
    ensures (n + 64) % 64 == n % 64
  {
  }

  lemma FirstBlock(h: State, block: Bytes, rest: Bytes)
    requires |block| == 64 && |rest| % 64 == 0 && |block + rest| % 64 == 0
    ensures Absorb(h, block + rest) == Absorb(Compress(h, block), rest)
  {
    assert (block + rest)[..64] == block && (block + rest)[64..] == rest;
  }

  /** sha1 computes the hash of RFC 3174 for every input. */
  method Sha1(input: Bytes) returns (digest: Bytes)
    ensures digest == Hash(input)
  {
    var message := PadMessage(input);
    PadLength(input);
    var h := HashMessage(message);
    digest := Digest(h);
  }

  // ---------- the accept key ----------

  /** The characters of a literal, as bytes. */
  function Octets(s: string): Bytes {
    seq(|s|, i requires 0 <= i < |s| => s[i] as int % 256)
  }

  /** Section 1.3 of RFC 6455. */
  const GUID := "258EAFA5-E914-47DA-95CA-C5AB0DC85B11"

  /** websocketAcceptKey: the base64 text of the hash of key and GUID, from which the hash can be read back. */
  method AcceptKey(key: Bytes) returns (out: string)
    ensures Decode(out) == Some(Hash(key + Octets("258EAFA5-E914-47DA-95CA-C5AB0DC85B11")))
    ensures out == Encode(Hash(key + Octets("258EAFA5-E914-47DA-95CA-C5AB0DC85B11")))
  {
    var digest := Sha1(key + Octets(GUID));
    out := Base64Encode(digest);
    DecodeEncode(digest);
  }
}
