/** base64Encode, against a strict decoder written from section 4 of RFC 4648. */
module Base64 {
  import opened Bytes
  import opened Sequences

  type sextet = x: int | 0 <= x < 64

  /** The alphabet of table 1: A-Z, a-z, 0-9, + and /. */
  function Letter(i: sextet): char {
    if i < 26 then ('A' as int + i) as char
    else if i < 52 then ('a' as int + i - 26) as char
    else if i < 62 then ('0' as int + i - 52) as char
    else if i == 62 then '+' else '/'
  }

  /** Three octets as one 24-bit number. */
  function Triple(a: byte, b: byte, c: byte): nat {
    a * 65536 + b * 256 + c
  }

  /** The i-th six bits of a 24-bit number: (triple >> shift) & 0x3f. */
  function Six(triple: nat, i: nat): sextet
    requires i < 4
  {
    match i
    case 0 => triple / 262144 % 64
    case 1 => triple / 4096 % 64
    case 2 => triple / 64 % 64
    case 3 => triple % 64
  }

  /** Four characters for the first one to three octets of the data. */
  function Quad(data: Bytes): (r: string)
    requires data != []
    ensures |r| == 4
  {
    var b, c := if |data| > 1 then data[1] else 0, if |data| > 2 then data[2] else 0;
    var t := Triple(data[0], b, c);
    [Letter(Six(t, 0)), Letter(Six(t, 1)),
     if |data| > 1 then Letter(Six(t, 2)) else '=', if |data| > 2 then Letter(Six(t, 3)) else '=']
  }

  function Encode(data: Bytes): string
    decreases |data|
  {
    if data == [] then "" else Quad(data) + Encode(if |data| > 3 then data[3..] else [])
  }

  /** The loop of base64Encode. */
  method Base64Encode(data: Bytes) returns (out: string)
    ensures out == Encode(data)
  {
    out := "";
    var i := 0;
    assert data[0..] == data;
    while i < |data|
      invariant 0 <= i
      invariant Encode(data) == out + Encode(Rest(data, i))
    {
      var a := data[i];
      var b := if i + 1 < |data| then data[i + 1] else 0;
      var c := if i + 2 < |data| then data[i + 2] else 0;
      var triple := Triple(a, b, c);
      var quad := [Letter(Six(triple, 0)), Letter(Six(triple, 1)),
                   if i + 1 < |data| then Letter(Six(triple, 2)) else '=',
                   if i + 2 < |data| then Letter(Six(triple, 3)) else '='];
      assert quad == Quad(Rest(data, i));
      EncodeStep(out, data, i);
      out := out + quad;
      i := i + 3;
    }
  }

  function Rest(data: Bytes, i: nat): Bytes {
    if i < |data| then data[i..] else []
  }

  lemma EncodeStep(out: string, data: Bytes, i: nat)
    requires i < |data|
    ensures out + Encode(Rest(data, i)) == out + Quad(Rest(data, i)) + Encode(Rest(data, i + 3))
  {
    if i + 3 < |data| { assert data[i..][3..] == data[i + 3..]; }
  }

  // ---------- decoding ----------

  function Index(c: char): (r: Option<int>)
    ensures r.Some? ==> 0 <= r.value < 64
  {
    if 'A' <= c <= 'Z' then Some(c as int - 'A' as int)
    else if 'a' <= c <= 'z' then Some(c as int - 'a' as int + 26)
    else if '0' <= c <= '9' then Some(c as int - '0' as int + 52)
    else if c == '+' then Some(62)
    else if c == '/' then Some(63)
    else None
  }

  lemma LetterIndex(i: sextet, c: char)
    ensures Index(Letter(i)) == Some(i) && Letter(i) != '='
    ensures Index(c) == Some(i) ==> c == Letter(i)
  {
  }

  /** Four characters without padding. */
  function DecodeFull(s: string): Option<Bytes>
    requires |s| >= 4
  {
    match (Index(s[0]), Index(s[1]), Index(s[2]), Index(s[3]))
    case (Some(p), Some(q), Some(r), Some(t)) => Some([p * 4 + q / 16, q % 16 * 16 + r / 4, r % 4 * 64 + t])
    case _ => None
  }

  /** The final four characters, padded; the unused bits must be zero. */
  function DecodePadded(s: string): Option<Bytes>
    requires |s| == 4 && s[3] == '='
  {
    if s[2] == '=' then
      match (Index(s[0]), Index(s[1]))
      case (Some(p), Some(q)) => if q % 16 == 0 then Some([p * 4 + q / 16]) else None
      case _ => None
    else
      match (Index(s[0]), Index(s[1]), Index(s[2]))
      case (Some(p), Some(q), Some(r)) => if r % 4 == 0 then Some([p * 4 + q / 16, q % 16 * 16 + r / 4]) else None
      case _ => None
  }

  function Decode(s: string): Option<Bytes> {
    if s == "" then Some([])
    else if |s| < 4 then None
    else if |s| == 4 && s[3] == '=' then DecodePadded(s)
    else
      match (DecodeFull(s), Decode(s[4..]))
      case (Some(a), Some(b)) => Some(a + b)
      case _ => None
  }

  /** A quotient by 64, from its witnesses. */
  lemma Split(t: nat, q: nat, r: nat)
    requires t == q * 64 + r && r < 64
    ensures t / 64 == q && t % 64 == r
  {
  }

  lemma Sixes(a: byte, b: byte, c: byte)
    ensures var t := Triple(a, b, c);
            && Six(t, 0) == a / 4 && Six(t, 1) == a % 4 * 16 + b / 16
            && Six(t, 2) == b % 16 * 4 + c / 64 && Six(t, 3) == c % 64
  {
    var t := Triple(a, b, c);
    var p, q, r, u := a / 4, a % 4 * 16 + b / 16, b % 16 * 4 + c / 64, c % 64;
    assert t == ((p * 64 + q) * 64 + r) * 64 + u;
    Split(t, (p * 64 + q) * 64 + r, u);
    Split(t / 64, p * 64 + q, r);
    Split(t / 64 / 64, p, q);
    assert t / 4096 == t / 64 / 64 && t / 262144 == t / 64 / 64 / 64;
  }

  /** The octets come back from the sextets. */
  lemma Joined(a: byte, b: byte, c: byte)
    ensures var p, q, r, u := a / 4, a % 4 * 16 + b / 16, b % 16 * 4 + c / 64, c % 64;
            p * 4 + q / 16 == a && q % 16 * 16 + r / 4 == b && r % 4 * 64 + u == c
  {
    var q, r := a % 4 * 16 + b / 16, b % 16 * 4 + c / 64;
    assert q / 16 == a % 4 && q % 16 == b / 16;
    assert r / 4 == b % 16 && r % 4 == c / 64;
  }

  lemma QuadLetters(data: Bytes)
    requires data != []
    ensures var b, c := if |data| > 1 then data[1] else 0, if |data| > 2 then data[2] else 0;
            var s := Quad(data);
            && Index(s[0]) == Some(data[0] / 4) && Index(s[1]) == Some(data[0] % 4 * 16 + b / 16)
            && (if |data| > 1 then s[2] != '=' && Index(s[2]) == Some(b % 16 * 4 + c / 64) else s[2] == '=')
            && (if |data| > 2 then s[3] != '=' && Index(s[3]) == Some(c % 64) else s[3] == '=')
  {
    var b, c := if |data| > 1 then data[1] else 0, if |data| > 2 then data[2] else 0;
    Sixes(data[0], b, c);
    var t := Triple(data[0], b, c);
    LetterIndex(Six(t, 0), '=');
    LetterIndex(Six(t, 1), '=');
    LetterIndex(Six(t, 2), '=');
    LetterIndex(Six(t, 3), '=');
  }

  lemma FullDecodes(s: string, a: byte, b: byte, c: byte)
    requires |s| == 4 && Index(s[0]) == Some(a / 4) && Index(s[1]) == Some(a % 4 * 16 + b / 16)
    requires Index(s[2]) == Some(b % 16 * 4 + c / 64) && Index(s[3]) == Some(c % 64)
    ensures DecodeFull(s) == Some([a, b, c])
  {
    Joined(a, b, c);
  }

  lemma TwoDecode(s: string, a: byte, b: byte)
    requires |s| == 4 && Index(s[0]) == Some(a / 4) && Index(s[1]) == Some(a % 4 * 16 + b / 16)
    requires s[2] != '=' && Index(s[2]) == Some(b % 16 * 4) && s[3] == '='
    ensures DecodePadded(s) == Some([a, b])
  {
    Joined(a, b, 0);
  }

  lemma OneDecodes(s: string, a: byte)
    requires |s| == 4 && Index(s[0]) == Some(a / 4) && Index(s[1]) == Some(a % 4 * 16) && s[2] == s[3] == '='
    ensures DecodePadded(s) == Some([a])
  {
    Joined(a, 0, 0);
  }

  /** An unpadded group decodes in front of whatever decodes after it. */
  lemma DecodeGroup(quad: string, rest: string, data: Bytes, more: Bytes)
    requires |quad| == 4 && quad[3] != '=' && DecodeFull(quad) == Some(data) && Decode(rest) == Some(more)
    ensures Decode(quad + rest) == Some(data + more)
  {
    var s := quad + rest;
    assert s[4..] == rest;
    assert DecodeFull(s) == DecodeFull(quad);
  }

  lemma ShortDecodes(data: Bytes)
    requires 1 <= |data| <= 2
    ensures Decode(Quad(data)) == Some(data)
  {
    QuadLetters(data);
    if |data| == 1 {
      OneDecodes(Quad(data), data[0]);
      assert data == [data[0]];
    } else {
      TwoDecode(Quad(data), data[0], data[1]);
      assert data == [data[0], data[1]];
    }
  }

  lemma LongDecodes(data: Bytes)
    requires |data| >= 3
    ensures DecodeFull(Quad(data)) == Some(data[..3]) && Quad(data)[3] != '='
  {
    QuadLetters(data);
    FullDecodes(Quad(data), data[0], data[1], data[2]);
    assert data[..3] == [data[0], data[1], data[2]];
  }

  /** Decoding returns the data, for every length. */
  lemma {:induction false} DecodeEncode(data: Bytes)
    ensures Decode(Encode(data)) == Some(data)
    decreases |data|
  {
    if 1 <= |data| <= 2 {
      ShortDecodes(data);
      assert Quad(data) + "" == Quad(data);
    } else if data != [] {
      var rest := if |data| > 3 then data[3..] else [];
      LongDecodes(data);
      DecodeEncode(rest);
      DecodeGroup(Quad(data), Encode(rest), data[..3], rest);
      assert data == data[..3] + rest;
    }
  }
}
