/**
 JSON printing of strings and string maps, against decoders written from RFC 8259: strings per section 7, objects per
 section 4. Text is a byte string; bytes from 0x80 on are parts of UTF-8 sequences and pass through.
 */
module Json {
  import opened Bytes
  import opened Sequences

  const QUOTE: byte := 0x22
  const BACKSLASH: byte := 0x5c

  // ---------- printing strings ----------

  function HexDigit(n: int): byte
    requires 0 <= n < 16
  {
    if n < 10 then 0x30 + n else 0x61 + n - 10
  }

  /** Hexadecimal digits are written in lower case. */
  lemma HexDigitIs(n: int)
    requires 0 <= n < 16
    ensures HexDigit(n) == "0123456789abcdef"[n] as int
  {
  }

  /** What jsonEscape writes for one byte. */
  function Escape(b: byte): Bytes {
    match b
    case 0x22 => [BACKSLASH, QUOTE]
    case 0x5c => [BACKSLASH, BACKSLASH]
    case 0x08 => [BACKSLASH, 0x62]
    case 0x0c => [BACKSLASH, 0x66]
    case 0x0a => [BACKSLASH, 0x6e]
    case 0x0d => [BACKSLASH, 0x72]
    case 0x09 => [BACKSLASH, 0x74]
    case _ =>
      if b < 0x20 then [BACKSLASH, 0x75, 0x30, 0x30, HexDigit(b / 16), HexDigit(b % 16)] else [b]
  }

  /** A byte is written as itself if it can be, else with a two-character escape if there is one, else in hexadecimal. */
  lemma EscapeIsShortest(b: byte)
    ensures |Escape(b)| == if b >= 0x20 && b != QUOTE && b != BACKSLASH then 1
                           else if b in [0x22, 0x5c, 0x08, 0x0c, 0x0a, 0x0d, 0x09] then 2 else 6
  {
  }

  function Escaped(value: Bytes): Bytes {
    if value == [] then [] else Escape(value[0]) + Escaped(value[1..])
  }

  function Quoted(value: Bytes): Bytes {
    [QUOTE] + Escaped(value) + [QUOTE]
  }

  /** The loop of jsonEscape. */
  method JsonEscape(value: Bytes) returns (out: Bytes)
    ensures out == Escaped(value) && NoControl(out)
  {
    out := [];
    for i := 0 to |value|
      invariant Escaped(value) == out + Escaped(value[i..]) && NoControl(out)
    {
      EscapedStep(out, value, i);
      out := out + Escape(value[i]);
    }
    assert value[|value|..] == [];
  }

  predicate NoControl(s: Bytes) {
    forall i :: 0 <= i < |s| ==> s[i] >= 0x20
  }

  lemma EscapedStep(out: Bytes, value: Bytes, i: nat)
    requires i < |value| && NoControl(out)
    ensures out + Escaped(value[i..]) == out + Escape(value[i]) + Escaped(value[i + 1..])
    ensures NoControl(out + Escape(value[i]))
  {
    assert value[i..][1..] == value[i + 1..];
    Regroup(out, Escape(value[i]), Escaped(value[i + 1..]));
    EscapeNoControl(value[i]);
    NoControlConcat(out, Escape(value[i]));
  }

  lemma EscapeNoControl(b: byte)
    ensures NoControl(Escape(b))
  {
  }

  lemma NoControlConcat(a: Bytes, b: Bytes)
    requires NoControl(a) && NoControl(b)
    ensures NoControl(a + b)
  {
  }

  // ---------- decoding strings, section 7 ----------

  function HexValue(b: byte): (r: Option<int>)
    ensures r.Some? ==> 0 <= r.value < 16
  {
    if 0x30 <= b <= 0x39 then Some(b - 0x30)
    else if 0x61 <= b <= 0x66 then Some(b - 0x61 + 10)
    else if 0x41 <= b <= 0x46 then Some(b - 0x41 + 10)
    else None
  }

  function Quad(a: int, b: int, c: int, d: int): (r: int)
    requires 0 <= a < 16 && 0 <= b < 16 && 0 <= c < 16 && 0 <= d < 16
    ensures 0 <= r < 65536
  {
    a * 4096 + b * 256 + c * 16 + d
  }

  /** Four hexadecimal digits. */
  function HexQuad(s: Bytes): (r: Option<int>)
    requires |s| >= 4
    ensures r.Some? ==> 0 <= r.value < 65536
  {
    var a, b, c, d := HexValue(s[0]), HexValue(s[1]), HexValue(s[2]), HexValue(s[3]);
    if a.Some? && b.Some? && c.Some? && d.Some? then
      Some(Quad(a.value, b.value, c.value, d.value))
    else None
  }

  function Utf8(c: int): Bytes
    requires 0 <= c < 0x110000
  {
    if c < 0x80 then [c]
    else if c < 0x800 then [0xc0 + c / 64, 0x80 + c % 64]
    else if c < 0x10000 then [0xe0 + c / 4096, 0x80 + c / 64 % 64, 0x80 + c % 64]
    else [0xf0 + c / 262144, 0x80 + c / 4096 % 64, 0x80 + c / 64 % 64, 0x80 + c % 64]
  }

  /** A \u escape, its digits first in s: a character, or both halves of a surrogate pair. */
  function DecodeUnicode(s: Bytes): (r: Option<(Bytes, Bytes)>)
    ensures r.Some? ==> |r.value.1| < |s|
  {
    if |s| < 4 || HexQuad(s).None? then None
    else
      var hi := HexQuad(s).value;
      if hi < 0xd800 || hi >= 0xe000 then Some((Utf8(hi), s[4..]))
      else if hi >= 0xdc00 || |s| < 10 || s[4] != BACKSLASH || s[5] != 0x75 || HexQuad(s[6..]).None? then None
      else
        var lo := HexQuad(s[6..]).value;
        if lo < 0xdc00 || lo >= 0xe000 then None
        else Some((Utf8(0x10000 + (hi - 0xd800) * 0x400 + (lo - 0xdc00)), s[10..]))
  }

  function SimpleEscape(b: byte): Option<byte> {
    match b
    case 0x22 => Some(0x22)
    case 0x5c => Some(0x5c)
    case 0x2f => Some(0x2f)
    case 0x62 => Some(0x08)
    case 0x66 => Some(0x0c)
    case 0x6e => Some(0x0a)
    case 0x72 => Some(0x0d)
    case 0x74 => Some(0x09)
    case _ => None
  }

  /** One character of a string body: its bytes and what follows. Raw quotes and control bytes are no characters. */
  function DecodeChar(s: Bytes): (r: Option<(Bytes, Bytes)>)
    ensures r.Some? ==> |r.value.1| < |s|
  {
    if s == [] || s[0] == QUOTE || s[0] < 0x20 then None
    else if s[0] != BACKSLASH then Some(([s[0]], s[1..]))
    else if |s| < 2 then None
    else if s[1] == 0x75 then DecodeUnicode(s[2..])
    else
      match SimpleEscape(s[1])
      case Some(b) => Some(([b], s[2..]))
      case None => None
  }

  /** A string body up to its closing quote: the value and the text after the quote. */
  function DecodeBody(s: Bytes): (r: Option<(Bytes, Bytes)>)
    ensures r.Some? ==> |r.value.1| < |s|
    decreases |s|
  {
    if s != [] && s[0] == QUOTE then Some(([], s[1..]))
    else
      match DecodeChar(s)
      case None => None
      case Some((c, rest)) =>
        match DecodeBody(rest)
        case None => None
        case Some((value, after)) => Some((c + value, after))
  }

  function DecodeString(s: Bytes): (r: Option<(Bytes, Bytes)>)
    ensures r.Some? ==> |r.value.1| < |s|
  {
    if s != [] && s[0] == QUOTE then DecodeBody(s[1..]) else None
  }

  lemma DecodeEscape(b: byte, rest: Bytes)
    ensures Escape(b)[0] != QUOTE
    ensures DecodeChar(Escape(b) + rest) == Some(([b], rest))
  {
    var s := Escape(b) + rest;
    if |Escape(b)| == 6 {
      assert s[2..] == [0x30, 0x30, HexDigit(b / 16), HexDigit(b % 16)] + rest;
      assert s[2..][4..] == rest;
    } else {
      assert s[|Escape(b)|..] == rest;
    }
  }

  lemma {:induction false} DecodeEscaped(value: Bytes, rest: Bytes)
    ensures DecodeBody(Escaped(value) + [QUOTE] + rest) == Some((value, rest))
    decreases value
  {
    if value == [] {
      assert (Escaped(value) + [QUOTE] + rest)[1..] == rest;
    } else {
      var more := Escaped(value[1..]) + [QUOTE] + rest;
      assert Escaped(value) + [QUOTE] + rest == Escape(value[0]) + more;
      DecodeEscape(value[0], more);
      DecodeEscaped(value[1..], rest);
      assert [value[0]] + value[1..] == value;
    }
  }

  /** Decoding a printed string returns it, for every byte string and whatever follows. */
  lemma DecodeQuoted(value: Bytes, rest: Bytes)
    ensures DecodeString(Quoted(value) + rest) == Some((value, rest))
  {
    assert (Quoted(value) + rest)[1..] == Escaped(value) + [QUOTE] + rest;
    DecodeEscaped(value, rest);
  }

  // ---------- printing maps ----------

  type Fields = map<Bytes, Bytes>

  const COMMA: byte := 0x2c
  const COLON: byte := 0x3a
  const OPEN: byte := 0x7b
  const CLOSE: byte := 0x7d

  /** std::string order: bytes compare as unsigned characters. */
  predicate Less(a: Bytes, b: Bytes) {
    b != [] && (a == [] || a[0] < b[0] || (a[0] == b[0] && Less(a[1..], b[1..])))
  }

  predicate Sorted(keys: seq<Bytes>) {
    forall i, j :: 0 <= i < j < |keys| ==> Less(keys[i], keys[j])
  }

  function Member(key: Bytes, fields: Fields): Bytes
    requires key in fields
  {
    Quoted(key) + [COLON] + Quoted(fields[key])
  }

  /** Members from key i on, each after the first preceded by a comma. */
  function MembersFrom(keys: seq<Bytes>, fields: Fields, first: bool): Bytes
    requires forall k :: k in keys ==> k in fields
    decreases keys
  {
    if keys == [] then []
    else (if first then [] else [COMMA]) + Member(keys[0], fields) + MembersFrom(keys[1..], fields, false)
  }

  function ObjectText(keys: seq<Bytes>, fields: Fields): Bytes
    requires forall k :: k in keys ==> k in fields
  {
    [OPEN] + MembersFrom(keys, fields, true) + [CLOSE]
  }

  lemma {:induction false} LessIrreflexive(a: Bytes)
    ensures !Less(a, a)
    decreases a
  {
    if a != [] { LessIrreflexive(a[1..]); }
  }

  lemma {:induction false} LessTotal(a: Bytes, b: Bytes)
    ensures a == b || Less(a, b) || Less(b, a)
    ensures !(Less(a, b) && Less(b, a))
    decreases a
  {
    if a != [] && b != [] {
      LessTotal(a[1..], b[1..]);
      assert a == [a[0]] + a[1..] && b == [b[0]] + b[1..];
    }
  }

  lemma {:induction false} LessTransitive(a: Bytes, b: Bytes, c: Bytes)
    requires Less(a, b) && Less(b, c)
    ensures Less(a, c)
    decreases b
  {
    if a != [] && a[0] == b[0] == c[0] {
      LessTransitive(a[1..], b[1..], c[1..]);
    }
  }

  /** Stands for std::sort: puts one more key into a sorted sequence. */
  method InsertKey(keys: seq<Bytes>, key: Bytes) returns (out: seq<Bytes>)
    requires Sorted(keys) && key !in keys
    ensures Sorted(out) && forall k :: k in out <==> k in keys || k == key
  {
    var at := 0;
    while at < |keys| && !Less(key, keys[at])
      invariant at <= |keys|
      invariant forall i :: 0 <= i < at ==> Less(keys[i], key)
    {
      LessTotal(key, keys[at]);
      at := at + 1;
    }
    forall j | at <= j < |keys|
      ensures Less(key, keys[j])
    {
      if at < j { LessTransitive(key, keys[at], keys[j]); }
    }
    out := keys[..at] + [key] + keys[at..];
    assert keys == keys[..at] + keys[at..];
  }

  method SortedKeys(fields: Fields) returns (keys: seq<Bytes>)
    ensures Sorted(keys) && forall k :: k in keys <==> k in fields
  {
    keys := [];
    var rest := fields.Keys;
    while rest != {}
      invariant rest <= fields.Keys
      invariant Sorted(keys) && forall k :: k in keys <==> k in fields && k !in rest
      decreases rest
    {
      var key :| key in rest;
      keys := InsertKey(keys, key);
      rest := rest - {key};
    }
  }

  /** A set has one sorted listing, so the printed text cannot depend on the map's iteration order. */
  lemma {:induction false} SortedUnique(a: seq<Bytes>, b: seq<Bytes>)
    requires Sorted(a) && Sorted(b) && forall k :: k in a <==> k in b
    ensures a == b
    decreases a
  {
    assert b != [] ==> b[0] in b;
    if a != [] {
      assert a[0] in b && b != [] && b[0] in a;
      FirstIsLeast(a, b);
      Tails(a, b);
      SortedUnique(a[1..], b[1..]);
      assert a == [a[0]] + a[1..] && b == [b[0]] + b[1..];
    }
  }

  lemma FirstIsLeast(a: seq<Bytes>, b: seq<Bytes>)
    requires Sorted(a) && Sorted(b) && a != [] && b != [] && a[0] in b && b[0] in a
    ensures a[0] == b[0]
  {
    var i :| 0 <= i < |b| && b[i] == a[0];
    var j :| 0 <= j < |a| && a[j] == b[0];
    LessTotal(a[0], b[0]);
  }

  lemma Tails(a: seq<Bytes>, b: seq<Bytes>)
    requires Sorted(a) && Sorted(b) && a != [] && b != [] && a[0] == b[0] && forall k :: k in a <==> k in b
    ensures forall k :: k in a[1..] <==> k in b[1..]
  {
    HeadOnce(a);
    HeadOnce(b);
  }

  lemma HeadOnce(a: seq<Bytes>)
    requires Sorted(a) && a != []
    ensures forall k :: k in a[1..] <==> k in a && k != a[0]
  {
    LessIrreflexive(a[0]);
    assert a == [a[0]] + a[1..];
    assert forall j :: 0 <= j < |a[1..]| ==> a[1..][j] == a[j + 1];
  }

  /** fieldsJson and jsonFields: the text is that of the sorted keys, whichever order the map yields them in. */
  method FieldsJson(fields: Fields) returns (out: Bytes, ghost keys: seq<Bytes>)
    ensures Sorted(keys) && forall k :: k in keys <==> k in fields
    ensures out == ObjectText(keys, fields) && ParseObject(out) == Some((fields, []))
  {
    var sorted := SortedKeys(fields);
    keys := sorted;
    out := [OPEN];
    var first := true;
    for i := 0 to |sorted|
      invariant out + MembersFrom(sorted[i..], fields, first) == [OPEN] + MembersFrom(sorted, fields, true)
      invariant first == (i == 0)
    {
      assert sorted[i..][1..] == sorted[i + 1..];
      MembersStep(out, sorted[i..], fields, first);
      if !first {
        out := out + [COMMA];
      }
      first := false;
      out := out + Member(sorted[i], fields);
    }
    assert sorted[|sorted|..] == [];
    out := out + [CLOSE];
    assert out + [] == out;
    ParseInvertsPrint(sorted, fields, []);
  }

  lemma MembersStep(out: Bytes, keys: seq<Bytes>, fields: Fields, first: bool)
    requires keys != [] && forall k :: k in keys ==> k in fields
    ensures out + MembersFrom(keys, fields, first) ==
            (if first then out else out + [COMMA]) + Member(keys[0], fields) + MembersFrom(keys[1..], fields, false)
  {
    Append(out, if first then [] else [COMMA], Member(keys[0], fields), MembersFrom(keys[1..], fields, false));
  }

  lemma Append<T>(out: seq<T>, x: seq<T>, m: seq<T>, f: seq<T>)
    ensures out + (x + m + f) == (if x == [] then out else out + x) + m + f
  {
  }

  // ---------- parsing maps, section 4 ----------

  predicate IsWs(b: byte) {
    b == 0x20 || b == 0x09 || b == 0x0a || b == 0x0d
  }

  function SkipWs(s: Bytes): (r: Bytes)
    ensures |r| <= |s|
  {
    if s != [] && IsWs(s[0]) then SkipWs(s[1..]) else s
  }

  /** ws string ws ':' ws string ws */
  function ParseMember(s: Bytes): (r: Option<(Bytes, Bytes, Bytes)>)
    ensures r.Some? ==> |r.value.2| < |s|
  {
    match DecodeString(SkipWs(s))
    case None => None
    case Some((key, s1)) =>
      var s2 := SkipWs(s1);
      if s2 == [] || s2[0] != COLON then None
      else
        match DecodeString(SkipWs(s2[1..]))
        case None => None
        case Some((value, s3)) => Some((key, value, SkipWs(s3)))
  }

  /** One or more members up to the closing brace; the last of equal keys wins. */
  function ParseMembers(s: Bytes, fields: Fields): Option<(Fields, Bytes)>
    decreases |s|
  {
    match ParseMember(s)
    case None => None
    case Some((key, value, rest)) =>
      var fields' := fields[key := value];
      if rest == [] then None
      else if rest[0] == CLOSE then Some((fields', rest[1..]))
      else if rest[0] == COMMA then ParseMembers(rest[1..], fields')
      else None
  }

  function ParseObject(s: Bytes): Option<(Fields, Bytes)> {
    var t := SkipWs(s);
    if t == [] || t[0] != OPEN then None
    else
      var u := SkipWs(t[1..]);
      if u != [] && u[0] == CLOSE then Some((map[], u[1..])) else ParseMembers(t[1..], map[])
  }

  // ---------- parsing inverts printing ----------

  /** The entries of the listed keys, added to a map in list order. */
  function Gather(keys: seq<Bytes>, fields: Fields, onto: Fields): Fields
    requires forall k :: k in keys ==> k in fields
    decreases keys
  {
    if keys == [] then onto else Gather(keys[1..], fields, onto[keys[0] := fields[keys[0]]])
  }

  lemma {:induction false} GatherAll(keys: seq<Bytes>, fields: Fields, onto: Fields)
    requires forall k :: k in keys ==> k in fields
    requires forall k :: k in onto ==> k in fields && onto[k] == fields[k]
    ensures var r := Gather(keys, fields, onto);
            && (forall k :: k in r <==> k in keys || k in onto)
            && (forall k :: k in r ==> k in fields && r[k] == fields[k])
    decreases keys
  {
    if keys != [] {
      GatherAll(keys[1..], fields, onto[keys[0] := fields[keys[0]]]);
      assert forall k :: k in keys <==> k == keys[0] || k in keys[1..];
    }
  }

  lemma ParsePrintedMember(key: Bytes, fields: Fields, after: Bytes)
    requires key in fields && after != [] && !IsWs(after[0])
    ensures ParseMember(Member(key, fields) + after) == Some((key, fields[key], after))
  {
    var value := Quoted(fields[key]) + after;
    var tail := [COLON] + value;
    assert Member(key, fields) + after == Quoted(key) + tail;
    DecodeQuoted(key, tail);
    assert tail[1..] == value;
    DecodeQuoted(fields[key], after);
  }

  lemma {:induction false} ParsePrintedMembers(keys: seq<Bytes>, fields: Fields, onto: Fields, after: Bytes)
    requires keys != [] && forall k :: k in keys ==> k in fields
    ensures ParseMembers(MembersFrom(keys, fields, true) + [CLOSE] + after, onto) ==
            Some((Gather(keys, fields, onto), after))
    decreases keys
  {
    var rest := MembersTail(keys[1..], fields, after);
    SplitFirst(keys, fields, after);
    ParsePrintedMember(keys[0], fields, rest);
    if keys[1..] == [] {
      assert rest[1..] == after;
    } else {
      assert rest[1..] == MembersFrom(keys[1..], fields, true) + [CLOSE] + after;
      ParsePrintedMembers(keys[1..], fields, onto[keys[0] := fields[keys[0]]], after);
    }
  }

  /** What is printed after a member: the brace, or a comma and the other members. */
  function MembersTail(keys: seq<Bytes>, fields: Fields, after: Bytes): (r: Bytes)
    requires forall k :: k in keys ==> k in fields
    ensures r != [] && !IsWs(r[0])
  {
    if keys == [] then [CLOSE] + after else [COMMA] + (MembersFrom(keys, fields, true) + [CLOSE] + after)
  }

  lemma SplitFirst(keys: seq<Bytes>, fields: Fields, after: Bytes)
    requires keys != [] && forall k :: k in keys ==> k in fields
    ensures MembersFrom(keys, fields, true) + [CLOSE] + after == Member(keys[0], fields) + MembersTail(keys[1..], fields, after)
  {
    var rest := keys[1..];
    GlueFirst(Member(keys[0], fields), MembersFrom(rest, fields, false), [CLOSE], after);
    if rest == [] {
      assert [] + [CLOSE] + after == [CLOSE] + after;
    } else {
      GlueComma(COMMA, Member(rest[0], fields), MembersFrom(rest[1..], fields, false), [CLOSE], after);
    }
  }

  lemma GlueFirst<T>(m: seq<T>, f: seq<T>, c: seq<T>, after: seq<T>)
    ensures [] + m + f + c + after == m + (f + c + after)
  {
  }

  lemma GlueComma<T>(x: T, m: seq<T>, f: seq<T>, c: seq<T>, after: seq<T>)
    ensures [x] + m + f + c + after == [x] + ([] + m + f + c + after)
  {
  }

  /** Parsing a printed map returns the map, whatever follows it. */
  lemma ParseInvertsPrint(keys: seq<Bytes>, fields: Fields, after: Bytes)
    requires forall k :: k in keys <==> k in fields
    ensures ParseObject(ObjectText(keys, fields) + after) == Some((fields, after))
  {
    var s := ObjectText(keys, fields) + after;
    var t := MembersFrom(keys, fields, true) + [CLOSE] + after;
    assert s == [OPEN] + t;
    GatherAll(keys, fields, map[]);
    assert Gather(keys, fields, map[]) == fields;
    FirstByte(keys, fields, after);
    OpenObject(t);
    if keys == [] {
      assert t[1..] == after;
    } else {
      ParsePrintedMembers(keys, fields, map[], after);
    }
  }

  lemma FirstByte(keys: seq<Bytes>, fields: Fields, after: Bytes)
    requires forall k :: k in keys ==> k in fields
    ensures var t := MembersFrom(keys, fields, true) + [CLOSE] + after; t != [] && t[0] == if keys == [] then CLOSE else QUOTE
  {
    if keys != [] { assert Member(keys[0], fields)[0] == QUOTE; }
  }

  lemma OpenObject(t: Bytes)
    requires t != [] && !IsWs(t[0])
    ensures ParseObject([OPEN] + t) == if t[0] == CLOSE then Some((map[], t[1..])) else ParseMembers(t, map[])
  {
    assert ([OPEN] + t)[1..] == t;
  }
}
