/**
 The key=value parser behind every telemetry line: `ts=1767000000 mac=AA:BB host="my desk" csv=...`.
 It inverts printing, whatever the spacing, whatever words stand between the fields.
 */
module KeyValue {
  import opened Sequences
  import opened Text

  type Fields = map<string, string>

  // ---------- scanning ----------

  function SpaceChar(): char -> bool {
    c => IsSpace(c)
  }

  function WordChar(): char -> bool {
    c => !IsSpace(c)
  }

  function KeyChar(): char -> bool {
    c => c != '=' && !IsSpace(c)
  }

  function Unquoted(quote: char): char -> bool {
    c => c != quote
  }

  /** Length of the longest prefix of p-characters. */
  function Span(s: string, p: char -> bool): (n: nat)
    ensures n <= |s| && (forall i :: 0 <= i < n ==> p(s[i])) && (n < |s| ==> !p(s[n]))
  {
    if s == "" || !p(s[0]) then 0 else 1 + Span(s[1..], p)
  }

  lemma {:induction false} SpanIs(a: string, b: string, p: char -> bool)
    requires (forall i :: 0 <= i < |a| ==> p(a[i])) && (b == "" || !p(b[0]))
    ensures Span(a + b, p) == |a|
    decreases a
  {
    if a == "" {
      assert a + b == b;
    } else {
      assert (a + b)[1..] == a[1..] + b;
      SpanIs(a[1..], b, p);
    }
  }

  lemma {:induction false} SpanResumes(s: string, k: nat, p: char -> bool)
    requires k <= |s| && forall i :: 0 <= i < k ==> p(s[i])
    ensures Span(s, p) == k + Span(s[k..], p)
    decreases k
  {
    if k == 0 {
      assert s[0..] == s;
    } else {
      SpanResumes(s[1..], k - 1, p);
      assert s[1..][k - 1..] == s[k..];
    }
  }

  /** Each of the scanning loops: advance while the predicate holds. */
  method Scan(value: string, start: nat, p: char -> bool) returns (pos: nat)
    requires start <= |value|
    ensures pos == start + Span(value[start..], p)
  {
    pos := start;
    while pos < |value| && p(value[pos])
      invariant start <= pos <= |value|
      invariant pos + Span(value[pos..], p) == start + Span(value[start..], p)
      decreases |value| - pos
    {
      assert value[pos..][1..] == value[pos + 1..];
      pos := pos + 1;
    }
  }

  // ---------- parsing ----------

  predicate IsQuote(c: char) {
    c == '"' || c == '\''
  }

  /** The value after a '=' and the text that follows it. */
  function ReadValue(s: string): (string, string) {
    if s != "" && IsQuote(s[0]) then
      var n := Span(s[1..], Unquoted(s[0]));
      (s[1..][..n], if n < |s[1..]| then s[1..][n + 1..] else "")
    else
      var n := Span(s, WordChar());
      (s[..n], s[n..])
  }

  /** A key whose '=' is followed by the text s: a csv field takes all of it. */
  function Field(key: string, s: string, fields: Fields): (r: (Fields, string))
    ensures |r.1| <= |s|
  {
    if key == "csv" then (fields[key := Trim(s)], "") else (fields[key := ReadValue(s).0], ReadValue(s).1)
  }

  /** One round of the parser on a text that starts with a non-space: the fields and the text still to parse. */
  function Round(s: string, fields: Fields): (r: (Fields, string))
    requires s != "" && !IsSpace(s[0])
    ensures |r.1| < |s|
  {
    var k := Span(s, KeyChar());
    if k == |s| || s[k] != '=' then (fields, s[Span(s, WordChar())..])
    else Field(s[..k], s[k + 1..], fields)
  }

  function Unindented(s: string): string {
    s[Span(s, SpaceChar())..]
  }

  function Parse(s: string, fields: Fields): Fields
    decreases |s|
  {
    if Unindented(s) == "" then fields
    else var (fields', rest) := Round(Unindented(s), fields); Parse(rest, fields')
  }

  /** parseKeyValueFields; the position strictly advances every round. */
  method ParseKeyValueFields(value: string) returns (fields: Fields)
    ensures fields == Parse(value, map[])
  {
    fields := map[];
    var pos := 0;
    assert value[0..] == value;
    while pos < |value|
      invariant 0 <= pos <= |value|
      invariant Parse(value, map[]) == Parse(value[pos..], fields)
      decreases |value| - pos
    {
      fields, pos := ScanRound(value, pos, fields);
    }
  }

  /** The loop body: skip spaces, then one field or word, if any is left. */
  method ScanRound(value: string, start: nat, fields: Fields) returns (out: Fields, pos: nat)
    requires start < |value|
    ensures start < pos <= |value| && Parse(value[start..], fields) == Parse(value[pos..], out)
  {
    out := fields;
    pos := Scan(value, start, SpaceChar());
    Slices(value, start, pos - start);
    if pos >= |value| {
      ParseDone(value[start..], fields);
      return;
    }
    ParseRound(value[start..], value[pos..], fields);
    out, pos := ScanField(value, pos, fields);
  }

  lemma ParseDone(s: string, fields: Fields)
    requires Unindented(s) == ""
    ensures Parse(s, fields) == fields
  {
  }

  lemma ParseRound(s: string, t: string, fields: Fields)
    requires t == Unindented(s) && t != ""
    ensures !IsSpace(t[0]) && var r := Round(t, fields); Parse(s, fields) == Parse(r.1, r.0)
  {
  }

  /** One round: a word to skip, a csv tail, or a key and its value. */
  method ScanField(value: string, keyBegin: nat, fields: Fields) returns (out: Fields, pos: nat)
    requires keyBegin < |value| && !IsSpace(value[keyBegin])
    ensures keyBegin < pos <= |value|
    ensures var r := Round(value[keyBegin..], fields); out == r.0 && value[pos..] == r.1
  {
    pos := Scan(value, keyBegin, KeyChar());
    if pos >= |value| || value[pos] != '=' {
      pos := SkipRound(value, keyBegin, pos, fields);
      out := fields;
    } else {
      out, pos := TakeRound(value, keyBegin, pos, fields);
    }
  }

  method SkipRound(value: string, begin: nat, from: nat, ghost fields: Fields) returns (pos: nat)
    requires begin < |value| && !IsSpace(value[begin]) && from == begin + Span(value[begin..], KeyChar())
    requires from >= |value| || value[from] != '='
    ensures begin < pos <= |value|
    ensures var r := Round(value[begin..], fields); fields == r.0 && value[pos..] == r.1
  {
    RoundSkips(value[begin..], fields);
    pos := SkipWord(value, begin, from);
  }

  method TakeRound(value: string, begin: nat, from: nat, fields: Fields) returns (out: Fields, pos: nat)
    requires begin <= from < |value| && !IsSpace(value[begin]) && from == begin + Span(value[begin..], KeyChar())
    requires value[from] == '='
    ensures begin < pos <= |value|
    ensures var r := Round(value[begin..], fields); out == r.0 && value[pos..] == r.1
  {
    var key := value[begin..from];
    RoundTakesAt(value, begin, from, fields);
    out, pos := TakeField(value, key, from + 1, fields);
  }

  lemma RoundSkips(s: string, fields: Fields)
    requires s != "" && !IsSpace(s[0])
    requires var k := Span(s, KeyChar()); k == |s| || s[k] != '='
    ensures Round(s, fields) == (fields, s[Span(s, WordChar())..])
  {
  }

  lemma RoundTakes(s: string, key: string, rest: string, fields: Fields)
    requires s != "" && !IsSpace(s[0])
    requires var k := Span(s, KeyChar()); k < |s| && s[k] == '=' && key == s[..k] && rest == s[k + 1..]
    ensures Round(s, fields) == Field(key, rest, fields)
  {
  }

  lemma RoundTakesAt(value: string, begin: nat, pos: nat, fields: Fields)
    requires begin <= pos < |value| && value[pos] == '=' && !IsSpace(value[begin])
    requires pos == begin + Span(value[begin..], KeyChar())
    ensures Round(value[begin..], fields) == Field(value[begin..pos], value[pos + 1..], fields)
  {
    Slices(value, begin, pos - begin);
    Slices(value, begin, pos - begin + 1);
    RoundTakes(value[begin..], value[begin..pos], value[pos + 1..], fields);
  }

  /** The rest of a word that is no field. */
  method SkipWord(value: string, begin: nat, from: nat) returns (pos: nat)
    requires begin <= from <= |value| && forall i :: begin <= i < from ==> !IsSpace(value[i])
    ensures pos == begin + Span(value[begin..], WordChar()) && value[pos..] == value[begin..][pos - begin..]
  {
    Slices(value, begin, from - begin);
    SpanResumes(value[begin..], from - begin, WordChar());
    pos := Scan(value, from, WordChar());
    Slices(value, begin, pos - begin);
  }

  lemma Slices<T>(v: seq<T>, a: nat, b: nat)
    requires a + b <= |v|
    ensures v[a..][b..] == v[a + b..] && v[a..][..b] == v[a..a + b]
  {
  }

  method TakeField(value: string, key: string, start: nat, fields: Fields) returns (out: Fields, pos: nat)
    requires start <= |value|
    ensures start <= pos <= |value|
    ensures var r := Field(key, value[start..], fields); out == r.0 && value[pos..] == r.1
  {
    if key == "csv" {
      var text := TrimText(value[start..]);
      out, pos := fields[key := text], |value|;
      assert value[pos..] == "";
    } else {
      var parsed;
      parsed, pos := ScanValue(value, start);
      out := fields[key := parsed];
    }
  }

  /** The quoted and the bare branch of the value scan. */
  method ScanValue(value: string, start: nat) returns (parsed: string, pos: nat)
    requires start <= |value|
    ensures start <= pos <= |value|
    ensures parsed == ReadValue(value[start..]).0 && value[pos..] == ReadValue(value[start..]).1
  {
    pos := start;
    ghost var s := value[start..];
    if pos < |value| && IsQuote(value[pos]) {
      var quote := value[pos];
      pos := pos + 1;
      var begin := pos;
      assert value[begin..] == s[1..];
      pos := Scan(value, pos, Unquoted(quote));
      parsed := value[begin..pos];
      ghost var n := pos - begin;
      assert parsed == s[1..][..n];
      if pos < |value| && value[pos] == quote {
        pos := pos + 1;
        assert value[pos..] == s[1..][n + 1..];
      } else {
        assert n == |s[1..]| && value[pos..] == "";
      }
    } else {
      pos := Scan(value, pos, WordChar());
      parsed := value[start..pos];
      assert parsed == s[..pos - start] && value[pos..] == s[pos - start..];
    }
  }

  // ---------- printing ----------

  /** What can stand on a line: a word that is no field, a bare field, a quoted field. */
  datatype Item = Word(text: string) | Bare(key: string, value: string) | Quoted(key: string, quote: char, value: string)

  predicate LegalKey(key: string) {
    NoSpace(key) && '=' !in key && key != "csv"
  }

  predicate Legal(item: Item) {
    match item
    case Word(text) => text != "" && NoSpace(text) && '=' !in text
    case Bare(key, value) => LegalKey(key) && NoSpace(value) && (value == "" || (value[0] != '"' && value[0] != '\''))
    case Quoted(key, quote, value) => LegalKey(key) && (quote == '"' || quote == '\'') && quote !in value
  }

  function ItemText(item: Item): string {
    match item
    case Word(text) => text
    case Bare(key, value) => key + "=" + value
    case Quoted(key, quote, value) => key + "=" + [quote] + value + [quote]
  }

  function Apply(item: Item, fields: Fields): Fields {
    match item
    case Word(_) => fields
    case Bare(key, value) => fields[key := value]
    case Quoted(key, _, value) => fields[key := value]
  }

  /** Text that may follow the item: a closing quote ends a field, anything else needs a space. */
  predicate MayFollow(item: Item, after: string) {
    item.Quoted? || after == "" || IsSpace(after[0])
  }

  /** An item and the spacing before it. */
  datatype Piece = Piece(space: string, item: Item)

  function Line(pieces: seq<Piece>, after: string): string {
    if pieces == [] then after
    else pieces[0].space + ItemText(pieces[0].item) + Line(pieces[1..], after)
  }

  predicate Printable(pieces: seq<Piece>, after: string) {
    forall i :: 0 <= i < |pieces| ==>
                  && AllSpace(pieces[i].space) && Legal(pieces[i].item)
                  && MayFollow(pieces[i].item, Line(pieces[i + 1..], after))
  }

  /** The last field with a given key wins. */
  function LastWins(pieces: seq<Piece>, fields: Fields): Fields {
    if pieces == [] then fields else LastWins(pieces[1..], Apply(pieces[0].item, fields))
  }

  // ---------- parsing inverts printing ----------

  lemma ReadBare(value: string, after: string)
    requires NoSpace(value) && (value == "" || !IsQuote(value[0])) && (after == "" || IsSpace(after[0]))
    ensures ReadValue(value + after) == (value, after)
  {
    SpanIs(value, after, WordChar());
  }

  lemma ReadQuoted(quote: char, value: string, after: string)
    requires IsQuote(quote) && quote !in value
    ensures ReadValue([quote] + value + [quote] + after) == (value, after)
  {
    var s := [quote] + value + [quote] + after;
    assert s[1..] == value + ([quote] + after);
    SpanIs(value, [quote] + after, Unquoted(quote));
  }

  /** An unclosed quote takes the rest of the line. */
  lemma ReadUnclosed(quote: char, value: string)
    requires IsQuote(quote) && quote !in value
    ensures ReadValue([quote] + value) == (value, "")
  {
    assert ([quote] + value)[1..] == value + "";
    SpanIs(value, "", Unquoted(quote));
  }

  lemma RoundField(key: string, rest: string, fields: Fields)
    requires NoSpace(key) && '=' !in key
    ensures !IsSpace((key + "=" + rest)[0]) && Round(key + "=" + rest, fields) == Field(key, rest, fields)
  {
    var s := key + "=" + rest;
    assert s == key + ("=" + rest) && s[|key|] == '=';
    SpanIs(key, "=" + rest, KeyChar());
    assert s[..|key|] == key && s[|key| + 1..] == rest;
  }

  lemma RoundWord(text: string, after: string, fields: Fields)
    requires text != "" && NoSpace(text) && '=' !in text && (after == "" || IsSpace(after[0]))
    ensures Round(text + after, fields) == (fields, after)
  {
    SpanIs(text, after, KeyChar());
    SpanIs(text, after, WordChar());
  }

  lemma RoundItem(item: Item, after: string, fields: Fields)
    requires Legal(item) && MayFollow(item, after)
    ensures var s := ItemText(item) + after;
            s != "" && !IsSpace(s[0]) && Round(s, fields) == (Apply(item, fields), after)
  {
    match item
    case Word(text) => RoundWord(text, after, fields);
    case Bare(key, value) => RoundBare(key, value, after, fields);
    case Quoted(key, quote, value) => RoundQuoted(key, quote, value, after, fields);
  }

  lemma RoundBare(key: string, value: string, after: string, fields: Fields)
    requires Legal(Bare(key, value)) && MayFollow(Bare(key, value), after)
    ensures var s := key + "=" + value + after;
            !IsSpace(s[0]) && Round(s, fields) == (fields[key := value], after)
  {
    ReadBare(value, after);
    Regroup(key + "=", value, after);
    RoundField(key, value + after, fields);
  }

  lemma RoundQuoted(key: string, quote: char, value: string, after: string, fields: Fields)
    requires Legal(Quoted(key, quote, value))
    ensures var s := key + "=" + [quote] + value + [quote] + after;
            !IsSpace(s[0]) && Round(s, fields) == (fields[key := value], after)
  {
    ReadQuoted(quote, value, after);
    RegroupQuoted(key + "=", [quote], value, after);
    RoundField(key, [quote] + value + [quote] + after, fields);
  }

  lemma RegroupQuoted<T>(a: seq<T>, q: seq<T>, b: seq<T>, c: seq<T>)
    ensures a + q + b + q + c == a + (q + b + q + c)
  {
  }

  lemma ParsePiece(piece: Piece, after: string, fields: Fields)
    requires AllSpace(piece.space) && Legal(piece.item) && MayFollow(piece.item, after)
    ensures Parse(piece.space + ItemText(piece.item) + after, fields) == Parse(after, Apply(piece.item, fields))
  {
    var s := ItemText(piece.item) + after;
    RoundItem(piece.item, after, fields);
    assert piece.space + ItemText(piece.item) + after == piece.space + s;
    SpanIs(piece.space, s, SpaceChar());
    assert Unindented(piece.space + s) == s;
  }

  /** For any printable pieces, parsing reads back the last-wins map and stands at whatever follows them. */
  lemma {:induction false} ParsePieces(pieces: seq<Piece>, after: string, fields: Fields)
    requires Printable(pieces, after)
    ensures Parse(Line(pieces, after), fields) == Parse(after, LastWins(pieces, fields))
    decreases pieces
  {
    if pieces != [] {
      ParsePiece(pieces[0], Line(pieces[1..], after), fields);
      assert Printable(pieces[1..], after) by {
        assert forall i :: 0 <= i < |pieces[1..]| ==> pieces[1..][i] == pieces[i + 1] && pieces[1..][i + 1..] == pieces[i + 2..];
      }
      ParsePieces(pieces[1..], after, Apply(pieces[0].item, fields));
    }
  }

  /** A line of words and fields, with spacing anywhere: its fields come back. */
  lemma ParseInvertsPrint(pieces: seq<Piece>, trailing: string)
    requires AllSpace(trailing) && Printable(pieces, trailing)
    ensures Parse(Line(pieces, trailing), map[]) == LastWins(pieces, map[])
  {
    ParsePieces(pieces, trailing, map[]);
    SpanIs(trailing, "", SpaceChar());
    assert trailing + "" == trailing;
  }

  function CsvText(tail: string): string {
    "csv" + "=" + tail
  }

  /** A csv field swallows the rest of the line, trimmed. */
  lemma ParseCsvTail(pieces: seq<Piece>, space: string, tail: string)
    requires AllSpace(space) && Printable(pieces, space + CsvText(tail))
    ensures Parse(Line(pieces, space + CsvText(tail)), map[]) == LastWins(pieces, map[])["csv" := Trim(tail)]
  {
    ParsePieces(pieces, space + CsvText(tail), map[]);
    CsvRound(space, tail, LastWins(pieces, map[]));
  }

  lemma CsvRound(space: string, tail: string, fields: Fields)
    requires AllSpace(space)
    ensures Parse(space + CsvText(tail), fields) == fields["csv" := Trim(tail)]
  {
    RoundField("csv", tail, fields);
    var s := CsvText(tail);
    assert s[0] == 'c';
    SpanIs(space, s, SpaceChar());
    assert Unindented(space + s) == s;
  }
}
