/** The tags column: a comma-joined list, and the split that reads it back. */
module Tags {
  import opened Sequences
  import opened Text

  function Join(tags: seq<string>): string {
    if tags == [] then "" else if |tags| == 1 then tags[0] else tags[0] + "," + Join(tags[1..])
  }

  /** Position of the first delimiter, or the length. */
  function Find(s: string, c: char): (k: nat)
    ensures k <= |s| && c !in s[..k] && (k < |s| ==> s[k] == c)
  {
    if s == "" || s[0] == c then 0 else 1 + Find(s[1..], c)
  }

  function Split(s: string, c: char): seq<string> {
    var k := Find(s, c);
    if k == |s| then [s] else [s[..k]] + Split(s[k + 1..], c)
  }

  /** The pieces, trimmed, without the empty ones. */
  function Pieces(items: seq<string>): seq<string> {
    if items == [] then [] else (if Trim(items[0]) == "" then [] else [Trim(items[0])]) + Pieces(items[1..])
  }

  function Parse(s: string): seq<string> {
    Pieces(Split(s, ','))
  }

  // ---------- the loops ----------

  method TagsText(tags: seq<string>) returns (out: string)
    ensures out == Join(tags)
  {
    out := "";
    for i := 0 to |tags|
      invariant Join(tags) == if i == 0 then Join(tags[i..]) else if i == |tags| then out else out + "," + Join(tags[i..])
      invariant i == 0 ==> out == ""
    {
      assert tags[i..][1..] == tags[i + 1..];
      if i != 0 {
        out := out + ",";
      }
      out := out + tags[i];
    }
  }

  method SplitText(value: string, delimiter: char) returns (out: seq<string>)
    ensures out == Split(value, delimiter)
  {
    out := [];
    var start := 0;
    assert value[0..] == value;
    while start <= |value|
      invariant 0 <= start <= |value|
      invariant Split(value, delimiter) == out + Split(value[start..], delimiter)
      decreases |value| - start
    {
      var pos := start + Find(value[start..], delimiter);
      if pos == |value| {
        out := out + [value[start..]];
        return;
      }
      assert value[start..][..pos - start] == value[start..pos] && value[start..][pos - start + 1..] == value[pos + 1..];
      Regroup(out, [value[start..pos]], Split(value[pos + 1..], delimiter));
      out := out + [value[start..pos]];
      start := pos + 1;
    }
  }

  method ParseTags(value: string) returns (out: seq<string>)
    ensures out == Parse(value)
  {
    out := [];
    var items := SplitText(value, ',');
    for i := 0 to |items|
      invariant Pieces(items) == out + Pieces(items[i..])
    {
      assert items[i..][1..] == items[i + 1..];
      var item := TrimText(items[i]);
      if item != "" {
        out := out + [item];
      }
    }
    assert items[|items|..] == [];
  }

  // ---------- round trip ----------

  predicate GoodTag(tag: string) {
    tag != "" && ',' !in tag && Trimmed(tag)
  }

  lemma {:induction false} FindAfter(a: string, b: string, c: char)
    requires c !in a
    ensures Find(a + b, c) == |a| + Find(b, c)
    decreases a
  {
    if a == "" {
      assert a + b == b;
    } else {
      assert (a + b)[1..] == a[1..] + b;
      FindAfter(a[1..], b, c);
    }
  }

  lemma {:induction false} SplitJoin(tags: seq<string>)
    requires tags != [] && forall i :: 0 <= i < |tags| ==> ',' !in tags[i]
    ensures Split(Join(tags), ',') == tags
    decreases tags
  {
    if |tags| == 1 {
      FindAfter(tags[0], "", ',');
      assert tags[0] + "" == tags[0];
    } else {
      var rest := "," + Join(tags[1..]);
      assert Join(tags) == tags[0] + rest;
      FindAfter(tags[0], rest, ',');
      assert Join(tags)[..|tags[0]|] == tags[0] && Join(tags)[|tags[0]| + 1..] == Join(tags[1..]);
      SplitJoin(tags[1..]);
    }
  }

  lemma {:induction false} PiecesOfGood(tags: seq<string>)
    requires forall i :: 0 <= i < |tags| ==> GoodTag(tags[i])
    ensures Pieces(tags) == tags
    decreases tags
  {
    if tags != [] {
      TrimPadded("", tags[0], "");
      assert "" + tags[0] + "" == tags[0];
      PiecesOfGood(tags[1..]);
    }
  }

  lemma {:induction false} TrimGood(s: string)
    ensures Trimmed(Trim(s)) && (',' !in s ==> ',' !in Trim(s))
    decreases |s|
  {
    if s != "" {
      if IsSpace(s[0]) {
        TrimGood(s[1..]);
      } else if IsSpace(s[|s| - 1]) {
        TrimGood(s[..|s| - 1]);
      }
    }
  }

  lemma {:induction false} SplitCommaFree(s: string)
    ensures forall i :: 0 <= i < |Split(s, ',')| ==> ',' !in Split(s, ',')[i]
    decreases |s|
  {
    var k := Find(s, ',');
    if k < |s| {
      SplitCommaFree(s[k + 1..]);
    } else {
      assert s[..k] == s;
    }
  }

  lemma {:induction false} PiecesGood(items: seq<string>)
    requires forall i :: 0 <= i < |items| ==> ',' !in items[i]
    ensures forall i :: 0 <= i < |Pieces(items)| ==> GoodTag(Pieces(items)[i])
    decreases items
  {
    if items != [] {
      TrimGood(items[0]);
      PiecesGood(items[1..]);
    }
  }

  /** The column reads back as it was exactly when every tag is non-empty, trimmed and free of commas. */
  lemma RoundTrip(tags: seq<string>)
    ensures Parse(Join(tags)) == tags <==> forall i :: 0 <= i < |tags| ==> GoodTag(tags[i])
  {
    if forall i :: 0 <= i < |tags| ==> GoodTag(tags[i]) {
      if tags == [] {
        assert Split("", ',') == [""] && [""][1..] == [];
      } else {
        SplitJoin(tags);
        PiecesOfGood(tags);
      }
    }
    ParsedIsGood(Join(tags));
  }

  /** A tag with a comma comes back as two. */
  lemma CommaSplits(a: string, b: string)
    requires GoodTag(a) && GoodTag(b)
    ensures Parse(Join([a + "," + b])) == [a, b] != [a + "," + b]
  {
    assert Join([a, b]) == a + "," + b by { assert [a, b][1..] == [b]; }
    assert forall i :: 0 <= i < |[a, b]| ==> GoodTag([a, b][i]);
    RoundTrip([a, b]);
  }

  // ---------- characters that a text does not have ----------

  lemma {:induction false} TrimAvoids(s: string, c: char)
    requires c !in s
    ensures c !in Trim(s)
    decreases |s|
  {
    if s != "" {
      if IsSpace(s[0]) {
        TrimAvoids(s[1..], c);
      } else if IsSpace(s[|s| - 1]) {
        TrimAvoids(s[..|s| - 1], c);
      }
    }
  }

  lemma {:induction false} SplitAvoids(s: string, c: char)
    requires c !in s
    ensures forall i :: 0 <= i < |Split(s, ',')| ==> c !in Split(s, ',')[i]
    decreases |s|
  {
    var k := Find(s, ',');
    if k < |s| { SplitAvoids(s[k + 1..], c); }
  }

  lemma {:induction false} PiecesAvoid(items: seq<string>, c: char)
    requires forall i :: 0 <= i < |items| ==> c !in items[i]
    ensures forall i :: 0 <= i < |Pieces(items)| ==> c !in Pieces(items)[i]
    decreases items
  {
    if items != [] {
      TrimAvoids(items[0], c);
      PiecesAvoid(items[1..], c);
    }
  }

  lemma ParseAvoids(s: string, c: char)
    requires c !in s
    ensures forall i :: 0 <= i < |Parse(s)| ==> c !in Parse(s)[i]
  {
    SplitAvoids(s, c);
    PiecesAvoid(Split(s, ','), c);
  }

  lemma {:induction false} JoinAvoids(tags: seq<string>, c: char)
    requires c != ',' && forall i :: 0 <= i < |tags| ==> c !in tags[i]
    ensures c !in Join(tags)
    decreases tags
  {
    if |tags| > 1 { JoinAvoids(tags[1..], c); }
  }

  lemma ParsedIsGood(s: string)
    ensures forall i :: 0 <= i < |Parse(s)| ==> GoodTag(Parse(s)[i])
  {
    SplitCommaFree(s);
    PiecesGood(Split(s, ','));
  }
}
