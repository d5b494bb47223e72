/**
 Reads of bounded size. The server reads at most `bound` bytes at a time, so a line over the limit cannot be dropped at
 every place: its head goes in pieces of `max + 1` to `max + bound` bytes. Exactly when the cut does not matter, then.
 */
module SyslogReads {
  import opened Sequences
  import opened SyslogFraming

  predicate Short(chunks: seq<string>, bound: nat) {
    forall i :: 0 <= i < |chunks| ==> |chunks[i]| <= bound
  }

  /** k pieces, each dropped at the end of a read, come to p bytes. */
  predicate Steps(k: nat, p: nat, max: nat, bound: nat) {
    k >= 1 && k * (max + 1) <= p <= k * (max + bound)
  }

  /** The head of a segment may be dropped up to here. */
  ghost predicate Reachable(p: nat, max: nat, bound: nat) {
    exists k: nat :: Steps(k, p, max, bound)
  }

  /** No tail that reads of this size can leave of an oversized segment, within the limit, would be delivered. */
  ghost predicate SafeWithin(segment: string, max: nat, bound: nat) {
    |segment| > max ==>
      forall p: nat :: |segment| - max <= p <= |segment| && Reachable(p, max, bound) ==> Strip(segment[p..]) == ""
  }

  ghost predicate AllSafeWithin(segments: seq<string>, max: nat, bound: nat) {
    forall i :: 0 <= i < |segments| ==> SafeWithin(segments[i], max, bound)
  }

  /** All ways of cutting a stream into reads of this size deliver the same. */
  ghost predicate CutIndependentWithin(stream: string, max: nat, bound: nat) {
    forall a, b :: Flatten(a) == stream && Flatten(b) == stream && Short(a, bound) && Short(b, bound) ==>
                     Receive(max, "", a) == Receive(max, "", b)
  }

  // ---------- what can be dropped ----------

  lemma OnePiece(p: nat, max: nat, bound: nat)
    requires max < p <= max + bound
    ensures Reachable(p, max, bound)
  {
    assert Steps(1, p, max, bound);
  }

  lemma ReachableLong(p: nat, max: nat, bound: nat)
    requires Reachable(p, max, bound)
    ensures p > max
  {
    var k: nat :| Steps(k, p, max, bound);
    assert k * (max + 1) >= 1 * (max + 1);
  }

  lemma AnotherPiece(p: nat, q: nat, max: nat, bound: nat)
    requires Reachable(p, max, bound) && max < q <= max + bound
    ensures Reachable(p + q, max, bound)
  {
    var k: nat :| Steps(k, p, max, bound);
    assert (k + 1) * (max + 1) == k * (max + 1) + (max + 1) && (k + 1) * (max + bound) == k * (max + bound) + (max + bound);
    assert Steps(k + 1, p + q, max, bound);
  }

  ghost predicate LostWithin(lost: string, max: nat, bound: nat) {
    OneLine(lost) && (lost == "" || Reachable(|lost|, max, bound))
  }

  lemma LostIsLost(lost: string, max: nat, bound: nat)
    requires LostWithin(lost, max, bound)
    ensures Lost(lost, max)
  {
    if lost != "" { ReachableLong(|lost|, max, bound); }
  }

  lemma {:induction false} RestShort(s: string)
    ensures |Rest(s)| <= |s|
    decreases s
  {
    if s != "" { RestShort(s[..|s| - 1]); }
  }

  /** One read: what it leaves is again a buffer with a head lost in such pieces. */
  lemma ReadWithin(lost: string, pending: string, chunk: string, max: nat, bound: nat) returns (lost': string)
    requires LostWithin(lost, max, bound) && OneLine(pending) && |pending| <= max && |chunk| <= bound
    ensures var all := pending + chunk;
            LostWithin(lost', max, bound) && Rest(lost + all) == lost' + Buffered(all, max) && OneLine(Buffered(all, max))
  {
    var all := pending + chunk;
    var k := Find(all);
    RestIsOneLine(all);
    if k == |all| {
      assert all[..k] == all;
      lost' := OpenWithin(lost, all, max, bound);
    } else {
      SplitLost(lost, all, k);
      SplitAtNewline(all, k, max);
      RestShort(all[k + 1..]);
      assert k >= |pending|;
      if |Rest(all)| > max { OnePiece(|Rest(all)|, max, bound); }
      lost' := LostOf(Rest(all), max);
    }
  }

  lemma OpenWithin(lost: string, all: string, max: nat, bound: nat) returns (lost': string)
    requires LostWithin(lost, max, bound) && OneLine(all) && |all| <= max + bound
    ensures LostWithin(lost', max, bound) && Rest(lost + all) == lost' + Buffered(all, max)
  {
    Unterminated(all);
    Unterminated(lost + all);
    if |all| <= max {
      lost' := lost;
    } else {
      lost' := lost + all;
      assert lost' + "" == lost';
      if lost == "" { OnePiece(|all|, max, bound); } else { AnotherPiece(|lost|, |all|, max, bound); }
    }
  }

  // ---------- safe streams ----------

  lemma SafeWithinConcat(a: seq<string>, b: seq<string>, max: nat, bound: nat)
    ensures AllSafeWithin(a + b, max, bound) <==> AllSafeWithin(a, max, bound) && AllSafeWithin(b, max, bound)
  {
    assert forall i :: 0 <= i < |a| ==> (a + b)[i] == a[i];
    assert forall i :: 0 <= i < |b| ==> b[i] == (a + b)[|a| + i];
  }

  lemma SegmentWithin(lost: string, line: string, max: nat, bound: nat)
    requires LostWithin(lost, max, bound) && SafeWithin(lost + line, max, bound)
    ensures Deliver(line, max) == Deliver(lost + line, max)
  {
    if lost == "" {
      assert lost + line == line;
    } else {
      ReachableLong(|lost|, max, bound);
      if |line| <= max { assert (lost + line)[|lost|..] == line; }
    }
  }

  lemma LinesWithin(lost: string, all: string, max: nat, bound: nat)
    requires LostWithin(lost, max, bound) && AllSafeWithin(Lines(lost + all), max, bound)
    ensures DeliverAll(Lines(all), max) == DeliverAll(Lines(lost + all), max)
  {
    var k := Find(all);
    if k == |all| {
      assert all[..k] == all;
      Unterminated(all);
      Unterminated(lost + all);
    } else {
      SplitLost(lost, all, k);
      assert Lines(lost + all)[0] == lost + all[..k];
      SegmentWithin(lost, all[..k], max, bound);
      SameFirst(lost + all[..k], all[..k], Lines(all[k + 1..]), max);
    }
  }

  lemma SameFirst(a: string, b: string, others: seq<string>, max: nat)
    requires Deliver(a, max) == Deliver(b, max)
    ensures DeliverAll([a] + others, max) == DeliverAll([b] + others, max)
  {
    assert ([a] + others)[1..] == others && ([b] + others)[1..] == others;
  }

  lemma CloseWithin(lost: string, pending: string, max: nat, bound: nat)
    requires LostWithin(lost, max, bound) && OneLine(pending) && AllSafeWithin(Segments(lost + pending), max, bound)
    ensures Deliver(pending, max) == DeliverAll(Segments(lost + pending), max)
  {
    var s := lost + pending;
    Unterminated(s);
    assert Segments(s) == [s] && [s][1..] == [] && [s][0] == s;
    SegmentWithin(lost, pending, max, bound);
  }

  lemma {:induction false} ReceiveWithin(lost: string, pending: string, chunks: seq<string>, max: nat, bound: nat)
    requires LostWithin(lost, max, bound) && OneLine(pending) && |pending| <= max && Short(chunks, bound)
    requires AllSafeWithin(Segments(lost + pending + Flatten(chunks)), max, bound)
    ensures Receive(max, pending, chunks) == DeliverAll(Segments(lost + pending + Flatten(chunks)), max)
    decreases chunks
  {
    if chunks == [] {
      assert lost + pending + Flatten(chunks) == lost + pending;
      CloseWithin(lost, pending, max, bound);
    } else {
      var all := pending + chunks[0];
      var lost' := ReadWithin(lost, pending, chunks[0], max, bound);
      var later := Segments(Rest(lost + all) + Flatten(chunks[1..]));
      StreamSplit(lost, pending, chunks);
      SafeWithinConcat(Lines(lost + all), later, max, bound);
      DeliverConcat(Lines(lost + all), later, max);
      LinesWithin(lost, all, max, bound);
      ReceiveWithin(lost', Buffered(all, max), chunks[1..], max, bound);
    }
  }

  // ---------- reads one after another ----------

  /** What is buffered after some reads. */
  function After(max: nat, pending: string, chunks: seq<string>): string
    decreases chunks
  {
    if chunks == [] then pending else After(max, Buffered(pending + chunks[0], max), chunks[1..])
  }

  /** What they deliver. */
  function Got(max: nat, pending: string, chunks: seq<string>): seq<string>
    decreases chunks
  {
    if chunks == [] then []
    else DeliverAll(Lines(pending + chunks[0]), max) + Got(max, Buffered(pending + chunks[0], max), chunks[1..])
  }

  lemma {:induction false} ReceiveSplit(max: nat, pending: string, a: seq<string>, b: seq<string>)
    ensures Receive(max, pending, a + b) == Got(max, pending, a) + Receive(max, After(max, pending, a), b)
    decreases a
  {
    if a == [] {
      assert a + b == b;
    } else {
      var all := pending + a[0];
      var rest := Buffered(all, max);
      assert (a + b)[0] == a[0] && (a + b)[1..] == a[1..] + b;
      ReceiveSplit(max, rest, a[1..], b);
      Regroup(DeliverAll(Lines(all), max), Got(max, rest, a[1..]), Receive(max, After(max, rest, a[1..]), b));
    }
  }

  lemma {:induction false} AfterSplit(max: nat, pending: string, a: seq<string>, b: seq<string>)
    ensures After(max, pending, a + b) == After(max, After(max, pending, a), b)
    decreases a
  {
    if a == [] {
      assert a + b == b;
    } else {
      assert (a + b)[0] == a[0] && (a + b)[1..] == a[1..] + b;
      AfterSplit(max, Buffered(pending + a[0], max), a[1..], b);
    }
  }

  lemma {:induction false} GotSplit(max: nat, pending: string, a: seq<string>, b: seq<string>)
    ensures Got(max, pending, a + b) == Got(max, pending, a) + Got(max, After(max, pending, a), b)
    decreases a
  {
    if a == [] {
      assert a + b == b;
    } else {
      var all := pending + a[0];
      var rest := Buffered(all, max);
      assert (a + b)[0] == a[0] && (a + b)[1..] == a[1..] + b;
      GotSplit(max, rest, a[1..], b);
      Regroup(DeliverAll(Lines(all), max), Got(max, rest, a[1..]), Got(max, After(max, rest, a[1..]), b));
    }
  }

  lemma {:induction false} FlattenConcat(a: seq<string>, b: seq<string>)
    ensures Flatten(a + b) == Flatten(a) + Flatten(b)
    decreases a
  {
    if a == [] {
      assert a + b == b;
    } else {
      assert (a + b)[1..] == a[1..] + b;
      FlattenConcat(a[1..], b);
      Regroup(a[0], Flatten(a[1..]), Flatten(b));
    }
  }

  /** What is buffered is the end of what is unterminated. */
  lemma {:induction false} AfterIsTail(lost: string, pending: string, chunks: seq<string>, max: nat) returns (lost': string)
    requires Lost(lost, max) && OneLine(pending)
    ensures Lost(lost', max) && Rest(lost + pending + Flatten(chunks)) == lost' + After(max, pending, chunks)
    decreases chunks
  {
    if chunks == [] {
      lost' := lost;
      assert lost + pending + "" == lost + pending;
      Unterminated(lost + pending);
    } else {
      var all := pending + chunks[0];
      lost' := ReadOutcome(lost, all, max);
      RestIsOneLine(all);
      RegroupFour(lost, pending, chunks[0], Flatten(chunks[1..]));
      LinesConcat(lost + all, Flatten(chunks[1..]));
      lost' := AfterIsTail(lost', Buffered(all, max), chunks[1..], max);
    }
  }

  /** One byte at a time. */
  function Bytewise(s: string): (r: seq<string>)
    ensures forall i :: 0 <= i < |r| ==> |r[i]| == 1
  {
    if s == "" then [] else [[s[0]]] + Bytewise(s[1..])
  }

  lemma {:induction false} BytewiseIs(s: string)
    ensures Flatten(Bytewise(s)) == s
    decreases s
  {
    if s != "" {
      assert Bytewise(s)[1..] == Bytewise(s[1..]);
      BytewiseIs(s[1..]);
    }
  }

  /** While the buffer fits and no newline comes, reads only fill it. */
  lemma {:induction false} Fills(max: nat, pending: string, s: string)
    requires OneLine(pending + s) && |pending + s| <= max
    ensures Got(max, pending, Bytewise(s)) == [] && After(max, pending, Bytewise(s)) == pending + s
    decreases s
  {
    if s == "" {
      assert pending + s == pending;
    } else {
      var all := pending + [s[0]];
      assert pending + s == all + s[1..] && Bytewise(s)[1..] == Bytewise(s[1..]) && Bytewise(s)[0] == [s[0]];
      assert OneLine(all) by { assert forall i :: 0 <= i < |all| ==> all[i] == (pending + s)[i]; }
      Unterminated(all);
      Fills(max, all, s[1..]);
    }
  }

  // ---------- dropping a head at a chosen place ----------

  /** Short reads of x that deliver nothing and leave nothing. */
  ghost predicate Drops(chunks: seq<string>, x: string, max: nat, bound: nat) {
    Flatten(chunks) == x && Short(chunks, bound) && Got(max, "", chunks) == [] && After(max, "", chunks) == ""
  }

  lemma DropPiece(x: string, max: nat, bound: nat) returns (chunks: seq<string>)
    requires OneLine(x) && max < |x| <= max + bound
    ensures Drops(chunks, x, max, bound)
  {
    var head, last := x[..max], x[max..];
    assert x == head + last && "" + head == head;
    chunks := Bytewise(head) + [last];
    Fills(max, "", head);
    BytewiseIs(head);
    FlattenOne(last);
    FlattenConcat(Bytewise(head), [last]);
    GotSplit(max, "", Bytewise(head), [last]);
    AfterSplit(max, "", Bytewise(head), [last]);
    LastRead(max, head, last);
  }

  lemma LastRead(max: nat, head: string, last: string)
    requires OneLine(head + last) && |head + last| > max
    ensures Got(max, head, [last]) == [] && After(max, head, [last]) == ""
  {
    Unterminated(head + last);
    assert [last][1..] == [];
  }

  lemma DropsConcat(a: seq<string>, x: string, b: seq<string>, y: string, max: nat, bound: nat)
    requires Drops(a, x, max, bound) && Drops(b, y, max, bound)
    ensures Drops(a + b, x + y, max, bound)
  {
    FlattenConcat(a, b);
    GotSplit(max, "", a, b);
    AfterSplit(max, "", a, b);
  }

  lemma {:induction false} DropHead(x: string, k: nat, max: nat, bound: nat) returns (chunks: seq<string>)
    requires OneLine(x) && bound >= 1 && Steps(k, |x|, max, bound)
    ensures Drops(chunks, x, max, bound)
    decreases k
  {
    if k == 1 {
      OneStep(|x|, max, bound);
      chunks := DropPiece(x, max, bound);
    } else {
      var s := FirstPiece(|x|, k, max, bound);
      var rest := DropHead(x[s..], k - 1, max, bound);
      chunks := DropMore(x, s, rest, max, bound);
    }
  }

  lemma OneStep(p: nat, max: nat, bound: nat)
    requires Steps(1, p, max, bound)
    ensures max < p <= max + bound
  {
  }

  lemma DropMore(x: string, s: nat, rest: seq<string>, max: nat, bound: nat) returns (chunks: seq<string>)
    requires OneLine(x) && max < s <= max + bound && s <= |x| && Drops(rest, x[s..], max, bound)
    ensures Drops(chunks, x, max, bound)
  {
    var first := DropPiece(x[..s], max, bound);
    assert x == x[..s] + x[s..];
    DropsConcat(first, x[..s], rest, x[s..], max, bound);
    chunks := first + rest;
  }

  /** How much to drop first, so that k - 1 pieces can make up the rest. */
  lemma FirstPiece(p: nat, k: nat, max: nat, bound: nat) returns (s: nat)
    requires k > 1 && bound >= 1 && Steps(k, p, max, bound)
    ensures max < s <= max + bound && s <= p && Steps(k - 1, p - s, max, bound)
  {
    OneLess(k, max + 1);
    OneLess(k, max + bound);
    Ordered(k - 1, max + 1, max + bound);
    s := Choose(p, (k - 1) * (max + 1), (k - 1) * (max + bound), max, bound);
  }

  lemma OneLess(k: nat, x: nat)
    requires k >= 1
    ensures k * x == (k - 1) * x + x
  {
  }

  lemma Ordered(k: nat, x: nat, y: nat)
    requires x <= y
    ensures k * x <= k * y
  {
  }

  lemma Choose(p: nat, low: nat, high: nat, max: nat, bound: nat) returns (s: nat)
    requires bound >= 1 && low <= high && low + (max + 1) <= p <= high + (max + bound)
    ensures max < s <= max + bound && s <= p && low <= p - s <= high
  {
    s := if p - low <= max + bound then p - low else max + bound;
  }

  // ---------- two cuts that differ ----------

  /** What follows a segment, read byte by byte. */
  function Onward(after: string, max: nat): seq<string> {
    if after == "" then [] else Receive(max, "", Bytewise(after[1..]))
  }

  lemma TailReads(y: string, after: string, max: nat)
    requires OneLine(y) && |y| <= max && Ends(after)
    ensures Receive(max, "", Bytewise(y) + Bytewise(after)) == Deliver(y, max) + Onward(after, max)
  {
    assert "" + y == y;
    Fills(max, "", y);
    ReceiveSplit(max, "", Bytewise(y), Bytewise(after));
    if after != "" {
      var all := y + [after[0]];
      assert Bytewise(after)[1..] == Bytewise(after[1..]) && Bytewise(after)[0] == [after[0]];
      assert all == y + "\n";
      SoleLine(y);
    }
  }

  /** The whole stream, with the head of one segment dropped up to p and all else read byte by byte. */
  lemma CutAt(before: string, segment: string, after: string, p: nat, max: nat, bound: nat) returns (chunks: seq<string>)
    requires Rest(before) == "" && OneLine(segment) && Ends(after) && bound >= 1
    requires p <= |segment| <= p + max && Reachable(p, max, bound)
    ensures Flatten(chunks) == before + (segment + after) && Short(chunks, bound)
    ensures Receive(max, "", chunks) ==
            Got(max, "", Bytewise(before)) + (Deliver(segment[p..], max) + Onward(after, max))
  {
    var k: nat :| Steps(k, p, max, bound);
    var x, y := segment[..p], segment[p..];
    var drop := DropHead(x, k, max, bound);
    chunks := Bytewise(before) + (drop + (Bytewise(y) + Bytewise(after)));
    assert segment == x + y;
    CutFlattens(before, x, drop, y, after);
    RegroupTail(before, x, y, after);
    CutIsShort(Bytewise(before), drop, Bytewise(y), Bytewise(after), bound);
    CutReceives(before, x, drop, y, after, max, bound);
  }

  lemma CutIsShort(a: seq<string>, b: seq<string>, c: seq<string>, d: seq<string>, bound: nat)
    requires Short(a, bound) && Short(b, bound) && Short(c, bound) && Short(d, bound)
    ensures Short(a + (b + (c + d)), bound)
  {
  }

  lemma CutReceives(before: string, x: string, drop: seq<string>, y: string, after: string, max: nat, bound: nat)
    requires Rest(before) == "" && Drops(drop, x, max, bound) && OneLine(y) && |y| <= max && Ends(after)
    ensures Receive(max, "", Bytewise(before) + (drop + (Bytewise(y) + Bytewise(after)))) ==
            Got(max, "", Bytewise(before)) + (Deliver(y, max) + Onward(after, max))
  {
    var tail := Bytewise(y) + Bytewise(after);
    BeforeEnds(before, max);
    ReceiveSplit(max, "", Bytewise(before), drop + tail);
    ReceiveSplit(max, "", drop, tail);
    TailReads(y, after, max);
    assert [] + Receive(max, "", tail) == Receive(max, "", tail);
  }

  lemma RegroupTail<T>(a: seq<T>, b: seq<T>, c: seq<T>, d: seq<T>)
    ensures a + (b + (c + d)) == a + ((b + c) + d)
  {
  }

  lemma CutFlattens(before: string, x: string, drop: seq<string>, y: string, after: string)
    requires Flatten(drop) == x
    ensures Flatten(Bytewise(before) + (drop + (Bytewise(y) + Bytewise(after)))) == before + (x + (y + after))
  {
    BytewiseIs(before);
    BytewiseIs(y);
    BytewiseIs(after);
    FlattenConcat(Bytewise(y), Bytewise(after));
    FlattenConcat(drop, Bytewise(y) + Bytewise(after));
    FlattenConcat(Bytewise(before), drop + (Bytewise(y) + Bytewise(after)));
  }

  lemma BeforeEnds(before: string, max: nat)
    requires Rest(before) == ""
    ensures After(max, "", Bytewise(before)) == ""
  {
    BytewiseIs(before);
    assert "" + "" + before == before;
    var lost := AfterIsTail("", "", Bytewise(before), max);
  }

  /** Two tails of one segment, one of them delivered, are delivered differently. */
  lemma TailsDiffer(segment: string, p: nat, q: nat, max: nat)
    requires p < q <= |segment| <= p + max && (Strip(segment[p..]) != "" || Strip(segment[q..]) != "")
    ensures Deliver(segment[p..], max) != Deliver(segment[q..], max)
  {
    assert segment[p..] == segment[p..q] + segment[q..];
    StripConcat(segment[p..q], segment[q..]);
    if Strip(segment[q..]) != "" {
      assert |Strip(segment[p..])| == q - p + |Strip(segment[q..])|;
    }
  }

  /** Another place within the limit where the head can be dropped. */
  lemma OtherPlace(length: nat, p: nat, max: nat, bound: nat) returns (q: nat)
    requires bound >= 2 && max < length && p < length
    ensures q != p && q <= length <= q + max && Reachable(q, max, bound)
  {
    var m := length / (max + 1);
    var base := m * (max + 1);
    assert base <= length < base + (max + 1) && m >= 1;
    assert m * (max + bound) == base + m * (bound - 1);
    assert m * (bound - 1) >= 1;
    q := if base != p then base else base + 1;
    assert Steps(m, q, max, bound);
  }

  lemma Cancels<T>(a: seq<T>, b: seq<T>, c: seq<T>, d: seq<T>)
    ensures a + (b + d) == a + (c + d) <==> b == c
  {
    if a + (b + d) == a + (c + d) {
      assert b + d == (a + (b + d))[|a|..] && c + d == (a + (c + d))[|a|..];
      assert |b + d| == |c + d|;
      assert b == (b + d)[..|b|] && c == (c + d)[..|c|];
    }
  }

  lemma UnsafeWithin(stream: string, i: nat, p: nat, max: nat, bound: nat)
    requires bound >= 2 && i < |Segments(stream)| && |Segments(stream)[i]| > max
    requires var segment := Segments(stream)[i];
             p <= |segment| <= p + max && Reachable(p, max, bound) && Strip(segment[p..]) != ""
    ensures !CutIndependentWithin(stream, max, bound)
  {
    var segment := Segments(stream)[i];
    var before, after := SegmentAt(stream, i);
    assert p < |segment|;
    var q := OtherPlace(|segment|, p, max, bound);
    var a := CutAt(before, segment, after, p, max, bound);
    var b := CutAt(before, segment, after, q, max, bound);
    if p < q { TailsDiffer(segment, p, q, max); } else { TailsDiffer(segment, q, p, max); }
    Cancels(Got(max, "", Bytewise(before)), Deliver(segment[p..], max), Deliver(segment[q..], max), Onward(after, max));
  }

  /** With reads of at most `bound` bytes, two or more, all cuts of a stream deliver the same exactly when no segment over the
      limit has a tail within the limit, at a place where its head can be dropped, that would be delivered. */
  lemma CutIndependentWithinIff(stream: string, max: nat, bound: nat)
    requires bound >= 2
    ensures CutIndependentWithin(stream, max, bound) <==> AllSafeWithin(Segments(stream), max, bound)
  {
    if AllSafeWithin(Segments(stream), max, bound) {
      forall a | Flatten(a) == stream && Short(a, bound)
        ensures Receive(max, "", a) == DeliverAll(Segments(stream), max)
      {
        assert "" + "" + Flatten(a) == stream;
        ReceiveWithin("", "", a, max, bound);
      }
    } else {
      var i :| 0 <= i < |Segments(stream)| && !SafeWithin(Segments(stream)[i], max, bound);
      var segment := Segments(stream)[i];
      var p: nat :| |segment| - max <= p <= |segment| && Reachable(p, max, bound) && Strip(segment[p..]) != "";
      UnsafeWithin(stream, i, p, max, bound);
    }
  }
}
