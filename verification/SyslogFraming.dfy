/**
 Reassembly of syslog lines from a TCP byte stream: non-transparent framing, section 3.4.2 of RFC 6587, with a bound on
 the line length. Reads cut the stream anywhere; the lines delivered must not depend on where.
 */
module SyslogFraming {
  import opened Sequences

  // ---------- one line ----------

  predicate Trailing(c: char) {
    c == '\n' || c == '\r' || c == '\0'
  }

  /** The line without its trailing newlines, carriage returns and NULs. */
  function Strip(line: string): string {
    if line != "" && Trailing(line[|line| - 1]) then Strip(line[..|line| - 1]) else line
  }

  /** boundedLine and deliver: what the handler receives, if anything. */
  function Deliver(line: string, max: nat): seq<string> {
    if |line| > max || Strip(line) == "" then [] else [Strip(line)]
  }

  method BoundedLine(line: string, max: nat) returns (ok: bool, out: string)
    ensures ok == (|line| <= max)
    ensures ok ==> out == Strip(line)
  {
    out := line;
    if |line| > max {
      return false, "";
    }
    while out != "" && Trailing(out[|out| - 1])
      invariant Strip(out) == Strip(line)
      decreases |out|
    {
      out := out[..|out| - 1];
    }
    ok := true;
  }

  // ---------- lines of a stream ----------

  predicate OneLine(s: string) {
    forall i :: 0 <= i < |s| ==> s[i] != '\n'
  }

  /** Position of the first newline, or the length. */
  function Find(s: string): (k: nat)
    ensures k <= |s| && OneLine(s[..k]) && (k < |s| ==> s[k] == '\n')
  {
    if s == "" || s[0] == '\n' then 0 else 1 + Find(s[1..])
  }

  /** What follows the last newline of a stream. */
  function Rest(s: string): string {
    if s == "" || s[|s| - 1] == '\n' then "" else Rest(s[..|s| - 1]) + [s[|s| - 1]]
  }

  /** The lines a stream completes. */
  function Lines(s: string): seq<string> {
    if s == "" then []
    else Lines(s[..|s| - 1]) + if s[|s| - 1] == '\n' then [Rest(s[..|s| - 1])] else []
  }

  /** All newline-delimited segments, the unterminated last one included. */
  function Segments(s: string): seq<string> {
    Lines(s) + [Rest(s)]
  }

  function DeliverAll(lines: seq<string>, max: nat): seq<string> {
    if lines == [] then [] else Deliver(lines[0], max) + DeliverAll(lines[1..], max)
  }

  // ---------- the receiver ----------

  /** What stays in the buffer after a read: the unterminated end, or nothing if that is too long. */
  function Buffered(all: string, max: nat): (pending: string)
    ensures |pending| <= max
  {
    if |Rest(all)| > max then "" else Rest(all)
  }

  /** What is delivered from here on, with `pending` buffered and these reads to come before the peer closes. */
  function Receive(max: nat, pending: string, chunks: seq<string>): seq<string>
    decreases chunks
  {
    if chunks == [] then Deliver(pending, max)
    else
      var all := pending + chunks[0];
      DeliverAll(Lines(all), max) + Receive(max, Buffered(all, max), chunks[1..])
  }

  /** handleTcpClient: `chunks` are the successful reads of the connection. */
  method HandleTcpClient(chunks: seq<string>, max: nat) returns (delivered: seq<string>)
    ensures delivered == Receive(max, "", chunks)
    ensures Clean(delivered, max)
  {
    var pending;
    delivered, pending := ReadAll(chunks, max);
    if pending != "" {
      var last := DeliverLine(pending, max);
      CleanConcat(delivered, last, max);
      delivered := delivered + last;
    }
  }

  /** The reading loop, up to the end of the connection. */
  method ReadAll(chunks: seq<string>, max: nat) returns (delivered: seq<string>, pending: string)
    ensures Receive(max, "", chunks) == delivered + Deliver(pending, max)
    ensures |pending| <= max && OneLine(pending) && Clean(delivered, max)
  {
    delivered, pending := [], "";
    assert chunks[0..] == chunks;
    for i := 0 to |chunks|
      invariant |pending| <= max && OneLine(pending)
      invariant Owed(max, chunks, delivered, pending, i)
      invariant Clean(delivered, max)
    {
      OwedStep(max, chunks, delivered, pending, i);
      var lines;
      lines, pending := TakeChunk(pending, chunks[i], max);
      CleanConcat(delivered, lines, max);
      delivered := delivered + lines;
    }
    assert chunks[|chunks|..] == [];
  }

  /** One read: its completed lines are delivered, and the buffer is bounded again. */
  method TakeChunk(pending: string, chunk: string, max: nat) returns (lines: seq<string>, rest: string)
    ensures lines == DeliverAll(Lines(pending + chunk), max) && Clean(lines, max)
    ensures rest == Buffered(pending + chunk, max) && |rest| <= max && OneLine(rest)
  {
    lines, rest := Drain(pending + chunk, max);
    if |rest| > max {
      rest := "";
    }
  }

  lemma CleanConcat(a: seq<string>, b: seq<string>, max: nat)
    requires Clean(a, max) && Clean(b, max)
    ensures Clean(a + b, max)
  {
  }

  /** After i reads: what is delivered and what is still to be delivered make up the whole. */
  ghost predicate Owed(max: nat, chunks: seq<string>, done: seq<string>, pending: string, i: nat)
    requires i <= |chunks|
  {
    Receive(max, "", chunks) == done + Receive(max, pending, chunks[i..])
  }

  lemma OwedStep(max: nat, chunks: seq<string>, done: seq<string>, pending: string, i: nat)
    requires i < |chunks| && Owed(max, chunks, done, pending, i)
    ensures var all := pending + chunks[i]; Owed(max, chunks, done + DeliverAll(Lines(all), max), Buffered(all, max), i + 1)
  {
    var all := pending + chunks[i];
    assert chunks[i..][1..] == chunks[i + 1..];
    Regroup(done, DeliverAll(Lines(all), max), Receive(max, Buffered(all, max), chunks[i + 1..]));
  }

  predicate Clean(lines: seq<string>, max: nat) {
    forall i :: 0 <= i < |lines| ==> lines[i] != "" && |lines[i]| <= max && OneLine(lines[i])
  }

  /** The inner loop: deliver and remove every completed line. */
  method Drain(input: string, max: nat) returns (delivered: seq<string>, pending: string)
    ensures delivered == DeliverAll(Lines(input), max) && pending == Rest(input)
    ensures OneLine(pending) && Clean(delivered, max)
  {
    delivered, pending := [], input;
    var newline := Find(pending);
    while newline != |pending|
      invariant newline == Find(pending)
      invariant Rest(pending) == Rest(input)
      invariant DeliverAll(Lines(input), max) == delivered + DeliverAll(Lines(pending), max)
      invariant Clean(delivered, max)
      decreases |pending|
    {
      var line := pending[..newline];
      SplitAtNewline(pending, newline, max);
      pending := pending[newline + 1..];
      var out := DeliverLine(line, max);
      Regroup(delivered, out, DeliverAll(Lines(pending), max));
      CleanConcat(delivered, out, max);
      delivered := delivered + out;
      newline := Find(pending);
    }
    assert pending[..newline] == pending;
    Unterminated(pending);
  }

  method DeliverLine(line: string, max: nat) returns (out: seq<string>)
    requires OneLine(line)
    ensures out == Deliver(line, max) && Clean(out, max)
  {
    var ok, bounded := BoundedLine(line, max);
    StripKeeps(line);
    out := if ok && bounded != "" then [bounded] else [];
  }

  lemma SplitAtNewline(s: string, k: nat, max: nat)
    requires k < |s| && OneLine(s[..k]) && s[k] == '\n'
    ensures Rest(s) == Rest(s[k + 1..])
    ensures DeliverAll(Lines(s), max) == Deliver(s[..k], max) + DeliverAll(Lines(s[k + 1..]), max)
  {
    assert s == s[..k] + "\n" + s[k + 1..];
    FirstLine(s[..k], s[k + 1..]);
    assert ([s[..k]] + Lines(s[k + 1..]))[1..] == Lines(s[k + 1..]);
  }

  lemma {:induction false} StripKeeps(line: string)
    ensures |Strip(line)| <= |line| && Strip(line) == line[..|Strip(line)|]
    decreases line
  {
    if line != "" && Trailing(line[|line| - 1]) {
      StripKeeps(line[..|line| - 1]);
    }
  }

  // ---------- what should be delivered ----------

  function Wanted(segment: string): seq<string> {
    if Strip(segment) == "" then [] else [Strip(segment)]
  }

  function WantedAll(segments: seq<string>): seq<string> {
    if segments == [] then [] else Wanted(segments[0]) + WantedAll(segments[1..])
  }

  /** Every segment that has something to deliver fits the limit. */
  predicate Fits(segment: string, max: nat) {
    Strip(segment) != "" ==> |segment| <= max
  }

  predicate AllFit(segments: seq<string>, max: nat) {
    forall i :: 0 <= i < |segments| ==> Fits(segments[i], max)
  }

  function Flatten(chunks: seq<string>): string {
    if chunks == [] then "" else chunks[0] + Flatten(chunks[1..])
  }

  // ---------- a segment whose head was dropped ----------

  lemma {:induction false} StripConcat(a: string, b: string)
    ensures Strip(a + b) == if Strip(b) == "" then Strip(a) else a + Strip(b)
    decreases b
  {
    if b == "" {
      assert a + b == a;
    } else if Trailing(b[|b| - 1]) {
      assert (a + b)[..|a + b| - 1] == a + b[..|b| - 1];
      StripConcat(a, b[..|b| - 1]);
    }
  }

  lemma {:induction false} OnlyTrailing(tail: string)
    requires forall k :: 0 <= k < |tail| ==> tail[k] in "\r\n\0"
    ensures Strip(tail) == ""
    decreases tail
  {
    if tail != "" { OnlyTrailing(tail[..|tail| - 1]); }
  }

  /** A body followed by any run of newlines, carriage returns and NULs is delivered as that body, if it fits. */
  lemma BodyIsDelivered(body: string, tail: string, max: nat)
    requires body != "" ==> body[|body| - 1] !in "\r\n\0"
    requires forall k :: 0 <= k < |tail| ==> tail[k] in "\r\n\0"
    ensures Deliver(body + tail, max) == if body != "" && |body + tail| <= max then [body] else []
  {
    OnlyTrailing(tail);
    StripConcat(body, tail);
  }

  /** The bytes of a segment already thrown away: none, or more than the limit. */
  predicate Lost(lost: string, max: nat) {
    OneLine(lost) && (lost == "" || |lost| > max)
  }

  /** One segment: at most one line comes out, and it is the right one exactly when the segment fits. */
  lemma SegmentOutcome(lost: string, line: string, max: nat)
    requires Lost(lost, max)
    ensures |Deliver(line, max)| <= |Wanted(lost + line)|
    ensures Deliver(line, max) == Wanted(lost + line) <==> Fits(lost + line, max)
  {
    StripConcat(lost, line);
    if lost == "" {
      assert lost + line == line;
    }
  }

  lemma {:induction false} LinesOutcome(lines: seq<string>, max: nat)
    ensures |DeliverAll(lines, max)| <= |WantedAll(lines)|
    ensures DeliverAll(lines, max) == WantedAll(lines) <==> AllFit(lines, max)
    decreases lines
  {
    if lines != [] {
      SegmentOutcome("", lines[0], max);
      assert "" + lines[0] == lines[0];
      LinesOutcome(lines[1..], max);
      Aligned(Deliver(lines[0], max), DeliverAll(lines[1..], max), Wanted(lines[0]), WantedAll(lines[1..]));
      assert AllFit(lines, max) <==> Fits(lines[0], max) && AllFit(lines[1..], max) by {
        assert forall i :: 0 <= i < |lines| ==> lines[i] == if i == 0 then lines[0] else lines[1..][i - 1];
      }
    }
  }

  /** Concatenations whose parts are no longer than the others' are equal only part by part. */
  lemma Aligned<T>(a1: seq<T>, a2: seq<T>, b1: seq<T>, b2: seq<T>)
    requires |a1| <= |b1| && |a2| <= |b2|
    ensures a1 + a2 == b1 + b2 <==> a1 == b1 && a2 == b2
  {
    if a1 + a2 == b1 + b2 {
      assert |a1 + a2| == |b1 + b2|;
      assert a1 == (a1 + a2)[..|a1|] && b1 == (b1 + b2)[..|a1|];
      assert a2 == (a1 + a2)[|a1|..] && b2 == (b1 + b2)[|a1|..];
    }
  }

  // ---------- splitting a stream ----------

  lemma {:induction false} LinesConcat(a: string, b: string)
    ensures Lines(a + b) == Lines(a) + Lines(Rest(a) + b)
    ensures Rest(a + b) == Rest(Rest(a) + b)
    decreases b
  {
    RestIsOneLine(a);
    Unterminated(Rest(a));
    if b == "" {
      assert a + b == a && Rest(a) + b == Rest(a);
    } else {
      var n := |b| - 1;
      LinesConcat(a, b[..n]);
      assert (a + b)[..|a + b| - 1] == a + b[..n];
      assert (Rest(a) + b)[..|Rest(a) + b| - 1] == Rest(a) + b[..n];
    }
  }

  lemma {:induction false} Unterminated(s: string)
    requires OneLine(s)
    ensures Lines(s) == [] && Rest(s) == s
    decreases s
  {
    if s != "" { Unterminated(s[..|s| - 1]); }
  }

  lemma {:induction false} RestIsOneLine(s: string)
    ensures OneLine(Rest(s))
    decreases s
  {
    if s != "" { RestIsOneLine(s[..|s| - 1]); }
  }

  lemma FirstLine(line: string, tail: string)
    requires OneLine(line)
    ensures Lines(line + "\n" + tail) == [line] + Lines(tail)
    ensures Rest(line + "\n" + tail) == Rest(tail)
  {
    Unterminated(line);
    var s := line + "\n";
    assert s[..|s| - 1] == line;
    LinesConcat(s, tail);
    assert "" + tail == tail;
  }

  /** The segments of a stream are the completed lines of its beginning, then the segments of what was left plus the end. */
  lemma SegmentsConcat(a: string, b: string)
    ensures Segments(a + b) == Lines(a) + Segments(Rest(a) + b)
  {
    LinesConcat(a, b);
  }

  lemma {:induction false} WantedConcat(a: seq<string>, b: seq<string>)
    ensures WantedAll(a + b) == WantedAll(a) + WantedAll(b)
    decreases a
  {
    if a == [] {
      assert a + b == b;
    } else {
      assert (a + b)[1..] == a[1..] + b;
      WantedConcat(a[1..], b);
    }
  }

  lemma FitsConcat(a: seq<string>, b: seq<string>, max: nat)
    ensures AllFit(a + b, max) <==> AllFit(a, max) && AllFit(b, max)
  {
    assert forall i :: 0 <= i < |a| ==> (a + b)[i] == a[i];
    assert forall i :: 0 <= i < |b| ==> b[i] == (a + b)[|a| + i];
  }

  /** What a read's completed lines come to, given what they should come to. */
  predicate Outcome(delivered: seq<string>, lines: seq<string>, max: nat) {
    && |delivered| <= |WantedAll(lines)|
    && (delivered == WantedAll(lines) <==> AllFit(lines, max))
  }

  /** One read: what it completes is delivered rightly exactly when it fits, and what it leaves is again a buffer with a
      possibly lost head. */
  lemma ReadOutcome(lost: string, all: string, max: nat) returns (lost': string)
    requires Lost(lost, max)
    ensures Outcome(DeliverAll(Lines(all), max), Lines(lost + all), max)
    ensures Lost(lost', max) && Rest(lost + all) == lost' + Buffered(all, max)
  {
    var k := Find(all);
    if k == |all| {
      assert all[..k] == all;
      lost' := OpenRead(lost, all, max);
    } else {
      SplitLost(lost, all, k);
      FirstOutcome(lost, all[..k], Lines(all[k + 1..]), max);
      RestIsOneLine(all);
      lost' := LostOf(Rest(all), max);
    }
  }

  /** A read that completes no line. */
  lemma OpenRead(lost: string, all: string, max: nat) returns (lost': string)
    requires Lost(lost, max) && OneLine(all)
    ensures Outcome(DeliverAll(Lines(all), max), Lines(lost + all), max)
    ensures Lost(lost', max) && Rest(lost + all) == lost' + Buffered(all, max)
  {
    Unterminated(all);
    Unterminated(lost + all);
    lost' := if |all| > max then lost + all else lost;
    assert lost + all + "" == lost + all;
  }

  lemma LostOf(rest: string, max: nat) returns (lost: string)
    requires OneLine(rest)
    ensures Lost(lost, max) && rest == lost + if |rest| > max then "" else rest
  {
    lost := if |rest| > max then rest else "";
    assert rest + "" == rest && "" + rest == rest;
  }

  lemma SplitLost(lost: string, all: string, k: nat)
    requires OneLine(lost) && k < |all| && OneLine(all[..k]) && all[k] == '\n'
    ensures Lines(all) == [all[..k]] + Lines(all[k + 1..]) && Rest(lost + all) == Rest(all)
    ensures Lines(lost + all) == [lost + all[..k]] + Lines(all[k + 1..])
  {
    var first, tail := all[..k], all[k + 1..];
    assert all == first + "\n" + tail && lost + all == (lost + first) + "\n" + tail;
    FirstLine(first, tail);
    FirstLine(lost + first, tail);
  }

  /** The lines a read completes: only the first can have lost its head. */
  lemma FirstOutcome(lost: string, first: string, others: seq<string>, max: nat)
    requires Lost(lost, max)
    ensures Outcome(DeliverAll([first] + others, max), [lost + first] + others, max)
  {
    SegmentOutcome(lost, first, max);
    LinesOutcome(others, max);
    assert ([first] + others)[1..] == others && ([lost + first] + others)[1..] == others;
    Aligned(Deliver(first, max), DeliverAll(others, max), Wanted(lost + first), WantedAll(others));
    FitsConcat([lost + first], others, max);
  }

  lemma CombineOutcomes(d1: seq<string>, lines1: seq<string>, d2: seq<string>, lines2: seq<string>, max: nat)
    requires Outcome(d1, lines1, max) && Outcome(d2, lines2, max)
    ensures Outcome(d1 + d2, lines1 + lines2, max)
  {
    WantedConcat(lines1, lines2);
    FitsConcat(lines1, lines2, max);
    Aligned(d1, d2, WantedAll(lines1), WantedAll(lines2));
  }

  lemma {:induction false} ReceiveOutcome(lost: string, pending: string, chunks: seq<string>, max: nat)
    requires Lost(lost, max) && OneLine(pending)
    ensures Outcome(Receive(max, pending, chunks), Segments(lost + pending + Flatten(chunks)), max)
    decreases chunks
  {
    if chunks == [] {
      assert lost + pending + Flatten(chunks) == lost + pending;
      CloseOutcome(lost, pending, max);
    } else {
      var all := pending + chunks[0];
      var lost' := ReadOutcome(lost, all, max);
      RestIsOneLine(all);
      ReceiveOutcome(lost', Buffered(all, max), chunks[1..], max);
      StreamSplit(lost, pending, chunks);
      CombineOutcomes(DeliverAll(Lines(all), max), Lines(lost + all),
                      Receive(max, Buffered(all, max), chunks[1..]), Segments(Rest(lost + all) + Flatten(chunks[1..])), max);
    }
  }

  lemma StreamSplit(lost: string, pending: string, chunks: seq<string>)
    requires chunks != []
    ensures var all := pending + chunks[0];
            Segments(lost + pending + Flatten(chunks)) ==
            Lines(lost + all) + Segments(Rest(lost + all) + Flatten(chunks[1..]))
  {
    var all, more := pending + chunks[0], Flatten(chunks[1..]);
    RegroupFour(lost, pending, chunks[0], more);
    SegmentsConcat(lost + all, more);
  }

  lemma RegroupFour<T>(a: seq<T>, b: seq<T>, c: seq<T>, d: seq<T>)
    ensures a + b + (c + d) == (a + (b + c)) + d
  {
  }

  lemma CloseOutcome(lost: string, pending: string, max: nat)
    requires Lost(lost, max) && OneLine(pending)
    ensures Outcome(Deliver(pending, max), Segments(lost + pending), max)
  {
    var s := lost + pending;
    Unterminated(s);
    assert Segments(s) == [s] && [s][1..] == [];
    SegmentOutcome(lost, pending, max);
  }

  /** For every stream and every way of cutting it into reads: exactly the stripped non-empty segments are delivered, in
      order, if and only if every segment with something to deliver fits the limit. */
  lemma DeliveryExact(chunks: seq<string>, max: nat)
    ensures var segments := Segments(Flatten(chunks));
            Receive(max, "", chunks) == WantedAll(segments) <==> AllFit(segments, max)
  {
    ReceiveOutcome("", "", chunks, max);
    assert "" + "" + Flatten(chunks) == Flatten(chunks);
  }

  /** Cutting does not matter for streams whose segments fit. */
  lemma ChunkingIndependent(chunks: seq<string>, other: seq<string>, max: nat)
    requires Flatten(chunks) == Flatten(other) && AllFit(Segments(Flatten(chunks)), max)
    ensures Receive(max, "", chunks) == Receive(max, "", other)
  {
    DeliveryExact(chunks, max);
    DeliveryExact(other, max);
  }

  /** It does matter past the limit: after reads of any size that fill the buffer, the end of the line is delivered or not,
      depending on whether the next read carries one byte or all of it. */
  lemma OversizedDependsOnCut(heads: seq<string>, c: char, tail: string, max: nat)
    requires OneLine(Flatten(heads)) && |Flatten(heads)| == max && c != '\n'
    requires OneLine(tail) && |tail| <= max && Strip(tail) != ""
    ensures Receive(max, "", heads + [[c] + tail + "\n"]) == []
    ensures Receive(max, "", heads + [[c], tail + "\n"]) == [Strip(tail)]
  {
    ReadAtOnce(heads, [c] + tail, max);
    ReadOneByte(heads, c, tail, max);
  }

  lemma ReadAtOnce(heads: seq<string>, tail: string, max: nat)
    requires OneLine(Flatten(heads)) && |Flatten(heads)| == max && OneLine(tail) && tail != ""
    ensures Receive(max, "", heads + [tail + "\n"]) == []
  {
    assert "" + Flatten(heads) == Flatten(heads);
    BufferGrows(max, "", heads, [tail + "\n"]);
    OneLongRead(max, Flatten(heads), tail);
  }

  lemma ReadOneByte(heads: seq<string>, c: char, tail: string, max: nat)
    requires OneLine(Flatten(heads)) && |Flatten(heads)| == max && c != '\n'
    requires OneLine(tail) && |tail| <= max && Strip(tail) != ""
    ensures Receive(max, "", heads + [[c], tail + "\n"]) == [Strip(tail)]
  {
    assert "" + Flatten(heads) == Flatten(heads) && [[c], tail + "\n"] == [[c]] + ([tail + "\n"] + []);
    BufferGrows(max, "", heads, [[c], tail + "\n"]);
    ByteTooMany(max, Flatten(heads), c, [tail + "\n"] + []);
    LoneLine(max, tail);
  }

  lemma {:induction false} BufferGrows(max: nat, pending: string, heads: seq<string>, more: seq<string>)
    requires OneLine(pending + Flatten(heads)) && |pending + Flatten(heads)| <= max
    ensures Receive(max, pending, heads + more) == Receive(max, pending + Flatten(heads), more)
    decreases heads
  {
    if heads == [] {
      assert heads + more == more && pending + "" == pending;
    } else {
      var all := pending + heads[0];
      assert (heads + more)[1..] == heads[1..] + more;
      Regroup(pending, heads[0], Flatten(heads[1..]));
      assert OneLine(all) by { assert forall i :: 0 <= i < |all| ==> all[i] == (pending + Flatten(heads))[i]; }
      Unterminated(all);
      BufferGrows(max, all, heads[1..], more);
    }
  }

  lemma OneLongRead(max: nat, head: string, tail: string)
    requires OneLine(head) && OneLine(tail) && |head + tail| > max
    ensures Receive(max, head, [tail + "\n"]) == []
  {
    assert head + (tail + "\n") == head + tail + "\n" && [tail + "\n"][1..] == [];
    SoleLine(head + tail);
  }

  lemma ByteTooMany(max: nat, head: string, c: char, more: seq<string>)
    requires OneLine(head) && |head| == max && c != '\n'
    ensures Receive(max, head, [[c]] + more) == Receive(max, "", more)
  {
    Unterminated(head + [c]);
    assert ([[c]] + more)[1..] == more;
  }

  lemma LoneLine(max: nat, line: string)
    requires OneLine(line)
    ensures Receive(max, "", [line + "\n"] + []) == Deliver(line, max)
  {
    SoleLine(line);
    OneRead(max, line + "\n", []);
  }

  lemma OneRead(max: nat, chunk: string, more: seq<string>)
    ensures Receive(max, "", [chunk] + more) == DeliverAll(Lines(chunk), max) + Receive(max, Buffered(chunk, max), more)
  {
    assert "" + chunk == chunk && ([chunk] + more)[1..] == more;
  }

  lemma SoleLine(line: string)
    requires OneLine(line)
    ensures Lines(line + "\n") == [line] && Rest(line + "\n") == ""
    ensures forall max :: DeliverAll([line], max) == Deliver(line, max)
  {
    Unterminated(line);
    assert (line + "\n")[..|line|] == line;
    assert [line][1..] == [];
  }

  // ---------- exactly when cutting does not matter ----------

  /** Where the last possible tail of an oversized segment begins: after a dropped head, and within the limit. */
  function TailFrom(segment: string, max: nat): (q: nat)
    requires |segment| > max
    ensures max < q <= |segment| && |segment| - q <= max
  {
    if |segment| > 2 * max + 1 then |segment| - max else max + 1
  }

  /** No cut of an oversized segment leaves a tail that would be delivered. */
  predicate Safe(segment: string, max: nat) {
    |segment| > max ==> Strip(segment[TailFrom(segment, max)..]) == ""
  }

  predicate AllSafe(segments: seq<string>, max: nat) {
    forall i :: 0 <= i < |segments| ==> Safe(segments[i], max)
  }

  lemma SafeConcat(a: seq<string>, b: seq<string>, max: nat)
    ensures AllSafe(a + b, max) <==> AllSafe(a, max) && AllSafe(b, max)
  {
    assert forall i :: 0 <= i < |a| ==> (a + b)[i] == a[i];
    assert forall i :: 0 <= i < |b| ==> b[i] == (a + b)[|a| + i];
  }

  lemma {:induction false} DeliverConcat(a: seq<string>, b: seq<string>, max: nat)
    ensures DeliverAll(a + b, max) == DeliverAll(a, max) + DeliverAll(b, max)
    decreases a
  {
    if a == [] {
      assert a + b == b;
    } else {
      assert (a + b)[1..] == a[1..] + b;
      DeliverConcat(a[1..], b, max);
    }
  }

  /** Of a safe segment the same is delivered, whether its head was dropped or not. */
  lemma SafeSegment(lost: string, line: string, max: nat)
    requires Lost(lost, max) && Safe(lost + line, max)
    ensures Deliver(line, max) == Deliver(lost + line, max)
  {
    var segment := lost + line;
    if lost == "" {
      assert segment == line;
    } else if |line| <= max {
      var q := TailFrom(segment, max);
      assert segment[q..] == lost[q..] + line;
      StripConcat(lost[q..], line);
    }
  }

  lemma SafeLines(lost: string, all: string, max: nat)
    requires Lost(lost, max) && AllSafe(Lines(lost + all), max)
    ensures DeliverAll(Lines(all), max) == DeliverAll(Lines(lost + all), max)
  {
    var k := Find(all);
    if k == |all| {
      assert all[..k] == all;
      Unterminated(all);
      Unterminated(lost + all);
    } else {
      SplitLost(lost, all, k);
      FirstSafe(lost, all[..k], Lines(all[k + 1..]), max);
    }
  }

  lemma FirstSafe(lost: string, first: string, others: seq<string>, max: nat)
    requires Lost(lost, max) && AllSafe([lost + first] + others, max)
    ensures DeliverAll([first] + others, max) == DeliverAll([lost + first] + others, max)
  {
    assert ([lost + first] + others)[0] == lost + first;
    SafeSegment(lost, first, max);
    assert ([first] + others)[1..] == others && ([lost + first] + others)[1..] == others;
  }

  /** A stream of safe segments is delivered alike however it is cut. */
  lemma {:induction false} ReceiveSafe(lost: string, pending: string, chunks: seq<string>, max: nat)
    requires Lost(lost, max) && OneLine(pending) && AllSafe(Segments(lost + pending + Flatten(chunks)), max)
    ensures Receive(max, pending, chunks) == DeliverAll(Segments(lost + pending + Flatten(chunks)), max)
    decreases chunks
  {
    if chunks == [] {
      assert lost + pending + Flatten(chunks) == lost + pending;
      CloseSafe(lost, pending, max);
    } else {
      var all := pending + chunks[0];
      var lost' := ReadOutcome(lost, all, max);
      var later := Segments(Rest(lost + all) + Flatten(chunks[1..]));
      RestIsOneLine(all);
      StreamSplit(lost, pending, chunks);
      SafeConcat(Lines(lost + all), later, max);
      DeliverConcat(Lines(lost + all), later, max);
      SafeLines(lost, all, max);
      ReceiveSafe(lost', Buffered(all, max), chunks[1..], max);
    }
  }

  lemma CloseSafe(lost: string, pending: string, max: nat)
    requires Lost(lost, max) && OneLine(pending) && AllSafe(Segments(lost + pending), max)
    ensures Deliver(pending, max) == DeliverAll(Segments(lost + pending), max)
  {
    var s := lost + pending;
    Unterminated(s);
    assert Segments(s) == [s] && [s][1..] == [] && [s][0] == s;
    SafeSegment(lost, pending, max);
  }

  /** One read of a whole stream delivers every segment that fits. */
  lemma WholeRead(stream: string, max: nat)
    ensures Receive(max, "", [stream]) == DeliverAll(Segments(stream), max)
  {
    assert [stream] + [] == [stream];
    OneRead(max, stream, []);
    DeliverConcat(Lines(stream), [Rest(stream)], max);
    assert [Rest(stream)][1..] == [];
  }

  /** The segments of what follows a newline, or none at the end of the stream. */
  function Others(after: string): seq<string> {
    if after == "" then [] else Segments(after[1..])
  }

  predicate Ends(after: string) {
    after == "" || after[0] == '\n'
  }

  lemma FirstSegment(segment: string, after: string)
    requires OneLine(segment) && Ends(after)
    ensures Segments(segment + after) == [segment] + Others(after)
  {
    if after == "" {
      assert segment + after == segment;
      Unterminated(segment);
    } else {
      assert segment + after == segment + "\n" + after[1..];
      FirstLine(segment, after[1..]);
    }
  }

  /** Where a segment stands in its stream. */
  lemma {:induction false} SegmentAt(stream: string, i: nat) returns (before: string, after: string)
    requires i < |Segments(stream)|
    ensures var segment := Segments(stream)[i];
            && stream == before + (segment + after) && Rest(before) == "" && OneLine(segment) && Ends(after)
    decreases stream
  {
    var k := Find(stream);
    if k == |stream| {
      assert stream[..k] == stream;
      Unterminated(stream);
      before, after := "", "";
      assert stream == "" + (stream + "");
    } else {
      var line, tail := stream[..k], stream[k + 1..];
      assert stream == line + "\n" + tail;
      FirstLine(line, tail);
      assert Segments(stream) == [line] + Segments(tail);
      if i == 0 {
        before, after := "", stream[k..];
        assert stream == "" + (line + stream[k..]);
      } else {
        var start;
        start, after := SegmentAt(tail, i - 1);
        before := AfterLine(line, start, Segments(tail)[i - 1] + after);
      }
    }
  }

  lemma AfterLine(line: string, start: string, more: string) returns (before: string)
    requires OneLine(line) && Rest(start) == ""
    ensures Rest(before) == "" && line + "\n" + (start + more) == before + more
  {
    before := line + "\n" + start;
    FirstLine(line, start);
    Regroup(line + "\n", start, more);
  }

  /** An unsafe segment: read whole it is dropped, cut inside it leaves a tail that is delivered. */
  lemma CutMatters(before: string, segment: string, after: string, max: nat)
    requires Rest(before) == "" && OneLine(segment) && Ends(after) && !Safe(segment, max)
    ensures var q := TailFrom(segment, max);
            Receive(max, "", [before + segment[..q]] + [segment[q..] + after]) != Receive(max, "", [before + (segment + after)])
  {
    var q := TailFrom(segment, max);
    CutRead(before, segment[..q], segment[q..], after, max);
    WholeAt(before, segment, after, max);
    OneMore(Lines(before), segment, segment[q..], Others(after), max);
  }

  /** A read that ends inside a segment, past the limit: its head is dropped, its tail starts afresh. */
  lemma CutRead(before: string, a: string, b: string, after: string, max: nat)
    requires Rest(before) == "" && OneLine(a) && |a| > max && OneLine(b) && Ends(after)
    ensures Receive(max, "", [before + a] + [b + after]) == DeliverAll(Lines(before), max) + DeliverAll([b] + Others(after), max)
  {
    LinesConcat(before, a);
    assert "" + a == a;
    Unterminated(a);
    assert Lines(before) + [] == Lines(before);
    OneRead(max, before + a, [b + after]);
    WholeRead(b + after, max);
    FirstSegment(b, after);
  }

  lemma WholeAt(before: string, segment: string, after: string, max: nat)
    requires Rest(before) == "" && OneLine(segment) && Ends(after)
    ensures Receive(max, "", [before + (segment + after)]) == DeliverAll(Lines(before) + ([segment] + Others(after)), max)
  {
    WholeRead(before + (segment + after), max);
    SegmentsConcat(before, segment + after);
    assert "" + (segment + after) == segment + after;
    FirstSegment(segment, after);
  }

  lemma OneMore(before: seq<string>, dropped: string, kept: string, others: seq<string>, max: nat)
    requires |dropped| > max && |kept| <= max && Strip(kept) != ""
    ensures DeliverAll(before, max) + DeliverAll([kept] + others, max) != DeliverAll(before + ([dropped] + others), max)
  {
    DeliverConcat(before, [dropped] + others, max);
    assert ([dropped] + others)[1..] == others && ([kept] + others)[1..] == others;
    assert |DeliverAll([kept] + others, max)| == 1 + |DeliverAll([dropped] + others, max)|;
  }

  lemma FlattenOne(a: string)
    ensures Flatten([a]) == a
  {
    assert [a][1..] == [] && a + "" == a;
  }

  lemma FlattenPair(a: string, b: string)
    ensures Flatten([a] + [b]) == a + b
  {
    assert ([a] + [b])[1..] == [b];
    FlattenOne(b);
  }

  /** All ways of cutting a stream into reads deliver the same. */
  ghost predicate CutIndependent(stream: string, max: nat) {
    forall a, b :: Flatten(a) == stream && Flatten(b) == stream ==> Receive(max, "", a) == Receive(max, "", b)
  }

  /** Exactly when no oversized segment has a tail, behind a dropped head and within the limit, that would be delivered. */
  lemma CutIndependentIff(stream: string, max: nat)
    ensures CutIndependent(stream, max) <==> AllSafe(Segments(stream), max)
  {
    if AllSafe(Segments(stream), max) {
      forall a | Flatten(a) == stream
        ensures Receive(max, "", a) == DeliverAll(Segments(stream), max)
      {
        assert "" + "" + Flatten(a) == stream;
        ReceiveSafe("", "", a, max);
      }
    } else {
      var i :| 0 <= i < |Segments(stream)| && !Safe(Segments(stream)[i], max);
      UnsafeDiffers(stream, i, max);
    }
  }

  lemma UnsafeDiffers(stream: string, i: nat, max: nat)
    requires i < |Segments(stream)| && !Safe(Segments(stream)[i], max)
    ensures !CutIndependent(stream, max)
  {
    var segment := Segments(stream)[i];
    var before, after := SegmentAt(stream, i);
    CutMatters(before, segment, after, max);
    var a, b := TwoCuts(before, segment, TailFrom(segment, max), after);
  }

  /** A stream read at once, and read in two parts. */
  lemma TwoCuts(before: string, segment: string, q: nat, after: string) returns (a: seq<string>, b: seq<string>)
    requires q <= |segment|
    ensures a == [before + segment[..q]] + [segment[q..] + after] && b == [before + (segment + after)]
    ensures Flatten(a) == Flatten(b) == before + (segment + after)
  {
    a, b := [before + segment[..q]] + [segment[q..] + after], [before + (segment + after)];
    Rejoin(before, segment, q, after);
    FlattenPair(before + segment[..q], segment[q..] + after);
    FlattenOne(before + (segment + after));
  }

  lemma Rejoin<T>(a: seq<T>, b: seq<T>, q: nat, c: seq<T>)
    requires q <= |b|
    ensures (a + b[..q]) + (b[q..] + c) == a + (b + c)
  {
  }
}
