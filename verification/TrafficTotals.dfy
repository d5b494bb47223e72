/**
 The per-device byte totals behind /api/device-traffic-24h: one pass over interleaved rows with one accumulator per
 device, then a ranking cut at a limit. Sums are std::uint64_t and wrap.
 */
module TrafficTotals {
  import opened Sequences
  import opened Telemetry
  import opened Text
  import opened TrafficRows

  const M: int := 0x1_0000_0000_0000_0000

  function Wrap(x: int): Counter {
    x % M
  }

  datatype Total = Total(mac: string, ip: string, hostname: string, firstTs: int, lastTs: int,
                         rx: Counter, tx: Counter, samples: nat)

  // ---------- what a total means ----------

  /** The counter values lost at resets: each value that was followed by a smaller one. */
  function PreReset(rows: seq<Row>, dir: Direction): nat {
    if |rows| < 2 then 0
    else
      var n := |rows| - 1;
      PreReset(rows[..n], dir) + if Bytes(rows[n], dir) < Bytes(rows[n - 1], dir) then Bytes(rows[n - 1], dir) else 0
  }

  /** Last minus first counter, plus what resets threw away. */
  function Counted(rows: seq<Row>, dir: Direction): int {
    if rows == [] then 0
    else Bytes(rows[|rows| - 1], dir) - Bytes(rows[0], dir) + PreReset(rows, dir)
  }

  function TotalOf(rows: seq<Row>): Total
    requires rows != []
  {
    var first, last := rows[0], rows[|rows| - 1];
    Total(Lower(first.mac), first.ip, first.hostname, FromUnixSeconds(first.ts), FromUnixSeconds(last.ts),
          Wrap(Counted(rows, Rx)), Wrap(Counted(rows, Tx)), |rows|)
  }

  /** What one more row adds: the counter step, or after a reset the whole new counter. */
  function Increment(p: Row, q: Row, dir: Direction): nat {
    if Bytes(q, dir) >= Bytes(p, dir) then Bytes(q, dir) - Bytes(p, dir) else Bytes(q, dir)
  }

  lemma CountedSnoc(rows: seq<Row>, q: Row, dir: Direction)
    requires rows != []
    ensures Counted(rows + [q], dir) == Counted(rows, dir) + Increment(rows[|rows| - 1], q, dir)
  {
    assert (rows + [q])[..|rows|] == rows;
  }

  lemma {:induction false} CountedNonnegative(rows: seq<Row>, dir: Direction)
    ensures Counted(rows, dir) >= 0
  {
    if |rows| > 1 {
      var n := |rows| - 1;
      CountedNonnegative(rows[..n], dir);
      assert rows == rows[..n] + [rows[n]];
      CountedSnoc(rows[..n], rows[n], dir);
    }
  }

  /** Totals add up when a window is split at a shared sample. */
  lemma {:induction false} CountedSplit(a: seq<Row>, x: Row, b: seq<Row>, dir: Direction)
    ensures Counted(a + [x] + b, dir) == Counted(a + [x], dir) + Counted([x] + b, dir)
    decreases |b|
  {
    if b == [] {
      assert a + [x] + b == a + [x] && [x] + b == [x];
    } else {
      var n := |b| - 1;
      CountedSplit(a, x, b[..n], dir);
      assert a + [x] + b == (a + [x] + b[..n]) + [b[n]] && [x] + b == ([x] + b[..n]) + [b[n]];
      CountedSnoc(a + [x] + b[..n], b[n], dir);
      CountedSnoc([x] + b[..n], b[n], dir);
    }
  }

  // ---------- the pass ----------

  datatype Accumulator = Accumulator(total: Total, previousRx: Counter, previousTx: Counter, hasPrevious: bool)

  const FRESH := Accumulator(Total("", "", "", 0, 0, 0, 0, 0), 0, 0, false)

  /** The accumulator after the rows of its device. */
  function AccOf(rows: seq<Row>): Accumulator {
    if rows == [] then FRESH
    else var last := rows[|rows| - 1]; Accumulator(TotalOf(rows), last.rx, last.tx, true)
  }

  lemma WrapAdd(x: int, y: int)
    ensures Wrap(Wrap(x) + y) == Wrap(x + y)
  {
  }

  /** A wrapped sum after one more counter value. */
  function Grown(sum: Counter, value: Counter, previous: Counter): Counter {
    Wrap(sum + if value >= previous then value - previous else value)
  }

  lemma GrownCounts(rows: seq<Row>, row: Row, dir: Direction)
    requires rows != []
    ensures Grown(Wrap(Counted(rows, dir)), Bytes(row, dir), Bytes(rows[|rows| - 1], dir)) == Wrap(Counted(rows + [row], dir))
  {
    CountedSnoc(rows, row, dir);
    WrapAdd(Counted(rows, dir), Increment(rows[|rows| - 1], row, dir));
  }

  lemma AccOfSnoc(rows: seq<Row>, row: Row)
    requires rows != []
    ensures var acc := AccOf(rows);
            var total := acc.total.(rx := Grown(acc.total.rx, row.rx, acc.previousRx), tx := Grown(acc.total.tx, row.tx, acc.previousTx),
                         lastTs := FromUnixSeconds(row.ts), samples := acc.total.samples + 1);
            AccOf(rows + [row]) == Accumulator(total, row.rx, row.tx, true)
  {
    GrownCounts(rows, row, Rx);
    GrownCounts(rows, row, Tx);
  }

  /** The loop body on one accumulator. */
  method Absorb(acc: Accumulator, row: Row, ghost rows: seq<Row>) returns (out: Accumulator)
    requires acc == AccOf(rows)
    ensures out == AccOf(rows + [row])
  {
    var total := acc.total;
    if total.samples == 0 {
      total := total.(mac := Lower(row.mac), ip := row.ip, hostname := row.hostname, firstTs := FromUnixSeconds(row.ts));
      assert rows + [row] == [row];
    } else if acc.hasPrevious {
      total := total.(rx := Grown(total.rx, row.rx, acc.previousRx), tx := Grown(total.tx, row.tx, acc.previousTx));
      AccOfSnoc(rows, row);
    }
    total := total.(lastTs := FromUnixSeconds(row.ts), samples := total.samples + 1);
    out := Accumulator(total, row.rx, row.tx, true);
  }

  method Accumulate(rows: seq<Row>) returns (byDevice: map<string, Accumulator>)
    ensures byDevice.Keys == Devices(rows)
    ensures forall k :: k in byDevice ==> byDevice[k] == AccOf(Of(rows, k))
  {
    byDevice := map[];
    ghost var groups: map<string, seq<Row>> := map[];
    for i := 0 to |rows|
      invariant Grouped(groups, rows[..i])
      invariant byDevice.Keys == groups.Keys
      invariant forall k :: k in byDevice ==> byDevice[k] == AccOf(groups[k])
    {
      var row := rows[i];
      var key := KeyOf(row);
      assert rows[..i + 1] == rows[..i] + [row];
      if key == NOBODY {
        GroupedSkip(groups, rows[..i], row);
        continue;
      }
      GroupedStep(groups, rows[..i], row, key);
      var acc := Absorb(if key in byDevice then byDevice[key] else FRESH, row, GroupOf(groups, key));
      byDevice := byDevice[key := acc];
      groups := groups[key := GroupOf(groups, key) + [row]];
    }
    assert rows[..|rows|] == rows;
  }

  // ---------- ranking ----------

  /** The comparator of the final sort: more bytes first, then the later last sample. */
  predicate Outranks(a: Total, b: Total) {
    var x, y := Wrap(a.rx + a.tx), Wrap(b.rx + b.tx);
    x > y || (x == y && a.lastTs > b.lastTs)
  }

  predicate Ranked(totals: seq<Total>) {
    forall i, j :: 0 <= i < j < |totals| ==> !Outranks(totals[j], totals[i])
  }

  /** The totals of the listed devices, in list order. */
  ghost predicate TotalsOf(rows: seq<Row>, keys: seq<string>, totals: seq<Total>) {
    && |keys| == |totals|
    && forall i :: 0 <= i < |keys| ==> Of(rows, keys[i]) != [] && totals[i] == TotalOf(Of(rows, keys[i]))
  }

  /** Stands for std::sort: puts one more total into a ranked sequence. */
  method InsertRanked(totals: seq<Total>, x: Total) returns (at: nat)
    requires Ranked(totals)
    ensures at <= |totals| && Ranked(totals[..at] + [x] + totals[at..])
  {
    at := 0;
    while at < |totals| && !Outranks(x, totals[at])
      invariant at <= |totals|
      invariant forall i :: 0 <= i < at ==> !Outranks(x, totals[i])
    {
      at := at + 1;
    }
    forall j | at <= j < |totals|
      ensures !Outranks(totals[j], x)
    {
      assert !Outranks(totals[j], totals[at]) || j == at;
    }
  }

  lemma EnumerationSplice(keys: seq<string>, all: set<string>, key: string, at: nat)
    requires Enumerates(keys, all) && key !in all && at <= |keys|
    ensures Enumerates(keys[..at] + [key] + keys[at..], all + {key})
  {
    var s := keys[..at] + [key] + keys[at..];
    assert keys == keys[..at] + keys[at..];
    forall e
      ensures e in s <==> e in all + {key}
    {
      assert e in s <==> e in keys[..at] || e == key || e in keys[at..];
      assert e in keys <==> e in keys[..at] || e in keys[at..];
    }
  }

  lemma TotalsSplice(rows: seq<Row>, keys: seq<string>, totals: seq<Total>, key: string, at: nat)
    requires TotalsOf(rows, keys, totals) && Of(rows, key) != [] && at <= |keys|
    ensures TotalsOf(rows, keys[..at] + [key] + keys[at..], totals[..at] + [TotalOf(Of(rows, key))] + totals[at..])
  {
    var ks, ts := keys[..at] + [key] + keys[at..], totals[..at] + [TotalOf(Of(rows, key))] + totals[at..];
    forall i | 0 <= i < |ks|
      ensures Of(rows, ks[i]) != [] && ts[i] == TotalOf(Of(rows, ks[i]))
    {
      if i < at {
        assert ks[i] == keys[i] && ts[i] == totals[i];
      } else if i > at {
        assert ks[i] == keys[i - 1] && ts[i] == totals[i - 1];
      }
    }
  }

  /** All totals of a window, ranked. */
  method RankTotals(rows: seq<Row>, byDevice: map<string, Accumulator>) returns (out: seq<Total>, ghost keys: seq<string>)
    requires byDevice.Keys == Devices(rows)
    requires forall k :: k in byDevice ==> byDevice[k] == AccOf(Of(rows, k))
    ensures Ranked(out) && Enumerates(keys, Devices(rows)) && TotalsOf(rows, keys, out)
  {
    out, keys := [], [];
    var todo := byDevice.Keys;
    while todo != {}
      invariant todo <= byDevice.Keys
      invariant Ranked(out) && Enumerates(keys, byDevice.Keys - todo) && TotalsOf(rows, keys, out)
      decreases todo
    {
      var key :| key in todo;
      var at := InsertRanked(out, byDevice[key].total);
      EnumerationSplice(keys, byDevice.Keys - todo, key, at);
      TotalsSplice(rows, keys, out, key, at);
      assert byDevice.Keys - todo + {key} == byDevice.Keys - (todo - {key});
      out := out[..at] + [byDevice[key].total] + out[at..];
      keys := keys[..at] + [key] + keys[at..];
      todo := todo - {key};
    }
  }

  /** Everything a total reports, from the rows of its device: the first row's names, both ends, wrapped sums. */
  predicate Exact(t: Total, rows: seq<Row>)
    requires rows != []
  {
    && t.mac == Lower(rows[0].mac) && t.ip == rows[0].ip && t.hostname == rows[0].hostname && t.samples == |rows|
    && t.firstTs == FromUnixSeconds(rows[0].ts) && t.lastTs == FromUnixSeconds(rows[|rows| - 1].ts)
    && t.rx == Counted(rows, Rx) % 0x1_0000_0000_0000_0000 && t.tx == Counted(rows, Tx) % 0x1_0000_0000_0000_0000
  }

  /** All bytes counted for a device, in both directions. */
  function Volume(rows: seq<Row>): int {
    Counted(rows, Rx) + Counted(rows, Tx)
  }

  /** A device may stand before another if it has more bytes modulo 2^64, or as many and no earlier last row. */
  predicate MayPrecede(a: seq<Row>, b: seq<Row>)
    requires a != [] && b != []
  {
    var x, y := Volume(a) % 0x1_0000_0000_0000_0000, Volume(b) % 0x1_0000_0000_0000_0000;
    x > y || (x == y && FromUnixSeconds(a[|a| - 1].ts) >= FromUnixSeconds(b[|b| - 1].ts))
  }

  predicate KeyMayPrecede(rows: seq<Row>, a: string, b: string) {
    Of(rows, a) != [] && Of(rows, b) != [] && MayPrecede(Of(rows, a), Of(rows, b))
  }

  predicate ExactFor(rows: seq<Row>, k: string, t: Total) {
    Of(rows, k) != [] && Exact(t, Of(rows, k))
  }

  predicate AllExact(rows: seq<Row>, keys: seq<string>, out: seq<Total>) {
    |keys| == |out| && forall i :: 0 <= i < |keys| ==> ExactFor(rows, keys[i], out[i])
  }

  predicate InOrder(rows: seq<Row>, keys: seq<string>) {
    forall i, j :: 0 <= i < j < |keys| ==> KeyMayPrecede(rows, keys[i], keys[j])
  }

  predicate NoneBetter(rows: seq<Row>, keys: seq<string>, devices: set<string>) {
    forall k, i :: k in devices && k !in keys && 0 <= i < |keys| ==> KeyMayPrecede(rows, keys[i], k)
  }

  /** One exact total per listed device, in order; and if the limit drops devices, every kept one may precede them. */
  ghost predicate Top(rows: seq<Row>, limit: nat, keys: seq<string>, out: seq<Total>) {
    && |out| == (if 0 < limit < |Devices(rows)| then limit else |Devices(rows)|)
    && Distinct(keys) && (forall k :: k in keys ==> k in Devices(rows))
    && AllExact(rows, keys, out) && InOrder(rows, keys) && NoneBetter(rows, keys, Devices(rows))
  }

  lemma OutranksIff(a: seq<Row>, b: seq<Row>)
    requires a != [] && b != []
    ensures Exact(TotalOf(a), a)
    ensures !Outranks(TotalOf(b), TotalOf(a)) <==> MayPrecede(a, b)
  {
    WrapSum(Counted(a, Rx), Counted(a, Tx));
    WrapSum(Counted(b, Rx), Counted(b, Tx));
  }

  lemma WrapSum(x: int, y: int)
    ensures Wrap(Wrap(x) + Wrap(y)) == (x + y) % 0x1_0000_0000_0000_0000
  {
    WrapAdd(x, Wrap(y));
    WrapAdd(y, x);
  }

  /** deviceTrafficTotals over the rows its query returns. */
  method DeviceTrafficTotals(rows: seq<Row>, limit: nat) returns (out: seq<Total>)
    ensures exists keys :: Top(rows, limit, keys, out)
  {
    var byDevice := Accumulate(rows);
    ghost var keys;
    out, keys := RankTotals(rows, byDevice);
    ghost var n := if 0 < limit < |out| then limit else |out|;
    RankedTop(rows, keys, out, limit, n);
    if limit > 0 && |out| > limit {
      out := out[..limit];
    } else {
      assert out[..n] == out;
    }
  }

  lemma RankedTop(rows: seq<Row>, keys: seq<string>, totals: seq<Total>, limit: nat, n: nat)
    requires Ranked(totals) && Enumerates(keys, Devices(rows)) && TotalsOf(rows, keys, totals)
    requires n == if 0 < limit < |totals| then limit else |totals|
    ensures exists kept :: Top(rows, limit, kept, totals[..n])
  {
    EnumerationSize(keys, Devices(rows));
    CutKeepsTheTop(rows, keys, totals, limit, n);
  }

  lemma AllInOrder(rows: seq<Row>, keys: seq<string>, totals: seq<Total>)
    requires Ranked(totals) && TotalsOf(rows, keys, totals)
    ensures AllExact(rows, keys, totals) && InOrder(rows, keys)
  {
    forall i | 0 <= i < |keys| ensures ExactFor(rows, keys[i], totals[i]) {
      OutranksIff(Of(rows, keys[i]), Of(rows, keys[i]));
    }
    forall i, j | 0 <= i < j < |keys| ensures KeyMayPrecede(rows, keys[i], keys[j]) {
      assert !Outranks(totals[j], totals[i]);
      OutranksIff(Of(rows, keys[i]), Of(rows, keys[j]));
    }
  }

  lemma CutInOrder(rows: seq<Row>, keys: seq<string>, devices: set<string>, n: nat)
    requires InOrder(rows, keys) && Enumerates(keys, devices) && n <= |keys|
    ensures InOrder(rows, keys[..n]) && NoneBetter(rows, keys[..n], devices)
  {
    forall k, i | k in devices && k !in keys[..n] && 0 <= i < n
      ensures KeyMayPrecede(rows, keys[i], k)
    {
      assert k in keys;
      var j :| 0 <= j < |keys| && keys[j] == k;
      assert j >= n by { assert forall m :: 0 <= m < n ==> keys[m] in keys[..n]; }
    }
  }

  lemma CutKeepsTheTop(rows: seq<Row>, keys: seq<string>, totals: seq<Total>, limit: nat, n: nat)
    requires Ranked(totals) && Enumerates(keys, Devices(rows)) && TotalsOf(rows, keys, totals) && |keys| == |Devices(rows)|
    requires n == if 0 < limit < |keys| then limit else |keys|
    ensures Top(rows, limit, keys[..n], totals[..n])
  {
    AllInOrder(rows, keys, totals);
    CutInOrder(rows, keys, Devices(rows), n);
    assert AllExact(rows, keys[..n], totals[..n]);
    assert Distinct(keys[..n]);
    assert forall k :: k in keys[..n] ==> k in keys;
  }

  /** While nothing wraps, no device that is left out has counted more than one that is listed. */
  lemma BusiestAreListed(rows: seq<Row>, limit: nat, keys: seq<string>, out: seq<Total>, i: nat, k: string)
    requires Top(rows, limit, keys, out) && i < |keys| && k in Devices(rows) && k !in keys
    requires Volume(Of(rows, k)) < 0x1_0000_0000_0000_0000 && Volume(Of(rows, keys[i])) < 0x1_0000_0000_0000_0000
    ensures Volume(Of(rows, k)) <= Volume(Of(rows, keys[i])) == out[i].rx + out[i].tx
  {
    assert KeyMayPrecede(rows, keys[i], k) && ExactFor(rows, keys[i], out[i]);
    Unwrapped(Of(rows, keys[i]));
    Unwrapped(Of(rows, k));
  }

  lemma Unwrapped(rows: seq<Row>)
    requires Volume(rows) < 0x1_0000_0000_0000_0000
    ensures Volume(rows) % 0x1_0000_0000_0000_0000 == Volume(rows)
    ensures Counted(rows, Rx) % 0x1_0000_0000_0000_0000 == Counted(rows, Rx)
    ensures Counted(rows, Tx) % 0x1_0000_0000_0000_0000 == Counted(rows, Tx)
  {
    CountedNonnegative(rows, Rx);
    CountedNonnegative(rows, Tx);
  }
}
