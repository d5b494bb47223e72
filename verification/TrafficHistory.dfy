/**
 The rate history behind /api/traffic-history: one pass over the newest rows, remembering the previous sample of each
 device, that adds every positive, reset-free step to its five-second bucket.
 */
module TrafficHistory {
  import opened Sequences
  import opened Telemetry
  import opened TrafficRows
  import opened TrafficTotals

  /** C++ remainder: the sign of the dividend. */
  function Rem(x: int, m: int): int
    requires m > 0
  {
    if x >= 0 then x % m else -(-x % m)
  }

  /** The multiple of five seconds toward zero. */
  function BucketTs(ts: int): (b: int)
    ensures b % 5 == 0 && if ts >= 0 then b <= ts < b + 5 else b - 5 < ts <= b
  {
    ts - Rem(ts, 5)
  }

  // ---------- meaning ----------

  /** The index of the device's row before row i, or -1. */
  function PrevIndex(rows: seq<Row>, key: string, i: nat): (j: int)
    requires i <= |rows|
    ensures -1 <= j < i
    ensures j >= 0 ==> KeyOf(rows[j]) == key
    ensures forall m :: j < m < i ==> KeyOf(rows[m]) != key
  {
    if i == 0 then -1 else if KeyOf(rows[i - 1]) == key then i - 1 else PrevIndex(rows, key, i - 1)
  }

  /** Two samples of a device yield a rate: time advanced and neither counter fell. */
  predicate Steady(p: Row, q: Row) {
    p.ts < q.ts && p.rx <= q.rx && p.tx <= q.tx
  }

  predicate Contributes(rows: seq<Row>, i: nat)
    requires i < |rows|
  {
    var j := PrevIndex(rows, KeyOf(rows[i]), i);
    KeyOf(rows[i]) != NOBODY && j >= 0 && Steady(rows[j], rows[i])
  }

  function StepRate(p: Row, q: Row, dir: Direction): real
    requires p.ts < q.ts
  {
    (Bytes(q, dir) - Bytes(p, dir)) as real * 8.0 / (q.ts - p.ts) as real
  }

  datatype Bucket = Bucket(rx: real, tx: real, samples: nat)

  const NONE := Bucket(0.0, 0.0, 0)

  function Add(bucket: Bucket, p: Row, q: Row): Bucket
    requires p.ts < q.ts
  {
    Bucket(bucket.rx + StepRate(p, q, Rx), bucket.tx + StepRate(p, q, Tx), bucket.samples + 1)
  }

  /** What the first n rows put into bucket b. */
  function BucketOf(rows: seq<Row>, n: nat, b: int): Bucket
    requires n <= |rows|
  {
    if n == 0 then NONE
    else
      var rest := BucketOf(rows, n - 1, b);
      var q := rows[n - 1];
      if Contributes(rows, n - 1) && BucketTs(q.ts) == b then
        var p := rows[PrevIndex(rows, KeyOf(q), n - 1)];
        Add(rest, p, q)
      else rest
  }

  /** How many of the first n rows contribute. */
  function Contributors(rows: seq<Row>, n: nat): nat
    requires n <= |rows|
  {
    if n == 0 then 0 else Contributors(rows, n - 1) + if Contributes(rows, n - 1) then 1 else 0
  }

  // ---------- the pass ----------

  /** The map remembers the last sample of every device seen. */
  ghost predicate Remembers(previous: map<string, Row>, rows: seq<Row>, n: nat)
    requires n <= |rows|
  {
    forall k :: k != NOBODY ==>
                  (k in previous <==> PrevIndex(rows, k, n) >= 0) &&
                  (k in previous ==> previous[k] == rows[PrevIndex(rows, k, n)])
  }

  ghost predicate Filled(buckets: map<int, Bucket>, rows: seq<Row>, n: nat)
    requires n <= |rows|
  {
    forall b :: (b in buckets <==> BucketOf(rows, n, b).samples > 0) &&
                BucketOf(rows, n, b) == if b in buckets then buckets[b] else NONE
  }

  lemma RemembersStep(previous: map<string, Row>, rows: seq<Row>, n: nat)
    requires n < |rows| && Remembers(previous, rows, n)
    ensures var key := KeyOf(rows[n]);
            Remembers(if key == NOBODY then previous else previous[key := rows[n]], rows, n + 1)
  {
  }

  lemma FilledSkip(buckets: map<int, Bucket>, rows: seq<Row>, n: nat)
    requires n < |rows| && Filled(buckets, rows, n) && !Contributes(rows, n)
    ensures Filled(buckets, rows, n + 1)
  {
    assert forall b :: BucketOf(rows, n + 1, b) == BucketOf(rows, n, b);
  }

  lemma FilledAdd(buckets: map<int, Bucket>, rows: seq<Row>, n: nat)
    requires n < |rows| && Filled(buckets, rows, n) && Contributes(rows, n)
    ensures var q := rows[n];
            var b, p := BucketTs(q.ts), rows[PrevIndex(rows, KeyOf(q), n)];
            Filled(buckets[b := Add(if b in buckets then buckets[b] else NONE, p, q)], rows, n + 1)
  {
    var q := rows[n];
    forall b | b != BucketTs(q.ts)
      ensures BucketOf(rows, n + 1, b) == BucketOf(rows, n, b)
    {
    }
  }

  /** The row loop of trafficHistory. */
  method FillBuckets(rows: seq<Row>) returns (buckets: map<int, Bucket>)
    ensures Filled(buckets, rows, |rows|)
  {
    var previous: map<string, Row> := map[];
    buckets := map[];
    for i := 0 to |rows|
      invariant Remembers(previous, rows, i)
      invariant Filled(buckets, rows, i)
    {
      var q := rows[i];
      var key := KeyOf(q);
      RemembersStep(previous, rows, i);
      if key == NOBODY {
        FilledSkip(buckets, rows, i);
        continue;
      }
      if key in previous {
        var p := previous[key];
        var dt := q.ts - p.ts;
        var reset := q.rx < p.rx || q.tx < p.tx;
        if dt > 0 && !reset {
          FilledAdd(buckets, rows, i);
          var b := BucketTs(q.ts);
          buckets := buckets[b := Add(if b in buckets then buckets[b] else NONE, p, q)];
        } else {
          FilledSkip(buckets, rows, i);
        }
      } else {
        FilledSkip(buckets, rows, i);
      }
      previous := previous[key := q];
    }
  }

  // ---------- the result ----------

  datatype HistoryPoint = HistoryPoint(ts: int, rx: real, tx: real, samples: nat)

  /** A point shows its bucket's time, rates and number of samples. */
  predicate Shows(point: HistoryPoint, rows: seq<Row>, b: int) {
    var bucket := BucketOf(rows, |rows|, b);
    point.ts == b * 1_000_000_000 && point.rx == bucket.rx && point.tx == bucket.tx && point.samples == bucket.samples
  }

  /** The buckets that the first n rows touch. */
  function Stamps(rows: seq<Row>, n: nat): (r: set<int>)
    requires n <= |rows|
    ensures forall b :: b in r <==> BucketOf(rows, n, b).samples > 0
  {
    if n == 0 then {}
    else Stamps(rows, n - 1) + if Contributes(rows, n - 1) then {BucketTs(rows[n - 1].ts)} else {}
  }

  predicate Ascending(stamps: seq<int>) {
    forall i, j :: 0 <= i < j < |stamps| ==> stamps[i] < stamps[j]
  }

  ghost predicate PointsOf(rows: seq<Row>, stamps: seq<int>, out: seq<HistoryPoint>) {
    |out| == |stamps| && forall i :: 0 <= i < |out| ==> Shows(out[i], rows, stamps[i])
  }

  lemma {:induction false} Least(s: set<int>) returns (b: int)
    requires s != {}
    ensures b in s && forall c :: c in s ==> b <= c
    decreases s
  {
    b := Pick(s);
    if s != {b} {
      var rest := s - {b};
      assert s == rest + {b};
      var y := Least(rest);
      if y < b {
        b := y;
      }
    }
  }

  /** Iteration over the std::map: always the least key that is left. */
  method InOrder(rows: seq<Row>, buckets: map<int, Bucket>) returns (out: seq<HistoryPoint>, ghost stamps: seq<int>)
    requires Filled(buckets, rows, |rows|)
    ensures Ascending(stamps) && PointsOf(rows, stamps, out)
    ensures forall b :: b in stamps <==> b in Stamps(rows, |rows|)
  {
    out, stamps := [], [];
    var rest := buckets.Keys;
    while rest != {}
      invariant rest <= buckets.Keys
      invariant Ascending(stamps) && PointsOf(rows, stamps, out)
      invariant forall i, c :: 0 <= i < |stamps| && c in rest ==> stamps[i] < c
      invariant forall b :: b in stamps <==> b in buckets && b !in rest
      decreases rest
    {
      ghost var least := Least(rest);
      var b :| b in rest && forall c :: c in rest ==> b <= c;
      rest := rest - {b};
      out := out + [HistoryPoint(b * SECOND, buckets[b].rx, buckets[b].tx, buckets[b].samples)];
      stamps := stamps + [b];
    }
  }

  /** stamps lists the newest `wanted` of all stamps, oldest first. */
  ghost predicate Newest(all: set<int>, wanted: nat, stamps: seq<int>) {
    && Ascending(stamps)
    && |stamps| == (if |all| < wanted then |all| else wanted)
    && (forall b :: b in stamps ==> b in all)
    && (forall b, i :: b in all && b !in stamps && 0 <= i < |stamps| ==> b < stamps[i])
  }

  lemma CutToNewest(all: set<int>, wanted: nat, stamps: seq<int>)
    requires Ascending(stamps) && forall b :: b in stamps <==> b in all
    ensures Newest(all, wanted, LastN(stamps, wanted))
  {
    AscendingSize(stamps, all);
    var drop := |stamps| - |LastN(stamps, wanted)|;
    NewestKept(stamps, all, drop);
    assert stamps[drop..] == LastN(stamps, wanted);
  }

  lemma PointsSuffix(rows: seq<Row>, stamps: seq<int>, out: seq<HistoryPoint>, n: nat)
    requires PointsOf(rows, stamps, out)
    ensures PointsOf(rows, LastN(stamps, n), LastN(out, n))
  {
  }

  /** The number of buckets asked for: 180 by default, at most 720. */
  function Wanted(limit: nat): nat {
    if limit == 0 then 180 else if limit < 720 then limit else 720
  }

  /** trafficHistory over the whole table in (ts, id) order: of the newest rows, the newest buckets, oldest first. */
  method TrafficHistory(table: seq<Row>, limit: nat) returns (out: seq<HistoryPoint>)
    ensures var wanted := if limit == 0 then 180 else if limit < 720 then limit else 720;
            History(LastN(table, 12 * wanted), wanted, out)
  {
    var wanted := Wanted(limit);
    var rowLimit := if wanted * 12 > wanted then wanted * 12 else wanted;
    assert rowLimit == 12 * wanted;
    var rows := LastN(table, rowLimit);
    out := HistoryOf(rows, wanted);
  }

  /** The points of the newest `wanted` buckets, oldest first. */
  ghost predicate History(rows: seq<Row>, wanted: nat, out: seq<HistoryPoint>) {
    exists stamps :: Newest(Stamps(rows, |rows|), wanted, stamps) && PointsOf(rows, stamps, out)
  }

  method HistoryOf(rows: seq<Row>, wanted: nat) returns (out: seq<HistoryPoint>)
    ensures History(rows, wanted, out)
  {
    var buckets := FillBuckets(rows);
    ghost var stamps;
    out, stamps := InOrder(rows, buckets);
    CutToNewest(Stamps(rows, |rows|), wanted, stamps);
    PointsSuffix(rows, stamps, out, wanted);
    stamps := LastN(stamps, wanted);
    if |out| > wanted {
      out := out[|out| - wanted..];
    }
    assert Newest(Stamps(rows, |rows|), wanted, stamps) && PointsOf(rows, stamps, out);
  }

  lemma NewestKept(stamps: seq<int>, all: set<int>, drop: nat)
    requires Ascending(stamps) && drop <= |stamps| && forall b :: b in stamps <==> b in all
    ensures Ascending(stamps[drop..]) && forall b :: b in stamps[drop..] ==> b in all
    ensures forall b, i :: b in all && b !in stamps[drop..] && 0 <= i < |stamps[drop..]| ==> b < stamps[drop..][i]
  {
    forall b, i | b in all && b !in stamps[drop..] && 0 <= i < |stamps[drop..]|
      ensures b < stamps[drop..][i]
    {
      var j :| 0 <= j < |stamps| && stamps[j] == b;
      assert j < drop by { assert forall m :: drop <= m < |stamps| ==> stamps[m] in stamps[drop..]; }
      assert stamps[j] < stamps[drop + i];
    }
  }

  lemma {:induction false} AscendingSize(stamps: seq<int>, all: set<int>)
    requires Ascending(stamps) && forall b :: b in stamps <==> b in all
    ensures |stamps| == |all|
    decreases stamps
  {
    if stamps == [] {
      if all != {} {
        var b := Pick(all);
        assert false;
      }
    } else {
      var n := |stamps| - 1;
      AscendingSize(stamps[..n], all - {stamps[n]});
    }
  }

  // ---------- counting ----------

  /** Samples that the first n rows put into the listed buckets. */
  function SampleSum(rows: seq<Row>, n: nat, stamps: seq<int>): nat
    requires n <= |rows|
  {
    if stamps == [] then 0
    else SampleSum(rows, n, stamps[..|stamps| - 1]) + BucketOf(rows, n, stamps[|stamps| - 1]).samples
  }

  lemma {:induction false} SampleSumStep(rows: seq<Row>, n: nat, stamps: seq<int>)
    requires n < |rows| && Distinct(stamps)
    ensures SampleSum(rows, n + 1, stamps) == SampleSum(rows, n, stamps) +
            if Contributes(rows, n) && BucketTs(rows[n].ts) in stamps then 1 else 0
    decreases stamps
  {
    if stamps != [] {
      var m := |stamps| - 1;
      SampleSumStep(rows, n, stamps[..m]);
      assert BucketTs(rows[n].ts) in stamps <==> BucketTs(rows[n].ts) in stamps[..m] || BucketTs(rows[n].ts) == stamps[m];
    }
  }

  /** The sample counts of all buckets sum to the contributing rows: no row is counted twice or lost. */
  lemma {:induction false} SamplesAddUp(rows: seq<Row>, n: nat, stamps: seq<int>)
    requires n <= |rows| && Distinct(stamps) && forall b :: b in Stamps(rows, n) ==> b in stamps
    ensures SampleSum(rows, n, stamps) == Contributors(rows, n)
    decreases n
  {
    if n == 0 {
      EmptySum(rows, stamps);
    } else {
      SamplesAddUp(rows, n - 1, stamps);
      SampleSumStep(rows, n - 1, stamps);
      assert Contributes(rows, n - 1) ==> BucketTs(rows[n - 1].ts) in Stamps(rows, n);
    }
  }

  lemma {:induction false} EmptySum(rows: seq<Row>, stamps: seq<int>)
    ensures SampleSum(rows, 0, stamps) == 0
    decreases stamps
  {
    if stamps != [] { EmptySum(rows, stamps[..|stamps| - 1]); }
  }

  // ---------- against the totals ----------

  /** Bytes that the history turns into rates, for one device among the first n rows. */
  function HistoryBytes(rows: seq<Row>, n: nat, key: string, dir: Direction): int
    requires n <= |rows|
  {
    if n == 0 then 0
    else
      HistoryBytes(rows, n - 1, key, dir) +
      if KeyOf(rows[n - 1]) == key && Contributes(rows, n - 1)
      then Bytes(rows[n - 1], dir) - Bytes(rows[PrevIndex(rows, key, n - 1)], dir) else 0
  }

  /** A contributing row's rate times the seconds since the device's previous row is eight times its bytes. */
  lemma StepRateAccounts(p: Row, q: Row, dir: Direction)
    requires p.ts < q.ts
    ensures StepRate(p, q, dir) * (q.ts - p.ts) as real == 8.0 * (Bytes(q, dir) - Bytes(p, dir)) as real
  {
    var bits, dt := (Bytes(q, dir) - Bytes(p, dir)) as real * 8.0, (q.ts - p.ts) as real;
    assert bits / dt * dt == bits;
  }

  /** Row i is one of the rows that put something into bucket b. */
  predicate Feeds(rows: seq<Row>, i: nat, b: int)
    requires i < |rows|
  {
    Contributes(rows, i) && BucketTs(rows[i].ts) == b
  }

  /** The feeding rows among the first n, in order. */
  function Parts(rows: seq<Row>, n: nat, b: int): (r: seq<nat>)
    requires n <= |rows|
    ensures forall m :: 0 <= m < |r| ==> r[m] < n
  {
    if n == 0 then [] else Parts(rows, n - 1, b) + if Feeds(rows, n - 1, b) then [n - 1] else []
  }

  lemma {:induction false} PartsExact(rows: seq<Row>, n: nat, b: int, i: nat)
    requires n <= |rows|
    ensures i in Parts(rows, n, b) <==> i < n && Feeds(rows, i, b)
    decreases n
  {
    if n > 0 {
      PartsExact(rows, n - 1, b, i);
      assert i in Parts(rows, n, b) <==> i in Parts(rows, n - 1, b) || (i == n - 1 && Feeds(rows, n - 1, b));
    }
  }

  /** The rate times the seconds since the device's previous row is eight times the bytes since then. */
  predicate RateOfRow(rows: seq<Row>, i: nat, rate: real, dir: Direction)
    requires i < |rows|
  {
    var j, q := PrevIndex(rows, KeyOf(rows[i]), i), rows[i];
    j >= 0 && rows[j].ts < q.ts && rate * (q.ts - rows[j].ts) as real == 8.0 * (Bytes(q, dir) - Bytes(rows[j], dir)) as real
  }

  predicate RatesOfRows(rows: seq<Row>, parts: seq<nat>, rates: seq<real>, dir: Direction) {
    |rates| == |parts| && forall m :: 0 <= m < |parts| ==> parts[m] < |rows| && RateOfRow(rows, parts[m], rates[m], dir)
  }

  lemma RatesSnoc(rows: seq<Row>, parts: seq<nat>, rates: seq<real>, dir: Direction, i: nat, rate: real)
    requires RatesOfRows(rows, parts, rates, dir) && i < |rows| && RateOfRow(rows, i, rate, dir)
    ensures RatesOfRows(rows, parts + [i], rates + [rate], dir) && Sum(rates + [rate]) == Sum(rates) + rate
  {
    assert (rates + [rate])[..|rates|] == rates;
  }

  function BucketRate(bucket: Bucket, dir: Direction): real {
    if dir == Rx then bucket.rx else bucket.tx
  }

  lemma FedBucket(rows: seq<Row>, n: nat, b: int, dir: Direction) returns (rate: real)
    requires n < |rows| && Feeds(rows, n, b)
    ensures RateOfRow(rows, n, rate, dir)
    ensures var before, after := BucketOf(rows, n, b), BucketOf(rows, n + 1, b);
            BucketRate(after, dir) == BucketRate(before, dir) + rate && after.samples == before.samples + 1
  {
    var p, q := rows[PrevIndex(rows, KeyOf(rows[n]), n)], rows[n];
    rate := StepRate(p, q, dir);
    StepRateAccounts(p, q, dir);
  }

  lemma UnfedBucket(rows: seq<Row>, n: nat, b: int)
    requires n < |rows| && !Feeds(rows, n, b)
    ensures BucketOf(rows, n + 1, b) == BucketOf(rows, n, b)
  {
  }

  /** One rate per feeding row; together they are the bucket's rate. */
  predicate Accounts(rows: seq<Row>, bucket: Bucket, dir: Direction, parts: seq<nat>, rates: seq<real>) {
    RatesOfRows(rows, parts, rates, dir) && bucket.samples == |parts| && BucketRate(bucket, dir) == Sum(rates)
  }

  lemma NextAccounts(rows: seq<Row>, n: nat, b: int, dir: Direction, parts: seq<nat>, rates: seq<real>)
    returns (rates': seq<real>)
    requires n < |rows| && Accounts(rows, BucketOf(rows, n, b), dir, parts, rates)
    ensures Accounts(rows, BucketOf(rows, n + 1, b), dir, parts + if Feeds(rows, n, b) then [n] else [], rates')
  {
    if Feeds(rows, n, b) {
      var rate := FedBucket(rows, n, b, dir);
      RatesSnoc(rows, parts, rates, dir, n, rate);
      rates' := rates + [rate];
    } else {
      UnfedBucket(rows, n, b);
      assert parts + [] == parts;
      rates' := rates;
    }
  }

  /** A bucket's rate is the sum of one rate per contributing row of its five seconds, each worth the bytes of its row. */
  lemma {:induction false} BucketAccounts(rows: seq<Row>, n: nat, b: int, dir: Direction) returns (rates: seq<real>)
    requires n <= |rows|
    ensures Accounts(rows, BucketOf(rows, n, b), dir, Parts(rows, n, b), rates)
    decreases n
  {
    if n == 0 {
      rates := [];
    } else {
      rates := BucketAccounts(rows, n - 1, b, dir);
      rates := NextAccounts(rows, n - 1, b, dir, Parts(rows, n - 1, b), rates);
    }
  }

  lemma {:induction false} PrevIsLast(rows: seq<Row>, n: nat, key: string)
    requires n <= |rows|
    ensures var mine, j := Of(rows[..n], key), PrevIndex(rows, key, n);
            (mine == [] <==> j < 0) && (mine != [] ==> mine[|mine| - 1] == rows[j])
    decreases n
  {
    if n == 0 {
      assert rows[..0] == [];
    } else {
      PrevIsLast(rows, n - 1, key);
      OfNext(rows, n - 1, key);
    }
  }

  lemma OfNext(rows: seq<Row>, n: nat, key: string)
    requires n < |rows|
    ensures Of(rows[..n + 1], key) == if KeyOf(rows[n]) == key then Of(rows[..n], key) + [rows[n]] else Of(rows[..n], key)
  {
    assert rows[..n + 1] == rows[..n] + [rows[n]];
    OfSnoc(rows[..n], rows[n], key);
  }

  lemma CountedStep(rows: seq<Row>, n: nat, key: string, dir: Direction)
    requires n < |rows|
    ensures var mine, mine' := Of(rows[..n], key), Of(rows[..n + 1], key);
            Counted(mine', dir) == Counted(mine, dir) +
            if KeyOf(rows[n]) == key && mine != [] then Increment(mine[|mine| - 1], rows[n], dir) else 0
  {
    var q, mine := rows[n], Of(rows[..n], key);
    OfNext(rows, n, key);
    if mine == [] {
      assert mine + [q] == [q];
    } else {
      CountedSnoc(mine, q, dir);
    }
  }

  lemma HistoryBytesStep(rows: seq<Row>, n: nat, key: string, dir: Direction)
    requires n < |rows| && key != NOBODY
    ensures var mine := Of(rows[..n], key);
            HistoryBytes(rows, n + 1, key, dir) == HistoryBytes(rows, n, key, dir) +
            if KeyOf(rows[n]) == key && mine != [] && Steady(mine[|mine| - 1], rows[n])
            then Increment(mine[|mine| - 1], rows[n], dir) else 0
  {
    PrevIsLast(rows, n, key);
  }

  /** Bytes of a device that the totals count and the history does not. */
  function Missed(rows: seq<Row>, n: nat, key: string, dir: Direction): int
    requires n <= |rows|
  {
    Counted(Of(rows[..n], key), dir) - HistoryBytes(rows, n, key, dir)
  }

  lemma MissedStep(rows: seq<Row>, n: nat, key: string, dir: Direction)
    requires n < |rows| && key != NOBODY
    ensures var mine := Of(rows[..n], key);
            Missed(rows, n + 1, key, dir) == Missed(rows, n, key, dir) +
            if KeyOf(rows[n]) != key || mine == [] || Steady(mine[|mine| - 1], rows[n]) then 0
            else Increment(mine[|mine| - 1], rows[n], dir)
  {
    CountedStep(rows, n, key, dir);
    HistoryBytesStep(rows, n, key, dir);
  }

  lemma {:induction false} MissedNonnegative(rows: seq<Row>, n: nat, key: string, dir: Direction)
    requires n <= |rows| && key != NOBODY
    ensures Missed(rows, n, key, dir) >= 0
    decreases n
  {
    if n > 0 {
      MissedStep(rows, n - 1, key, dir);
      MissedNonnegative(rows, n - 1, key, dir);
    } else {
      assert rows[..0] == [];
    }
  }

  /** On the same rows, the history never accounts for more bytes of a device than the totals do. */
  lemma HistoryWithinTotals(rows: seq<Row>, key: string, dir: Direction)
    requires key != NOBODY
    ensures HistoryBytes(rows, |rows|, key, dir) <= Counted(Of(rows, key), dir)
  {
    MissedNonnegative(rows, |rows|, key, dir);
    assert rows[..|rows|] == rows;
  }

  /** Nothing the totals count between two samples escapes the history. */
  predicate NothingLost(p: Row, q: Row, dir: Direction) {
    Steady(p, q) || Increment(p, q, dir) == 0
  }

  predicate AllKept(mine: seq<Row>, dir: Direction) {
    forall i :: 0 < i < |mine| ==> NothingLost(mine[i - 1], mine[i], dir)
  }

  lemma AllKeptSnoc(mine: seq<Row>, q: Row, dir: Direction)
    requires mine != []
    ensures AllKept(mine + [q], dir) <==> AllKept(mine, dir) && NothingLost(mine[|mine| - 1], q, dir)
  {
    var all := mine + [q];
    if AllKept(all, dir) {
      forall i | 0 < i < |mine|
        ensures NothingLost(mine[i - 1], mine[i], dir)
      {
        assert NothingLost(all[i - 1], all[i], dir);
      }
      assert NothingLost(all[|mine| - 1], all[|mine|], dir);
    }
  }

  lemma {:induction false} NothingMissedIff(rows: seq<Row>, n: nat, key: string, dir: Direction)
    requires n <= |rows| && key != NOBODY
    ensures Missed(rows, n, key, dir) == 0 <==> AllKept(Of(rows[..n], key), dir)
    decreases n
  {
    if n > 0 {
      NothingMissedIff(rows, n - 1, key, dir);
      NothingMissedStep(rows, n - 1, key, dir);
    } else {
      assert rows[..0] == [];
    }
  }

  lemma NothingMissedStep(rows: seq<Row>, n: nat, key: string, dir: Direction)
    requires n < |rows| && key != NOBODY
    requires Missed(rows, n, key, dir) == 0 <==> AllKept(Of(rows[..n], key), dir)
    ensures Missed(rows, n + 1, key, dir) == 0 <==> AllKept(Of(rows[..n + 1], key), dir)
  {
    MissedNonnegative(rows, n, key, dir);
    MissedStep(rows, n, key, dir);
    KeptStep(rows, n, key, dir);
  }

  /** The two accounts of a device agree exactly when every step it counts is steady: time advances, no counter fell. */
  lemma AccountsAgreeIff(rows: seq<Row>, key: string, dir: Direction)
    requires key != NOBODY
    ensures HistoryBytes(rows, |rows|, key, dir) == Counted(Of(rows, key), dir) <==> AllKept(Of(rows, key), dir)
  {
    NothingMissedIff(rows, |rows|, key, dir);
    assert rows[..|rows|] == rows;
  }

  /** After a reset the totals count the new counter, the history nothing. */
  lemma ResetDisagrees(p: Row, q: Row)
    requires KeyOf(p) == KeyOf(q) != NOBODY && 0 < q.rx < p.rx
    ensures HistoryBytes([p, q], 2, KeyOf(q), Rx) == 0 && Counted(Of([p, q], KeyOf(q)), Rx) == q.rx
  {
    var rows, key := [p, q], KeyOf(q);
    assert rows[..0] == [] && rows[..1] == [] + [p] && rows[..2] == [p] + [q] == rows;
    OfSnoc([], p, key);
    OfSnoc([p], q, key);
    assert [] + [p] == [p];
    CountedSnoc([p], q, Rx);
    assert PrevIndex(rows, key, 1) == 0 && !Contributes(rows, 1);
    assert PrevIndex(rows, key, 0) == -1 && !Contributes(rows, 0);
    assert HistoryBytes(rows, 1, key, Rx) == 0;
  }

  lemma KeptStep(rows: seq<Row>, n: nat, key: string, dir: Direction)
    requires n < |rows|
    ensures var mine, mine' := Of(rows[..n], key), Of(rows[..n + 1], key);
            AllKept(mine', dir) <==>
            AllKept(mine, dir) &&
            (KeyOf(rows[n]) != key || mine == [] || NothingLost(mine[|mine| - 1], rows[n], dir))
  {
    OfNext(rows, n, key);
    if KeyOf(rows[n]) == key && Of(rows[..n], key) != [] {
      AllKeptSnoc(Of(rows[..n], key), rows[n], dir);
    }
  }
}
