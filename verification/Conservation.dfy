/**
 Traffic conservation. Every rate a record is given is tied to the bytes its counters grew by: over any run,
 rate times elapsed time, summed over the points ever stored for a record, is eight times the counter growth
 within reset-free segments. Duplicates, late samples, other records, re-keying and trimming do not disturb it.
 */
module Conservation {
  import opened Identity
  import opened Sequences
  import opened StoreModel
  import opened Telemetry
  import opened Text

  function Bytes(q: Sample, dir: Direction): int {
    match dir case Rx => q.rx case Tx => q.tx
  }

  function RateOf(e: Stored, dir: Direction): real {
    match dir case Rx => e.rx case Tx => e.tx
  }

  function Samples(log: seq<Stored>): (r: seq<Sample>)
    ensures |r| == |log|
    ensures forall k :: 0 <= k < |log| ==> r[k] == log[k].sample
  {
    seq(|log|, k requires 0 <= k < |log| => log[k].sample)
  }

  /** Bits a stored point accounts for: its rate times the seconds since the point before it. */
  function StepBits(p: Stored, q: Stored, dir: Direction): real {
    RateOf(q, dir) * Elapsed(p.sample.ts, q.sample.ts)
  }

  function BitSteps(log: seq<Stored>, dir: Direction): (r: seq<real>)
    ensures |r| == if log == [] then 0 else |log| - 1
    ensures forall k :: 0 <= k < |r| ==> r[k] == StepBits(log[k], log[k + 1], dir)
  {
    seq(if log == [] then 0 else |log| - 1, k requires 0 <= k < |log| - 1 => StepBits(log[k], log[k + 1], dir))
  }

  /** Rate times elapsed seconds, summed over the stored points after the first. */
  function Carried(log: seq<Stored>, dir: Direction): real {
    Sum(BitSteps(log, dir))
  }

  /** The stored points cut before every counter reset. */
  function Segments(points: seq<Sample>): (r: seq<seq<Sample>>)
    ensures |r| == 0 <==> points == []
    ensures forall i :: 0 <= i < |r| ==> r[i] != []
    ensures points != [] ==> r[|r| - 1][|r[|r| - 1]| - 1] == points[|points| - 1]
  {
    if points == [] then []
    else
      var n := |points| - 1;
      var rest := Segments(points[..n]);
      if n == 0 || Reset(points[n - 1], points[n]) then rest + [[points[n]]]
      else rest[..|rest| - 1] + [rest[|rest| - 1] + [points[n]]]
  }

  /** Last counter minus first counter, summed over the segments. */
  function Growth(segments: seq<seq<Sample>>, dir: Direction): int
    requires forall i :: 0 <= i < |segments| ==> segments[i] != []
  {
    if segments == [] then 0
    else
      var n := |segments| - 1;
      Growth(segments[..n], dir) + Bytes(segments[n][|segments[n]| - 1], dir) - Bytes(segments[n][0], dir)
  }

  // ---------- consecutive stored points ----------

  /** A stored point either marks a reset or comes later with grown, changed counters and carries their exact rate. */
  predicate Link(p: Stored, q: Stored) {
    if Reset(p.sample, q.sample) then q.rx == 0.0 && q.tx == 0.0
    else
      && p.sample.ts < q.sample.ts
      && !SameCounters(p.sample, q.sample)
      && q.rx == Rate(p.sample.rx, q.sample.rx, p.sample.ts, q.sample.ts)
      && q.tx == Rate(p.sample.tx, q.sample.tx, p.sample.ts, q.sample.ts)
  }

  predicate Linked(log: seq<Stored>) {
    forall k :: 0 < k < |log| ==> Link(log[k - 1], log[k])
  }

  lemma RateAccounts(before: Counter, after: Counter, from: int, to: int)
    requires from < to
    ensures Rate(before, after, from, to) * Elapsed(from, to) == 8.0 * (after - before) as real
  {
    var bits, dt := (after - before) as real * 8.0, Elapsed(from, to);
    assert dt > 0.0;
    assert bits / dt * dt == bits;
  }

  /** Extending the last segment adds the counter step; opening a new one adds nothing. */
  lemma GrowthStep(points: seq<Sample>, dir: Direction)
    requires |points| >= 2
    ensures var n := |points| - 1;
            Growth(Segments(points), dir) == Growth(Segments(points[..n]), dir) +
            if Reset(points[n - 1], points[n]) then 0 else Bytes(points[n], dir) - Bytes(points[n - 1], dir)
  {
    var n := |points| - 1;
    var rest, all := Segments(points[..n]), Segments(points);
    if Reset(points[n - 1], points[n]) {
      assert all[..|all| - 1] == rest;
    } else {
      assert all[..|all| - 1] == rest[..|rest| - 1];
    }
  }

  lemma LinkAccounts(p: Stored, q: Stored, dir: Direction)
    requires Link(p, q)
    ensures StepBits(p, q, dir) ==
            8.0 * (if Reset(p.sample, q.sample) then 0 else Bytes(q.sample, dir) - Bytes(p.sample, dir)) as real
  {
    if !Reset(p.sample, q.sample) {
      match dir
      case Rx => RateAccounts(p.sample.rx, q.sample.rx, p.sample.ts, q.sample.ts);
      case Tx => RateAccounts(p.sample.tx, q.sample.tx, p.sample.ts, q.sample.ts);
    }
  }

  lemma LonePoint(p: Sample, dir: Direction)
    ensures Segments([p]) == [[p]] && Growth([[p]], dir) == 0
  {
    assert [p][..0] == [] && [[p]][..0] == [];
  }

  /** Bit steps that match the counter steps add up to the growth. */
  lemma {:induction false} StepsAddUp(points: seq<Sample>, bits: seq<real>, dir: Direction)
    requires |points| == |bits| + 1
    requires forall k :: 0 <= k < |bits| ==>
                           bits[k] == 8.0 * (if Reset(points[k], points[k + 1]) then 0
                                             else Bytes(points[k + 1], dir) - Bytes(points[k], dir)) as real
    ensures Sum(bits) == 8.0 * Growth(Segments(points), dir) as real
  {
    if bits == [] {
      assert points == [points[0]];
      LonePoint(points[0], dir);
    } else {
      var n := |bits|;
      StepsAddUp(points[..n], bits[..n - 1], dir);
      GrowthStep(points, dir);
    }
  }

  lemma LinkedConserves(log: seq<Stored>, dir: Direction)
    requires Linked(log)
    ensures Carried(log, dir) == 8.0 * Growth(Segments(Samples(log)), dir) as real
  {
    if log != [] {
      var bits := BitSteps(log, dir);
      forall k | 0 <= k < |bits|
        ensures bits[k] == 8.0 * (if Reset(log[k].sample, log[k + 1].sample) then 0
                                  else Bytes(log[k + 1].sample, dir) - Bytes(log[k].sample, dir)) as real
      {
        assert Link(log[k + 1 - 1], log[k + 1]);
        LinkAccounts(log[k], log[k + 1], dir);
      }
      StepsAddUp(Samples(log), bits, dir);
    }
  }

  // ---------- every record of every run ----------

  predicate LogSound(cfg: Config, r: Rec) {
    Linked(r.log) && r.points == LastN(Samples(r.log), cfg.maxPoints)
  }

  lemma JudgedLinks(cfg: Config, d: Device, points: seq<Sample>, q: Sample, p: Stored)
    requires points != [] && points[|points| - 1] == p.sample
    ensures var v := Judge(cfg, d, points, q); v.store ==> Link(p, Stored(q, v.rx, v.tx))
  {
  }

  lemma LinkedSnoc(log: seq<Stored>, e: Stored)
    requires Linked(log) && (log != [] ==> Link(log[|log| - 1], e))
    ensures Linked(log + [e])
  {
  }

  lemma SamplesSnoc(log: seq<Stored>, e: Stored)
    ensures Samples(log + [e]) == Samples(log) + [e.sample]
  {
  }

  lemma StoredKeepsLog(cfg: Config, d: Device, points: seq<Sample>, log: seq<Stored>, q: Sample, e: Stored)
    requires cfg.maxPoints >= 1 && Linked(log) && points == LastN(Samples(log), cfg.maxPoints)
    requires var v := Judge(cfg, d, points, q); v.store && e == Stored(q, v.rx, v.tx)
    ensures Linked(log + [e]) && LastN(points + [q], cfg.maxPoints) == LastN(Samples(log + [e]), cfg.maxPoints)
  {
    SamplesSnoc(log, e);
    LastNSnoc(Samples(log), cfg.maxPoints, q);
    if log != [] {
      JudgedLinks(cfg, d, points, q, log[|log| - 1]);
    }
    LinkedSnoc(log, e);
  }

  lemma SampleKeepsLog(cfg: Config, r: Rec, q: Sample)
    requires cfg.maxPoints >= 1 && LogSound(cfg, r)
    ensures LogSound(cfg, SeeTrafficRec(cfg, r, q))
  {
    var v := Judge(cfg, r.device, r.points, q);
    if v.store {
      StoredKeepsLog(cfg, r.device, r.points, r.log, q, Stored(q, v.rx, v.tx));
    }
  }

  lemma {:induction false} RunLogSound(cfg: Config, ops: seq<Op>, i: nat)
    requires cfg.maxPoints >= 1 && i in IdRun(cfg, ops).recs
    ensures LogSound(cfg, IdRun(cfg, ops).recs[i])
  {
    var before, op := ops[..|ops| - 1], ops[|ops| - 1];
    var a := IdRun(cfg, before);
    var r := StepEvolves(cfg, a, op, i);
    if i in a.recs {
      RunLogSound(cfg, before, i);
    }
    if op.SeeTraffic? {
      SampleKeepsLog(cfg, r, Normalized(op.sample, op.now));
    }
  }

  /** The law for the record behind a key: rates times seconds sum to the counter growth within the segments. */
  ghost predicate Conserves(cfg: Config, ops: seq<Op>, key: string, dir: Direction) {
    var a := IdRun(cfg, ops);
    && key in a.holder && a.holder[key] in a.recs
    && var log := a.recs[a.holder[key]].log; Carried(log, dir) == 8.0 * Growth(Segments(Samples(log)), dir) as real
  }

  /** Conservation, for the record behind any key after any run. */
  lemma TrafficConserved(cfg: Config, ops: seq<Op>, key: string, dir: Direction)
    requires cfg.maxPoints >= 1 && key in Run(cfg, ops).devices
    ensures Conserves(cfg, ops, key, dir)
    ensures var log := IdRun(cfg, ops).recs[IdRun(cfg, ops).holder[key]].log;
            PointsAt(Run(cfg, ops), key) == LastN(Samples(log), cfg.maxPoints) && Linked(log)
  {
    RunRefines(cfg, ops);
    var i := IdRun(cfg, ops).holder[key];
    RunLogSound(cfg, ops, i);
    LinkedConserves(IdRun(cfg, ops).recs[i].log, dir);
  }

  // ---------- a point limit of zero ----------

  /** Two stored points that both carry no rate. */
  function Unrated(p: Sample, q: Sample): seq<Stored> {
    [Stored(p, 0.0, 0.0), Stored(q, 0.0, 0.0)]
  }

  lemma UnratedCarries(p: Sample, q: Sample)
    ensures Carried(Unrated(p, q), Rx) == 0.0
  {
    assert BitSteps(Unrated(p, q), Rx) == [0.0];
    assert [0.0][..0] == [];
  }

  lemma UnratedGrows(p: Sample, q: Sample)
    requires p.rx <= q.rx && p.tx <= q.tx
    ensures Growth(Segments(Samples(Unrated(p, q))), Rx) == q.rx - p.rx
  {
    assert Samples(Unrated(p, q)) == [p, q] && [p, q][..1] == [p];
    GrowthStep([p, q], Rx);
    LonePoint(p, Rx);
  }

  /** A sample under a lower-cased mac, at a time that is set. */
  predicate Plain(q: Sample) {
    Lower(q.mac) == q.mac != "" && q.ts != 0
  }

  lemma TrafficRecord(cfg: Config, a: Registry, q: Sample, r: Rec)
    requires Plain(q) && r.key == MacKey(q.mac)
    requires if r.key in a.holder then a.holder[r.key] == 0 && 0 in a.recs && r == a.recs[0]
             else a == NOBODY && r == Rec(r.key, BLANK, [], [], [])
    ensures var a' := IdStep(cfg, a, SeeTraffic(q, q.ts));
            && r.key in a'.holder && a'.holder[r.key] == 0 && 0 in a'.recs && a'.recs[0] == SeeTrafficRec(cfg, r, q)
  {
    assert MakeKey(q.mac, q.ip) == r.key;
    assert Target(a, q.mac, q.ip) == 0;
  }

  lemma PairRuns(cfg: Config, p: Sample, q: Sample)
    ensures IdRun(cfg, Pair(p, q)) == IdStep(cfg, IdStep(cfg, NOBODY, SeeTraffic(p, p.ts)), SeeTraffic(q, q.ts))
  {
    IdRunSnoc(cfg, [], SeeTraffic(p, p.ts));
    IdRunSnoc(cfg, [SeeTraffic(p, p.ts)], SeeTraffic(q, q.ts));
    assert [] + [SeeTraffic(p, p.ts)] == [SeeTraffic(p, p.ts)];
    assert [SeeTraffic(p, p.ts)] + [SeeTraffic(q, q.ts)] == Pair(p, q);
  }

  lemma SecondIsFirst(cfg: Config, key: string, p: Sample, q: Sample)
    requires cfg.maxPoints == 0
    ensures SeeTrafficRec(cfg, SeeTrafficRec(cfg, Rec(key, BLANK, [], [], []), p), q).log == Unrated(p, q)
  {
    var r := SeeTrafficRec(cfg, Rec(key, BLANK, [], [], []), p);
    assert r.log == [Stored(p, 0.0, 0.0)] && r.points == [];
  }

  /** With a point limit of zero every sample looks like the first one, and growth goes unaccounted. */
  lemma NoPointsNoConservation(cfg: Config, p: Sample, q: Sample)
    requires cfg.maxPoints == 0 && Plain(p) && Plain(q) && p.mac == q.mac && p.rx < q.rx && p.tx <= q.tx
    ensures MacKey(q.mac) in Run(cfg, Pair(p, q)).devices && !Conserves(cfg, Pair(p, q), MacKey(q.mac), Rx)
  {
    var r := Rec(MacKey(q.mac), BLANK, [], [], []);
    PairRuns(cfg, p, q);
    TrafficRecord(cfg, NOBODY, p, r);
    TrafficRecord(cfg, IdStep(cfg, NOBODY, SeeTraffic(p, p.ts)), q, SeeTrafficRec(cfg, r, p));
    SecondIsFirst(cfg, r.key, p, q);
    UnratedCarries(p, q);
    UnratedGrows(p, q);
    RunRefines(cfg, Pair(p, q));
  }

  /** The law holds of every record of every run exactly when at least one point is kept per record. */
  lemma ConservationIff(cfg: Config)
    ensures (forall ops, key, dir :: key in Run(cfg, ops).devices ==> Conserves(cfg, ops, key, dir)) <==> cfg.maxPoints >= 1
  {
    if cfg.maxPoints >= 1 {
      forall ops, key, dir | key in Run(cfg, ops).devices
        ensures Conserves(cfg, ops, key, dir)
      {
        TrafficConserved(cfg, ops, key, dir);
      }
    } else {
      var p, q := Sample("m", "", 1, 0, 0), Sample("m", "", 2, 1, 0);
      assert Lower("m") == "m";
      NoPointsNoConservation(cfg, p, q);
    }
  }
}
