/**
 What a traffic sample does to the record it concerns, in every run and in numbers: when it becomes a point of the
 history, and the bits per second the record then shows, counted from the last stored point.
 */
module SampleRates {
  import opened Conservation
  import opened Identity
  import opened Reports
  import opened Sequences
  import opened StoreModel
  import opened Telemetry

  function RateIn(d: Device, dir: Direction): real {
    if dir == Rx then d.rxRate else d.txRate
  }

  /** The sample as it is stored: lower-case MAC, the clock where it has no time of its own. */
  function PointOf(sample: Sample, now: int): Sample {
    Sample(ReportedText(SeeTraffic(sample, now), Mac), sample.ip, SeenAt(SeeTraffic(sample, now)), sample.rx, sample.tx)
  }

  /** A point is worth storing after p if a counter fell, or if a counter moved and time did too. */
  predicate Worth(p: Sample, q: Sample) {
    q.rx < p.rx || q.tx < p.tx || ((q.rx != p.rx || q.tx != p.tx) && p.ts < q.ts)
  }

  /** A fallen counter shows zero. Unmoved counters keep the rate while it is fresh. Otherwise, if time moved,
      the rate times the nanoseconds since p is the bits counted since p, times a thousand million. */
  predicate RateFollows(cfg: Config, d: Device, d': Device, p: Sample, q: Sample, dir: Direction) {
    if q.rx < p.rx || q.tx < p.tx then RateIn(d', dir) == 0.0
    else if q.rx == p.rx && q.tx == p.tx then
      RateIn(d', dir) == if d.lastRate != 0 && q.ts - d.lastRate <= cfg.rateHold * SECOND then RateIn(d, dir) else 0.0
    else if p.ts < q.ts then
      RateIn(d', dir) * (q.ts - p.ts) as real == 8.0 * (Bytes(q, dir) - Bytes(p, dir)) as real * 1_000_000_000.0
    else RateIn(d', dir) == RateIn(d, dir)
  }

  /** The rate is stamped with the sample that made it positive; a fallen counter removes the stamp. */
  predicate StampFollows(d: Device, d': Device, p: Sample, q: Sample) {
    d'.lastRate == if d'.rxRate > 0.0 || d'.txRate > 0.0 then q.ts
                   else if q.rx < p.rx || q.tx < p.tx then 0
                   else d.lastRate
  }

  /** A first sample measures nothing: the rates stay as they were, and are stamped if positive. */
  predicate FirstKeeps(d: Device, d': Device, q: Sample) {
    && d'.rxRate == d.rxRate && d'.txRate == d.txRate
    && d'.lastRate == if d.rxRate > 0.0 || d.txRate > 0.0 then q.ts else d.lastRate
  }

  // ---------- one record ----------

  lemma RateInNanoseconds(rate: real, from: int, to: int, bits: real)
    requires rate * Elapsed(from, to) == bits
    ensures rate * (to - from) as real == bits * 1_000_000_000.0
  {
    assert Elapsed(from, to) * 1_000_000_000.0 == (to - from) as real;
  }

  lemma RateBetween(p: Sample, q: Sample, dir: Direction)
    requires p.ts < q.ts && p.rx <= q.rx && p.tx <= q.tx
    ensures var rate := if dir == Rx then Rate(p.rx, q.rx, p.ts, q.ts) else Rate(p.tx, q.tx, p.ts, q.ts);
            rate * (q.ts - p.ts) as real == 8.0 * (Bytes(q, dir) - Bytes(p, dir)) as real * 1_000_000_000.0
  {
    if dir == Rx {
      RateAccounts(p.rx, q.rx, p.ts, q.ts);
      RateInNanoseconds(Rate(p.rx, q.rx, p.ts, q.ts), p.ts, q.ts, 8.0 * (q.rx - p.rx) as real);
    } else {
      RateAccounts(p.tx, q.tx, p.ts, q.ts);
      RateInNanoseconds(Rate(p.tx, q.tx, p.ts, q.ts), p.ts, q.ts, 8.0 * (q.tx - p.tx) as real);
    }
  }

  lemma DeviceFollows(cfg: Config, d: Device, points: seq<Sample>, p: Sample, q: Sample, dir: Direction)
    requires points != [] && points[|points| - 1] == p
    ensures RateFollows(cfg, d, SampleDevice(cfg, d, points, q), p, q, dir)
  {
    if !Reset(p, q) && !SameCounters(p, q) && p.ts < q.ts {
      RateBetween(p, q, dir);
    }
  }

  lemma StampedBy(cfg: Config, d: Device, points: seq<Sample>, p: Sample, q: Sample)
    requires points != [] && points[|points| - 1] == p
    ensures StampFollows(d, SampleDevice(cfg, d, points, q), p, q)
  {
  }

  lemma LastPoint(cfg: Config, r: Rec)
    requires cfg.maxPoints >= 1 && LogSound(cfg, r) && r.log != []
    ensures r.points != [] && r.points[|r.points| - 1] == r.log[|r.log| - 1].sample
  {
    LastNIsSuffix(Samples(r.log), cfg.maxPoints);
  }

  lemma LogFollows(cfg: Config, r: Rec, q: Sample)
    requires cfg.maxPoints >= 1 && LogSound(cfg, r)
    ensures var r' := SeeTrafficRec(cfg, r, q);
            r'.log == if r.log == [] || Worth(r.log[|r.log| - 1].sample, q)
                      then r.log + [Stored(q, r'.device.rxRate, r'.device.txRate)] else r.log
    ensures r.log == [] ==> FirstKeeps(r.device, SeeTrafficRec(cfg, r, q).device, q)
  {
    if r.log != [] {
      LastPoint(cfg, r);
    }
  }

  // ---------- every run ----------

  function DeviceBefore(cfg: Config, ops: seq<Op>, i: nat): Device {
    if i in IdRun(cfg, ops).recs then IdRun(cfg, ops).recs[i].device else BLANK
  }

  function LogBefore(cfg: Config, ops: seq<Op>, i: nat): seq<Stored> {
    if i in IdRun(cfg, ops).recs then IdRun(cfg, ops).recs[i].log else []
  }

  lemma Before(cfg: Config, ops: seq<Op>, op: Op, i: nat) returns (r: Rec)
    requires Touched(IdRun(cfg, ops), op) == Some(i)
    ensures i in IdRun(cfg, ops + [op]).recs && IdRun(cfg, ops + [op]).recs[i] == UpdatedRec(cfg, op, r)
    ensures r.device == DeviceBefore(cfg, ops, i) && r.log == LogBefore(cfg, ops, i)
    ensures cfg.maxPoints >= 1 ==> LogSound(cfg, r)
  {
    IdRunSnoc(cfg, ops, op);
    Lifecycle.StepOwner(cfg, IdRun(cfg, ops), op);
    r := StepEvolves(cfg, IdRun(cfg, ops), op, i);
    if cfg.maxPoints >= 1 && i in IdRun(cfg, ops).recs { RunLogSound(cfg, ops, i); }
  }

  /** In every run: the sample is logged, with the rates now shown, exactly when it is the first or worth storing. */
  lemma SampleIsLogged(cfg: Config, ops: seq<Op>, sample: Sample, now: int, i: nat)
    requires cfg.maxPoints >= 1 && Touched(IdRun(cfg, ops), SeeTraffic(sample, now)) == Some(i)
    ensures var log, a' := LogBefore(cfg, ops, i), IdRun(cfg, ops + [SeeTraffic(sample, now)]);
            && i in a'.recs
            && var r', q := a'.recs[i], PointOf(sample, now);
            && r'.log == (if log == [] || Worth(log[|log| - 1].sample, q)
                          then log + [Stored(q, r'.device.rxRate, r'.device.txRate)] else log)
            && r'.points == LastN(Samples(r'.log), cfg.maxPoints)
  {
    var r := Before(cfg, ops, SeeTraffic(sample, now), i);
    LogFollows(cfg, r, Normalized(sample, now));
    SampleKeepsLog(cfg, r, Normalized(sample, now));
  }

  /** In every run: the rates and the stamp a sample leaves, from the last logged point. */
  lemma SampleSetsRates(cfg: Config, ops: seq<Op>, sample: Sample, now: int, i: nat, dir: Direction)
    requires cfg.maxPoints >= 1 && Touched(IdRun(cfg, ops), SeeTraffic(sample, now)) == Some(i)
    ensures var log, a' := LogBefore(cfg, ops, i), IdRun(cfg, ops + [SeeTraffic(sample, now)]);
            && i in a'.recs
            && var d, d' := DeviceBefore(cfg, ops, i), a'.recs[i].device;
            if log == [] then FirstKeeps(d, d', PointOf(sample, now))
            else RateFollows(cfg, d, d', log[|log| - 1].sample, PointOf(sample, now), dir)
                 && StampFollows(d, d', log[|log| - 1].sample, PointOf(sample, now))
  {
    var r := Before(cfg, ops, SeeTraffic(sample, now), i);
    if r.log == [] {
      LogFollows(cfg, r, Normalized(sample, now));
    } else {
      LastPoint(cfg, r);
      var p, q := r.log[|r.log| - 1].sample, Normalized(sample, now);
      DeviceFollows(cfg, r.device, r.points, p, q, dir);
      StampedBy(cfg, r.device, r.points, p, q);
    }
  }

  /** A discovery report changes a rate or its stamp only to one it carries, and never the points. */
  lemma ReportSetsRates(cfg: Config, ops: seq<Op>, d: Device, now: int, i: nat, dir: Direction)
    requires Touched(IdRun(cfg, ops), SeeDevice(d, now)) == Some(i)
    ensures var before, a' := DeviceBefore(cfg, ops, i), IdRun(cfg, ops + [SeeDevice(d, now)]);
            && i in a'.recs
            && RateIn(a'.recs[i].device, dir) == (if RateIn(d, dir) == 0.0 then RateIn(before, dir) else RateIn(d, dir))
            && a'.recs[i].device.lastRate == (if d.lastRate == 0 then before.lastRate else d.lastRate)
            && a'.recs[i].log == LogBefore(cfg, ops, i)
  {
    var r := Before(cfg, ops, SeeDevice(d, now), i);
  }
}
