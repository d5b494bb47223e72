/**
 How long a rate is shown while counters stand still. A duplicate sample inside the hold window refreshes the rate's
 stamp, so the window is measured from the previous stamp, not from the last counter change.
 */
module RateHold {
  import opened Identity
  import opened Sequences
  import opened StoreModel
  import opened Telemetry
  import opened Text

  import Lifecycle

  /** What can happen to a record while its counters stand still. */
  datatype Beat = Duplicate(sample: Sample) | Tick(now: int)

  function Time(b: Beat): int {
    match b case Duplicate(q) => q.ts case Tick(now) => now
  }

  /** Every duplicate repeats the counters of the last stored point, at a time that is set. */
  predicate Still(points: seq<Sample>, beats: seq<Beat>)
    requires points != []
  {
    forall k :: 0 <= k < |beats| && beats[k].Duplicate? ==>
                  beats[k].sample.ts != 0 && SameCounters(points[|points| - 1], beats[k].sample)
  }

  function Feel(cfg: Config, d: Device, points: seq<Sample>, b: Beat): Device {
    match b
    case Duplicate(q) => SampleDevice(cfg, d, points, q)
    case Tick(now) => CleanDevice(cfg, d, now)
  }

  function Play(cfg: Config, d: Device, points: seq<Sample>, beats: seq<Beat>): Device
    decreases beats
  {
    if beats == [] then d else Play(cfg, Feel(cfg, d, points, beats[0]), points, beats[1..])
  }

  predicate Positive(d: Device) {
    d.rxRate > 0.0 || d.txRate > 0.0
  }

  /** The stamp after a beat: duplicates move it, ticks do not. */
  function Stamp(stamp: int, b: Beat): int {
    if b.Duplicate? then Time(b) else stamp
  }

  /** Every beat falls within the window of the stamp before it. */
  predicate Chained(window: int, stamp: int, beats: seq<Beat>)
    decreases beats
  {
    beats == [] || (Time(beats[0]) - stamp <= window && Chained(window, Stamp(stamp, beats[0]), beats[1..]))
  }

  /** Duplicates add no points, so the comparison point stays the same throughout. */
  lemma DuplicateStoresNothing(cfg: Config, d: Device, points: seq<Sample>, q: Sample)
    requires points != [] && SameCounters(points[|points| - 1], q)
    ensures SamplePoints(cfg, d, points, q) == points
  {
  }

  lemma {:induction false} ZeroStaysZero(cfg: Config, d: Device, points: seq<Sample>, beats: seq<Beat>)
    requires points != [] && Still(points, beats)
    requires d.rxRate == 0.0 && d.txRate == 0.0
    ensures var r := Play(cfg, d, points, beats); r.rxRate == 0.0 && r.txRate == 0.0
    decreases beats
  {
    if beats != [] {
      assert beats[0] in beats;
      var d' := Feel(cfg, d, points, beats[0]);
      ZeroStaysZero(cfg, d', points, beats[1..]);
    }
  }

  /** The rule as coded: a positive rate survives a still stretch unchanged if the beats are chained, and is zero otherwise. */
  lemma {:induction false} HeldExactlyWhileChained(cfg: Config, d: Device, points: seq<Sample>, beats: seq<Beat>)
    requires points != [] && Still(points, beats)
    requires Positive(d) && d.lastRate != 0
    ensures var r := Play(cfg, d, points, beats);
            if Chained(Window(cfg), d.lastRate, beats)
            then r.rxRate == d.rxRate && r.txRate == d.txRate && r.lastRate != 0
            else r.rxRate == 0.0 && r.txRate == 0.0
    decreases beats
  {
    if beats != [] {
      assert beats[0].Duplicate? ==> Time(beats[0]) != 0;
      var d' := Feel(cfg, d, points, beats[0]);
      if Time(beats[0]) - d.lastRate <= Window(cfg) {
        assert d'.lastRate == Stamp(d.lastRate, beats[0]);
        HeldExactlyWhileChained(cfg, d', points, beats[1..]);
      } else {
        ZeroStaysZero(cfg, d', points, beats[1..]);
      }
    }
  }

  // ---------- a record through any stretch of a run ----------

  /** A call that, if it concerns record i, repeats the counters of its last stored point at a time that is set. */
  predicate Quiet(a: Registry, op: Op, i: nat, points: seq<Sample>)
    requires points != []
  {
    Touched(a, op) == Some(i) ==>
      op.SeeTraffic? && Normalized(op.sample, op.now).ts != 0 &&
      SameCounters(points[|points| - 1], Normalized(op.sample, op.now))
  }

  ghost predicate QuietRun(cfg: Config, ops: seq<Op>, more: seq<Op>, i: nat, points: seq<Sample>)
    requires points != []
  {
    forall k :: 0 <= k < |more| ==> Quiet(IdRun(cfg, ops + more[..k]), more[k], i, points)
  }

  /** What a call is to record i: a tick, a duplicate, or nothing if it concerns another record. */
  function BeatOf(a: Registry, op: Op, i: nat): seq<Beat> {
    match op
    case Clean(now) => [Tick(now)]
    case SeeTraffic(q, now) => if Touched(a, op) == Some(i) then [Duplicate(Normalized(q, now))] else []
    case SeeDevice(_, _) => []
  }

  function Beats(cfg: Config, ops: seq<Op>, more: seq<Op>, i: nat): seq<Beat> {
    if more == [] then []
    else
      var n := |more| - 1;
      Beats(cfg, ops, more[..n], i) + BeatOf(IdRun(cfg, ops + more[..n]), more[n], i)
  }

  lemma {:induction false} PlaySnoc(cfg: Config, d: Device, points: seq<Sample>, beats: seq<Beat>, b: Beat)
    ensures Play(cfg, d, points, beats + [b]) == Feel(cfg, Play(cfg, d, points, beats), points, b)
    decreases beats
  {
    if beats == [] {
      assert beats + [b] == [b] && [b][1..] == [];
    } else {
      assert (beats + [b])[1..] == beats[1..] + [b];
      PlaySnoc(cfg, Feel(cfg, d, points, beats[0]), points, beats[1..], b);
    }
  }

  lemma {:induction false} NextGrows(cfg: Config, ops: seq<Op>, more: seq<Op>)
    ensures IdRun(cfg, ops).next <= IdRun(cfg, ops + more).next
    decreases more
  {
    if more == [] {
      assert ops + more == ops;
    } else {
      var n := |more| - 1;
      NextGrows(cfg, ops, more[..n]);
      Unsnoc(more);
      ConcatSnoc(ops, more[..n], more[n]);
      IdRunSnoc(cfg, ops + more[..n], more[n]);
    }
  }

  /** A record alive before and after a call was alive before the call. */
  lemma AliveBefore(cfg: Config, ops: seq<Op>, more: seq<Op>, op: Op, i: nat)
    requires i in IdRun(cfg, ops).recs && i in IdRun(cfg, ops + more + [op]).recs
    ensures i in IdRun(cfg, ops + more).recs
  {
    RunRefines(cfg, ops);
    RunRefines(cfg, ops + more);
    NextGrows(cfg, ops, more);
    if i !in IdRun(cfg, ops + more).recs {
      Lifecycle.StillDead(cfg, ops + more, op, i);
    }
  }

  /** One call, as record i feels it. */
  lemma FeelsCall(cfg: Config, a: Registry, op: Op, i: nat, points: seq<Sample>)
    requires i in a.recs && i in IdStep(cfg, a, op).recs && a.recs[i].points == points != [] && Quiet(a, op, i, points)
    ensures var d, r' := a.recs[i].device, IdStep(cfg, a, op).recs[i];
            r'.points == points && r'.device == if BeatOf(a, op, i) == [] then d else Feel(cfg, d, points, BeatOf(a, op, i)[0])
  {
    var r := StepEvolves(cfg, a, op, i);
    if op.SeeTraffic? && Touched(a, op) == Some(i) {
      DuplicateStoresNothing(cfg, r.device, points, Normalized(op.sample, op.now));
    }
  }

  lemma {:induction false} BeatsStill(cfg: Config, ops: seq<Op>, more: seq<Op>, i: nat, points: seq<Sample>)
    requires points != [] && QuietRun(cfg, ops, more, i, points)
    ensures Still(points, Beats(cfg, ops, more, i))
    decreases more
  {
    if more != [] {
      var n := |more| - 1;
      QuietPrefix(cfg, ops, more, i, points);
      BeatsStill(cfg, ops, more[..n], i, points);
      BeatIsStill(IdRun(cfg, ops + more[..n]), more[n], i, points);
      StillConcat(points, Beats(cfg, ops, more[..n], i), BeatOf(IdRun(cfg, ops + more[..n]), more[n], i));
    }
  }

  lemma BeatIsStill(a: Registry, op: Op, i: nat, points: seq<Sample>)
    requires points != [] && Quiet(a, op, i, points)
    ensures Still(points, BeatOf(a, op, i))
  {
  }

  lemma StillConcat(points: seq<Sample>, a: seq<Beat>, b: seq<Beat>)
    requires points != [] && Still(points, a) && Still(points, b)
    ensures Still(points, a + b)
  {
  }

  lemma QuietPrefix(cfg: Config, ops: seq<Op>, more: seq<Op>, i: nat, points: seq<Sample>)
    requires points != [] && more != [] && QuietRun(cfg, ops, more, i, points)
    ensures var n := |more| - 1;
            QuietRun(cfg, ops, more[..n], i, points) && Quiet(IdRun(cfg, ops + more[..n]), more[n], i, points)
  {
    var n := |more| - 1;
    forall k | 0 <= k < n
      ensures Quiet(IdRun(cfg, ops + more[..n][..k]), more[..n][k], i, points)
    {
      assert more[..n][..k] == more[..k];
    }
  }

  /** Any stretch of a run that record i outlives and in which only duplicates and cleanups concern it, whatever happens to
      other records, does to it what those duplicates and cleanups do. */
  lemma {:induction false} RunPlaysBeats(cfg: Config, ops: seq<Op>, more: seq<Op>, i: nat, points: seq<Sample>)
    requires i in IdRun(cfg, ops).recs && i in IdRun(cfg, ops + more).recs
    requires IdRun(cfg, ops).recs[i].points == points != [] && QuietRun(cfg, ops, more, i, points)
    ensures var r := IdRun(cfg, ops + more).recs[i];
            r.points == points && r.device == Play(cfg, IdRun(cfg, ops).recs[i].device, points, Beats(cfg, ops, more, i))
    decreases more
  {
    if more == [] {
      assert ops + more == ops;
    } else {
      var n := |more| - 1;
      Unsnoc(more);
      ConcatSnoc(ops, more[..n], more[n]);
      AliveBefore(cfg, ops, more[..n], more[n], i);
      QuietPrefix(cfg, ops, more, i, points);
      RunPlaysBeats(cfg, ops, more[..n], i, points);
      PlaysOn(cfg, ops + more[..n], more[n], i, IdRun(cfg, ops).recs[i].device, points, Beats(cfg, ops, more[..n], i));
    }
  }

  lemma PlaysOn(cfg: Config, ops: seq<Op>, op: Op, i: nat, d: Device, points: seq<Sample>, beats: seq<Beat>)
    requires i in IdRun(cfg, ops).recs && i in IdRun(cfg, ops + [op]).recs && points != []
    requires IdRun(cfg, ops).recs[i].points == points && IdRun(cfg, ops).recs[i].device == Play(cfg, d, points, beats)
    requires Quiet(IdRun(cfg, ops), op, i, points)
    ensures var r := IdRun(cfg, ops + [op]).recs[i];
            r.points == points && r.device == Play(cfg, d, points, beats + BeatOf(IdRun(cfg, ops), op, i))
  {
    var a := IdRun(cfg, ops);
    IdRunSnoc(cfg, ops, op);
    FeelsCall(cfg, a, op, i, points);
    if BeatOf(a, op, i) == [] {
      assert beats + BeatOf(a, op, i) == beats;
    } else {
      PlaySnoc(cfg, d, points, beats, BeatOf(a, op, i)[0]);
      assert BeatOf(a, op, i) == [BeatOf(a, op, i)[0]];
    }
  }

  /** So in any run a positive rate of a record whose counters stand still is kept unchanged while the duplicates and
      cleanups that concern it are chained, and is zero otherwise. */
  lemma RunHoldsExactly(cfg: Config, ops: seq<Op>, more: seq<Op>, i: nat, points: seq<Sample>)
    requires i in IdRun(cfg, ops).recs && i in IdRun(cfg, ops + more).recs
    requires IdRun(cfg, ops).recs[i].points == points != [] && QuietRun(cfg, ops, more, i, points)
    requires var d := IdRun(cfg, ops).recs[i].device; Positive(d) && d.lastRate != 0
    ensures var d, d' := IdRun(cfg, ops).recs[i].device, IdRun(cfg, ops + more).recs[i].device;
            if Chained(Window(cfg), d.lastRate, Beats(cfg, ops, more, i))
            then d'.rxRate == d.rxRate && d'.txRate == d.txRate else d'.rxRate == 0.0 && d'.txRate == 0.0
  {
    RunPlaysBeats(cfg, ops, more, i, points);
    BeatsStill(cfg, ops, more, i, points);
    HeldExactlyWhileChained(cfg, IdRun(cfg, ops).recs[i].device, points, Beats(cfg, ops, more, i));
  }

  // ---------- the documented window ----------

  function Window(cfg: Config): int {
    cfg.rateHold * SECOND
  }

  /** The time of the last duplicate, or the stamp before it all. */
  function LastStamp(stamp: int, beats: seq<Beat>): int
    decreases beats
  {
    if beats == [] then stamp else LastStamp(Stamp(stamp, beats[0]), beats[1..])
  }

  lemma {:induction false} LastStampSnoc(stamp: int, beats: seq<Beat>, b: Beat)
    ensures LastStamp(stamp, beats + [b]) == Stamp(LastStamp(stamp, beats), b)
    decreases beats
  {
    if beats == [] {
      assert beats + [b] == [b];
    } else {
      assert (beats + [b])[1..] == beats[1..] + [b];
      LastStampSnoc(Stamp(stamp, beats[0]), beats[1..], b);
    }
  }

  lemma {:induction false} ChainedSnoc(window: int, stamp: int, beats: seq<Beat>, b: Beat)
    ensures Chained(window, stamp, beats + [b]) <==>
            Chained(window, stamp, beats) && Time(b) - LastStamp(stamp, beats) <= window
    decreases beats
  {
    if beats == [] {
      assert beats + [b] == [b];
    } else {
      assert (beats + [b])[1..] == beats[1..] + [b];
      ChainedSnoc(window, Stamp(stamp, beats[0]), beats[1..], b);
    }
  }

  /** Is the rate still shown after a cleanup at time t? */
  predicate ShownAt(cfg: Config, d: Device, points: seq<Sample>, beats: seq<Beat>, t: int) {
    Positive(Play(cfg, d, points, beats + [Tick(t)]))
  }

  lemma ShownExactly(cfg: Config, d: Device, points: seq<Sample>, beats: seq<Beat>, t: int)
    requires points != [] && Still(points, beats) && Positive(d) && d.lastRate != 0
    ensures ShownAt(cfg, d, points, beats, t) <==>
            Chained(Window(cfg), d.lastRate, beats) && t - LastStamp(d.lastRate, beats) <= Window(cfg)
  {
    HeldExactlyWhileChained(cfg, d, points, beats + [Tick(t)]);
    ChainedSnoc(Window(cfg), d.lastRate, beats, Tick(t));
  }

  /** The window README.md describes is measured from when the rate was computed, d.lastRate here. After any still stretch
      of duplicates and cleanups: it is not cut short exactly when the beats are chained and the last duplicate is not
      earlier than the stamp, it is not exceeded exactly when they are not chained or the last duplicate is not later. */
  lemma DocumentedWindowIff(cfg: Config, d: Device, points: seq<Sample>, beats: seq<Beat>)
    requires points != [] && Still(points, beats) && Positive(d) && d.lastRate != 0
    ensures var chained, last := Chained(Window(cfg), d.lastRate, beats), LastStamp(d.lastRate, beats);
            && ((forall t :: t - d.lastRate <= Window(cfg) ==> ShownAt(cfg, d, points, beats, t)) <==>
                chained && last >= d.lastRate)
            && ((forall t :: ShownAt(cfg, d, points, beats, t) ==> t - d.lastRate <= Window(cfg)) <==>
                !chained || last <= d.lastRate)
            && ((forall t :: ShownAt(cfg, d, points, beats, t) <==> t - d.lastRate <= Window(cfg)) <==>
                chained && last == d.lastRate)
  {
    var last := LastStamp(d.lastRate, beats);
    forall t
      ensures ShownAt(cfg, d, points, beats, t) <==> Chained(Window(cfg), d.lastRate, beats) && t - last <= Window(cfg)
    {
      ShownExactly(cfg, d, points, beats, t);
    }
    assert ShownAt(cfg, d, points, beats, last + Window(cfg)) <==> Chained(Window(cfg), d.lastRate, beats);
    assert ShownAt(cfg, d, points, beats, d.lastRate + Window(cfg)) <==>
           Chained(Window(cfg), d.lastRate, beats) && d.lastRate <= last;
  }

  /** Every beat within the window, measured from the stamp. */
  predicate WithinWindow(window: int, stamp: int, beats: seq<Beat>) {
    forall k :: 0 <= k < |beats| ==> Time(beats[k]) - stamp <= window
  }

  predicate NoDuplicateBefore(stamp: int, beats: seq<Beat>) {
    forall k :: 0 <= k < |beats| && beats[k].Duplicate? ==> stamp <= Time(beats[k])
  }

  lemma {:induction false} WindowChains(window: int, start: int, stamp: int, beats: seq<Beat>)
    requires WithinWindow(window, start, beats) && NoDuplicateBefore(start, beats) && start <= stamp
    ensures Chained(window, stamp, beats)
    decreases beats
  {
    if beats != [] {
      WindowChains(window, start, Stamp(stamp, beats[0]), beats[1..]);
    }
  }

  /** Inside the documented window the rate is held, as promised, unless a duplicate is dated before the rate. */
  lemma WindowIsHonoured(cfg: Config, d: Device, points: seq<Sample>, beats: seq<Beat>)
    requires points != [] && Still(points, beats) && Positive(d) && d.lastRate != 0
    requires WithinWindow(Window(cfg), d.lastRate, beats) && NoDuplicateBefore(d.lastRate, beats)
    ensures var r := Play(cfg, d, points, beats); r.rxRate == d.rxRate && r.txRate == d.txRate
  {
    WindowChains(Window(cfg), d.lastRate, d.lastRate, beats);
    HeldExactlyWhileChained(cfg, d, points, beats);
  }

  /** Without duplicates the coded and the documented window agree. */
  lemma {:induction false} TicksKeepTheWindow(window: int, stamp: int, beats: seq<Beat>)
    requires forall k :: 0 <= k < |beats| ==> beats[k].Tick?
    ensures Chained(window, stamp, beats) <==> WithinWindow(window, stamp, beats)
    decreases beats
  {
    if beats != [] {
      TicksKeepTheWindow(window, stamp, beats[1..]);
      assert forall k :: 0 <= k < |beats| ==> k == 0 || beats[k] == beats[1..][k - 1];
    }
  }

  // ---------- a rate that outlives the window ----------

  /** n repetitions of a point, one window apart, after a rate stamped at `stamp`. */
  function Trickle(p: Sample, window: nat, stamp: int, n: nat): (r: seq<Beat>)
    ensures |r| == n
  {
    if n == 0 then [] else Trickle(p, window, stamp, n - 1) + [Duplicate(p.(ts := stamp + n * window))]
  }

  lemma {:induction false} TrickleChained(p: Sample, window: nat, stamp: int, n: nat)
    ensures var beats := Trickle(p, window, stamp, n);
            && Chained(window, stamp, beats) && LastStamp(stamp, beats) == stamp + n * window
            && (stamp > 0 ==> Still([p], beats))
  {
    if n > 0 {
      var before, b := Trickle(p, window, stamp, n - 1), Duplicate(p.(ts := stamp + n * window));
      TrickleChained(p, window, stamp, n - 1);
      ChainedSnoc(window, stamp, before, b);
      LastStampSnoc(stamp, before, b);
      OneMore(n, window);
    }
  }

  lemma OneMore(n: nat, window: int)
    requires n > 0
    ensures n * window == (n - 1) * window + window
  {
  }

  /** Repetitions of the last stored point, one window apart, keep any rate for any number of windows. */
  lemma TrickleHoldsForever(cfg: Config, d: Device, points: seq<Sample>, n: nat)
    requires points != [] && Positive(d) && d.lastRate > 0 && cfg.rateHold >= 0
    ensures var beats := Trickle(points[|points| - 1], Window(cfg), d.lastRate, n);
            var r := Play(cfg, d, points, beats);
            && Still(points, beats) && r.rxRate == d.rxRate && r.txRate == d.txRate
            && (n > 0 ==> Time(beats[n - 1]) == d.lastRate + n * Window(cfg))
  {
    var p := points[|points| - 1];
    var beats := Trickle(p, Window(cfg), d.lastRate, n);
    TrickleChained(p, Window(cfg), d.lastRate, n);
    assert Still(points, beats);
    HeldExactlyWhileChained(cfg, d, points, beats);
  }

  /** The store holds record d with these points under this key. */
  predicate HoldsAt(s: Store, key: string, d: Device, points: seq<Sample>) {
    key in s.devices && s.devices[key] == d && PointsAt(s, key) == points
  }

  /** Duplicates of one device, under its lower-cased mac. */
  predicate AllOf(mac: string, beats: seq<Beat>) {
    mac != "" && Lower(mac) == mac && forall k :: 0 <= k < |beats| ==> beats[k].Duplicate? && beats[k].sample.mac == mac
  }

  function Calls(beats: seq<Beat>): seq<Op>
    requires forall k :: 0 <= k < |beats| ==> beats[k].Duplicate?
  {
    if beats == [] then [] else [SeeTraffic(beats[0].sample, beats[0].sample.ts)] + Calls(beats[1..])
  }

  lemma DuplicateAt(cfg: Config, s: Store, q: Sample, d: Device, points: seq<Sample>)
    requires Lower(q.mac) == q.mac != "" && q.ts != 0 && HoldsAt(s, MacKey(q.mac), d, points)
    requires points != [] && SameCounters(points[|points| - 1], q)
    ensures HoldsAt(UpdateTraffic(cfg, s, q, q.ts), MacKey(q.mac), SampleDevice(cfg, d, points, q), points)
  {
    DuplicateStoresNothing(cfg, d, points, q);
    assert LookupKey(s, q.mac, q.ip) == MacKey(q.mac);
  }

  /** A run of duplicates plays them on the record they belong to. */
  lemma {:induction false} RunPlays(cfg: Config, ops: seq<Op>, mac: string, d: Device, points: seq<Sample>, beats: seq<Beat>)
    requires AllOf(mac, beats) && HoldsAt(Run(cfg, ops), MacKey(mac), d, points)
    requires points != [] && Still(points, beats)
    ensures HoldsAt(Run(cfg, ops + Calls(beats)), MacKey(mac), Play(cfg, d, points, beats), points)
    decreases beats
  {
    if beats == [] {
      assert ops + Calls(beats) == ops;
    } else {
      var q := beats[0].sample;
      var call := SeeTraffic(q, q.ts);
      RunSnoc(cfg, ops, call);
      DuplicateAt(cfg, Run(cfg, ops), q, d, points);
      RunPlays(cfg, ops + [call], mac, SampleDevice(cfg, d, points, q), points, beats[1..]);
      Regroup(ops, [call], Calls(beats[1..]));
    }
  }

  predicate Growing(p: Sample, q: Sample) {
    p.mac == q.mac == Lower(q.mac) != "" && 0 < p.ts < q.ts && p.rx < q.rx && p.tx <= q.tx
  }

  lemma TrafficAt(cfg: Config, s: Store, q: Sample)
    requires Lower(q.mac) == q.mac != "" && q.ts != 0 && (MacKey(q.mac) in s.devices || s == EMPTY)
    ensures var d, points := DeviceAt(s, MacKey(q.mac)), PointsAt(s, MacKey(q.mac));
            HoldsAt(UpdateTraffic(cfg, s, q, q.ts), MacKey(q.mac), SampleDevice(cfg, d, points, q), SamplePoints(cfg, d, points, q))
  {
    assert LookupKey(s, q.mac, q.ip) == MacKey(q.mac);
  }

  lemma PairRuns(cfg: Config, p: Sample, q: Sample)
    ensures Run(cfg, Pair(p, q)) == UpdateTraffic(cfg, UpdateTraffic(cfg, EMPTY, p, p.ts), q, q.ts)
  {
    var first, second := SeeTraffic(p, p.ts), SeeTraffic(q, q.ts);
    RunSnoc(cfg, [], first);
    RunSnoc(cfg, [first], second);
    assert [] + [first] == [first] && [first] + [second] == [first, second];
  }

  lemma RatePositive(p: Sample, q: Sample)
    requires p.ts < q.ts && p.rx < q.rx
    ensures Rate(p.rx, q.rx, p.ts, q.ts) > 0.0
  {
    var bits, dt := (q.rx - p.rx) as real * 8.0, Elapsed(p.ts, q.ts);
    assert bits > 0.0 && dt > 0.0;
  }

  lemma SampleGrows(cfg: Config, d: Device, p: Sample, q: Sample)
    requires cfg.maxPoints >= 1 && Growing(p, q)
    ensures var d', points := SampleDevice(cfg, d, [p], q), SamplePoints(cfg, d, [p], q);
            && d'.rxRate == Rate(p.rx, q.rx, p.ts, q.ts) > 0.0 && d'.lastRate == q.ts
            && points != [] && points[|points| - 1] == q
  {
    RatePositive(p, q);
  }

  lemma FirstSample(cfg: Config, p: Sample)
    requires cfg.maxPoints >= 1 && Lower(p.mac) == p.mac != "" && p.ts != 0
    ensures var s := UpdateTraffic(cfg, EMPTY, p, p.ts); MacKey(p.mac) in s.devices && PointsAt(s, MacKey(p.mac)) == [p]
  {
    TrafficAt(cfg, EMPTY, p);
    assert [] + [p] == [p];
  }

  /** Two growing samples leave a positive rate, stamped with the second. */
  lemma RateStarts(cfg: Config, p: Sample, q: Sample) returns (d: Device, points: seq<Sample>)
    requires cfg.maxPoints >= 1 && Growing(p, q)
    ensures HoldsAt(Run(cfg, Pair(p, q)), MacKey(q.mac), d, points) && points != [] && points[|points| - 1] == q
    ensures d.rxRate == Rate(p.rx, q.rx, p.ts, q.ts) > 0.0 && d.lastRate == q.ts
  {
    var s := UpdateTraffic(cfg, EMPTY, p, p.ts);
    FirstSample(cfg, p);
    TrafficAt(cfg, s, q);
    PairRuns(cfg, p, q);
    SampleGrows(cfg, DeviceAt(s, MacKey(q.mac)), p, q);
    d := SampleDevice(cfg, DeviceAt(s, MacKey(q.mac)), [p], q);
    points := SamplePoints(cfg, DeviceAt(s, MacKey(q.mac)), [p], q);
  }

  lemma {:induction false} TrickleOf(p: Sample, window: nat, stamp: int, n: nat)
    requires Lower(p.mac) == p.mac != ""
    ensures AllOf(p.mac, Trickle(p, window, stamp, n))
  {
    if n > 0 { TrickleOf(p, window, stamp, n - 1); }
  }

  /** A run in which the store shows, n windows after it was computed, the rate of the only growth there ever was:
      the last call comes at that time and repeats the counters. */
  lemma TrickleRun(cfg: Config, p: Sample, q: Sample, n: nat)
    requires cfg.maxPoints >= 1 && cfg.rateHold >= 0 && Growing(p, q) && n > 0
    ensures var beats := Trickle(q, Window(cfg), q.ts, n);
            AllOf(q.mac, beats) && beats[n - 1] == Duplicate(q.(ts := q.ts + n * Window(cfg)))
    ensures var s := Run(cfg, Pair(p, q) + Calls(Trickle(q, Window(cfg), q.ts, n)));
            MacKey(q.mac) in s.devices && s.devices[MacKey(q.mac)].rxRate == Rate(p.rx, q.rx, p.ts, q.ts) > 0.0
  {
    var d, points := RateStarts(cfg, p, q);
    TrickleOf(q, Window(cfg), q.ts, n);
    TrickleHoldsForever(cfg, d, points, n);
    RunPlays(cfg, Pair(p, q), q.mac, d, points, Trickle(q, Window(cfg), q.ts, n));
  }

  // ---------- stamps over whole runs ----------

  /** Timestamps are set, and a reported rate comes with its stamp, as every caller in app.cpp and sqlite_store.cpp does. */
  predicate Stamped(op: Op) {
    match op
    case SeeDevice(d, _) => Positive(d) ==> d.lastRate != 0
    case SeeTraffic(q, now) => Normalized(q, now).ts != 0
    case Clean(_) => true
  }

  predicate RateStamped(d: Device) {
    Positive(d) ==> d.lastRate != 0
  }

  lemma JudgedRates(cfg: Config, d: Device, points: seq<Sample>, q: Sample)
    requires q.ts != 0
    ensures RateStamped(SampleDevice(cfg, d, points, q))
  {
  }

  lemma MergedRates(cfg: Config, current: Device, incoming: Device, now: int)
    requires RateStamped(current) && RateStamped(incoming)
    ensures RateStamped(Merge(cfg, current, incoming, now))
  {
  }

  /** In every run, a record with a positive rate has its rate stamp set. */
  lemma {:induction false} PositiveRateIsStamped(cfg: Config, ops: seq<Op>, i: nat)
    requires forall p :: 0 <= p < |ops| ==> Stamped(ops[p])
    requires i in IdRun(cfg, ops).recs
    ensures RateStamped(IdRun(cfg, ops).recs[i].device)
  {
    var before, op := ops[..|ops| - 1], ops[|ops| - 1];
    var a := IdRun(cfg, before);
    var r := StepEvolves(cfg, a, op, i);
    if i in a.recs {
      PositiveRateIsStamped(cfg, before, i);
    }
    assert Stamped(op);
    match op
    case SeeDevice(d, now) => MergedRates(cfg, r.device, d, now);
    case SeeTraffic(q, now) => JudgedRates(cfg, r.device, r.points, Normalized(q, now));
    case Clean(_) =>
  }
}
