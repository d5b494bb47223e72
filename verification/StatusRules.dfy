/**
 What a record's status says about the record, in every run and without the order of tests that computes it, and how
 the status moves when nobody reports.
 */
module StatusRules {
  import opened Identity
  import RateHold
  import opened Reports
  import opened Sequences
  import opened StoreModel
  import opened Telemetry
  import opened Text

  // ---------- words in any case ----------

  predicate Spells(s: string, word: string) {
    |s| == |word| && forall k :: 0 <= k < |s| ==> SameLetter(s[k], word[k])
  }

  predicate Capitals(word: string) {
    forall k :: 0 <= k < |word| ==> 'A' <= word[k] <= 'Z'
  }

  lemma SpellsIff(s: string, word: string)
    requires Capitals(word)
    ensures Upper(s) == word <==> Spells(s, word)
  {
    if Spells(s, word) {
      forall k | 0 <= k < |s| ensures Upper(s)[k] == word[k] {
        assert SameLetter(s[k], word[k]);
      }
    } else if |s| == |word| {
      var k :| 0 <= k < |s| && !SameLetter(s[k], word[k]);
      assert Upper(s)[k] != word[k];
    }
  }

  /** The kernel has given the neighbour up. */
  predicate GivenUp(state: string) {
    Spells(state, "FAILED") || Spells(state, "INCOMPLETE") || Spells(state, "NOARP")
  }

  /** The kernel knows the neighbour. */
  predicate Known(state: string) {
    Spells(state, "REACHABLE") || Spells(state, "STALE") || Spells(state, "DELAY") || Spells(state, "PROBE")
  }

  lemma NeighbourWords(state: string)
    ensures FailedNeighbour(state) <==> GivenUp(state)
    ensures ReachableNeighbour(state) <==> Known(state)
  {
    SpellsIff(state, "FAILED");
    SpellsIff(state, "INCOMPLETE");
    SpellsIff(state, "NOARP");
    SpellsIff(state, "REACHABLE");
    SpellsIff(state, "STALE");
    SpellsIff(state, "DELAY");
    SpellsIff(state, "PROBE");
  }

  // ---------- one record ----------

  /** Something vouches for the device: no neighbour state, a known one, or a source that has seen it at work. */
  predicate Vouched(d: Device) {
    d.neighState == "" || Known(d.neighState) || d.source == "dhcp" || d.source == "traffic" || d.source == "wifi"
  }

  /** Never seen is Unknown; silent for longer than the idle time is Offline; Online is seen within both times,
      vouched for and not given up; everything else is Idle. */
  predicate StatusTells(cfg: Config, d: Device, now: int) {
    var age := now - d.lastSeen;
    && (d.status == Unknown <==> d.lastSeen == 0)
    && (d.status == Offline <==> d.lastSeen != 0 && age > cfg.idleTtl * SECOND)
    && (d.status == Online <==> d.lastSeen != 0 && age <= cfg.idleTtl * SECOND && age <= cfg.onlineTtl * SECOND
                                && !GivenUp(d.neighState) && Vouched(d))
    && (d.status == Idle <==> d.lastSeen != 0 && age <= cfg.idleTtl * SECOND
                              && (age > cfg.onlineTtl * SECOND || GivenUp(d.neighState) || !Vouched(d)))
  }

  lemma StatusIsTelling(cfg: Config, d: Device, now: int)
    requires d.status == StatusFor(cfg, d, now)
    ensures StatusTells(cfg, d, now)
  {
    NeighbourWords(d.neighState);
  }

  // ---------- every run ----------

  /** The time for which a call settles the status of record i, if it does. */
  function SettledAt(a: Registry, op: Op, i: nat): Option<int> {
    match op
    case Clean(now) => Some(now)
    case SeeTraffic(_, _) => if Touched(a, op) == Some(i) then Some(SeenAt(op)) else None
    case SeeDevice(d, now) => if Touched(a, op) == Some(i) && d.status != Offline then Some(now) else None
  }

  lemma UpdateSettles(cfg: Config, op: Op, r: Rec)
    requires !op.Clean?
    ensures var d := UpdatedRec(cfg, op, r).device;
            d.status == if op.SeeDevice? && op.device.status == Offline then Offline
                        else StatusFor(cfg, d, if op.SeeTraffic? then SeenAt(op) else op.now)
  {
  }

  lemma StepSettles(cfg: Config, a: Registry, op: Op, i: nat)
    requires i in IdStep(cfg, a, op).recs
    ensures var d, at := IdStep(cfg, a, op).recs[i].device, SettledAt(a, op, i);
            && (at.Some? ==> d.status == StatusFor(cfg, d, at.value))
            && (op.SeeDevice? && op.device.status == Offline && Touched(a, op) == Some(i) ==> d.status == Offline)
  {
    var r := StepEvolves(cfg, a, op, i);
    if !op.Clean? { UpdateSettles(cfg, op, r); }
  }

  /** A cleanup, a sample and a discovery report that does not itself say Offline leave a status that tells the truth
      about the record they leave, at the time they speak for; a report that says Offline is believed. */
  lemma StatusIsSettled(cfg: Config, ops: seq<Op>, op: Op, i: nat)
    requires i in IdRun(cfg, ops + [op]).recs
    ensures var at := SettledAt(IdRun(cfg, ops), op, i);
            at.Some? ==> StatusTells(cfg, IdRun(cfg, ops + [op]).recs[i].device, at.value)
    ensures op.SeeDevice? && op.device.status == Offline && Touched(IdRun(cfg, ops), op) == Some(i) ==>
              IdRun(cfg, ops + [op]).recs[i].device.status == Offline
  {
    IdRunSnoc(cfg, ops, op);
    StepSettles(cfg, IdRun(cfg, ops), op, i);
    var at := SettledAt(IdRun(cfg, ops), op, i);
    if at.Some? {
      StatusIsTelling(cfg, IdRun(cfg, ops + [op]).recs[i].device, at.value);
    }
  }

  /** A cleanup reports exactly the records that were not Offline and have been silent for longer than the idle time. */
  lemma OfflineEventIff(cfg: Config, ops: seq<Op>, now: int, key: string)
    ensures var devices := Run(cfg, ops).devices;
            key in OfflineKeys(cfg, Run(cfg, ops), now) <==>
            key in devices && devices[key].status != Offline && devices[key].lastSeen != 0
            && now - devices[key].lastSeen > cfg.idleTtl * SECOND
  {
  }

  // ---------- silence ----------

  /** Online, then Idle, then Offline. */
  function Rank(status: Status): int {
    match status
    case Online => 0
    case Idle => 1
    case Offline => 2
    case Unknown => 3
  }

  predicate SameClaims(d: Device, e: Device) {
    d.lastSeen == e.lastSeen && d.neighState == e.neighState && d.source == e.source
  }

  /** Without reports a record keeps everything its status depends on. */
  lemma {:induction false} SilenceKeeps(cfg: Config, ops: seq<Op>, more: seq<Op>, i: nat)
    requires i in IdRun(cfg, ops).recs && i in IdRun(cfg, ops + more).recs
    requires ReportsOf(cfg, ops + more, i) == ReportsOf(cfg, ops, i)
    ensures SameClaims(IdRun(cfg, ops).recs[i].device, IdRun(cfg, ops + more).recs[i].device)
    decreases more
  {
    if more == [] {
      assert ops + more == ops;
    } else {
      var less, op := more[..|more| - 1], more[|more| - 1];
      Unsnoc(more);
      ConcatSnoc(ops, less, op);
      RateHold.AliveBefore(cfg, ops, less, op, i);
      ReportsSnoc(cfg, ops + less, op, i);
      ReportsGrow(cfg, ops, less, i);
      assert Touched(IdRun(cfg, ops + less), op) != Some(i);
      SilenceKeeps(cfg, ops, less, i);
      IdRunSnoc(cfg, ops + less, op);
      var r := StepEvolves(cfg, IdRun(cfg, ops + less), op, i);
    }
  }

  lemma {:induction false} ReportsGrow(cfg: Config, ops: seq<Op>, more: seq<Op>, i: nat)
    ensures ReportsOf(cfg, ops, i) <= ReportsOf(cfg, ops + more, i)
    decreases more
  {
    if more == [] {
      assert ops + more == ops;
    } else {
      var n := |more| - 1;
      Unsnoc(more);
      ConcatSnoc(ops, more[..n], more[n]);
      ReportsGrow(cfg, ops, more[..n], i);
      ReportsSnoc(cfg, ops + more[..n], more[n], i);
    }
  }

  lemma TellingAges(cfg: Config, d: Device, e: Device, t1: int, t2: int)
    requires SameClaims(d, e) && StatusTells(cfg, d, t1) && StatusTells(cfg, e, t2) && t1 <= t2
    ensures Rank(d.status) <= Rank(e.status)
  {
  }

  /** While nobody reports a record, later cleanups can only move it from Online over Idle to Offline. */
  lemma SilenceOnlyAges(cfg: Config, ops: seq<Op>, t1: int, more: seq<Op>, t2: int, i: nat)
    requires var first, last := ops + [Clean(t1)], ops + [Clean(t1)] + more + [Clean(t2)];
             i in IdRun(cfg, first).recs && i in IdRun(cfg, last).recs && ReportsOf(cfg, last, i) == ReportsOf(cfg, first, i)
    requires t1 <= t2
    ensures Rank(IdRun(cfg, ops + [Clean(t1)]).recs[i].device.status) <=
            Rank(IdRun(cfg, ops + [Clean(t1)] + more + [Clean(t2)]).recs[i].device.status)
  {
    var first := ops + [Clean(t1)];
    StatusIsSettled(cfg, ops, Clean(t1), i);
    StatusIsSettled(cfg, first + more, Clean(t2), i);
    ConcatSnoc(first, more, Clean(t2));
    SilenceKeeps(cfg, first, more + [Clean(t2)], i);
    TellingAges(cfg, IdRun(cfg, first).recs[i].device, IdRun(cfg, first + more + [Clean(t2)]).recs[i].device, t1, t2);
  }
}
