/**
 What every run of updates and cleanups keeps: no dangling alias, no orphan history, lossless re-keying,
 aliases that follow the last update, and "Device offline" events that are always separated by an update.
 */
module Lifecycle {
  import opened Identity
  import opened Sequences
  import opened StoreModel
  import opened Telemetry
  import opened Text

  // ---------- the maps stay closed ----------

  predicate Closed(s: Store) {
    && (forall y :: y in s.aliases ==> s.aliases[y] in s.devices)
    && (forall k :: k in s.points ==> k in s.devices)
  }

  /** In every run, every alias and every history belongs to a live record. */
  lemma RunClosed(cfg: Config, ops: seq<Op>)
    ensures Closed(Run(cfg, ops))
  {
    RunRefines(cfg, ops);
  }

  /** Closedness alone is not inductive: here an alias follows the record `ip:b` under another address. */
  lemma ClosedIsNotInductive(cfg: Config)
    ensures exists s, d, now :: Closed(s) && !Closed(UpdateDevice(cfg, s, d, now))
  {
    var s := Store(map[IpKey("b") := BLANK.(ip := "b")], map["a" := IpKey("b"), "b" := IpKey("b")], map[]);
    var d := BLANK.(mac := "m", ip := "b");
    assert Lower("m") == "m" && Upper("") == "";
    assert FindKey(s, "m", "b") == IpKey("b") && LookupKey(s, "m", "b") == IpKey("b");
    assert MakeKey("m", "b") == MacKey("m") != IpKey("b");
    MergedIp(cfg, BLANK.(ip := "b"), d, 1);
    var s' := UpdateDevice(cfg, s, d, 1);
    assert s'.aliases["a"] == IpKey("b") && IpKey("b") !in s'.devices;
    assert !Closed(s');
    assert Closed(s);
  }

  // ---------- re-keying loses nothing ----------

  /** Re-keying a live record in any run: the target name is free, one name replaces the other, the traffic history
      moves whole, and no other record or history changes. */
  lemma RekeyLosesNothing(cfg: Config, ops: seq<Op>, d: Device, now: int)
    requires var s := Run(cfg, ops); MustRekey(s, d.mac, LookupKey(s, d.mac, d.ip), MakeKey(d.mac, d.ip))
    ensures var s, s' := Run(cfg, ops), Run(cfg, ops + [SeeDevice(d, now)]);
            var key, desired := LookupKey(s, d.mac, d.ip), MakeKey(d.mac, d.ip);
            && desired !in s.devices
            && |s'.devices| == |s.devices|
            && s'.devices == (s.devices - {key})[desired := Merge(cfg, s.devices[key], d, now)]
            && PointsAt(s', desired) == PointsAt(s, key)
            && (forall k :: k != key && k != desired ==> PointsAt(s', k) == PointsAt(s, k))
            && key !in s'.points && (forall y :: y in s'.aliases ==> s'.aliases[y] != key)
  {
    var s, a := Run(cfg, ops), IdRun(cfg, ops);
    var key, desired := LookupKey(s, d.mac, d.ip), MakeKey(d.mac, d.ip);
    assert (ops + [SeeDevice(d, now)])[..|ops|] == ops;
    var s' := UpdateDevice(cfg, s, d, now);
    assert desired !in s.devices by {
      RunRefines(cfg, ops);
      LookupAgrees(s, a, d.mac, d.ip);
    }
    assert s'.devices == (s.devices - {key})[desired := Merge(cfg, s.devices[key], d, now)];
    assert s'.devices.Keys == s.devices.Keys - {key} + {desired};
    RunClosed(cfg, ops + [SeeDevice(d, now)]);
  }

  /** Such runs exist: a device first seen by its address alone, then with its mac. */
  lemma RekeyHappens(cfg: Config)
    ensures var s := Run(cfg, [SeeDevice(BLANK.(ip := "b"), 1)]);
            MustRekey(s, "m", LookupKey(s, "m", "b"), MakeKey("m", "b"))
  {
    var d := BLANK.(ip := "b");
    var ops := [SeeDevice(d, 1)];
    assert Lower("m") == "m" && Lower("") == "" && Upper("b") == "B";
    assert ops[..0] == [] && Run(cfg, ops) == UpdateDevice(cfg, EMPTY, d, 1);
    assert LookupKey(EMPTY, "", "b") == MakeKey("", "b") == IpKey("b");
    MergedIp(cfg, BLANK, d, 1);
    assert Run(cfg, ops) == PutDevice(EMPTY, IpKey("b"), Merge(cfg, BLANK, d, 1));
    assert MakeKey("m", "b") == MacKey("m");
  }

  // ---------- identities ----------

  /** The record most recently left holding address y by an update, found by looking back through the run. */
  function LastHolder(cfg: Config, ops: seq<Op>, y: string): Option<nat> {
    if ops == [] then None
    else
      var before := ops[..|ops| - 1];
      var touched := Touched(IdRun(cfg, before), ops[|ops| - 1]);
      var after := IdRun(cfg, ops).recs;
      if touched.Some? && touched.value in after && after[touched.value].device.ip == y then touched
      else LastHolder(cfg, before, y)
  }

  lemma StepOwner(cfg: Config, a: Registry, op: Op)
    ensures var a', touched := IdStep(cfg, a, op), Touched(a, op);
            && (touched.Some? ==> touched.value in a'.recs)
            && a'.owner == if touched.Some? && a'.recs[touched.value].device.ip != ""
                           then a.owner[a'.recs[touched.value].device.ip := touched.value] else a.owner
  {
  }

  lemma {:induction false} OwnerIsLastHolder(cfg: Config, ops: seq<Op>, y: string)
    requires y != ""
    ensures var a := IdRun(cfg, ops);
            LastHolder(cfg, ops, y) == if y in a.owner then Some(a.owner[y]) else None
  {
    if ops != [] {
      OwnerIsLastHolder(cfg, ops[..|ops| - 1], y);
      StepOwner(cfg, IdRun(cfg, ops[..|ops| - 1]), ops[|ops| - 1]);
    }
  }

  /** ip_to_key_ in every run: address y is present exactly when the record last updated to hold y is still alive,
      and then names that record, whatever it has been re-keyed to. */
  lemma AliasNamesLastHolder(cfg: Config, ops: seq<Op>, y: string)
    requires y != ""
    ensures var s, a, last := Run(cfg, ops), IdRun(cfg, ops), LastHolder(cfg, ops, y);
            && (y in s.aliases <==> last.Some? && last.value in a.recs)
            && (y in s.aliases ==> s.aliases[y] == a.recs[last.value].key && s.aliases[y] in s.devices
                                   && s.devices[s.aliases[y]] == a.recs[last.value].device)
  {
    RunRefines(cfg, ops);
    OwnerIsLastHolder(cfg, ops, y);
  }

  lemma StepFresh(cfg: Config, a: Registry, op: Op, i: nat)
    requires Wellformed(a) && i < a.next && i !in a.recs
    ensures i < IdStep(cfg, a, op).next && i !in IdStep(cfg, a, op).recs
  {
  }

  lemma StillDead(cfg: Config, ops: seq<Op>, op: Op, i: nat)
    requires Wellformed(IdRun(cfg, ops)) && i < IdRun(cfg, ops).next && i !in IdRun(cfg, ops).recs
    ensures i < IdRun(cfg, ops + [op]).next && i !in IdRun(cfg, ops + [op]).recs
  {
    IdRunSnoc(cfg, ops, op);
    StepFresh(cfg, IdRun(cfg, ops), op, i);
  }

  /** An erased record never comes back: an identity below the counter that is dead stays dead. */
  lemma {:induction false} DeadStaysDead(cfg: Config, ops: seq<Op>, more: seq<Op>, i: nat)
    requires i < IdRun(cfg, ops).next && i !in IdRun(cfg, ops).recs
    ensures i < IdRun(cfg, ops + more).next && i !in IdRun(cfg, ops + more).recs
    decreases |more|
  {
    if more == [] {
      assert ops + more == ops;
    } else {
      var less, op := more[..|more| - 1], more[|more| - 1];
      DeadStaysDead(cfg, ops, less, i);
      Unsnoc(more);
      ConcatSnoc(ops, less, op);
      RunRefines(cfg, ops + less);
      StillDead(cfg, ops + less, op, i);
    }
  }

  // ---------- offline events ----------

  /** No two offline events of a record without an update of that record in between. */
  predicate Separated(marks: seq<Mark>) {
    forall p :: 0 <= p < |marks| - 1 ==> marks[p].Updated? || marks[p + 1].Updated?
  }

  /** Cleanup times never go back. */
  predicate CleanupsAdvance(ops: seq<Op>) {
    forall p, q :: 0 <= p < q < |ops| && ops[p].Clean? && ops[q].Clean? ==> ops[p].now <= ops[q].now
  }

  /** A record that went offline and was not updated since is still marked offline, and rightly so ever after. */
  predicate OfflineSound(cfg: Config, ops: seq<Op>, r: Rec) {
    && Separated(r.marks)
    && (r.marks != [] && r.marks[|r.marks| - 1].WentOffline? ==>
          && r.device.status == Offline
          && r.device.lastSeen != 0
          && exists p :: 0 <= p < |ops| && ops[p].Clean? && ops[p].now - r.device.lastSeen > cfg.idleTtl * SECOND)
  }

  lemma CleanSound(cfg: Config, ops: seq<Op>, r: Rec, now: int)
    requires OfflineSound(cfg, ops, r) && CleanupsAdvance(ops + [Clean(now)])
    ensures OfflineSound(cfg, ops + [Clean(now)], CleanRec(cfg, r, now))
  {
    var ops' := ops + [Clean(now)];
    var r' := CleanRec(cfg, r, now);
    assert ops'[|ops|] == Clean(now);
    if r.marks != [] && r.marks[|r.marks| - 1].WentOffline? {
      var p :| 0 <= p < |ops| && ops[p].Clean? && ops[p].now - r.device.lastSeen > cfg.idleTtl * SECOND;
      assert ops'[p] == ops[p] && ops'[p].now <= now;
    }
  }

  lemma OfflineSoundGrows(cfg: Config, ops: seq<Op>, op: Op, r: Rec)
    requires OfflineSound(cfg, ops, r)
    ensures OfflineSound(cfg, ops + [op], r)
  {
    if r.marks != [] && r.marks[|r.marks| - 1].WentOffline? {
      var p :| 0 <= p < |ops| && ops[p].Clean? && ops[p].now - r.device.lastSeen > cfg.idleTtl * SECOND;
      assert (ops + [op])[p] == ops[p];
    }
  }

  lemma UpdatedSound(cfg: Config, ops: seq<Op>, r: Rec, r': Rec)
    requires Separated(r.marks) && r'.marks == r.marks + [Updated]
    ensures OfflineSound(cfg, ops, r')
  {
  }

  lemma {:induction false} RunOfflineSound(cfg: Config, ops: seq<Op>, i: nat)
    requires CleanupsAdvance(ops) && i in IdRun(cfg, ops).recs
    ensures OfflineSound(cfg, ops, IdRun(cfg, ops).recs[i])
  {
    var before, op := ops[..|ops| - 1], ops[|ops| - 1];
    var a := IdRun(cfg, before);
    var r := StepEvolves(cfg, a, op, i);
    var r' := IdStep(cfg, a, op).recs[i];
    Unsnoc(ops);
    if i in a.recs {
      RunOfflineSound(cfg, before, i);
    }
    StepOfflineSound(cfg, before, op, r, r');
  }

  lemma StepOfflineSound(cfg: Config, ops: seq<Op>, op: Op, r: Rec, r': Rec)
    requires OfflineSound(cfg, ops, r) && CleanupsAdvance(ops + [op]) && Evolves(cfg, op, r, r')
    ensures OfflineSound(cfg, ops + [op], r')
  {
    if r' == r {
      OfflineSoundGrows(cfg, ops, op, r);
    } else if op.Clean? {
      CleanSound(cfg, ops, r, op.now);
    } else {
      UpdatedSound(cfg, ops + [op], r, r');
    }
  }

  /** With cleanup times that never go back, two "Device offline" events of one record always have an update of that
      record between them, across re-keying and whatever happens to other records. */
  lemma OfflineEventsSeparated(cfg: Config, ops: seq<Op>, i: nat, p: nat, q: nat)
    requires CleanupsAdvance(ops) && i in IdRun(cfg, ops).recs
    requires var marks := IdRun(cfg, ops).recs[i].marks;
             p < q < |marks| && marks[p].WentOffline? && marks[q].WentOffline?
    ensures exists u :: p < u < q && IdRun(cfg, ops).recs[i].marks[u] == Updated
  {
    RunOfflineSound(cfg, ops, i);
    assert IdRun(cfg, ops).recs[i].marks[p + 1] == Updated;
  }

  /** Whenever a cleanup emits a "Device offline" event, its record has been updated since its previous one, if any;
      this holds too for a record that the same cleanup erases. */
  lemma OfflineEventFollowsUpdate(cfg: Config, ops: seq<Op>, now: int, key: string)
    requires CleanupsAdvance(ops + [Clean(now)]) && key in OfflineKeys(cfg, Run(cfg, ops), now)
    ensures key in IdRun(cfg, ops).holder && IdRun(cfg, ops).holder[key] in IdRun(cfg, ops).recs
    ensures var marks := IdRun(cfg, ops).recs[IdRun(cfg, ops).holder[key]].marks;
            marks == [] || marks[|marks| - 1] == Updated
  {
    RunRefines(cfg, ops);
    var i := IdRun(cfg, ops).holder[key];
    var r := IdRun(cfg, ops).recs[i];
    assert CleanupsAdvance(ops) by {
      assert forall p :: 0 <= p < |ops| ==> ops[p] == (ops + [Clean(now)])[p];
    }
    RunOfflineSound(cfg, ops, i);
    CleanSound(cfg, ops, r, now);
    assert CleanRec(cfg, r, now).marks == r.marks + [WentOffline(now)];
    if r.marks != [] {
      assert (r.marks + [WentOffline(now)])[|r.marks| - 1] == r.marks[|r.marks| - 1];
    }
  }
}
