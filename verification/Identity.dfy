/**
 A registry whose records have identities that never change and are never reused: re-keying only renames a record,
 and `owner` remembers for every address the record last updated to hold it, also after that record is gone.
 StateStore's three maps refine it on every run, which is what rules out dangling aliases, orphan histories,
 colliding re-keys and lost records.
 */
module Identity {
  import opened Sequences
  import opened StoreModel
  import opened Telemetry
  import opened Text

  /** A traffic point the moment it was stored, with the rates the record carried afterwards. */
  datatype Stored = Stored(sample: Sample, rx: real, tx: real)

  datatype Mark = Updated | WentOffline(at: int)

  /** A record and its life so far: every point ever stored, every update and every offline event. */
  datatype Rec = Rec(key: string, device: Device, points: seq<Sample>, log: seq<Stored>, marks: seq<Mark>)

  datatype Registry = Registry(recs: map<nat, Rec>, holder: map<string, nat>, owner: map<string, nat>, next: nat)

  const NOBODY := Registry(map[], map[], map[], 0)

  // ---------- steps ----------

  function Find(a: Registry, mac: string, ip: string): Option<nat> {
    if Lower(mac) != "" && MacKey(Lower(mac)) in a.holder then Some(a.holder[MacKey(Lower(mac))])
    else if ip == "" then None
    else if ip in a.owner && a.owner[ip] in a.recs then Some(a.owner[ip])
    else if IpKey(ip) in a.holder then Some(a.holder[IpKey(ip)])
    else None
  }

  /** The record an update concerns: the one found, or a newborn. */
  function Target(a: Registry, mac: string, ip: string): nat {
    match Find(a, mac, ip) case Some(i) => i case None => a.next
  }

  function RecAt(a: Registry, i: nat, mac: string, ip: string): Rec {
    if i in a.recs then a.recs[i] else Rec(MakeKey(mac, ip), BLANK, [], [], [])
  }

  function Commit(a: Registry, i: nat, r: Rec): Registry {
    Registry(a.recs[i := r],
             (if i in a.recs then a.holder - {a.recs[i].key} else a.holder)[r.key := i],
             if r.device.ip != "" then a.owner[r.device.ip := i] else a.owner,
             if i == a.next then a.next + 1 else a.next)
  }

  function SeeDeviceRec(cfg: Config, r: Rec, d: Device, now: int): Rec {
    r.(key := if d.mac != "" && IsIpKey(r.key) then MakeKey(d.mac, d.ip) else r.key,
    device := Merge(cfg, r.device, d, now),
    marks := r.marks + [Updated])
  }

  function SeeTrafficRec(cfg: Config, r: Rec, q: Sample): Rec {
    var v := Judge(cfg, r.device, r.points, q);
    r.(device := SampleDevice(cfg, r.device, r.points, q),
    points := SamplePoints(cfg, r.device, r.points, q),
    log := if v.store then r.log + [Stored(q, v.rx, v.tx)] else r.log,
    marks := r.marks + [Updated])
  }

  function CleanRec(cfg: Config, r: Rec, now: int): Rec {
    r.(device := CleanDevice(cfg, r.device, now),
    marks := if GoesOffline(cfg, r.device, now) then r.marks + [WentOffline(now)] else r.marks)
  }

  function CleanRegistry(cfg: Config, a: Registry, now: int): Registry {
    var kept := map i | i in a.recs && !Expired(cfg, a.recs[i].device, now) :: CleanRec(cfg, a.recs[i], now);
    Registry(kept, map k | k in a.holder && a.holder[k] in kept :: a.holder[k], a.owner, a.next)
  }

  function IdStep(cfg: Config, a: Registry, op: Op): Registry {
    match op
    case SeeDevice(d, now) =>
      if MakeKey(d.mac, d.ip) == "" then a
      else
        var i := Target(a, d.mac, d.ip);
        Commit(a, i, SeeDeviceRec(cfg, RecAt(a, i, d.mac, d.ip), d, now))
    case SeeTraffic(sample, now) =>
      var q := Normalized(sample, now);
      if MakeKey(q.mac, q.ip) == "" then a
      else
        var i := Target(a, q.mac, q.ip);
        Commit(a, i, SeeTrafficRec(cfg, RecAt(a, i, q.mac, q.ip), q))
    case Clean(now) => CleanRegistry(cfg, a, now)
  }

  // ---------- invariant ----------

  /** Names and records are in bijection, and an address can only lead to an `ip:` record that is named after it. */
  ghost predicate Wellformed(a: Registry) {
    Named(a) && Sound(a) && Owned(a)
  }

  ghost predicate Named(a: Registry) {
    && (forall k :: k in a.holder ==> k != "" && a.holder[k] in a.recs && a.recs[a.holder[k]].key == k)
    && (forall i :: i in a.recs ==> i < a.next && a.recs[i].key in a.holder && a.holder[a.recs[i].key] == i)
  }

  ghost predicate Sound(a: Registry) {
    forall i :: i in a.recs ==> IpSound(a.recs[i])
  }

  ghost predicate Owned(a: Registry) {
    && (forall y :: y in a.owner ==> Informative(y) && a.owner[y] < a.next)
    && (forall y :: y in a.owner && a.owner[y] in a.recs ==> NameAllows(a.recs[a.owner[y]].key, y))
  }

  predicate NameAllows(key: string, y: string) {
    IsIpKey(key) ==> y == key[3..]
  }

  predicate IpSound(r: Rec) {
    r.device.ip != "" ==> Informative(r.device.ip) && NameAllows(r.key, r.device.ip)
  }

  /** The three maps hold exactly the live records, under their current names, reachable by the addresses they own. */
  ghost predicate Refines(s: Store, a: Registry) {
    DevicesMatch(s.devices, a) && PointsMatch(s.points, a) && AliasesMatch(s.aliases, a)
  }

  ghost predicate DevicesMatch(devices: map<string, Device>, a: Registry) {
    && devices.Keys == a.holder.Keys
    && (forall k :: k in devices ==> a.holder[k] in a.recs && devices[k] == a.recs[a.holder[k]].device)
  }

  ghost predicate PointsMatch(points: map<string, seq<Sample>>, a: Registry) {
    && (forall k :: k in points ==> k in a.holder)
    && (forall k :: k in a.holder ==>
          a.holder[k] in a.recs && a.recs[a.holder[k]].points == if k in points then points[k] else [])
  }

  ghost predicate AliasesMatch(aliases: map<string, string>, a: Registry) {
    && (forall y :: y in aliases <==> y in a.owner && a.owner[y] in a.recs)
    && (forall y :: y in aliases ==> aliases[y] == a.recs[a.owner[y]].key)
  }

  // ---------- lookups agree ----------

  lemma LookupAgrees(s: Store, a: Registry, mac: string, ip: string)
    requires Wellformed(a) && Refines(s, a)
    ensures LookupKey(s, mac, ip) == "" <==> MakeKey(mac, ip) == ""
    ensures MakeKey(mac, ip) != "" ==>
              var i := Target(a, mac, ip);
              && LookupKey(s, mac, ip) == RecAt(a, i, mac, ip).key
              && (i in a.recs || i == a.next)
              && (i in a.recs <==> LookupKey(s, mac, ip) in s.devices)
              && (i in a.recs && IsIpKey(a.recs[i].key) ==> ip == a.recs[i].key[3..])
              && (i !in a.recs ==> FindKey(s, mac, ip) == "")
              && (i in a.recs && Lower(mac) != "" && IsIpKey(a.recs[i].key) ==> MacKey(Lower(mac)) !in a.holder)
  {
  }

  // ---------- one committed record ----------

  /** What a write of record r must respect: a free name, an admissible address, no stale address left behind. */
  ghost predicate MayCommit(a: Registry, i: nat, r: Rec) {
    && (i in a.recs || i == a.next)
    && r.key != "" && (r.key in a.holder ==> a.holder[r.key] == i)
    && IpSound(r)
    && (i in a.recs && r.key != a.recs[i].key ==>
          !IsIpKey(r.key) && forall y :: y in a.owner && a.owner[y] == i ==> y == r.device.ip)
  }

  lemma CommitNamed(a: Registry, i: nat, r: Rec)
    requires Named(a) && MayCommit(a, i, r)
    ensures Named(Commit(a, i, r))
  {
  }

  lemma CommitOwned(a: Registry, i: nat, r: Rec)
    requires Wellformed(a) && MayCommit(a, i, r)
    ensures Owned(Commit(a, i, r))
  {
  }

  lemma CommitWellformed(a: Registry, i: nat, r: Rec)
    requires Wellformed(a) && MayCommit(a, i, r)
    ensures Wellformed(Commit(a, i, r))
  {
    CommitNamed(a, i, r);
    CommitOwned(a, i, r);
  }

  lemma CommitDevices(devices: map<string, Device>, a: Registry, i: nat, r: Rec)
    requires Named(a) && DevicesMatch(devices, a) && MayCommit(a, i, r)
    ensures DevicesMatch((if i in a.recs then devices - {a.recs[i].key} else devices)[r.key := r.device], Commit(a, i, r))
  {
  }

  /** A commit moves one name; every other name keeps its holder. */
  lemma CommitHolder(a: Registry, i: nat, r: Rec)
    requires Named(a) && MayCommit(a, i, r)
    ensures var holder := Commit(a, i, r).holder;
            forall k :: k != r.key ==>
                          && (k in holder <==> k in a.holder && !(i in a.recs && k == a.recs[i].key))
                          && (k in holder ==> holder[k] == a.holder[k] != i)
  {
  }

  lemma CommitPoints(points: map<string, seq<Sample>>, a: Registry, i: nat, r: Rec, points': map<string, seq<Sample>>)
    requires Named(a) && PointsMatch(points, a) && MayCommit(a, i, r)
    requires r.points == if r.key in points' then points'[r.key] else []
    requires forall k :: k != r.key ==>
                           (k in points' <==> k in points && !(i in a.recs && k == a.recs[i].key))
    requires forall k :: k != r.key && k in points' ==> points'[k] == points[k]
    ensures PointsMatch(points', Commit(a, i, r))
  {
    CommitHolder(a, i, r);
  }

  lemma CommitAliases(aliases: map<string, string>, a: Registry, i: nat, r: Rec)
    requires Wellformed(a) && AliasesMatch(aliases, a) && MayCommit(a, i, r)
    ensures AliasesMatch(if r.device.ip != "" then aliases[r.device.ip := r.key] else aliases, Commit(a, i, r))
  {
  }

  /** Writing device d, with the address an update for (mac, ip) leaves, to the record that update concerns. */
  lemma PutRefines(s: Store, a: Registry, i: nat, r: Rec, points': map<string, seq<Sample>>)
    requires Wellformed(a) && Refines(s, a) && MayCommit(a, i, r)
    requires i in a.recs ==> r.key == a.recs[i].key
    requires r.points == if r.key in points' then points'[r.key] else []
    requires points' == s.points || points' == s.points[r.key := r.points]
    ensures Wellformed(Commit(a, i, r))
    ensures Refines(PutDevice(s.(points := points'), r.key, r.device), Commit(a, i, r))
  {
    CommitWellformed(a, i, r);
    var s' := PutDevice(s.(points := points'), r.key, r.device);
    assert DevicesMatch(s'.devices, Commit(a, i, r)) by {
      CommitDevices(s.devices, a, i, r);
      Overwrite(s.devices, r.key, r.device);
    }
    assert PointsMatch(s'.points, Commit(a, i, r)) by {
      CommitPoints(s.points, a, i, r, points');
    }
    assert AliasesMatch(s'.aliases, Commit(a, i, r)) by {
      CommitAliases(s.aliases, a, i, r);
    }
  }

  lemma Overwrite<K, V>(m: map<K, V>, k: K, v: V)
    ensures (m - {k})[k := v] == m[k := v]
  {
  }

  lemma RenameRefines(s: Store, a: Registry, i: nat, r: Rec)
    requires Wellformed(a) && Refines(s, a) && MayCommit(a, i, r)
    requires i in a.recs && r.key != a.recs[i].key && r.points == a.recs[i].points
    ensures Wellformed(Commit(a, i, r))
    ensures Refines(PutDevice(Rekey(s, a.recs[i].key, r.key), r.key, r.device), Commit(a, i, r))
  {
    CommitWellformed(a, i, r);
    RenameDevices(s, a, i, r);
    RenamePoints(s, a, i, r);
    assert AliasesMatch(PutDevice(Rekey(s, a.recs[i].key, r.key), r.key, r.device).aliases, Commit(a, i, r)) by {
      CommitAliases(s.aliases, a, i, r);
    }
  }

  lemma RenameDevices(s: Store, a: Registry, i: nat, r: Rec)
    requires Named(a) && DevicesMatch(s.devices, a) && MayCommit(a, i, r)
    requires i in a.recs && r.key != a.recs[i].key
    ensures DevicesMatch(Rekey(s, a.recs[i].key, r.key).devices[r.key := r.device], Commit(a, i, r))
  {
    CommitDevices(s.devices, a, i, r);
    var key := a.recs[i].key;
    assert Rekey(s, key, r.key).devices[r.key := r.device] == (s.devices - {key})[r.key := r.device];
  }

  lemma RenamePoints(s: Store, a: Registry, i: nat, r: Rec)
    requires Named(a) && DevicesMatch(s.devices, a) && PointsMatch(s.points, a) && MayCommit(a, i, r)
    requires i in a.recs && r.key != a.recs[i].key && r.points == a.recs[i].points
    ensures PointsMatch(Rekey(s, a.recs[i].key, r.key).points, Commit(a, i, r))
  {
    CommitPoints(s.points, a, i, r, Rekey(s, a.recs[i].key, r.key).points);
  }

  // ---------- every step refines ----------

  lemma MergedIp(cfg: Config, current: Device, incoming: Device, now: int)
    ensures Merge(cfg, current, incoming, now).ip == Prefer(current.ip, incoming.ip)
  {
  }

  lemma SampledIp(cfg: Config, d: Device, points: seq<Sample>, q: Sample)
    ensures SampleDevice(cfg, d, points, q).ip == Prefer(d.ip, q.ip)
  {
  }

  /** Any record written by an update for (mac, ip), under its own name or the new mac name, may be committed. */
  lemma UpdateMayCommit(s: Store, a: Registry, mac: string, ip: string, r: Rec)
    requires Wellformed(a) && Refines(s, a) && MakeKey(mac, ip) != ""
    requires var before := RecAt(a, Target(a, mac, ip), mac, ip);
             && r.device.ip == Prefer(before.device.ip, ip)
             && (r.key == before.key || (mac != "" && IsIpKey(before.key) && r.key == MakeKey(mac, ip)))
    ensures MayCommit(a, Target(a, mac, ip), r)
  {
    LookupAgrees(s, a, mac, ip);
  }

  lemma SeeDeviceRefines(cfg: Config, s: Store, a: Registry, d: Device, now: int)
    requires Wellformed(a) && Refines(s, a)
    ensures Wellformed(IdStep(cfg, a, SeeDevice(d, now)))
    ensures Refines(UpdateDevice(cfg, s, d, now), IdStep(cfg, a, SeeDevice(d, now)))
  {
    LookupAgrees(s, a, d.mac, d.ip);
    if MakeKey(d.mac, d.ip) != "" {
      var i := Target(a, d.mac, d.ip);
      var before := RecAt(a, i, d.mac, d.ip);
      var r := SeeDeviceRec(cfg, before, d, now);
      MergedIp(cfg, before.device, d, now);
      UpdateMayCommit(s, a, d.mac, d.ip, r);
      assert before.device == DeviceAt(s, before.key);
      if r.key == before.key {
        PutRefines(s, a, i, r, s.points);
      } else {
        RenameRefines(s, a, i, r);
      }
    }
  }

  lemma SeeTrafficRefines(cfg: Config, s: Store, a: Registry, sample: Sample, now: int)
    requires Wellformed(a) && Refines(s, a)
    ensures Wellformed(IdStep(cfg, a, SeeTraffic(sample, now)))
    ensures Refines(UpdateTraffic(cfg, s, sample, now), IdStep(cfg, a, SeeTraffic(sample, now)))
  {
    var q := Normalized(sample, now);
    LookupAgrees(s, a, q.mac, q.ip);
    if MakeKey(q.mac, q.ip) != "" {
      var i := Target(a, q.mac, q.ip);
      var before := RecAt(a, i, q.mac, q.ip);
      var r := SeeTrafficRec(cfg, before, q);
      SampledIp(cfg, before.device, before.points, q);
      UpdateMayCommit(s, a, q.mac, q.ip, r);
      assert before.device == DeviceAt(s, before.key);
      assert before.points == PointsAt(s, before.key);
      PutRefines(s, a, i, r, s.points[r.key := r.points]);
    }
  }

  lemma CleanNamed(cfg: Config, a: Registry, now: int)
    requires Named(a)
    ensures Named(CleanRegistry(cfg, a, now))
  {
  }

  lemma CleanWellformed(cfg: Config, a: Registry, now: int)
    requires Wellformed(a)
    ensures Wellformed(CleanRegistry(cfg, a, now))
  {
    CleanNamed(cfg, a, now);
  }

  lemma CleanDevices(cfg: Config, s: Store, a: Registry, now: int)
    requires Wellformed(a) && DevicesMatch(s.devices, a)
    ensures DevicesMatch(Cleanup(cfg, s, now).devices, CleanRegistry(cfg, a, now))
  {
  }

  lemma CleanPoints(cfg: Config, s: Store, a: Registry, now: int)
    requires Wellformed(a) && DevicesMatch(s.devices, a) && PointsMatch(s.points, a)
    ensures PointsMatch(Cleanup(cfg, s, now).points, CleanRegistry(cfg, a, now))
  {
  }

  lemma CleanAliases(cfg: Config, s: Store, a: Registry, now: int)
    requires Wellformed(a) && DevicesMatch(s.devices, a) && AliasesMatch(s.aliases, a)
    ensures AliasesMatch(Cleanup(cfg, s, now).aliases, CleanRegistry(cfg, a, now))
  {
  }

  lemma CleanRefines(cfg: Config, s: Store, a: Registry, now: int)
    requires Wellformed(a) && Refines(s, a)
    ensures Wellformed(CleanRegistry(cfg, a, now))
    ensures Refines(Cleanup(cfg, s, now), CleanRegistry(cfg, a, now))
  {
    CleanWellformed(cfg, a, now);
    CleanDevices(cfg, s, a, now);
    CleanPoints(cfg, s, a, now);
    CleanAliases(cfg, s, a, now);
  }

  // ---------- runs ----------

  /** The registry after the same run. */
  function IdRun(cfg: Config, ops: seq<Op>): Registry {
    if ops == [] then NOBODY else IdStep(cfg, IdRun(cfg, ops[..|ops| - 1]), ops[|ops| - 1])
  }

  lemma IdRunSnoc(cfg: Config, ops: seq<Op>, op: Op)
    ensures IdRun(cfg, ops + [op]) == IdStep(cfg, IdRun(cfg, ops), op)
  {
    assert (ops + [op])[..|ops|] == ops;
  }

  lemma {:induction false} RunRefines(cfg: Config, ops: seq<Op>)
    ensures Wellformed(IdRun(cfg, ops))
    ensures Refines(Run(cfg, ops), IdRun(cfg, ops))
  {
    if ops != [] {
      var before := ops[..|ops| - 1];
      RunRefines(cfg, before);
      match ops[|ops| - 1]
      case SeeDevice(d, now) => SeeDeviceRefines(cfg, Run(cfg, before), IdRun(cfg, before), d, now);
      case SeeTraffic(q, now) => SeeTrafficRefines(cfg, Run(cfg, before), IdRun(cfg, before), q, now);
      case Clean(now) => CleanRefines(cfg, Run(cfg, before), IdRun(cfg, before), now);
    }
  }

  // ---------- one record through one step ----------

  /** The record that a call updates, if any. */
  function Touched(a: Registry, op: Op): Option<nat> {
    match op
    case SeeDevice(d, _) => if MakeKey(d.mac, d.ip) == "" then None else Some(Target(a, d.mac, d.ip))
    case SeeTraffic(q, _) =>
      if MakeKey(Lower(q.mac), q.ip) == "" then None else Some(Target(a, Lower(q.mac), q.ip))
    case Clean(_) => None
  }

  predicate Newborn(r: Rec) {
    r.device == BLANK && r.points == [] && r.log == [] && r.marks == []
  }

  /** What a call may do to one record. */
  predicate Evolves(cfg: Config, op: Op, r: Rec, r': Rec) {
    match op
    case SeeDevice(d, now) => r' == r || r' == SeeDeviceRec(cfg, r, d, now)
    case SeeTraffic(q, now) => r' == r || r' == SeeTrafficRec(cfg, r, Normalized(q, now))
    case Clean(now) => r' == CleanRec(cfg, r, now)
  }

  /** What a call leaves of the record it updates. */
  function UpdatedRec(cfg: Config, op: Op, r: Rec): Rec {
    match op
    case SeeDevice(d, now) => SeeDeviceRec(cfg, r, d, now)
    case SeeTraffic(q, now) => SeeTrafficRec(cfg, r, Normalized(q, now))
    case Clean(_) => r
  }

  /** A record is touched only by the call's own update or cleanup; every other record keeps all it has. */
  lemma StepEvolves(cfg: Config, a: Registry, op: Op, i: nat) returns (r: Rec)
    requires i in IdStep(cfg, a, op).recs
    ensures if i in a.recs then r == a.recs[i] else Newborn(r) && !op.Clean?
    ensures Evolves(cfg, op, r, IdStep(cfg, a, op).recs[i])
    ensures !op.Clean? && Touched(a, op) != Some(i) ==> IdStep(cfg, a, op).recs[i] == r
    ensures Touched(a, op) == Some(i) ==> IdStep(cfg, a, op).recs[i] == UpdatedRec(cfg, op, r)
  {
    match op
    case SeeDevice(d, _) => r := RecAt(a, i, d.mac, d.ip);
    case SeeTraffic(q, now) => r := RecAt(a, i, Normalized(q, now).mac, q.ip);
    case Clean(_) => r := a.recs[i];
  }
}
