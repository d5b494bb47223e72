/**
 The three coupled maps of StateStore and what one call does to them, as functions.
 Every public call holds the store's lock, so a call is one atomic step; the clock read is the argument `now`.
 */
module StoreModel {
  import opened Sequences
  import opened Telemetry
  import opened Text

  datatype Store = Store(devices: map<string, Device>, aliases: map<string, string>, points: map<string, seq<Sample>>)

  const EMPTY := Store(map[], map[], map[])

  // ---------- keys ----------

  predicate IsIpKey(key: string) {
    |key| >= 3 && key[..3] == "ip:"
  }

  function MacKey(mac: string): (key: string)
    ensures key != "" && !IsIpKey(key)
  {
    var key := "mac:" + mac;
    assert key[0] == 'm' && (|key| >= 3 ==> key[..3][0] == 'm');
    key
  }

  function IpKey(ip: string): (key: string)
    ensures IsIpKey(key) && key[3..] == ip
  {
    "ip:" + ip
  }

  function MakeKey(mac: string, ip: string): string {
    if Lower(mac) != "" then MacKey(Lower(mac))
    else if ip != "" then IpKey(ip)
    else ""
  }

  function FindKey(s: Store, mac: string, ip: string): string {
    if Lower(mac) != "" && MacKey(Lower(mac)) in s.devices then MacKey(Lower(mac))
    else if ip == "" then ""
    else if ip in s.aliases then s.aliases[ip]
    else if IpKey(ip) in s.devices then IpKey(ip)
    else ""
  }

  function LookupKey(s: Store, mac: string, ip: string): string {
    var key := FindKey(s, mac, ip);
    if key == "" then MakeKey(mac, ip) else key
  }

  // ---------- status ----------

  predicate ReachableNeighbour(state: string) {
    Upper(state) in ["REACHABLE", "STALE", "DELAY", "PROBE"]
  }

  predicate FailedNeighbour(state: string) {
    Upper(state) in ["FAILED", "INCOMPLETE", "NOARP"]
  }

  function StatusFor(cfg: Config, d: Device, now: int): Status {
    var age := now - d.lastSeen;
    if d.lastSeen == 0 then Unknown
    else if age > cfg.idleTtl * SECOND then Offline
    else if FailedNeighbour(d.neighState) then Idle
    else if age <= cfg.onlineTtl * SECOND &&
            (d.neighState == "" || ReachableNeighbour(d.neighState) || d.source in ["dhcp", "traffic", "wifi"]) then Online
    else Idle
  }

  // ---------- merging ----------

  /** setIfNotEmpty writes only such values. */
  predicate Informative(value: string) {
    value != "" && value != "unknown" && value != "*"
  }

  function Prefer(previous: string, value: string): string {
    if Informative(value) then value else previous
  }

  function AddTags(tags: seq<string>, more: seq<string>): seq<string>
    decreases more
  {
    if more == [] then tags
    else AddTags(if more[0] in tags then tags else tags + [more[0]], more[1..])
  }

  /** The setIfNotEmpty lines of mergeDeviceLocked. */
  function MergeNames(current: Device, incoming: Device): Device {
    current.(mac := Prefer(current.mac, Lower(incoming.mac)),
    ip := Prefer(current.ip, incoming.ip),
    hostname := Prefer(current.hostname, incoming.hostname),
    interfaceName := Prefer(current.interfaceName, incoming.interfaceName),
    source := Prefer(current.source, incoming.source),
    neighState := Prefer(current.neighState, incoming.neighState))
  }

  /** Its time lines. */
  function MergeTimes(d: Device, incoming: Device, now: int): Device {
    var seen := if incoming.lastSeen == 0 then now else incoming.lastSeen;
    d.(firstSeen := if d.firstSeen == 0 then seen else d.firstSeen,
    lastSeen := if d.lastSeen == 0 || seen > d.lastSeen then seen else d.lastSeen,
    lastDhcp := if incoming.lastDhcp != 0 then incoming.lastDhcp else d.lastDhcp,
    lastTraffic := if incoming.lastTraffic != 0 then incoming.lastTraffic else d.lastTraffic,
    lastRate := if incoming.lastRate != 0 then incoming.lastRate else d.lastRate)
  }

  /** Its counter, rate and tag lines. */
  function MergeCounters(d: Device, incoming: Device): Device {
    d.(rxBytes := if incoming.rxBytes > 0 then incoming.rxBytes else d.rxBytes,
    txBytes := if incoming.txBytes > 0 then incoming.txBytes else d.txBytes,
    rxRate := if incoming.rxRate != 0.0 then incoming.rxRate else d.rxRate,
    txRate := if incoming.txRate != 0.0 then incoming.txRate else d.txRate,
    tags := AddTags(d.tags, incoming.tags))
  }

  function Merge(cfg: Config, current: Device, incoming: Device, now: int): Device {
    var merged := MergeCounters(MergeTimes(MergeNames(current, incoming), incoming, now), incoming);
    merged.(status := if incoming.status == Offline then Offline else StatusFor(cfg, merged, now))
  }

  // ---------- updateDevice ----------

  function DeviceAt(s: Store, key: string): Device {
    if key in s.devices then s.devices[key] else BLANK
  }

  function PointsAt(s: Store, key: string): seq<Sample> {
    if key in s.points then s.points[key] else []
  }

  /** unordered_map::extract and insert: an occupied target key would drop the extracted record. */
  function Rekey(s: Store, key: string, desired: string): Store
    requires key in s.devices
  {
    Store(if desired in s.devices then s.devices - {key} else (s.devices - {key})[desired := s.devices[key]],
          s.aliases,
          s.points[desired := PointsAt(s, key)] - {key})
  }

  predicate MustRekey(s: Store, mac: string, key: string, desired: string) {
    mac != "" && IsIpKey(key) && desired != "" && desired != key && key in s.devices
  }

  function PutDevice(s: Store, key: string, d: Device): Store {
    s.(devices := s.devices[key := d], aliases := if d.ip != "" then s.aliases[d.ip := key] else s.aliases)
  }

  function UpdateDevice(cfg: Config, s: Store, d: Device, now: int): Store {
    var key := LookupKey(s, d.mac, d.ip);
    var desired := MakeKey(d.mac, d.ip);
    if key == "" then s
    else if MustRekey(s, d.mac, key, desired) then
      var moved := Rekey(s, key, desired);
      PutDevice(moved, desired, Merge(cfg, DeviceAt(moved, desired), d, now))
    else
      PutDevice(s, key, Merge(cfg, DeviceAt(s, key), d, now))
  }

  // ---------- updateTraffic ----------

  predicate Reset(p: Sample, q: Sample) {
    q.rx < p.rx || q.tx < p.tx
  }

  predicate SameCounters(p: Sample, q: Sample) {
    p.rx == q.rx && p.tx == q.tx
  }

  function Rate(before: Counter, after: Counter, from: int, to: int): real
    requires from < to
  {
    (after - before) as real * 8.0 / Elapsed(from, to)
  }

  /** What one sample means for a record: is it stored, does it mark a reset, and the rates it leaves. */
  datatype Verdict = Verdict(store: bool, reset: bool, rx: real, tx: real)

  predicate RecentRate(cfg: Config, d: Device, ts: int) {
    d.lastRate != 0 && ts - d.lastRate <= cfg.rateHold * SECOND
  }

  function Judge(cfg: Config, d: Device, points: seq<Sample>, q: Sample): Verdict {
    if points == [] then Verdict(true, false, d.rxRate, d.txRate)
    else
      var p := points[|points| - 1];
      if Reset(p, q) then Verdict(true, true, 0.0, 0.0)
      else if !SameCounters(p, q) then
        if p.ts < q.ts then Verdict(true, false, Rate(p.rx, q.rx, p.ts, q.ts), Rate(p.tx, q.tx, p.ts, q.ts))
        else Verdict(false, false, d.rxRate, d.txRate)
      else if RecentRate(cfg, d, q.ts) then Verdict(false, false, d.rxRate, d.txRate)
      else Verdict(false, false, 0.0, 0.0)
  }

  function SamplePoints(cfg: Config, d: Device, points: seq<Sample>, q: Sample): seq<Sample> {
    if Judge(cfg, d, points, q).store then LastN(points + [q], cfg.maxPoints) else points
  }

  function SampleDevice(cfg: Config, d: Device, points: seq<Sample>, q: Sample): Device {
    var v := Judge(cfg, d, points, q);
    var d' := d.(firstSeen := if d.firstSeen == 0 then q.ts else d.firstSeen,
    lastSeen := if d.lastSeen < q.ts then q.ts else d.lastSeen,
    lastTraffic := q.ts,
    mac := Prefer(d.mac, q.mac),
    ip := Prefer(d.ip, q.ip),
    source := "traffic",
    rxBytes := q.rx, txBytes := q.tx, rxRate := v.rx, txRate := v.tx,
    lastRate := if v.rx > 0.0 || v.tx > 0.0 then q.ts else if v.reset then 0 else d.lastRate,
    tags := AddTags(d.tags, ["traffic"]));
    d'.(status := StatusFor(cfg, d', q.ts))
  }

  function Normalized(q: Sample, now: int): Sample {
    q.(ts := if q.ts == 0 then now else q.ts, mac := Lower(q.mac))
  }

  function UpdateTraffic(cfg: Config, s: Store, sample: Sample, now: int): Store {
    var q := Normalized(sample, now);
    var key := LookupKey(s, q.mac, q.ip);
    if key == "" then s
    else
      var points := SamplePoints(cfg, DeviceAt(s, key), PointsAt(s, key), q);
      PutDevice(s.(points := s.points[key := points]), key, SampleDevice(cfg, DeviceAt(s, key), PointsAt(s, key), q))
  }

  // ---------- cleanup ----------

  function CleanDevice(cfg: Config, d: Device, now: int): Device {
    var stale := (d.rxRate > 0.0 || d.txRate > 0.0) && !RecentRate(cfg, d, now);
    d.(rxRate := if stale then 0.0 else d.rxRate, txRate := if stale then 0.0 else d.txRate,
    status := StatusFor(cfg, d, now))
  }

  predicate GoesOffline(cfg: Config, d: Device, now: int) {
    d.status != Offline && StatusFor(cfg, d, now) == Offline
  }

  predicate Expired(cfg: Config, d: Device, now: int) {
    StatusFor(cfg, d, now) == Offline && d.lastSeen != 0 && now - d.lastSeen > cfg.keepTtl * SECOND
  }

  /** Keys whose record emits a "Device offline" event in this cleanup. */
  function OfflineKeys(cfg: Config, s: Store, now: int): set<string> {
    set k | k in s.devices && GoesOffline(cfg, s.devices[k], now)
  }

  function ExpiredKeys(cfg: Config, s: Store, now: int): set<string> {
    set k | k in s.devices && Expired(cfg, s.devices[k], now)
  }

  function Without(s: Store, gone: set<string>): Store {
    Store(s.devices - gone, map ip | ip in s.aliases && s.aliases[ip] !in gone :: s.aliases[ip], s.points - gone)
  }

  function Cleanup(cfg: Config, s: Store, now: int): Store {
    Without(s.(devices := map k | k in s.devices :: CleanDevice(cfg, s.devices[k], now)), ExpiredKeys(cfg, s, now))
  }

  // ---------- runs ----------

  datatype Op = SeeDevice(device: Device, now: int) | SeeTraffic(sample: Sample, now: int) | Clean(now: int)

  function Step(cfg: Config, s: Store, op: Op): Store {
    match op
    case SeeDevice(d, now) => UpdateDevice(cfg, s, d, now)
    case SeeTraffic(q, now) => UpdateTraffic(cfg, s, q, now)
    case Clean(now) => Cleanup(cfg, s, now)
  }

  /** The store after a run of calls on an empty store. */
  function Run(cfg: Config, ops: seq<Op>): Store {
    if ops == [] then EMPTY else Step(cfg, Run(cfg, ops[..|ops| - 1]), ops[|ops| - 1])
  }

  /** Two samples, as the first calls of a run. */
  function Pair(p: Sample, q: Sample): seq<Op> {
    [SeeTraffic(p, p.ts), SeeTraffic(q, q.ts)]
  }

  lemma RunSnoc(cfg: Config, ops: seq<Op>, op: Op)
    ensures Run(cfg, ops + [op]) == Step(cfg, Run(cfg, ops), op)
  {
    assert (ops + [op])[..|ops|] == ops;
  }
}
