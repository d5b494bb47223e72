/**
 What a record shows, said by looking back at the calls that updated it and not at how they merge:
 each text is the last informative one reported, each counter and time the last one set, the record was last seen at
 the latest of the reported times, and it is named after the first MAC that could name it.
 */
module Reports {
  import opened Identity
  import opened Lifecycle
  import opened Sequences
  import opened StoreModel
  import opened Telemetry
  import opened Text

  // ---------- the reports of one record ----------

  /** The calls that updated record i, oldest first. */
  function ReportsOf(cfg: Config, ops: seq<Op>, i: nat): seq<Op> {
    if ops == [] then []
    else
      var before, op := ops[..|ops| - 1], ops[|ops| - 1];
      ReportsOf(cfg, before, i) + if Touched(IdRun(cfg, before), op) == Some(i) then [op] else []
  }

  lemma ReportsSnoc(cfg: Config, ops: seq<Op>, op: Op, i: nat)
    ensures ReportsOf(cfg, ops + [op], i) ==
            ReportsOf(cfg, ops, i) + if Touched(IdRun(cfg, ops), op) == Some(i) then [op] else []
  {
    assert (ops + [op])[..|ops|] == ops;
  }

  lemma StepNext(cfg: Config, a: Registry, op: Op)
    requires Wellformed(a)
    ensures a.next <= IdStep(cfg, a, op).next
    ensures forall i :: Touched(a, op) == Some(i) ==> i < IdStep(cfg, a, op).next
  {
  }

  /** Nothing is reported to a record before it is born. */
  lemma {:induction false} UnbornUnreported(cfg: Config, ops: seq<Op>, i: nat)
    requires i >= IdRun(cfg, ops).next
    ensures ReportsOf(cfg, ops, i) == []
  {
    if ops != [] {
      var before := ops[..|ops| - 1];
      RunRefines(cfg, before);
      StepNext(cfg, IdRun(cfg, before), ops[|ops| - 1]);
      UnbornUnreported(cfg, before, i);
    }
  }

  // ---------- what one call reports ----------

  datatype TextField = Mac | Ip | Hostname | Interface | Source | Neighbour

  function TextOf(d: Device, f: TextField): string {
    match f
    case Mac => d.mac
    case Ip => d.ip
    case Hostname => d.hostname
    case Interface => d.interfaceName
    case Source => d.source
    case Neighbour => d.neighState
  }

  /** A MAC is reported in lower case; a traffic sample reports addresses and calls itself "traffic". */
  function ReportedText(op: Op, f: TextField): string {
    match op
    case SeeDevice(d, _) => if f == Mac then Lower(d.mac) else TextOf(d, f)
    case SeeTraffic(q, _) =>
      if f == Mac then Lower(q.mac) else if f == Ip then q.ip else if f == Source then "traffic" else ""
    case Clean(_) => ""
  }

  /** The last reported value that says something, or nothing. */
  function LastText(reports: seq<Op>, f: TextField): string {
    if reports == [] then ""
    else
      var value := ReportedText(reports[|reports| - 1], f);
      if value in ["", "unknown", "*"] then LastText(reports[..|reports| - 1], f) else value
  }

  datatype TimeField = Dhcp | Traffic

  function TimeOf(d: Device, f: TimeField): int {
    if f == Dhcp then d.lastDhcp else d.lastTraffic
  }

  /** The time a report was made for: its own, or the clock if it has none. */
  function SeenAt(op: Op): int {
    match op
    case SeeDevice(d, now) => if d.lastSeen == 0 then now else d.lastSeen
    case SeeTraffic(q, now) => if q.ts == 0 then now else q.ts
    case Clean(now) => now
  }

  function ReportedTime(op: Op, f: TimeField): Option<int> {
    match op
    case SeeDevice(d, _) => if TimeOf(d, f) == 0 then None else Some(TimeOf(d, f))
    case SeeTraffic(_, _) => if f == Traffic then Some(SeenAt(op)) else None
    case Clean(_) => None
  }

  function LastTime(reports: seq<Op>, f: TimeField): int {
    if reports == [] then 0
    else
      match ReportedTime(reports[|reports| - 1], f)
      case Some(t) => t
      case None => LastTime(reports[..|reports| - 1], f)
  }

  function BytesOf(d: Device, dir: Direction): int {
    if dir == Rx then d.rxBytes else d.txBytes
  }

  /** A sample always reports its counters; a device report only those above zero. */
  function ReportedBytes(op: Op, dir: Direction): Option<int> {
    match op
    case SeeDevice(d, _) => if BytesOf(d, dir) == 0 then None else Some(BytesOf(d, dir))
    case SeeTraffic(q, _) => Some(if dir == Rx then q.rx else q.tx)
    case Clean(_) => None
  }

  function LastBytes(reports: seq<Op>, dir: Direction): int {
    if reports == [] then 0
    else
      match ReportedBytes(reports[|reports| - 1], dir)
      case Some(n) => n
      case None => LastBytes(reports[..|reports| - 1], dir)
  }

  function ReportedTags(op: Op): seq<string> {
    match op
    case SeeDevice(d, _) => d.tags
    case SeeTraffic(_, _) => ["traffic"]
    case Clean(_) => []
  }

  function AllTags(reports: seq<Op>): seq<string> {
    if reports == [] then [] else AllTags(reports[..|reports| - 1]) + ReportedTags(reports[|reports| - 1])
  }

  /** A list without its repetitions, each item where it first stood. */
  function Firsts(s: seq<string>): seq<string> {
    if s == [] then []
    else
      var n := |s| - 1;
      Firsts(s[..n]) + if s[n] in s[..n] then [] else [s[n]]
  }

  // ---------- what a record shows ----------

  ghost predicate TextsShown(d: Device, reports: seq<Op>) {
    forall f :: TextOf(d, f) == LastText(reports, f)
  }

  ghost predicate TimesShown(d: Device, reports: seq<Op>) {
    forall f :: TimeOf(d, f) == LastTime(reports, f)
  }

  ghost predicate BytesShown(d: Device, reports: seq<Op>) {
    forall dir :: BytesOf(d, dir) == LastBytes(reports, dir)
  }

  /** The time is not after the epoch, or the time of one of the reports; none is later, except before the epoch. */
  predicate LatestSeen(t: int, reports: seq<Op>) {
    && (t > 0 ==> exists k :: 0 <= k < |reports| && SeenAt(reports[k]) == t)
    && (forall k :: 0 <= k < |reports| ==> SeenAt(reports[k]) <= t || SeenAt(reports[k]) <= 0)
  }

  /** The time of the first report that has one; 0 is "unset". */
  predicate FirstSeen(t: int, reports: seq<Op>) {
    if forall k :: 0 <= k < |reports| ==> SeenAt(reports[k]) == 0 then t == 0
    else
      exists k :: 0 <= k < |reports| && SeenAt(reports[k]) == t != 0 && forall j :: 0 <= j < k ==> SeenAt(reports[j]) == 0
  }

  predicate TagsShown(d: Device, reports: seq<Op>) {
    d.tags == Firsts(AllTags(reports))
  }

  ghost predicate Shows(d: Device, reports: seq<Op>) {
    && TextsShown(d, reports) && TimesShown(d, reports) && BytesShown(d, reports)
    && LatestSeen(d.lastSeen, reports) && FirstSeen(d.firstSeen, reports) && TagsShown(d, reports)
  }

  // ---------- one report ----------

  lemma {:induction false} FirstsMembers(s: seq<string>, x: string)
    ensures x in Firsts(s) <==> x in s
  {
    if s != [] {
      Unsnoc(s);
      FirstsMembers(s[..|s| - 1], x);
    }
  }

  lemma FirstsSnoc(s: seq<string>, x: string)
    ensures Firsts(s + [x]) == if x in Firsts(s) then Firsts(s) else Firsts(s) + [x]
  {
    FirstsMembers(s, x);
    assert (s + [x])[..|s|] == s;
  }

  lemma {:induction false} AddTagsIsFirsts(s: seq<string>, more: seq<string>)
    ensures AddTags(Firsts(s), more) == Firsts(s + more)
    decreases more
  {
    if more == [] {
      assert s + more == s;
    } else {
      FirstsSnoc(s, more[0]);
      AddTagsIsFirsts(s + [more[0]], more[1..]);
      assert s + [more[0]] + more[1..] == s + more;
    }
  }

  lemma TagsReported(tags: seq<string>, reports: seq<Op>, op: Op)
    requires tags == Firsts(AllTags(reports))
    ensures AddTags(tags, ReportedTags(op)) == Firsts(AllTags(reports + [op]))
  {
    assert (reports + [op])[..|reports|] == reports;
    AddTagsIsFirsts(AllTags(reports), ReportedTags(op));
  }

  lemma LastTextSnoc(reports: seq<Op>, op: Op, f: TextField)
    ensures LastText(reports + [op], f) ==
            if ReportedText(op, f) in ["", "unknown", "*"] then LastText(reports, f) else ReportedText(op, f)
  {
    assert (reports + [op])[..|reports|] == reports;
  }

  lemma LastTimeSnoc(reports: seq<Op>, op: Op, f: TimeField)
    ensures LastTime(reports + [op], f) ==
            match ReportedTime(op, f) case Some(t) => t case None => LastTime(reports, f)
  {
    assert (reports + [op])[..|reports|] == reports;
  }

  lemma LastBytesSnoc(reports: seq<Op>, op: Op, dir: Direction)
    ensures LastBytes(reports + [op], dir) ==
            match ReportedBytes(op, dir) case Some(n) => n case None => LastBytes(reports, dir)
  {
    assert (reports + [op])[..|reports|] == reports;
  }

  lemma LatestSeenSnoc(t: int, t': int, reports: seq<Op>, op: Op)
    requires LatestSeen(t, reports)
    requires (t' == SeenAt(op) && (t' > t || t <= 0)) || (t' == t && (SeenAt(op) <= t || SeenAt(op) <= 0))
    ensures LatestSeen(t', reports + [op])
  {
    var all := reports + [op];
    assert all[|reports|] == op;
    forall k | 0 <= k < |all| ensures SeenAt(all[k]) <= t' || SeenAt(all[k]) <= 0 {
      if k < |reports| { assert all[k] == reports[k]; }
    }
    if t' > 0 && t' == t {
      var k :| 0 <= k < |reports| && SeenAt(reports[k]) == t;
      assert all[k] == reports[k];
    }
  }

  lemma FirstSeenSnoc(t: int, t': int, reports: seq<Op>, op: Op)
    requires FirstSeen(t, reports)
    requires t' == if t == 0 then SeenAt(op) else t
    ensures FirstSeen(t', reports + [op])
  {
    var all := reports + [op];
    assert all[|reports|] == op;
    assert forall k :: 0 <= k < |reports| ==> all[k] == reports[k];
    if t != 0 {
      var k :| 0 <= k < |reports| && SeenAt(reports[k]) == t != 0 && forall j :: 0 <= j < k ==> SeenAt(reports[j]) == 0;
      assert SeenAt(all[k]) == t;
    }
  }

  lemma DeviceTexts(cfg: Config, d: Device, reports: seq<Op>, incoming: Device, now: int)
    requires TextsShown(d, reports)
    ensures TextsShown(Merge(cfg, d, incoming, now), reports + [SeeDevice(incoming, now)])
  {
    forall f ensures TextOf(Merge(cfg, d, incoming, now), f) == LastText(reports + [SeeDevice(incoming, now)], f) {
      assert TextOf(d, f) == LastText(reports, f);
      LastTextSnoc(reports, SeeDevice(incoming, now), f);
    }
  }

  lemma DeviceCounts(cfg: Config, d: Device, reports: seq<Op>, incoming: Device, now: int)
    requires TimesShown(d, reports) && BytesShown(d, reports)
    ensures var d', op := Merge(cfg, d, incoming, now), SeeDevice(incoming, now);
            TimesShown(d', reports + [op]) && BytesShown(d', reports + [op])
  {
    var d', op := Merge(cfg, d, incoming, now), SeeDevice(incoming, now);
    forall f ensures TimeOf(d', f) == LastTime(reports + [op], f) {
      assert TimeOf(d, f) == LastTime(reports, f);
      LastTimeSnoc(reports, op, f);
    }
    forall dir ensures BytesOf(d', dir) == LastBytes(reports + [op], dir) {
      assert BytesOf(d, dir) == LastBytes(reports, dir);
      LastBytesSnoc(reports, op, dir);
    }
  }

  lemma DeviceShows(cfg: Config, d: Device, reports: seq<Op>, incoming: Device, now: int)
    requires Shows(d, reports)
    ensures Shows(Merge(cfg, d, incoming, now), reports + [SeeDevice(incoming, now)])
  {
    var op := SeeDevice(incoming, now);
    DeviceTexts(cfg, d, reports, incoming, now);
    DeviceCounts(cfg, d, reports, incoming, now);
    LatestSeenSnoc(d.lastSeen, Merge(cfg, d, incoming, now).lastSeen, reports, op);
    FirstSeenSnoc(d.firstSeen, Merge(cfg, d, incoming, now).firstSeen, reports, op);
    TagsReported(d.tags, reports, op);
  }

  lemma SampleTexts(cfg: Config, d: Device, points: seq<Sample>, reports: seq<Op>, q: Sample, now: int)
    requires TextsShown(d, reports)
    ensures TextsShown(SampleDevice(cfg, d, points, Normalized(q, now)), reports + [SeeTraffic(q, now)])
  {
    var d' := SampleDevice(cfg, d, points, Normalized(q, now));
    forall f ensures TextOf(d', f) == LastText(reports + [SeeTraffic(q, now)], f) {
      assert TextOf(d, f) == LastText(reports, f);
      LastTextSnoc(reports, SeeTraffic(q, now), f);
    }
  }

  lemma SampleCounts(cfg: Config, d: Device, points: seq<Sample>, reports: seq<Op>, q: Sample, now: int)
    requires TimesShown(d, reports) && BytesShown(d, reports)
    ensures var d', op := SampleDevice(cfg, d, points, Normalized(q, now)), SeeTraffic(q, now);
            TimesShown(d', reports + [op]) && BytesShown(d', reports + [op])
  {
    var d', op := SampleDevice(cfg, d, points, Normalized(q, now)), SeeTraffic(q, now);
    forall f ensures TimeOf(d', f) == LastTime(reports + [op], f) {
      assert TimeOf(d, f) == LastTime(reports, f);
      LastTimeSnoc(reports, op, f);
    }
    forall dir ensures BytesOf(d', dir) == LastBytes(reports + [op], dir) {
      LastBytesSnoc(reports, op, dir);
    }
  }

  lemma SampleShows(cfg: Config, d: Device, points: seq<Sample>, reports: seq<Op>, q: Sample, now: int)
    requires Shows(d, reports)
    ensures Shows(SampleDevice(cfg, d, points, Normalized(q, now)), reports + [SeeTraffic(q, now)])
  {
    var d', op := SampleDevice(cfg, d, points, Normalized(q, now)), SeeTraffic(q, now);
    SampleTexts(cfg, d, points, reports, q, now);
    SampleCounts(cfg, d, points, reports, q, now);
    LatestSeenSnoc(d.lastSeen, d'.lastSeen, reports, op);
    FirstSeenSnoc(d.firstSeen, d'.firstSeen, reports, op);
    TagsReported(d.tags, reports, op);
  }

  /** A cleanup reports nothing. */
  lemma CleanShows(cfg: Config, d: Device, reports: seq<Op>, now: int)
    requires Shows(d, reports)
    ensures Shows(CleanDevice(cfg, d, now), reports)
  {
    var d' := CleanDevice(cfg, d, now);
    assert forall f :: TextOf(d', f) == TextOf(d, f);
    assert forall f :: TimeOf(d', f) == TimeOf(d, f);
    assert forall dir :: BytesOf(d', dir) == BytesOf(d, dir);
  }

  // ---------- every run ----------

  lemma BlankShows()
    ensures Shows(BLANK, [])
  {
  }

  lemma StepShows(cfg: Config, a: Registry, op: Op, i: nat, r: Rec, r': Rec, reports: seq<Op>)
    requires Shows(r.device, reports) && Evolves(cfg, op, r, r')
    requires op.Clean? || (if Touched(a, op) == Some(i) then r' == UpdatedRec(cfg, op, r) else r' == r)
    ensures Shows(r'.device, reports + if Touched(a, op) == Some(i) then [op] else [])
  {
    assert reports + [] == reports;
    match op
    case SeeDevice(d, now) => if Touched(a, op) == Some(i) { DeviceShows(cfg, r.device, reports, d, now); }
    case SeeTraffic(q, now) => if Touched(a, op) == Some(i) { SampleShows(cfg, r.device, r.points, reports, q, now); }
    case Clean(now) => CleanShows(cfg, r.device, reports, now);
  }

  lemma {:induction false} RunShows(cfg: Config, ops: seq<Op>, i: nat)
    requires i in IdRun(cfg, ops).recs
    ensures Shows(IdRun(cfg, ops).recs[i].device, ReportsOf(cfg, ops, i))
  {
    if ops != [] {
      var before, op := ops[..|ops| - 1], ops[|ops| - 1];
      var a := IdRun(cfg, before);
      var r := StepEvolves(cfg, a, op, i);
      if i in a.recs {
        RunShows(cfg, before, i);
      } else {
        BornUnreported(cfg, before, op, i);
        BlankShows();
      }
      StepShows(cfg, a, op, i, r, IdRun(cfg, ops).recs[i], ReportsOf(cfg, before, i));
    }
  }

  /** A record that a call brings into being had no reports before. */
  lemma BornUnreported(cfg: Config, ops: seq<Op>, op: Op, i: nat)
    requires i !in IdRun(cfg, ops).recs && i in IdStep(cfg, IdRun(cfg, ops), op).recs
    ensures ReportsOf(cfg, ops, i) == []
  {
    RunRefines(cfg, ops);
    if i < IdRun(cfg, ops).next {
      StepFresh(cfg, IdRun(cfg, ops), op, i);
    } else {
      UnbornUnreported(cfg, ops, i);
    }
  }

  /** Every live record of every run shows what was reported to it. */
  lemma RecordShowsReports(cfg: Config, ops: seq<Op>, key: string)
    requires key in Run(cfg, ops).devices
    ensures key in IdRun(cfg, ops).holder
    ensures Shows(Run(cfg, ops).devices[key], ReportsOf(cfg, ops, IdRun(cfg, ops).holder[key]))
  {
    RunRefines(cfg, ops);
    RunShows(cfg, ops, IdRun(cfg, ops).holder[key]);
  }

  // ---------- names ----------

  /** A report can name its record if it carries a MAC, and is the first one or comes from discovery. */
  predicate CanName(op: Op, k: nat) {
    ReportedText(op, Mac) != "" && (k == 0 || op.SeeDevice?)
  }

  /** The first report that can name the record, if any. */
  function Namer(reports: seq<Op>): (k: nat)
    ensures k <= |reports| && (k < |reports| ==> CanName(reports[k], k))
    ensures forall j :: 0 <= j < k ==> !CanName(reports[j], j)
  {
    if reports == [] then 0
    else
      var n := |reports| - 1;
      var k := Namer(reports[..n]);
      if k < n || CanName(reports[n], n) then k else n + 1
  }

  function NameOf(reports: seq<Op>): string
    requires reports != []
  {
    if Namer(reports) < |reports| then "mac:" + ReportedText(reports[Namer(reports)], Mac)
    else "ip:" + ReportedText(reports[0], Ip)
  }

  lemma NamerSnoc(reports: seq<Op>, op: Op)
    ensures var n := |reports|;
            Namer(reports + [op]) == if Namer(reports) < n || CanName(op, n) then Namer(reports) else n + 1
  {
    assert (reports + [op])[..|reports|] == reports;
  }

  /** A name, once given by a MAC, stays; before that, the next report of discovery with a MAC gives it. */
  lemma NameOfSnoc(reports: seq<Op>, op: Op)
    requires reports != []
    ensures NameOf(reports + [op]) ==
            if IsIpKey(NameOf(reports)) && CanName(op, |reports|) then "mac:" + ReportedText(op, Mac) else NameOf(reports)
  {
    NamerSnoc(reports, op);
    var name, k := NameOf(reports), Namer(reports);
    assert IsIpKey(name) <==> k == |reports| by {
      assert name[..3][0] == name[0];
      if k == |reports| { assert name[..3] == "ip:"; }
    }
  }

  lemma BirthName(cfg: Config, a: Registry, op: Op, i: nat)
    requires Touched(a, op) == Some(i) && i !in a.recs
    ensures i in IdStep(cfg, a, op).recs && IdStep(cfg, a, op).recs[i].key == NameOf([op])
  {
    NamerSnoc([], op);
    assert [] + [op] == [op];
    if op.SeeTraffic? { LowerIdempotent(op.sample.mac); }
  }

  lemma StepName(cfg: Config, a: Registry, op: Op, i: nat, reports: seq<Op>)
    requires Touched(a, op) == Some(i) && i in a.recs && reports != [] && a.recs[i].key == NameOf(reports)
    ensures i in IdStep(cfg, a, op).recs && IdStep(cfg, a, op).recs[i].key == NameOf(reports + [op])
  {
    NameOfSnoc(reports, op);
  }

  /** In every run a record is keyed by the first MAC that can name it, and by its first address before that. */
  lemma {:induction false} RecordIsNamedByReports(cfg: Config, ops: seq<Op>, i: nat)
    requires i in IdRun(cfg, ops).recs
    ensures ReportsOf(cfg, ops, i) != [] && IdRun(cfg, ops).recs[i].key == NameOf(ReportsOf(cfg, ops, i))
  {
    if ops != [] {
      var before, op := ops[..|ops| - 1], ops[|ops| - 1];
      var a := IdRun(cfg, before);
      if i in a.recs {
        RecordIsNamedByReports(cfg, before, i);
        if Touched(a, op) == Some(i) {
          StepName(cfg, a, op, i, ReportsOf(cfg, before, i));
        } else {
          KeepsName(cfg, a, op, i);
          assert ReportsOf(cfg, ops, i) == ReportsOf(cfg, before, i);
        }
      } else {
        BornUnreported(cfg, before, op, i);
        BornTouched(cfg, a, op, i);
        BirthName(cfg, a, op, i);
        assert ReportsOf(cfg, ops, i) == [op];
      }
    }
  }

  lemma KeepsName(cfg: Config, a: Registry, op: Op, i: nat)
    requires i in a.recs && i in IdStep(cfg, a, op).recs && Touched(a, op) != Some(i)
    ensures IdStep(cfg, a, op).recs[i].key == a.recs[i].key
  {
    var r := StepEvolves(cfg, a, op, i);
  }

  lemma BornTouched(cfg: Config, a: Registry, op: Op, i: nat)
    requires i !in a.recs && i in IdStep(cfg, a, op).recs
    ensures Touched(a, op) == Some(i)
  {
  }

  lemma TargetIs(devices: map<string, Device>, a: Registry, mac: string, ip: string, last: Option<nat>)
    requires DevicesMatch(devices, a) && Lower(mac) == mac
    requires ip != "" ==> last == if ip in a.owner then Some(a.owner[ip]) else None
    ensures Target(a, mac, ip) ==
            if mac != "" && "mac:" + mac in devices then a.holder["mac:" + mac]
            else if ip != "" && last.Some? && last.value in a.recs then last.value
            else if ip != "" && "ip:" + ip in devices then a.holder["ip:" + ip]
            else a.next
  {
  }

  /** Whom a report concerns in every run: the record its MAC names, else the live record that last held its address,
      else the record its address names, else a new one; a report without MAC and address concerns nobody. */
  lemma ReportConcerns(cfg: Config, ops: seq<Op>, op: Op)
    requires !op.Clean?
    ensures var devices, a := Run(cfg, ops).devices, IdRun(cfg, ops);
            var mac, ip := ReportedText(op, Mac), ReportedText(op, Ip);
            var last := LastHolder(cfg, ops, ip);
            && devices.Keys == a.holder.Keys
            && Touched(a, op) ==
               if mac == "" && ip == "" then None
               else if mac != "" && "mac:" + mac in devices then Some(a.holder["mac:" + mac])
               else if ip != "" && last.Some? && last.value in a.recs then last
               else if ip != "" && "ip:" + ip in devices then Some(a.holder["ip:" + ip])
               else Some(a.next)
  {
    var a, mac, ip := IdRun(cfg, ops), ReportedText(op, Mac), ReportedText(op, Ip);
    RunRefines(cfg, ops);
    LowerIdempotent(if op.SeeTraffic? then op.sample.mac else op.device.mac);
    if ip != "" { OwnerIsLastHolder(cfg, ops, ip); }
    TargetIs(Run(cfg, ops).devices, a, mac, ip, LastHolder(cfg, ops, ip));
    if mac != "" || ip != "" { TouchedIs(a, op); }
  }

  lemma TouchedIs(a: Registry, op: Op)
    requires !op.Clean? && (ReportedText(op, Mac) != "" || ReportedText(op, Ip) != "")
    ensures Touched(a, op) == Some(Target(a, ReportedText(op, Mac), ReportedText(op, Ip)))
  {
    LowerIdempotent(if op.SeeTraffic? then op.sample.mac else op.device.mac);
  }
}
