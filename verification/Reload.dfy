/**
 The devices table: what upsertDevices writes, what loadDevices reads back into an empty store, and exactly what a
 restart keeps of a record. Text columns go through C strings, times through whole seconds, counters through int64.
 */
module Reload {
  import opened Sequences
  import opened StoreModel
  import opened Telemetry
  import opened Text

  import Identity
  import Tags

  // ---------- columns ----------

  /** bind_text and column_text stop at the first NUL. */
  function CString(s: string): (r: string)
    ensures '\0' !in r
  {
    if s == "" || s[0] == '\0' then "" else [s[0]] + CString(s[1..])
  }

  lemma {:induction false} CStringKeeps(s: string)
    ensures CString(s) == s <==> '\0' !in s
    decreases s
  {
    if s != "" {
      CStringKeeps(s[1..]);
      assert s == [s[0]] + s[1..];
    }
  }

  /** What a time keeps: its whole seconds; anything before the first second is unset. */
  function WholeSeconds(t: int): int {
    if t < SECOND then 0 else t - t % SECOND
  }

  lemma SecondsRoundTrip(t: int)
    ensures FromUnixSeconds(UnixSeconds(t)) == WholeSeconds(t)
  {
  }

  function ToInt64(c: Counter): int {
    if c < 0x8000_0000_0000_0000 then c else c - 0x1_0000_0000_0000_0000
  }

  function ToUint64(i: int): Counter {
    i % 0x1_0000_0000_0000_0000
  }

  function StatusText(s: Status): string {
    match s case Online => "online" case Idle => "idle" case Offline => "offline" case Unknown => "unknown"
  }

  function ParseStatus(s: string): Status {
    var text := Lower(s);
    if text == "online" then Online else if text == "idle" then Idle else if text == "offline" then Offline else Unknown
  }

  // ---------- rows ----------

  datatype Row = Row(mac: string, ip: string, hostname: string, interfaceName: string, source: string, neighState: string,
                     status: string, firstSeen: int, lastSeen: int, lastDhcp: int, lastTraffic: int, lastRate: int,
                     rxBytes: int, txBytes: int, rxRate: real, txRate: real, tags: string)

  function RowOf(d: Device): Row {
    Row(CString(Lower(d.mac)), CString(d.ip), CString(d.hostname), CString(d.interfaceName), CString(d.source),
        CString(d.neighState), CString(StatusText(d.status)),
        UnixSeconds(d.firstSeen), UnixSeconds(d.lastSeen), UnixSeconds(d.lastDhcp), UnixSeconds(d.lastTraffic), UnixSeconds(d.lastRate),
        ToInt64(d.rxBytes), ToInt64(d.txBytes), d.rxRate, d.txRate, CString(Tags.Join(d.tags)))
  }

  function DeviceOf(r: Row): Device {
    Device(r.mac, r.ip, r.hostname, r.interfaceName, r.source, r.neighState, ParseStatus(r.status),
           FromUnixSeconds(r.firstSeen), FromUnixSeconds(r.lastSeen), FromUnixSeconds(r.lastDhcp), FromUnixSeconds(r.lastTraffic),
           FromUnixSeconds(r.lastRate), ToUint64(r.rxBytes), ToUint64(r.txBytes), r.rxRate, r.txRate, Tags.Parse(r.tags))
  }

  function KeyOf(d: Device): string {
    MakeKey(d.mac, d.ip)
  }

  /** INSERT ... ON CONFLICT DO UPDATE for every device that has a key. */
  method UpsertDevices(table: map<string, Row>, devices: seq<Device>) returns (out: map<string, Row>)
    ensures out == Upserted(table, devices)
  {
    out := table;
    for i := 0 to |devices|
      invariant out == Upserted(table, devices[..i])
    {
      assert devices[..i + 1][..i] == devices[..i];
      var key := KeyOf(devices[i]);
      if key == "" {
        continue;
      }
      out := out[CString(key) := RowOf(devices[i])];
    }
    assert devices[..|devices|] == devices;
  }

  function Upserted(table: map<string, Row>, devices: seq<Device>): map<string, Row> {
    if devices == [] then table
    else
      var d, before := devices[|devices| - 1], Upserted(table, devices[..|devices| - 1]);
      if KeyOf(d) == "" then before else before[CString(KeyOf(d)) := RowOf(d)]
  }

  /** loadDevices: every row is one updateDevice, each with its own clock reading. */
  function Loaded(cfg: Config, rows: seq<Row>, nows: seq<int>): Store
    requires |rows| == |nows|
  {
    if rows == [] then EMPTY
    else
      var n := |rows| - 1;
      UpdateDevice(cfg, Loaded(cfg, rows[..n], nows[..n]), DeviceOf(rows[n]), nows[n])
  }

  // ---------- what a restart keeps ----------

  /** A device whose texts and tags survive their columns. */
  predicate Columnar(d: Device) {
    && '\0' !in Lower(d.mac) && '\0' !in d.ip && '\0' !in d.hostname && '\0' !in d.interfaceName
    && '\0' !in d.source && '\0' !in d.neighState
    && forall i :: 0 <= i < |d.tags| ==> Tags.GoodTag(d.tags[i]) && '\0' !in d.tags[i]
  }

  predicate GoodText(s: string) {
    s == "" || Informative(s)
  }

  /** Texts that setIfNotEmpty would write, or none. */
  predicate GoodTexts(d: Device) {
    && GoodText(Lower(d.mac)) && GoodText(d.ip) && GoodText(d.hostname) && GoodText(d.interfaceName)
    && GoodText(d.source) && GoodText(d.neighState)
  }

  /** A device that survives its columns and a merge into a blank record. */
  predicate Savable(d: Device) {
    Columnar(d) && GoodTexts(d) && Distinct(d.tags)
  }

  predicate Storable(d: Device) {
    KeyOf(d) != "" && Savable(d)
  }

  /** The device, to whole seconds. */
  function Rounded(d: Device): Device {
    d.(mac := Lower(d.mac), firstSeen := WholeSeconds(d.firstSeen), lastSeen := WholeSeconds(d.lastSeen),
    lastDhcp := WholeSeconds(d.lastDhcp), lastTraffic := WholeSeconds(d.lastTraffic), lastRate := WholeSeconds(d.lastRate))
  }

  /** Every field as it was, to whole seconds, except that first_seen becomes last_seen and the status is recomputed. */
  function Restored(cfg: Config, d: Device, now: int): Device {
    var r := Rounded(d);
    var seen := if r.lastSeen == 0 then now else r.lastSeen;
    var r' := r.(firstSeen := seen, lastSeen := seen, status := Unknown);
    r'.(status := if d.status == Offline then Offline else StatusFor(cfg, r', now))
  }

  lemma StatusRoundTrip(s: Status)
    ensures ParseStatus(CString(StatusText(s))) == s
  {
    CStringKeeps(StatusText(s));
    assert Lower(StatusText(s)) == StatusText(s);
  }

  lemma CounterRoundTrip(c: Counter)
    ensures ToUint64(ToInt64(c)) == c
  {
  }

  lemma TagsColumn(tags: seq<string>)
    ensures Tags.Parse(CString(Tags.Join(tags))) == tags <==>
            forall i :: 0 <= i < |tags| ==> Tags.GoodTag(tags[i]) && '\0' !in tags[i]
  {
    var text := Tags.Join(tags);
    CStringKeeps(text);
    Tags.RoundTrip(tags);
    Tags.ParsedIsGood(CString(text));
    Tags.ParseAvoids(CString(text), '\0');
    if forall i :: 0 <= i < |tags| ==> '\0' !in tags[i] {
      Tags.JoinAvoids(tags, '\0');
    }
  }

  /** The columns give back a device, to whole seconds, exactly when no text has a NUL and every tag fits its column. */
  lemma ColumnsRoundTrip(d: Device)
    ensures DeviceOf(RowOf(d)) == Rounded(d) <==> Columnar(d)
  {
    CStringKeeps(Lower(d.mac));
    CStringKeeps(d.ip);
    CStringKeeps(d.hostname);
    CStringKeeps(d.interfaceName);
    CStringKeeps(d.source);
    CStringKeeps(d.neighState);
    TagsColumn(d.tags);
    StatusRoundTrip(d.status);
    CounterRoundTrip(d.rxBytes);
    CounterRoundTrip(d.txBytes);
    SecondsRoundTrip(d.firstSeen);
    SecondsRoundTrip(d.lastSeen);
    SecondsRoundTrip(d.lastDhcp);
    SecondsRoundTrip(d.lastTraffic);
    SecondsRoundTrip(d.lastRate);
  }

  // ---------- loading into an empty store ----------

  lemma {:induction false} AddTagsDistinct(tags: seq<string>, more: seq<string>)
    requires Distinct(tags + more)
    ensures AddTags(tags, more) == tags + more
    decreases more
  {
    if more == [] {
      assert tags + more == tags;
    } else {
      assert (tags + more)[|tags|] == more[0] && forall i :: 0 <= i < |tags| ==> tags[i] == (tags + more)[i];
      assert tags + more == (tags + [more[0]]) + more[1..];
      AddTagsDistinct(tags + [more[0]], more[1..]);
    }
  }

  lemma BlankMerge(cfg: Config, d: Device, now: int)
    requires GoodTexts(d) && Distinct(d.tags)
    ensures Merge(cfg, BLANK, Rounded(d), now) == Restored(cfg, d, now)
  {
    LowerIdempotent(d.mac);
    assert [] + d.tags == d.tags;
    AddTagsDistinct([], d.tags);
    var named := MergeNames(BLANK, Rounded(d));
    assert named == BLANK.(mac := Lower(d.mac), ip := d.ip, hostname := d.hostname, interfaceName := d.interfaceName,
    source := d.source, neighState := d.neighState);
  }

  predicate KeysApart(ds: seq<Device>) {
    forall i, j :: 0 <= i < j < |ds| ==> KeyOf(ds[i]) != KeyOf(ds[j])
  }

  predicate IpsApart(ds: seq<Device>) {
    forall i, j :: 0 <= i < j < |ds| ==> ds[i].ip == "" || ds[i].ip != ds[j].ip
  }

  /** Pairwise distinct keys and pairwise distinct non-empty addresses. */
  predicate Apart(ds: seq<Device>) {
    KeysApart(ds) && IpsApart(ds)
  }

  function Keys(ds: seq<Device>): set<string> {
    set i | 0 <= i < |ds| :: KeyOf(ds[i])
  }

  function Ips(ds: seq<Device>): set<string> {
    set i | 0 <= i < |ds| :: ds[i].ip
  }

  function RowsOf(ds: seq<Device>): (r: seq<Row>)
    ensures |r| == |ds| && forall i :: 0 <= i < |ds| ==> r[i] == RowOf(ds[i])
  {
    seq(|ds|, i requires 0 <= i < |ds| => RowOf(ds[i]))
  }

  /** A store that holds exactly the restored records of these devices, each reachable by its address. */
  ghost predicate Holds(cfg: Config, s: Store, ds: seq<Device>, nows: seq<int>)
    requires |ds| == |nows|
  {
    && s.devices.Keys == Keys(ds) && s.aliases.Keys == Ips(ds) - {""} && s.points == map[]
    && (forall i :: 0 <= i < |ds| ==> RestoredAt(cfg, s, ds[i], nows[i]))
  }

  ghost predicate RestoredAt(cfg: Config, s: Store, d: Device, now: int) {
    && KeyOf(d) in s.devices && s.devices[KeyOf(d)] == Restored(cfg, d, now)
    && (d.ip != "" ==> d.ip in s.aliases && s.aliases[d.ip] == KeyOf(d))
  }

  lemma NewKey(ds: seq<Device>, d: Device)
    requires KeysApart(ds + [d])
    ensures KeyOf(d) !in Keys(ds)
  {
    var all := ds + [d];
    assert all[|ds|] == d && forall i :: 0 <= i < |ds| ==> all[i] == ds[i];
  }

  lemma KeyFound(ds: seq<Device>, d: Device)
    requires Apart(ds + [d])
    ensures KeyOf(d) !in Keys(ds)
    ensures d.ip != "" ==> d.ip !in Ips(ds) && IpKey(d.ip) !in Keys(ds)
  {
    var all := ds + [d];
    assert all[|ds|] == d && forall i :: 0 <= i < |ds| ==> all[i] == ds[i];
    if d.ip != "" {
      forall i | 0 <= i < |ds|
        ensures KeyOf(ds[i]) != IpKey(d.ip)
      {
        IpKeyed(ds[i], d.ip);
      }
    }
  }

  lemma IpKeyed(d: Device, ip: string)
    ensures KeyOf(d) == IpKey(ip) ==> d.ip == ip
  {
    assert IpKey(ip)[3..] == ip;
    if KeyOf(d) == IpKey(ip) && Lower(d.mac) == "" && d.ip != "" {
      assert IpKey(d.ip)[3..] == d.ip;
    }
  }

  lemma RoundedKey(d: Device)
    ensures KeyOf(Rounded(d)) == KeyOf(d) && Rounded(d).ip == d.ip
  {
    LowerIdempotent(d.mac);
  }

  /** A device apart from those in the store becomes a record of its own. */
  lemma LoadOne(cfg: Config, s: Store, ds: seq<Device>, nows: seq<int>, d: Device, now: int)
    requires |ds| == |nows| && Holds(cfg, s, ds, nows) && Apart(ds + [d]) && Storable(d)
    ensures UpdateDevice(cfg, s, Rounded(d), now) == PutDevice(s, KeyOf(d), Restored(cfg, d, now))
  {
    KeyFound(ds, d);
    RoundedKey(d);
    LowerIdempotent(d.mac);
    BlankMerge(cfg, d, now);
    assert FindKey(s, Rounded(d).mac, d.ip) == "";
  }

  lemma RestoredStays(cfg: Config, s: Store, ds: seq<Device>, i: nat, now: int, key: string, d: Device)
    requires i < |ds| && RestoredAt(cfg, s, ds[i], now)
    requires key !in Keys(ds) && (d.ip == "" || d.ip !in Ips(ds))
    ensures RestoredAt(cfg, PutDevice(s, key, d), ds[i], now)
  {
    assert KeyOf(ds[i]) in Keys(ds) && ds[i].ip in Ips(ds);
  }

  lemma HoldsMore(cfg: Config, s: Store, ds: seq<Device>, nows: seq<int>, d: Device, now: int)
    requires |ds| == |nows| && Holds(cfg, s, ds, nows) && Apart(ds + [d])
    ensures Holds(cfg, PutDevice(s, KeyOf(d), Restored(cfg, d, now)), ds + [d], nows + [now])
  {
    KeyFound(ds, d);
    KeysSnoc(ds, d);
    var all, times, s' := ds + [d], nows + [now], PutDevice(s, KeyOf(d), Restored(cfg, d, now));
    forall i | 0 <= i < |all|
      ensures RestoredAt(cfg, s', all[i], times[i])
    {
      if i < |ds| {
        assert all[i] == ds[i] && times[i] == nows[i];
        RestoredStays(cfg, s, ds, i, nows[i], KeyOf(d), Restored(cfg, d, now));
      } else {
        assert all[i] == d && times[i] == now;
      }
    }
    AliasesMore(s, ds, d, KeyOf(d), Restored(cfg, d, now));
  }

  lemma AliasesMore(s: Store, ds: seq<Device>, d: Device, key: string, r: Device)
    requires s.aliases.Keys == Ips(ds) - {""} && r.ip == d.ip
    ensures PutDevice(s, key, r).aliases.Keys == Ips(ds + [d]) - {""}
  {
    KeysSnoc(ds, d);
  }

  lemma KeysSnoc(ds: seq<Device>, d: Device)
    ensures Keys(ds + [d]) == Keys(ds) + {KeyOf(d)} && Ips(ds + [d]) == Ips(ds) + {d.ip}
  {
    var all := ds + [d];
    assert all[|ds|] == d && forall i :: 0 <= i < |ds| ==> all[i] == ds[i];
    forall k | k in Keys(ds) + {KeyOf(d)}
      ensures k in Keys(all)
    {
      if k != KeyOf(d) {
        var i :| 0 <= i < |ds| && KeyOf(ds[i]) == k;
        assert KeyOf(all[i]) == k;
      } else {
        assert KeyOf(all[|ds|]) == k;
      }
    }
    forall y | y in Ips(ds) + {d.ip}
      ensures y in Ips(all)
    {
      if y != d.ip {
        var i :| 0 <= i < |ds| && ds[i].ip == y;
        assert all[i].ip == y;
      } else {
        assert all[|ds|].ip == y;
      }
    }
  }

  ghost predicate AllStorable(ds: seq<Device>) {
    forall i :: 0 <= i < |ds| ==> Storable(ds[i])
  }

  lemma Prefix(ds: seq<Device>, n: nat)
    requires n <= |ds| && AllStorable(ds)
    ensures AllStorable(ds[..n]) && (KeysApart(ds) ==> KeysApart(ds[..n])) && (IpsApart(ds) ==> IpsApart(ds[..n]))
  {
  }

  lemma LoadedSnoc(cfg: Config, ds: seq<Device>, nows: seq<int>, d: Device, now: int)
    requires |ds| == |nows| && Columnar(d)
    ensures Loaded(cfg, RowsOf(ds + [d]), nows + [now]) == UpdateDevice(cfg, Loaded(cfg, RowsOf(ds), nows), Rounded(d), now)
  {
    ColumnsRoundTrip(d);
    var rows := RowsOf(ds + [d]);
    assert rows[..|ds|] == RowsOf(ds) && (nows + [now])[..|ds|] == nows;
  }

  lemma {:induction false} LoadHolds(cfg: Config, ds: seq<Device>, nows: seq<int>)
    requires |ds| == |nows| && Apart(ds) && AllStorable(ds)
    ensures Holds(cfg, Loaded(cfg, RowsOf(ds), nows), ds, nows)
    decreases ds
  {
    if ds != [] {
      var n := |ds| - 1;
      var before, times, d, now := ds[..n], nows[..n], ds[n], nows[n];
      Prefix(ds, n);
      Unsnoc(ds);
      Unsnoc(nows);
      LoadHolds(cfg, before, times);
      LoadNext(cfg, before, times, d, now);
    }
  }

  lemma LoadNext(cfg: Config, ds: seq<Device>, nows: seq<int>, d: Device, now: int)
    requires |ds| == |nows| && Apart(ds + [d]) && Storable(d)
    requires Holds(cfg, Loaded(cfg, RowsOf(ds), nows), ds, nows)
    ensures Holds(cfg, Loaded(cfg, RowsOf(ds + [d]), nows + [now]), ds + [d], nows + [now])
  {
    var s := Loaded(cfg, RowsOf(ds), nows);
    LoadedSnoc(cfg, ds, nows, d, now);
    LoadOne(cfg, s, ds, nows, d, now);
    HoldsMore(cfg, s, ds, nows, d, now);
  }

  // ---------- through the table ----------

  /** Saving twice is saving at once what both saves wrote: nothing is ever deleted from the table. */
  lemma {:induction false} UpsertedTwice(table: map<string, Row>, a: seq<Device>, b: seq<Device>)
    ensures Upserted(Upserted(table, a), b) == Upserted(table, a + b)
    decreases b
  {
    if b == [] {
      assert a + b == a;
    } else {
      var n := |b| - 1;
      UpsertedTwice(table, a, b[..n]);
      assert (a + b)[..|a + b| - 1] == a + b[..n];
    }
  }

  ghost predicate AllSavable(ds: seq<Device>) {
    forall i :: 0 <= i < |ds| ==> Savable(ds[i])
  }

  /** The device last written under a key, of all that were ever saved. */
  function Latest(ds: seq<Device>, key: string): Device {
    if ds == [] then BLANK
    else var d := ds[|ds| - 1]; if KeyOf(d) == key then d else Latest(ds[..|ds| - 1], key)
  }

  lemma LatestSnoc(ds: seq<Device>, d: Device, key: string)
    ensures Latest(ds + [d], key) == if KeyOf(d) == key then d else Latest(ds, key)
  {
    assert (ds + [d])[..|ds|] == ds;
  }

  lemma {:induction false} LatestIs(ds: seq<Device>, key: string)
    requires key in Keys(ds)
    ensures Latest(ds, key) in ds && KeyOf(Latest(ds, key)) == key
    decreases ds
  {
    var n := |ds| - 1;
    if KeyOf(ds[n]) != key {
      Unsnoc(ds);
      KeysSnoc(ds[..n], ds[n]);
      LatestIs(ds[..n], key);
      assert forall d :: d in ds[..n] ==> d in ds;
    }
  }

  lemma {:induction false} LatestConcat(a: seq<Device>, b: seq<Device>, key: string)
    ensures Keys(a + b) == Keys(a) + Keys(b)
    ensures Latest(a + b, key) == if key in Keys(b) then Latest(b, key) else Latest(a, key)
    decreases b
  {
    if b == [] {
      assert a + b == a;
    } else {
      var n := |b| - 1;
      LatestConcat(a, b[..n], key);
      Unsnoc(b);
      ConcatSnoc(a, b[..n], b[n]);
      KeysSnoc(b[..n], b[n]);
      KeysSnoc(a + b[..n], b[n]);
      LatestSnoc(b[..n], b[n], key);
      LatestSnoc(a + b[..n], b[n], key);
    }
  }

  lemma LatestUnique(ds: seq<Device>, i: nat)
    requires KeysApart(ds) && i < |ds|
    ensures Latest(ds, KeyOf(ds[i])) == ds[i]
  {
    assert KeyOf(ds[i]) in Keys(ds);
    LatestIs(ds, KeyOf(ds[i]));
  }

  /** The table after any saves: one row per key ever written, of the device last written under it. */
  ghost predicate TableOf(table: map<string, Row>, ds: seq<Device>) {
    table.Keys == Keys(ds) - {""} && forall k :: k in table ==> table[k] == RowOf(Latest(ds, k))
  }

  lemma {:induction false} UpsertedRows(ds: seq<Device>)
    requires AllSavable(ds)
    ensures TableOf(Upserted(map[], ds), ds)
    decreases ds
  {
    if ds != [] {
      var n := |ds| - 1;
      UpsertedRows(ds[..n]);
      Unsnoc(ds);
      UpsertNext(ds[..n], ds[n]);
    }
  }

  lemma UpsertNext(ds: seq<Device>, d: Device)
    requires Savable(d) && TableOf(Upserted(map[], ds), ds)
    ensures TableOf(Upserted(map[], ds + [d]), ds + [d])
  {
    UpsertedSnoc(ds, d);
    if KeyOf(d) == "" { SkipRow(Upserted(map[], ds), ds, d); } else { PutRow(Upserted(map[], ds), ds, d); }
  }

  lemma SkipRow(table: map<string, Row>, ds: seq<Device>, d: Device)
    requires TableOf(table, ds) && KeyOf(d) == ""
    ensures TableOf(table, ds + [d])
  {
    KeysSnoc(ds, d);
    assert Keys(ds + [d]) - {""} == Keys(ds) - {""};
    forall k | k in table
      ensures Latest(ds + [d], k) == Latest(ds, k)
    {
      LatestSnoc(ds, d, k);
    }
  }

  lemma PutRow(table: map<string, Row>, ds: seq<Device>, d: Device)
    requires TableOf(table, ds) && KeyOf(d) != ""
    ensures TableOf(table[KeyOf(d) := RowOf(d)], ds + [d])
  {
    var key, table' := KeyOf(d), table[KeyOf(d) := RowOf(d)];
    KeysSnoc(ds, d);
    assert table'.Keys == Keys(ds + [d]) - {""} by { MoreKeys(table.Keys, Keys(ds), key); }
    forall k | k in table'
      ensures table'[k] == RowOf(Latest(ds + [d], k))
    {
      LatestSnoc(ds, d, k);
      if k == key { assert Latest(ds + [d], k) == d; } else { assert table'[k] == table[k]; }
    }
  }

  lemma MoreKeys(keys: set<string>, all: set<string>, key: string)
    requires keys == all - {""} && key != ""
    ensures keys + {key} == all + {key} - {""}
  {
  }

  lemma UpsertedSnoc(ds: seq<Device>, d: Device)
    requires Savable(d)
    ensures var before := Upserted(map[], ds);
            Upserted(map[], ds + [d]) == if KeyOf(d) == "" then before else before[KeyOf(d) := RowOf(d)]
  {
    KeyIsCString(d);
    assert (ds + [d])[..|ds|] == ds;
  }

  lemma KeyIsCString(d: Device)
    requires Savable(d)
    ensures CString(KeyOf(d)) == KeyOf(d)
  {
    CStringKeeps(KeyOf(d));
  }

  function Listed(table: map<string, Row>, order: seq<string>): (r: seq<Row>)
    requires forall j :: 0 <= j < |order| ==> order[j] in table
    ensures |r| == |order| && forall j :: 0 <= j < |order| ==> r[j] == table[order[j]]
  {
    seq(|order|, j requires 0 <= j < |order| => table[order[j]])
  }

  /** The devices behind the rows, in the order of the query. */
  function Kept(ds: seq<Device>, order: seq<string>): (r: seq<Device>)
    ensures |r| == |order| && forall j :: 0 <= j < |order| ==> r[j] == Latest(ds, order[j])
  {
    seq(|order|, j requires 0 <= j < |order| => Latest(ds, order[j]))
  }

  /** What the query may return: every key of the table once. */
  ghost predicate QueryOrder(ds: seq<Device>, order: seq<string>) {
    Enumerates(order, Upserted(map[], ds).Keys)
  }

  lemma InTable(ds: seq<Device>, order: seq<string>)
    requires QueryOrder(ds, order)
    ensures forall j :: 0 <= j < |order| ==> order[j] in Upserted(map[], ds)
  {
    assert forall j :: 0 <= j < |order| ==> order[j] in order;
  }

  lemma KeptStorable(ds: seq<Device>, order: seq<string>, j: nat)
    requires AllSavable(ds) && QueryOrder(ds, order) && j < |order|
    ensures var d := Kept(ds, order)[j]; Storable(d) && KeyOf(d) == order[j] && Upserted(map[], ds)[order[j]] == RowOf(d)
  {
    InTable(ds, order);
    UpsertedRows(ds);
    LatestIs(ds, order[j]);
  }

  lemma KeptRows(ds: seq<Device>, order: seq<string>)
    requires AllSavable(ds) && QueryOrder(ds, order)
    ensures forall j :: 0 <= j < |order| ==> order[j] in Upserted(map[], ds)
    ensures Listed(Upserted(map[], ds), order) == RowsOf(Kept(ds, order))
    ensures AllStorable(Kept(ds, order)) && KeysApart(Kept(ds, order)) && Keys(Kept(ds, order)) == Upserted(map[], ds).Keys
  {
    InTable(ds, order);
    var kept := Kept(ds, order);
    forall j | 0 <= j < |order|
      ensures Storable(kept[j]) && KeyOf(kept[j]) == order[j] && Upserted(map[], ds)[order[j]] == RowOf(kept[j])
    {
      KeptStorable(ds, order, j);
    }
    SameElements(order, kept, Upserted(map[], ds).Keys);
  }

  lemma SameElements(order: seq<string>, kept: seq<Device>, keys: set<string>)
    requires Enumerates(order, keys) && |kept| == |order| && forall j :: 0 <= j < |order| ==> KeyOf(kept[j]) == order[j]
    ensures Keys(kept) == keys
  {
    forall k | k in keys
      ensures k in Keys(kept)
    {
      var j :| 0 <= j < |order| && order[j] == k;
      assert KeyOf(kept[j]) == k;
    }
  }

  /** No two rows share an address. */
  predicate RowsApart(table: map<string, Row>) {
    forall k, l :: k in table && l in table && k != l ==> table[k].ip == "" || table[k].ip != table[l].ip
  }

  lemma KeptApart(ds: seq<Device>, order: seq<string>)
    requires AllSavable(ds) && QueryOrder(ds, order) && RowsApart(Upserted(map[], ds))
    ensures IpsApart(Kept(ds, order))
  {
    var kept := Kept(ds, order);
    forall i, j | 0 <= i < j < |kept|
      ensures kept[i].ip == "" || kept[i].ip != kept[j].ip
    {
      KeptStorable(ds, order, i);
      KeptStorable(ds, order, j);
      CStringKeeps(kept[i].ip);
      CStringKeeps(kept[j].ip);
    }
  }

  /** A restart, whatever was saved before and how often: if no two rows share an address, then in any order the query
      yields every row becomes a record of its own, restored and reachable by its address, and there are no others. */
  lemma ReloadRestores(cfg: Config, ds: seq<Device>, order: seq<string>, nows: seq<int>)
    requires AllSavable(ds) && QueryOrder(ds, order) && |nows| == |order| && RowsApart(Upserted(map[], ds))
    ensures forall j :: 0 <= j < |order| ==> order[j] in Upserted(map[], ds)
    ensures var s := Loaded(cfg, Listed(Upserted(map[], ds), order), nows);
            Holds(cfg, s, Kept(ds, order), nows) && s.devices.Keys == Upserted(map[], ds).Keys
  {
    KeptRows(ds, order);
    KeptApart(ds, order);
    LoadHolds(cfg, Kept(ds, order), nows);
  }

  // ---------- records of a store are storable ----------

  /** What setIfNotEmpty, lower-casing and hasTag guarantee of a record. */
  predicate Tidy(d: Device) {
    && (forall s :: s in [d.mac, d.ip, d.hostname, d.interfaceName, d.source, d.neighState] ==> s == "" || Informative(s))
    && Lower(d.mac) == d.mac
    && Distinct(d.tags)
  }

  lemma {:induction false} AddTagsKeepsDistinct(tags: seq<string>, more: seq<string>)
    requires Distinct(tags)
    ensures Distinct(AddTags(tags, more))
    decreases more
  {
    if more != [] {
      AddTagsKeepsDistinct(if more[0] in tags then tags else tags + [more[0]], more[1..]);
    }
  }

  lemma MergeTidy(cfg: Config, current: Device, incoming: Device, now: int)
    requires Tidy(current)
    ensures Tidy(Merge(cfg, current, incoming, now))
  {
    LowerIdempotent(incoming.mac);
    AddTagsKeepsDistinct(current.tags, incoming.tags);
  }

  lemma SampleTidy(cfg: Config, d: Device, points: seq<Sample>, q: Sample)
    requires Tidy(d) && Lower(q.mac) == q.mac
    ensures Tidy(SampleDevice(cfg, d, points, q))
  {
    AddTagsKeepsDistinct(d.tags, ["traffic"]);
  }

  lemma TidyIsSavable(d: Device)
    requires Tidy(d)
    ensures Savable(d) <==> Columnar(d)
  {
    var texts := [d.mac, d.ip, d.hostname, d.interfaceName, d.source, d.neighState];
    assert d.mac in texts && d.ip in texts && d.hostname in texts && d.interfaceName in texts;
    assert d.source in texts && d.neighState in texts;
  }

  /** Every record of every run is tidy. */
  lemma {:induction false} RecordsAreTidy(cfg: Config, ops: seq<Op>, i: nat)
    requires i in Identity.IdRun(cfg, ops).recs
    ensures Tidy(Identity.IdRun(cfg, ops).recs[i].device)
  {
    var before, op := ops[..|ops| - 1], ops[|ops| - 1];
    var a := Identity.IdRun(cfg, before);
    var r := Identity.StepEvolves(cfg, a, op, i);
    if i in a.recs {
      RecordsAreTidy(cfg, before, i);
    }
    match op
    case SeeDevice(d, now) => MergeTidy(cfg, r.device, d, now);
    case SeeTraffic(q, now) =>
      LowerIdempotent(q.mac);
      SampleTidy(cfg, r.device, r.points, Normalized(q, now));
    case Clean(_) =>
  }

  /** So a record of a run is savable exactly when its texts and tags survive their columns. */
  lemma RecordSavableIff(cfg: Config, ops: seq<Op>, i: nat)
    requires i in Identity.IdRun(cfg, ops).recs
    ensures Savable(Identity.IdRun(cfg, ops).recs[i].device) <==> Columnar(Identity.IdRun(cfg, ops).recs[i].device)
  {
    RecordsAreTidy(cfg, ops, i);
    TidyIsSavable(Identity.IdRun(cfg, ops).recs[i].device);
  }
}
