/**
 What a restart makes of the devices table. Rows are upserted and never deleted, so the table holds every key ever saved,
 also of records that were erased or re-keyed since; loading merges rows that share an address.
 */
module Restart {
  import opened Reload
  import opened Sequences
  import opened StoreModel
  import opened Telemetry
  import opened Text

  import Identity

  // ---------- exactly when every record comes back ----------

  /** The keys after an update. */
  lemma UpdateKeys(cfg: Config, s: Store, d: Device, now: int)
    ensures var key, desired := LookupKey(s, d.mac, d.ip), MakeKey(d.mac, d.ip);
            UpdateDevice(cfg, s, d, now).devices.Keys ==
            if key == "" then s.devices.Keys
            else if MustRekey(s, d.mac, key, desired) then s.devices.Keys - {key} + {desired}
            else s.devices.Keys + {key}
  {
  }

  lemma KeysGrow(keys: set<string>, key: string, desired: string)
    ensures |keys + {key}| <= |keys| + 1 && (key in keys ==> |keys + {key}| == |keys|)
    ensures key in keys ==> |keys - {key} + {desired}| <= |keys|
  {
    if key in keys {
      assert keys + {key} == keys;
      assert keys == keys - {key} + {key};
    }
  }

  lemma UpdateGrows(cfg: Config, s: Store, d: Device, now: int)
    ensures |UpdateDevice(cfg, s, d, now).devices.Keys| <= |s.devices.Keys| + 1
    ensures FindKey(s, d.mac, d.ip) in s.devices && FindKey(s, d.mac, d.ip) != "" ==>
              |UpdateDevice(cfg, s, d, now).devices.Keys| <= |s.devices.Keys|
  {
    UpdateKeys(cfg, s, d, now);
    KeysGrow(s.devices.Keys, LookupKey(s, d.mac, d.ip), MakeKey(d.mac, d.ip));
  }

  /** The calls that load the rows. */
  function LoadOps(rows: seq<Row>, nows: seq<int>): seq<Op>
    requires |rows| == |nows|
  {
    if rows == [] then []
    else var n := |rows| - 1; LoadOps(rows[..n], nows[..n]) + [SeeDevice(DeviceOf(rows[n]), nows[n])]
  }

  lemma {:induction false} LoadedIsRun(cfg: Config, rows: seq<Row>, nows: seq<int>)
    requires |rows| == |nows|
    ensures Loaded(cfg, rows, nows) == Run(cfg, LoadOps(rows, nows))
    decreases rows
  {
    if rows != [] {
      var n := |rows| - 1;
      LoadedIsRun(cfg, rows[..n], nows[..n]);
      RunSnoc(cfg, LoadOps(rows[..n], nows[..n]), SeeDevice(DeviceOf(rows[n]), nows[n]));
    }
  }

  lemma LoadedSound(cfg: Config, rows: seq<Row>, nows: seq<int>)
    requires |rows| == |nows|
    ensures var s := Loaded(cfg, rows, nows);
            "" !in s.devices && forall y :: y in s.aliases ==> s.aliases[y] in s.devices
  {
    LoadedIsRun(cfg, rows, nows);
    Identity.RunRefines(cfg, LoadOps(rows, nows));
  }

  lemma {:induction false} LoadedSize(cfg: Config, rows: seq<Row>, nows: seq<int>)
    requires |rows| == |nows|
    ensures |Loaded(cfg, rows, nows).devices.Keys| <= |rows|
    decreases rows
  {
    if rows != [] {
      var n := |rows| - 1;
      LoadedSize(cfg, rows[..n], nows[..n]);
      UpdateGrows(cfg, Loaded(cfg, rows[..n], nows[..n]), DeviceOf(rows[n]), nows[n]);
    }
  }

  lemma LoadedNext(cfg: Config, rows: seq<Row>, nows: seq<int>, row: Row, now: int)
    requires |rows| == |nows|
    ensures Loaded(cfg, rows + [row], nows + [now]) == UpdateDevice(cfg, Loaded(cfg, rows, nows), DeviceOf(row), now)
  {
    assert (rows + [row])[..|rows|] == rows && (nows + [now])[..|nows|] == nows;
  }

  lemma UpdateAliases(cfg: Config, s: Store, row: Row, now: int)
    ensures var s' := UpdateDevice(cfg, s, DeviceOf(row), now);
            s.aliases.Keys <= s'.aliases.Keys && (Informative(row.ip) ==> row.ip in s'.aliases)
  {
  }

  lemma {:induction false} LoadedAlias(cfg: Config, rows: seq<Row>, nows: seq<int>, i: nat)
    requires |rows| == |nows| && i < |rows| && Informative(rows[i].ip)
    ensures rows[i].ip in Loaded(cfg, rows, nows).aliases
    decreases rows
  {
    var n := |rows| - 1;
    var before, times := rows[..n], nows[..n];
    if i < n { LoadedAlias(cfg, before, times, i); }
    UpdateAliases(cfg, Loaded(cfg, before, times), rows[n], nows[n]);
    Unsnoc(rows);
    Unsnoc(nows);
    LoadedNext(cfg, before, times, rows[n], nows[n]);
  }

  lemma UpdateReuses(cfg: Config, s: Store, row: Row, now: int)
    requires "" !in s.devices && forall y :: y in s.aliases ==> s.aliases[y] in s.devices
    requires row.ip != "" && row.ip in s.aliases
    ensures |UpdateDevice(cfg, s, DeviceOf(row), now).devices.Keys| <= |s.devices.Keys|
  {
    UpdateGrows(cfg, s, DeviceOf(row), now);
  }

  lemma LastReuses(cfg: Config, rows: seq<Row>, nows: seq<int>, row: Row, now: int, i: nat)
    requires |rows| == |nows| && i < |rows| && rows[i].ip == row.ip && Informative(row.ip)
    ensures |Loaded(cfg, rows + [row], nows + [now]).devices.Keys| <= |rows|
  {
    LoadedSize(cfg, rows, nows);
    LoadedAlias(cfg, rows, nows, i);
    LoadedSound(cfg, rows, nows);
    UpdateReuses(cfg, Loaded(cfg, rows, nows), row, now);
    LoadedNext(cfg, rows, nows, row, now);
  }

  lemma LastGrows(cfg: Config, rows: seq<Row>, nows: seq<int>, row: Row, now: int)
    requires |rows| == |nows|
    ensures |Loaded(cfg, rows + [row], nows + [now]).devices.Keys| <= |Loaded(cfg, rows, nows).devices.Keys| + 1
  {
    LoadedNext(cfg, rows, nows, row, now);
    UpdateGrows(cfg, Loaded(cfg, rows, nows), DeviceOf(row), now);
  }

  /** Two rows with one address: the second finds the record of the first, whatever their keys. */
  lemma {:induction false} LoadedLoses(cfg: Config, rows: seq<Row>, nows: seq<int>, i: nat, j: nat)
    requires |rows| == |nows| && i < j < |rows| && rows[i].ip == rows[j].ip && Informative(rows[i].ip)
    ensures |Loaded(cfg, rows, nows).devices.Keys| < |rows|
    decreases rows
  {
    var n := |rows| - 1;
    Unsnoc(rows);
    Unsnoc(nows);
    if j < n {
      LoadedLoses(cfg, rows[..n], nows[..n], i, j);
      LastGrows(cfg, rows[..n], nows[..n], rows[n], nows[n]);
    } else {
      LastReuses(cfg, rows[..n], nows[..n], rows[n], nows[n], i);
    }
  }

  /** So two devices with one address become one record, in either order. */
  lemma TwoBecomeOne(cfg: Config, d: Device, e: Device, nows: seq<int>)
    requires Storable(d) && Storable(e) && d.ip == e.ip != "" && |nows| == 2
    ensures |Loaded(cfg, RowsOf([d, e]), nows).devices.Keys| == 1
  {
    var rows := [RowOf(d), RowOf(e)];
    assert RowsOf([d, e]) == rows && nows == [nows[0]] + [nows[1]] && rows == [rows[0]] + [rows[1]];
    CStringKeeps(d.ip);
    LoadedLoses(cfg, rows, nows, 0, 1);
    LoadedNext(cfg, [rows[0]], [nows[0]], rows[1], nows[1]);
    ColumnsRoundTrip(e);
    RoundedKey(e);
    KeyedUpdate(cfg, Loaded(cfg, [rows[0]], [nows[0]]), DeviceOf(rows[1]), nows[1]);
  }

  lemma KeyedUpdate(cfg: Config, s: Store, d: Device, now: int)
    requires KeyOf(d) != ""
    ensures |UpdateDevice(cfg, s, d, now).devices.Keys| > 0
  {
    UpdateKeys(cfg, s, d, now);
    var keys := UpdateDevice(cfg, s, d, now).devices.Keys;
    assert LookupKey(s, d.mac, d.ip) in keys || KeyOf(d) in keys;
  }

  predicate AllKeyed(ds: seq<Device>) {
    forall i :: 0 <= i < |ds| ==> KeyOf(ds[i]) != ""
  }

  lemma {:induction false} UpsertedHas(ds: seq<Device>, i: nat)
    requires i < |ds| && KeyOf(ds[i]) != ""
    ensures CString(KeyOf(ds[i])) in Upserted(map[], ds)
    decreases ds
  {
    var n := |ds| - 1;
    if i < n { UpsertedHas(ds[..n], i); }
    Unsnoc(ds);
    UpsertedPut(ds[..n], ds[n]);
  }

  lemma UpsertedPut(before: seq<Device>, d: Device)
    ensures Upserted(map[], before + [d]).Keys ==
            Upserted(map[], before).Keys + if KeyOf(d) == "" then {} else {CString(KeyOf(d))}
  {
    assert (before + [d])[..|before|] == before;
  }

  lemma UpsertedGrows(before: seq<Device>, d: Device)
    ensures var table, table' := Upserted(map[], before), Upserted(map[], before + [d]);
            && |table'.Keys| <= |table.Keys| + 1
            && (KeyOf(d) == "" || CString(KeyOf(d)) in table ==> |table'.Keys| == |table.Keys|)
  {
    UpsertedPut(before, d);
    var keys, more := Upserted(map[], before).Keys, if KeyOf(d) == "" then {} else {CString(KeyOf(d))};
    if more <= keys { assert keys + more == keys; }
  }

  /** A device without a key gets no row, and devices with one key share one. */
  lemma {:induction false} UpsertedSize(ds: seq<Device>)
    ensures |Upserted(map[], ds).Keys| <= |ds|
    ensures |Upserted(map[], ds).Keys| == |ds| ==> AllKeyed(ds) && KeysApart(ds)
    decreases ds
  {
    if ds != [] {
      var n := |ds| - 1;
      var before, d := ds[..n], ds[n];
      UpsertedSize(before);
      Unsnoc(ds);
      UpsertedGrows(before, d);
      if |Upserted(map[], ds).Keys| == |ds| {
        forall i | 0 <= i < n
          ensures KeyOf(ds[i]) != KeyOf(d)
        {
          UpsertedHas(before, i);
        }
      }
    }
  }

  lemma {:induction false} KeysSize(ds: seq<Device>)
    requires KeysApart(ds)
    ensures |Keys(ds)| == |ds|
    decreases ds
  {
    if ds != [] {
      var n := |ds| - 1;
      KeysSize(ds[..n]);
      Unsnoc(ds);
      KeysSnoc(ds[..n], ds[n]);
      NewKey(ds[..n], ds[n]);
    }
  }

  /** Where a row stands, and that its address is a real one. */
  lemma RowPlace(ds: seq<Device>, order: seq<string>, k: string) returns (p: nat)
    requires AllSavable(ds) && QueryOrder(ds, order) && k in Upserted(map[], ds)
    ensures p < |order| && order[p] == k && (Upserted(map[], ds)[k].ip == "" || Informative(Upserted(map[], ds)[k].ip))
  {
    p :| 0 <= p < |order| && order[p] == k;
    KeptStorable(ds, order, p);
    CStringKeeps(Kept(ds, order)[p].ip);
  }

  lemma SharedIpLoses(cfg: Config, ds: seq<Device>, order: seq<string>, nows: seq<int>, k: string, l: string)
    requires AllSavable(ds) && QueryOrder(ds, order) && |nows| == |order|
    requires var table := Upserted(map[], ds); k in table && l in table && k != l && table[k].ip == table[l].ip != ""
    ensures forall j :: 0 <= j < |order| ==> order[j] in Upserted(map[], ds)
    ensures |Loaded(cfg, Listed(Upserted(map[], ds), order), nows).devices.Keys| < |order|
  {
    InTable(ds, order);
    var p := RowPlace(ds, order, k);
    var q := RowPlace(ds, order, l);
    LoadedLoses(cfg, Listed(Upserted(map[], ds), order), nows, if p < q then p else q, if p < q then q else p);
  }

  /** A restart of any table, whatever was saved before and how often, in any order the query yields: every row becomes a
      record of its own exactly when no two rows share an address. */
  lemma RestartExact(cfg: Config, ds: seq<Device>, order: seq<string>, nows: seq<int>)
    requires AllSavable(ds) && QueryOrder(ds, order) && |nows| == |order|
    ensures forall j :: 0 <= j < |order| ==> order[j] in Upserted(map[], ds)
    ensures |Loaded(cfg, Listed(Upserted(map[], ds), order), nows).devices.Keys| == |order| <==> RowsApart(Upserted(map[], ds))
  {
    InTable(ds, order);
    var table := Upserted(map[], ds);
    if RowsApart(table) {
      ReloadRestores(cfg, ds, order, nows);
      EnumerationSize(order, table.Keys);
    } else {
      var k, l :| k in table && l in table && k != l && table[k].ip != "" && table[k].ip == table[l].ip;
      SharedIpLoses(cfg, ds, order, nows, k, l);
    }
  }

  // ---------- exactly when the live devices come back ----------

  /** Everything saved before was saved under a key that a live device still has. */
  predicate NoStaleRow(earlier: seq<Device>, live: seq<Device>) {
    forall i :: 0 <= i < |earlier| ==> KeyOf(earlier[i]) == "" || KeyOf(earlier[i]) in Keys(live)
  }

  lemma LatestLive(earlier: seq<Device>, live: seq<Device>, i: nat)
    requires KeysApart(live) && i < |live|
    ensures Latest(earlier + live, KeyOf(live[i])) == live[i]
  {
    assert KeyOf(live[i]) in Keys(live);
    LatestConcat(earlier, live, KeyOf(live[i]));
    LatestUnique(live, i);
  }

  lemma AddMember<T>(x: set<T>, e: T)
    ensures |x + {e}| == if e in x then |x| else |x| + 1
  {
    assert e in x ==> x + {e} == x;
  }

  lemma {:induction false} SizeApart(ds: seq<Device>)
    ensures |Keys(ds)| <= |ds| && (|Keys(ds)| == |ds| ==> KeysApart(ds))
    decreases ds
  {
    if ds != [] {
      var n := |ds| - 1;
      SizeApart(ds[..n]);
      Unsnoc(ds);
      KeysSnoc(ds[..n], ds[n]);
      AddMember(Keys(ds[..n]), KeyOf(ds[n]));
      if |Keys(ds)| == |ds| {
        forall i | 0 <= i < n
          ensures KeyOf(ds[i]) != KeyOf(ds[n])
        {
          assert ds[..n][i] == ds[i] && KeyOf(ds[i]) in Keys(ds[..n]);
        }
      }
    }
  }

  /** The row of a live device. */
  lemma LiveRow(earlier: seq<Device>, live: seq<Device>, i: nat)
    requires AllSavable(earlier + live) && KeysApart(live) && i < |live| && KeyOf(live[i]) != ""
    ensures var table, k := Upserted(map[], earlier + live), KeyOf(live[i]); k in table && table[k].ip == live[i].ip
  {
    UpsertedRows(earlier + live);
    LatestConcat(earlier, live, KeyOf(live[i]));
    LatestLive(earlier, live, i);
    assert KeyOf(live[i]) in Keys(live) && live[i] == (earlier + live)[|earlier| + i];
    CStringKeeps(live[i].ip);
  }

  /** The keys of the table, saved to before and now. */
  lemma TableKeys(earlier: seq<Device>, live: seq<Device>)
    requires AllSavable(earlier + live)
    ensures Upserted(map[], earlier + live).Keys == Keys(live) <==> AllKeyed(live) && NoStaleRow(earlier, live)
  {
    var keys := Upserted(map[], earlier + live).Keys;
    UpsertedRows(earlier + live);
    LatestConcat(earlier, live, "");
    forall i | 0 <= i < |live|
      ensures KeyOf(live[i]) in Keys(live)
    {
    }
    forall i | 0 <= i < |earlier|
      ensures KeyOf(earlier[i]) in Keys(earlier)
    {
    }
    if AllKeyed(live) && NoStaleRow(earlier, live) {
      assert Keys(earlier) - {""} <= Keys(live) && "" !in Keys(live);
    }
  }

  lemma LiveApart(earlier: seq<Device>, live: seq<Device>)
    requires AllSavable(earlier + live) && AllKeyed(live) && KeysApart(live) && Upserted(map[], earlier + live).Keys == Keys(live)
    ensures RowsApart(Upserted(map[], earlier + live)) <==> IpsApart(live)
  {
    var table := Upserted(map[], earlier + live);
    forall i | 0 <= i < |live|
      ensures KeyOf(live[i]) in table && table[KeyOf(live[i])].ip == live[i].ip
    {
      LiveRow(earlier, live, i);
    }
    if IpsApart(live) {
      forall k, l | k in table && l in table && k != l
        ensures table[k].ip == "" || table[k].ip != table[l].ip
      {
        var i :| 0 <= i < |live| && KeyOf(live[i]) == k;
        var j :| 0 <= j < |live| && KeyOf(live[j]) == l;
        assert i != j;
      }
    }
  }

  /** One record per row, and these are the live devices, one each under its own key. */
  ghost predicate OneForOne(s: Store, rows: nat, live: seq<Device>) {
    |s.devices.Keys| == rows && s.devices.Keys == Keys(live) && |Keys(live)| == |live|
  }

  /** The whole life of a table: some saves, the last of them of the live devices, then a restart in any order the query
      yields. The records are the live devices, one for one, exactly when every live device has a key, no two share a key or
      an address, and no row of an earlier save is left under another key. */
  lemma RestartLive(cfg: Config, earlier: seq<Device>, live: seq<Device>, order: seq<string>, nows: seq<int>)
    requires AllSavable(earlier + live) && QueryOrder(earlier + live, order) && |nows| == |order|
    ensures Upserted(Upserted(map[], earlier), live) == Upserted(map[], earlier + live)
    ensures forall j :: 0 <= j < |order| ==> order[j] in Upserted(map[], earlier + live)
    ensures var s := Loaded(cfg, Listed(Upserted(map[], earlier + live), order), nows);
            OneForOne(s, |order|, live) <==> AllKeyed(live) && Apart(live) && NoStaleRow(earlier, live)
  {
    UpsertedTwice(map[], earlier, live);
    InTable(earlier + live, order);
    var s := Loaded(cfg, Listed(Upserted(map[], earlier + live), order), nows);
    if AllKeyed(live) && Apart(live) && NoStaleRow(earlier, live) {
      LiveComesBack(cfg, earlier, live, order, nows);
    }
    if OneForOne(s, |order|, live) {
      OnlyIfLive(cfg, earlier, live, order, nows);
    }
  }

  lemma LiveComesBack(cfg: Config, earlier: seq<Device>, live: seq<Device>, order: seq<string>, nows: seq<int>)
    requires AllSavable(earlier + live) && QueryOrder(earlier + live, order) && |nows| == |order|
    requires AllKeyed(live) && Apart(live) && NoStaleRow(earlier, live)
    ensures forall j :: 0 <= j < |order| ==> order[j] in Upserted(map[], earlier + live)
    ensures OneForOne(Loaded(cfg, Listed(Upserted(map[], earlier + live), order), nows), |order|, live)
  {
    TableKeys(earlier, live);
    LiveApart(earlier, live);
    ReloadRestores(cfg, earlier + live, order, nows);
    EnumerationSize(order, Keys(live));
    KeysSize(live);
  }

  lemma OnlyIfLive(cfg: Config, earlier: seq<Device>, live: seq<Device>, order: seq<string>, nows: seq<int>)
    requires AllSavable(earlier + live) && QueryOrder(earlier + live, order) && |nows| == |order|
    requires forall j :: 0 <= j < |order| ==> order[j] in Upserted(map[], earlier + live)
    requires OneForOne(Loaded(cfg, Listed(Upserted(map[], earlier + live), order), nows), |order|, live)
    ensures AllKeyed(live) && Apart(live) && NoStaleRow(earlier, live)
  {
    RestartExact(cfg, earlier + live, order, nows);
    ReloadRestores(cfg, earlier + live, order, nows);
    TableKeys(earlier, live);
    SizeApart(live);
    LiveApart(earlier, live);
  }

  /** And then each of them is restored, as of its row. */
  lemma LiveRestored(cfg: Config, earlier: seq<Device>, live: seq<Device>, order: seq<string>, nows: seq<int>, i: nat)
    returns (j: nat)
    requires AllSavable(earlier + live) && QueryOrder(earlier + live, order) && |nows| == |order|
    requires AllKeyed(live) && Apart(live) && NoStaleRow(earlier, live) && i < |live|
    ensures j < |order| && order[j] == KeyOf(live[i])
    ensures forall j :: 0 <= j < |order| ==> order[j] in Upserted(map[], earlier + live)
    ensures RestoredAt(cfg, Loaded(cfg, Listed(Upserted(map[], earlier + live), order), nows), live[i], nows[j])
  {
    TableKeys(earlier, live);
    LiveApart(earlier, live);
    ReloadRestores(cfg, earlier + live, order, nows);
    j := LivePlace(earlier, live, order, i);
  }

  lemma LivePlace(earlier: seq<Device>, live: seq<Device>, order: seq<string>, i: nat) returns (j: nat)
    requires KeysApart(live) && i < |live| && Enumerates(order, Keys(live))
    ensures j < |order| && order[j] == KeyOf(live[i]) && Kept(earlier + live, order)[j] == live[i]
  {
    LatestLive(earlier, live, i);
    assert KeyOf(live[i]) in Keys(live);
    j :| 0 <= j < |order| && order[j] == KeyOf(live[i]);
  }

  /** A first restart, after one save into an empty table: as many records as devices come back exactly when all have a key
      and no two share a key or an address. */
  lemma FirstRestartExact(cfg: Config, devices: seq<Device>, order: seq<string>, nows: seq<int>)
    requires AllSavable(devices) && QueryOrder(devices, order) && |nows| == |order|
    ensures forall j :: 0 <= j < |order| ==> order[j] in Upserted(map[], devices)
    ensures |Loaded(cfg, Listed(Upserted(map[], devices), order), nows).devices.Keys| == |devices| <==>
            AllKeyed(devices) && Apart(devices)
  {
    assert [] + devices == devices;
    RestartExact(cfg, devices, order, nows);
    EnumerationSize(order, Upserted(map[], devices).Keys);
    UpsertedSize(devices);
    LoadedSize(cfg, Listed(Upserted(map[], devices), order), nows);
    if AllKeyed(devices) && KeysApart(devices) {
      TableKeys([], devices);
      LiveApart([], devices);
      KeysSize(devices);
    }
  }

  // ---------- runs that reach such records ----------

  /** A bare sighting. */
  function Sighting(mac: string, ip: string): Device {
    BLANK.(mac := mac, ip := ip)
  }

  predicate Named(mac: string) {
    Lower(mac) == mac && Informative(mac)
  }

  lemma MacKeys(a: string, b: string)
    ensures MacKey(a) == MacKey(b) <==> a == b
  {
    assert MacKey(a)[4..] == a && MacKey(b)[4..] == b;
  }

  lemma MergedNames(cfg: Config, d: Device, mac: string, ip: string, now: int)
    requires Named(mac) && Informative(ip)
    ensures var r := Merge(cfg, d, Sighting(mac, ip), now); r.mac == mac && r.ip == ip
  {
  }

  /** The record at key, no `ip:` key, was written with this mac and address; the address leads to it; no other changed. */
  ghost predicate Sighted(s: Store, mac: string, ip: string, key: string, s': Store) {
    && s'.devices.Keys == s.devices.Keys + {key} && s'.aliases == s.aliases[ip := key]
    && s'.devices[key].mac == mac && s'.devices[key].ip == ip
    && (forall k :: k in s.devices && k != key ==> s'.devices[k] == s.devices[k])
  }

  lemma SightingAt(cfg: Config, s: Store, mac: string, ip: string, key: string) returns (s': Store)
    requires Named(mac) && Informative(ip) && LookupKey(s, mac, ip) == key != "" && !IsIpKey(key)
    ensures s' == UpdateDevice(cfg, s, Sighting(mac, ip), 1) && Sighted(s, mac, ip, key, s')
  {
    MergedNames(cfg, DeviceAt(s, key), mac, ip, 1);
    s' := UpdateDevice(cfg, s, Sighting(mac, ip), 1);
  }

  lemma LookupNew(s: Store, mac: string, ip: string)
    requires Named(mac) && MacKey(mac) !in s.devices && ip !in s.aliases && IpKey(ip) !in s.devices
    ensures LookupKey(s, mac, ip) == MacKey(mac)
  {
  }

  lemma LookupKnown(s: Store, mac: string, ip: string)
    requires Named(mac) && MacKey(mac) in s.devices
    ensures LookupKey(s, mac, ip) == MacKey(mac)
  {
  }

  lemma LookupAliased(s: Store, mac: string, ip: string)
    requires Named(mac) && MacKey(mac) !in s.devices && ip != "" && ip in s.aliases && s.aliases[ip] != ""
    ensures LookupKey(s, mac, ip) == s.aliases[ip]
  {
  }

  /** Three sightings. */
  function Sightings(a: Device, b: Device, c: Device): seq<Op> {
    [SeeDevice(a, 1), SeeDevice(b, 1), SeeDevice(c, 1)]
  }

  lemma SightingsRun(cfg: Config, a: Device, b: Device, c: Device)
    ensures Run(cfg, Sightings(a, b, c)) ==
            UpdateDevice(cfg, UpdateDevice(cfg, UpdateDevice(cfg, EMPTY, a, 1), b, 1), c, 1)
  {
    var x, y, z := SeeDevice(a, 1), SeeDevice(b, 1), SeeDevice(c, 1);
    RunSnoc(cfg, [], x);
    RunSnoc(cfg, [x], y);
    RunSnoc(cfg, [x, y], z);
    assert [] + [x] == [x] && [x] + [y] == [x, y] && [x, y] + [z] == [x, y, z];
  }

  predicate Four(a: string, b: string, x: string, y: string) {
    Named(a) && Named(b) && a != b && Informative(x) && Informative(y) && x != y
  }

  lemma FirstSighting(cfg: Config, a: string, b: string, x: string, y: string) returns (s: Store)
    requires Four(a, b, x, y)
    ensures s == UpdateDevice(cfg, EMPTY, Sighting(a, x), 1) && Sighted(EMPTY, a, x, MacKey(a), s)
    ensures MacKey(a) != MacKey(b) && s.devices.Keys == {MacKey(a)} && s.aliases == map[x := MacKey(a)]
    ensures IpKey(y) !in s.devices
  {
    MacKeys(a, b);
    LookupNew(EMPTY, a, x);
    s := SightingAt(cfg, EMPTY, a, x, MacKey(a));
  }

  /** A device that moves to an address another record still carries leaves two records with one address. */
  lemma SharedAddressReached(cfg: Config, a: string, b: string, x: string, y: string)
    requires Four(a, b, x, y)
    ensures var s := Run(cfg, Sightings(Sighting(a, x), Sighting(b, y), Sighting(a, y)));
            && s.devices.Keys == {MacKey(a), MacKey(b)}
            && s.devices[MacKey(a)].ip == y && s.devices[MacKey(b)].ip == y
  {
    SightingsRun(cfg, Sighting(a, x), Sighting(b, y), Sighting(a, y));
    var s1 := FirstSighting(cfg, a, b, x, y);
    LookupNew(s1, b, y);
    var s2 := SightingAt(cfg, s1, b, y, MacKey(b));
    LookupKnown(s2, a, y);
    var s3 := SightingAt(cfg, s2, a, y, MacKey(a));
  }

  /** A mac that takes over another's address and then moves on leaves two records with one mac, hence one key. */
  lemma SharedKeyReached(cfg: Config, a: string, b: string, x: string, y: string)
    requires Four(a, b, x, y)
    ensures var s := Run(cfg, Sightings(Sighting(a, x), Sighting(b, x), Sighting(b, y)));
            && s.devices.Keys == {MacKey(a), MacKey(b)}
            && s.devices[MacKey(a)].mac == b && s.devices[MacKey(b)].mac == b
            && KeyOf(s.devices[MacKey(a)]) == KeyOf(s.devices[MacKey(b)])
  {
    SightingsRun(cfg, Sighting(a, x), Sighting(b, x), Sighting(b, y));
    var s1 := FirstSighting(cfg, a, b, x, y);
    LookupAliased(s1, b, x);
    var s2 := SightingAt(cfg, s1, b, x, MacKey(a));
    LookupNew(s2, b, y);
    var s3 := SightingAt(cfg, s2, b, y, MacKey(b));
  }

  // ---------- rows that outlive their records ----------

  /** The record a bare sighting leaves in an empty store. */
  function Born(cfg: Config, mac: string, ip: string, t: int): Device {
    Merge(cfg, BLANK, Sighting(mac, ip), t)
  }

  predicate Writable(mac: string, ip: string) {
    Named(mac) && Informative(ip) && '\0' !in mac && '\0' !in ip
  }

  lemma BornIs(cfg: Config, mac: string, ip: string, t: int)
    requires Writable(mac, ip)
    ensures var d := Born(cfg, mac, ip, t);
            d.mac == mac && d.ip == ip && d.lastSeen == t && Storable(d) && KeyOf(d) == MacKey(mac)
  {
    assert Lower("") == "";
  }

  lemma BornInto(cfg: Config, mac: string, ip: string, t: int)
    requires Named(mac) && Informative(ip)
    ensures UpdateDevice(cfg, EMPTY, Sighting(mac, ip), t) ==
            Store(map[MacKey(mac) := Born(cfg, mac, ip, t)], map[ip := MacKey(mac)], map[])
  {
    LookupNew(EMPTY, mac, ip);
    MergedNames(cfg, BLANK, mac, ip, t);
  }

  lemma Forgotten(cfg: Config, s: Store, key: string, d: Device, ip: string, now: int)
    requires s == Store(map[key := d], map[ip := key], map[]) && Expired(cfg, d, now)
    ensures Cleanup(cfg, s, now) == EMPTY
  {
    assert ExpiredKeys(cfg, s, now) == {key};
    assert Cleanup(cfg, s, now).devices == map[] && Cleanup(cfg, s, now).aliases == map[];
  }

  /** One device is seen; when a cleanup has erased it, another one is seen. */
  function TwoLives(b: string, y: string, a: string, x: string, t0: int, t1: int): seq<Op> {
    [SeeDevice(Sighting(b, y), t0), Clean(t1), SeeDevice(Sighting(a, x), t1)]
  }

  predicate LongAfter(cfg: Config, t0: int, t1: int) {
    t0 != 0 && t1 - t0 > cfg.idleTtl * SECOND && t1 - t0 > cfg.keepTtl * SECOND
  }

  lemma TwoLivesRun(cfg: Config, b: string, y: string, a: string, x: string, t0: int, t1: int)
    requires Writable(b, y) && Writable(a, x) && LongAfter(cfg, t0, t1)
    ensures Run(cfg, TwoLives(b, y, a, x, t0, t1)[..1]).devices == map[MacKey(b) := Born(cfg, b, y, t0)]
    ensures Run(cfg, TwoLives(b, y, a, x, t0, t1)).devices == map[MacKey(a) := Born(cfg, a, x, t1)]
  {
    var p, q, r := SeeDevice(Sighting(b, y), t0), Clean(t1), SeeDevice(Sighting(a, x), t1);
    RunSnoc(cfg, [], p);
    RunSnoc(cfg, [p], q);
    RunSnoc(cfg, [p, q], r);
    assert [] + [p] == [p] && [p] + [q] == [p, q] && [p, q] + [r] == [p, q, r] && [p, q, r][..1] == [p];
    BornInto(cfg, b, y, t0);
    BornIs(cfg, b, y, t0);
    Forgotten(cfg, Run(cfg, [p]), MacKey(b), Born(cfg, b, y, t0), y, t1);
    BornInto(cfg, a, x, t1);
  }

  lemma LoadedOne(cfg: Config, d: Device, now: int)
    requires Storable(d)
    ensures var s := Loaded(cfg, RowsOf([d]), [now]);
            s.devices.Keys == {KeyOf(d)} && (d.ip != "" ==> d.ip in s.aliases && s.aliases[d.ip] == KeyOf(d))
  {
    LoadHolds(cfg, [d], [now]);
    assert Keys([d]) == {KeyOf(d)} && RestoredAt(cfg, Loaded(cfg, RowsOf([d]), [now]), [d][0], [now][0]);
  }

  /** Loading a device at an address that another row holds gives that row's record the mac of the second. */
  lemma Captures(cfg: Config, d: Device, e: Device, n1: int, n2: int)
    requires Storable(d) && Storable(e) && d.ip == e.ip != "" && Named(d.mac) && Named(e.mac) && d.mac != e.mac
    ensures var s := Loaded(cfg, RowsOf([d] + [e]), [n1] + [n2]);
            s.devices.Keys == {MacKey(d.mac)} && s.devices[MacKey(d.mac)].mac == e.mac
  {
    MacKeys(d.mac, e.mac);
    LoadedSnoc(cfg, [d], [n1], e, n2);
    LoadedOne(cfg, d, n1);
    CapturedIn(cfg, Loaded(cfg, RowsOf([d]), [n1]), MacKey(d.mac), Rounded(e), n2);
  }

  lemma CapturedIn(cfg: Config, s: Store, key: string, e: Device, now: int)
    requires s.devices.Keys == {key} && key != "" && !IsIpKey(key) && e.ip != "" && e.ip in s.aliases && s.aliases[e.ip] == key
    requires Named(e.mac) && MacKey(e.mac) != key
    ensures var s' := UpdateDevice(cfg, s, e, now); s'.devices.Keys == {key} && s'.devices[key].mac == e.mac
  {
    LookupAliased(s, e.mac, e.ip);
  }

  /** The table after both lives, each saved, and its rows as the query lists them, the erased device first by last_seen. */
  lemma BothRows(d: Device, e: Device)
    requires Storable(d) && Storable(e) && KeyOf(d) != KeyOf(e)
    ensures var table := Upserted(Upserted(map[], [d]), [e]);
            table.Keys == {KeyOf(d), KeyOf(e)} && Listed(table, [KeyOf(d), KeyOf(e)]) == RowsOf([d] + [e])
  {
    UpsertedTwice(map[], [d], [e]);
    UpsertedSnoc([], d);
    UpsertedSnoc([d], e);
    assert [] + [d] == [d] && [d] + [e] == [d, e];
    var rows := RowsOf([d, e]);
    assert rows[0] == RowOf(d) && rows[1] == RowOf(e);
  }

  lemma LoneIsApart(d: Device)
    requires Storable(d)
    ensures AllKeyed([d]) && Apart([d])
  {
  }

  /** An address is reused after its holder was erased: the live device, alone in the store and saved, comes back inside
      the record of the erased one. */
  lemma StaleRowCaptures(cfg: Config, a: string, b: string, y: string, t0: int, t1: int, n1: int, n2: int)
    requires Writable(a, y) && Writable(b, y) && a != b && LongAfter(cfg, t0, t1)
    ensures var ops, d, e := TwoLives(b, y, a, y, t0, t1), Born(cfg, b, y, t0), Born(cfg, a, y, t1);
            && Run(cfg, ops[..1]).devices == map[MacKey(b) := d] && Run(cfg, ops).devices == map[MacKey(a) := e]
            && AllKeyed([e]) && Apart([e])
            && var table := Upserted(Upserted(map[], [d]), [e]);
            && table.Keys == {MacKey(b), MacKey(a)}
            && var s := Loaded(cfg, Listed(table, [MacKey(b), MacKey(a)]), [n1] + [n2]);
               s.devices.Keys == {MacKey(b)} && s.devices[MacKey(b)].mac == a
  {
    var d, e := Born(cfg, b, y, t0), Born(cfg, a, y, t1);
    TwoLivesRun(cfg, b, y, a, y, t0, t1);
    BornIs(cfg, b, y, t0);
    BornIs(cfg, a, y, t1);
    MacKeys(a, b);
    LoneIsApart(e);
    BothRows(d, e);
    Captures(cfg, d, e, n1, n2);
  }

  lemma BothLoaded(cfg: Config, d: Device, e: Device, n1: int, n2: int)
    requires Storable(d) && Storable(e) && KeyOf(d) != KeyOf(e) && d.ip != e.ip
    ensures Loaded(cfg, RowsOf([d] + [e]), [n1] + [n2]).devices.Keys == {KeyOf(d), KeyOf(e)}
  {
    PairApart(d, e);
    LoadHolds(cfg, [d] + [e], [n1] + [n2]);
  }

  lemma PairApart(d: Device, e: Device)
    requires Storable(d) && Storable(e) && KeyOf(d) != KeyOf(e) && d.ip != e.ip
    ensures Apart([d] + [e]) && AllStorable([d] + [e]) && Keys([d] + [e]) == {KeyOf(d), KeyOf(e)}
  {
    KeysSnoc([d], e);
    assert Keys([d]) == {KeyOf(d)} by { assert [d][0] == d; }
    assert ([d] + [e])[0] == d && ([d] + [e])[1] == e;
  }

  /** If the erased device had an address of its own, it comes back as a record beside the live one. */
  lemma ErasedComesBack(cfg: Config, a: string, x: string, b: string, y: string, t0: int, t1: int, n1: int, n2: int)
    requires Writable(a, x) && Writable(b, y) && a != b && x != y && LongAfter(cfg, t0, t1)
    ensures var ops, d, e := TwoLives(b, y, a, x, t0, t1), Born(cfg, b, y, t0), Born(cfg, a, x, t1);
            && Run(cfg, ops[..1]).devices == map[MacKey(b) := d] && Run(cfg, ops).devices == map[MacKey(a) := e]
            && var table := Upserted(Upserted(map[], [d]), [e]);
            && table.Keys == {MacKey(b), MacKey(a)}
            && Loaded(cfg, Listed(table, [MacKey(b), MacKey(a)]), [n1] + [n2]).devices.Keys == {MacKey(b), MacKey(a)}
  {
    var d, e := Born(cfg, b, y, t0), Born(cfg, a, x, t1);
    TwoLivesRun(cfg, b, y, a, x, t0, t1);
    BornIs(cfg, b, y, t0);
    BornIs(cfg, a, x, t1);
    MacKeys(a, b);
    BothRows(d, e);
    BothLoaded(cfg, d, e, n1, n2);
  }

  /** A device reported with the mac "unknown" or "*" and no address becomes a record without a key, which gets no row. */
  lemma KeylessReached(cfg: Config, mac: string)
    requires Lower(mac) == mac != "" && !Informative(mac)
    ensures var s := Run(cfg, [SeeDevice(Sighting(mac, ""), 1)]);
            s.devices.Keys == {MacKey(mac)} && KeyOf(s.devices[MacKey(mac)]) == ""
  {
    RunSnoc(cfg, [], SeeDevice(Sighting(mac, ""), 1));
    assert [] + [SeeDevice(Sighting(mac, ""), 1)] == [SeeDevice(Sighting(mac, ""), 1)];
    assert LookupKey(EMPTY, mac, "") == MacKey(mac);
    assert Lower("") == "";
  }
}
