/**
 Which records a load leaves, row by row. Rows with different keys meet only at an address: there they become one record,
 under the key of the first row with a mac, or of the only row if none has one.
 */
module LoadOrder {
  import opened Reload
  import opened Sequences
  import opened StoreModel
  import opened Telemetry
  import opened Text

  import Identity
  import Restart

  predicate HasMac(d: Device) {
    Lower(d.mac) != ""
  }

  /** The row keeps its key: it has no address, or it is the first at its address with a mac, or none there has one. */
  predicate Wins(ds: seq<Device>, j: nat)
    requires j < |ds|
  {
    || ds[j].ip == ""
    || (if HasMac(ds[j]) then forall i :: 0 <= i < j && ds[i].ip == ds[j].ip ==> !HasMac(ds[i])
        else forall i :: 0 <= i < |ds| && ds[i].ip == ds[j].ip ==> !HasMac(ds[i]))
  }

  ghost predicate Loadable(ds: seq<Device>) {
    KeysApart(ds) && AllStorable(ds)
  }

  // ---------- row by row ----------

  /** The key of the record at an address after these rows, or none. */
  function Holder(ds: seq<Device>, y: string): string {
    if ds == [] then ""
    else
      var n := |ds| - 1;
      var d, h := ds[n], Holder(ds[..n], y);
      if d.ip == y && (h == "" || (HasMac(d) && IsIpKey(h))) then KeyOf(d) else h
  }

  /** The keys of all records after these rows. */
  function RecordKeys(ds: seq<Device>): set<string> {
    if ds == [] then {}
    else
      var n := |ds| - 1;
      var d, keys := ds[n], RecordKeys(ds[..n]);
      if d.ip == "" || Holder(ds[..n], d.ip) == "" then keys + {KeyOf(d)}
      else keys - {Holder(ds[..n], d.ip)} + {Holder(ds, d.ip)}
  }

  lemma HolderSnoc(ds: seq<Device>, d: Device, y: string)
    ensures var h := Holder(ds, y);
            Holder(ds + [d], y) == if d.ip == y && (h == "" || (HasMac(d) && IsIpKey(h))) then KeyOf(d) else h
  {
    assert (ds + [d])[..|ds|] == ds;
  }

  lemma RecordKeysSnoc(ds: seq<Device>, d: Device)
    ensures var keys := RecordKeys(ds);
            RecordKeys(ds + [d]) ==
            if d.ip == "" || Holder(ds, d.ip) == "" then keys + {KeyOf(d)}
            else keys - {Holder(ds, d.ip)} + {Holder(ds + [d], d.ip)}
  {
    assert (ds + [d])[..|ds|] == ds;
  }

  lemma LoadablePrefix(ds: seq<Device>, d: Device)
    requires Loadable(ds + [d])
    ensures Loadable(ds) && Storable(d) && KeyOf(d) !in Keys(ds)
  {
    var all := ds + [d];
    assert all[|ds|] == d && forall i :: 0 <= i < |ds| ==> all[i] == ds[i];
    NewKey(ds, d);
  }

  /** A holder is the key of a row at its address. */
  lemma {:induction false} HolderRow(ds: seq<Device>, y: string) returns (j: nat)
    requires AllStorable(ds) && y in Ips(ds)
    ensures j < |ds| && ds[j].ip == y && KeyOf(ds[j]) == Holder(ds, y) != ""
    decreases ds
  {
    var n := |ds| - 1;
    Unsnoc(ds);
    KeysSnoc(ds[..n], ds[n]);
    HolderSnoc(ds[..n], ds[n], y);
    if y in Ips(ds[..n]) {
      j := HolderRow(ds[..n], y);
      if Holder(ds, y) != Holder(ds[..n], y) { j := n; }
    } else {
      NoHolder(ds[..n], y);
      j := n;
    }
  }

  lemma {:induction false} NoHolder(ds: seq<Device>, y: string)
    requires y !in Ips(ds)
    ensures Holder(ds, y) == ""
    decreases ds
  {
    if ds != [] {
      var n := |ds| - 1;
      Unsnoc(ds);
      KeysSnoc(ds[..n], ds[n]);
      HolderSnoc(ds[..n], ds[n], y);
      NoHolder(ds[..n], y);
    }
  }

  lemma HolderIff(ds: seq<Device>, y: string)
    requires AllStorable(ds)
    ensures Holder(ds, y) == "" <==> y !in Ips(ds)
  {
    if y in Ips(ds) { var j := HolderRow(ds, y); } else { NoHolder(ds, y); }
  }

  lemma SameRow(ds: seq<Device>, i: nat, j: nat)
    requires KeysApart(ds) && i < |ds| && j < |ds| && KeyOf(ds[i]) == KeyOf(ds[j])
    ensures i == j
  {
  }

  /** Addresses have different holders. */
  lemma HoldersApart(ds: seq<Device>, y: string, z: string)
    requires Loadable(ds) && y in Ips(ds) && z in Ips(ds) && Holder(ds, y) == Holder(ds, z)
    ensures y == z
  {
    var i := HolderRow(ds, y);
    var j := HolderRow(ds, z);
    SameRow(ds, i, j);
  }

  /** The record keys are those of the rows without an address and of the holders. */
  lemma {:induction false} RecordIff(ds: seq<Device>, j: nat)
    requires Loadable(ds) && j < |ds|
    ensures KeyOf(ds[j]) in RecordKeys(ds) <==> ds[j].ip == "" || Holder(ds, ds[j].ip) == KeyOf(ds[j])
    decreases ds
  {
    var n := |ds| - 1;
    var before, d := ds[..n], ds[n];
    Unsnoc(ds);
    LoadablePrefix(before, d);
    RecordKeysSnoc(before, d);
    HolderSnoc(before, d, d.ip);
    HolderSnoc(before, d, ds[j].ip);
    RecordsAreRows(before);
    if j < n {
      assert before[j] == ds[j] && KeyOf(ds[j]) in Keys(before);
      RecordIff(before, j);
      if d.ip != "" && Holder(before, d.ip) != "" { OtherHolder(before, d.ip, j); }
    }
  }

  lemma OtherHolder(ds: seq<Device>, y: string, j: nat)
    requires Loadable(ds) && j < |ds| && Holder(ds, y) != "" && y != ""
    ensures KeyOf(ds[j]) == Holder(ds, y) ==> ds[j].ip == y
  {
    HolderIff(ds, y);
    var i := HolderRow(ds, y);
    if KeyOf(ds[j]) == Holder(ds, y) { SameRow(ds, i, j); }
  }

  lemma {:induction false} RecordsAreRows(ds: seq<Device>)
    requires AllStorable(ds)
    ensures RecordKeys(ds) <= Keys(ds)
    decreases ds
  {
    if ds != [] {
      var n := |ds| - 1;
      Unsnoc(ds);
      RecordsAreRows(ds[..n]);
      RecordKeysSnoc(ds[..n], ds[n]);
      KeysSnoc(ds[..n], ds[n]);
      if ds[n].ip != "" {
        assert ds[n].ip in Ips(ds);
        var j := HolderRow(ds, ds[n].ip);
        assert KeyOf(ds[j]) in Keys(ds);
      }
    }
  }

  lemma HolderIsRecord(ds: seq<Device>, y: string)
    requires Loadable(ds) && y != "" && Holder(ds, y) != ""
    ensures Holder(ds, y) in RecordKeys(ds)
  {
    HolderIff(ds, y);
    var j := HolderRow(ds, y);
    RecordIff(ds, j);
  }

  // ---------- the code takes these steps ----------

  /** The store after loading these rows, as far as keys and addresses go. */
  ghost predicate Loads(s: Store, ds: seq<Device>) {
    && s.devices.Keys == RecordKeys(ds) && s.aliases.Keys == Ips(ds) - {""}
    && (forall y :: y in s.aliases ==> s.aliases[y] == Holder(ds, y))
  }

  lemma NewRow(cfg: Config, s: Store, ds: seq<Device>, d: Device, now: int)
    requires Loads(s, ds) && AllStorable(ds) && Storable(d) && KeyOf(d) !in Keys(ds) && (d.ip == "" || d.ip !in Ips(ds))
    ensures var s' := UpdateDevice(cfg, s, Rounded(d), now);
            && s'.devices.Keys == s.devices.Keys + {KeyOf(d)}
            && s'.aliases == if d.ip == "" then s.aliases else s.aliases[d.ip := KeyOf(d)]
  {
    NotFound(s, ds, d);
    RoundedKey(d);
    RecordsAreRows(ds);
    Identity.MergedIp(cfg, BLANK, Rounded(d), now);
  }

  lemma NotFound(s: Store, ds: seq<Device>, d: Device)
    requires Loads(s, ds) && AllStorable(ds) && KeyOf(d) !in Keys(ds) && (d.ip == "" || d.ip !in Ips(ds))
    ensures FindKey(s, Rounded(d).mac, d.ip) == ""
  {
    RecordsAreRows(ds);
    LowerIdempotent(d.mac);
    if d.ip != "" { NoIpKey(ds, d.ip); }
  }

  lemma NoIpKey(ds: seq<Device>, ip: string)
    requires ip !in Ips(ds)
    ensures IpKey(ip) !in Keys(ds)
  {
    forall i | 0 <= i < |ds|
      ensures KeyOf(ds[i]) != IpKey(ip)
    {
      IpKeyed(ds[i], ip);
      assert ds[i].ip in Ips(ds);
    }
  }

  lemma KnownAddress(cfg: Config, s: Store, ds: seq<Device>, d: Device, now: int)
    requires Loads(s, ds) && Loadable(ds) && Storable(d) && KeyOf(d) !in Keys(ds) && d.ip != "" && d.ip in Ips(ds)
    ensures var s', h := UpdateDevice(cfg, s, Rounded(d), now), Holder(ds, d.ip);
            var target := if HasMac(d) && IsIpKey(h) then KeyOf(d) else h;
            s'.devices.Keys == s.devices.Keys - {h} + {target} && s'.aliases == s.aliases[d.ip := target]
  {
    var h := Holder(ds, d.ip);
    RecordsAreRows(ds);
    HolderIff(ds, d.ip);
    HolderIsRecord(ds, d.ip);
    RoundedKey(d);
    LowerIdempotent(d.mac);
    assert LookupKey(s, Rounded(d).mac, d.ip) == h;
    Restart.UpdateKeys(cfg, s, Rounded(d), now);
    AliasOf(cfg, s, Rounded(d), now);
  }

  /** Where an update with an informative address leads it. */
  lemma AliasOf(cfg: Config, s: Store, d: Device, now: int)
    requires Informative(d.ip)
    ensures var key, desired := LookupKey(s, d.mac, d.ip), MakeKey(d.mac, d.ip);
            UpdateDevice(cfg, s, d, now).aliases ==
            s.aliases[d.ip := if MustRekey(s, d.mac, key, desired) then desired else key]
  {
  }

  lemma LoadsNext(cfg: Config, s: Store, ds: seq<Device>, d: Device, now: int)
    requires Loads(s, ds) && Loadable(ds + [d])
    ensures Loads(UpdateDevice(cfg, s, Rounded(d), now), ds + [d])
  {
    var s' := UpdateDevice(cfg, s, Rounded(d), now);
    LoadablePrefix(ds, d);
    if d.ip == "" || d.ip !in Ips(ds) {
      NewRow(cfg, s, ds, d, now);
      LoadsNew(s, s', ds, d);
    } else {
      KnownAddress(cfg, s, ds, d, now);
      HolderIff(ds, d.ip);
      HolderSnoc(ds, d, d.ip);
      LoadsKnown(s, s', ds, d);
    }
  }

  lemma LoadsNew(s: Store, s': Store, ds: seq<Device>, d: Device)
    requires Loads(s, ds) && AllStorable(ds) && (d.ip == "" || d.ip !in Ips(ds))
    requires s'.devices.Keys == s.devices.Keys + {KeyOf(d)}
    requires s'.aliases == if d.ip == "" then s.aliases else s.aliases[d.ip := KeyOf(d)]
    ensures Loads(s', ds + [d])
  {
    RecordKeysSnoc(ds, d);
    KeysSnoc(ds, d);
    HolderIff(ds, d.ip);
    AddressKeys(Ips(ds), d.ip);
    forall y | y in s'.aliases
      ensures s'.aliases[y] == Holder(ds + [d], y)
    {
      HolderSnoc(ds, d, y);
    }
  }

  lemma LoadsKnown(s: Store, s': Store, ds: seq<Device>, d: Device)
    requires Loads(s, ds) && AllStorable(ds) && d.ip != "" && d.ip in Ips(ds)
    requires s'.devices.Keys == s.devices.Keys - {Holder(ds, d.ip)} + {Holder(ds + [d], d.ip)}
    requires s'.aliases == s.aliases[d.ip := Holder(ds + [d], d.ip)]
    ensures Loads(s', ds + [d])
  {
    RecordKeysSnoc(ds, d);
    KeysSnoc(ds, d);
    HolderIff(ds, d.ip);
    assert Ips(ds) + {d.ip} == Ips(ds);
    HoldersNext(s.aliases, ds, d);
  }

  lemma HoldersNext(aliases: map<string, string>, ds: seq<Device>, d: Device)
    requires d.ip != "" && forall y :: y in aliases ==> aliases[y] == Holder(ds, y)
    ensures var aliases' := aliases[d.ip := Holder(ds + [d], d.ip)];
            forall y :: y in aliases' ==> aliases'[y] == Holder(ds + [d], y)
  {
    forall y | y in aliases
      ensures y == d.ip || Holder(ds + [d], y) == Holder(ds, y)
    {
      HolderSnoc(ds, d, y);
    }
  }

  lemma AddressKeys(ips: set<string>, ip: string)
    ensures ips + {ip} - {""} == if ip == "" then ips - {""} else (ips - {""}) + {ip}
  {
  }

  lemma {:induction false} LoadsAll(cfg: Config, ds: seq<Device>, nows: seq<int>)
    requires |ds| == |nows| && Loadable(ds)
    ensures Loads(Loaded(cfg, RowsOf(ds), nows), ds)
    decreases ds
  {
    if ds != [] {
      var n := |ds| - 1;
      Unsnoc(ds);
      Unsnoc(nows);
      LoadablePrefix(ds[..n], ds[n]);
      LoadsAll(cfg, ds[..n], nows[..n]);
      LoadedSnoc(cfg, ds[..n], nows[..n], ds[n], nows[n]);
      LoadsNext(cfg, Loaded(cfg, RowsOf(ds[..n]), nows[..n]), ds[..n], ds[n], nows[n]);
    }
  }

  // ---------- which rows keep their key ----------

  lemma MacKeyed(d: Device)
    requires KeyOf(d) != ""
    ensures IsIpKey(KeyOf(d)) <==> !HasMac(d)
  {
  }

  /** The holder of an address is a row that wins there. */
  lemma {:induction false} HolderWins(ds: seq<Device>, y: string) returns (j: nat)
    requires Loadable(ds) && y != "" && y in Ips(ds)
    ensures j < |ds| && ds[j].ip == y && KeyOf(ds[j]) == Holder(ds, y) && Wins(ds, j)
    decreases ds
  {
    var n := |ds| - 1;
    Unsnoc(ds);
    LoadablePrefix(ds[..n], ds[n]);
    KeysSnoc(ds[..n], ds[n]);
    if y in Ips(ds[..n]) {
      var i := HolderWins(ds[..n], y);
      j := WinnerAfter(ds[..n], ds[n], i, y);
    } else {
      FirstThere(ds[..n], ds[n]);
      j := n;
    }
  }

  lemma FirstThere(ds: seq<Device>, d: Device)
    requires d.ip !in Ips(ds)
    ensures KeyOf(d) == Holder(ds + [d], d.ip) && Wins(ds + [d], |ds|)
  {
    NoHolder(ds, d.ip);
    HolderSnoc(ds, d, d.ip);
    NoneThere(ds, d.ip);
    WinsAlone(ds, d);
  }

  lemma WinsAlone(ds: seq<Device>, d: Device)
    requires forall i :: 0 <= i < |ds| ==> ds[i].ip != d.ip
    ensures Wins(ds + [d], |ds|)
  {
    var all := ds + [d];
    assert all[|ds|] == d;
    forall i | 0 <= i < |ds|
      ensures all[i].ip != d.ip
    {
      assert all[i] == ds[i];
    }
  }

  /** The winner at an address after one more row. */
  lemma WinnerAfter(ds: seq<Device>, d: Device, i: nat, y: string) returns (j: nat)
    requires Loadable(ds) && Storable(d) && KeyOf(d) !in Keys(ds)
    requires i < |ds| && ds[i].ip == y != "" && KeyOf(ds[i]) == Holder(ds, y) && Wins(ds, i)
    ensures j <= |ds| && (ds + [d])[j].ip == y && KeyOf((ds + [d])[j]) == Holder(ds + [d], y) && Wins(ds + [d], j)
  {
    var all := ds + [d];
    assert all[|ds|] == d && forall k :: 0 <= k < |ds| ==> all[k] == ds[k];
    HolderSnoc(ds, d, y);
    MacKeyed(ds[i]);
    j := if d.ip == y && HasMac(d) && !HasMac(ds[i]) then |ds| else i;
    if d.ip == y && !HasMac(d) && !HasMac(ds[i]) { OneIpRow(ds, d, i); }
  }

  lemma NoneThere(ds: seq<Device>, y: string)
    requires y !in Ips(ds)
    ensures forall i :: 0 <= i < |ds| ==> ds[i].ip != y
  {
    forall i | 0 <= i < |ds|
      ensures ds[i].ip != y
    {
      assert ds[i].ip in Ips(ds);
    }
  }

  /** Two rows without a mac at one address have one key. */
  lemma OneIpRow(ds: seq<Device>, d: Device, j: nat)
    requires j < |ds| && ds[j].ip == d.ip && !HasMac(d) && !HasMac(ds[j])
    ensures KeyOf(d) in Keys(ds)
  {
    assert KeyOf(ds[j]) == KeyOf(d);
  }

  lemma WinnersApart(ds: seq<Device>, i: nat, j: nat)
    requires Loadable(ds) && i < |ds| && j < |ds| && ds[i].ip == ds[j].ip != "" && Wins(ds, i) && Wins(ds, j)
    ensures i == j
  {
    if !HasMac(ds[i]) && !HasMac(ds[j]) { SameRow(ds, i, j); }
  }

  lemma WinsIff(ds: seq<Device>, j: nat)
    requires Loadable(ds) && j < |ds|
    ensures Wins(ds, j) <==> KeyOf(ds[j]) in RecordKeys(ds)
  {
    RecordIff(ds, j);
    if ds[j].ip != "" {
      assert ds[j].ip in Ips(ds);
      var i := HolderWins(ds, ds[j].ip);
      if Wins(ds, j) { WinnersApart(ds, i, j); }
      if Holder(ds, ds[j].ip) == KeyOf(ds[j]) { SameRow(ds, i, j); }
    }
  }

  /** Whatever the rows, with distinct keys, and in whatever order: the records are exactly those of the rows that win, and
      the addresses that lead to a record are exactly those of the rows. */
  lemma LoadedKeysExact(cfg: Config, ds: seq<Device>, nows: seq<int>)
    requires |ds| == |nows| && Loadable(ds)
    ensures var s := Loaded(cfg, RowsOf(ds), nows);
            && s.devices.Keys <= Keys(ds) && s.aliases.Keys == Ips(ds) - {""}
            && (forall j :: 0 <= j < |ds| ==> (KeyOf(ds[j]) in s.devices <==> Wins(ds, j)))
  {
    LoadsAll(cfg, ds, nows);
    RecordsAreRows(ds);
    forall j | 0 <= j < |ds|
      ensures KeyOf(ds[j]) in RecordKeys(ds) <==> Wins(ds, j)
    {
      WinsIff(ds, j);
    }
  }

  // ---------- how many ----------

  /** The keys of the rows without an address. */
  function Homeless(ds: seq<Device>): set<string> {
    if ds == [] then {}
    else
      var d := ds[|ds| - 1];
      Homeless(ds[..|ds| - 1]) + if d.ip == "" then {KeyOf(d)} else {}
  }

  lemma {:induction false} HomelessAreRows(ds: seq<Device>)
    ensures Homeless(ds) <= Keys(ds)
    decreases ds
  {
    if ds != [] {
      var n := |ds| - 1;
      Unsnoc(ds);
      KeysSnoc(ds[..n], ds[n]);
      HomelessAreRows(ds[..n]);
    }
  }

  lemma {:induction false} RecordCount(ds: seq<Device>)
    requires Loadable(ds)
    ensures |RecordKeys(ds)| == |Homeless(ds)| + |Ips(ds) - {""}|
    decreases ds
  {
    if ds != [] {
      var n := |ds| - 1;
      Unsnoc(ds);
      LoadablePrefix(ds[..n], ds[n]);
      RecordCount(ds[..n]);
      CountNext(ds[..n], ds[n]);
    }
  }

  lemma CountNext(ds: seq<Device>, d: Device)
    requires Loadable(ds + [d]) && |RecordKeys(ds)| == |Homeless(ds)| + |Ips(ds) - {""}|
    ensures |RecordKeys(ds + [d])| == |Homeless(ds + [d])| + |Ips(ds + [d]) - {""}|
  {
    LoadablePrefix(ds, d);
    KeysSnoc(ds, d);
    AddressCount(Ips(ds), d.ip);
    HomelessCount(ds, d);
    RecordCountSnoc(ds, d);
  }

  lemma AddressCount(ips: set<string>, ip: string)
    ensures |ips + {ip} - {""}| == |ips - {""}| + if ip == "" || ip in ips then 0 else 1
  {
    AddressKeys(ips, ip);
    Restart.AddMember(ips - {""}, ip);
  }

  lemma HomelessCount(ds: seq<Device>, d: Device)
    requires KeyOf(d) !in Keys(ds)
    ensures |Homeless(ds + [d])| == |Homeless(ds)| + if d.ip == "" then 1 else 0
  {
    assert (ds + [d])[..|ds|] == ds;
    HomelessAreRows(ds);
    Restart.AddMember(Homeless(ds), KeyOf(d));
    assert Homeless(ds) + {} == Homeless(ds);
  }

  lemma RecordCountSnoc(ds: seq<Device>, d: Device)
    requires Loadable(ds) && KeyOf(d) !in Keys(ds)
    ensures |RecordKeys(ds + [d])| == |RecordKeys(ds)| + if d.ip == "" || d.ip !in Ips(ds) then 1 else 0
  {
    RecordKeysSnoc(ds, d);
    RecordsAreRows(ds);
    HolderIff(ds, d.ip);
    HolderSnoc(ds, d, d.ip);
    if d.ip == "" || d.ip !in Ips(ds) {
      Restart.AddMember(RecordKeys(ds), KeyOf(d));
    } else {
      HolderIsRecord(ds, d.ip);
      Swap(RecordKeys(ds), Holder(ds, d.ip), Holder(ds + [d], d.ip));
    }
  }

  lemma Swap<T>(x: set<T>, a: T, b: T)
    requires a in x && (b == a || b !in x)
    ensures |x - {a} + {b}| == |x|
  {
    assert b == a ==> x - {a} + {b} == x;
  }

  /** One record per row without an address, and one per address. */
  lemma LoadedCountExact(cfg: Config, ds: seq<Device>, nows: seq<int>)
    requires |ds| == |nows| && Loadable(ds)
    ensures |Loaded(cfg, RowsOf(ds), nows).devices.Keys| == |Homeless(ds)| + |Ips(ds) - {""}|
  {
    LoadsAll(cfg, ds, nows);
    RecordCount(ds);
  }

  // ---------- restarts ----------

  /** A row under an address alone and a row of the same device with its mac, in either order: one record, under the mac. */
  lemma RekeyedRowMerges(cfg: Config, d: Device, e: Device, n1: int, n2: int)
    requires Storable(d) && Storable(e) && !HasMac(d) && HasMac(e) && d.ip == e.ip != ""
    ensures Loaded(cfg, RowsOf([d] + [e]), [n1] + [n2]).devices.Keys == {KeyOf(e)}
    ensures Loaded(cfg, RowsOf([e] + [d]), [n1] + [n2]).devices.Keys == {KeyOf(e)}
  {
    MacKeyed(d);
    MacKeyed(e);
    TwoRows(cfg, d, e, n1, n2);
    TwoRows(cfg, e, d, n1, n2);
  }

  lemma TwoRows(cfg: Config, d: Device, e: Device, n1: int, n2: int)
    requires Storable(d) && Storable(e) && HasMac(d) != HasMac(e) && d.ip == e.ip != "" && KeyOf(d) != KeyOf(e)
    ensures Loaded(cfg, RowsOf([d] + [e]), [n1] + [n2]).devices.Keys == {KeyOf(if HasMac(d) then d else e)}
  {
    PairLoads(d, e);
    LoadedKeysExact(cfg, [d] + [e], [n1] + [n2]);
    WinnerOfTwo(Loaded(cfg, RowsOf([d] + [e]), [n1] + [n2]).devices.Keys, d, e);
  }

  lemma PairLoads(d: Device, e: Device)
    requires Storable(d) && Storable(e) && KeyOf(d) != KeyOf(e)
    ensures Loadable([d] + [e]) && Keys([d] + [e]) == {KeyOf(d), KeyOf(e)}
  {
    assert ([d] + [e])[0] == d && ([d] + [e])[1] == e;
    KeysSnoc([d], e);
    assert Keys([d]) == {KeyOf(d)} by { assert [d][0] == d; }
  }

  lemma WinnerOfTwo(keys: set<string>, d: Device, e: Device)
    requires HasMac(d) != HasMac(e) && d.ip == e.ip != "" && KeyOf(d) != KeyOf(e) && keys <= {KeyOf(d), KeyOf(e)}
    requires forall j :: 0 <= j < 2 ==> (KeyOf(([d] + [e])[j]) in keys <==> Wins([d] + [e], j))
    ensures keys == {KeyOf(if HasMac(d) then d else e)}
  {
    var ds := [d] + [e];
    assert ds[0] == d && ds[1] == e;
    assert Wins(ds, 0) <==> HasMac(d);
    assert Wins(ds, 1) <==> HasMac(e);
  }

  /** The records are those of the live devices, one each, however many rows there were. */
  ghost predicate OnlyLive(s: Store, live: seq<Device>) {
    s.devices.Keys == Keys(live) && |Keys(live)| == |live|
  }

  /** Some saves, the last of them of the live devices, then a restart in any order the query yields: the records are the
      live devices, one each under its own key, exactly when the live devices have distinct keys and the rows that win are
      the live ones. */
  lemma RestartKeysIff(cfg: Config, earlier: seq<Device>, live: seq<Device>, order: seq<string>, nows: seq<int>)
    requires AllSavable(earlier + live) && QueryOrder(earlier + live, order) && |nows| == |order|
    ensures forall j :: 0 <= j < |order| ==> order[j] in Upserted(map[], earlier + live)
    ensures OnlyLive(Loaded(cfg, Listed(Upserted(map[], earlier + live), order), nows), live) <==>
            && Restart.AllKeyed(live) && KeysApart(live)
            && (forall j :: 0 <= j < |order| ==> (Wins(Kept(earlier + live, order), j) <==> order[j] in Keys(live)))
  {
    var ds := earlier + live;
    var kept := Kept(ds, order);
    KeptRows(ds, order);
    LoadedKeysExact(cfg, kept, nows);
    Restart.SizeApart(live);
    UpsertedRows(ds);
    LatestConcat(earlier, live, "");
    var keys := Loaded(cfg, RowsOf(kept), nows).devices.Keys;
    forall j | 0 <= j < |order|
      ensures KeyOf(kept[j]) == order[j]
    {
      KeptStorable(ds, order, j);
    }
    if Restart.AllKeyed(live) && KeysApart(live) && (forall j :: 0 <= j < |order| ==> (Wins(kept, j) <==> order[j] in Keys(live))) {
      Restart.KeysSize(live);
      WinnersAreLive(kept, order, keys, Keys(live));
    }
    if OnlyLive(Loaded(cfg, RowsOf(kept), nows), live) {
      assert "" !in Keys(live);
      assert forall i :: 0 <= i < |live| ==> KeyOf(live[i]) in Keys(live);
    }
  }

  lemma WinnersAreLive(kept: seq<Device>, order: seq<string>, keys: set<string>, live: set<string>)
    requires |kept| == |order| && (forall j :: 0 <= j < |order| ==> KeyOf(kept[j]) == order[j])
    requires keys <= Keys(kept) && live <= Keys(kept)
    requires forall j :: 0 <= j < |order| ==> (order[j] in keys <==> order[j] in live)
    ensures keys == live
  {
    forall k | k in Keys(kept)
      ensures k in keys <==> k in live
    {
      var j :| 0 <= j < |kept| && KeyOf(kept[j]) == k;
      assert order[j] == k;
    }
  }
}
