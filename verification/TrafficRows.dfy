/** Rows of traffic_samples as the queries of sqlite_store.cpp return them, in (ts, id) order per device. */
module TrafficRows {
  import opened Telemetry
  import opened Text

  /** ts in whole seconds. */
  datatype Row = Row(mac: string, ip: string, hostname: string, ts: int, rx: Counter, tx: Counter)

  function Bytes(r: Row, dir: Direction): int {
    match dir case Rx => r.rx case Tx => r.tx
  }

  function DeviceKey(mac: string, ip: string): string {
    if Lower(mac) != "" then "mac:" + Lower(mac) else "ip:" + ip
  }

  function KeyOf(r: Row): string {
    DeviceKey(r.mac, r.ip)
  }

  /** Two rows are of one device if their MACs agree but for case, or if both lack one and their addresses agree. */
  lemma SameDeviceIff(r: Row, s: Row)
    ensures KeyOf(r) == KeyOf(s) <==>
            if r.mac != "" && s.mac != "" then Lower(r.mac) == Lower(s.mac) else r.mac == s.mac && r.ip == s.ip
    ensures KeyOf(r) == NOBODY <==> r.mac == "" && r.ip == ""
  {
    var a, b := KeyOf(r), KeyOf(s);
    assert a[0] == (if r.mac == "" then 'i' else 'm') && b[0] == (if s.mac == "" then 'i' else 'm');
    assert a[if r.mac == "" then 3 else 4..] == if r.mac == "" then r.ip else Lower(r.mac);
    assert b[if s.mac == "" then 3 else 4..] == if s.mac == "" then s.ip else Lower(s.mac);
    assert r.mac == "" && r.ip == "" ==> a == NOBODY;
    assert a == NOBODY ==> a[3..] == "";
  }

  /** Rows with neither address are skipped by every reader. */
  const NOBODY := "ip:"

  /** The rows of one device, in order. */
  function Of(rows: seq<Row>, key: string): seq<Row> {
    if rows == [] then []
    else
      var n := |rows| - 1;
      Of(rows[..n], key) + if KeyOf(rows[n]) == key then [rows[n]] else []
  }

  /** The devices the rows speak of. */
  function Devices(rows: seq<Row>): (r: set<string>)
    ensures forall k :: k in r <==> k != NOBODY && Of(rows, k) != []
  {
    if rows == [] then {}
    else
      var n := |rows| - 1;
      Devices(rows[..n]) + if KeyOf(rows[n]) == NOBODY then {} else {KeyOf(rows[n])}
  }

  lemma OfSnoc(rows: seq<Row>, r: Row, key: string)
    ensures Of(rows + [r], key) == if KeyOf(r) == key then Of(rows, key) + [r] else Of(rows, key)
  {
    assert (rows + [r])[..|rows|] == rows;
  }

  /** The rows sorted by device: one entry for every device, holding its rows. */
  ghost predicate Grouped(groups: map<string, seq<Row>>, rows: seq<Row>) {
    && groups.Keys == Devices(rows)
    && forall k :: k in groups ==> groups[k] == Of(rows, k)
  }

  ghost function GroupOf(groups: map<string, seq<Row>>, key: string): seq<Row> {
    if key in groups then groups[key] else []
  }

  lemma DevicesSnoc(rows: seq<Row>, row: Row)
    ensures Devices(rows + [row]) == Devices(rows) + if KeyOf(row) == NOBODY then {} else {KeyOf(row)}
  {
    assert (rows + [row])[..|rows|] == rows;
  }

  lemma GroupedSkip(groups: map<string, seq<Row>>, rows: seq<Row>, row: Row)
    requires Grouped(groups, rows) && KeyOf(row) == NOBODY
    ensures Grouped(groups, rows + [row])
  {
    DevicesSnoc(rows, row);
    forall k | k in groups
      ensures Of(rows + [row], k) == groups[k]
    {
      OfSnoc(rows, row, k);
    }
  }

  lemma GroupedStep(groups: map<string, seq<Row>>, rows: seq<Row>, row: Row, key: string)
    requires Grouped(groups, rows) && KeyOf(row) == key != NOBODY
    ensures Grouped(groups[key := GroupOf(groups, key) + [row]], rows + [row])
  {
    DevicesSnoc(rows, row);
    forall k | k in groups && k != key
      ensures Of(rows + [row], k) == groups[k]
    {
      OfSnoc(rows, row, k);
    }
    GroupIsOf(groups, rows, key);
    OfSnoc(rows, row, key);
  }

  lemma GroupIsOf(groups: map<string, seq<Row>>, rows: seq<Row>, key: string)
    requires Grouped(groups, rows) && key != NOBODY
    ensures GroupOf(groups, key) == Of(rows, key)
  {
  }
}
