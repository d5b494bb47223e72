/**
 The StateStore class: the statements of state_store.cpp over its fields, each call proved to take exactly the
 step of StoreModel. The ghost trace makes every reachable object the result of a run, so all that is proved
 of runs (Lifecycle, Conservation, RateHold) holds of every valid store.
 Iteration over an unordered_map is a choice of any remaining key.
 */
module StateStore {
  import opened AttackWindow
  import opened EventIds
  import opened RingBuffer
  import opened Sequences
  import opened StoreModel
  import opened Telemetry
  import opened Text

  import Identity
  import Lifecycle
  import Reports

  function OfflineEvent(n: nat, d: Device, now: int): Event {
    Event(EventId(n), now, "device", Warning, "state", "Device offline",
          map["mac" := d.mac, "ip" := d.ip, "hostname" := d.hostname])
  }

  /** The events a cleanup emits when it meets the newly offline records in this order, numbered after n. */
  ghost function OfflineEvents(n: nat, order: seq<string>, devices: map<string, Device>, now: int): (r: seq<Event>)
    requires forall k :: k in order ==> k in devices
    ensures |r| == |order|
  {
    if order == [] then []
    else OfflineEvents(n, order[..|order| - 1], devices, now) +
         [OfflineEvent(n + |order|, devices[order[|order| - 1]], now)]
  }

  lemma {:induction false} OfflineIds(n: nat, order: seq<string>, devices: map<string, Device>, now: int, i: nat)
    requires (forall k :: k in order ==> k in devices) && i < |order|
    ensures OfflineEvents(n, order, devices, now)[i].id == EventId(n + i + 1)
    decreases order
  {
    if i < |order| - 1 { OfflineIds(n, order[..|order| - 1], devices, now, i); }
  }

  /** Event i names the i-th record, by its own MAC, address and host name, and the time of the cleanup. */
  lemma {:induction false} OfflineEventTells(n: nat, order: seq<string>, devices: map<string, Device>, now: int, i: nat)
    requires (forall k :: k in order ==> k in devices) && i < |order|
    ensures var e, d := OfflineEvents(n, order, devices, now)[i], devices[order[i]];
            && e.ts == now && e.kind == "device" && e.severity == Warning && e.source == "state"
            && e.message == "Device offline" && e.fields == map["mac" := d.mac, "ip" := d.ip, "hostname" := d.hostname]
    decreases order
  {
    if i < |order| - 1 { OfflineEventTells(n, order[..|order| - 1], devices, now, i); }
  }

  /** The numbers n + 1 to n + count. */
  function Numbers(n: nat, count: nat): seq<Option<nat>> {
    if count == 0 then [] else Numbers(n, count - 1) + [Some(n + count)]
  }

  lemma {:induction false} NumberedOffline(log: seq<Event>, origins: seq<Option<nat>>, n: nat,
                                           order: seq<string>, devices: map<string, Device>, now: int)
    requires Numbered(log, origins, n) && forall k :: k in order ==> k in devices
    ensures Numbered(log + OfflineEvents(n, order, devices, now), origins + Numbers(n, |order|), n + |order|)
    decreases order
  {
    if order == [] {
      assert log + [] == log && origins + [] == origins;
    } else {
      var m := |order| - 1;
      var before, e := OfflineEvents(n, order[..m], devices, now), OfflineEvent(n + |order|, devices[order[m]], now);
      NumberedOffline(log, origins, n, order[..m], devices, now);
      NumberedGenerated(log + before, origins + Numbers(n, m), n + m, e);
      ConcatSnoc(log, before, e);
      ConcatSnoc(origins, Numbers(n, m), Some(n + |order|));
    }
  }

  /** The offline events of a cleanup that starts at number n have pairwise distinct ids, none of them generated before. */
  lemma OfflineIdsDistinct(n: nat, order: seq<string>, devices: map<string, Device>, now: int, i: nat, j: nat)
    requires (forall k :: k in order ==> k in devices) && i < j < |order|
    ensures var es := OfflineEvents(n, order, devices, now);
            es[i].id != es[j].id && forall m: nat :: m <= n ==> es[i].id != EventId(m) && es[j].id != EventId(m)
  {
    OfflineIds(n, order, devices, now, i);
    OfflineIds(n, order, devices, now, j);
    EventIdInjective(n + i + 1, n + j + 1);
    forall m: nat | m <= n
      ensures EventId(n + i + 1) != EventId(m) && EventId(n + j + 1) != EventId(m)
    {
      EventIdInjective(n + i + 1, m);
      EventIdInjective(n + j + 1, m);
    }
  }

  /** The tag loop of mergeDeviceLocked. */
  method MergeTags(tags: seq<string>, more: seq<string>) returns (out: seq<string>)
    ensures out == AddTags(tags, more)
  {
    out := tags;
    for i := 0 to |more|
      invariant AddTags(tags, more) == AddTags(out, more[i..])
    {
      assert more[i..][1..] == more[i + 1..];
      if more[i] !in out {
        out := out + [more[i]];
      }
    }
  }

  /** The alias loop of cleanup: every address that leads to the key goes, in whatever order they are met. */
  method DropAliases(aliases: map<string, string>, key: string) returns (out: map<string, string>)
    ensures out == map y | y in aliases && aliases[y] != key :: aliases[y]
  {
    out := aliases;
    var rest := aliases.Keys;
    while rest != {}
      invariant rest <= out.Keys <= aliases.Keys
      invariant forall y :: y in out ==> out[y] == aliases[y]
      invariant forall y :: y in aliases && y !in rest ==> (y in out <==> aliases[y] != key)
      decreases |rest|
    {
      var y :| y in rest;
      rest := rest - {y};
      if out[y] == key {
        out := out - {y};
      }
    }
  }

  class StateStore {
    const cfg: Config
    var devices: map<string, Device>
    var aliases: map<string, string>
    var points: map<string, seq<Sample>>
    const events: RingBuffer<Event>
    const attacks: RingBuffer<Attack>
    var eventSeq: nat
    ghost var trace: seq<Op>
    /** Where the id of each event ever pushed has come from. */
    ghost var origins: seq<Option<nat>>

    ghost function View(): Store
      reads this
    {
      Store(devices, aliases, points)
    }

    ghost predicate Valid()
      reads this, events, attacks
    {
      && events as object != attacks as object && events as object != this && attacks as object != this
      && events.Valid() && attacks.Valid()
      && events.capacity == cfg.maxEvents && attacks.capacity == cfg.maxAttackEvents
      && View() == Run(cfg, trace) && Numbered(events.history, origins, eventSeq)
    }

    constructor (cfg: Config)
      ensures Valid() && fresh(events) && fresh(attacks) && this.cfg == cfg && eventSeq == 0 && origins == []
      ensures View() == EMPTY && trace == [] && events.history == [] && attacks.history == []
    {
      this.cfg := cfg;
      devices, aliases, points := map[], map[], map[];
      events := new RingBuffer<Event>(cfg.maxEvents);
      attacks := new RingBuffer<Attack>(cfg.maxAttackEvents);
      eventSeq, trace, origins := 0, [], [];
    }

    /** Every valid store is free of dangling aliases and orphan histories. */
    lemma ValidIsClosed()
      requires Valid()
      ensures Lifecycle.Closed(View())
    {
      Lifecycle.RunClosed(cfg, trace);
    }

    /** Every record of a valid store shows what was reported to it, over the whole life of the store. */
    lemma ValidShowsReports(key: string)
      requires Valid() && key in devices
      ensures key in Identity.IdRun(cfg, trace).holder
      ensures Reports.Shows(devices[key], Reports.ReportsOf(cfg, trace, Identity.IdRun(cfg, trace).holder[key]))
    {
      Reports.RecordShowsReports(cfg, trace, key);
    }

    /** The ids of all events ever pushed are distinct exactly when those of the callers' own are, and none of them was
        generated for another event: so they are if every id was generated here, by the push or by nextEventId. */
    lemma HistoryIdsDistinctIff()
      requires Valid()
      ensures |origins| == |events.history|
      ensures Distinct(Ids(events.history)) <==>
              SuppliedDistinct(events.history, origins) && NoneTaken(events.history, origins)
      ensures (forall i :: 0 <= i < |origins| ==> origins[i].Some?) ==> Distinct(Ids(events.history))
    {
      IdsDistinctIff(events.history, origins, eventSeq);
    }

    lemma Extend(before: seq<Op>, op: Op)
      ensures Run(cfg, before + [op]) == Step(cfg, Run(cfg, before), op)
    {
      assert (before + [op])[..|before|] == before;
    }

    method UpdateDevice(device: Device, now: int)
      requires Valid()
      modifies this`devices, this`aliases, this`points, this`trace
      ensures Valid() && trace == old(trace) + [SeeDevice(device, now)]
      ensures View() == StoreModel.UpdateDevice(cfg, old(View()), device, now)
    {
      Extend(trace, SeeDevice(device, now));
      trace := trace + [SeeDevice(device, now)];
      PlaceDevice(device, now);
    }

    /** The body of updateDevice under the lock. */
    method PlaceDevice(device: Device, now: int)
      modifies this`devices, this`aliases, this`points
      ensures View() == StoreModel.UpdateDevice(cfg, old(View()), device, now)
    {
      var key := FindKey(Store(devices, aliases, points), device.mac, device.ip);
      if key == "" {
        key := MakeKey(device.mac, device.ip);
      }
      if key == "" {
        return;
      }
      var desired := MakeKey(device.mac, device.ip);
      if device.mac != "" && IsIpKey(key) && desired != "" && desired != key {
        if key in devices {
          MoveRecord(key, desired);
          key := desired;
        }
      }
      var current := MergeInto(if key in devices then devices[key] else BLANK, device, now);
      Put(key, current);
    }

    /** The re-keying block: the node and its history move to the desired key. */
    method MoveRecord(key: string, desired: string)
      requires key in devices && desired != key
      modifies this`devices, this`points
      ensures View() == Rekey(old(View()), key, desired)
    {
      var node := devices[key];
      devices := devices - {key};
      if desired !in devices {
        devices := devices[desired := node];
      }
      points := points[desired := if key in points then points[key] else []];
      points := points - {key};
    }

    /** Stores a record and lets its address lead to it. */
    method Put(key: string, current: Device)
      modifies this`devices, this`aliases
      ensures View() == PutDevice(old(View()), key, current)
    {
      devices := devices[key := current];
      if current.ip != "" {
        aliases := aliases[current.ip := key];
      }
    }

    method MergeInto(current: Device, incoming: Device, now: int) returns (merged: Device)
      ensures merged == Merge(cfg, current, incoming, now)
    {
      merged := MergeNames(current, incoming);
      merged := MergeTimesInto(merged, incoming, now);
      merged := MergeCountersInto(merged, incoming);
      if incoming.status == Offline {
        merged := merged.(status := Offline);
      } else {
        merged := merged.(status := StatusFor(cfg, merged, now));
      }
    }

    method MergeTimesInto(d: Device, incoming: Device, now: int) returns (merged: Device)
      ensures merged == MergeTimes(d, incoming, now)
    {
      merged := d;
      var seen := if incoming.lastSeen == 0 then now else incoming.lastSeen;
      if merged.firstSeen == 0 {
        merged := merged.(firstSeen := seen);
      }
      if merged.lastSeen == 0 || seen > merged.lastSeen {
        merged := merged.(lastSeen := seen);
      }
      if incoming.lastDhcp != 0 {
        merged := merged.(lastDhcp := incoming.lastDhcp);
      }
      if incoming.lastTraffic != 0 {
        merged := merged.(lastTraffic := incoming.lastTraffic);
      }
      if incoming.lastRate != 0 {
        merged := merged.(lastRate := incoming.lastRate);
      }
    }

    method MergeCountersInto(d: Device, incoming: Device) returns (merged: Device)
      ensures merged == MergeCounters(d, incoming)
    {
      merged := d;
      if incoming.rxBytes > 0 {
        merged := merged.(rxBytes := incoming.rxBytes);
      }
      if incoming.txBytes > 0 {
        merged := merged.(txBytes := incoming.txBytes);
      }
      if incoming.rxRate != 0.0 {
        merged := merged.(rxRate := incoming.rxRate);
      }
      if incoming.txRate != 0.0 {
        merged := merged.(txRate := incoming.txRate);
      }
      var tags := MergeTags(merged.tags, incoming.tags);
      merged := merged.(tags := tags);
    }

    method UpdateTraffic(snapshot: Sample, now: int)
      requires Valid()
      modifies this`devices, this`aliases, this`points, this`trace
      ensures Valid() && trace == old(trace) + [SeeTraffic(snapshot, now)]
      ensures View() == StoreModel.UpdateTraffic(cfg, old(View()), snapshot, now)
    {
      Extend(trace, SeeTraffic(snapshot, now));
      trace := trace + [SeeTraffic(snapshot, now)];
      PlaceTraffic(snapshot, now);
    }

    /** The body of updateTraffic: normalisation, then the update under the lock. */
    method PlaceTraffic(snapshot: Sample, now: int)
      modifies this`devices, this`aliases, this`points
      ensures View() == StoreModel.UpdateTraffic(cfg, old(View()), snapshot, now)
    {
      if snapshot.mac == "" && snapshot.ip == "" {
        return;
      }
      var q := snapshot;
      if q.ts == 0 {
        q := q.(ts := now);
      }
      q := q.(mac := Lower(q.mac));
      var key := FindKey(Store(devices, aliases, points), q.mac, q.ip);
      if key == "" {
        key := MakeKey(q.mac, q.ip);
      }
      if key == "" {
        return;
      }
      var deque := if key in points then points[key] else [];
      var device := if key in devices then devices[key] else BLANK;
      device, deque := Absorb(device, deque, q);
      points := points[key := deque];
      Put(key, device);
    }

    /** The record part of updateTraffic: rates, the stored point and the trimmed deque. */
    method Absorb(d: Device, deque: seq<Sample>, q: Sample) returns (device: Device, pts: seq<Sample>)
      ensures device == SampleDevice(cfg, d, deque, q)
      ensures pts == SamplePoints(cfg, d, deque, q)
    {
      device, pts := d, deque;
      var shouldStore, reset, rx, tx := JudgeSample(d, deque, q);
      if shouldStore {
        pts := PushPoint(pts, q);
      }
      if device.firstSeen == 0 {
        device := device.(firstSeen := q.ts);
      }
      device := device.(lastSeen := if device.lastSeen < q.ts then q.ts else device.lastSeen, lastTraffic := q.ts);
      device := device.(mac := Prefer(device.mac, q.mac), ip := Prefer(device.ip, q.ip), source := "traffic");
      device := device.(rxBytes := q.rx, txBytes := q.tx, rxRate := rx, txRate := tx);
      if rx > 0.0 || tx > 0.0 {
        device := device.(lastRate := q.ts);
      } else if reset {
        device := device.(lastRate := 0);
      }
      var tags := MergeTags(device.tags, ["traffic"]);
      device := device.(tags := tags);
      device := device.(status := StatusFor(cfg, device, q.ts));
    }

    /** The comparison with the last stored point. */
    method JudgeSample(d: Device, pts: seq<Sample>, q: Sample) returns (shouldStore: bool, reset: bool, rx: real, tx: real)
      ensures Judge(cfg, d, pts, q) == Verdict(shouldStore, reset, rx, tx)
    {
      shouldStore, reset := pts == [], false;
      rx, tx := d.rxRate, d.txRate;
      if pts != [] {
        var previous := pts[|pts| - 1];
        var changed := q.rx != previous.rx || q.tx != previous.tx;
        reset := q.rx < previous.rx || q.tx < previous.tx;
        if reset {
          rx, tx, shouldStore := 0.0, 0.0, true;
        } else if changed {
          if q.ts - previous.ts > 0 {
            rx := Rate(previous.rx, q.rx, previous.ts, q.ts);
            tx := Rate(previous.tx, q.tx, previous.ts, q.ts);
            shouldStore := true;
          }
        } else if !(d.lastRate != 0 && q.ts - d.lastRate <= cfg.rateHold * SECOND) {
          rx, tx := 0.0, 0.0;
        }
      }
    }

    method PushPoint(deque: seq<Sample>, q: Sample) returns (pts: seq<Sample>)
      ensures pts == LastN(deque + [q], cfg.maxPoints)
    {
      pts := deque + [q];
      while |pts| > cfg.maxPoints
        invariant |pts| <= |deque| + 1
        invariant pts == LastN(deque + [q], if |pts| < cfg.maxPoints then cfg.maxPoints else |pts|)
      {
        pts := pts[1..];
      }
    }

    /** Every generated id is new: the sequence number grows, and its text determines it. */
    method NextEventId() returns (id: string)
      requires Valid()
      modifies this`eventSeq
      ensures Valid() && eventSeq == old(eventSeq) + 1 && Some(eventSeq) !in origins
      ensures id == EventId(eventSeq) == "evt-" + Decimal(eventSeq)
      ensures forall n: nat :: n <= old(eventSeq) ==> id != EventId(n)
    {
      NumberTaken(events.history, origins, eventSeq);
      eventSeq := eventSeq + 1;
      id := EventId(eventSeq);
      forall n: nat | n <= old(eventSeq)
        ensures id != EventId(n)
      {
        EventIdInjective(eventSeq, n);
      }
    }

    /** addEvent: `origin` tells the number of an id that the caller took from nextEventId, if it did. */
    method AddEvent(event: Event, now: int, ghost origin: Option<nat>)
      requires Valid() && Sound(origin, event, origins, eventSeq)
      modifies this`eventSeq, this`origins, events
      ensures Valid() && View() == old(View()) && trace == old(trace)
      ensures origins == old(origins) + [if event.id == "" then Some(eventSeq) else origin]
      ensures eventSeq == old(eventSeq) + if event.id == "" then 1 else 0
      ensures events.history == old(events.history) +
                                [event.(id := if event.id == "" then EventId(eventSeq) else event.id,
                                 ts := if event.ts == 0 then now else event.ts)]
    {
      var e := event;
      ghost var source := origin;
      if e.id == "" {
        var id := NextEventId();
        e := e.(id := id);
        source := Some(eventSeq);
      }
      if e.ts == 0 {
        e := e.(ts := now);
      }
      NumberedPush(events.history, origins, eventSeq, e, source);
      origins := origins + [source];
      events.Push(e);
    }

    method AddWANAttack(attack: Attack, now: int)
      requires Valid()
      modifies attacks
      ensures Valid() && View() == old(View())
      ensures attacks.history == old(attacks.history) + [attack.(ts := if attack.ts == 0 then now else attack.ts)]
    {
      var a := attack;
      if a.ts == 0 {
        a := a.(ts := now);
      }
      attacks.Push(a);
    }

    /** wan_attack_5m of the summary: the attacks of the last five minutes, capped by the buffer. */
    method RecentAttackCount(now: int) returns (count: nat)
      requires Valid()
      ensures var start := now - 300 * SECOND;
              count == Capped(CountSince(attacks.history, start), cfg.maxAttackEvents) <==>
              AllBefore(Dropped(attacks.history, cfg.maxAttackEvents), start) || AllSince(attacks.items, start)
      ensures InOrder(attacks.history) ==>
                count == Capped(CountSince(attacks.history, now - 300 * SECOND), cfg.maxAttackEvents)
    {
      count := CountRecent(attacks, now);
    }

    // ---------- cleanup ----------

    /** One pass over the records: expires rates, recomputes statuses, emits offline events, collects the expired. */
    method RefreshRecords(now: int) returns (eraseKeys: seq<string>, ghost order: seq<string>)
      requires events.Valid() && events as object != this
      modifies this`devices, this`eventSeq, events
      ensures devices == map k | k in old(devices) :: CleanDevice(cfg, old(devices)[k], now)
      ensures Enumerates(eraseKeys, ExpiredKeys(cfg, old(View()), now))
      ensures Enumerates(order, OfflineKeys(cfg, old(View()), now))
      ensures events.Valid() && events.capacity == old(events.capacity) && eventSeq == old(eventSeq) + |order|
      ensures events.history == old(events.history) + OfflineEvents(old(eventSeq), order, old(devices), now)
    {
      eraseKeys, order := [], [];
      ghost var s := View();
      ghost var start := Log(events.history, eventSeq);
      var todo := devices.Keys;
      while todo != {}
        invariant Passing(cfg, s, now, todo, devices, eraseKeys, order, start, Log(events.history, eventSeq))
        invariant events.Valid() && events.capacity == old(events.capacity)
        decreases todo
      {
        var key :| key in todo;
        PassingStep(cfg, s, now, todo, devices, eraseKeys, order, start, Log(events.history, eventSeq), key);
        todo := todo - {key};
        var wentOffline, expired := RefreshRecord(key, now);
        order := Listed(order, wentOffline, key);
        if expired {
          eraseKeys := eraseKeys + [key];
        }
      }
      Refreshed(cfg, s, now, devices, eraseKeys, order);
    }

    /** One record's turn, with its offline event if it has one. */
    method RefreshRecord(key: string, now: int) returns (wentOffline: bool, expired: bool)
      requires key in devices && events.Valid() && events as object != this
      modifies this`devices, this`eventSeq, events
      ensures devices == old(devices)[key := CleanDevice(cfg, old(devices)[key], now)]
      ensures wentOffline == GoesOffline(cfg, old(devices)[key], now) && expired == Expired(cfg, old(devices)[key], now)
      ensures events.Valid() && events.capacity == old(events.capacity)
      ensures Log(events.history, eventSeq) ==
              Turned(Log(old(events.history), old(eventSeq)), wentOffline, old(devices)[key], now)
    {
      var device;
      device, wentOffline, expired := Refresh(devices[key], now);
      devices := devices[key := device];
      if wentOffline {
        eventSeq := eventSeq + 1;
        events.Push(OfflineEvent(eventSeq, device, now));
      }
    }

    method Refresh(d: Device, now: int) returns (device: Device, wentOffline: bool, expired: bool)
      ensures device == CleanDevice(cfg, d, now)
      ensures wentOffline == GoesOffline(cfg, d, now) && expired == Expired(cfg, d, now)
    {
      device := d;
      if (device.rxRate > 0.0 || device.txRate > 0.0) &&
         (device.lastRate == 0 || now - device.lastRate > cfg.rateHold * SECOND) {
        device := device.(rxRate := 0.0, txRate := 0.0);
      }
      var previous := device.status;
      device := device.(status := StatusFor(cfg, device, now));
      wentOffline := previous != Offline && device.status == Offline;
      expired := device.status == Offline && device.lastSeen != 0 && now - device.lastSeen > cfg.keepTtl * SECOND;
    }

    /** Removes one record with its history and every alias that names it. */
    method Erase(key: string)
      modifies this`devices, this`aliases, this`points
      ensures View() == Without(old(View()), {key})
    {
      devices := devices - {key};
      points := points - {key};
      aliases := DropAliases(aliases, key);
      assert aliases == Without(old(View()), {key}).aliases;
    }

    method Cleanup(now: int) returns (ghost order: seq<string>)
      requires Valid()
      modifies this`devices, this`aliases, this`points, this`eventSeq, this`trace, this`origins, events
      ensures Valid() && trace == old(trace) + [Clean(now)]
      ensures eventSeq == old(eventSeq) + |order| && origins == old(origins) + Numbers(old(eventSeq), |order|)
      ensures View() == StoreModel.Cleanup(cfg, old(View()), now)
      ensures Enumerates(order, OfflineKeys(cfg, old(View()), now))
      ensures events.history == old(events.history) + OfflineEvents(old(eventSeq), order, old(devices), now)
    {
      Extend(trace, Clean(now));
      trace := trace + [Clean(now)];
      var eraseKeys;
      eraseKeys, order := RefreshNumbered(now);
      EraseAll(eraseKeys);
      assert Elements(eraseKeys) == ExpiredKeys(cfg, old(View()), now);
    }

    method RefreshNumbered(now: int) returns (eraseKeys: seq<string>, ghost order: seq<string>)
      requires events.Valid() && events as object != this && Numbered(events.history, origins, eventSeq)
      modifies this`devices, this`eventSeq, this`origins, events
      ensures devices == map k | k in old(devices) :: CleanDevice(cfg, old(devices)[k], now)
      ensures Enumerates(eraseKeys, ExpiredKeys(cfg, old(View()), now))
      ensures Enumerates(order, OfflineKeys(cfg, old(View()), now))
      ensures events.Valid() && events.capacity == old(events.capacity) && eventSeq == old(eventSeq) + |order|
      ensures events.history == old(events.history) + OfflineEvents(old(eventSeq), order, old(devices), now)
      ensures Numbered(events.history, origins, eventSeq) && origins == old(origins) + Numbers(old(eventSeq), |order|)
    {
      eraseKeys, order := RefreshRecords(now);
      NumberedOffline(old(events.history), origins, old(eventSeq), order, old(devices), now);
      origins := origins + Numbers(old(eventSeq), |order|);
    }

    method EraseAll(keys: seq<string>)
      modifies this`devices, this`aliases, this`points
      ensures View() == Without(old(View()), Elements(keys))
    {
      ghost var s := View();
      WithoutNone(s);
      for i := 0 to |keys|
        invariant View() == Without(s, Elements(keys[..i]))
      {
        WithoutMore(s, keys, i);
        Erase(keys[i]);
      }
      assert keys[..|keys|] == keys;
    }
  }

  function Elements(keys: seq<string>): set<string> {
    set k | k in keys
  }

  /** A cleanup pass over store s with the keys in todo still to visit. */
  ghost predicate Refreshing(cfg: Config, s: Store, now: int, todo: set<string>,
                             devices: map<string, Device>, eraseKeys: seq<string>, order: seq<string>)
  {
    && todo <= devices.Keys == s.devices.Keys
    && (forall k :: k in devices ==> devices[k] == if k in todo then s.devices[k] else CleanDevice(cfg, s.devices[k], now))
    && Enumerates(eraseKeys, ExpiredKeys(cfg, s, now) - todo)
    && Enumerates(order, OfflineKeys(cfg, s, now) - todo)
  }

  lemma RefreshingStep(cfg: Config, s: Store, now: int, todo: set<string>,
                       devices: map<string, Device>, eraseKeys: seq<string>, order: seq<string>, key: string)
    requires key in todo && Refreshing(cfg, s, now, todo, devices, eraseKeys, order)
    ensures key in s.devices && devices[key] == s.devices[key]
    ensures Refreshing(cfg, s, now, todo - {key}, devices[key := CleanDevice(cfg, s.devices[key], now)],
                       Listed(eraseKeys, Expired(cfg, s.devices[key], now), key),
                       Listed(order, GoesOffline(cfg, s.devices[key], now), key))
  {
    Visited(eraseKeys, ExpiredKeys(cfg, s, now), todo, key);
    Visited(order, OfflineKeys(cfg, s, now), todo, key);
  }

  lemma Refreshed(cfg: Config, s: Store, now: int, devices: map<string, Device>, eraseKeys: seq<string>, order: seq<string>)
    requires Refreshing(cfg, s, now, {}, devices, eraseKeys, order)
    ensures devices == map k | k in s.devices :: CleanDevice(cfg, s.devices[k], now)
    ensures Enumerates(eraseKeys, ExpiredKeys(cfg, s, now)) && Enumerates(order, OfflineKeys(cfg, s, now))
  {
  }

  /** Taking key off the keys still to visit extends the enumeration of the visited part of a set by key, if it is in it. */
  lemma Visited(visited: seq<string>, all: set<string>, todo: set<string>, key: string)
    requires key in todo && Enumerates(visited, all - todo)
    ensures Enumerates(if key in all then visited + [key] else visited, all - (todo - {key}))
  {
  }

  datatype Log = Log(history: seq<Event>, seqNo: nat)

  /** The log grew by the offline events of the records in order. */
  ghost predicate Logged(start: Log, current: Log, order: seq<string>, devices: map<string, Device>, now: int) {
    && (forall k :: k in order ==> k in devices)
    && current == Log(start.history + OfflineEvents(start.seqNo, order, devices, now), start.seqNo + |order|)
  }

  /** The log after one record's turn. */
  function Turned(log: Log, went: bool, d: Device, now: int): Log {
    if went then Log(log.history + [OfflineEvent(log.seqNo + 1, d, now)], log.seqNo + 1) else log
  }

  function Listed(keys: seq<string>, add: bool, key: string): seq<string> {
    if add then keys + [key] else keys
  }

  lemma LoggedStep(start: Log, current: Log, order: seq<string>, devices: map<string, Device>, now: int, key: string, went: bool)
    requires key in devices && Logged(start, current, order, devices, now)
    ensures Logged(start, Turned(current, went, devices[key], now), Listed(order, went, key), devices, now)
  {
    assert (order + [key])[..|order|] == order;
  }

  /** Both: the records visited so far and what the log says of them. */
  ghost predicate Passing(cfg: Config, s: Store, now: int, todo: set<string>, devices: map<string, Device>,
                          eraseKeys: seq<string>, order: seq<string>, start: Log, current: Log)
  {
    Refreshing(cfg, s, now, todo, devices, eraseKeys, order) && Logged(start, current, order, s.devices, now)
  }

  lemma PassingStep(cfg: Config, s: Store, now: int, todo: set<string>, devices: map<string, Device>,
                    eraseKeys: seq<string>, order: seq<string>, start: Log, current: Log, key: string)
    requires key in todo && Passing(cfg, s, now, todo, devices, eraseKeys, order, start, current)
    ensures key in devices && key in s.devices && devices[key] == s.devices[key]
    ensures var d := devices[key];
            Passing(cfg, s, now, todo - {key}, devices[key := CleanDevice(cfg, d, now)],
                    Listed(eraseKeys, Expired(cfg, d, now), key), Listed(order, GoesOffline(cfg, d, now), key),
                    start, Turned(current, GoesOffline(cfg, d, now), d, now))
  {
    RefreshingStep(cfg, s, now, todo, devices, eraseKeys, order, key);
    LoggedStep(start, current, order, s.devices, now, key, GoesOffline(cfg, s.devices[key], now));
  }

  // ---------- a restart and after ----------

  /** A log line, as the application handles it: it takes an id, then may update the store, then may push its event. */
  datatype Line = Line(update: Option<Op>, event: Option<Event>)

  function Pushes(lines: seq<Line>): (r: seq<bool>)
    ensures |r| == |lines| && forall i :: 0 <= i < |lines| ==> r[i] == lines[i].event.Some?
  {
    seq(|lines|, i requires 0 <= i < |lines| => lines[i].event.Some?)
  }

  /** handleLog and applyParseResult, as far as the store is concerned. */
  method HandleLine(store: StateStore, line: Line, now: int)
    requires store.Valid() && (line.update.Some? ==> !line.update.value.Clean?)
    modifies store, store.events
    ensures store.Valid() && store.eventSeq == old(store.eventSeq) + 1
    ensures Ids(store.events.history) ==
            Ids(old(store.events.history)) + if line.event.Some? then [EventId(store.eventSeq)] else []
    ensures store.trace == old(store.trace) + if line.update.Some? then [line.update.value] else []
  {
    ghost var before := store.events.history;
    assert before + [] == before;
    var id := store.NextEventId();
    if line.update.Some? {
      match line.update.value
      case SeeDevice(d, t) => store.UpdateDevice(d, t);
      case SeeTraffic(q, t) => store.UpdateTraffic(q, t);
    }
    if line.event.Some? {
      store.AddEvent(line.event.value.(id := id), now, Some(store.eventSeq));
      IdsSnoc(before, store.events.history[|before|]);
    }
  }

  /** A restart and after: a fresh store takes the loaded events, then handles lines. No id repeats exactly when the loaded
      ids are distinct and none of them is that of a line that pushes its event. */
  method LoadThenHandle(cfg: Config, loaded: seq<Event>, lines: seq<Line>, now: int) returns (store: StateStore)
    requires forall i :: 0 <= i < |loaded| ==> loaded[i].id != ""
    requires forall i :: 0 <= i < |lines| ==> lines[i].update.Some? ==> !lines[i].update.value.Clean?
    ensures store.Valid() && fresh(store) && Ids(store.events.history) == Ids(loaded) + UsedIds(Pushes(lines))
    ensures Distinct(Ids(store.events.history)) <==>
            Distinct(Ids(loaded)) && forall k: nat :: k < |lines| && lines[k].event.Some? ==> EventId(k + 1) !in Ids(loaded)
  {
    store := new StateStore(cfg);
    AddLoaded(store, loaded, now);
    HandleAll(store, loaded, lines, now);
    UsedDistinctIff(Ids(loaded), Pushes(lines));
  }

  method AddLoaded(store: StateStore, loaded: seq<Event>, now: int)
    requires store.Valid() && store.eventSeq == 0 && store.events.history == []
    requires forall i :: 0 <= i < |loaded| ==> loaded[i].id != ""
    modifies store, store.events
    ensures store.Valid() && store.eventSeq == 0 && Ids(store.events.history) == Ids(loaded)
  {
    for i := 0 to |loaded|
      invariant store.Valid() && store.eventSeq == 0 && Ids(store.events.history) == Ids(loaded[..i])
    {
      ghost var before := store.events.history;
      store.AddEvent(loaded[i], now, None);
      IdsSnoc(before, store.events.history[|before|]);
      IdsTake(loaded, i);
    }
    assert loaded[..|loaded|] == loaded;
  }

  lemma UsedNext(lines: seq<Line>, i: nat)
    requires i < |lines|
    ensures UsedIds(Pushes(lines[..i + 1])) == UsedIds(Pushes(lines[..i])) + if lines[i].event.Some? then [EventId(i + 1)] else []
  {
    assert Pushes(lines[..i + 1])[..i] == Pushes(lines[..i]);
  }

  method HandleAll(store: StateStore, ghost loaded: seq<Event>, lines: seq<Line>, now: int)
    requires store.Valid() && store.eventSeq == 0 && Ids(store.events.history) == Ids(loaded)
    requires forall i :: 0 <= i < |lines| ==> lines[i].update.Some? ==> !lines[i].update.value.Clean?
    modifies store, store.events
    ensures store.Valid() && Ids(store.events.history) == Ids(loaded) + UsedIds(Pushes(lines))
  {
    assert Ids(loaded) + UsedIds(Pushes(lines[..0])) == Ids(loaded);
    for i := 0 to |lines|
      invariant store.Valid() && store.eventSeq == i
      invariant Ids(store.events.history) == Ids(loaded) + UsedIds(Pushes(lines[..i]))
    {
      HandleLine(store, lines[i], now);
      UsedNext(lines, i);
      Regroup(Ids(loaded), UsedIds(Pushes(lines[..i])), if lines[i].event.Some? then [EventId(i + 1)] else []);
    }
    assert lines[..|lines|] == lines;
  }

  /** Numbering starts again with every store: an event loaded from an earlier life can carry an id this one generates. */
  method RestartRepeatsId(cfg: Config, loaded: Event, later: Event, now: int) returns (store: StateStore)
    requires loaded.id == EventId(1)
    ensures store.Valid() && fresh(store)
    ensures |store.events.history| == 2 && store.events.history[0].id == store.events.history[1].id
  {
    store := new StateStore(cfg);
    store.AddEvent(loaded, now, None);
    HandleLine(store, Line(None, Some(later)), now);
    assert Ids(store.events.history)[1] == EventId(1);
  }

  lemma WithoutNone(s: Store)
    ensures Without(s, {}) == s
  {
    assert Without(s, {}).aliases == s.aliases;
  }

  lemma WithoutMore(s: Store, keys: seq<string>, i: nat)
    requires i < |keys|
    ensures Without(Without(s, Elements(keys[..i])), {keys[i]}) == Without(s, Elements(keys[..i + 1]))
  {
    var gone, key := Elements(keys[..i]), keys[i];
    assert keys[..i + 1] == keys[..i] + [key];
    assert Elements(keys[..i + 1]) == gone + {key};
    assert s.devices - gone - {key} == s.devices - (gone + {key});
    assert s.points - gone - {key} == s.points - (gone + {key});
  }
}
