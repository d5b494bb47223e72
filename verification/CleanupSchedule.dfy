/**
 The cleanup thread runs once a minute, at whatever moments the scheduler gives it. If those moments do not go back, its
 effect on the store depends only on the last of them; for any two moments, the exact condition is given.
 */
module CleanupSchedule {
  import opened StoreModel
  import opened Telemetry

  /** Exactly the records older than both the idle and the keep TTL disappear, with their history and every alias. */
  lemma CleanupErasesExactlyTheOld(cfg: Config, s: Store, now: int)
    ensures var s' := Cleanup(cfg, s, now);
            && (forall k :: k in s'.devices <==>
                  k in s.devices && var d := s.devices[k];
                                    d.lastSeen == 0 || now - d.lastSeen <= cfg.idleTtl * SECOND
                                    || now - d.lastSeen <= cfg.keepTtl * SECOND)
            && (forall k :: k in s'.points <==> k in s.points && (k in s.devices ==> k in s'.devices))
            && (forall y :: y in s'.aliases <==>
                  y in s.aliases && (s.aliases[y] in s.devices ==> s.aliases[y] in s'.devices))
  {
  }

  lemma WithoutTwice(aliases: map<string, string>, points: map<string, seq<Sample>>, g1: set<string>, g2: set<string>)
    ensures Without(Without(Store(map[], aliases, points), g1), g2) == Without(Store(map[], aliases, points), g1 + g2)
  {
    assert points - g1 - g2 == points - (g1 + g2);
  }

  // ---------- times in any order ----------

  /** A reported rate that a cleanup at this time withdraws. */
  predicate Stale(cfg: Config, d: Device, now: int) {
    (d.rxRate > 0.0 || d.txRate > 0.0) && !RecentRate(cfg, d, now)
  }

  /** A cleanup at t1 leaves no trace on a record once a cleanup at t2 has followed. */
  predicate Forgets(cfg: Config, d: Device, t1: int, t2: int) {
    Expired(cfg, d, t2) || (!Expired(cfg, d, t1) && (Stale(cfg, d, t1) ==> Stale(cfg, d, t2)))
  }

  predicate AllForget(cfg: Config, s: Store, t1: int, t2: int) {
    forall k :: k in s.devices ==> Forgets(cfg, s.devices[k], t1, t2)
  }

  lemma CleanedTwice(cfg: Config, d: Device, t1: int, t2: int)
    ensures CleanDevice(cfg, CleanDevice(cfg, d, t1), t2) == CleanDevice(cfg, d, t2) <==>
            (Stale(cfg, d, t1) ==> Stale(cfg, d, t2))
    ensures Expired(cfg, CleanDevice(cfg, d, t1), t2) == Expired(cfg, d, t2)
  {
  }

  /** What becomes of the record at k. */
  lemma RecordAfter(cfg: Config, s: Store, t: int, k: string)
    ensures var devices := Cleanup(cfg, s, t).devices;
            && (k in devices <==> k in s.devices && !Expired(cfg, s.devices[k], t))
            && (k in devices ==> devices[k] == CleanDevice(cfg, s.devices[k], t))
  {
  }

  predicate SameAt<K, V(==)>(m: map<K, V>, n: map<K, V>, k: K) {
    (k in m <==> k in n) && (k in m && k in n ==> m[k] == n[k])
  }

  lemma SameMaps<K, V>(m: map<K, V>, n: map<K, V>, keys: set<K>)
    requires m.Keys <= keys && n.Keys <= keys
    ensures m == n <==> forall k :: k in keys ==> SameAt(m, n, k)
  {
    if forall k :: k in keys ==> SameAt(m, n, k) {
      forall k
        ensures k in m <==> k in n
      {
        assert k in keys ==> SameAt(m, n, k);
      }
      assert m.Keys == n.Keys;
      forall k | k in m
        ensures m[k] == n[k]
      {
        assert SameAt(m, n, k);
      }
    }
  }

  lemma SameRecordIff(cfg: Config, s: Store, t1: int, t2: int, k: string)
    requires k in s.devices
    ensures SameAt(Cleanup(cfg, Cleanup(cfg, s, t1), t2).devices, Cleanup(cfg, s, t2).devices, k) <==>
            Forgets(cfg, s.devices[k], t1, t2)
  {
    RecordAfter(cfg, s, t1, k);
    RecordAfter(cfg, s, t2, k);
    RecordAfter(cfg, Cleanup(cfg, s, t1), t2, k);
    CleanedTwice(cfg, s.devices[k], t1, t2);
  }

  lemma SameDevicesIff(cfg: Config, s: Store, t1: int, t2: int)
    ensures Cleanup(cfg, Cleanup(cfg, s, t1), t2).devices == Cleanup(cfg, s, t2).devices <==> AllForget(cfg, s, t1, t2)
  {
    var twice, once := Cleanup(cfg, Cleanup(cfg, s, t1), t2).devices, Cleanup(cfg, s, t2).devices;
    SameMaps(twice, once, s.devices.Keys);
    forall k | k in s.devices
      ensures SameAt(twice, once, k) <==> Forgets(cfg, s.devices[k], t1, t2)
    {
      SameRecordIff(cfg, s, t1, t2, k);
    }
  }

  lemma SameErasures(cfg: Config, s: Store, t1: int, t2: int)
    requires AllForget(cfg, s, t1, t2)
    ensures ExpiredKeys(cfg, s, t1) + ExpiredKeys(cfg, Cleanup(cfg, s, t1), t2) == ExpiredKeys(cfg, s, t2)
  {
    forall k | k in s.devices
      ensures k in ExpiredKeys(cfg, s, t1) || k in ExpiredKeys(cfg, Cleanup(cfg, s, t1), t2) <==> k in ExpiredKeys(cfg, s, t2)
    {
      RecordAfter(cfg, s, t1, k);
      CleanedTwice(cfg, s.devices[k], t1, t2);
    }
  }

  /** For any two times, in either order: a cleanup followed by another leaves the whole store as the second alone would,
      exactly when every record is expired at the second time, or is not at the first and has no rate that only the first
      withdraws. */
  lemma CleanupAbsorbsIff(cfg: Config, s: Store, t1: int, t2: int)
    ensures Cleanup(cfg, Cleanup(cfg, s, t1), t2) == Cleanup(cfg, s, t2) <==> AllForget(cfg, s, t1, t2)
  {
    SameDevicesIff(cfg, s, t1, t2);
    if AllForget(cfg, s, t1, t2) {
      SameErasures(cfg, s, t1, t2);
      WithoutTwice(s.aliases, s.points, ExpiredKeys(cfg, s, t1), ExpiredKeys(cfg, Cleanup(cfg, s, t1), t2));
    }
  }

  // ---------- times that do not go back ----------

  lemma OrderedForget(cfg: Config, s: Store, t1: int, t2: int)
    requires t1 <= t2
    ensures AllForget(cfg, s, t1, t2)
  {
  }

  /** What the first cleanup erased and what the second erases is what the second alone erases. */
  lemma ErasuresAddUp(cfg: Config, s: Store, t1: int, t2: int)
    requires t1 <= t2
    ensures ExpiredKeys(cfg, s, t1) + ExpiredKeys(cfg, Cleanup(cfg, s, t1), t2) == ExpiredKeys(cfg, s, t2)
  {
    OrderedForget(cfg, s, t1, t2);
    SameErasures(cfg, s, t1, t2);
  }

  /** Cleaning at t1 and then at a later t2 leaves what cleaning at t2 alone leaves. */
  lemma CleanupAbsorbs(cfg: Config, s: Store, t1: int, t2: int)
    requires t1 <= t2
    ensures Cleanup(cfg, Cleanup(cfg, s, t1), t2) == Cleanup(cfg, s, t2)
  {
    OrderedForget(cfg, s, t1, t2);
    CleanupAbsorbsIff(cfg, s, t1, t2);
  }

  function CleanAll(cfg: Config, s: Store, times: seq<int>): Store
    decreases times
  {
    if times == [] then s else CleanAll(cfg, Cleanup(cfg, s, times[0]), times[1..])
  }

  /** Any schedule of cleanups whose times do not go back is worth its last one. */
  lemma {:induction false} ScheduleIndependent(cfg: Config, s: Store, times: seq<int>)
    requires times != [] && forall i, j :: 0 <= i < j < |times| ==> times[i] <= times[j]
    ensures CleanAll(cfg, s, times) == Cleanup(cfg, s, times[|times| - 1])
    decreases times
  {
    if |times| > 1 {
      ScheduleIndependent(cfg, Cleanup(cfg, s, times[0]), times[1..]);
      CleanupAbsorbs(cfg, s, times[0], times[|times| - 1]);
    }
  }

  /** A repeated cleanup changes nothing and has no offline event left to emit. */
  lemma CleanupIdempotent(cfg: Config, s: Store, now: int)
    ensures Cleanup(cfg, Cleanup(cfg, s, now), now) == Cleanup(cfg, s, now)
    ensures OfflineKeys(cfg, Cleanup(cfg, s, now), now) == {}
  {
    CleanupAbsorbs(cfg, s, now, now);
  }

  /** Out of order the last cleanup does not decide alone: it would have kept what a later time erased before it. */
  lemma OrderMatters(cfg: Config, s: Store, key: string, t1: int, t2: int)
    requires key in s.devices && s.devices[key].lastSeen != 0
    requires t2 < t1 && cfg.keepTtl >= cfg.idleTtl
    requires t1 - s.devices[key].lastSeen > cfg.keepTtl * SECOND
    requires t2 - s.devices[key].lastSeen <= cfg.idleTtl * SECOND
    ensures key in Cleanup(cfg, s, t2).devices && key !in Cleanup(cfg, Cleanup(cfg, s, t1), t2).devices
  {
  }
}
