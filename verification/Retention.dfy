/**
 Retention of the SQLite tables: age deletion, count trimming and the size-cap rounds, each a DELETE whose id set is
 computed from the table. A table is the sequence of its rows in (ts, id) order, the order every statement uses.
 */
module Retention {
  import opened Sequences
  import opened Telemetry

  /** What retention looks at: the primary key, the time in seconds, and for traffic_samples the partition column. */
  datatype Row = Row(id: int, ts: int, owner: string)

  type Table = seq<Row>

  /** Rows in time order, primary keys unique. */
  predicate Ordered(t: Table) {
    && (forall i, j :: 0 <= i < j < |t| ==> t[i].ts <= t[j].ts)
    && (forall i, j :: 0 <= i < j < |t| ==> t[i].id != t[j].id)
  }

  // ---------- the statements ----------

  /** DELETE ... WHERE id IN (...) */
  function DeleteIds(t: Table, ids: set<int>): Table {
    if t == [] then [] else (if t[0].id in ids then [] else [t[0]]) + DeleteIds(t[1..], ids)
  }

  function Ids(t: Table): set<int> {
    set i | 0 <= i < |t| :: t[i].id
  }

  /** DELETE ... WHERE ts < cutoff */
  function DeleteOlderThan(t: Table, cutoff: int): Table {
    if t == [] then [] else (if t[0].ts < cutoff then [] else [t[0]]) + DeleteOlderThan(t[1..], cutoff)
  }

  /** DELETE the ids past the newest `limit`. */
  function DeleteBeyondLimit(t: Table, limit: nat): Table {
    DeleteIds(t, Ids(t[..|t| - |LastN(t, limit)|]))
  }

  /** DELETE the ids of the oldest `limit`. */
  function PruneOldRows(t: Table, limit: nat): Table {
    DeleteIds(t, Ids(t[..if limit < |t| then limit else |t|]))
  }

  function Count(t: Table, owner: string): nat {
    if t == [] then 0 else (if t[0].owner == owner then 1 else 0) + Count(t[1..], owner)
  }

  /** ROW_NUMBER() OVER (PARTITION BY owner ORDER BY ts DESC, id DESC) */
  function RowNumber(t: Table, i: nat): nat
    requires i < |t|
  {
    1 + Count(t[i + 1..], t[i].owner)
  }

  /** DELETE the ids whose row number exceeds the limit. */
  function DeleteBeyondOwnerLimit(t: Table, limit: nat): Table {
    DeleteIds(t, set i | 0 <= i < |t| && RowNumber(t, i) > limit :: t[i].id)
  }

  // ---------- what they leave ----------

  lemma {:induction false} DeleteNone(t: Table, ids: set<int>)
    requires forall i :: 0 <= i < |t| ==> t[i].id !in ids
    ensures DeleteIds(t, ids) == t
  {
    if t != [] {
      DeleteNone(t[1..], ids);
      assert t == [t[0]] + t[1..];
    }
  }

  lemma {:induction false} DeleteIdsConcat(a: Table, b: Table, ids: set<int>)
    requires forall i :: 0 <= i < |a| ==> a[i].id in ids
    requires forall i :: 0 <= i < |b| ==> b[i].id !in ids
    ensures DeleteIds(a + b, ids) == b
  {
    if a == [] {
      assert a + b == b;
      DeleteNone(b, ids);
    } else {
      assert (a + b)[1..] == a[1..] + b;
      DeleteIdsConcat(a[1..], b, ids);
    }
  }

  /** Deleting a prefix by its ids leaves the rest, because ids are unique. */
  lemma DeletePrefix(t: Table, k: nat)
    requires Ordered(t) && k <= |t|
    ensures DeleteIds(t, Ids(t[..k])) == t[k..]
  {
    assert t == t[..k] + t[k..];
    DeleteIdsConcat(t[..k], t[k..], Ids(t[..k]));
  }

  /** How many rows count trimming removes. */
  function Surplus(t: Table, limit: nat): (k: nat)
    ensures k <= |t|
  {
    if |t| <= limit then 0 else |t| - limit
  }

  lemma TrimKeepsSuffix(t: Table, limit: nat)
    requires Ordered(t)
    ensures DeleteBeyondLimit(t, limit) == t[Surplus(t, limit)..]
  {
    DeletePrefix(t, Surplus(t, limit));
  }

  /** Count trimming leaves exactly the newest `limit` rows. */
  lemma TrimKeepsNewest(t: Table, limit: nat)
    requires Ordered(t)
    ensures DeleteBeyondLimit(t, limit) == LastN(t, limit)
  {
    TrimKeepsSuffix(t, limit);
  }

  /** The rows before the cutoff. */
  function Cut(t: Table, cutoff: int): (k: nat)
    ensures k <= |t|
  {
    if t == [] || t[0].ts >= cutoff then 0 else 1 + Cut(t[1..], cutoff)
  }

  lemma {:induction false} CutSplits(t: Table, cutoff: int)
    requires Ordered(t)
    ensures forall i :: 0 <= i < |t| ==> (t[i].ts < cutoff <==> i < Cut(t, cutoff))
    decreases t
  {
    if t != [] && t[0].ts < cutoff {
      CutSplits(t[1..], cutoff);
      assert forall i :: 0 < i < |t| ==> t[i] == t[1..][i - 1];
    }
  }

  lemma {:induction false} NoneOlder(t: Table, cutoff: int)
    requires forall i :: 0 <= i < |t| ==> t[i].ts >= cutoff
    ensures DeleteOlderThan(t, cutoff) == t
  {
    if t != [] {
      NoneOlder(t[1..], cutoff);
      assert t == [t[0]] + t[1..];
    }
  }

  lemma {:induction false} OlderThanConcat(a: Table, b: Table, cutoff: int)
    requires forall i :: 0 <= i < |a| ==> a[i].ts < cutoff
    requires forall i :: 0 <= i < |b| ==> b[i].ts >= cutoff
    ensures DeleteOlderThan(a + b, cutoff) == b
  {
    if a == [] {
      assert a + b == b;
      NoneOlder(b, cutoff);
    } else {
      assert (a + b)[1..] == a[1..] + b;
      OlderThanConcat(a[1..], b, cutoff);
    }
  }

  /** Age deletion leaves the suffix of rows at or after the cutoff. */
  lemma AgeKeepsSuffix(t: Table, cutoff: int)
    requires Ordered(t)
    ensures DeleteOlderThan(t, cutoff) == t[Cut(t, cutoff)..]
  {
    CutSplits(t, cutoff);
    var k := Cut(t, cutoff);
    assert t == t[..k] + t[k..];
    OlderThanConcat(t[..k], t[k..], cutoff);
  }

  lemma SuffixOfSuffix(t: Table, m: nat, n: nat)
    requires m + n <= |t|
    ensures t[m..][n..] == t[m + n..]
  {
  }

  lemma SuffixOrdered(t: Table, k: nat)
    requires Ordered(t) && k <= |t|
    ensures Ordered(t[k..])
  {
  }

  /** Retention of events and wan_attacks as one pass: age first, then count. */
  function Pass(t: Table, cutoff: int, limit: nat): Table {
    DeleteBeyondLimit(DeleteOlderThan(t, cutoff), limit)
  }

  /** Where the survivors of a pass begin. */
  function PassStart(t: Table, cutoff: int, limit: nat): (k: nat)
    ensures k <= |t|
  {
    if |t| - Cut(t, cutoff) <= limit then Cut(t, cutoff) else |t| - limit
  }

  lemma PassIsSuffix(t: Table, cutoff: int, limit: nat)
    requires Ordered(t)
    ensures Pass(t, cutoff, limit) == t[PassStart(t, cutoff, limit)..]
  {
    var k := Cut(t, cutoff);
    AgeKeepsSuffix(t, cutoff);
    SuffixOrdered(t, k);
    TrimKeepsSuffix(t[k..], limit);
    NewestOfSuffix(t, k, limit);
  }

  lemma NewestOfSuffix(t: Table, k: nat, limit: nat)
    requires k <= |t|
    ensures t[k..][Surplus(t[k..], limit)..] == t[if |t| - k <= limit then k else |t| - limit..]
  {
    SuffixOfSuffix(t, k, Surplus(t[k..], limit));
  }

  lemma PassIsNewest(t: Table, cutoff: int, limit: nat)
    requires Ordered(t)
    ensures Pass(t, cutoff, limit) == LastN(t[Cut(t, cutoff)..], limit)
  {
    AgeKeepsSuffix(t, cutoff);
    SuffixOrdered(t, Cut(t, cutoff));
    TrimKeepsNewest(t[Cut(t, cutoff)..], limit);
  }

  /** The survivors are exactly the newest `limit` rows at or after the cutoff, in order. */
  lemma PassSurvivors(t: Table, cutoff: int, limit: nat)
    requires Ordered(t)
    ensures Pass(t, cutoff, limit) == LastN(t[Cut(t, cutoff)..], limit) && Ordered(Pass(t, cutoff, limit))
    ensures var k := |t| - |Pass(t, cutoff, limit)|;
            && Pass(t, cutoff, limit) == t[k..]
            && forall i :: 0 <= i < |t| ==> (i >= k <==> t[i].ts >= cutoff && |t| - i <= limit)
  {
    PassIsSuffix(t, cutoff, limit);
    PassIsNewest(t, cutoff, limit);
    CutSplits(t, cutoff);
    SuffixOrdered(t, PassStart(t, cutoff, limit));
  }

  lemma {:induction false} CutOfSuffix(t: Table, m: nat, cutoff: int)
    requires Ordered(t) && m <= |t|
    ensures Cut(t[m..], cutoff) == if m <= Cut(t, cutoff) then Cut(t, cutoff) - m else 0
    decreases m
  {
    if m == 0 {
      assert t[0..] == t;
    } else if t[0].ts < cutoff {
      SuffixOrdered(t, 1);
      CutOfSuffix(t[1..], m - 1, cutoff);
      SuffixOfSuffix(t, 1, m - 1);
    } else {
      assert m < |t| ==> t[m..][0].ts >= t[0].ts;
    }
  }

  lemma AgeOfSuffix(t: Table, m: nat, cutoff: int)
    requires Ordered(t) && m <= |t|
    ensures DeleteOlderThan(t[m..], cutoff) == t[if m <= Cut(t, cutoff) then Cut(t, cutoff) else m..]
  {
    SuffixOrdered(t, m);
    AgeKeepsSuffix(t[m..], cutoff);
    CutOfSuffix(t, m, cutoff);
    SuffixOfSuffix(t, m, Cut(t[m..], cutoff));
  }

  /** Age deletion and count trimming may be done in either order. */
  lemma AgeAndCountCommute(t: Table, cutoff: int, limit: nat)
    requires Ordered(t)
    ensures Pass(t, cutoff, limit) == DeleteOlderThan(DeleteBeyondLimit(t, limit), cutoff)
  {
    PassIsSuffix(t, cutoff, limit);
    TrimKeepsSuffix(t, limit);
    AgeOfSuffix(t, Surplus(t, limit), cutoff);
  }

  lemma PassIdempotent(t: Table, cutoff: int, limit: nat)
    requires Ordered(t)
    ensures Pass(Pass(t, cutoff, limit), cutoff, limit) == Pass(t, cutoff, limit)
  {
    var r := Pass(t, cutoff, limit);
    PassSurvivors(t, cutoff, limit);
    PassSurvivors(r, cutoff, limit);
    CutSplits(r, cutoff);
  }

  // ---------- per-device trimming ----------

  /** Each row stays if its row number allows it; the row number depends on newer rows only. */
  function OwnerTrim(t: Table, limit: nat): Table {
    if t == [] then [] else (if 1 + Count(t[1..], t[0].owner) > limit then [] else [t[0]]) + OwnerTrim(t[1..], limit)
  }

  lemma {:induction false} DeleteByRowNumber(t: Table, limit: nat, ids: set<int>)
    requires forall i :: 0 <= i < |t| ==> (t[i].id in ids <==> RowNumber(t, i) > limit)
    ensures DeleteIds(t, ids) == OwnerTrim(t, limit)
    decreases t
  {
    if t != [] {
      forall i | 0 <= i < |t[1..]|
        ensures t[1..][i].id in ids <==> RowNumber(t[1..], i) > limit
      {
        assert t[1..][i + 1..] == t[i + 2..];
        assert RowNumber(t[1..], i) == RowNumber(t, i + 1);
      }
      DeleteByRowNumber(t[1..], limit, ids);
      assert RowNumber(t, 0) == 1 + Count(t[1..], t[0].owner);
    }
  }

  lemma OwnerTrimmed(t: Table, limit: nat)
    requires Ordered(t)
    ensures DeleteBeyondOwnerLimit(t, limit) == OwnerTrim(t, limit)
  {
    var ids := set i | 0 <= i < |t| && RowNumber(t, i) > limit :: t[i].id;
    forall i | 0 <= i < |t|
      ensures t[i].id in ids <==> RowNumber(t, i) > limit
    {
      if t[i].id in ids {
        var j :| 0 <= j < |t| && RowNumber(t, j) > limit && t[j].id == t[i].id;
        assert i == j;
      }
    }
    DeleteByRowNumber(t, limit, ids);
  }

  /** One owner's rows, in order. */
  function OwnedBy(t: Table, owner: string): (r: Table)
    ensures |r| == Count(t, owner)
  {
    if t == [] then [] else (if t[0].owner == owner then [t[0]] else []) + OwnedBy(t[1..], owner)
  }

  lemma {:induction false} OwnedByConcat(a: Table, b: Table, owner: string)
    ensures OwnedBy(a + b, owner) == OwnedBy(a, owner) + OwnedBy(b, owner)
    decreases a
  {
    if a == [] {
      assert a + b == b;
    } else {
      assert (a + b)[1..] == a[1..] + b;
      OwnedByConcat(a[1..], b, owner);
    }
  }

  /** Per device, trimming leaves exactly its newest `limit` rows. */
  lemma {:induction false} OwnerTrimKeepsNewest(t: Table, limit: nat, owner: string)
    ensures OwnedBy(OwnerTrim(t, limit), owner) == LastN(OwnedBy(t, owner), limit)
    decreases t
  {
    if t != [] {
      var head := if 1 + Count(t[1..], t[0].owner) > limit then [] else [t[0]];
      OwnedByConcat(head, OwnerTrim(t[1..], limit), owner);
      OwnerTrimKeepsNewest(t[1..], limit, owner);
      if t[0].owner == owner {
        assert OwnedBy(t, owner) == [t[0]] + OwnedBy(t[1..], owner);
        assert head != [] ==> OwnedBy([t[0]], owner) == [t[0]];
      } else {
        assert OwnedBy(head, owner) == [];
        assert OwnedBy(t, owner) == OwnedBy(t[1..], owner);
      }
    }
  }

  /** Trimming a table acts on its newer part as if the older part were not there. */
  lemma {:induction false} OwnerTrimConcat(a: Table, b: Table, limit: nat) returns (kept: Table)
    ensures OwnerTrim(a + b, limit) == kept + OwnerTrim(b, limit)
    ensures forall i :: 0 <= i < |kept| ==> kept[i] in a
    decreases a
  {
    if a == [] {
      kept := [];
      assert a + b == b;
    } else {
      assert (a + b)[1..] == a[1..] + b;
      var rest := OwnerTrimConcat(a[1..], b, limit);
      kept := (if 1 + Count((a + b)[1..], a[0].owner) > limit then [] else [a[0]]) + rest;
      assert forall x :: x in a[1..] ==> x in a;
    }
  }

  lemma ConsOrdered(r: Row, t: Table)
    requires Ordered(t) && forall x :: x in t ==> r.ts <= x.ts && r.id != x.id
    ensures Ordered([r] + t)
  {
  }

  lemma HeadFirst(t: Table)
    requires Ordered(t) && t != []
    ensures forall x :: x in t[1..] ==> x in t && t[0].ts <= x.ts && t[0].id != x.id
  {
  }

  lemma {:induction false} OwnerTrimOrdered(t: Table, limit: nat)
    requires Ordered(t)
    ensures Ordered(OwnerTrim(t, limit))
    ensures forall r :: r in OwnerTrim(t, limit) ==> r in t
    decreases t
  {
    if t != [] {
      var rest := OwnerTrim(t[1..], limit);
      SuffixOrdered(t, 1);
      OwnerTrimOrdered(t[1..], limit);
      HeadFirst(t);
      ConsOrdered(t[0], rest);
      assert [] + rest == rest;
    }
  }

  /** Age deletion of a trimmed table drops all that trimming left of the older part. */
  lemma TrimThenAge(older: Table, newer: Table, cutoff: int, limit: nat)
    requires Ordered(newer)
    requires forall i :: 0 <= i < |older| ==> older[i].ts < cutoff
    requires forall i :: 0 <= i < |newer| ==> newer[i].ts >= cutoff
    ensures DeleteOlderThan(OwnerTrim(older + newer, limit), cutoff) == OwnerTrim(newer, limit)
  {
    var kept := OwnerTrimConcat(older, newer, limit);
    var rest := OwnerTrim(newer, limit);
    assert forall i :: 0 <= i < |rest| ==> rest[i].ts >= cutoff by {
      OwnerTrimOrdered(newer, limit);
      assert forall i :: 0 <= i < |rest| ==> rest[i] in newer;
    }
    OlderThanConcat(kept, rest, cutoff);
  }

  lemma AgeParts(t: Table, cutoff: int) returns (older: Table, newer: Table)
    requires Ordered(t)
    ensures t == older + newer && DeleteOlderThan(t, cutoff) == newer && Ordered(newer)
    ensures forall i :: 0 <= i < |older| ==> older[i].ts < cutoff
    ensures forall i :: 0 <= i < |newer| ==> newer[i].ts >= cutoff
  {
    var k := Cut(t, cutoff);
    older, newer := t[..k], t[k..];
    CutSplits(t, cutoff);
    AgeKeepsSuffix(t, cutoff);
    SuffixOrdered(t, k);
  }

  /** For traffic_samples too, age deletion and per-device trimming commute. */
  lemma AgeAndOwnerTrimCommute(t: Table, cutoff: int, limit: nat)
    requires Ordered(t)
    ensures DeleteBeyondOwnerLimit(DeleteOlderThan(t, cutoff), limit) ==
            DeleteOlderThan(DeleteBeyondOwnerLimit(t, limit), cutoff)
  {
    var older, newer := AgeParts(t, cutoff);
    OwnerTrimmed(t, limit);
    OwnerTrimmed(newer, limit);
    TrimThenAge(older, newer, cutoff, limit);
  }

  lemma {:induction false} OwnerTrimIdempotent(t: Table, limit: nat)
    ensures OwnerTrim(OwnerTrim(t, limit), limit) == OwnerTrim(t, limit)
    decreases t
  {
    if t != [] {
      OwnerTrimIdempotent(t[1..], limit);
      var rest := OwnerTrim(t[1..], limit);
      if 1 + Count(t[1..], t[0].owner) > limit {
        assert OwnerTrim(t, limit) == rest;
      } else {
        OwnerTrimKeepsNewest(t[1..], limit, t[0].owner);
        assert |OwnedBy(rest, t[0].owner)| == |OwnedBy(t[1..], t[0].owner)|;
        var all := [t[0]] + rest;
        assert OwnerTrim(t, limit) == all;
        assert all[1..] == rest && all[0] == t[0];
      }
    }
  }

  /** Retention of traffic_samples as one pass. */
  function TrafficPass(t: Table, cutoff: int, limit: nat): Table {
    DeleteBeyondOwnerLimit(DeleteOlderThan(t, cutoff), limit)
  }

  /** Per device, the survivors are exactly its newest `limit` rows at or after the cutoff; a second pass removes nothing. */
  lemma TrafficPassSurvivors(t: Table, cutoff: int, limit: nat, owner: string)
    requires Ordered(t)
    ensures OwnedBy(TrafficPass(t, cutoff, limit), owner) == LastN(OwnedBy(t[Cut(t, cutoff)..], owner), limit)
    ensures TrafficPass(TrafficPass(t, cutoff, limit), cutoff, limit) == TrafficPass(t, cutoff, limit)
  {
    var newer := t[Cut(t, cutoff)..];
    AgeKeepsSuffix(t, cutoff);
    CutSplits(t, cutoff);
    SuffixOrdered(t, Cut(t, cutoff));
    OwnerTrimmed(newer, limit);
    OwnerTrimKeepsNewest(newer, limit, owner);
    OwnerTrimOrdered(newer, limit);
    var kept := OwnerTrim(newer, limit);
    assert forall i :: 0 <= i < |kept| ==> kept[i] in newer;
    NoneOlder(kept, cutoff);
    OwnerTrimmed(kept, limit);
    OwnerTrimIdempotent(newer, limit);
  }

  // ---------- size cap ----------

  /** Pruning drops the oldest rows and leaves a newest-suffix. */
  lemma PruneKeepsSuffix(t: Table, limit: nat)
    requires Ordered(t)
    ensures PruneOldRows(t, limit) == Drop(t, limit) && Ordered(Drop(t, limit))
  {
    var k := if limit < |t| then limit else |t|;
    DeletePrefix(t, k);
    SuffixOrdered(t, k);
  }

  /** All but the oldest n rows. */
  function Drop(t: Table, n: nat): Table {
    if n < |t| then t[n..] else []
  }

  lemma DropMore(t: Table, m: nat, n: nat)
    ensures Drop(Drop(t, m), n) == Drop(t, m + n)
  {
    if m + n < |t| { assert t[m..][n..] == t[m + n..]; }
  }

  lemma PruneStep(start: Table, t: Table, step: nat, rounds: nat)
    requires Ordered(t) && t == Drop(start, step * rounds)
    ensures PruneOldRows(t, step) == Drop(start, step * (rounds + 1)) && Ordered(PruneOldRows(t, step))
  {
    PruneKeepsSuffix(t, step);
    DropMore(start, step * rounds, step);
    assert step * (rounds + 1) == step * rounds + step;
  }

  // ---------- the pass over all tables ----------

  /** std::max(1, n) */
  function AtLeastOne(n: int): (m: nat)
    ensures m >= 1 && m >= n && (m == 1 || m == n)
  {
    if n < 1 then 1 else n
  }

  class Tables {
    var events: Table
    var wanAttacks: Table
    var traffic: Table

    ghost predicate Valid()
      reads this
    {
      Ordered(events) && Ordered(wanAttacks) && Ordered(traffic)
    }

    /** applyRetention: `size` gives the database size at each of its measurements. */
    method ApplyRetention(now: int, days: int, maxEvents: nat, maxAttacks: nat, maxPoints: nat,
                          maxMb: int, size: nat -> int) returns (ghost rounds: nat)
      requires Valid()
      modifies this
      ensures Valid() && rounds <= 12
      ensures var cutoff := UnixSeconds(now - (if days < 1 then 1 else days) * 86400 * SECOND);
              && events == Drop(Pass(old(events), cutoff, if maxEvents == 0 then 1 else maxEvents), 250 * rounds)
              && wanAttacks == Drop(Pass(old(wanAttacks), cutoff, if maxAttacks == 0 then 1 else maxAttacks), 250 * rounds)
              && traffic == Drop(TrafficPass(old(traffic), cutoff, if maxPoints == 0 then 1 else maxPoints), 1000 * rounds)
      ensures var maxBytes := (if maxMb < 1 then 1 else maxMb) * 1048576;
              && (size(0) <= maxBytes ==> rounds == 0)
              && (forall r :: 1 <= r <= rounds ==> size(r) > maxBytes)
              && (size(0) > maxBytes && rounds < 12 ==> size(rounds + 1) <= maxBytes)
    {
      var cutoff := UnixSeconds(now - AtLeastOne(days) * 86400 * SECOND);
      DeleteRows(cutoff, AtLeastOne(maxEvents), AtLeastOne(maxAttacks), AtLeastOne(maxPoints));
      rounds := EnforceSizeLimit(AtLeastOne(maxMb) * 1048576, size);
    }

    /** The statements that delete by age and by count. */
    method DeleteRows(cutoff: int, maxEvents: nat, maxAttacks: nat, maxPoints: nat)
      requires Valid()
      modifies this
      ensures Valid()
      ensures events == Pass(old(events), cutoff, maxEvents) && wanAttacks == Pass(old(wanAttacks), cutoff, maxAttacks)
      ensures traffic == TrafficPass(old(traffic), cutoff, maxPoints)
    {
      PassSurvivors(events, cutoff, maxEvents);
      PassSurvivors(wanAttacks, cutoff, maxAttacks);
      AgeKeepsSuffix(traffic, cutoff);
      SuffixOrdered(traffic, Cut(traffic, cutoff));
      OwnerTrimmed(DeleteOlderThan(traffic, cutoff), maxPoints);
      OwnerTrimOrdered(DeleteOlderThan(traffic, cutoff), maxPoints);
      events := DeleteOlderThan(events, cutoff);
      wanAttacks := DeleteOlderThan(wanAttacks, cutoff);
      traffic := DeleteOlderThan(traffic, cutoff);
      events := DeleteBeyondLimit(events, maxEvents);
      wanAttacks := DeleteBeyondLimit(wanAttacks, maxAttacks);
      traffic := DeleteBeyondOwnerLimit(traffic, maxPoints);
    }

    method EnforceSizeLimit(maxBytes: int, size: nat -> int) returns (ghost rounds: nat)
      requires Valid()
      modifies this
      ensures Valid() && rounds <= 12
      ensures events == Drop(old(events), 250 * rounds) && wanAttacks == Drop(old(wanAttacks), 250 * rounds)
      ensures traffic == Drop(old(traffic), 1000 * rounds)
      ensures size(0) <= maxBytes ==> rounds == 0
      ensures forall r :: 1 <= r <= rounds ==> size(r) > maxBytes
      ensures size(0) > maxBytes && rounds < 12 ==> size(rounds + 1) <= maxBytes
    {
      rounds := 0;
      if size(0) <= maxBytes {
        return;
      }
      ghost var start := (traffic, events, wanAttacks);
      var round := 0;
      assert Pruned(start, 0);
      while round < 12 && size(round + 1) > maxBytes
        invariant 0 <= round <= 12 && Valid() && Pruned(start, round)
        invariant forall r :: 1 <= r <= round ==> size(r) > maxBytes
      {
        PruneRound(start, round);
        round := round + 1;
      }
      rounds := round;
    }

    /** The tables after some size-cap rounds. */
    ghost predicate Pruned(start: (Table, Table, Table), rounds: nat)
      reads this
    {
      traffic == Drop(start.0, 1000 * rounds) && events == Drop(start.1, 250 * rounds) && wanAttacks == Drop(start.2, 250 * rounds)
    }

    method PruneRound(ghost start: (Table, Table, Table), ghost rounds: nat)
      requires Valid() && Pruned(start, rounds)
      modifies this
      ensures Valid() && Pruned(start, rounds + 1)
    {
      PruneStep(start.0, traffic, 1000, rounds);
      PruneStep(start.1, events, 250, rounds);
      PruneStep(start.2, wanAttacks, 250, rounds);
      traffic := PruneOldRows(traffic, 1000);
      events := PruneOldRows(events, 250);
      wanAttacks := PruneOldRows(wanAttacks, 250);
    }
  }
}
