/** The ids of events: how they are numbered, and exactly when the ids in a log are distinct. */
module EventIds {
  import opened Sequences
  import opened Telemetry

  function Decimal(n: nat): string {
    if n < 10 then [('0' as int + n) as char] else Decimal(n / 10) + [('0' as int + n % 10) as char]
  }

  /** The number a decimal text denotes. */
  function NumberOf(s: string): int {
    if s == "" then 0 else 10 * NumberOf(s[..|s| - 1]) + s[|s| - 1] as int - '0' as int
  }

  lemma {:induction false} DecimalReads(n: nat)
    ensures NumberOf(Decimal(n)) == n
  {
    var last := [('0' as int + n % 10) as char];
    if n < 10 {
      assert Decimal(n)[..0] == "";
    } else {
      DecimalReads(n / 10);
      assert (Decimal(n / 10) + last)[..|Decimal(n / 10)|] == Decimal(n / 10);
    }
  }

  /** Digits only, and no leading zero. */
  lemma {:induction false} DecimalPlain(n: nat)
    ensures var s := Decimal(n);
            s != "" && (forall k :: 0 <= k < |s| ==> '0' <= s[k] <= '9') && (s[0] == '0' ==> s == "0")
  {
    if n >= 10 {
      DecimalPlain(n / 10);
      DecimalReads(n / 10);
    }
  }

  /** The n-th id of nextEventId. */
  function EventId(n: nat): string {
    "evt-" + Decimal(n)
  }

  lemma EventIdInjective(m: nat, n: nat)
    ensures EventId(m) == EventId(n) <==> m == n
  {
    assert EventId(m)[4..] == Decimal(m) && EventId(n)[4..] == Decimal(n);
    DecimalReads(m);
    DecimalReads(n);
  }

  // ---------- ids in a log ----------

  function Ids(log: seq<Event>): (r: seq<string>)
    ensures |r| == |log| && forall i :: 0 <= i < |log| ==> r[i] == log[i].id
  {
    seq(|log|, i requires 0 <= i < |log| => log[i].id)
  }

  lemma IdsSnoc(log: seq<Event>, e: Event)
    ensures Ids(log + [e]) == Ids(log) + [e.id]
  {
  }

  lemma IdsTake(log: seq<Event>, i: nat)
    requires i < |log|
    ensures Ids(log[..i + 1]) == Ids(log[..i]) + [log[i].id]
  {
    SliceSnoc(log, 0, i);
    IdsSnoc(log[..i], log[i]);
  }

  /** Where each event of a log has its id from: None if the caller gave one of its own, or the number, up to n, that it was
      generated from. No number is used twice; a number may go unused. */
  ghost predicate Numbered(log: seq<Event>, origins: seq<Option<nat>>, n: nat) {
    && |origins| == |log|
    && (forall i :: 0 <= i < |log| && origins[i].Some? ==>
          1 <= origins[i].value <= n && log[i].id == EventId(origins[i].value))
    && (forall i, j :: 0 <= i < j < |log| && origins[i].Some? && origins[j].Some? ==> origins[i].value != origins[j].value)
  }

  /** What the caller may say of the id of an event it pushes: its own, or one generated before and not used since. */
  ghost predicate Sound(origin: Option<nat>, e: Event, origins: seq<Option<nat>>, n: nat) {
    origin.Some? ==> 1 <= origin.value <= n && e.id == EventId(origin.value) && origin !in origins
  }

  lemma NumberTaken(log: seq<Event>, origins: seq<Option<nat>>, n: nat)
    requires Numbered(log, origins, n)
    ensures Numbered(log, origins, n + 1) && Some(n + 1) !in origins
  {
  }

  lemma NumberedPush(log: seq<Event>, origins: seq<Option<nat>>, n: nat, e: Event, origin: Option<nat>)
    requires Numbered(log, origins, n) && Sound(origin, e, origins, n)
    ensures Numbered(log + [e], origins + [origin], n)
  {
  }

  lemma NumberedGenerated(log: seq<Event>, origins: seq<Option<nat>>, n: nat, e: Event)
    requires Numbered(log, origins, n) && e.id == EventId(n + 1)
    ensures Numbered(log + [e], origins + [Some(n + 1)], n + 1)
  {
    NumberTaken(log, origins, n);
    NumberedPush(log, origins, n + 1, e, Some(n + 1));
  }

  /** The ids that callers gave of their own are pairwise distinct. */
  predicate SuppliedDistinct(log: seq<Event>, origins: seq<Option<nat>>)
    requires |origins| == |log|
  {
    forall i, j :: 0 <= i < j < |log| && origins[i].None? && origins[j].None? ==> log[i].id != log[j].id
  }

  /** None of them is an id generated for an event of the log. */
  predicate NoneTaken(log: seq<Event>, origins: seq<Option<nat>>)
    requires |origins| == |log|
  {
    forall i, j :: 0 <= i < |log| && 0 <= j < |log| && origins[i].None? && origins[j].Some? ==>
                     log[i].id != EventId(origins[j].value)
  }

  /** Over the whole life of a log, whatever the order of the calls: its ids are pairwise distinct exactly when those given
      by callers are, and none of them was generated for an event of the log. */
  lemma IdsDistinctIff(log: seq<Event>, origins: seq<Option<nat>>, n: nat)
    requires Numbered(log, origins, n)
    ensures Distinct(Ids(log)) <==> SuppliedDistinct(log, origins) && NoneTaken(log, origins)
  {
    if SuppliedDistinct(log, origins) && NoneTaken(log, origins) {
      forall i, j | 0 <= i < j < |log|
        ensures log[i].id != log[j].id
      {
        if origins[i].Some? && origins[j].Some? { EventIdInjective(origins[i].value, origins[j].value); }
      }
    }
    if Distinct(Ids(log)) {
      forall i, j | 0 <= i < |log| && 0 <= j < |log| && i != j
        ensures log[i].id != log[j].id
      {
        assert Ids(log)[if i < j then i else j] != Ids(log)[if i < j then j else i];
      }
    }
  }

  // ---------- ids taken line by line ----------

  /** The ids of the lines that push an event, each line having taken the next number. */
  function UsedIds(pushes: seq<bool>): seq<string> {
    if pushes == [] then []
    else
      var n := |pushes| - 1;
      UsedIds(pushes[..n]) + if pushes[n] then [EventId(n + 1)] else []
  }

  lemma {:induction false} InUsed(pushes: seq<bool>, id: string)
    ensures id in UsedIds(pushes) <==> exists k: nat :: k < |pushes| && pushes[k] && id == EventId(k + 1)
    decreases pushes
  {
    if pushes != [] {
      var n := |pushes| - 1;
      InUsed(pushes[..n], id);
      assert forall k: nat :: k < n ==> pushes[..n][k] == pushes[k];
      if k: nat :| k < |pushes| && pushes[k] && id == EventId(k + 1) {
        if k < n { assert pushes[..n][k]; }
      }
    }
  }

  lemma {:induction false} UsedDistinct(pushes: seq<bool>)
    ensures Distinct(UsedIds(pushes))
    decreases pushes
  {
    if pushes != [] {
      var n := |pushes| - 1;
      UsedDistinct(pushes[..n]);
      DistinctConcat(UsedIds(pushes[..n]), if pushes[n] then [EventId(n + 1)] else []);
      InUsed(pushes[..n], EventId(n + 1));
      forall m: nat | 1 <= m <= n
        ensures EventId(n + 1) != EventId(m)
      {
        EventIdInjective(n + 1, m);
      }
    }
  }

  /** Loaded ids, followed by those of the lines that push an event: exactly when none repeats. */
  lemma UsedDistinctIff(loaded: seq<string>, pushes: seq<bool>)
    ensures Distinct(loaded + UsedIds(pushes)) <==>
            Distinct(loaded) && forall k: nat :: k < |pushes| && pushes[k] ==> EventId(k + 1) !in loaded
  {
    DistinctConcat(loaded, UsedIds(pushes));
    UsedDistinct(pushes);
    forall k: nat | k < |pushes| && pushes[k]
      ensures EventId(k + 1) in UsedIds(pushes)
    {
      InUsed(pushes, EventId(k + 1));
    }
    forall id | id in UsedIds(pushes)
      ensures exists k: nat :: k < |pushes| && pushes[k] && id == EventId(k + 1)
    {
      InUsed(pushes, id);
    }
  }
}
