/** The dashboard's five-minute attack count, taken from a bounded buffer. */
module AttackWindow {
  import opened RingBuffer
  import opened Sequences
  import opened Telemetry

  function CountSince(attacks: seq<Attack>, start: int): nat {
    if attacks == [] then 0
    else CountSince(attacks[..|attacks| - 1], start) + if attacks[|attacks| - 1].ts >= start then 1 else 0
  }

  predicate InOrder(attacks: seq<Attack>) {
    forall i, j :: 0 <= i < j < |attacks| ==> attacks[i].ts <= attacks[j].ts
  }

  lemma {:induction false} CountBounded(attacks: seq<Attack>, start: int)
    ensures CountSince(attacks, start) <= |attacks|
  {
    if attacks != [] { CountBounded(attacks[..|attacks| - 1], start); }
  }

  lemma {:induction false} CountConcat(a: seq<Attack>, b: seq<Attack>, start: int)
    ensures CountSince(a + b, start) == CountSince(a, start) + CountSince(b, start)
  {
    if b == [] {
      assert a + b == a;
    } else {
      CountConcat(a, b[..|b| - 1], start);
      assert (a + b)[..|a + b| - 1] == a + b[..|b| - 1];
    }
  }

  predicate AllSince(attacks: seq<Attack>, start: int) {
    forall i :: 0 <= i < |attacks| ==> attacks[i].ts >= start
  }

  predicate AllBefore(attacks: seq<Attack>, start: int) {
    forall i :: 0 <= i < |attacks| ==> attacks[i].ts < start
  }

  lemma {:induction false} CountAll(attacks: seq<Attack>, start: int)
    ensures CountSince(attacks, start) == |attacks| <==> AllSince(attacks, start)
  {
    if attacks != [] {
      CountAll(attacks[..|attacks| - 1], start);
      CountBounded(attacks[..|attacks| - 1], start);
    }
  }

  lemma {:induction false} CountNone(attacks: seq<Attack>, start: int)
    ensures CountSince(attacks, start) == 0 <==> AllBefore(attacks, start)
  {
    if attacks != [] { CountNone(attacks[..|attacks| - 1], start); }
  }

  lemma CountOfKept(dropped: seq<Attack>, kept: seq<Attack>, start: int)
    requires InOrder(dropped + kept)
    ensures AllBefore(dropped, start) || AllSince(kept, start)
  {
    var n := |dropped|;
    if n == 0 || dropped[n - 1].ts < start {
      assert forall i :: 0 <= i < n ==> dropped[i] == (dropped + kept)[i];
    } else {
      assert (dropped + kept)[n - 1] == dropped[n - 1];
      assert forall i :: 0 <= i < |kept| ==> kept[i] == (dropped + kept)[n + i];
    }
  }

  function Capped(count: nat, capacity: nat): nat {
    if count <= capacity then count else capacity
  }

  /** What a buffer of this capacity has lost of a history. */
  function Dropped(history: seq<Attack>, capacity: nat): seq<Attack> {
    history[..|history| - |LastN(history, capacity)|]
  }

  /** The buffered count is the capped true count exactly when nothing dropped is inside the window, or everything kept is. */
  lemma BufferCountExact(history: seq<Attack>, capacity: nat, start: int)
    ensures var dropped, kept := Dropped(history, capacity), LastN(history, capacity);
            CountSince(kept, start) == Capped(CountSince(history, start), capacity) <==>
            AllBefore(dropped, start) || AllSince(kept, start)
  {
    var dropped, kept := Dropped(history, capacity), LastN(history, capacity);
    LastNIsSuffix(history, capacity);
    assert history == dropped + kept;
    CountConcat(dropped, kept, start);
    CountBounded(kept, start);
    CountNone(dropped, start);
    CountAll(kept, start);
  }

  /** If attacks arrive in time order, the buffer undercounts only by saturating at its capacity. */
  lemma BufferCountSaturates(history: seq<Attack>, capacity: nat, start: int)
    requires InOrder(history)
    ensures CountSince(LastN(history, capacity), start) == Capped(CountSince(history, start), capacity)
  {
    LastNIsSuffix(history, capacity);
    assert history == Dropped(history, capacity) + LastN(history, capacity);
    CountOfKept(Dropped(history, capacity), LastN(history, capacity), start);
    BufferCountExact(history, capacity, start);
  }

  /** Out of time order the buffer can forget an attack that is still inside the window. */
  lemma OutOfOrderUndercounts(a: Attack, b: Attack, start: int)
    requires b.ts < start <= a.ts
    ensures CountSince(LastN([a, b], 1), start) == 0 && CountSince([a, b], start) == 1
  {
    assert LastN([a, b], 1) == [b];
    assert [a, b][..1] == [a] && [a][..0] == [] && [b][..0] == [];
  }

  /** The counting loop of summary. */
  method CountRecent(attacks: RingBuffer<Attack>, now: int) returns (count: nat)
    requires attacks.Valid()
    ensures count == CountSince(attacks.items, now - 300 * SECOND)
    ensures var start := now - 300 * SECOND;
            count == Capped(CountSince(attacks.history, start), attacks.capacity) <==>
            AllBefore(Dropped(attacks.history, attacks.capacity), start) || AllSince(attacks.items, start)
    ensures InOrder(attacks.history) ==> count == Capped(CountSince(attacks.history, now - 300 * SECOND), attacks.capacity)
  {
    var start := now - 300 * SECOND;
    count := 0;
    for i := 0 to |attacks.items|
      invariant count == CountSince(attacks.items[..i], start)
    {
      assert attacks.items[..i + 1][..i] == attacks.items[..i];
      if attacks.items[i].ts >= start {
        count := count + 1;
      }
    }
    assert attacks.items[..|attacks.items|] == attacks.items;
    BufferCountExact(attacks.history, attacks.capacity, start);
    if InOrder(attacks.history) {
      BufferCountSaturates(attacks.history, attacks.capacity, start);
    }
  }
}
