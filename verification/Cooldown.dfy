/**
 The per-(rule, channel) cooldown table of the alerting watcher
 (internal/alerting/cooldown.go).

 Instants and durations are integers counting nanoseconds.  The table forgets:
 every watcher tick evicts entries that are too old and entries of rules that
 are no longer listed.  The point of this module is that the forgetting cannot
 be observed, and exactly when.
 */
module Cooldown {
  import opened Options

  const SECOND: int := 1_000_000_000
  const EVICTION_FLOOR: int := 86_400 * SECOND

  const MIN_DURATION: int := -0x8000_0000_0000_0000
  const MAX_DURATION: int := 0x7FFF_FFFF_FFFF_FFFF

  datatype Key = Key(rule: string, channel: string)
  type Table = map<Key, int>

  /** The elapsed time between two instants, saturating at the int64 bounds. */
  function Elapsed(since: int, now: int): (d: int)
    ensures MIN_DURATION <= d <= MAX_DURATION
    ensures d < EVICTION_FLOOR <==> now - since < EVICTION_FLOOR
  {
    if now - since < MIN_DURATION then MIN_DURATION
    else if now - since > MAX_DURATION then MAX_DURATION
    else now - since
  }

  /** An entry outlives an eviction at `now` when it is young and its rule is kept. */
  predicate Survives(k: Key, firedAt: int, keep: Option<set<string>>, now: int) {
    && Elapsed(firedAt, now) < EVICTION_FLOOR
    && (keep.Some? ==> k.rule in keep.value)
  }

  function Evict(t: Table, keep: Option<set<string>>, now: int): Table {
    map k | k in t && Survives(k, t[k], keep, now) :: t[k]
  }

  /** Whether the pair `k` is inside its cooldown window. */
  predicate Hot(t: Table, k: Key, cooldown: int, now: int) {
    k in t && Elapsed(t[k], now) < cooldown
  }

  class CooldownLRU {
    var entries: Table

    constructor ()
      ensures entries == map[]
    {
      entries := map[];
    }

    method OnCooldown(k: Key, cooldown: int, now: int) returns (hot: bool)
      ensures hot <==> Hot(entries, k, cooldown, now)
    {
      if k !in entries {
        return false;
      }
      return Elapsed(entries[k], now) < cooldown;
    }

    method Mark(k: Key, now: int)
      modifies this
      ensures entries == old(entries)[k := now]
    {
      entries := entries[k := now];
    }

    /** Visits the entries in an arbitrary order, as a Go map iteration does. */
    method EvictStale(keep: Option<set<string>>, now: int) returns (evicted: nat)
      modifies this
      ensures entries == Evict(old(entries), keep, now)
      ensures evicted == |old(entries)| - |entries|
    {
      evicted := 0;
      var unvisited := entries.Keys;
      while unvisited != {}
        invariant unvisited <= entries.Keys <= old(entries).Keys
        invariant forall k :: k in entries ==> entries[k] == old(entries)[k]
        invariant forall k :: k in old(entries) && k !in unvisited ==>
          (k in entries <==> Survives(k, old(entries)[k], keep, now))
        invariant evicted == |old(entries)| - |entries|
        decreases unvisited
      {
        var k :| k in unvisited;
        unvisited := unvisited - {k};
        if Elapsed(entries[k], now) >= EVICTION_FLOOR || (keep.Some? && k.rule !in keep.value) {
          assert |entries.Keys - {k}| == |entries| - 1;
          var rest := entries - {k};
          assert rest.Keys == entries.Keys - {k};
          entries := rest;
          evicted := evicted + 1;
        }
      }
    }
  }

  // ---------------------------------------------------------------------
  // Histories of calls, run on the evicting table and on one that never
  // forgets.
  // ---------------------------------------------------------------------

  datatype Call =
    | Mark(key: Key, at: int)
    | EvictStale(keep: Option<set<string>>, at: int)
    | OnCooldown(key: Key, cooldown: int, at: int)

  /** The evicting table after `calls`. */
  function Forgetful(calls: seq<Call>): Table {
    if calls == [] then map[] else
    var t := Forgetful(calls[..|calls| - 1]);
    match calls[|calls| - 1]
    case Mark(k, at) => t[k := at]
    case EvictStale(keep, at) => Evict(t, keep, at)
    case OnCooldown(_, _, _) => t
  }

  /** The reference: when each pair last fired, with nothing ever dropped. */
  function Perfect(calls: seq<Call>): Table {
    if calls == [] then map[] else
    var t := Perfect(calls[..|calls| - 1]);
    match calls[|calls| - 1]
    case Mark(k, at) => t[k := at]
    case _ => t
  }

  /** The answers given to the `OnCooldown` calls of a history. */
  function Answers(calls: seq<Call>, forgetful: bool): seq<bool> {
    if calls == [] then [] else
    var before := calls[..|calls| - 1];
    match calls[|calls| - 1]
    case OnCooldown(k, cd, at) =>
      Answers(before, forgetful) + [Hot(if forgetful then Forgetful(before) else Perfect(before), k, cd, at)]
    case _ => Answers(before, forgetful)
  }

  ghost predicate Monotone(calls: seq<Call>) {
    forall i, j :: 0 <= i < j < |calls| ==> calls[i].at <= calls[j].at
  }

  ghost predicate Until(calls: seq<Call>, now: int) {
    forall i :: 0 <= i < |calls| ==> calls[i].at <= now
  }

  /** Every eviction of the history lists `rule`. */
  ghost predicate Keeps(calls: seq<Call>, rule: string) {
    forall i :: 0 <= i < |calls| && calls[i].EvictStale? && calls[i].keep.Some? ==> rule in calls[i].keep.value
  }

  /** Some eviction since the last mark of `k` removed it. */
  predicate Dropped(calls: seq<Call>, k: Key) {
    calls != [] &&
    var before := calls[..|calls| - 1];
    match calls[|calls| - 1]
    case Mark(k', _) => k' != k && Dropped(before, k)
    case EvictStale(keep, at) =>
      || Dropped(before, k)
      || (k in Perfect(before) && !Survives(k, Perfect(before)[k], keep, at))
    case OnCooldown(_, _, _) => Dropped(before, k)
  }

  /** What the evicting table holds, in terms of the history alone. */
  lemma {:induction false} ForgetfulHolds(calls: seq<Call>, k: Key)
    ensures k in Forgetful(calls) <==> k in Perfect(calls) && !Dropped(calls, k)
    ensures k in Forgetful(calls) ==> Forgetful(calls)[k] == Perfect(calls)[k]
  {
    if calls != [] {
      ForgetfulHolds(calls[..|calls| - 1], k);
    }
  }

  /** A drop of a kept rule's entry only ever happens at an age of at least the floor. */
  lemma {:induction false} DroppedIsOld(calls: seq<Call>, k: Key, now: int)
    requires Monotone(calls) && Keeps(calls, k.rule) && Dropped(calls, k)
    requires Until(calls, now)
    ensures k in Perfect(calls) && Elapsed(Perfect(calls)[k], now) >= EVICTION_FLOOR
  {
    var before := calls[..|calls| - 1];
    if Dropped(before, k) {
      DroppedIsOld(before, k, now);
    }
  }

  /** One query at the end of a history. */
  lemma QueryUnaffected(calls: seq<Call>, k: Key, cooldown: int, now: int)
    requires Monotone(calls) && Keeps(calls, k.rule)
    requires Until(calls, now)
    requires cooldown <= EVICTION_FLOOR
    ensures Hot(Forgetful(calls), k, cooldown, now) <==> Hot(Perfect(calls), k, cooldown, now)
  {
    ForgetfulHolds(calls, k);
    if Dropped(calls, k) {
      DroppedIsOld(calls, k, now);
    }
  }

  /** The cooldowns for which eviction stays invisible in every history. */
  ghost predicate LegalQueries(calls: seq<Call>) {
    forall i :: 0 <= i < |calls| && calls[i].OnCooldown? ==>
      calls[i].cooldown <= EVICTION_FLOOR && Keeps(calls[..i], calls[i].key.rule)
  }

  /** The evicting table answers every query like the one that never forgets. */
  lemma {:induction false} EvictionUnobservable(calls: seq<Call>)
    requires Monotone(calls) && LegalQueries(calls)
    ensures Answers(calls, true) == Answers(calls, false)
  {
    if calls != [] {
      var n := |calls| - 1;
      var before := calls[..n];
      forall i | 0 <= i < n && before[i].OnCooldown?
        ensures before[i].cooldown <= EVICTION_FLOOR && Keeps(before[..i], before[i].key.rule)
      {
        assert before[i] == calls[i] && before[..i] == calls[..i];
      }
      EvictionUnobservable(before);
      if calls[n].OnCooldown? {
        QueryUnaffected(before, calls[n].key, calls[n].cooldown, calls[n].at);
      }
    }
  }

  /**
   The eviction floor is the largest cooldown it works for: the answers agree on
   every history exactly when the cooldown does not exceed the floor.
   */
  lemma FloorIsTight(k: Key, cooldown: int)
    requires cooldown <= MAX_DURATION
    ensures cooldown <= EVICTION_FLOOR <==>
      forall calls: seq<Call>, now: int ::
        Monotone(calls) && Keeps(calls, k.rule) && Until(calls, now) ==>
          (Hot(Forgetful(calls), k, cooldown, now) <==> Hot(Perfect(calls), k, cooldown, now))
  {
    if cooldown <= EVICTION_FLOOR {
      forall calls: seq<Call>, now: int | Monotone(calls) && Keeps(calls, k.rule) && Until(calls, now)
        ensures Hot(Forgetful(calls), k, cooldown, now) <==> Hot(Perfect(calls), k, cooldown, now)
      {
        QueryUnaffected(calls, k, cooldown, now);
      }
    } else {
      var marked := [Mark(k, 0)];
      var calls := marked + [EvictStale(None, EVICTION_FLOOR)];
      assert marked[..0] == [] && calls[..1] == marked;
      assert Perfect(marked) == Forgetful(marked) == map[k := 0];
      assert Perfect(calls) == map[k := 0] && k !in Forgetful(calls);
      assert Hot(Perfect(calls), k, cooldown, EVICTION_FLOOR);
      assert !Hot(Forgetful(calls), k, cooldown, EVICTION_FLOOR);
    }
  }
}
