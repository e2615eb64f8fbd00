/**
 Grouping CrowdSec alerts by scenario (internal/api/crowdsec_scenarios.go): one pass
 into a map of accumulators, then rows sorted by count and name, so that the map's
 iteration order does not show.
 */
module Scenarios {
  import opened Options
  import opened Strings
  import Sorting

  datatype Source = Source(scope: Text, value: Text, ip: Text)

  /** Times are instants after the zero time; 0 stands for a time that is absent or does not parse. */
  datatype Alert = Alert(scenario: Text, startAt: nat, createdAt: nat, source: Option<Source>)

  datatype Acc = Acc(count: nat, last: nat, scope: Text, value: Text)
  datatype Row = Row(name: Text, count: nat, last: nat, scope: Text, value: Text)

  const UNKNOWN: Text := "(unknown)"

  function NameOf(a: Alert): Text {
    if a.scenario == "" then UNKNOWN else a.scenario
  }

  function TimeOf(a: Alert): nat {
    if a.startAt != 0 then a.startAt else a.createdAt
  }

  function SampleValue(s: Source): Text {
    if s.value == "" then s.ip else s.value
  }

  const EMPTY := Acc(0, 0, "", "")

  function Absorb(b: Acc, a: Alert): Acc {
    var counted := b.(count := b.count + 1);
    if TimeOf(a) <= b.last then counted
    else if a.source.None? then counted.(last := TimeOf(a))
    else Acc(b.count + 1, TimeOf(a), a.source.value.scope, SampleValue(a.source.value))
  }

  /** What the pass has gathered for one name. */
  function Gathered(alerts: seq<Alert>, name: Text): Acc {
    if alerts == [] then EMPTY
    else
      var n := |alerts| - 1;
      var b := Gathered(alerts[..n], name);
      if NameOf(alerts[n]) == name then Absorb(b, alerts[n]) else b
  }

  predicate InGroup(alerts: seq<Alert>, name: Text, i: nat) {
    i < |alerts| && NameOf(alerts[i]) == name
  }

  ghost predicate Named(alerts: seq<Alert>, name: Text) {
    exists i: nat :: InGroup(alerts, name, i)
  }

  function RowOf(alerts: seq<Alert>, name: Text): Row {
    var b := Gathered(alerts, name);
    Row(name, b.count, b.last, b.scope, b.value)
  }

  /** More alerts first, then by name. */
  predicate RowLess(r: Row, s: Row) {
    r.count > s.count || (r.count == s.count && Sorting.TextLess(r.name, s.name))
  }

  // ---------------------------------------------------------------------
  // What a group's row means
  // ---------------------------------------------------------------------

  function Members(alerts: seq<Alert>, name: Text): (s: set<nat>) {
    set i: nat | i < |alerts| && NameOf(alerts[i]) == name
  }

  /** The row of one alert: its name, its start or else its creation, its source's scope and value or else address. */
  lemma SingleAlert(a: Alert)
    ensures var name := if a.scenario == "" then "(unknown)" else a.scenario;
            var at := if a.startAt > 0 then a.startAt else a.createdAt;
            var sampled := at > 0 && a.source.Some?;
            && NameOf(a) == name && TimeOf(a) == at
            && RowOf([a], name) == Row(name, 1, at, if sampled then a.source.value.scope else "",
                                       if !sampled then "" else if a.source.value.value != "" then a.source.value.value
                                       else a.source.value.ip)
  {
    assert [a][..0] == [];
    assert Gathered([a], NameOf(a)) == Absorb(EMPTY, a);
  }

  lemma MembersPrefix(alerts: seq<Alert>, n: nat, name: Text)
    requires |alerts| == n + 1
    ensures Members(alerts[..n], name) == Members(alerts, name) - {n}
  {
    assert forall i: nat :: i < n ==> alerts[..n][i] == alerts[i];
  }

  lemma MembersGrow(alerts: seq<Alert>, n: nat, name: Text)
    requires |alerts| == n + 1
    ensures |Members(alerts, name)| == |Members(alerts[..n], name)| + if NameOf(alerts[n]) == name then 1 else 0
  {
    MembersPrefix(alerts, n, name);
    var all, init := Members(alerts, name), Members(alerts[..n], name);
    if NameOf(alerts[n]) == name {
      assert n in all && all == init + {n};
    } else {
      assert n !in all && all == init;
    }
  }

  /** The count is the number of alerts of that name. */
  lemma {:induction false} CountIsGroupSize(alerts: seq<Alert>, name: Text)
    ensures Gathered(alerts, name).count == |Members(alerts, name)|
  {
    if alerts != [] {
      var n := |alerts| - 1;
      var init := alerts[..n];
      CountIsGroupSize(init, name);
      MembersGrow(alerts, n, name);
    }
  }

  /** The time is the latest of the group, or 0 when none parsed. */
  lemma {:induction false} LastIsLatest(alerts: seq<Alert>, name: Text)
    ensures forall i: nat :: InGroup(alerts, name, i) ==> TimeOf(alerts[i]) <= Gathered(alerts, name).last
    ensures Gathered(alerts, name).last > 0 ==>
              exists i: nat :: InGroup(alerts, name, i) && TimeOf(alerts[i]) == Gathered(alerts, name).last
  {
    if alerts != [] {
      var n := |alerts| - 1;
      var init := alerts[..n];
      LastIsLatest(init, name);
      forall i: nat | InGroup(alerts, name, i) ensures TimeOf(alerts[i]) <= Gathered(alerts, name).last {
        assert i < n ==> InGroup(init, name, i);
      }
      if InGroup(alerts, name, n) && TimeOf(alerts[n]) > Gathered(init, name).last {
        assert TimeOf(alerts[n]) == Gathered(alerts, name).last;
      } else if Gathered(alerts, name).last > 0 {
        var i: nat :| InGroup(init, name, i) && TimeOf(init[i]) == Gathered(init, name).last;
        assert InGroup(alerts, name, i) && alerts[i] == init[i];
      }
    }
  }

  /** The first alert of the group with the group's latest time. */
  ghost predicate FirstLatest(alerts: seq<Alert>, name: Text, i: nat) {
    && InGroup(alerts, name, i)
    && (forall j: nat :: InGroup(alerts, name, j) ==> TimeOf(alerts[j]) <= TimeOf(alerts[i]))
    && (forall j: nat :: j < i && InGroup(alerts, name, j) ==> TimeOf(alerts[j]) < TimeOf(alerts[i]))
  }

  /** From the first latest alert on, the row keeps its time and its sample. */
  lemma {:induction false} SampleAt(alerts: seq<Alert>, name: Text, i: nat)
    requires FirstLatest(alerts, name, i) && TimeOf(alerts[i]) > 0
    ensures var b, was := Gathered(alerts, name), Gathered(alerts[..i], name);
            && b.last == TimeOf(alerts[i])
            && b.scope == (if alerts[i].source.Some? then alerts[i].source.value.scope else was.scope)
            && b.value == (if alerts[i].source.Some? then SampleValue(alerts[i].source.value) else was.value)
    decreases |alerts|
  {
    var n := |alerts| - 1;
    var init := alerts[..n];
    if i == n {
      EarlierIsLess(init, name, TimeOf(alerts[n]), alerts);
    } else {
      assert init[..i] == alerts[..i];
      FirstLatestPrefix(alerts, name, i, n);
      SampleAt(init, name, i);
    }
  }

  lemma FirstLatestPrefix(alerts: seq<Alert>, name: Text, i: nat, n: nat)
    requires FirstLatest(alerts, name, i) && i < n <= |alerts|
    ensures FirstLatest(alerts[..n], name, i)
  {
    forall j: nat | InGroup(alerts[..n], name, j) ensures TimeOf(alerts[..n][j]) <= TimeOf(alerts[i]) {
      assert InGroup(alerts, name, j);
    }
    forall j: nat | j < i && InGroup(alerts[..n], name, j) ensures TimeOf(alerts[..n][j]) < TimeOf(alerts[i]) {
      assert InGroup(alerts, name, j);
    }
  }

  lemma EarlierIsLess(init: seq<Alert>, name: Text, t: nat, alerts: seq<Alert>)
    requires |alerts| == |init| + 1 && init == alerts[..|init|] && t > 0
    requires forall j: nat :: j < |init| && InGroup(alerts, name, j) ==> TimeOf(alerts[j]) < t
    ensures Gathered(init, name).last < t
  {
    LastIsLatest(init, name);
    if Gathered(init, name).last > 0 {
      var j: nat :| InGroup(init, name, j) && TimeOf(init[j]) == Gathered(init, name).last;
      assert InGroup(alerts, name, j);
    }
  }

  /** An alert of the group with a parsed time that is newer than every earlier one of the group. */
  ghost predicate Record(alerts: seq<Alert>, name: Text, i: nat) {
    && InGroup(alerts, name, i) && TimeOf(alerts[i]) > 0
    && forall j: nat :: j < i && InGroup(alerts, name, j) ==> TimeOf(alerts[j]) < TimeOf(alerts[i])
  }

  ghost predicate SourcedRecord(alerts: seq<Alert>, name: Text, i: nat) {
    Record(alerts, name, i) && alerts[i].source.Some?
  }

  /** The last record of the group that has a source. */
  ghost predicate Sampled(alerts: seq<Alert>, name: Text, i: nat) {
    SourcedRecord(alerts, name, i) && forall j: nat :: SourcedRecord(alerts, name, j) ==> j <= i
  }

  lemma RecordsOfPrefix(alerts: seq<Alert>, name: Text, n: nat, i: nat)
    requires i < n <= |alerts|
    ensures SourcedRecord(alerts[..n], name, i) <==> SourcedRecord(alerts, name, i)
  {
    assert forall j: nat :: j < n ==> (InGroup(alerts[..n], name, j) <==> InGroup(alerts, name, j));
    assert forall j: nat :: j < n ==> alerts[..n][j] == alerts[j];
  }

  /** The last alert is a record exactly when it belongs to the group and is newer than what was gathered. */
  lemma LastIsRecordExactlyWhen(alerts: seq<Alert>, name: Text)
    requires alerts != []
    ensures var n := |alerts| - 1;
            Record(alerts, name, n) <==>
              NameOf(alerts[n]) == name && TimeOf(alerts[n]) > Gathered(alerts[..n], name).last
  {
    var n := |alerts| - 1;
    var init := alerts[..n];
    LastIsLatest(init, name);
    assert forall j: nat :: j < n ==> (InGroup(init, name, j) <==> InGroup(alerts, name, j)) && init[j] == alerts[j];
    if Record(alerts, name, n) && Gathered(init, name).last > 0 {
      var j: nat :| InGroup(init, name, j) && TimeOf(init[j]) == Gathered(init, name).last;
      assert InGroup(alerts, name, j);
    }
  }

  /** The sample is that of the last record with a source; without one it is empty. */
  ghost predicate SampleExplained(alerts: seq<Alert>, name: Text) {
    var b := Gathered(alerts, name);
    || (exists i: nat :: Sampled(alerts, name, i)
                         && b.scope == alerts[i].source.value.scope && b.value == SampleValue(alerts[i].source.value))
    || ((forall i: nat :: !SourcedRecord(alerts, name, i)) && b.scope == "" && b.value == "")
  }

  lemma ExplainedByLast(alerts: seq<Alert>, name: Text)
    requires alerts != [] && SourcedRecord(alerts, name, |alerts| - 1)
    ensures SampleExplained(alerts, name)
  {
    LastIsRecordExactlyWhen(alerts, name);
    assert Sampled(alerts, name, |alerts| - 1);
  }

  /** An alert that is no record with a source leaves the sample alone. */
  lemma SampleUnchanged(alerts: seq<Alert>, name: Text)
    requires alerts != [] && !SourcedRecord(alerts, name, |alerts| - 1)
    ensures var b, was := Gathered(alerts, name), Gathered(alerts[..|alerts| - 1], name);
            b.scope == was.scope && b.value == was.value
  {
    LastIsRecordExactlyWhen(alerts, name);
  }

  lemma SameRecords(alerts: seq<Alert>, name: Text)
    requires alerts != [] && !SourcedRecord(alerts, name, |alerts| - 1)
    ensures forall i: nat :: SourcedRecord(alerts[..|alerts| - 1], name, i) <==> SourcedRecord(alerts, name, i)
  {
    var n := |alerts| - 1;
    forall i: nat ensures SourcedRecord(alerts[..n], name, i) <==> SourcedRecord(alerts, name, i) {
      if i < n {
        RecordsOfPrefix(alerts, name, n, i);
      }
    }
  }

  lemma ExplainedByPrefix(alerts: seq<Alert>, name: Text)
    requires alerts != [] && !SourcedRecord(alerts, name, |alerts| - 1) && SampleExplained(alerts[..|alerts| - 1], name)
    ensures SampleExplained(alerts, name)
  {
    var init := alerts[..|alerts| - 1];
    SampleUnchanged(alerts, name);
    SameRecords(alerts, name);
    if i: nat :| Sampled(init, name, i) && Gathered(init, name).scope == init[i].source.value.scope
                 && Gathered(init, name).value == SampleValue(init[i].source.value) {
      assert Sampled(alerts, name, i) && alerts[i] == init[i];
    }
  }

  lemma {:induction false} SampleIsLastSourcedRecord(alerts: seq<Alert>, name: Text)
    ensures SampleExplained(alerts, name)
  {
    if alerts != [] {
      SampleIsLastSourcedRecord(alerts[..|alerts| - 1], name);
      if SourcedRecord(alerts, name, |alerts| - 1) {
        ExplainedByLast(alerts, name);
      } else {
        ExplainedByPrefix(alerts, name);
      }
    }
  }

  /** So a row's sample is determined by the one alert it comes from. */
  lemma SampleFrom(alerts: seq<Alert>, name: Text, i: nat)
    requires Sampled(alerts, name, i)
    ensures RowOf(alerts, name).scope == alerts[i].source.value.scope
    ensures RowOf(alerts, name).value == SampleValue(alerts[i].source.value)
  {
    SampleIsLastSourcedRecord(alerts, name);
  }

  /** When the first latest alert has a source, time and sample come from it. */
  lemma SampleIsFirstLatest(alerts: seq<Alert>, name: Text, i: nat)
    requires FirstLatest(alerts, name, i) && TimeOf(alerts[i]) > 0 && alerts[i].source.Some?
    ensures RowOf(alerts, name).last == TimeOf(alerts[i])
    ensures RowOf(alerts, name).scope == alerts[i].source.value.scope
    ensures RowOf(alerts, name).value == SampleValue(alerts[i].source.value)
  {
    SampleAt(alerts, name, i);
  }

  lemma LatestIsLastRecord(alerts: seq<Alert>, name: Text, f: nat)
    requires FirstLatest(alerts, name, f) && TimeOf(alerts[f]) > 0
    ensures Record(alerts, name, f) && forall j: nat :: Record(alerts, name, j) ==> j <= f
  {
    forall j: nat | Record(alerts, name, j) ensures j <= f {
      assert InGroup(alerts, name, f);
    }
  }

  /** The row's sample is that of an alert older than the row's time. */
  ghost predicate StaleSample(alerts: seq<Alert>, name: Text) {
    exists i: nat :: Sampled(alerts, name, i) && TimeOf(alerts[i]) < RowOf(alerts, name).last
  }

  ghost predicate EarlierSource(alerts: seq<Alert>, name: Text, f: nat) {
    exists j: nat :: j < f && SourcedRecord(alerts, name, j)
  }

  lemma StaleNeeds(alerts: seq<Alert>, name: Text, f: nat, i: nat)
    requires FirstLatest(alerts, name, f) && TimeOf(alerts[f]) > 0
    requires Sampled(alerts, name, i) && TimeOf(alerts[i]) < TimeOf(alerts[f])
    ensures alerts[f].source.None? && EarlierSource(alerts, name, f)
  {
    LatestIsLastRecord(alerts, name, f);
    assert SourcedRecord(alerts, name, f) ==> f <= i;
    assert i < f && SourcedRecord(alerts, name, i);
  }

  lemma StaleSuffices(alerts: seq<Alert>, name: Text, f: nat)
    requires FirstLatest(alerts, name, f) && alerts[f].source.None? && EarlierSource(alerts, name, f)
    ensures exists i: nat :: Sampled(alerts, name, i) && TimeOf(alerts[i]) < TimeOf(alerts[f])
  {
    SampleIsLastSourcedRecord(alerts, name);
    var i: nat :| Sampled(alerts, name, i);
    var j: nat :| j < f && SourcedRecord(alerts, name, j);
    assert TimeOf(alerts[f]) > TimeOf(alerts[j]) > 0;
    LatestIsLastRecord(alerts, name, f);
    assert i <= f && i != f && InGroup(alerts, name, i);
  }

  /** The sample is that of an older alert than the time exactly when the first latest alert has no source and an earlier record has one. */
  lemma StaleSampleExactlyWhen(alerts: seq<Alert>, name: Text, f: nat)
    requires FirstLatest(alerts, name, f) && TimeOf(alerts[f]) > 0
    ensures StaleSample(alerts, name) <==> alerts[f].source.None? && EarlierSource(alerts, name, f)
  {
    SampleAt(alerts, name, f);
    if StaleSample(alerts, name) {
      var i: nat :| Sampled(alerts, name, i) && TimeOf(alerts[i]) < RowOf(alerts, name).last;
      StaleNeeds(alerts, name, f, i);
    } else if alerts[f].source.None? && EarlierSource(alerts, name, f) {
      StaleSuffices(alerts, name, f);
    }
  }

  /** For instance a newer alert without a source behind an older one with it. */
  lemma SampleCanBeStale(older: Alert, newer: Alert)
    requires NameOf(older) == NameOf(newer) && 0 < TimeOf(older) < TimeOf(newer)
    requires older.source.Some? && newer.source.None?
    ensures var r := RowOf([older, newer], NameOf(older));
            r.last == TimeOf(newer) && r.scope == older.source.value.scope && r.value == SampleValue(older.source.value)
  {
    var alerts, name := [older, newer], NameOf(older);
    assert alerts[..1] == [older] && [older][..0] == [];
    assert Gathered([older], name) == Absorb(EMPTY, older);
    assert Gathered(alerts, name) == Absorb(Gathered([older], name), newer);
  }

  // ---------------------------------------------------------------------
  // Conservation
  // ---------------------------------------------------------------------

  function SumCounts(alerts: seq<Alert>, names: seq<Text>): nat {
    if names == [] then 0
    else SumCounts(alerts, names[..|names| - 1]) + Gathered(alerts, names[|names| - 1]).count
  }

  /** One more alert raises the sum by one when its name is listed. */
  lemma {:induction false} SumGrows(alerts: seq<Alert>, a: Alert, names: seq<Text>)
    requires Sorting.Distinct(names)
    ensures SumCounts(alerts + [a], names) == SumCounts(alerts, names) + if NameOf(a) in names then 1 else 0
  {
    if names != [] {
      var n := |names| - 1;
      assert (alerts + [a])[..|alerts|] == alerts;
      SumGrows(alerts, a, names[..n]);
      assert NameOf(a) in names <==> NameOf(a) in names[..n] || NameOf(a) == names[n];
      assert names[n] !in names[..n];
    }
  }

  lemma {:induction false} NothingGathered(names: seq<Text>)
    ensures SumCounts([], names) == 0
  {
    if names != [] {
      NothingGathered(names[..|names| - 1]);
    }
  }

  /** The counts of all groups add up to the number of alerts. */
  lemma {:induction false} CountsAddUp(alerts: seq<Alert>, names: seq<Text>)
    requires Sorting.Distinct(names) && forall i :: 0 <= i < |alerts| ==> NameOf(alerts[i]) in names
    ensures SumCounts(alerts, names) == |alerts|
  {
    if alerts == [] {
      NothingGathered(names);
    } else {
      var n := |alerts| - 1;
      assert alerts == alerts[..n] + [alerts[n]];
      CountsAddUp(alerts[..n], names);
      SumGrows(alerts[..n], alerts[n], names);
    }
  }

  // ---------------------------------------------------------------------
  // The aggregation
  // ---------------------------------------------------------------------

  /** Updates one accumulator: the count always, time and sample only for a newer alert. */
  method Count(acc: Acc, a: Alert) returns (b: Acc)
    ensures b == Absorb(acc, a)
  {
    b := acc.(count := acc.count + 1);
    var ts := a.startAt;
    if ts == 0 {
      ts := a.createdAt;
    }
    if ts > b.last {
      b := b.(last := ts);
      if a.source.Some? {
        b := b.(scope := a.source.value.scope, value := a.source.value.value);
        if b.value == "" {
          b := b.(value := a.source.value.ip);
        }
      }
    }
  }

  /** The map after some alerts. */
  ghost predicate Filled(bucket: map<Text, Acc>, alerts: seq<Alert>) {
    && (forall name :: name in bucket <==> Named(alerts, name))
    && (forall name :: name in bucket ==> bucket[name] == Gathered(alerts, name))
  }

  lemma {:induction false} UnnamedIsEmpty(alerts: seq<Alert>, name: Text)
    requires !Named(alerts, name)
    ensures Gathered(alerts, name) == EMPTY
  {
    if alerts != [] {
      var n := |alerts| - 1;
      assert !InGroup(alerts, name, n);
      assert forall i: nat :: InGroup(alerts[..n], name, i) ==> InGroup(alerts, name, i);
      UnnamedIsEmpty(alerts[..n], name);
    }
  }

  lemma FilledStep(bucket: map<Text, Acc>, alerts: seq<Alert>, n: nat, b: Acc)
    requires n < |alerts| && Filled(bucket, alerts[..n])
    requires b == Absorb(Gathered(alerts[..n], NameOf(alerts[n])), alerts[n])
    ensures Filled(bucket[NameOf(alerts[n]) := b], alerts[..n + 1])
  {
    assert alerts[..n + 1][..n] == alerts[..n];
    forall x ensures Named(alerts[..n + 1], x) <==> Named(alerts[..n], x) || x == NameOf(alerts[n]) {
      NamedGrows(alerts, n, x);
    }
  }

  method FillBuckets(alerts: seq<Alert>) returns (bucket: map<Text, Acc>)
    ensures Filled(bucket, alerts)
  {
    bucket := map[];
    for n := 0 to |alerts|
      invariant Filled(bucket, alerts[..n])
    {
      var name := NameOf(alerts[n]);
      if name !in bucket {
        UnnamedIsEmpty(alerts[..n], name);
      }
      var b := Count(if name in bucket then bucket[name] else EMPTY, alerts[n]);
      FilledStep(bucket, alerts, n, b);
      bucket := bucket[name := b];
    }
    assert alerts[..|alerts|] == alerts;
  }

  lemma NamedGrows(alerts: seq<Alert>, n: nat, x: Text)
    requires n < |alerts|
    ensures Named(alerts[..n + 1], x) <==> Named(alerts[..n], x) || x == NameOf(alerts[n])
  {
    if Named(alerts[..n], x) {
      var i: nat :| InGroup(alerts[..n], x, i);
      assert InGroup(alerts[..n + 1], x, i);
    }
    if x == NameOf(alerts[n]) {
      assert InGroup(alerts[..n + 1], x, n);
    }
    if Named(alerts[..n + 1], x) {
      var i: nat :| InGroup(alerts[..n + 1], x, i);
      assert i < n ==> InGroup(alerts[..n], x, i);
    }
  }

  /** The rows, read off the map in any order. */
  method Rows(alerts: seq<Alert>, bucket: map<Text, Acc>) returns (out: seq<Row>)
    requires forall name :: name in bucket ==> bucket[name] == Gathered(alerts, name)
    ensures Sorting.Distinct(out)
    ensures forall r :: r in out <==> r.name in bucket && r == RowOf(alerts, r.name)
  {
    out := [];
    var todo := bucket.Keys;
    while todo != {}
      invariant todo <= bucket.Keys
      invariant Sorting.Distinct(out)
      invariant forall r :: r in out <==> r.name in bucket && r.name !in todo && r == RowOf(alerts, r.name)
      decreases todo
    {
      var name :| name in todo;
      todo := todo - {name};
      var b := bucket[name];
      out := out + [Row(name, b.count, b.last, b.scope, b.value)];
    }
  }

  /** The rows are those of the names that occur, each once, in order. */
  ghost predicate Aggregated(alerts: seq<Alert>, rows: seq<Row>) {
    && Sorting.Ascending(rows, RowLess)
    && forall r :: r in rows <==> Named(alerts, r.name) && r == RowOf(alerts, r.name)
  }

  method Aggregate(alerts: seq<Alert>) returns (rows: seq<Row>)
    ensures Aggregated(alerts, rows)
  {
    var bucket := FillBuckets(alerts);
    var out := Rows(alerts, bucket);
    rows := Sorting.Sort(out, RowLess);
    ghost var dom := set r | r in out;
    RowsOrdered(alerts, dom);
    Sorting.SortAscends(out, RowLess, dom);
    Sorting.SortElements(out, RowLess);
  }

  /** Rows of one aggregation are ordered totally: the name decides between equal counts. */
  lemma RowsOrdered(alerts: seq<Alert>, dom: set<Row>)
    requires forall r :: r in dom ==> r == RowOf(alerts, r.name)
    ensures Sorting.StrictOrder(RowLess, dom)
  {
    var names := set r | r in dom :: r.name;
    Sorting.TextOrder(names);
    forall a, b | a in dom && b in dom && a != b ensures RowLess(a, b) || RowLess(b, a) {
      assert a.name in names && b.name in names && a.name != b.name;
    }
    forall a, b, c | a in dom && b in dom && c in dom && RowLess(a, b) && RowLess(b, c) ensures RowLess(a, c) {
      assert a.name in names && b.name in names && c.name in names;
    }
    forall a | a in dom ensures !RowLess(a, a) {
      assert a.name in names;
    }
  }

  /** More alerts come first; among equals the name that first differs with the smaller character, or is a prefix. */
  lemma RowsByCountThenName(alerts: seq<Alert>, rows: seq<Row>, i: nat, j: nat)
    requires Aggregated(alerts, rows) && i < j < |rows|
    ensures rows[i].count >= rows[j].count
    ensures rows[i].count == rows[j].count ==> exists k: nat :: Sorting.FirstDifference(rows[i].name, rows[j].name, k)
  {
    assert RowLess(rows[i], rows[j]);
    Sorting.TextLessExactlyWhen(rows[i].name, rows[j].name);
  }

  /** The result is unique, so no iteration order can show in it. */
  lemma AggregationUnique(alerts: seq<Alert>, rows: seq<Row>, rows': seq<Row>)
    requires Aggregated(alerts, rows) && Aggregated(alerts, rows')
    ensures rows == rows'
  {
    var dom := set r | r in rows;
    RowsOrdered(alerts, dom);
    assert forall i :: 0 <= i < |rows'| ==> rows'[i] in rows';
    Sorting.AscendingUnique(rows, rows', RowLess, dom);
  }

  function Names(rows: seq<Row>): (names: seq<Text>)
    ensures |names| == |rows| && forall i :: 0 <= i < |rows| ==> names[i] == rows[i].name
  {
    seq(|rows|, i requires 0 <= i < |rows| => rows[i].name)
  }

  lemma NamesDistinct(alerts: seq<Alert>, rows: seq<Row>)
    requires Aggregated(alerts, rows)
    ensures Sorting.Distinct(Names(rows))
    ensures forall i :: 0 <= i < |alerts| ==> NameOf(alerts[i]) in Names(rows)
  {
    var dom := set r | r in rows;
    RowsOrdered(alerts, dom);
    forall i, j | 0 <= i < j < |rows| ensures rows[i].name != rows[j].name {
      assert rows[i] in rows && rows[j] in rows;
      assert RowLess(rows[i], rows[j]);
    }
    forall i | 0 <= i < |alerts| ensures NameOf(alerts[i]) in Names(rows) {
      assert InGroup(alerts, NameOf(alerts[i]), i);
      var r := RowOf(alerts, NameOf(alerts[i]));
      assert r in rows;
      var j :| 0 <= j < |rows| && rows[j] == r;
      assert Names(rows)[j] == r.name;
    }
  }

  /** The handler's total is the number of alerts fetched. */
  method TotalAlerts(alerts: seq<Alert>, rows: seq<Row>) returns (total: nat)
    requires Aggregated(alerts, rows)
    ensures total == |alerts|
  {
    total := 0;
    ghost var names := Names(rows);
    NamesDistinct(alerts, rows);
    CountsAddUp(alerts, names);
    for i := 0 to |rows|
      invariant total == SumCounts(alerts, names[..i])
    {
      assert rows[i] in rows;
      assert names[..i + 1][..i] == names[..i];
      total := total + rows[i].count;
    }
    assert names[..|rows|] == names;
  }
}
