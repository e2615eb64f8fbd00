/**
 The alert dispatcher (internal/alerting/dispatcher.go) and the rule-test verdict
 built on it (internal/api/alerting_rules.go): one event is sent to a list of
 channels, in order; each channel fires, fails or is skipped.
 */
module Dispatcher {
  import opened Options

  datatype Channel = Channel(id: string, enabled: bool, minSeverity: int, kind: string, config: string)

  /** Loading one channel row. */
  datatype Load = NotFound | LoadError(message: string) | Loaded(channel: Channel)

  /** What happens at one position of the list; `sendError` only matters when a send is attempted. */
  datatype Answer = Answer(load: Load, sendError: Option<string>)

  /** Builds the sender of a channel: the error when its kind or config is not usable. */
  type SenderFor = Channel -> Option<string>

  datatype Outcome = Fired | Failed(reason: string) | Skipped(reason: string)

  datatype Result = Result(fired: seq<string>, failed: map<string, string>, skipped: map<string, string>)

  const NOT_FOUND := "channel not found (deleted while rule held a reference?)"
  const DISABLED := "channel disabled"
  const BELOW := "severity below channel min"

  /** The gates passed, so the sender is asked to send. */
  predicate Attempts(severity: int, senderFor: SenderFor, a: Answer) {
    && a.load.Loaded? && a.load.channel.enabled && severity >= a.load.channel.minSeverity
    && senderFor(a.load.channel).None?
  }

  function OutcomeOf(severity: int, senderFor: SenderFor, a: Answer): Outcome {
    match a.load
    case NotFound => Failed(NOT_FOUND)
    case LoadError(message) => Failed("load channel: " + message)
    case Loaded(ch) =>
      if !ch.enabled then Skipped(DISABLED)
      else if severity < ch.minSeverity then Skipped(BELOW)
      else if senderFor(ch).Some? then Failed(senderFor(ch).value)
      else if a.sendError.Some? then Failed(a.sendError.value)
      else Fired
  }

  function Outcomes(severity: int, senderFor: SenderFor, answers: seq<Answer>): (o: seq<Outcome>)
    ensures |o| == |answers|
  {
    seq(|answers|, i requires 0 <= i < |answers| => OutcomeOf(severity, senderFor, answers[i]))
  }

  function Add(r: Result, id: string, o: Outcome): Result {
    match o
    case Fired => r.(fired := r.fired + [id])
    case Failed(reason) => r.(failed := r.failed[id := reason])
    case Skipped(reason) => r.(skipped := r.skipped[id := reason])
  }

  /** The result a list of outcomes folds to. */
  function Collect(ids: seq<string>, outcomes: seq<Outcome>): Result
    requires |ids| == |outcomes|
  {
    if ids == [] then Result([], map[], map[])
    else
      var n := |ids| - 1;
      Add(Collect(ids[..n], outcomes[..n]), ids[n], outcomes[n])
  }

  /** The send results written to the channel rows, in order: one per attempted send. */
  function Marks(severity: int, senderFor: SenderFor, answers: seq<Answer>): seq<(string, Option<string>)> {
    if answers == [] then []
    else
      var a := answers[|answers| - 1];
      Marks(severity, senderFor, answers[..|answers| - 1])
      + if Attempts(severity, senderFor, a) then [(a.load.channel.id, a.sendError)] else []
  }

  method Dispatch(severity: int, senderFor: SenderFor, ids: seq<string>, answers: seq<Answer>)
      returns (r: Result, marks: seq<(string, Option<string>)>)
    requires |ids| == |answers|
    ensures r == Collect(ids, Outcomes(severity, senderFor, answers))
    ensures marks == Marks(severity, senderFor, answers)
  {
    r, marks := Result([], map[], map[]), [];
    ghost var outcomes := Outcomes(severity, senderFor, answers);
    for n := 0 to |ids|
      invariant r == Collect(ids[..n], outcomes[..n])
      invariant marks == Marks(severity, senderFor, answers[..n])
    {
      assert ids[..n + 1][..n] == ids[..n] && outcomes[..n + 1][..n] == outcomes[..n];
      assert answers[..n + 1][..n] == answers[..n];
      var id, a := ids[n], answers[n];
      if !a.load.Loaded? {
        if a.load.NotFound? {
          r := r.(failed := r.failed[id := NOT_FOUND]);
        } else {
          r := r.(failed := r.failed[id := "load channel: " + a.load.message]);
        }
        continue;
      }
      var ch := a.load.channel;
      if !ch.enabled {
        r := r.(skipped := r.skipped[id := DISABLED]);
        continue;
      }
      if severity < ch.minSeverity {
        r := r.(skipped := r.skipped[id := BELOW]);
        continue;
      }
      var senderError := senderFor(ch);
      if senderError.Some? {
        r := r.(failed := r.failed[id := senderError.value]);
        continue;
      }
      marks := marks + [(ch.id, a.sendError)];
      if a.sendError.Some? {
        r := r.(failed := r.failed[id := a.sendError.value]);
      } else {
        r := r.(fired := r.fired + [id]);
      }
    }
    assert ids[..|ids|] == ids && outcomes[..|ids|] == outcomes && answers[..|ids|] == answers;
  }

  /** How many positions fired. */
  function Successes(outcomes: seq<Outcome>): (n: nat)
    ensures n <= |outcomes|
    ensures n == |outcomes| <==> forall i :: 0 <= i < |outcomes| ==> outcomes[i].Fired?
  {
    if outcomes == [] then 0
    else Successes(outcomes[..|outcomes| - 1]) + if outcomes[|outcomes| - 1].Fired? then 1 else 0
  }

  /** Some position of `id` has an outcome of the given class. */
  ghost predicate Occurs(ids: seq<string>, outcomes: seq<Outcome>, id: string, fired: bool, failed: bool)
    requires |ids| == |outcomes|
  {
    exists i :: 0 <= i < |ids| && ids[i] == id && outcomes[i].Fired? == fired && outcomes[i].Failed? == failed
  }

  lemma OccursSnoc(ids: seq<string>, outcomes: seq<Outcome>, id: string, fired: bool, failed: bool)
    requires |ids| == |outcomes| > 0
    ensures var n := |ids| - 1;
      Occurs(ids, outcomes, id, fired, failed) <==>
        || Occurs(ids[..n], outcomes[..n], id, fired, failed)
        || (ids[n] == id && outcomes[n].Fired? == fired && outcomes[n].Failed? == failed)
  {
    var n := |ids| - 1;
    if Occurs(ids[..n], outcomes[..n], id, fired, failed) {
      var i :| 0 <= i < n && ids[..n][i] == id && outcomes[..n][i].Fired? == fired && outcomes[..n][i].Failed? == failed;
      assert ids[i] == id;
    }
    if Occurs(ids, outcomes, id, fired, failed) {
      var i :| 0 <= i < |ids| && ids[i] == id && outcomes[i].Fired? == fired && outcomes[i].Failed? == failed;
      assert i < n ==> ids[..n][i] == id;
    }
  }

  /** Where an id of any list ends up, repetitions included. */
  lemma {:induction false} CollectPlaces(ids: seq<string>, outcomes: seq<Outcome>, id: string)
    requires |ids| == |outcomes|
    ensures var r := Collect(ids, outcomes);
      && (id in r.fired <==> Occurs(ids, outcomes, id, true, false))
      && (id in r.failed <==> Occurs(ids, outcomes, id, false, true))
      && (id in r.skipped <==> Occurs(ids, outcomes, id, false, false))
  {
    if ids != [] {
      CollectPlaces(ids[..|ids| - 1], outcomes[..|ids| - 1], id);
      OccursSnoc(ids, outcomes, id, true, false);
      OccursSnoc(ids, outcomes, id, false, true);
      OccursSnoc(ids, outcomes, id, false, false);
    }
  }

  lemma {:induction false} FiredCount(ids: seq<string>, outcomes: seq<Outcome>)
    requires |ids| == |outcomes|
    ensures |Collect(ids, outcomes).fired| == Successes(outcomes)
  {
    if ids != [] {
      FiredCount(ids[..|ids| - 1], outcomes[..|ids| - 1]);
    }
  }

  /** No id is listed twice with outcomes of different classes. */
  ghost predicate Consistent(ids: seq<string>, outcomes: seq<Outcome>)
    requires |ids| == |outcomes|
  {
    forall i, j :: 0 <= i < |ids| && 0 <= j < |ids| && ids[i] == ids[j] ==>
      (outcomes[i].Fired? <==> outcomes[j].Fired?) && (outcomes[i].Failed? <==> outcomes[j].Failed?)
  }

  predicate Disjoint(r: Result) {
    && (forall id :: id in r.fired ==> id !in r.failed && id !in r.skipped)
    && r.failed.Keys !! r.skipped.Keys
  }

  /**
   Every id is accounted for, and the three groups are disjoint exactly when no
   repeated id had outcomes of different classes.
   */
  lemma DispatchPartitions(ids: seq<string>, outcomes: seq<Outcome>)
    requires |ids| == |outcomes|
    ensures var r := Collect(ids, outcomes);
      && (forall id :: id in ids <==> id in r.fired || id in r.failed || id in r.skipped)
      && (Disjoint(r) <==> Consistent(ids, outcomes))
  {
    var r := Collect(ids, outcomes);
    forall id ensures id in ids <==> id in r.fired || id in r.failed || id in r.skipped {
      CollectPlaces(ids, outcomes, id);
      if id in ids {
        var i :| 0 <= i < |ids| && ids[i] == id;
        assert Occurs(ids, outcomes, id, outcomes[i].Fired?, outcomes[i].Failed?);
      }
    }
    if Consistent(ids, outcomes) {
      forall id ensures !(id in r.fired && (id in r.failed || id in r.skipped)) && !(id in r.failed && id in r.skipped) {
        CollectPlaces(ids, outcomes, id);
      }
    } else {
      var i, j :| 0 <= i < |ids| && 0 <= j < |ids| && ids[i] == ids[j] &&
        !((outcomes[i].Fired? <==> outcomes[j].Fired?) && (outcomes[i].Failed? <==> outcomes[j].Failed?));
      CollectPlaces(ids, outcomes, ids[i]);
      assert Occurs(ids, outcomes, ids[i], outcomes[i].Fired?, outcomes[i].Failed?);
      assert Occurs(ids, outcomes, ids[i], outcomes[j].Fired?, outcomes[j].Failed?);
    }
  }

  /** A duplicate-free list is split exactly. */
  lemma DistinctIdsPartition(ids: seq<string>, outcomes: seq<Outcome>)
    requires |ids| == |outcomes|
    requires forall i, j :: 0 <= i < j < |ids| ==> ids[i] != ids[j]
    ensures Disjoint(Collect(ids, outcomes))
  {
    assert Consistent(ids, outcomes);
    DispatchPartitions(ids, outcomes);
  }

  // What each outcome means, on the answer itself.

  /** The row loads, is enabled and wants this severity, its sender is built, and the send works. */
  predicate SendWorks(severity: int, senderFor: SenderFor, a: Answer) {
    && a.load.Loaded? && a.load.channel.enabled && a.load.channel.minSeverity <= severity
    && senderFor(a.load.channel) == None && a.sendError == None
  }

  /** The row loads but is disabled or wants a higher severity. */
  predicate TurnedAway(severity: int, a: Answer) {
    a.load.Loaded? && (!a.load.channel.enabled || severity < a.load.channel.minSeverity)
  }

  lemma OutcomeExactly(severity: int, senderFor: SenderFor, a: Answer)
    ensures var o := OutcomeOf(severity, senderFor, a);
      && (o.Fired? <==> SendWorks(severity, senderFor, a))
      && (o.Skipped? <==> TurnedAway(severity, a))
      && (o.Skipped? ==> o.reason == if a.load.channel.enabled then "severity below channel min" else "channel disabled")
      && (o.Failed? && a.load.LoadError? ==> o.reason == "load channel: " + a.load.message)
      && (o.Failed? && a.load.NotFound? ==> o.reason == "channel not found (deleted while rule held a reference?)")
      && (o.Failed? && a.load.Loaded? ==>
            Some(o.reason) == if senderFor(a.load.channel).Some? then senderFor(a.load.channel) else a.sendError)
  {
  }

  /** The reasons collected for a position of a duplicate-free list are its own. */
  lemma {:induction false} CollectedReason(ids: seq<string>, outcomes: seq<Outcome>, i: nat)
    requires i < |ids| == |outcomes| && forall j, k :: 0 <= j < k < |ids| ==> ids[j] != ids[k]
    ensures var r := Collect(ids, outcomes);
      && (outcomes[i].Failed? ==> ids[i] in r.failed && r.failed[ids[i]] == outcomes[i].reason)
      && (outcomes[i].Skipped? ==> ids[i] in r.skipped && r.skipped[ids[i]] == outcomes[i].reason)
  {
    var n := |ids| - 1;
    if i < n {
      CollectedReason(ids[..n], outcomes[..n], i);
      assert ids[i] != ids[n];
    }
  }

  /** Of a duplicate-free list, exactly the ids whose send works fire, those turned away are skipped, the others fail. */
  lemma DispatchByAnswers(severity: int, senderFor: SenderFor, ids: seq<string>, answers: seq<Answer>, i: nat)
    requires i < |ids| == |answers| && forall j, k :: 0 <= j < k < |ids| ==> ids[j] != ids[k]
    ensures var r := Collect(ids, Outcomes(severity, senderFor, answers));
      && (ids[i] in r.fired <==> SendWorks(severity, senderFor, answers[i]))
      && (ids[i] in r.skipped <==> TurnedAway(severity, answers[i]))
      && (ids[i] in r.failed <==> !SendWorks(severity, senderFor, answers[i]) && !TurnedAway(severity, answers[i]))
      && (ids[i] in r.failed && answers[i].load.Loaded? && senderFor(answers[i].load.channel).None? ==>
            answers[i].sendError == Some(r.failed[ids[i]]))
  {
    var outcomes := Outcomes(severity, senderFor, answers);
    OutcomeExactly(severity, senderFor, answers[i]);
    CollectPlaces(ids, outcomes, ids[i]);
    CollectedReason(ids, outcomes, i);
    assert outcomes[i] == OutcomeOf(severity, senderFor, answers[i]);
    assert Occurs(ids, outcomes, ids[i], outcomes[i].Fired?, outcomes[i].Failed?);
    forall b, c | Occurs(ids, outcomes, ids[i], b, c) ensures b == outcomes[i].Fired? && c == outcomes[i].Failed? {
      var j :| 0 <= j < |ids| && ids[j] == ids[i] && outcomes[j].Fired? == b && outcomes[j].Failed? == c;
      assert j == i;
    }
  }

  function Merge(a: Result, b: Result): Result {
    Result(a.fired + b.fired, a.failed + b.failed, a.skipped + b.skipped)
  }

  /** Dispatching each position by itself, results merged in order. */
  function OneByOne(ids: seq<string>, outcomes: seq<Outcome>): Result
    requires |ids| == |outcomes|
  {
    if ids == [] then Result([], map[], map[])
    else Merge(Collect(ids[..1], outcomes[..1]), OneByOne(ids[1..], outcomes[1..]))
  }

  lemma MergeAdd(a: Result, b: Result, id: string, o: Outcome)
    ensures Merge(a, Add(b, id, o)) == Add(Merge(a, b), id, o)
  {
    match o
    case Fired => assert a.fired + (b.fired + [id]) == (a.fired + b.fired) + [id];
    case Failed(reason) => assert a.failed + b.failed[id := reason] == (a.failed + b.failed)[id := reason];
    case Skipped(reason) => assert a.skipped + b.skipped[id := reason] == (a.skipped + b.skipped)[id := reason];
  }

  /** A dispatch of two lists is the merge of their dispatches, so `fired` keeps the list order. */
  lemma {:induction false} DispatchSplits(a: seq<string>, oa: seq<Outcome>, b: seq<string>, ob: seq<Outcome>)
    requires |a| == |oa| && |b| == |ob|
    ensures Collect(a + b, oa + ob) == Merge(Collect(a, oa), Collect(b, ob))
    decreases |b|
  {
    if b == [] {
      assert a + b == a && oa + ob == oa;
    } else {
      var n := |b| - 1;
      DispatchSplits(a, oa, b[..n], ob[..n]);
      MergeAdd(Collect(a, oa), Collect(b[..n], ob[..n]), b[n], ob[n]);
      assert (a + b)[..|a| + n] == a + b[..n] && (oa + ob)[..|a| + n] == oa + ob[..n];
    }
  }

  /** Fan-out of a list equals the union of fan-outs to each channel alone. */
  lemma {:induction false} DispatchIsOneByOne(ids: seq<string>, outcomes: seq<Outcome>)
    requires |ids| == |outcomes|
    ensures Collect(ids, outcomes) == OneByOne(ids, outcomes)
  {
    if ids != [] {
      DispatchIsOneByOne(ids[1..], outcomes[1..]);
      DispatchSplits(ids[..1], outcomes[..1], ids[1..], outcomes[1..]);
      assert ids == ids[..1] + ids[1..] && outcomes == outcomes[..1] + outcomes[1..];
    }
  }

  ghost function AttemptedAt(severity: int, senderFor: SenderFor, answers: seq<Answer>): set<nat> {
    set i | 0 <= i < |answers| && Attempts(severity, senderFor, answers[i])
  }

  /** The send attempted at position `i` is recorded for its channel and with its error, after those of earlier positions. */
  lemma {:induction false} MarkCarriesResult(severity: int, senderFor: SenderFor, answers: seq<Answer>, i: nat)
    requires i < |answers| && Attempts(severity, senderFor, answers[i])
    ensures var all, before := Marks(severity, senderFor, answers), Marks(severity, senderFor, answers[..i]);
      |before| < |all| && all[|before|] == (answers[i].load.channel.id, answers[i].sendError)
  {
    var n := |answers| - 1;
    if i < n {
      MarkCarriesResult(severity, senderFor, answers[..n], i);
      assert answers[..n][..i] == answers[..i];
    }
  }

  /** One send result is recorded per attempted send, and every fired position is one of them. */
  lemma {:induction false} OneMarkPerSend(severity: int, senderFor: SenderFor, answers: seq<Answer>)
    ensures |Marks(severity, senderFor, answers)| == |AttemptedAt(severity, senderFor, answers)|
    ensures forall i :: 0 <= i < |answers| && OutcomeOf(severity, senderFor, answers[i]).Fired? ==>
      i in AttemptedAt(severity, senderFor, answers)
  {
    if answers != [] {
      var n := |answers| - 1;
      OneMarkPerSend(severity, senderFor, answers[..n]);
      var all, before := AttemptedAt(severity, senderFor, answers), AttemptedAt(severity, senderFor, answers[..n]);
      if Attempts(severity, senderFor, answers[n]) {
        assert all == before + {n};
      } else {
        assert all == before;
      }
    }
  }

  /** The `sent` verdict of the rule test. */
  predicate TestSent(channels: seq<string>, r: Result) {
    && |r.failed| == 0
    && |r.skipped| == 0
    && |r.fired| == |channels|
    && |channels| > 0
  }

  /** For any channel list, repetitions included: sent means that there is a channel and every entry fired. */
  lemma TestSentMeansAllFired(channels: seq<string>, outcomes: seq<Outcome>)
    requires |channels| == |outcomes|
    ensures TestSent(channels, Collect(channels, outcomes)) <==>
      channels != [] && forall i :: 0 <= i < |outcomes| ==> outcomes[i].Fired?
  {
    FiredCount(channels, outcomes);
    var r := Collect(channels, outcomes);
    if forall i :: 0 <= i < |outcomes| ==> outcomes[i].Fired? {
      forall id ensures id !in r.failed && id !in r.skipped {
        CollectPlaces(channels, outcomes, id);
      }
      assert r.failed == map[] && r.skipped == map[];
    }
  }
}
