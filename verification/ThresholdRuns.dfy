/**
 What a threshold rule does, told by the trace alone: in every run of the watcher a
 matching evaluation tries exactly the channels without a send inside the rule's own
 cooldown, and delivers exactly where the send works.  The evicting cooldown table
 does not appear in the statement.
 */
module ThresholdRuns {
  import opened Cooldown
  import opened Evaluator
  import opened WatcherLoop
  import opened WatcherRuns
  import Dispatcher

  // ---------------------------------------------------------------------
  // The marks of a trace
  // ---------------------------------------------------------------------

  /** When each pair was last marked, as far as its rule has been listed since, with no restart. */
  function LastMarks(trace: seq<Event>): map<Key, int> {
    if trace == [] then map[] else
    var m := LastMarks(trace[..|trace| - 1]);
    match trace[|trace| - 1]
    case Restarted => map[]
    case Listing(ids) => map k | k in m && k.rule in ids :: m[k]
    case Sent(rule, channel, _, markedAt, _, _) => m[Key(rule, channel) := markedAt]
    case _ => m
  }

  /** The pair was marked less than `window` ago. */
  predicate Cooling(trace: seq<Event>, k: Key, window: int, now: int) {
    k in LastMarks(trace) && now - LastMarks(trace)[k] < window
  }

  lemma MarksLog(trace: seq<Event>, e: Event)
    ensures LastMarks(trace + [e]) ==
      match e
      case Restarted => map[]
      case Listing(ids) => (map k | k in LastMarks(trace) && k.rule in ids :: LastMarks(trace)[k])
      case Sent(rule, channel, _, markedAt, _, _) => LastMarks(trace)[Key(rule, channel) := markedAt]
      case _ => LastMarks(trace)
  {
    assert (trace + [e])[..|trace|] == trace;
  }

  // ---------------------------------------------------------------------
  // The reference: the events a rule adds
  // ---------------------------------------------------------------------

  /** One channel: nothing inside the cooldown, else an attempt, and a send when it works. */
  function TriedTrace(trace: seq<Event>, r: Rule, channel: string, a: Attempt): seq<Event> {
    var window := r.cooldownSecs * SECOND;
    if Cooling(trace, Key(r.id, channel), window, a.checkedAt) then trace
    else if Dispatcher.SendWorks(r.severity, a.senderFor, a.answer)
    then trace + [Attempted(r.id, channel)] + [Sent(r.id, channel, a.sentAt, a.markedAt, true, window)]
    else trace + [Attempted(r.id, channel)]
  }

  function FanOutTrace(trace: seq<Event>, r: Rule, attempts: seq<Attempt>, n: nat): seq<Event>
    requires n <= |r.channels| == |attempts|
  {
    if n == 0 then trace
    else TriedTrace(FanOutTrace(trace, r, attempts, n - 1), r, r.channels[n - 1], attempts[n - 1])
  }

  /** A whole turn: silent on errors, a verdict otherwise, and the channels only on a match. */
  function TurnTrace(trace: seq<Event>, r: Rule, env: RuleEnv): seq<Event>
    requires |env.attempts| == |r.channels|
  {
    if !env.reading.Value? || Evaluate(r.kind, env.reading.value, r.params).Undecided? then trace + [NoVerdict(r.id)]
    else if Evaluate(r.kind, env.reading.value, r.params).fired
    then FanOutTrace(trace + [Judged(r.id, true)], r, env.attempts, |r.channels|)
    else trace + [Judged(r.id, false)]
  }

  // ---------------------------------------------------------------------
  // The table agrees with the trace
  // ---------------------------------------------------------------------

  ghost predicate MarksOrdered(trace: seq<Event>) {
    forall i, j :: 0 <= i < j < |trace| && trace[i].Sent? && trace[j].Sent? ==> trace[i].markedAt <= trace[j].markedAt
  }

  ghost predicate MarkedBy(trace: seq<Event>, clock: int) {
    forall i :: 0 <= i < |trace| && trace[i].Sent? ==> trace[i].markedAt <= clock
  }

  /** An entry is the pair's last mark; a missing one is older than any legal cooldown. */
  ghost predicate TableExact(s: State) {
    && MarksOrdered(s.trace) && MarkedBy(s.trace, s.clock)
    && (forall k :: k in s.entries ==> k in LastMarks(s.trace) && s.entries[k] == LastMarks(s.trace)[k])
    && (forall k :: k in LastMarks(s.trace) ==>
          LastMarks(s.trace)[k] <= s.clock && (k in s.entries || s.clock >= LastMarks(s.trace)[k] + EVICTION_FLOOR))
  }

  lemma HotIsCooling(s: State, k: Key, window: int, now: int)
    requires TableExact(s) && s.clock <= now && window <= EVICTION_FLOOR
    ensures Hot(s.entries, k, window, now) <==> Cooling(s.trace, k, window, now)
  {
  }

  lemma ExactLog(s: State, e: Event)
    requires TableExact(s) && !e.Sent? && !e.Listing? && !e.Restarted?
    ensures TableExact(s.Log(e))
  {
    MarksLog(s.trace, e);
  }

  lemma ExactSend(s: State, e: Event)
    requires TableExact(s) && e.Sent? && s.clock <= e.markedAt
    ensures TableExact(s.Log(e).(clock := e.markedAt, entries := s.entries[PairOf(e) := e.markedAt]))
  {
    MarksLog(s.trace, e);
  }

  lemma ExactChannel(s: State, r: Rule, channel: string, a: Attempt)
    requires TableExact(s) && OnTime(s, a)
    ensures TableExact(OneChannel(s, r, channel, a))
  {
    var tried := s.Log(Attempted(r.id, channel));
    ExactLog(s, Attempted(r.id, channel));
    ExactSend(tried, Sent(r.id, channel, a.sentAt, a.markedAt, r.kind != KIND_STATE, r.CooldownWindow()));
  }

  /** One channel of a threshold rule with a legal cooldown adds what the reference says. */
  lemma ChannelTrace(s: State, r: Rule, channel: string, a: Attempt)
    requires TableExact(s) && OnTime(s, a) && r.kind != KIND_STATE && r.cooldownSecs <= COOLDOWN_SECS_MAX
    ensures OneChannel(s, r, channel, a).trace == TriedTrace(s.trace, r, channel, a)
  {
    HotIsCooling(s, Key(r.id, channel), r.cooldownSecs * SECOND, a.checkedAt);
    DeliveredExactlyWhen(r, channel, a);
  }

  lemma {:induction false} ExactFanOut(s: State, r: Rule, env: RuleEnv, n: nat)
    requires n <= |r.channels| == |env.attempts| && TableExact(s) && TimedRule(s, r, env)
    ensures TableExact(FanOut(s, r, env.attempts, n))
  {
    if n > 0 {
      ExactFanOut(s, r, env, n - 1);
      assert OnTime(FanOut(s, r, env.attempts, n - 1), env.attempts[n - 1]);
      ExactChannel(FanOut(s, r, env.attempts, n - 1), r, r.channels[n - 1], env.attempts[n - 1]);
    }
  }

  /** The first `n` channels of a threshold rule add what the reference says. */
  ghost predicate TracedTo(s: State, r: Rule, attempts: seq<Attempt>, n: nat)
    requires n <= |r.channels| == |attempts|
  {
    FanOut(s, r, attempts, n).trace == FanOutTrace(s.trace, r, attempts, n)
  }

  lemma TracedOneMore(s: State, r: Rule, env: RuleEnv, n: nat)
    requires n < |r.channels| == |env.attempts| && TableExact(s) && TimedRule(s, r, env)
    requires r.kind != KIND_STATE && r.cooldownSecs <= COOLDOWN_SECS_MAX && TracedTo(s, r, env.attempts, n)
    ensures TracedTo(s, r, env.attempts, n + 1)
  {
    var before := FanOut(s, r, env.attempts, n);
    ExactFanOut(s, r, env, n);
    assert OnTime(before, env.attempts[n]);
    ChannelTrace(before, r, r.channels[n], env.attempts[n]);
  }

  lemma FanOutIsTrace(s: State, r: Rule, env: RuleEnv)
    requires |r.channels| == |env.attempts| && TableExact(s) && TimedRule(s, r, env)
    requires r.kind != KIND_STATE && r.cooldownSecs <= COOLDOWN_SECS_MAX
    ensures TracedTo(s, r, env.attempts, |r.channels|)
  {
    for n := 0 to |r.channels|
      invariant TracedTo(s, r, env.attempts, n)
    {
      TracedOneMore(s, r, env, n);
    }
  }

  ghost predicate TimedTurn(s: State, r: Rule, env: RuleEnv)
    requires |env.attempts| == |r.channels|
  {
    forall fired :: TimedRule(s.Log(Judged(r.id, fired)), r, env)
  }

  lemma ExactRule(s: State, r: Rule, env: RuleEnv)
    requires |env.attempts| == |r.channels| && TableExact(s) && TimedTurn(s, r, env)
    ensures TableExact(EvalRule(s, r, env))
  {
    match Judge(r, env)
    case Undecided => ExactLog(s, NoVerdict(r.id));
    case Decided(fired) =>
      ExactLog(s, Judged(r.id, fired));
      ExactFanOut(s.Log(Judged(r.id, fired)), r, env, |r.channels|);
  }

  /** A threshold rule's turn adds the reference's events and touches no row. */
  lemma TurnIsTrace(s: State, r: Rule, env: RuleEnv)
    requires |env.attempts| == |r.channels| && TableExact(s) && TimedTurn(s, r, env)
    requires r.kind != KIND_STATE && r.cooldownSecs <= COOLDOWN_SECS_MAX
    ensures EvalRule(s, r, env).trace == TurnTrace(s.trace, r, env) && EvalRule(s, r, env).rules == s.rules
  {
    match Judge(r, env)
    case Undecided =>
    case Decided(fired) =>
      ExactLog(s, Judged(r.id, fired));
      FanOutIsTrace(s.Log(Judged(r.id, fired)), r, env);
      FanOutRules(s.Log(Judged(r.id, fired)), r, env.attempts, |r.channels|);
  }

  lemma ExactBegin(s: State, evictAt: int)
    requires TableExact(s) && s.clock <= evictAt
    ensures TableExact(BeginTick(s, evictAt))
  {
    MarksLog(s.trace, Listing(s.rules.Keys));
  }

  lemma {:induction false} ExactAll(s: State, env: TickEnv, n: nat)
    requires WellFormed(s.rules, env) && env.Listed? && TimedTick(s, env) && TableExact(s) && n <= |env.order|
    ensures TableExact(EvalAll(BeginTick(s, env.evictAt), s.rules, env.order, env.envs, n))
  {
    if n == 0 {
      ExactBegin(s, env.evictAt);
    } else {
      ExactAll(s, env, n - 1);
      var before := EvalAll(BeginTick(s, env.evictAt), s.rules, env.order, env.envs, n - 1);
      assert TimedTurn(before, s.rules[env.order[n - 1]], env.envs[n - 1]);
      ExactRule(before, s.rules[env.order[n - 1]], env.envs[n - 1]);
    }
  }

  lemma ExactRestart(s: State)
    requires TableExact(s)
    ensures TableExact(Next(s, Restart))
  {
    MarksLog(s.trace, Restarted);
  }

  /** In every timed run the table and the trace tell the same. */
  lemma {:induction false} ExactRun(s: State, steps: seq<Step>)
    requires Booted(s) && Timed(s, steps)
    ensures TableExact(Run(s, steps))
  {
    if steps != [] {
      var n := |steps| - 1;
      var before := steps[..n];
      assert forall i :: 0 <= i < n ==> before[..i] == steps[..i];
      ExactRun(s, before);
      if steps[n].Poll? && steps[n].env.Listed? {
        ExactAll(Run(s, before), steps[n].env, |steps[n].env.order|);
      } else if steps[n].Restart? {
        ExactRestart(Run(s, before));
      }
    }
  }

  /**
   In every run, at the turn of an enabled threshold rule with a legal cooldown, the trace grows by exactly
   the reference's events; a disabled rule adds nothing.
   */
  lemma ThresholdTurnExact(s: State, steps: seq<Step>, env: TickEnv, p: nat)
    requires Booted(s) && Timed(s, steps) && env.Listed?
    requires var w := Run(s, steps);
      && WellFormed(w.rules, env) && TimedTick(w, env) && p < |env.order|
      && w.rules[env.order[p]].kind != KIND_STATE && w.rules[env.order[p]].cooldownSecs <= COOLDOWN_SECS_MAX
    ensures var w := Run(s, steps);
      var before := EvalAll(BeginTick(w, env.evictAt), w.rules, env.order, env.envs, p);
      var after := EvalAll(BeginTick(w, env.evictAt), w.rules, env.order, env.envs, p + 1);
      after.trace == if w.rules[env.order[p]].enabled
                     then TurnTrace(before.trace, w.rules[env.order[p]], env.envs[p]) else before.trace
  {
    var w := Run(s, steps);
    ExactRun(s, steps);
    ExactAll(w, env, p);
    var before := EvalAll(BeginTick(w, env.evictAt), w.rules, env.order, env.envs, p);
    assert TimedTurn(before, w.rules[env.order[p]], env.envs[p]);
    TurnIsTrace(before, w.rules[env.order[p]], env.envs[p]);
  }

  // ---------------------------------------------------------------------
  // The cooldown, on the events themselves
  // ---------------------------------------------------------------------

  /** A send of the pair since which its rule has been listed and the watcher up. */
  ghost predicate Counts(trace: seq<Event>, j: nat, k: Key) {
    j < |trace| && trace[j].Sent? && PairOf(trace[j]) == k && ListedBetween(trace, j, |trace|, k.rule)
  }

  lemma {:induction false} MarkCounts(trace: seq<Event>, k: Key) returns (j: nat)
    requires k in LastMarks(trace)
    ensures Counts(trace, j, k) && trace[j].markedAt == LastMarks(trace)[k]
  {
    var n := |trace| - 1;
    if trace[n].Sent? && PairOf(trace[n]) == k {
      j := n;
    } else {
      j := MarkCounts(trace[..n], k);
      assert trace[..n][j] == trace[j];
      forall m | j < m < |trace| ensures !trace[m].Restarted? && (trace[m].Listing? ==> k.rule in trace[m].ids) {
        if m < n {
          assert trace[..n][m] == trace[m];
        }
      }
    }
  }

  lemma {:induction false} CountingMarkRemembered(trace: seq<Event>, j: nat, k: Key)
    requires Counts(trace, j, k) && MarksOrdered(trace)
    ensures k in LastMarks(trace) && LastMarks(trace)[k] >= trace[j].markedAt
  {
    var n := |trace| - 1;
    if j < n {
      var init := trace[..n];
      assert init[j] == trace[j];
      assert forall m :: 0 <= m < n ==> init[m] == trace[m];
      CountingMarkRemembered(init, j, k);
      var i := MarkCounts(init, k);
    }
  }

  /** A pair cools exactly when one of its sends was marked less than the window ago, its rule listed and the watcher up since. */
  lemma CoolingExactlyWhen(trace: seq<Event>, k: Key, window: int, now: int)
    requires MarksOrdered(trace)
    ensures Cooling(trace, k, window, now) <==> exists j: nat :: Counts(trace, j, k) && now - trace[j].markedAt < window
  {
    if Cooling(trace, k, window, now) {
      var j := MarkCounts(trace, k);
      assert now - trace[j].markedAt < window;
    }
    if j: nat :| Counts(trace, j, k) && now - trace[j].markedAt < window {
      CountingMarkRemembered(trace, j, k);
    }
  }

  /** A pair none of whose sends is that recent is tried, and reached exactly when the send works. */
  lemma QuietPairTried(trace: seq<Event>, r: Rule, channel: string, a: Attempt)
    requires forall j: nat :: j < |trace| && trace[j].Sent? && PairOf(trace[j]) == Key(r.id, channel) ==>
               a.checkedAt - trace[j].markedAt >= r.cooldownSecs * SECOND
    ensures var out := TriedTrace(trace, r, channel, a);
      && |out| > |trace| && out[|trace|] == Attempted(r.id, channel)
      && (|out| == |trace| + 2 <==>
            a.answer.load.Loaded? && a.answer.load.channel.enabled && a.answer.load.channel.minSeverity <= r.severity
            && a.senderFor(a.answer.load.channel).None? && a.answer.sendError.None?)
  {
    var k := Key(r.id, channel);
    if k in LastMarks(trace) {
      var j := MarkCounts(trace, k);
    }
  }
}
