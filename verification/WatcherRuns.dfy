/**
 What holds of every run of the alerting watcher: ticks of `WatcherLoop`
 interleaved with operator edits of the rule store and restarts, over a clock
 that never goes back.
 */
module WatcherRuns {
  import opened Cooldown
  import opened Evaluator
  import opened WatcherLoop

  /** A restart loses the cooldown table; the rules and their edge bits are stored. */
  datatype Step = Poll(env: TickEnv) | Edit(rules: map<string, Rule>) | Restart

  ghost function Next(s: State, step: Step): State {
    match step
    case Poll(env) => if WellFormed(s.rules, env) then Tick(s, env) else s
    case Edit(rules) => s.(rules := rules)
    case Restart => s.Log(Restarted).(entries := map[])
  }

  ghost function Run(s: State, steps: seq<Step>): State {
    if steps == [] then s else Next(Run(s, steps[..|steps| - 1]), steps[|steps| - 1])
  }

  /** Freshly started: an empty cooldown table and nothing observed yet. */
  ghost predicate Booted(s: State) {
    s.entries == map[] && s.trace == []
  }

  // ---------------------------------------------------------------------
  // Time
  // ---------------------------------------------------------------------

  predicate OnTime(s: State, a: Attempt) {
    s.clock <= a.checkedAt <= a.sentAt <= a.markedAt
  }

  ghost predicate TimedRule(s: State, r: Rule, env: RuleEnv)
    requires |env.attempts| == |r.channels|
  {
    forall n :: 0 <= n < |r.channels| ==> OnTime(FanOut(s, r, env.attempts, n), env.attempts[n])
  }

  ghost predicate TimedTick(s: State, env: TickEnv)
    requires WellFormed(s.rules, env)
  {
    env.Listed? ==>
      && s.clock <= env.evictAt
      && forall n :: 0 <= n < |env.order| ==>
           var before := EvalAll(BeginTick(s, env.evictAt), s.rules, env.order, env.envs, n);
           var r := s.rules[env.order[n]];
           forall fired :: TimedRule(before.Log(Judged(r.id, fired)), r, env.envs[n])
  }

  /** Every poll of the run sees the store as it is and a clock that never goes back. */
  ghost predicate Timed(s: State, steps: seq<Step>) {
    forall i :: 0 <= i < |steps| && steps[i].Poll? ==>
      && WellFormed(Run(s, steps[..i]).rules, steps[i].env)
      && TimedTick(Run(s, steps[..i]), steps[i].env)
  }

  // ---------------------------------------------------------------------
  // Threshold rules: minimum spacing
  // ---------------------------------------------------------------------

  function PairOf(e: Event): Key
    requires e.Sent?
  {
    Key(e.rule, e.channel)
  }

  /** The last send of each pair whose rule has been in every listing since, with no restart. */
  function LastSends(trace: seq<Event>): map<Key, int> {
    if trace == [] then map[] else
    var m := LastSends(trace[..|trace| - 1]);
    match trace[|trace| - 1]
    case Restarted => map[]
    case Listing(ids) => map k | k in m && k.rule in ids :: m[k]
    case Sent(rule, channel, at, _, _, _) => m[Key(rule, channel) := at]
    case _ => m
  }

  /** A gated send with a legal window keeps its distance from the previous one. */
  ghost predicate Distant(before: seq<Event>, e: Event) {
    e.Sent? && e.gated && e.window <= EVICTION_FLOOR && PairOf(e) in LastSends(before) ==>
      e.at >= LastSends(before)[PairOf(e)] + e.window
  }

  ghost predicate Spaced(trace: seq<Event>) {
    forall j :: 0 <= j < |trace| ==> Distant(trace[..j], trace[j])
  }

  ghost predicate SendsOrdered(trace: seq<Event>) {
    forall i, j :: 0 <= i < j < |trace| && trace[i].Sent? && trace[j].Sent? ==> trace[i].at <= trace[j].at
  }

  ghost predicate SentBy(trace: seq<Event>, clock: int) {
    forall i :: 0 <= i < |trace| && trace[i].Sent? ==> trace[i].at <= clock
  }

  /** The table still remembers the last send, or that send is older than any legal cooldown. */
  ghost predicate Remembered(s: State) {
    forall k :: k in LastSends(s.trace) ==>
      var at := LastSends(s.trace)[k];
      at <= s.clock && ((k in s.entries && s.entries[k] >= at) || s.clock >= at + EVICTION_FLOOR)
  }

  ghost predicate Guarded(s: State) {
    Remembered(s) && Spaced(s.trace) && SendsOrdered(s.trace) && SentBy(s.trace, s.clock)
  }

  lemma Snoc(trace: seq<Event>, e: Event)
    ensures (trace + [e])[..|trace|] == trace
    ensures Spaced(trace) && Distant(trace, e) ==> Spaced(trace + [e])
  {
    assert (trace + [e])[..|trace|] == trace;
    if Spaced(trace) && Distant(trace, e) {
      forall j | 0 <= j < |trace + [e]| ensures Distant((trace + [e])[..j], (trace + [e])[j]) {
        if j < |trace| {
          assert (trace + [e])[..j] == trace[..j];
        }
      }
    }
  }

  lemma GuardedLog(s: State, e: Event)
    requires Guarded(s) && !e.Sent?
    ensures Guarded(s.Log(e))
  {
    Snoc(s.trace, e);
  }

  lemma GuardedLater(s: State, clock: int)
    requires Guarded(s) && s.clock <= clock
    ensures Guarded(s.(clock := clock))
  {
  }

  lemma RememberedSend(s: State, e: Event, markedAt: int)
    requires Remembered(s) && e.Sent? && s.clock <= e.at <= markedAt
    ensures Remembered(s.Log(e).(clock := markedAt, entries := s.entries[PairOf(e) := markedAt]))
  {
    assert (s.trace + [e])[..|s.trace|] == s.trace;
    assert LastSends(s.trace + [e]) == LastSends(s.trace)[PairOf(e) := e.at];
  }

  /** A send that the table did not hold back, followed by its mark. */
  lemma GuardedSend(s: State, e: Event, markedAt: int)
    requires Guarded(s) && e.Sent? && s.clock <= e.at <= markedAt && Distant(s.trace, e)
    ensures Guarded(s.Log(e).(clock := markedAt, entries := s.entries[PairOf(e) := markedAt]))
  {
    Snoc(s.trace, e);
    RememberedSend(s, e, markedAt);
  }

  /** A gated send that is not hot is far enough from the last one. */
  lemma ColdIsDistant(s: State, e: Event, checkedAt: int)
    requires Remembered(s) && e.Sent? && s.clock <= checkedAt <= e.at
    requires !Hot(s.entries, PairOf(e), e.window, checkedAt)
    ensures Distant(s.trace, e)
  {
  }

  lemma GuardedChannel(s: State, r: Rule, channel: string, a: Attempt)
    requires Guarded(s) && OnTime(s, a)
    ensures Guarded(OneChannel(s, r, channel, a))
  {
    var tried := s.Log(Attempted(r.id, channel));
    var e := Sent(r.id, channel, a.sentAt, a.markedAt, r.kind != KIND_STATE, r.CooldownWindow());
    if Blocked(s, r, channel, a) {
      GuardedLater(s, a.markedAt);
    } else {
      GuardedLog(s, Attempted(r.id, channel));
      if Delivered(r, channel, a) {
        if e.gated {
          ColdIsDistant(tried, e, a.checkedAt);
        }
        GuardedSend(tried, e, a.markedAt);
      } else {
        GuardedLater(tried, a.markedAt);
      }
    }
  }

  lemma {:induction false} GuardedFanOut(s: State, r: Rule, env: RuleEnv, n: nat)
    requires n <= |r.channels| == |env.attempts|
    requires Guarded(s) && TimedRule(s, r, env)
    ensures Guarded(FanOut(s, r, env.attempts, n))
  {
    if n > 0 {
      GuardedFanOut(s, r, env, n - 1);
      assert OnTime(FanOut(s, r, env.attempts, n - 1), env.attempts[n - 1]);
      GuardedChannel(FanOut(s, r, env.attempts, n - 1), r, r.channels[n - 1], env.attempts[n - 1]);
    }
  }

  lemma GuardedRule(s: State, r: Rule, env: RuleEnv)
    requires |env.attempts| == |r.channels| && Guarded(s)
    requires forall fired :: TimedRule(s.Log(Judged(r.id, fired)), r, env)
    ensures Guarded(EvalRule(s, r, env))
  {
    match Judge(r, env)
    case Undecided => GuardedLog(s, NoVerdict(r.id));
    case Decided(fired) =>
      GuardedLog(s, Judged(r.id, fired));
      GuardedFanOut(s.Log(Judged(r.id, fired)), r, env, |r.channels|);
  }

  lemma GuardedBegin(s: State, evictAt: int)
    requires Guarded(s) && s.clock <= evictAt
    ensures Guarded(BeginTick(s, evictAt))
  {
    Snoc(s.trace, Listing(s.rules.Keys));
  }

  lemma {:induction false} GuardedAll(s: State, env: TickEnv, n: nat)
    requires WellFormed(s.rules, env) && env.Listed? && TimedTick(s, env) && Guarded(s)
    requires n <= |env.order|
    ensures Guarded(EvalAll(BeginTick(s, env.evictAt), s.rules, env.order, env.envs, n))
  {
    if n == 0 {
      GuardedBegin(s, env.evictAt);
    } else {
      GuardedAll(s, env, n - 1);
      GuardedRule(EvalAll(BeginTick(s, env.evictAt), s.rules, env.order, env.envs, n - 1),
                  s.rules[env.order[n - 1]], env.envs[n - 1]);
    }
  }

  lemma GuardedRestart(s: State)
    requires Guarded(s)
    ensures Guarded(Next(s, Restart))
  {
    Snoc(s.trace, Restarted);
  }

  lemma {:induction false} GuardedRun(s: State, steps: seq<Step>)
    requires Booted(s) && Timed(s, steps)
    ensures Guarded(Run(s, steps))
  {
    if steps != [] {
      var n := |steps| - 1;
      var before := steps[..n];
      assert forall i :: 0 <= i < n ==> before[..i] == steps[..i];
      GuardedRun(s, before);
      if steps[n].Poll? && steps[n].env.Listed? {
        GuardedAll(Run(s, before), steps[n].env, |steps[n].env.order|);
      } else if steps[n].Restart? {
        GuardedRestart(Run(s, before));
      }
    }
  }

  /** Strictly between the two events no listing leaves the rule out and the watcher is not restarted. */
  ghost predicate ListedBetween(trace: seq<Event>, i: nat, j: nat, rule: string) {
    forall m :: i < m < j && m < |trace| ==> !trace[m].Restarted? && (trace[m].Listing? ==> rule in trace[m].ids)
  }

  lemma {:induction false} LastSendCovers(trace: seq<Event>, i: nat, j: nat)
    requires i < j <= |trace| && trace[i].Sent? && SendsOrdered(trace)
    requires ListedBetween(trace, i, j, trace[i].rule)
    ensures PairOf(trace[i]) in LastSends(trace[..j])
    ensures LastSends(trace[..j])[PairOf(trace[i])] >= trace[i].at
    decreases j
  {
    assert trace[..j][..j - 1] == trace[..j - 1];
    if i < j - 1 {
      LastSendCovers(trace, i, j - 1);
    }
  }

  /**
   In every run, two sends of a rule to one channel are at least the cooldown
   apart that was in force at the second one, as long as the rule stayed listed
   and the watcher up in between and that cooldown is legal - whatever is evicted each tick, however
   the rule was edited, and however often it names the channel.
   */
  lemma ThresholdSpacing(s: State, steps: seq<Step>, i: nat, j: nat)
    requires Booted(s) && Timed(s, steps)
    requires i < j < |Run(s, steps).trace|
    requires
      var trace := Run(s, steps).trace;
      && trace[i].Sent? && trace[j].Sent? && PairOf(trace[i]) == PairOf(trace[j])
      && trace[j].gated && trace[j].window <= COOLDOWN_SECS_MAX * SECOND
      && ListedBetween(trace, i, j, trace[i].rule)
    ensures Run(s, steps).trace[j].at - Run(s, steps).trace[i].at >= Run(s, steps).trace[j].window
  {
    GuardedRun(s, steps);
    var trace := Run(s, steps).trace;
    LastSendCovers(trace, i, j);
    assert Distant(trace[..j], trace[j]);
  }

  // ---------------------------------------------------------------------
  // State rules: one fire per matched episode
  // ---------------------------------------------------------------------

  /** What a trace says about one rule. */
  datatype Story = Story(
    delivered: bool,            // some channel received it since the last evaluation that did not match, restarts included
    attempts: seq<string>,      // every channel tried, in order
    deliveries: seq<string>,    // every channel reached, in order
    misses: nat)                // evaluations that did not match

  function Tell(v: Story, e: Event, id: string): Story {
    match e
    case Attempted(rule, channel) => if rule == id then v.(attempts := v.attempts + [channel]) else v
    case Sent(rule, channel, _, _, _, _) =>
      if rule == id then v.(delivered := true, deliveries := v.deliveries + [channel]) else v
    case Judged(rule, matched) =>
      if rule == id && !matched then v.(delivered := false, misses := v.misses + 1) else v
    case _ => v
  }

  /** `was` is the stored edge bit when the watcher started: an episode may have begun before. */
  function StoryOf(trace: seq<Event>, id: string, was: bool): Story {
    if trace == [] then Story(was, [], [], 0)
    else Tell(StoryOf(trace[..|trace| - 1], id, was), trace[|trace| - 1], id)
  }

  lemma StoryLog(s: State, e: Event, id: string, was: bool)
    ensures StoryOf(s.Log(e).trace, id, was) == Tell(StoryOf(s.trace, id, was), e, id)
  {
    assert s.Log(e).trace[..|s.trace|] == s.trace;
  }

  /** A state rule whose stored edge bit agrees with its story. */
  ghost predicate EdgeExact(s: State, id: string, was: bool) {
    && id in s.rules && s.rules[id].id == id && s.rules[id].kind == KIND_STATE
    && (s.rules[id].lastMatched <==> StoryOf(s.trace, id, was).delivered)
  }

  lemma ChannelStory(s: State, r: Rule, channel: string, a: Attempt, id: string, was: bool)
    ensures r.id != id ==> StoryOf(OneChannel(s, r, channel, a).trace, id, was) == StoryOf(s.trace, id, was)
    ensures r.id == id && r.kind == KIND_STATE ==>
      StoryOf(OneChannel(s, r, channel, a).trace, id, was) ==
      Advance(StoryOf(s.trace, id, was), [channel], if Delivered(r, channel, a) then [channel] else [])
  {
    var e := Sent(r.id, channel, a.sentAt, a.markedAt, r.kind != KIND_STATE, r.CooldownWindow());
    StoryLog(s, Attempted(r.id, channel), id, was);
    StoryLog(s.Log(Attempted(r.id, channel)), e, id, was);
  }

  lemma {:induction false} FanOutRules(s: State, r: Rule, attempts: seq<Attempt>, n: nat)
    requires n <= |r.channels| == |attempts|
    ensures FanOut(s, r, attempts, n).rules == s.rules
  {
    if n > 0 {
      FanOutRules(s, r, attempts, n - 1);
    }
  }

  lemma {:induction false} OtherFanOut(s: State, r: Rule, attempts: seq<Attempt>, n: nat, id: string, was: bool)
    requires n <= |r.channels| == |attempts| && r.id != id
    ensures StoryOf(FanOut(s, r, attempts, n).trace, id, was) == StoryOf(s.trace, id, was)
  {
    if n > 0 {
      OtherFanOut(s, r, attempts, n - 1, id, was);
      ChannelStory(FanOut(s, r, attempts, n - 1), r, r.channels[n - 1], attempts[n - 1], id, was);
    }
  }

  /** The story after trying `tried` and reaching `fired`. */
  function Advance(v: Story, tried: seq<string>, fired: seq<string>): Story {
    Story(v.delivered || fired != [], v.attempts + tried, v.deliveries + fired, v.misses)
  }

  lemma AdvanceOne(v: Story, tried: seq<string>, fired: seq<string>, channel: string)
    ensures Advance(Advance(v, tried, fired), [channel], []) == Advance(v, tried + [channel], fired)
    ensures Advance(Advance(v, tried, fired), [channel], [channel]) == Advance(v, tried + [channel], fired + [channel])
    ensures Advance(v, [], []) == v
  {
  }

  lemma OwnChannel(s: State, r: Rule, channel: string, a: Attempt, v: Story, tried: seq<string>, fired: seq<string>, was: bool)
    requires r.kind == KIND_STATE && StoryOf(s.trace, r.id, was) == Advance(v, tried, fired)
    ensures StoryOf(OneChannel(s, r, channel, a).trace, r.id, was) ==
            Advance(v, tried + [channel], fired + if Delivered(r, channel, a) then [channel] else [])
  {
    ChannelStory(s, r, channel, a, r.id, was);
    AdvanceOne(v, tried, fired, channel);
    assert fired + [] == fired;
  }

  ghost predicate FannedOut(s: State, r: Rule, attempts: seq<Attempt>, n: nat, was: bool)
    requires n <= |r.channels| == |attempts|
  {
    StoryOf(FanOut(s, r, attempts, n).trace, r.id, was) ==
    Advance(StoryOf(s.trace, r.id, was), r.channels[..n], FiredChannels(s, r, attempts, n))
  }

  lemma FannedOutOneMore(s: State, r: Rule, attempts: seq<Attempt>, n: nat, was: bool)
    requires n < |r.channels| == |attempts| && r.kind == KIND_STATE && FannedOut(s, r, attempts, n, was)
    ensures FannedOut(s, r, attempts, n + 1, was)
  {
    OwnChannel(FanOut(s, r, attempts, n), r, r.channels[n], attempts[n],
               StoryOf(s.trace, r.id, was), r.channels[..n], FiredChannels(s, r, attempts, n), was);
    assert r.channels[..n + 1] == r.channels[..n] + [r.channels[n]];
  }

  lemma FannedOutNone(s: State, r: Rule, attempts: seq<Attempt>, was: bool)
    requires |r.channels| == |attempts|
    ensures FannedOut(s, r, attempts, 0, was)
  {
    AdvanceOne(StoryOf(s.trace, r.id, was), [], [], "");
  }

  lemma OwnFanOut(s: State, r: Rule, attempts: seq<Attempt>, n: nat, was: bool)
    requires n <= |r.channels| == |attempts| && r.kind == KIND_STATE
    ensures FannedOut(s, r, attempts, n, was)
  {
    FannedOutNone(s, r, attempts, was);
    for i := 0 to n
      invariant FannedOut(s, r, attempts, i, was)
    {
      FannedOutOneMore(s, r, attempts, i, was);
    }
  }

  /** Evaluating another rule changes nothing about this one. */
  lemma OtherRule(s: State, r: Rule, env: RuleEnv, id: string, was: bool)
    requires |env.attempts| == |r.channels| && r.id != id
    ensures var s' := EvalRule(s, r, env);
      && StoryOf(s'.trace, id, was) == StoryOf(s.trace, id, was)
      && (id in s'.rules <==> id in s.rules)
      && (id in s.rules ==> s'.rules[id] == s.rules[id])
  {
    match Judge(r, env)
    case Undecided => StoryLog(s, NoVerdict(r.id), id, was);
    case Decided(fired) =>
      StoryLog(s, Judged(r.id, fired), id, was);
      FanOutRules(s.Log(Judged(r.id, fired)), r, env.attempts, |r.channels|);
      OtherFanOut(s.Log(Judged(r.id, fired)), r, env.attempts, |r.channels|, id, was);
  }

  /** The story one evaluation adds, as the design promises it. */
  ghost predicate Continues(v: Story, v': Story, r: Rule, verdict: Verdict) {
    match verdict
    case Undecided => v' == v
    case Decided(false) => v' == v.(delivered := false, misses := v.misses + 1)
    case Decided(true) =>
      if v.delivered then v' == v
      else
        && v'.attempts == v.attempts + r.channels
        && v'.misses == v.misses
        && v.deliveries <= v'.deliveries
        && (v'.delivered <==> v'.deliveries != v.deliveries)
  }

  /** The evaluation changes the edge and so has to write the bit. */
  predicate EdgeMoves(s: State, r: Rule, env: RuleEnv)
    requires |env.attempts| == |r.channels|
  {
    match Judge(r, env)
    case Undecided => false
    case Decided(false) => r.lastMatched
    case Decided(true) =>
      !r.lastMatched && FiredChannels(s.Log(Judged(r.id, true)), r, env.attempts, |r.channels|) != []
  }

  /** What the write after an evaluation leaves: the story as it was, and the bit as written. */
  lemma WriteStory(s: State, id: string, matched: bool, ok: bool)
    requires id in s.rules
    ensures var s' := WriteMatched(s, id, matched, ok);
      && s'.trace == s.trace && id in s'.rules
      && s'.rules[id] == if ok then s.rules[id].(lastMatched := matched) else s.rules[id]
  {
  }

  lemma OwnMiss(s: State, r: Rule, env: RuleEnv, was: bool)
    requires |env.attempts| == |r.channels| && Judge(r, env) == Decided(false)
    requires EdgeExact(s, r.id, was) && s.rules[r.id] == r
    ensures Continues(StoryOf(s.trace, r.id, was), StoryOf(EvalRule(s, r, env).trace, r.id, was), r, Decided(false))
    ensures EdgeExact(EvalRule(s, r, env), r.id, was) <==> (env.matchedWriteOk || !r.lastMatched)
  {
    StoryLog(s, Judged(r.id, false), r.id, was);
    WriteStory(s.Log(Judged(r.id, false)), r.id, false, env.matchedWriteOk);
  }

  /** What a match with the bit clear adds to the story: every channel tried, those reached delivered. */
  lemma MatchStory(s: State, r: Rule, env: RuleEnv, was: bool)
    requires |env.attempts| == |r.channels| && r.kind == KIND_STATE
    ensures var judged := s.Log(Judged(r.id, true));
      && StoryOf(judged.trace, r.id, was) == StoryOf(s.trace, r.id, was)
      && StoryOf(FanOut(judged, r, env.attempts, |r.channels|).trace, r.id, was) ==
         Advance(StoryOf(s.trace, r.id, was), r.channels, FiredChannels(judged, r, env.attempts, |r.channels|))
      && FanOut(judged, r, env.attempts, |r.channels|).rules == s.rules
  {
    var judged := s.Log(Judged(r.id, true));
    StoryLog(s, Judged(r.id, true), r.id, was);
    FanOutRules(judged, r, env.attempts, |r.channels|);
    OwnFanOut(judged, r, env.attempts, |r.channels|, was);
    assert r.channels[..|r.channels|] == r.channels;
  }

  lemma OwnMatch(s: State, r: Rule, env: RuleEnv, was: bool)
    requires |env.attempts| == |r.channels| && Judge(r, env) == Decided(true) && !r.lastMatched
    requires EdgeExact(s, r.id, was) && s.rules[r.id] == r
    ensures Continues(StoryOf(s.trace, r.id, was), StoryOf(EvalRule(s, r, env).trace, r.id, was), r, Decided(true))
    ensures EdgeExact(EvalRule(s, r, env), r.id, was) <==> (env.matchedWriteOk || !EdgeMoves(s, r, env))
  {
    var sent := FanOut(s.Log(Judged(r.id, true)), r, env.attempts, |r.channels|);
    MatchStory(s, r, env, was);
    WriteStory(sent, r.id, true, env.matchedWriteOk);
  }

  /** The story continues whether or not the write works; the stored bit keeps up exactly when a needed write does. */
  lemma OwnRule(s: State, r: Rule, env: RuleEnv, was: bool)
    requires |env.attempts| == |r.channels|
    requires EdgeExact(s, r.id, was) && s.rules[r.id] == r
    ensures Continues(StoryOf(s.trace, r.id, was), StoryOf(EvalRule(s, r, env).trace, r.id, was), r, Judge(r, env))
    ensures EdgeExact(EvalRule(s, r, env), r.id, was) <==> (env.matchedWriteOk || !EdgeMoves(s, r, env))
  {
    match Judge(r, env)
    case Undecided => StoryLog(s, NoVerdict(r.id), r.id, was);
    case Decided(fired) =>
      if !fired {
        OwnMiss(s, r, env, was);
      } else if r.lastMatched {
        StoryLog(s, Judged(r.id, true), r.id, was);
      } else {
        OwnMatch(s, r, env, was);
      }
  }

  /**
   With the bit clear, a match tries every channel again whatever was delivered before: an edge bit
   lost outside the watcher costs a second alert for the same episode.
   */
  lemma ClearedBitFiresAgain(s: State, r: Rule, env: RuleEnv, was: bool)
    requires |env.attempts| == |r.channels| && r.kind == KIND_STATE && !r.lastMatched
    requires Judge(r, env) == Decided(true)
    ensures var v, v' := StoryOf(s.trace, r.id, was), StoryOf(EvalRule(s, r, env).trace, r.id, was);
      && v'.attempts == v.attempts + r.channels && v.deliveries <= v'.deliveries
      && (v'.deliveries != v.deliveries <==> exists n :: 0 <= n < |env.attempts| && Delivered(r, r.channels[n], env.attempts[n]))
  {
    MatchStory(s, r, env, was);
    FiredExactlyWhen(s.Log(Judged(r.id, true)), r, env.attempts, |r.channels|);
  }

  /** A state rule reaches some channel exactly when some send works. */
  lemma {:induction false} FiredExactlyWhen(s: State, r: Rule, attempts: seq<Attempt>, n: nat)
    requires n <= |r.channels| == |attempts| && r.kind == KIND_STATE
    ensures FiredChannels(s, r, attempts, n) != [] <==> exists i :: 0 <= i < n && Delivered(r, r.channels[i], attempts[i])
  {
    if n > 0 {
      FiredExactlyWhen(s, r, attempts, n - 1);
    }
  }

  /** The position of a rule in a listing. */
  ghost function PositionIn(order: seq<string>, id: string): (p: nat)
    requires id in order
    ensures p < |order| && order[p] == id
  {
    var p :| 0 <= p < |order| && order[p] == id;
    p
  }

  /** The verdict a tick reaches on a rule: none when the listing failed or the rule is disabled. */
  ghost function TickVerdict(s: State, env: TickEnv, id: string): Verdict
    requires WellFormed(s.rules, env) && id in s.rules
  {
    if env.Listed? && s.rules[id].enabled
    then Judge(s.rules[id], env.envs[PositionIn(env.order, id)]) else Undecided
  }

  ghost predicate WritesSucceed(s: State, env: TickEnv, id: string)
    requires WellFormed(s.rules, env) && id in s.rules
  {
    env.Listed? ==> env.envs[PositionIn(env.order, id)].matchedWriteOk
  }

  /** After the first `n` rules of a tick: untouched until the rule's own turn, continued from then on. */
  ghost predicate EdgeAfter(s: State, env: TickEnv, id: string, n: nat, was: bool)
    requires WellFormed(s.rules, env) && env.Listed? && n <= |env.order| && id in s.rules
  {
    var s' := EvalAll(BeginTick(s, env.evictAt), s.rules, env.order, env.envs, n);
    && EdgeExact(s', id, was)
    && if n <= PositionIn(env.order, id)
       then s'.rules[id] == s.rules[id] && StoryOf(s'.trace, id, was) == StoryOf(s.trace, id, was)
       else Continues(StoryOf(s.trace, id, was), StoryOf(s'.trace, id, was), s.rules[id], TickVerdict(s, env, id))
  }

  lemma EdgeStepOther(s: State, env: TickEnv, id: string, n: nat, was: bool)
    requires WellFormed(s.rules, env) && env.Listed? && n < |env.order| && id in s.rules
    requires EdgeAfter(s, env, id, n, was) && env.order[n] != id
    ensures EdgeAfter(s, env, id, n + 1, was)
  {
    var before := EvalAll(BeginTick(s, env.evictAt), s.rules, env.order, env.envs, n);
    OtherRule(before, s.rules[env.order[n]], env.envs[n], id, was);
  }

  lemma EdgeStepOwn(s: State, env: TickEnv, id: string, n: nat, was: bool)
    requires WellFormed(s.rules, env) && env.Listed? && n < |env.order| && id in s.rules
    requires EdgeAfter(s, env, id, n, was) && env.order[n] == id && WritesSucceed(s, env, id)
    ensures EdgeAfter(s, env, id, n + 1, was)
  {
    var before := EvalAll(BeginTick(s, env.evictAt), s.rules, env.order, env.envs, n);
    assert PositionIn(env.order, id) == n;
    if s.rules[id].enabled {
      OwnRule(before, s.rules[id], env.envs[n], was);
    }
  }

  lemma EdgeBegin(s: State, env: TickEnv, id: string, was: bool)
    requires WellFormed(s.rules, env) && env.Listed? && EdgeExact(s, id, was)
    ensures EdgeAfter(s, env, id, 0, was)
  {
    StoryLog(s, Listing(s.rules.Keys), id, was);
  }

  lemma EdgeAll(s: State, env: TickEnv, id: string, was: bool)
    requires WellFormed(s.rules, env) && env.Listed?
    requires EdgeExact(s, id, was) && WritesSucceed(s, env, id)
    ensures EdgeAfter(s, env, id, |env.order|, was)
  {
    EdgeBegin(s, env, id, was);
    for n := 0 to |env.order|
      invariant EdgeAfter(s, env, id, n, was)
    {
      if env.order[n] == id {
        EdgeStepOwn(s, env, id, n, was);
      } else {
        EdgeStepOther(s, env, id, n, was);
      }
    }
  }

  /**
   One tick keeps the edge bit exact and continues the story: an evaluation
   error or an unreachable source changes nothing; an evaluation that does not
   match ends the episode; a match tries every channel exactly when nothing was
   delivered yet in this episode, and is silent otherwise.
   */
  lemma StateRuleTick(s: State, env: TickEnv, id: string, was: bool)
    requires WellFormed(s.rules, env) && EdgeExact(s, id, was) && WritesSucceed(s, env, id)
    ensures EdgeExact(Tick(s, env), id, was)
    ensures Continues(StoryOf(s.trace, id, was), StoryOf(Tick(s, env).trace, id, was), s.rules[id], TickVerdict(s, env, id))
  {
    if env.Listed? {
      EdgeAll(s, env, id, was);
    }
  }

  /**
   From a start with any stored bit (nothing observed yet), through any restarts: edits leave this rule a state
   rule and its edge bit alone, and its edge writes reach the store.
   */
  ghost predicate Undisturbed(s: State, steps: seq<Step>, id: string) {
    && s.trace == [] && id in s.rules && s.rules[id].id == id && s.rules[id].kind == KIND_STATE
    && forall i :: 0 <= i < |steps| ==>
         var before := Run(s, steps[..i]);
         match steps[i]
         case Poll(env) => WellFormed(before.rules, env) && (id in before.rules ==> WritesSucceed(before, env, id))
         case Edit(rules) =>
           && id in rules && rules[id].id == id && rules[id].kind == KIND_STATE
           && (id in before.rules ==> rules[id].lastMatched == before.rules[id].lastMatched)
         case Restart => true
  }

  lemma RunPrefix(s: State, steps: seq<Step>, n: nat)
    requires n < |steps|
    ensures Run(s, steps[..n + 1]) == Next(Run(s, steps[..n]), steps[n])
  {
    assert steps[..n + 1][..n] == steps[..n];
  }

  /** After every step of such a run the bit is true exactly when the current episode has been delivered. */
  lemma {:induction false} EdgeBitExact(s: State, steps: seq<Step>, id: string, n: nat)
    requires Undisturbed(s, steps, id) && n <= |steps|
    ensures EdgeExact(Run(s, steps[..n]), id, s.rules[id].lastMatched)
  {
    if n > 0 {
      EdgeBitExact(s, steps, id, n - 1);
      RunPrefix(s, steps, n - 1);
      match steps[n - 1]
      case Poll(env) => StateRuleTick(Run(s, steps[..n - 1]), env, id, s.rules[id].lastMatched);
      case Edit(_) =>
      case Restart => StoryLog(Run(s, steps[..n - 1]), Restarted, id, s.rules[id].lastMatched);
    }
  }

  ghost function StoryAt(s: State, steps: seq<Step>, id: string, n: nat): Story
    requires n <= |steps| && id in s.rules
  {
    StoryOf(Run(s, steps[..n]).trace, id, s.rules[id].lastMatched)
  }

  /** Step `n` of the run delivers the rule to some channel. */
  ghost predicate FiresAt(s: State, steps: seq<Step>, id: string, n: nat)
    requires n < |steps| && id in s.rules
  {
    StoryAt(s, steps, id, n + 1).deliveries != StoryAt(s, steps, id, n).deliveries
  }

  /** Step `n` of the run evaluates the rule and finds it not matching. */
  ghost predicate MissesAt(s: State, steps: seq<Step>, id: string, n: nat)
    requires n < |steps| && id in s.rules
  {
    StoryAt(s, steps, id, n + 1).misses != StoryAt(s, steps, id, n).misses
  }

  lemma StepStory(s: State, steps: seq<Step>, id: string, n: nat)
    requires Undisturbed(s, steps, id) && n < |steps|
    ensures FiresAt(s, steps, id, n) ==>
      !StoryAt(s, steps, id, n).delivered && StoryAt(s, steps, id, n + 1).delivered
    ensures StoryAt(s, steps, id, n).delivered && !MissesAt(s, steps, id, n) ==>
      StoryAt(s, steps, id, n + 1).delivered
  {
    EdgeBitExact(s, steps, id, n);
    RunPrefix(s, steps, n);
    match steps[n]
    case Poll(env) => StateRuleTick(Run(s, steps[..n]), env, id, s.rules[id].lastMatched);
    case Edit(_) =>
    case Restart => StoryLog(Run(s, steps[..n]), Restarted, id, s.rules[id].lastMatched);
  }

  lemma {:induction false} DeliveredStays(s: State, steps: seq<Step>, id: string, a: nat, b: nat)
    requires Undisturbed(s, steps, id) && a <= b <= |steps|
    requires StoryAt(s, steps, id, a).delivered
    requires forall c :: a <= c < b ==> !MissesAt(s, steps, id, c)
    ensures StoryAt(s, steps, id, b).delivered
    decreases b
  {
    if a < b {
      DeliveredStays(s, steps, id, a, b - 1);
      StepStory(s, steps, id, b - 1);
    }
  }

  /** Between two firing ticks of a state rule lies an evaluation that did not match. */
  lemma OneFirePerEpisode(s: State, steps: seq<Step>, id: string, a: nat, b: nat)
    requires Undisturbed(s, steps, id) && a < b < |steps|
    requires FiresAt(s, steps, id, a) && FiresAt(s, steps, id, b)
    ensures exists c :: a < c < b && MissesAt(s, steps, id, c)
  {
    StepStory(s, steps, id, a);
    StepStory(s, steps, id, b);
    if forall c :: a < c < b ==> !MissesAt(s, steps, id, c) {
      DeliveredStays(s, steps, id, a + 1, b);
    }
  }
}
