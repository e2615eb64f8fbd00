/**
 The alerting watcher (internal/alerting/watcher.go): a polling loop that
 evaluates every enabled rule once per tick and fans alerts out to channels.

 Threshold rules fire whenever their condition holds, gated per channel by the
 cooldown table.  State rules fire on the rising edge only; the edge memory is
 the stored bit `lastMatched`, set after a delivery and cleared by an evaluation
 that does not match.

 Sources, sends, store writes and the clock are inputs.  `trace` is what the
 outside world can observe of the watcher; the theorems are about the traces of
 whole runs, with operator edits between ticks.
 */
module WatcherLoop {
  import opened Options
  import opened Cooldown
  import opened Evaluator
  import Dispatcher

  const COOLDOWN_SECS_MAX: int := 86_400

  datatype Rule = Rule(
    id: string,
    enabled: bool,
    kind: string,
    severity: int,
    params: Params,
    channels: seq<string>,
    cooldownSecs: int,
    lastMatched: bool)
  {
    function CooldownWindow(): int { cooldownSecs * SECOND }
  }

  datatype Reading = NotRegistered | ReadError | Value(value: SourceValue)

  /** One position of the channel list: when it is checked, sent and marked, and what a dispatch to it meets. */
  datatype Attempt = Attempt(
    checkedAt: int, sentAt: int, markedAt: int, senderFor: Dispatcher.SenderFor, answer: Dispatcher.Answer)

  /** The dispatch of the rule's alert to this one channel fires. */
  predicate Delivered(r: Rule, channel: string, a: Attempt) {
    Dispatcher.Collect([channel], Dispatcher.Outcomes(r.severity, a.senderFor, [a.answer])).fired != []
  }

  /** It fires exactly when the row loads, is enabled, wants the severity, has a sender and the send works. */
  lemma DeliveredExactlyWhen(r: Rule, channel: string, a: Attempt)
    ensures Delivered(r, channel, a) <==>
      && a.answer.load.Loaded? && a.answer.load.channel.enabled && r.severity >= a.answer.load.channel.minSeverity
      && a.senderFor(a.answer.load.channel).None? && a.answer.sendError.None?
  {
    Dispatcher.OutcomeExactly(r.severity, a.senderFor, a.answer);
    var outcomes := Dispatcher.Outcomes(r.severity, a.senderFor, [a.answer]);
    assert Dispatcher.Collect([channel][..0], outcomes[..0]) == Dispatcher.Result([], map[], map[]);
  }

  /** What the environment answers while one rule is evaluated. */
  datatype RuleEnv = RuleEnv(reading: Reading, attempts: seq<Attempt>, matchedWriteOk: bool)

  datatype TickEnv =
    | ListFailed
    | Listed(order: seq<string>, evictAt: int, envs: seq<RuleEnv>)

  datatype Event =
    | Restarted
    | Listing(ids: set<string>)
    | NoVerdict(rule: string)
    | Judged(rule: string, matched: bool)
    | Attempted(rule: string, channel: string)
    | Sent(rule: string, channel: string, at: int, markedAt: int, gated: bool, window: int)

  datatype State = State(rules: map<string, Rule>, entries: Table, clock: int, trace: seq<Event>)
  {
    function Log(e: Event): State { this.(trace := trace + [e]) }
  }

  // ---------------------------------------------------------------------
  // The specification of one tick
  // ---------------------------------------------------------------------

  predicate Blocked(s: State, r: Rule, channel: string, a: Attempt) {
    r.kind != KIND_STATE && Hot(s.entries, Key(r.id, channel), r.CooldownWindow(), a.checkedAt)
  }

  function OneChannel(s: State, r: Rule, channel: string, a: Attempt): State {
    if Blocked(s, r, channel, a) then s.(clock := a.markedAt)
    else
      var tried := s.Log(Attempted(r.id, channel)).(clock := a.markedAt);
      if Delivered(r, channel, a) then
        tried.Log(Sent(r.id, channel, a.sentAt, a.markedAt, r.kind != KIND_STATE, r.CooldownWindow()))
             .(entries := s.entries[Key(r.id, channel) := a.markedAt])
      else tried
  }

  /** The first `n` channels of the rule. */
  function FanOut(s: State, r: Rule, attempts: seq<Attempt>, n: nat): State
    requires n <= |r.channels| == |attempts|
  {
    if n == 0 then s
    else OneChannel(FanOut(s, r, attempts, n - 1), r, r.channels[n - 1], attempts[n - 1])
  }

  function FiredChannels(s: State, r: Rule, attempts: seq<Attempt>, n: nat): seq<string>
    requires n <= |r.channels| == |attempts|
  {
    if n == 0 then []
    else
      var before := FanOut(s, r, attempts, n - 1);
      FiredChannels(s, r, attempts, n - 1)
      + if !Blocked(before, r, r.channels[n - 1], attempts[n - 1]) && Delivered(r, r.channels[n - 1], attempts[n - 1])
        then [r.channels[n - 1]] else []
  }

  /** The `LastMatched` write of the rule store; it fails for a missing row. */
  function WriteMatched(s: State, id: string, matched: bool, ok: bool): State {
    if ok && id in s.rules then s.(rules := s.rules[id := s.rules[id].(lastMatched := matched)]) else s
  }

  function Judge(r: Rule, env: RuleEnv): Verdict {
    if env.reading.Value? then Evaluate(r.kind, env.reading.value, r.params) else Undecided
  }

  /** No verdict exactly when the source could not be read or its value not be evaluated; else the evaluator's. */
  lemma JudgeExactly(r: Rule, env: RuleEnv)
    ensures Judge(r, env).Undecided? <==>
      env.reading.NotRegistered? || env.reading.ReadError? || Evaluate(r.kind, env.reading.value, r.params).Undecided?
    ensures Judge(r, env).Decided? ==> Judge(r, env) == Evaluate(r.kind, env.reading.value, r.params)
  {
  }

  /** Whether a decided evaluation goes on to dispatch. */
  predicate Dispatches(r: Rule, fired: bool) {
    fired && !(r.kind == KIND_STATE && r.lastMatched)
  }

  function EvalRule(s: State, r: Rule, env: RuleEnv): State
    requires |env.attempts| == |r.channels|
  {
    match Judge(r, env)
    case Undecided => s.Log(NoVerdict(r.id))
    case Decided(fired) =>
      var s := s.Log(Judged(r.id, fired));
      if !Dispatches(r, fired) then
        if r.kind == KIND_STATE && !fired && r.lastMatched
        then WriteMatched(s, r.id, false, env.matchedWriteOk) else s
      else
        var sent := FanOut(s, r, env.attempts, |r.channels|);
        if FiredChannels(s, r, env.attempts, |r.channels|) != [] && r.kind == KIND_STATE
        then WriteMatched(sent, r.id, true, env.matchedWriteOk) else sent
  }

  /** Every listed id has a row, and the environment answers for each of its channels. */
  ghost predicate Answered(listed: map<string, Rule>, order: seq<string>, envs: seq<RuleEnv>) {
    && |order| == |envs|
    && forall i :: 0 <= i < |order| ==> order[i] in listed && |envs[i].attempts| == |listed[order[i]].channels|
  }

  /** The rows a tick works on are the ones listed at its start. */
  ghost function EvalAll(s: State, listed: map<string, Rule>, order: seq<string>, envs: seq<RuleEnv>, n: nat): State
    requires n <= |order| && Answered(listed, order, envs)
  {
    if n == 0 then s
    else
      var before := EvalAll(s, listed, order, envs, n - 1);
      if listed[order[n - 1]].enabled then EvalRule(before, listed[order[n - 1]], envs[n - 1]) else before
  }

  function BeginTick(s: State, evictAt: int): State {
    s.Log(Listing(s.rules.Keys)).(entries := Evict(s.entries, Some(s.rules.Keys), evictAt), clock := evictAt)
  }

  /** The listing is the whole store, one row per id, and there is one answer per row and per channel. */
  ghost predicate WellFormed(rules: map<string, Rule>, env: TickEnv) {
    env.Listed? ==>
      && Answered(rules, env.order, env.envs)
      && (forall id :: id in rules ==> rules[id].id == id && id in env.order)
      && (forall i, j :: 0 <= i < j < |env.order| ==> env.order[i] != env.order[j])
  }

  ghost function Tick(s: State, env: TickEnv): State
    requires WellFormed(s.rules, env)
  {
    match env
    case ListFailed => s
    case Listed(order, evictAt, envs) => EvalAll(BeginTick(s, evictAt), s.rules, order, envs, |order|)
  }

  // ---------------------------------------------------------------------
  // The watcher itself
  // ---------------------------------------------------------------------

  class Watcher {
    var rules: map<string, Rule>
    var cooldown: CooldownLRU
    var clock: int
    var trace: seq<Event>

    constructor (rules: map<string, Rule>, clock: int)
      ensures Snapshot() == State(rules, map[], clock, []) && fresh(cooldown)
    {
      this.rules := rules;
      this.clock := clock;
      trace := [];
      cooldown := new CooldownLRU();
    }

    ghost function Snapshot(): State
      reads this, cooldown
    {
      State(rules, cooldown.entries, clock, trace)
    }

    method PersistMatched(id: string, matched: bool, ok: bool)
      modifies this`rules
      ensures Snapshot() == WriteMatched(old(Snapshot()), id, matched, ok)
    {
      if ok && id in rules {
        rules := rules[id := rules[id].(lastMatched := matched)];
      }
    }

    /** Cooldown gate (threshold rules only), dispatch, mark. */
    method TryChannel(r: Rule, channel: string, a: Attempt) returns (reached: bool)
      modifies this, cooldown
      ensures cooldown == old(cooldown) && Snapshot() == OneChannel(old(Snapshot()), r, channel, a)
      ensures reached <==> !Blocked(old(Snapshot()), r, channel, a) && Delivered(r, channel, a)
    {
      var k := Key(r.id, channel);
      var isState := r.kind == KIND_STATE;
      clock := a.markedAt;
      if !isState {
        var hot := cooldown.OnCooldown(k, r.CooldownWindow(), a.checkedAt);
        if hot {
          return false;
        }
      }
      trace := trace + [Attempted(r.id, channel)];
      var result, _ := Dispatcher.Dispatch(r.severity, a.senderFor, [channel], [a.answer]);
      if |result.fired| > 0 {
        trace := trace + [Sent(r.id, channel, a.sentAt, a.markedAt, !isState, r.CooldownWindow())];
        cooldown.Mark(k, a.markedAt);
        return true;
      }
      return false;
    }

    method EvalOneRule(r: Rule, env: RuleEnv)
      requires |env.attempts| == |r.channels|
      modifies this, cooldown
      ensures cooldown == old(cooldown) && Snapshot() == EvalRule(old(Snapshot()), r, env)
    {
      var verdict := Judge(r, env);
      if verdict.Undecided? {
        trace := trace + [NoVerdict(r.id)];
        return;
      }
      trace := trace + [Judged(r.id, verdict.fired)];
      ghost var judged := Snapshot();
      var isState := r.kind == KIND_STATE;
      if isState {
        if !verdict.fired {
          if r.lastMatched {
            PersistMatched(r.id, false, env.matchedWriteOk);
          }
          return;
        }
        if r.lastMatched {
          return;
        }
      } else if !verdict.fired {
        return;
      }

      var channelsFired := [];
      for n := 0 to |r.channels|
        invariant cooldown == old(cooldown)
        invariant Snapshot() == FanOut(judged, r, env.attempts, n)
        invariant channelsFired == FiredChannels(judged, r, env.attempts, n)
      {
        var reached := TryChannel(r, r.channels[n], env.attempts[n]);
        if reached {
          channelsFired := channelsFired + [r.channels[n]];
        }
      }
      if channelsFired != [] && isState {
        PersistMatched(r.id, true, env.matchedWriteOk);
      }
    }

    method RunTick(env: TickEnv)
      requires WellFormed(rules, env)
      modifies this, cooldown
      ensures cooldown == old(cooldown) && Snapshot() == Tick(old(Snapshot()), env)
    {
      if env.ListFailed? {
        return;
      }
      var listed := rules;
      trace := trace + [Listing(listed.Keys)];
      var _ := cooldown.EvictStale(Some(listed.Keys), env.evictAt);
      clock := env.evictAt;
      ghost var begun := Snapshot();
      for n := 0 to |env.order|
        invariant cooldown == old(cooldown)
        invariant Snapshot() == EvalAll(begun, listed, env.order, env.envs, n)
      {
        var r := listed[env.order[n]];
        if r.enabled {
          EvalOneRule(r, env.envs[n]);
        }
      }
    }
  }
}
