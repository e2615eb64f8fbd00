/**
 How requests to CrowdSec's local API end, told by the steps of a run: the responses a
 request received and the logins it waited for decide its answer; the login steps and
 the writes to the cache decide what a look into the cache finds.
 */
module JwtAnswers {
  import opened Options
  import opened JwtCache

  // ---------------------------------------------------------------------
  // What the steps say
  // ---------------------------------------------------------------------

  /** What came back to a request: 2xx, an authentication refusal, or any other failure. */
  datatype Verdict = Accepted | Refused | Failed

  ghost predicate LoggingInAt(steps: seq<Step>, f: nat) {
    var s := Run(BOOT, steps); f < |s.flights| && s.flights[f].stage.LoggingIn?
  }

  /** How the login of flight `f` failed, if it did: the steps `LoginFails` and `LoginOk` with an empty token. */
  ghost function LoginFailure(steps: seq<Step>, f: nat): Option<Verdict> {
    if steps == [] then None
    else
      var before, step := steps[..|steps| - 1], steps[|steps| - 1];
      if !(step.OfFlight? && step.flight == f && LoggingInAt(before, f)) then LoginFailure(before, f)
      else if step.f.LoginFails? then Some(if step.f.auth then Refused else Failed)
      else if step.f.LoginOk? && step.f.token == "" then Some(Failed)
      else LoginFailure(before, f)
  }

  ghost predicate HoldingAt(steps: seq<Step>, id: nat) {
    var s := Run(BOOT, steps); id in s.requests && s.requests[id].phase.Holding?
  }

  /** The request waits for flight `f`, which has landed. */
  ghost predicate LandedFor(steps: seq<Step>, id: nat, f: nat) {
    var s := Run(BOOT, steps);
    id in s.requests && s.requests[id].phase == Waiting(f) && f < |s.flights| && s.flights[f].stage.Landed?
  }

  /** What the next step brings to the request: a response, or the failure of the login it waited for. */
  ghost function Brought(before: seq<Step>, step: Step, id: nat): seq<Verdict> {
    if !(step.OfRequest? && step.id == id) then []
    else if step.r.Respond? && HoldingAt(before, id) then
      [if step.r.unauthorized then Refused else if step.r.ok then Accepted else Failed]
    else if step.r.PickUp? && exists f :: LandedFor(before, id, f) then
      var f :| LandedFor(before, id, f);
      if LoginFailure(before, f).Some? then [LoginFailure(before, f).value] else []
    else []
  }

  /** Everything that came back to the request, in order. */
  ghost function Verdicts(steps: seq<Step>, id: nat): seq<Verdict> {
    if steps == [] then []
    else Verdicts(steps[..|steps| - 1], id) + Brought(steps[..|steps| - 1], steps[|steps| - 1], id)
  }

  // ---------------------------------------------------------------------
  // Flights
  // ---------------------------------------------------------------------

  /** A flight's outcome is what its login step says. */
  predicate FlightTold(stage: Stage, failure: Option<Verdict>) {
    match stage
    case Returning(o) => OutcomeTold(o, failure)
    case Landed(o) => OutcomeTold(o, failure)
    case _ => failure == None
  }

  predicate OutcomeTold(o: Outcome, failure: Option<Verdict>) {
    match o
    case Token(_, _) => failure == None
    case AuthRejected => failure == Some(Refused)
    case Broken => failure == Some(Failed)
  }

  /** What a step of a flight says about its login. */
  function Said(stage: Stage, fs: FlightStep, failure: Option<Verdict>): Option<Verdict> {
    if !stage.LoggingIn? then failure
    else match fs
      case LoginFails(auth) => Some(if auth then Refused else Failed)
      case LoginOk(token, _) => if token == "" then Some(Failed) else failure
      case _ => failure
  }

  lemma FlightStepTold(s: State, g: nat, fs: FlightStep, failure: Option<Verdict>)
    requires g < |s.flights| && FlightTold(s.flights[g].stage, failure)
    ensures g < |FlightNext(s, g, fs).flights|
    ensures FlightTold(FlightNext(s, g, fs).flights[g].stage, Said(s.flights[g].stage, fs, failure))
  {
  }

  lemma FailureStep(before: seq<Step>, step: Step, f: nat)
    ensures LoginFailure(before + [step], f) ==
      var s := Run(BOOT, before);
      if step.OfFlight? && step.flight == f && f < |s.flights| then Said(s.flights[f].stage, step.f, LoginFailure(before, f))
      else LoginFailure(before, f)
  {
    assert (before + [step])[..|before|] == before;
  }

  ghost predicate ToldAt(steps: seq<Step>, f: nat) {
    var s := Run(BOOT, steps);
    if f < |s.flights| then FlightTold(s.flights[f].stage, LoginFailure(steps, f)) else LoginFailure(steps, f) == None
  }

  lemma ToldAtStep(before: seq<Step>, step: Step, f: nat)
    requires ToldAt(before, f)
    ensures ToldAt(before + [step], f)
  {
    var s := Run(BOOT, before);
    FailureStep(before, step, f);
    RunSnoc(BOOT, before, step);
    match step
    case OfRequest(id, r) => RequestFrame(s, id, r);
    case OfFlight(g, fs) =>
      if g < |s.flights| {
        FlightFrame(s, g, fs);
        if g == f {
          FlightStepTold(s, g, fs, LoginFailure(before, f));
        }
      }
    case Pass(_) =>
  }

  lemma {:induction false} ToldAtAlways(steps: seq<Step>, f: nat)
    ensures ToldAt(steps, f)
  {
    if steps != [] {
      var before, step := steps[..|steps| - 1], steps[|steps| - 1];
      assert steps == before + [step];
      ToldAtAlways(before, f);
      ToldAtStep(before, step, f);
    }
  }

  // ---------------------------------------------------------------------
  // Requests
  // ---------------------------------------------------------------------

  predicate AllRefused(h: seq<Verdict>) {
    forall i :: 0 <= i < |h| ==> h[i] == Refused
  }

  /** Refusals, and then `v` as the n-th. */
  predicate EndsWith(h: seq<Verdict>, n: nat, v: Verdict) {
    |h| == n && n > 0 && AllRefused(h[..n - 1]) && h[n - 1] == v
  }

  /** What has come back to a request in each phase. */
  predicate RequestTold(r: Request, h: seq<Verdict>) {
    match r.phase
    case Rejected => AllRefused(h) && |h| == r.attempt
    case Done(Served) => EndsWith(h, r.attempt, Accepted)
    case Done(Unavailable) => EndsWith(h, r.attempt, Failed)
    case Done(CredentialsRejected) => h == [Refused, Refused]
    case _ => AllRefused(h) && |h| + 1 == r.attempt
  }

  ghost predicate ToldFor(steps: seq<Step>, id: nat) {
    var s := Run(BOOT, steps);
    if id in s.requests then RequestTold(s.requests[id], Verdicts(steps, id)) else Verdicts(steps, id) == []
  }

  lemma Extended(before: seq<Step>, step: Step, id: nat)
    ensures var steps := before + [step];
      && Verdicts(steps, id) == Verdicts(before, id) + Brought(before, step, id)
      && Run(BOOT, steps) == Next(Run(BOOT, before), step)
  {
    assert (before + [step])[..|before|] == before;
  }

  /** A step of someone else brings nothing and moves nothing of the request. */
  lemma OthersStep(before: seq<Step>, step: Step, id: nat)
    requires ToldFor(before, id) && !(step.OfRequest? && step.id == id)
    ensures ToldFor(before + [step], id)
  {
    var s, h := Run(BOOT, before), Verdicts(before, id);
    Extended(before, step, id);
    assert h + [] == h;
    match step
    case OfRequest(other, r) => RequestFrame(s, other, r);
    case OfFlight(f, fs) =>
      if f < |s.flights| {
        FlightFrame(s, f, fs);
      }
    case Pass(_) =>
  }

  lemma RespondStep(before: seq<Step>, id: nat, unauthorized: bool, ok: bool)
    requires ToldFor(before, id) && HoldingAt(before, id)
    ensures ToldFor(before + [OfRequest(id, Respond(unauthorized, ok))], id)
  {
    var h := Verdicts(before, id);
    var v := if unauthorized then Refused else if ok then Accepted else Failed;
    Extended(before, OfRequest(id, Respond(unauthorized, ok)), id);
    assert (h + [v])[..|h|] == h;
  }

  lemma PickUpStep(before: seq<Step>, id: nat, f: nat)
    requires ToldFor(before, id) && LandedFor(before, id, f)
    ensures ToldFor(before + [OfRequest(id, PickUp)], id)
  {
    var s, h := Run(BOOT, before), Verdicts(before, id);
    ToldAtAlways(before, f);
    Extended(before, OfRequest(id, PickUp), id);
    var b := Brought(before, OfRequest(id, PickUp), id);
    assert b == if LoginFailure(before, f).Some? then [LoginFailure(before, f).value] else [];
    assert h + [] == h;
    assert b != [] ==> (h + b)[..|h|] == h;
  }

  lemma RetryStep(before: seq<Step>, id: nat)
    requires ToldFor(before, id) && id in Run(BOOT, before).requests && Run(BOOT, before).requests[id].phase.Rejected?
    ensures ToldFor(before + [OfRequest(id, Retry)], id)
  {
    var h := Verdicts(before, id);
    EveryRunSound(before);
    assert RequestSound(Run(BOOT, before), Run(BOOT, before).requests[id]);
    Extended(before, OfRequest(id, Retry), id);
    assert h + [] == h;
    assert |h| == 2 ==> h == [h[0], h[1]];
  }

  /** Any other step of the request brings nothing. */
  lemma QuietStep(before: seq<Step>, step: Step, id: nat)
    requires ToldFor(before, id) && step.OfRequest? && step.id == id && Brought(before, step, id) == []
    requires !(step.r.Respond? && HoldingAt(before, id)) && !(step.r.PickUp? && exists f :: LandedFor(before, id, f))
    requires !(step.r.Retry? && id in Run(BOOT, before).requests && Run(BOOT, before).requests[id].phase.Rejected?)
    ensures ToldFor(before + [step], id)
  {
    var s, h := Run(BOOT, before), Verdicts(before, id);
    Extended(before, step, id);
    assert h + [] == h;
    if step.r.PickUp? && id in s.requests && s.requests[id].phase.Waiting? {
      assert !LandedFor(before, id, s.requests[id].phase.flight);
    }
  }

  lemma {:induction false} AllTold(steps: seq<Step>, id: nat)
    ensures ToldFor(steps, id)
  {
    if steps != [] {
      var before, step := steps[..|steps| - 1], steps[|steps| - 1];
      assert steps == before + [step];
      AllTold(before, id);
      if !(step.OfRequest? && step.id == id) {
        OthersStep(before, step, id);
      } else if step.r.Respond? && HoldingAt(before, id) {
        RespondStep(before, id, step.r.unauthorized, step.r.ok);
      } else if step.r.PickUp? && exists f :: LandedFor(before, id, f) {
        var f :| LandedFor(before, id, f);
        PickUpStep(before, id, f);
      } else if step.r.Retry? && id in Run(BOOT, before).requests && Run(BOOT, before).requests[id].phase.Rejected? {
        RetryStep(before, id);
      } else {
        QuietStep(before, step, id);
      }
    }
  }

  /** What the phase of a request says about what came back, and the other way round. */
  lemma ToldMeans(r: Request, h: seq<Verdict>)
    requires RequestTold(r, h) && 1 <= r.attempt <= 2
    ensures r.phase == Done(Served) <==> h != [] && h[|h| - 1] == Accepted
    ensures r.phase == Done(Unavailable) <==> h != [] && h[|h| - 1] == Failed
    ensures r.phase == Done(CredentialsRejected) ==> h == [Refused, Refused]
    ensures h == [Refused, Refused] ==> r.phase == Done(CredentialsRejected) || r.phase == Rejected
    ensures |h| <= 2
  {
  }

  ghost predicate DoneWith(steps: seq<Step>, id: nat, answer: Answer) {
    In(Run(BOOT, steps), id, Done(answer))
  }

  /**
   In every run: a request is served exactly when the last thing that came back was accepted; it is
   unavailable exactly when that was a failure; it gives up on its credentials only after exactly two
   refusals, and once two came back nothing else can become of it.
   */
  lemma AnswersExactly(steps: seq<Step>, id: nat)
    requires id in Run(BOOT, steps).requests
    ensures var h := Verdicts(steps, id);
      && (DoneWith(steps, id, Served) <==> h != [] && h[|h| - 1] == Accepted)
      && (DoneWith(steps, id, Unavailable) <==> h != [] && h[|h| - 1] == Failed)
      && (DoneWith(steps, id, CredentialsRejected) ==> h == [Refused, Refused])
      && (h == [Refused, Refused] ==>
            DoneWith(steps, id, CredentialsRejected) || Run(BOOT, steps).requests[id].phase == Rejected)
      && |h| <= 2
  {
    AllTold(steps, id);
    EveryRunSound(steps);
    assert RequestSound(Run(BOOT, steps), Run(BOOT, steps).requests[id]);
    ToldMeans(Run(BOOT, steps).requests[id], Verdicts(steps, id));
  }

  // ---------------------------------------------------------------------
  // What a look into the cache finds
  // ---------------------------------------------------------------------

  /** The logins of a run, from its `LoginOk` steps. */
  ghost function Minted(steps: seq<Step>): seq<Login> {
    if steps == [] then []
    else
      var before, step := steps[..|steps| - 1], steps[|steps| - 1];
      if step.OfFlight? && step.f.LoginOk? && step.f.token != "" && LoggingInAt(before, step.flight) then
        var flight := Run(BOOT, before).flights[step.flight];
        Minted(before) + [Login(flight.url, flight.machine, step.f.token, step.f.expire)]
      else Minted(before)
  }

  /** A flight step adds a login exactly when a login step succeeds with a token. */
  lemma FlightLogins(s: State, f: nat, fs: FlightStep)
    requires f < |s.flights|
    ensures FlightNext(s, f, fs).logins ==
      if fs.LoginOk? && fs.token != "" && s.flights[f].stage.LoggingIn?
      then s.logins + [Login(s.flights[f].url, s.flights[f].machine, fs.token, fs.expire)] else s.logins
  {
  }

  lemma {:induction false} LoginsAreMinted(steps: seq<Step>)
    ensures Run(BOOT, steps).logins == Minted(steps)
    ensures forall m :: 0 <= m < |Minted(steps)| ==> Minted(steps)[m].token != ""
  {
    if steps != [] {
      var before, step := steps[..|steps| - 1], steps[|steps| - 1];
      var s := Run(BOOT, before);
      LoginsAreMinted(before);
      match step
      case OfRequest(id, r) => RequestFrame(s, id, r);
      case OfFlight(f, fs) =>
        if f < |s.flights| {
          FlightLogins(s, f, fs);
        }
      case Pass(_) =>
    }
  }

  /** The clock: the latest time passed to. */
  function Clock(steps: seq<Step>): int {
    if steps == [] then ZERO_TIME
    else
      var before, step := Clock(steps[..|steps| - 1]), steps[|steps| - 1];
      if step.Pass? && step.until > before then step.until else before
  }

  lemma {:induction false} NowIsClock(steps: seq<Step>)
    ensures Run(BOOT, steps).now == Clock(steps)
  {
    if steps != [] {
      NowIsClock(steps[..|steps| - 1]);
    }
  }

  /** The login whose token was stored last, unless a first retry blanked it since. */
  ghost function StoredLast(steps: seq<Step>): Option<nat> {
    if steps == [] then None
    else
      var before, step := steps[..|steps| - 1], steps[|steps| - 1];
      var s := Run(BOOT, before);
      if step.OfFlight? && step.f.Store? && step.flight < |s.flights| && s.flights[step.flight].stage.Storing?
      then Some(s.flights[step.flight].stage.mint)
      else if step.OfRequest? && step.r.Retry? && In(s, step.id, Rejected) && s.requests[step.id].attempt == 1
      then None
      else StoredLast(before)
  }

  ghost predicate CacheTold(steps: seq<Step>) {
    var s := Run(BOOT, steps);
    match StoredLast(steps)
    case None => s.cache.token == ""
    case Some(m) => s.cachedFrom == m && s.cache.token != ""
  }

  /** Only a store writes the cache, with the token of its login. */
  lemma FlightCache(s: State, f: nat, fs: FlightStep)
    requires f < |s.flights| && StageSound(s, s.flights[f])
    ensures var s' := FlightNext(s, f, fs);
      if fs.Store? && s.flights[f].stage.Storing?
      then s'.cachedFrom == s.flights[f].stage.mint < |s.logins| && s'.cache.token == s.logins[s'.cachedFrom].token
      else s'.cache == s.cache && s'.cachedFrom == s.cachedFrom
  {
  }

  /** Only a first retry blanks it. */
  lemma RequestCache(s: State, id: nat, r: RequestStep)
    ensures var s' := RequestNext(s, id, r);
      && s'.cachedFrom == s.cachedFrom
      && if r.Retry? && In(s, id, Rejected) && s.requests[id].attempt == 1 then s'.cache.token == "" else s'.cache == s.cache
  {
  }

  lemma {:induction false} CacheToldAlways(steps: seq<Step>)
    ensures CacheTold(steps)
  {
    if steps != [] {
      var before, step := steps[..|steps| - 1], steps[|steps| - 1];
      var s := Run(BOOT, before);
      CacheToldAlways(before);
      match step
      case OfRequest(id, r) => RequestCache(s, id, r);
      case OfFlight(f, fs) =>
        LoginsAreMinted(before);
        EveryRunSound(before);
        if f < |s.flights| {
          assert StageSound(s, s.flights[f]);
          FlightCache(s, f, fs);
        }
      case Pass(_) =>
    }
  }

  /** The token stored last is for this key and has more than 30 s left. */
  ghost predicate Usable(steps: seq<Step>, key: string) {
    && StoredLast(steps).Some? && StoredLast(steps).value < |Minted(steps)|
    && var l := Minted(steps)[StoredLast(steps).value];
       CacheKey(l.url, l.machine) == key && l.expire - Clock(steps) > 30_000_000_000
  }

  lemma HitIsUsable(steps: seq<Step>, key: string)
    ensures Hit(Run(BOOT, steps).cache, key, Run(BOOT, steps).now) <==> Usable(steps, key)
    ensures Usable(steps, key) ==> Run(BOOT, steps).cachedFrom == StoredLast(steps).value
  {
    CacheToldAlways(steps);
    LoginsAreMinted(steps);
    NowIsClock(steps);
    EveryRunSound(steps);
  }

  /** A request that looks into the cache takes the token stored last exactly when it is usable, else it goes on to log in. */
  lemma LookExactly(steps: seq<Step>, id: nat)
    requires In(Run(BOOT, steps), id, Ready)
    ensures var key := Run(BOOT, steps).requests[id].Key();
      In(Run(BOOT, steps + [OfRequest(id, FastPath)]), id,
         if Usable(steps, key) then Holding(StoredLast(steps).value, Some(Clock(steps))) else Missed)
  {
    var s := Run(BOOT, steps);
    RunSnoc(BOOT, steps, OfRequest(id, FastPath));
    HitIsUsable(steps, s.requests[id].Key());
    NowIsClock(steps);
  }

  /** The recheck of a flight does the same. */
  lemma RecheckExactly(steps: seq<Step>, f: nat)
    requires f < |Run(BOOT, steps).flights| && Run(BOOT, steps).flights[f].stage.Rechecking?
    ensures var key := Run(BOOT, steps).flights[f].Key();
      var s' := Run(BOOT, steps + [OfFlight(f, Recheck)]);
      f < |s'.flights| && s'.flights[f].stage ==
        if Usable(steps, key) then Returning(Token(StoredLast(steps).value, Some(Clock(steps)))) else LoggingIn
  {
    RunSnoc(BOOT, steps, OfFlight(f, Recheck));
    HitIsUsable(steps, Run(BOOT, steps).flights[f].Key());
    NowIsClock(steps);
  }
}
