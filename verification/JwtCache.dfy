/**
 The JWT cache in front of CrowdSec's local API
 (internal/api/crowdsec_scenarios.go) and the retry-once contract above it.

 Many requests share one cached token.  A request looks in the cache, else joins
 or starts the single login in flight for its key; the login's outcome is written
 to the cache under the lock and handed to everyone waiting.  A rejected token is
 invalidated and the request tries once more.  Each critical section is one step
 of the machine below, so a sequence of steps is an interleaving.

 Instants are integers counting nanoseconds.
 */
module JwtCache {
  import opened Options

  const SAFETY_MARGIN: int := 30_000_000_000
  const ZERO_TIME: int := 0

  /** The cached key, token and expiry of the manager. */
  datatype Cache = Cache(key: string, token: string, expiresAt: int)

  const COLD := Cache("", "", ZERO_TIME)

  function CacheKey(url: string, machine: string): string {
    url + ['\0'] + machine
  }

  predicate Hit(c: Cache, key: string, now: int) {
    c.key == key && c.token != "" && now < c.expiresAt
  }

  /** Invalidation blanks token and expiry and leaves the key. */
  function Invalidated(c: Cache): Cache {
    c.(token := "", expiresAt := ZERO_TIME)
  }

  function Filled(key: string, token: string, expire: int): Cache {
    Cache(key, token, expire - SAFETY_MARGIN)
  }

  /** The critical sections of the manager. */
  class JwtManager {
    var cacheKey: string
    var token: string
    var expiresAt: int

    constructor ()
      ensures Contents() == COLD
    {
      cacheKey, token, expiresAt := "", "", ZERO_TIME;
    }

    function Contents(): Cache
      reads this
    {
      Cache(cacheKey, token, expiresAt)
    }

    method Invalidate()
      modifies this
      ensures Contents() == Invalidated(old(Contents()))
    {
      token := "";
      expiresAt := ZERO_TIME;
    }

    method Lookup(key: string, now: int) returns (found: Option<string>)
      ensures found == if Hit(Contents(), key, now) then Some(token) else None
    {
      if cacheKey == key && token != "" && now < expiresAt {
        return Some(token);
      }
      return None;
    }

    method Fill(key: string, newToken: string, expire: int)
      modifies this
      ensures Contents() == Filled(key, newToken, expire)
    {
      cacheKey := key;
      token := newToken;
      expiresAt := expire - SAFETY_MARGIN;
    }
  }

  // ---------------------------------------------------------------------
  // The protocol
  // ---------------------------------------------------------------------

  /** One successful login: who logged in, what it was given and until when. */
  datatype Login = Login(url: string, machine: string, token: string, expire: int)
  {
    function Key(): string { CacheKey(url, machine) }
  }

  /** `Token(mint, hitAt)` is the token of login number `mint`; `hitAt` is when it was found in the cache, if it was. */
  datatype Outcome = Token(mint: nat, hitAt: Option<int>) | AuthRejected | Broken

  datatype Stage = Rechecking | LoggingIn | Storing(mint: nat) | Returning(outcome: Outcome) | Landed(outcome: Outcome)

  /** A call in flight; url and machine are those of the request that started it. */
  datatype Flight = Flight(url: string, machine: string, stage: Stage)
  {
    function Key(): string { CacheKey(url, machine) }
  }

  datatype Phase =
    | Ready
    | Missed
    | Waiting(flight: nat)
    | Holding(mint: nat, hitAt: Option<int>)
    | Rejected
    | Done(answer: Answer)

  datatype Answer = Served | CredentialsRejected | Unavailable

  datatype Request = Request(url: string, machine: string, attempt: nat, phase: Phase)
  {
    function Key(): string { CacheKey(url, machine) }
  }

  datatype State = State(
    cache: Cache,
    cachedFrom: nat,
    flights: seq<Flight>,
    active: map<string, nat>,
    logins: seq<Login>,
    requests: map<nat, Request>,
    now: int)

  datatype RequestStep =
    | Arrive(url: string, machine: string)
    | FastPath
    | Enter
    | PickUp
    | Respond(unauthorized: bool, ok: bool)
    | Retry

  datatype FlightStep =
    | Recheck
    | LoginOk(token: string, expire: int)
    | LoginFails(auth: bool)
    | Store
    | Land

  datatype Step = OfRequest(id: nat, r: RequestStep) | OfFlight(flight: nat, f: FlightStep) | Pass(until: int)

  const BOOT := State(COLD, 0, [], map[], [], map[], ZERO_TIME)

  predicate In(s: State, id: nat, phase: Phase) {
    id in s.requests && s.requests[id].phase == phase
  }

  function Moved(s: State, id: nat, phase: Phase): State
    requires id in s.requests
  {
    s.(requests := s.requests[id := s.requests[id].(phase := phase)])
  }

  function Staged(s: State, f: nat, stage: Stage): State
    requires f < |s.flights|
  {
    s.(flights := s.flights[f := s.flights[f].(stage := stage)])
  }

  /** How a request goes on when its flight has landed. */
  function Received(o: Outcome): Phase {
    match o
    case Token(m, hitAt) => Holding(m, hitAt)
    case AuthRejected => Rejected
    case Broken => Done(Unavailable)
  }

  function RequestNext(s: State, id: nat, step: RequestStep): State {
    if step.Arrive? then
      if id in s.requests then s
      else s.(requests := s.requests[id := Request(step.url, step.machine, 1, Ready)])
    else if id !in s.requests then s
    else
      var r := s.requests[id];
      match (step, r.phase)
      case (FastPath, Ready) =>
        Moved(s, id, if Hit(s.cache, r.Key(), s.now) then Holding(s.cachedFrom, Some(s.now)) else Missed)
      case (Enter, Missed) =>
        if r.Key() in s.active then Moved(s, id, Waiting(s.active[r.Key()]))
        else
          Moved(s, id, Waiting(|s.flights|))
            .(flights := s.flights + [Flight(r.url, r.machine, Rechecking)],
              active := s.active[r.Key() := |s.flights|])
      case (PickUp, Waiting(f)) =>
        if f < |s.flights| && s.flights[f].stage.Landed? then Moved(s, id, Received(s.flights[f].stage.outcome)) else s
      case (Respond(unauthorized, ok), Holding(_, _)) =>
        Moved(s, id, if unauthorized then Rejected else Done(if ok then Served else Unavailable))
      case (Retry, Rejected) =>
        if r.attempt == 1 then
          s.(cache := Invalidated(s.cache), requests := s.requests[id := r.(attempt := 2, phase := Ready)])
        else Moved(s, id, Done(CredentialsRejected))
      case _ => s
  }

  function FlightNext(s: State, f: nat, step: FlightStep): State
    requires f < |s.flights|
  {
    var flight := s.flights[f];
    match (step, flight.stage)
    case (Recheck, Rechecking) =>
      Staged(s, f, if Hit(s.cache, flight.Key(), s.now) then Returning(Token(s.cachedFrom, Some(s.now))) else LoggingIn)
    case (LoginOk(token, expire), LoggingIn) =>
      // A login answering with an empty token is a failure.
      if token == "" then Staged(s, f, Returning(Broken))
      else Staged(s, f, Storing(|s.logins|)).(logins := s.logins + [Login(flight.url, flight.machine, token, expire)])
    case (LoginFails(auth), LoggingIn) =>
      Staged(s, f, Returning(if auth then AuthRejected else Broken))
    case (Store, Storing(m)) =>
      if m >= |s.logins| then s
      else Staged(s, f, Returning(Token(m, None)))
             .(cache := Filled(flight.Key(), s.logins[m].token, s.logins[m].expire), cachedFrom := m)
    case (Land, Returning(outcome)) =>
      Staged(s, f, Landed(outcome)).(active := s.active - {flight.Key()})
    case _ => s
  }

  /** A step that is not enabled changes nothing. */
  function Next(s: State, step: Step): State {
    match step
    case OfRequest(id, r) => RequestNext(s, id, r)
    case OfFlight(f, fs) => if f < |s.flights| then FlightNext(s, f, fs) else s
    case Pass(until) => if s.now <= until then s.(now := until) else s
  }

  function Run(s: State, steps: seq<Step>): State {
    if steps == [] then s else Next(Run(s, steps[..|steps| - 1]), steps[|steps| - 1])
  }

  // ---------------------------------------------------------------------
  // What every interleaving keeps
  // ---------------------------------------------------------------------

  /** The token of login `m` belongs to `key`, and a cache hit left more than the safety margin. */
  predicate MintedFor(s: State, key: string, m: nat, hitAt: Option<int>) {
    && m < |s.logins| && s.logins[m].Key() == key
    && (hitAt.Some? ==> s.logins[m].expire - hitAt.value > SAFETY_MARGIN)
  }

  /** The cached key, token and expiry all come from one login. */
  predicate CacheSound(s: State) {
    s.cache.token != "" ==>
      && s.cachedFrom < |s.logins|
      && var l := s.logins[s.cachedFrom]; s.cache == Filled(l.Key(), l.token, l.expire)
  }

  predicate StageSound(s: State, f: Flight) {
    match f.stage
    case Storing(m) => MintedFor(s, f.Key(), m, None)
    case Returning(o) => o.Token? ==> MintedFor(s, f.Key(), o.mint, o.hitAt)
    case Landed(o) => o.Token? ==> MintedFor(s, f.Key(), o.mint, o.hitAt)
    case _ => true
  }

  ghost predicate FlightsSound(s: State) {
    forall f :: 0 <= f < |s.flights| ==> StageSound(s, s.flights[f])
  }

  /** The flights under way are exactly the active ones, one per key. */
  ghost predicate OneFlightPerKey(s: State) {
    && (forall k :: k in s.active ==>
          s.active[k] < |s.flights| && s.flights[s.active[k]].Key() == k && !s.flights[s.active[k]].stage.Landed?)
    && (forall f :: 0 <= f < |s.flights| && !s.flights[f].stage.Landed? ==>
          s.flights[f].Key() in s.active && s.active[s.flights[f].Key()] == f)
  }

  predicate RequestSound(s: State, r: Request) {
    && (r.attempt == 1 || r.attempt == 2)
    && match r.phase
       case Waiting(f) => f < |s.flights| && s.flights[f].Key() == r.Key()
       case Holding(m, hitAt) => MintedFor(s, r.Key(), m, hitAt)
       case _ => true
  }

  ghost predicate RequestsSound(s: State) {
    forall id :: id in s.requests ==> RequestSound(s, s.requests[id])
  }

  ghost predicate Sound(s: State) {
    CacheSound(s) && FlightsSound(s) && OneFlightPerKey(s) && RequestsSound(s)
  }

  /** What a flight step touches: one stage, and logins are only ever added. */
  lemma FlightFrame(s: State, f: nat, step: FlightStep)
    requires f < |s.flights|
    ensures var s' := FlightNext(s, f, step);
      && s.logins <= s'.logins && s'.requests == s.requests && |s'.flights| == |s.flights|
      && (forall i :: 0 <= i < |s.flights| ==> s'.flights[i].Key() == s.flights[i].Key())
      && (forall i :: 0 <= i < |s.flights| && i != f ==> s'.flights[i] == s.flights[i])
  {
  }

  lemma FlightOwnStage(s: State, f: nat, step: FlightStep)
    requires CacheSound(s) && f < |s.flights| && StageSound(s, s.flights[f])
    ensures var s' := FlightNext(s, f, step); f < |s'.flights| && CacheSound(s') && StageSound(s', s'.flights[f])
  {
  }

  lemma FlightKeepsFlights(s: State, f: nat, step: FlightStep)
    requires CacheSound(s) && FlightsSound(s) && f < |s.flights|
    ensures CacheSound(FlightNext(s, f, step)) && FlightsSound(FlightNext(s, f, step))
  {
    FlightFrame(s, f, step);
    FlightOwnStage(s, f, step);
    var s' := FlightNext(s, f, step);
    forall i | 0 <= i < |s'.flights| ensures StageSound(s', s'.flights[i]) {
      assert StageSound(s, s.flights[i]);
    }
  }

  lemma FlightKeepsActive(s: State, f: nat, step: FlightStep)
    requires OneFlightPerKey(s) && f < |s.flights|
    ensures OneFlightPerKey(FlightNext(s, f, step))
  {
    FlightFrame(s, f, step);
    var s' := FlightNext(s, f, step);
    if s' != s {
      assert s.active[s.flights[f].Key()] == f;
      assert s'.active == if s'.flights[f].stage.Landed? then s.active - {s.flights[f].Key()} else s.active;
    }
  }

  lemma FlightKeepsRequests(s: State, f: nat, step: FlightStep)
    requires RequestsSound(s) && f < |s.flights|
    ensures RequestsSound(FlightNext(s, f, step))
  {
    FlightFrame(s, f, step);
    var s' := FlightNext(s, f, step);
    forall id | id in s'.requests ensures RequestSound(s', s'.requests[id]) {
      assert RequestSound(s, s.requests[id]);
    }
  }

  /** What a request step touches: one request, and at most one new flight. */
  lemma RequestFrame(s: State, id: nat, step: RequestStep)
    ensures var s' := RequestNext(s, id, step);
      && s'.logins == s.logins && s.flights <= s'.flights
      && (s'.cache == s.cache || s'.cache == Invalidated(s.cache)) && s'.cachedFrom == s.cachedFrom
      && (forall other :: other != id ==>
            (other in s'.requests <==> other in s.requests) &&
            (other in s.requests ==> s'.requests[other] == s.requests[other]))
      && (s'.flights == s.flights ==> s'.active == s.active)
      && (s'.flights != s.flights ==>
            && |s'.flights| == |s.flights| + 1 && s'.flights[|s.flights|].stage.Rechecking?
            && s'.flights[|s.flights|].Key() !in s.active
            && s'.active == s.active[s'.flights[|s.flights|].Key() := |s.flights|])
  {
  }

  lemma RequestKeepsFlights(s: State, id: nat, step: RequestStep)
    requires CacheSound(s) && FlightsSound(s) && OneFlightPerKey(s)
    ensures var s' := RequestNext(s, id, step); CacheSound(s') && FlightsSound(s') && OneFlightPerKey(s')
  {
    RequestFrame(s, id, step);
    var s' := RequestNext(s, id, step);
    forall i | 0 <= i < |s'.flights| ensures StageSound(s', s'.flights[i]) {
      assert i < |s.flights| ==> StageSound(s, s.flights[i]) && s'.flights[i] == s.flights[i];
    }
  }

  lemma RequestKeepsRequests(s: State, id: nat, step: RequestStep)
    requires Sound(s)
    ensures RequestsSound(RequestNext(s, id, step))
  {
    RequestFrame(s, id, step);
    var s' := RequestNext(s, id, step);
    forall other | other in s'.requests ensures RequestSound(s', s'.requests[other]) {
      assert other in s.requests ==> RequestSound(s, s.requests[other]);
      if other == id && step.PickUp? && s.requests[id].phase.Waiting? {
        assert StageSound(s, s.flights[s.requests[id].phase.flight]);
      }
    }
  }

  lemma NextSound(s: State, step: Step)
    requires Sound(s)
    ensures Sound(Next(s, step))
  {
    match step
    case OfRequest(id, r) =>
      RequestKeepsFlights(s, id, r);
      RequestKeepsRequests(s, id, r);
    case OfFlight(f, fs) =>
      if f < |s.flights| {
        FlightKeepsFlights(s, f, fs);
        FlightKeepsActive(s, f, fs);
        FlightKeepsRequests(s, f, fs);
      }
    case Pass(_) =>
  }

  /** Every interleaving of requests, logins, responses and invalidations is sound. */
  lemma {:induction false} EveryRunSound(steps: seq<Step>)
    ensures Sound(Run(BOOT, steps))
  {
    if steps != [] {
      EveryRunSound(steps[..|steps| - 1]);
      NextSound(Run(BOOT, steps[..|steps| - 1]), steps[|steps| - 1]);
    }
  }

  /** Two logins under way at once are for different keys. */
  lemma OneLoginPerKey(steps: seq<Step>, f: nat, g: nat)
    requires var s := Run(BOOT, steps);
      f < g < |s.flights| && s.flights[f].stage.LoggingIn? && s.flights[g].stage.LoggingIn?
    ensures Run(BOOT, steps).flights[f].Key() != Run(BOOT, steps).flights[g].Key()
  {
    EveryRunSound(steps);
  }

  // ---------------------------------------------------------------------
  // Keys and (URL, machine) pairs
  // ---------------------------------------------------------------------

  predicate NulFree(url: string) {
    '\0' !in url
  }

  /** Without NUL in the URLs a key determines its pair. */
  lemma KeyDeterminesPair(u: string, m: string, u': string, m': string)
    requires NulFree(u) && NulFree(u')
    ensures CacheKey(u, m) == CacheKey(u', m') <==> u == u' && m == m'
  {
    var k, k' := CacheKey(u, m), CacheKey(u', m');
    assert k[|u|] == '\0' && k'[|u'|] == '\0';
    assert forall i :: 0 <= i < |u| ==> k[i] == u[i];
    assert forall i :: 0 <= i < |u'| ==> k'[i] == u'[i];
    if k == k' {
      assert |u| == |u'|;
      assert u == k[..|u|] && u' == k'[..|u'|];
      assert m == k[|u| + 1..] && m' == k'[|u'| + 1..];
    }
  }

  /** With NUL allowed, different pairs can share a key, and so a cached token. */
  lemma NulMergesPairs()
    ensures CacheKey("a\0b", "c") == CacheKey("a", "b\0c")
  {
    assert CacheKey("a\0b", "c") == "a\0b\0c" == CacheKey("a", "b\0c");
  }

  /** The key belongs to this pair alone. */
  ghost predicate KeyIsOwn(u: string, m: string) {
    forall u', m' :: CacheKey(u', m') == CacheKey(u, m) ==> u' == u && m' == m
  }

  function FirstNul(s: string): (i: nat)
    requires !NulFree(s)
    ensures i < |s| && s[i] == '\0' && forall j :: 0 <= j < i ==> s[j] != '\0'
  {
    if s[0] == '\0' then 0 else 1 + FirstNul(s[1..])
  }

  /** A URL with a NUL shares its key with the pair cut there. */
  lemma NulInUrlShares(u: string, m: string)
    requires !NulFree(u)
    ensures !KeyIsOwn(u, m)
  {
    var i := FirstNul(u);
    var u', m' := u[..i], u[i + 1..] + ['\0'] + m;
    assert u == u' + ['\0'] + u[i + 1..];
    assert CacheKey(u', m') == CacheKey(u, m);
    assert |u'| != |u|;
  }

  /** So does a machine with a NUL. */
  lemma NulInMachineShares(u: string, m: string)
    requires !NulFree(m)
    ensures !KeyIsOwn(u, m)
  {
    var i := FirstNul(m);
    var u', m' := u + ['\0'] + m[..i], m[i + 1..];
    assert m == m[..i] + ['\0'] + m';
    assert CacheKey(u', m') == CacheKey(u, m);
    assert |u'| != |u|;
  }

  lemma OneNulOneCut(u: string, m: string, u': string, m': string)
    requires NulFree(u) && NulFree(m) && CacheKey(u', m') == CacheKey(u, m)
    ensures u' == u && m' == m
  {
    var k := CacheKey(u, m);
    assert forall i :: 0 <= i < |u| ==> k[i] == u[i];
    forall i | 0 <= i < |k| && i != |u| ensures k[i] != '\0' {
      assert i > |u| ==> k[i] == m[i - |u| - 1];
    }
    assert k[|u'|] == '\0';
    assert u == k[..|u|] && u' == k[..|u'|];
    assert m == k[|u| + 1..] && m' == k[|u'| + 1..];
  }

  /** A key belongs to its pair alone exactly when neither part holds a NUL. */
  lemma KeyIsOwnExactlyWhen(u: string, m: string)
    ensures KeyIsOwn(u, m) <==> NulFree(u) && NulFree(m)
  {
    if !NulFree(u) {
      NulInUrlShares(u, m);
    } else if !NulFree(m) {
      NulInMachineShares(u, m);
    } else {
      forall u', m' | CacheKey(u', m') == CacheKey(u, m) ensures u' == u && m' == m {
        OneNulOneCut(u, m, u', m');
      }
    }
  }

  ghost predicate NulFreeArrivals(steps: seq<Step>) {
    forall i :: 0 <= i < |steps| && steps[i].OfRequest? && steps[i].r.Arrive? ==> NulFree(steps[i].r.url)
  }

  ghost predicate NulFreeState(s: State) {
    && (forall id :: id in s.requests ==> NulFree(s.requests[id].url))
    && (forall f :: 0 <= f < |s.flights| ==> NulFree(s.flights[f].url))
    && (forall l :: 0 <= l < |s.logins| ==> NulFree(s.logins[l].url))
  }

  lemma NextNulFree(s: State, step: Step)
    requires NulFreeState(s)
    requires step.OfRequest? && step.r.Arrive? ==> NulFree(step.r.url)
    ensures NulFreeState(Next(s, step))
  {
  }

  lemma {:induction false} RunNulFree(steps: seq<Step>)
    requires NulFreeArrivals(steps)
    ensures NulFreeState(Run(BOOT, steps))
  {
    if steps != [] {
      var n := |steps| - 1;
      assert forall i :: 0 <= i < n ==> steps[..n][i] == steps[i];
      RunNulFree(steps[..n]);
      NextNulFree(Run(BOOT, steps[..n]), steps[n]);
    }
  }

  /**
   Every token handed to a request was minted by a login with that request's own
   URL and machine, and a cached one had more than the safety margin left.
   */
  lemma TokenMintedForPair(steps: seq<Step>, id: nat)
    requires NulFreeArrivals(steps)
    requires var s := Run(BOOT, steps); id in s.requests && s.requests[id].phase.Holding?
    ensures
      var s := Run(BOOT, steps);
      var r := s.requests[id];
      && r.phase.mint < |s.logins|
      && var l := s.logins[r.phase.mint];
         && l.url == r.url && l.machine == r.machine
         && (r.phase.hitAt.Some? ==> l.expire - r.phase.hitAt.value > SAFETY_MARGIN)
  {
    EveryRunSound(steps);
    RunNulFree(steps);
    var s := Run(BOOT, steps);
    var r := s.requests[id];
    assert RequestSound(s, r);
    var l := s.logins[r.phase.mint];
    KeyDeterminesPair(l.url, l.machine, r.url, r.machine);
  }

  /** A request makes at most two attempts. */
  lemma NoRetryLoop(steps: seq<Step>, id: nat)
    requires id in Run(BOOT, steps).requests
    ensures 1 <= Run(BOOT, steps).requests[id].attempt <= 2
  {
    EveryRunSound(steps);
    assert RequestSound(Run(BOOT, steps), Run(BOOT, steps).requests[id]);
  }

  // ---------------------------------------------------------------------
  // What a retry can be handed
  // ---------------------------------------------------------------------

  /** The flight under way for `key` already has a token in hand. */
  predicate TokenInHand(s: State, key: string) {
    && key in s.active && s.active[key] < |s.flights|
    && var stage := s.flights[s.active[key]].stage;
       stage.Storing? || (stage.Returning? && stage.outcome.Token?)
  }

  function MintInHand(s: State, key: string): nat
    requires TokenInHand(s, key)
  {
    var stage := s.flights[s.active[key]].stage;
    if stage.Storing? then stage.mint else stage.outcome.mint
  }

  /** The request holds the token of login `m`. */
  predicate Holds(s: State, id: nat, m: nat) {
    id in s.requests && s.requests[id].phase.Holding? && s.requests[id].phase.mint == m
  }

  /** A request that has just invalidated the cache and is about to look again. */
  predicate JustInvalidated(s: State, id: nat) {
    In(s, id, Ready) && s.cache.token == ""
  }

  /** After these steps the request does not hold a token minted before them. */
  ghost predicate FreshAfter(s: State, id: nat, steps: seq<Step>) {
    var s' := Run(s, steps);
    id in s'.requests && s'.requests[id].phase.Holding? ==> s'.requests[id].phase.mint >= |s.logins|
  }

  predicate FreshStage(stage: Stage, floor: nat) {
    match stage
    case Storing(m) => m >= floor
    case Returning(o) => o.Token? ==> o.mint >= floor
    case Landed(o) => o.Token? ==> o.mint >= floor
    case _ => true
  }

  /** Every place the request could still get a token from holds only fresh ones. */
  ghost predicate FreshFor(s: State, id: nat, key: string, floor: nat) {
    && floor <= |s.logins|
    && id in s.requests && s.requests[id].Key() == key
    && (s.cache.token != "" && s.cache.key == key ==> s.cachedFrom >= floor)
    && (key in s.active && s.active[key] < |s.flights| ==> FreshStage(s.flights[s.active[key]].stage, floor))
    && match s.requests[id].phase
       case Waiting(f) => f < |s.flights| && FreshStage(s.flights[f].stage, floor)
       case Holding(m, _) => m >= floor
       case _ => true
  }

  lemma FlightKeepsFresh(s: State, f: nat, step: FlightStep, id: nat, key: string, floor: nat)
    requires Sound(s) && FreshFor(s, id, key, floor) && f < |s.flights|
    ensures FreshFor(FlightNext(s, f, step), id, key, floor)
  {
    assert StageSound(s, s.flights[f]);
    assert !s.flights[f].stage.Landed? ==> s.active[s.flights[f].Key()] == f;
  }

  lemma RequestKeepsFresh(s: State, other: nat, step: RequestStep, id: nat, key: string, floor: nat)
    requires Sound(s) && FreshFor(s, id, key, floor)
    ensures FreshFor(RequestNext(s, other, step), id, key, floor)
  {
    assert RequestSound(s, s.requests[id]);
    RequestFrame(s, other, step);
  }

  lemma {:induction false} RunKeepsFresh(s: State, steps: seq<Step>, id: nat, key: string, floor: nat)
    requires Sound(s) && FreshFor(s, id, key, floor)
    ensures Sound(Run(s, steps)) && FreshFor(Run(s, steps), id, key, floor)
  {
    if steps != [] {
      var before, step := Run(s, steps[..|steps| - 1]), steps[|steps| - 1];
      RunKeepsFresh(s, steps[..|steps| - 1], id, key, floor);
      NextSound(before, step);
      match step
      case OfRequest(other, r) => RequestKeepsFresh(before, other, r, id, key, floor);
      case OfFlight(f, fs) =>
        if f < |before.flights| {
          FlightKeepsFresh(before, f, fs, id, key, floor);
        }
      case Pass(_) =>
    }
  }

  lemma RunSnoc(s: State, steps: seq<Step>, step: Step)
    ensures Run(s, steps + [step]) == Next(Run(s, steps), step)
  {
    assert (steps + [step])[..|steps|] == steps;
  }

  /** The interleaving that hands the old token back: join the flight that has it. */
  lemma StaleHandout(s: State, id: nat) returns (steps: seq<Step>)
    requires Sound(s) && JustInvalidated(s, id) && TokenInHand(s, s.requests[id].Key())
    ensures Holds(Run(s, steps), id, MintInHand(s, s.requests[id].Key()))
    ensures !FreshAfter(s, id, steps)
  {
    var f := s.active[s.requests[id].Key()];
    assert StageSound(s, s.flights[f]);
    steps := [];
    RunSnoc(s, steps, OfRequest(id, FastPath));
    steps := steps + [OfRequest(id, FastPath)];
    assert Run(s, steps) == Moved(s, id, Missed);
    RunSnoc(s, steps, OfRequest(id, Enter));
    steps := steps + [OfRequest(id, Enter)];
    assert Run(s, steps) == Moved(s, id, Waiting(f));
    RunSnoc(s, steps, OfFlight(f, Store));
    steps := steps + [OfFlight(f, Store)];
    assert Run(s, steps).flights[f].stage.Returning? && Run(s, steps).requests == Moved(s, id, Waiting(f)).requests;
    RunSnoc(s, steps, OfFlight(f, Land));
    steps := steps + [OfFlight(f, Land)];
    RunSnoc(s, steps, OfRequest(id, PickUp));
    steps := steps + [OfRequest(id, PickUp)];
  }

  /**
   In every reachable state: a retry that has just invalidated the cache can be
   handed only tokens minted afterwards, in every continuation, exactly when no
   flight for its key already has a token in hand.
   */
  lemma RetryFreshExactlyWhen(steps: seq<Step>, id: nat)
    requires JustInvalidated(Run(BOOT, steps), id)
    ensures var s := Run(BOOT, steps);
      (forall more :: FreshAfter(s, id, more)) <==> !TokenInHand(s, s.requests[id].Key())
  {
    EveryRunSound(steps);
    var s := Run(BOOT, steps);
    var key := s.requests[id].Key();
    if TokenInHand(s, key) {
      var _ := StaleHandout(s, id);
    } else {
      forall more ensures FreshAfter(s, id, more) {
        RunKeepsFresh(s, more, id, key, |s.logins|);
      }
    }
  }
}
