/**
 A concrete interleaving of the JWT cache in which the retry receives the very token
 that was rejected: request 2 missed the cache before request 1 filled it, starts a
 flight of its own, and finds the token on its recheck.
 */
module JwtReuse {
  import opened Options
  import opened JwtCache

  const KEY := CacheKey("u", "m")
  const EXPIRE: int := SAFETY_MARGIN + 1
  const MISSED := Request("u", "m", 1, Missed)
  const LOGIN := Login("u", "m", "t", EXPIRE)

  const BOTH_MISSED := BOOT.(requests := map[1 := MISSED, 2 := MISSED])
  const MINTED := BOOT.(
    requests := map[1 := MISSED.(phase := Waiting(0)), 2 := MISSED],
    flights := [Flight("u", "m", Storing(0))], active := map[KEY := 0], logins := [LOGIN])
  const RECEIVED := BOOT.(
    requests := map[1 := MISSED.(phase := Holding(0, None)), 2 := MISSED],
    flights := [Flight("u", "m", Landed(Token(0, None)))], logins := [LOGIN], cache := Filled(KEY, "t", EXPIRE))
  const RECHECKED := RECEIVED.(
    requests := map[1 := MISSED.(phase := Holding(0, None)), 2 := MISSED.(phase := Waiting(1))],
    flights := RECEIVED.flights + [Flight("u", "m", Returning(Token(0, Some(0))))], active := map[KEY := 1])
  const RETRYING := RECHECKED.(
    requests := map[1 := MISSED.(phase := Ready, attempt := 2), 2 := MISSED.(phase := Waiting(1))],
    cache := Invalidated(RECHECKED.cache))

  const TO_BOTH_MISSED: seq<Step> := [
    OfRequest(1, Arrive("u", "m")), OfRequest(2, Arrive("u", "m")), OfRequest(1, FastPath), OfRequest(2, FastPath)]
  const TO_MINTED: seq<Step> := [OfRequest(1, Enter), OfFlight(0, Recheck), OfFlight(0, LoginOk("t", EXPIRE))]
  const TO_RECEIVED: seq<Step> := [OfFlight(0, Store), OfFlight(0, Land), OfRequest(1, PickUp)]
  const TO_RECHECKED: seq<Step> := [OfRequest(2, Enter), OfFlight(1, Recheck)]
  const TO_RETRYING: seq<Step> := [OfRequest(1, Respond(true, false)), OfRequest(1, Retry)]

  lemma {:induction false} RunSplits(s: State, a: seq<Step>, b: seq<Step>)
    ensures Run(s, a + b) == Run(Run(s, a), b)
  {
    if b == [] {
      assert a + b == a;
    } else {
      RunSplits(s, a, b[..|b| - 1]);
      assert (a + b)[..|a + b| - 1] == a + b[..|b| - 1];
    }
  }

  lemma Run2(s: State, a: Step, b: Step)
    ensures Run(s, [a, b]) == Next(Next(s, a), b)
  {
    assert [a, b] == ([] + [a]) + [b];
    RunSnoc(s, [], a);
    RunSnoc(s, [] + [a], b);
  }

  lemma Run3(s: State, a: Step, b: Step, c: Step)
    ensures Run(s, [a, b, c]) == Next(Next(Next(s, a), b), c)
  {
    Run2(s, a, b);
    RunSnoc(s, [a, b], c);
    assert [a, b, c] == [a, b] + [c];
  }

  lemma BothMiss()
    ensures Run(BOOT, TO_BOTH_MISSED) == BOTH_MISSED
  {
    var s := BOOT.(requests := map[1 := MISSED.(phase := Ready), 2 := MISSED.(phase := Ready)]);
    Run2(BOOT, TO_BOTH_MISSED[0], TO_BOTH_MISSED[1]);
    Run2(s, TO_BOTH_MISSED[2], TO_BOTH_MISSED[3]);
    RunSplits(BOOT, TO_BOTH_MISSED[..2], TO_BOTH_MISSED[2..]);
    assert TO_BOTH_MISSED == TO_BOTH_MISSED[..2] + TO_BOTH_MISSED[2..];
  }

  lemma FirstLogsIn()
    ensures Run(BOTH_MISSED, TO_MINTED) == MINTED
  {
    Run3(BOTH_MISSED, TO_MINTED[0], TO_MINTED[1], TO_MINTED[2]);
  }

  const STORED := MINTED.(flights := [Flight("u", "m", Returning(Token(0, None)))], cache := Filled(KEY, "t", EXPIRE))
  const LANDED := STORED.(flights := [Flight("u", "m", Landed(Token(0, None)))], active := map[])

  lemma FirstStores()
    ensures Next(MINTED, OfFlight(0, Store)) == STORED
  {
  }

  lemma FirstLands()
    ensures Next(STORED, OfFlight(0, Land)) == LANDED
  {
    assert STORED.active - {KEY} == map[];
  }

  lemma FirstPicksUp()
    ensures Next(LANDED, OfRequest(1, PickUp)) == RECEIVED
  {
  }

  lemma FirstReceives()
    ensures Run(MINTED, TO_RECEIVED) == RECEIVED
  {
    Run3(MINTED, TO_RECEIVED[0], TO_RECEIVED[1], TO_RECEIVED[2]);
    FirstStores();
    FirstLands();
    FirstPicksUp();
  }

  lemma SecondRechecks()
    ensures Run(RECEIVED, TO_RECHECKED) == RECHECKED
  {
    Run2(RECEIVED, TO_RECHECKED[0], TO_RECHECKED[1]);
  }

  lemma FirstRetries()
    ensures Run(RECHECKED, TO_RETRYING) == RETRYING
  {
    Run2(RECHECKED, TO_RETRYING[0], TO_RETRYING[1]);
  }

  lemma Then(s: State, a: seq<Step>, mid: State, b: seq<Step>, end: State)
    requires Run(s, a) == mid && Run(mid, b) == end
    ensures Run(s, a + b) == end
  {
    RunSplits(s, a, b);
  }

  /** Up to the moment the rejected answer arrives. */
  lemma ReachesRechecked() returns (steps: seq<Step>)
    ensures Run(BOOT, steps) == RECHECKED
  {
    BothMiss();
    FirstLogsIn();
    Then(BOOT, TO_BOTH_MISSED, BOTH_MISSED, TO_MINTED, MINTED);
    steps := TO_BOTH_MISSED + TO_MINTED;
    FirstReceives();
    Then(BOOT, steps, MINTED, TO_RECEIVED, RECEIVED);
    steps := steps + TO_RECEIVED;
    SecondRechecks();
    Then(BOOT, steps, RECEIVED, TO_RECHECKED, RECHECKED);
    steps := steps + TO_RECHECKED;
  }

  lemma RetryingHoldsOldToken()
    ensures JustInvalidated(RETRYING, 1) && TokenInHand(RETRYING, RETRYING.requests[1].Key())
    ensures Holds(RECHECKED, 1, 0) && MintInHand(RETRYING, RETRYING.requests[1].Key()) == 0
  {
  }

  /** A reachable state in which a request's token is rejected and some continuation of its retry hands it the same token. */
  lemma RetryCanReuseRejectedToken() returns (before: seq<Step>, more: seq<Step>, mint: nat)
    ensures Holds(Run(BOOT, before), 1, mint)
    ensures var retrying := Run(Run(BOOT, before), [OfRequest(1, Respond(true, false)), OfRequest(1, Retry)]);
      JustInvalidated(retrying, 1) && Holds(Run(retrying, more), 1, mint)
  {
    before := ReachesRechecked();
    FirstRetries();
    Then(BOOT, before, RECHECKED, TO_RETRYING, RETRYING);
    EveryRunSound(before + TO_RETRYING);
    RetryingHoldsOldToken();
    more := StaleHandout(RETRYING, 1);
    mint := 0;
  }
}
