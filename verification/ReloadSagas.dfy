/**
 Write, reload, undo: the admin requests on forward-auth providers
 (internal/api/forward_auth_provider.go), on routes (internal/api/routes.go) and on
 the access log (internal/api/access_log.go).  Requests come one at a time, which is
 the single-writer assumption stated at internal/api/routes.go:1506-1509.
 */
module ReloadSagas {
  import opened Options
  import opened Strings
  import opened AccessLog

  datatype Provider = Provider(name: Text, settings: Text, secret: Text)

  /** `forwardAuth` names the provider of a route whose auth mode is forward-auth. */
  datatype Route = Route(id: Text, forwardAuth: Option<Text>, settings: Text)

  /** `log` is None until the access log is first configured. */
  datatype Store = Store(providers: map<Text, Provider>, routes: map<Text, Route>, log: Option<LogConfig>)

  /** What Caddy's configuration is generated from. */
  datatype Served = Served(providers: map<Text, Provider>, routes: map<Text, Route>, log: LogConfig)

  datatype World = World(store: Store, running: Served)

  function Effective(log: Option<LogConfig>): LogConfig {
    if log.Some? then log.value else DEFAULT_CONFIG
  }

  function Visible(s: Store): Served {
    Served(s.providers, s.routes, Effective(s.log))
  }

  datatype Request =
    | CreateProvider(provider: Provider)
    | UpdateProvider(provider: Provider)
    | DeleteProvider(name: Text)
    | CreateRoute(route: Route)
    | UpdateRoute(route: Route)
    | DeleteRoute(id: Text)
    | PutLog(config: LogConfig)

  /** How one request fares: its own shape, the reads, the route listing, the write, the reload, the undo write. */
  datatype Answers = Answers(accepted: bool, loads: bool, lists: bool, writes: bool, reloads: bool, undoes: bool)

  // ---------------------------------------------------------------------
  // The outcome of a request
  // ---------------------------------------------------------------------

  predicate Refers(r: Route, name: Text) {
    r.forwardAuth == Some(name)
  }

  predicate Referenced(s: Store, name: Text) {
    exists id :: id in s.routes && Refers(s.routes[id], name)
  }

  /** The existence check of a forward-auth route. */
  predicate ProviderExists(s: Store, r: Route, loads: bool) {
    r.forwardAuth.Some? ==> r.forwardAuth.value != "" && loads && r.forwardAuth.value in s.providers
  }

  /** An empty secret on update keeps the stored one. */
  function KeepSecret(p: Provider, previous: Provider): Provider {
    if p.secret == "" then p.(secret := previous.secret) else p
  }

  /** The store after the request's own write, or None when it is turned down before. */
  function Written(s: Store, q: Request, a: Answers): Option<Store> {
    match q
    case CreateProvider(p) =>
      if a.accepted && p.name != "" && a.writes && p.name !in s.providers
      then Some(s.(providers := s.providers[p.name := p])) else None
    case UpdateProvider(p) =>
      if a.accepted && p.name != "" && a.loads && p.name in s.providers && a.writes
      then Some(s.(providers := s.providers[p.name := KeepSecret(p, s.providers[p.name])])) else None
    case DeleteProvider(name) =>
      if name != "" && a.loads && name in s.providers && a.lists && !Referenced(s, name) && a.writes
      then Some(s.(providers := s.providers - {name})) else None
    case CreateRoute(r) =>
      if a.accepted && ProviderExists(s, r, a.loads) && a.writes
      then Some(s.(routes := s.routes[r.id := r])) else None
    case UpdateRoute(r) =>
      if r.id != "" && a.loads && r.id in s.routes && a.accepted && ProviderExists(s, r, a.loads) && a.writes
      then Some(s.(routes := s.routes[r.id := r])) else None
    case DeleteRoute(id) =>
      if id != "" && a.loads && id in s.routes && a.writes
      then Some(s.(routes := s.routes - {id})) else None
    case PutLog(c) =>
      if a.accepted && Validate(c).Some? && a.writes
      then Some(s.(log := Validate(c))) else None
  }

  /** The setting the access-log handler will put back: its read error is ignored. */
  function LogToPutBack(s: Store, a: Answers): LogConfig {
    if a.loads then Effective(s.log) else ZERO_CONFIG
  }

  /** The store `now` after the undo of a request that started in `s`. */
  function Undone(s: Store, now: Store, q: Request, a: Answers): Store
    requires Written(s, q, a) == Some(now)
  {
    if !a.undoes then now
    else match q
      case CreateProvider(p) => now.(providers := now.providers - {p.name})
      case UpdateProvider(p) => now.(providers := now.providers[p.name := s.providers[p.name]])
      case DeleteProvider(name) => now.(providers := now.providers[name := s.providers[name]])
      case CreateRoute(r) => now.(routes := now.routes - {r.id})
      case UpdateRoute(r) => now.(routes := now.routes[r.id := s.routes[r.id]])
      case DeleteRoute(id) => now.(routes := now.routes[id := s.routes[id]])
      case PutLog(c) =>
        if Validate(LogToPutBack(s, a)).Some? then now.(log := Validate(LogToPutBack(s, a))) else now
  }

  function Step(w: World, q: Request, a: Answers): World {
    match Written(w.store, q, a)
    case None => w
    case Some(now) =>
      if a.reloads then World(now, Visible(now))
      else World(Undone(w.store, now, q, a), w.running)
  }

  // ---------------------------------------------------------------------
  // The handlers
  // ---------------------------------------------------------------------

  /** Which routes block the deletion of a provider. */
  method Referencing(listed: seq<Route>, name: Text) returns (ids: seq<Text>)
    ensures ids == [] <==> forall i :: 0 <= i < |listed| ==> !Refers(listed[i], name)
    ensures forall id :: id in ids <==> exists i :: 0 <= i < |listed| && Refers(listed[i], name) && listed[i].id == id
  {
    ids := [];
    for n := 0 to |listed|
      invariant ids == [] <==> forall i :: 0 <= i < n ==> !Refers(listed[i], name)
      invariant forall id :: id in ids <==> exists i :: 0 <= i < n && Refers(listed[i], name) && listed[i].id == id
    {
      if Refers(listed[n], name) {
        ids := ids + [listed[n].id];
      }
    }
  }

  ghost predicate Listing(routes: map<Text, Route>, listed: seq<Route>) {
    && (forall i :: 0 <= i < |listed| ==> listed[i].id in routes && routes[listed[i].id] == listed[i])
    && (forall id :: id in routes ==> routes[id] in listed)
  }

  class Admin {
    var store: Store
    var running: Served

    function Current(): World
      reads this
    {
      World(store, running)
    }

    /** A failed reload leaves the running configuration alone. */
    method Reload(ok: bool)
      modifies this`running
      ensures running == if ok then Visible(store) else old(running)
    {
      if ok {
        running := Visible(store);
      }
    }

    method DoCreateProvider(p: Provider, a: Answers)
      modifies this
      ensures Current() == Step(old(Current()), CreateProvider(p), a)
    {
      if !a.accepted || p.name == "" {
        return;
      }
      if !a.writes || p.name in store.providers {
        return;
      }
      store := store.(providers := store.providers[p.name := p]);
      Reload(a.reloads);
      if !a.reloads && a.undoes {
        store := store.(providers := store.providers - {p.name});
      }
    }

    method DoUpdateProvider(p: Provider, a: Answers)
      modifies this
      ensures Current() == Step(old(Current()), UpdateProvider(p), a)
    {
      if !a.accepted || p.name == "" || !a.loads || p.name !in store.providers {
        return;
      }
      var previous := store.providers[p.name];
      if !a.writes {
        return;
      }
      store := store.(providers := store.providers[p.name := KeepSecret(p, previous)]);
      Reload(a.reloads);
      if !a.reloads && a.undoes {
        store := store.(providers := store.providers[p.name := previous]);
      }
    }

    method DoDeleteProvider(name: Text, listed: seq<Route>, a: Answers)
      requires Listing(store.routes, listed)
      modifies this
      ensures Current() == Step(old(Current()), DeleteProvider(name), a)
    {
      if name == "" || !a.loads || name !in store.providers {
        return;
      }
      var previous := store.providers[name];
      if !a.lists {
        return;
      }
      var referencing := Referencing(listed, name);
      assert referencing != [] <==> Referenced(store, name) by {
        if Referenced(store, name) {
          var id :| id in store.routes && Refers(store.routes[id], name);
          assert store.routes[id] in listed;
        }
      }
      if |referencing| > 0 || !a.writes {
        return;
      }
      store := store.(providers := store.providers - {name});
      Reload(a.reloads);
      if !a.reloads && a.undoes {
        store := store.(providers := store.providers[name := previous]);
      }
    }

    method DoCreateRoute(r: Route, a: Answers)
      modifies this
      ensures Current() == Step(old(Current()), CreateRoute(r), a)
    {
      if !a.accepted || !ProviderExists(store, r, a.loads) || !a.writes {
        return;
      }
      store := store.(routes := store.routes[r.id := r]);
      Reload(a.reloads);
      if !a.reloads && a.undoes {
        store := store.(routes := store.routes - {r.id});
      }
    }

    method DoUpdateRoute(r: Route, a: Answers)
      modifies this
      ensures Current() == Step(old(Current()), UpdateRoute(r), a)
    {
      if r.id == "" || !a.loads || r.id !in store.routes {
        return;
      }
      var previous := store.routes[r.id];
      if !a.accepted || !ProviderExists(store, r, a.loads) || !a.writes {
        return;
      }
      store := store.(routes := store.routes[r.id := r]);
      Reload(a.reloads);
      if !a.reloads && a.undoes {
        store := store.(routes := store.routes[r.id := previous]);
      }
    }

    method DoDeleteRoute(id: Text, a: Answers)
      modifies this
      ensures Current() == Step(old(Current()), DeleteRoute(id), a)
    {
      if id == "" || !a.loads || id !in store.routes {
        return;
      }
      var previous := store.routes[id];
      if !a.writes {
        return;
      }
      store := store.(routes := store.routes - {id});
      Reload(a.reloads);
      if !a.reloads && a.undoes {
        store := store.(routes := store.routes[id := previous]);
      }
    }

    method DoPutLog(c: LogConfig, a: Answers)
      modifies this
      ensures Current() == Step(old(Current()), PutLog(c), a)
    {
      if !a.accepted {
        return;
      }
      var previous := LogToPutBack(store, a);
      var normal := Validate(c);
      if normal.None? || !a.writes {
        return;
      }
      store := store.(log := normal);
      Reload(a.reloads);
      if !a.reloads && a.undoes {
        var back := Validate(previous);
        if back.Some? {
          store := store.(log := back);
        }
      }
    }
  }

  // ---------------------------------------------------------------------
  // What every request keeps
  // ---------------------------------------------------------------------

  /** Every forward-auth route names a provider that exists. */
  ghost predicate Intact(s: Store) {
    forall id :: id in s.routes && s.routes[id].forwardAuth.Some? ==> s.routes[id].forwardAuth.value in s.providers
  }

  ghost predicate LogNormal(s: Store) {
    s.log.Some? ==> Normal(s.log.value)
  }

  ghost predicate Sound(s: Store) {
    Intact(s) && LogNormal(s)
  }

  /** Route ids are generated: a new route gets an id nobody has. */
  predicate FreshId(s: Store, q: Request) {
    q.CreateRoute? ==> q.route.id !in s.routes
  }

  ghost predicate Agrees(w: World) {
    w.running == Visible(w.store)
  }

  /** Whether a request's write lands, by what it names and what the store and its answers say. */
  lemma LandsExactlyWhen(s: Store, q: Request, a: Answers)
    ensures Written(s, q, a).Some? <==>
      a.writes &&
      match q
      case CreateProvider(p) => a.accepted && p.name != "" && p.name !in s.providers
      case UpdateProvider(p) => a.accepted && p.name != "" && a.loads && p.name in s.providers
      case DeleteProvider(name) =>
        name != "" && a.loads && a.lists && name in s.providers
        && forall id :: id in s.routes ==> s.routes[id].forwardAuth != Some(name)
      case CreateRoute(r) => a.accepted && NamesProvider(s, r, a)
      case UpdateRoute(r) => a.accepted && a.loads && r.id != "" && r.id in s.routes && NamesProvider(s, r, a)
      case DeleteRoute(id) => id != "" && a.loads && id in s.routes
      case PutLog(c) => a.accepted && Validate(c).Some?
  {
  }

  predicate NamesProvider(s: Store, r: Route, a: Answers) {
    r.forwardAuth == None || (r.forwardAuth.value != "" && a.loads && r.forwardAuth.value in s.providers)
  }

  /** Nothing but the named row changes, and it becomes what was sent, an empty provider secret apart. */
  lemma LandsAsSent(s: Store, q: Request, a: Answers)
    requires Written(s, q, a).Some?
    ensures var now := Written(s, q, a).value;
      && (q.CreateProvider? ==> now == Store(s.providers[q.provider.name := q.provider], s.routes, s.log))
      && (q.UpdateProvider? ==>
            && now.routes == s.routes && now.log == s.log && now.providers.Keys == s.providers.Keys
            && now.providers[q.provider.name].name == q.provider.name
            && now.providers[q.provider.name].settings == q.provider.settings
            && now.providers[q.provider.name].secret ==
               (if q.provider.secret == "" then s.providers[q.provider.name].secret else q.provider.secret)
            && forall n :: n in s.providers && n != q.provider.name ==> now.providers[n] == s.providers[n])
      && (q.DeleteProvider? ==> now == Store(s.providers - {q.name}, s.routes, s.log))
      && (q.CreateRoute? || q.UpdateRoute? ==> now == Store(s.providers, s.routes[q.route.id := q.route], s.log))
      && (q.DeleteRoute? ==> now == Store(s.providers, s.routes - {q.id}, s.log))
      && (q.PutLog? ==> now == Store(s.providers, s.routes, Validate(q.config)))
  {
    if q.UpdateProvider? {
      assert Written(s, q, a).value.providers.Keys == s.providers.Keys;
    }
  }

  lemma WriteKeepsIntact(s: Store, q: Request, a: Answers)
    requires Intact(s) && Written(s, q, a).Some?
    ensures Intact(Written(s, q, a).value)
  {
    var now := Written(s, q, a).value;
    if q.DeleteProvider? {
      forall id | id in now.routes && now.routes[id].forwardAuth.Some?
        ensures now.routes[id].forwardAuth.value in now.providers {
        assert !Refers(s.routes[id], q.name);
      }
    }
  }

  lemma UndoKeepsIntact(s: Store, now: Store, q: Request, a: Answers)
    requires Intact(s) && Intact(now) && Written(s, q, a) == Some(now) && FreshId(s, q)
    ensures Intact(Undone(s, now, q, a))
  {
    if a.undoes && q.CreateProvider? {
      assert now.providers - {q.provider.name} == s.providers;
    }
  }

  lemma LogStaysNormal(s: Store, q: Request, a: Answers)
    requires LogNormal(s) && Written(s, q, a).Some?
    ensures LogNormal(Written(s, q, a).value)
    ensures LogNormal(Undone(s, Written(s, q, a).value, q, a))
  {
    if q.PutLog? {
      ValidateTwice(q.config);
      if Validate(LogToPutBack(s, a)).Some? {
        ValidateTwice(LogToPutBack(s, a));
      }
    }
  }

  /** Every request keeps the references intact, whatever fails, the undo included. */
  lemma StepKeepsSound(w: World, q: Request, a: Answers)
    requires Sound(w.store) && FreshId(w.store, q)
    ensures Sound(Step(w, q, a).store)
  {
    if Written(w.store, q, a).Some? {
      var now := Written(w.store, q, a).value;
      WriteKeepsIntact(w.store, q, a);
      LogStaysNormal(w.store, q, a);
      UndoKeepsIntact(w.store, now, q, a);
    }
  }

  /** A provider's secret changes only by an update that carries one, never by one that leaves it empty. */
  lemma SecretChangesOnlyWhenGiven(w: World, q: Request, a: Answers, name: Text)
    requires FreshId(w.store, q)
    requires name in w.store.providers && name in Step(w, q, a).store.providers
    ensures var before, after := w.store.providers[name].secret, Step(w, q, a).store.providers[name].secret;
            after != before ==> q.UpdateProvider? && q.provider.name == name && after == q.provider.secret != ""
  {
  }

  /** The undo of the access log puts back the setting it read, or the zero value when the read failed. */
  lemma LogPutBack(s: Store, a: Answers)
    requires LogNormal(s)
    ensures Validate(LogToPutBack(s, a)) ==
              Some(if a.loads then Effective(s.log) else DEFAULT_CONFIG.(compress := false))
  {
    DefaultIsNormal();
    ZeroBecomes();
  }

  /** An undo write that succeeds restores what Caddy sees, except for an access log whose old value was never read. */
  lemma UndoRestores(s: Store, now: Store, q: Request, a: Answers)
    requires LogNormal(s) && FreshId(s, q) && Written(s, q, a) == Some(now) && a.undoes
    ensures var back := Undone(s, now, q, a);
            && back.providers == s.providers && back.routes == s.routes
            && Effective(back.log) == (if q.PutLog? && !a.loads then DEFAULT_CONFIG.(compress := false)
                                       else Effective(s.log))
  {
    match q
    case CreateProvider(p) => assert now.providers - {p.name} == s.providers;
    case UpdateProvider(p) => assert now.providers[p.name := s.providers[p.name]] == s.providers;
    case DeleteProvider(name) => assert now.providers[name := s.providers[name]] == s.providers;
    case CreateRoute(r) => assert now.routes - {r.id} == s.routes;
    case UpdateRoute(r) => assert now.routes[r.id := s.routes[r.id]] == s.routes;
    case DeleteRoute(id) => assert now.routes[id := s.routes[id]] == s.routes;
    case PutLog(c) => LogPutBack(s, a);
  }

  /** The write landed, Caddy refused it, and the undo did not bring the old state back. */
  predicate Diverges(s: Store, q: Request, a: Answers) {
    && Written(s, q, a).Some? && !a.reloads
    && if a.undoes then q.PutLog? && !a.loads && Effective(s.log) != DEFAULT_CONFIG.(compress := false)
       else Visible(Written(s, q, a).value) != Visible(s)
  }

  /** From agreement, a request ends in agreement exactly when it does not diverge. */
  lemma AgreementExactlyWhen(w: World, q: Request, a: Answers)
    requires Agrees(w) && LogNormal(w.store) && FreshId(w.store, q)
    ensures Agrees(Step(w, q, a)) <==> !Diverges(w.store, q, a)
  {
    if Written(w.store, q, a).Some? && a.undoes {
      UndoRestores(w.store, Written(w.store, q, a).value, q, a);
    }
  }

  // ---------------------------------------------------------------------
  // Whole runs
  // ---------------------------------------------------------------------

  datatype Event = Event(request: Request, answers: Answers)

  function Run(w: World, es: seq<Event>): World {
    if es == [] then w
    else Step(Run(w, es[..|es| - 1]), es[|es| - 1].request, es[|es| - 1].answers)
  }

  ghost predicate FreshIds(w: World, es: seq<Event>) {
    forall i :: 0 <= i < |es| ==> FreshId(Run(w, es[..i]).store, es[i].request)
  }

  ghost predicate NoneDiverges(w: World, es: seq<Event>) {
    forall i :: 0 <= i < |es| ==> !Diverges(Run(w, es[..i]).store, es[i].request, es[i].answers)
  }

  lemma Prefix(w: World, es: seq<Event>, n: nat)
    requires n <= |es|
    ensures FreshIds(w, es) ==> FreshIds(w, es[..n])
    ensures NoneDiverges(w, es) ==> NoneDiverges(w, es[..n])
  {
    forall i | 0 <= i < n ensures es[..n][..i] == es[..i] && es[..n][i] == es[i] {
    }
  }

  /** In no reachable state does a forward-auth route name a missing provider. */
  lemma {:induction false} EveryRunSound(w: World, es: seq<Event>)
    requires Sound(w.store) && FreshIds(w, es)
    ensures Sound(Run(w, es).store)
  {
    if es != [] {
      var n := |es| - 1;
      Prefix(w, es, n);
      EveryRunSound(w, es[..n]);
      StepKeepsSound(Run(w, es[..n]), es[n].request, es[n].answers);
    }
  }

  /** A run in which no request diverges keeps the store and Caddy in agreement after every request. */
  lemma {:induction false} EveryRunAgrees(w: World, es: seq<Event>)
    requires Sound(w.store) && Agrees(w) && FreshIds(w, es) && NoneDiverges(w, es)
    ensures Agrees(Run(w, es))
  {
    if es != [] {
      var n := |es| - 1;
      Prefix(w, es, n);
      EveryRunSound(w, es[..n]);
      EveryRunAgrees(w, es[..n]);
      AgreementExactlyWhen(Run(w, es[..n]), es[n].request, es[n].answers);
    }
  }

  /** The first divergence of a run is visible: store and Caddy disagree right after it. */
  lemma FirstDivergenceShows(w: World, es: seq<Event>, n: nat)
    requires Sound(w.store) && Agrees(w) && FreshIds(w, es) && n < |es|
    requires NoneDiverges(w, es[..n]) && Diverges(Run(w, es[..n]).store, es[n].request, es[n].answers)
    ensures !Agrees(Run(w, es[..n + 1]))
  {
    Prefix(w, es, n);
    EveryRunSound(w, es[..n]);
    EveryRunAgrees(w, es[..n]);
    assert es[..n + 1][..n] == es[..n];
    AgreementExactlyWhen(Run(w, es[..n]), es[n].request, es[n].answers);
  }
}
