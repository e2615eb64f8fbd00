/**
 Importing a Caddyfile (internal/api/caddyfile_import.go): every requested host is
 created, replaced or skipped; Caddy is reloaded once; when Caddy refuses, an undo
 log is replayed and Caddy reloaded again.  The undo log of replaced rows is
 replayed in forward order, so a row replaced twice is not always put back.
 */
module CaddyfileImport {
  import opened Options
  import opened Strings

  type Id = Text

  /** `copied` stands for the fields taken over as they are; `other` for those an import never fills. */
  datatype Content = Content(host: Text, aliases: seq<Text>, copied: Text, tls: bool,
                             redirectToHttps: bool, authMode: Text, wafMode: Text, other: Text)
  datatype Route = Route(id: Id, content: Content)
  type Routes = map<Id, Route>

  datatype ParsedRoute = ParsedRoute(host: Text, aliases: seq<Text>, copied: Text, tls: bool)
  datatype Candidate = Candidate(host: Text, route: Option<ParsedRoute>, importable: bool, reason: Text)

  /** How the store answers while one requested host is processed. */
  datatype Reply = Reply(loads: bool, writes: bool, newId: Id)

  datatype Reason = NotFound | Refused(text: Text) | AlreadyServed | Invalid | LoadFailed | WriteFailed
  datatype Fate = Create(route: Route) | Replace(route: Route) | Skip(reason: Reason)

  datatype Input = Input(hosts: seq<Text>, replace: seq<Text>, candidates: seq<Candidate>,
                         listed: seq<Route>, replies: nat -> Reply, valid: Content -> bool)

  // ---------------------------------------------------------------------
  // What becomes of one requested host
  // ---------------------------------------------------------------------

  function AllHosts(c: Content): seq<Text> {
    [c.host] + c.aliases
  }

  predicate Serves(r: Route, host: Text) {
    exists i :: 0 <= i < |AllHosts(r.content)| && Lower(AllHosts(r.content)[i]) == host
  }

  /** The last listed route that serves `host`. */
  function ServedBy(listed: seq<Route>, host: Text): Option<Id> {
    if listed == [] then None
    else if Serves(listed[|listed| - 1], host) then Some(listed[|listed| - 1].id)
    else ServedBy(listed[..|listed| - 1], host)
  }

  ghost predicate LastServing(listed: seq<Route>, host: Text, i: nat) {
    i < |listed| && Serves(listed[i], host) && forall j :: i < j < |listed| ==> !Serves(listed[j], host)
  }

  lemma {:induction false} ServedByIsLast(listed: seq<Route>, host: Text)
    ensures var id := ServedBy(listed, host);
            if id.None? then forall i :: 0 <= i < |listed| ==> !Serves(listed[i], host)
            else exists i: nat :: LastServing(listed, host, i) && listed[i].id == id.value
  {
    if listed != [] {
      var n := |listed| - 1;
      if Serves(listed[n], host) {
        assert LastServing(listed, host, n);
      } else {
        ServedByIsLast(listed[..n], host);
        if ServedBy(listed[..n], host).Some? {
          var i: nat :| LastServing(listed[..n], host, i) && listed[..n][i].id == ServedBy(listed, host).value;
          assert LastServing(listed, host, i);
        }
      }
    }
  }

  /** The first candidate for `host`, ignoring case. */
  function CandidateFor(cs: seq<Candidate>, host: Text): Option<Candidate> {
    if cs == [] then None
    else if Lower(cs[0].host) == Lower(host) then Some(cs[0])
    else CandidateFor(cs[1..], host)
  }

  lemma {:induction false} CandidateForIsFirst(cs: seq<Candidate>, host: Text)
    ensures var c := CandidateFor(cs, host);
            if c.None? then forall i :: 0 <= i < |cs| ==> Lower(cs[i].host) != Lower(host)
            else exists i :: 0 <= i < |cs| && cs[i] == c.value && Lower(cs[i].host) == Lower(host)
                             && forall j :: 0 <= j < i ==> Lower(cs[j].host) != Lower(host)
  {
    if cs != [] && Lower(cs[0].host) != Lower(host) {
      CandidateForIsFirst(cs[1..], host);
      var c := CandidateFor(cs[1..], host);
      if c.Some? {
        var i :| 0 <= i < |cs| - 1 && cs[1..][i] == c.value && Lower(cs[1..][i].host) == Lower(host)
                 && forall j :: 0 <= j < i ==> Lower(cs[1..][j].host) != Lower(host);
        forall j | 0 <= j < i + 1 ensures Lower(cs[j].host) != Lower(host) {
          if j > 0 {
            assert cs[j] == cs[1..][j - 1];
          }
        }
        assert cs[i + 1] == c.value;
      } else {
        forall j | 0 <= j < |cs| ensures Lower(cs[j].host) != Lower(host) {
          if j > 0 {
            assert cs[j] == cs[1..][j - 1];
          }
        }
      }
    } else if cs != [] {
      assert cs[0] == CandidateFor(cs, host).value;
    }
  }

  function FromCandidate(p: ParsedRoute): Content {
    Content(p.host, p.aliases, p.copied, p.tls, p.tls, "none", "detect", "")
  }

  function RefusalText(reason: Text): Text {
    if reason == "" then "nothing to import in this block" else reason
  }

  function FateOf(x: Input, i: nat): Fate
    requires i < |x.hosts|
  {
    match CandidateFor(x.candidates, x.hosts[i])
    case None => Skip(NotFound)
    case Some(c) =>
      if !c.importable || c.route.None? then Skip(Refused(RefusalText(c.reason)))
      else
        var content := FromCandidate(c.route.value);
        var reply := x.replies(i);
        match ServedBy(x.listed, Lower(content.host))
        case Some(id) =>
          if x.hosts[i] !in x.replace then Skip(AlreadyServed)
          else if !x.valid(content) then Skip(Invalid)
          else if !reply.loads then Skip(LoadFailed)
          else if !reply.writes then Skip(WriteFailed)
          else Replace(Route(id, content))
        case None =>
          if !x.valid(content) then Skip(Invalid)
          else if !reply.writes then Skip(WriteFailed)
          else Create(Route(reply.newId, content))
  }

  /** A route is replaced only on request and only if it serves the imported host; one is created only where none listed before the import serves it. */
  lemma FateJustified(x: Input, i: nat)
    requires i < |x.hosts|
    ensures var f := FateOf(x, i);
            && (f.Replace? ==>
                  && x.hosts[i] in x.replace
                  && exists k: nat :: LastServing(x.listed, Lower(f.route.content.host), k) && x.listed[k].id == f.route.id)
            && (f.Create? ==> forall k :: 0 <= k < |x.listed| ==> !Serves(x.listed[k], Lower(f.route.content.host)))
            && (!f.Skip? ==> x.valid(f.route.content) && x.replies(i).writes)
  {
    var c := CandidateFor(x.candidates, x.hosts[i]);
    if c.Some? && c.value.route.Some? {
      ServedByIsLast(x.listed, Lower(c.value.route.value.host));
    }
  }

  /** The first candidate for the i-th requested host. */
  ghost predicate FirstCandidate(x: Input, i: nat, c: nat)
    requires i < |x.hosts|
  {
    && c < |x.candidates| && Lower(x.candidates[c].host) == Lower(x.hosts[i])
    && forall d :: 0 <= d < c ==> Lower(x.candidates[d].host) != Lower(x.hosts[i])
  }

  /** Some route listed before the import serves the host. */
  predicate Taken(x: Input, host: Text) {
    exists k :: 0 <= k < |x.listed| && Serves(x.listed[k], Lower(host))
  }

  lemma {:induction false} CandidateIs(cs: seq<Candidate>, host: Text, c: nat)
    requires c < |cs| && Lower(cs[c].host) == Lower(host)
    requires forall d :: 0 <= d < c ==> Lower(cs[d].host) != Lower(host)
    ensures CandidateFor(cs, host) == Some(cs[c])
  {
    if c > 0 {
      assert Lower(cs[0].host) != Lower(host);
      assert forall d :: 0 <= d < c - 1 ==> cs[1..][d] == cs[d + 1];
      CandidateIs(cs[1..], host, c - 1);
    }
  }

  /** A host without a candidate is not found; a candidate without a usable route is refused with the parser's reason. */
  lemma UnusableExactly(x: Input, i: nat)
    requires i < |x.hosts|
    ensures (forall c :: 0 <= c < |x.candidates| ==> Lower(x.candidates[c].host) != Lower(x.hosts[i])) ==>
              FateOf(x, i) == Skip(NotFound)
    ensures forall c: nat :: FirstCandidate(x, i, c) && (!x.candidates[c].importable || x.candidates[c].route.None?) ==>
              FateOf(x, i) == Skip(Refused(if x.candidates[c].reason == "" then "nothing to import in this block"
                                           else x.candidates[c].reason))
  {
    CandidateForIsFirst(x.candidates, x.hosts[i]);
    forall c: nat | FirstCandidate(x, i, c) ensures CandidateFor(x.candidates, x.hosts[i]) == Some(x.candidates[c]) {
      CandidateIs(x.candidates, x.hosts[i], c);
    }
  }

  /** What a usable candidate becomes, decided by the listed routes, the request, the validation and the store's answers. */
  lemma FateExactly(x: Input, i: nat, c: nat)
    requires i < |x.hosts| && FirstCandidate(x, i, c) && x.candidates[c].importable && x.candidates[c].route.Some?
    ensures
      var p := x.candidates[c].route.value;
      var content := Content(p.host, p.aliases, p.copied, p.tls, p.tls, "none", "detect", "");
      var taken, may := Taken(x, p.host), x.hosts[i] in x.replace;
      var f := FateOf(x, i);
      && (f.Create? <==> !taken && x.valid(content) && x.replies(i).writes)
      && (f.Create? ==> f.route == Route(x.replies(i).newId, content))
      && (f.Replace? <==> taken && may && x.valid(content) && x.replies(i).loads && x.replies(i).writes)
      && (f.Replace? ==> f.route.content == content)
      && (f == Skip(AlreadyServed) <==> taken && !may)
      && (f == Skip(Invalid) <==> (taken ==> may) && !x.valid(content))
      && (f == Skip(LoadFailed) <==> taken && may && x.valid(content) && !x.replies(i).loads)
      && (f == Skip(WriteFailed) <==>
            (taken ==> may && x.replies(i).loads) && x.valid(content) && !x.replies(i).writes)
  {
    CandidateIs(x.candidates, x.hosts[i], c);
    ServedByIsLast(x.listed, Lower(x.candidates[c].route.value.host));
  }

  function Fates(x: Input, n: nat): (fs: seq<Fate>)
    requires n <= |x.hosts|
    ensures |fs| == n && forall i :: 0 <= i < n ==> fs[i] == FateOf(x, i)
  {
    if n == 0 then [] else Fates(x, n - 1) + [FateOf(x, n - 1)]
  }

  // ---------------------------------------------------------------------
  // The store and its undo log
  // ---------------------------------------------------------------------

  /** New rows get new ids; replaced rows exist. */
  ghost predicate Legal(m: Routes, fs: seq<Fate>) {
    && (forall i :: 0 <= i < |fs| && fs[i].Replace? ==> fs[i].route.id in m)
    && (forall i :: 0 <= i < |fs| && fs[i].Create? ==> fs[i].route.id !in m)
    && (forall i, j :: 0 <= i < j < |fs| && fs[i].Create? && fs[j].Create? ==> fs[i].route.id != fs[j].route.id)
  }

  ghost function Apply(m: Routes, fs: seq<Fate>): (r: Routes)
    ensures m.Keys <= r.Keys
  {
    if fs == [] then m
    else
      var before := Apply(m, fs[..|fs| - 1]);
      match fs[|fs| - 1]
      case Skip(_) => before
      case Create(r) => before[r.id := r]
      case Replace(r) => before[r.id := r]
  }

  ghost function CreatedLog(fs: seq<Fate>): seq<Route> {
    if fs == [] then []
    else
      var log := CreatedLog(fs[..|fs| - 1]);
      if fs[|fs| - 1].Create? then log + [fs[|fs| - 1].route] else log
  }

  /** The rows as they were just before each replacement. */
  ghost function ReplacedLog(m: Routes, fs: seq<Fate>): seq<Route>
    requires Legal(m, fs)
  {
    if fs == [] then []
    else
      var log := ReplacedLog(m, fs[..|fs| - 1]);
      if fs[|fs| - 1].Replace? then log + [Apply(m, fs[..|fs| - 1])[fs[|fs| - 1].route.id]] else log
  }

  function Delete(m: Routes, id: Id, ok: bool): Routes {
    if ok && id != "" && id in m then m - {id} else m
  }

  function Update(m: Routes, r: Route, valid: Content -> bool, ok: bool): Routes {
    if ok && r.id != "" && r.id in m && valid(r.content) then m[r.id := r] else m
  }

  /** Whether the i-th deletion and the i-th update of the rollback reach the store. */
  datatype Undo = Undo(deletes: nat -> bool, updates: nat -> bool)

  ghost function Deleted(m: Routes, log: seq<Route>, u: Undo): Routes {
    if log == [] then m
    else Delete(Deleted(m, log[..|log| - 1], u), log[|log| - 1].id, u.deletes(|log| - 1))
  }

  ghost function Updated(m: Routes, log: seq<Route>, valid: Content -> bool, u: Undo): Routes {
    if log == [] then m
    else Update(Updated(m, log[..|log| - 1], valid, u), log[|log| - 1], valid, u.updates(|log| - 1))
  }

  ghost function RolledBack(m: Routes, fs: seq<Fate>, valid: Content -> bool, u: Undo): Routes
    requires Legal(m, fs)
  {
    Updated(Deleted(Apply(m, fs), CreatedLog(fs), u), ReplacedLog(m, fs), valid, u)
  }

  /** Every undo write reaches the store. */
  ghost predicate UndoSucceeds(m: Routes, fs: seq<Fate>, valid: Content -> bool, u: Undo)
    requires Legal(m, fs)
  {
    && (forall i :: 0 <= i < |CreatedLog(fs)| ==> u.deletes(i) && CreatedLog(fs)[i].id != "")
    && (forall i :: 0 <= i < |ReplacedLog(m, fs)| ==> u.updates(i) && valid(ReplacedLog(m, fs)[i].content))
  }

  // ---------------------------------------------------------------------
  // When the undo is exact
  // ---------------------------------------------------------------------

  /** The last request that replaced row `id`. */
  function LastHit(fs: seq<Fate>, id: Id): (k: Option<nat>)
    ensures k.Some? ==> k.value < |fs| && fs[k.value].Replace? && fs[k.value].route.id == id
    ensures forall i :: 0 <= i < |fs| && fs[i].Replace? && fs[i].route.id == id ==> k.Some? && i <= k.value
  {
    if fs == [] then None
    else if fs[|fs| - 1].Replace? && fs[|fs| - 1].route.id == id then Some(|fs| - 1)
    else LastHit(fs[..|fs| - 1], id)
  }

  /** The last but one request that replaced row `id`. */
  function LastButOneHit(fs: seq<Fate>, id: Id): (k: Option<nat>)
    ensures k.Some? ==> k.value < |fs| && fs[k.value].Replace? && fs[k.value].route.id == id
  {
    match LastHit(fs, id)
    case None => None
    case Some(j) => LastHit(fs[..j], id)
  }

  /** The row that the rollback writes last over `id`. */
  ghost function PutBack(m: Routes, fs: seq<Fate>, id: Id): Route
    requires id in m
  {
    match LastButOneHit(fs, id)
    case None => m[id]
    case Some(i) => fs[i].route
  }

  /** No row is replaced twice, except by a row equal to the stored one. */
  ghost predicate UndoExact(m: Routes, fs: seq<Fate>) {
    forall id :: id in m && LastButOneHit(fs, id).Some? ==> fs[LastButOneHit(fs, id).value].route == m[id]
  }

  predicate DistinctTargets(fs: seq<Fate>) {
    forall i, j :: 0 <= i < j < |fs| && fs[i].Replace? && fs[j].Replace? ==> fs[i].route.id != fs[j].route.id
  }

  ghost predicate Keyed(m: Routes) {
    forall id :: id in m ==> m[id].id == id && id != ""
  }

  /** A stored row after the requests: the last replacement, or as it was. */
  lemma {:induction false} ApplyAt(m: Routes, fs: seq<Fate>, id: Id)
    requires Legal(m, fs) && id in m
    ensures Apply(m, fs)[id] == match LastHit(fs, id) case None => m[id] case Some(j) => fs[j].route
  {
    if fs != [] {
      ApplyAt(m, fs[..|fs| - 1], id);
    }
  }

  ghost function Ids(log: seq<Route>): set<Id> {
    set i | 0 <= i < |log| :: log[i].id
  }

  lemma IdsGrow(log: seq<Route>, r: Route)
    ensures Ids(log + [r]) == Ids(log) + {r.id}
  {
    var all := log + [r];
    forall id | id in Ids(log) + {r.id} ensures id in Ids(all) {
      if id == r.id {
        assert all[|log|].id == id;
      } else {
        var i :| 0 <= i < |log| && log[i].id == id;
        assert all[i].id == id;
      }
    }
  }

  lemma {:induction false} ApplyKeys(m: Routes, fs: seq<Fate>)
    requires Legal(m, fs)
    ensures Apply(m, fs).Keys == m.Keys + Ids(CreatedLog(fs))
  {
    if fs != [] {
      var init, last := fs[..|fs| - 1], fs[|fs| - 1];
      ApplyKeys(m, init);
      if last.Create? {
        IdsGrow(CreatedLog(init), last.route);
      } else if last.Replace? {
        assert last.route.id in Apply(m, init);
      }
    }
  }

  lemma {:induction false} CreatedAreNew(m: Routes, fs: seq<Fate>)
    requires Legal(m, fs)
    ensures forall id :: id in Ids(CreatedLog(fs)) ==> id !in m
  {
    if fs != [] {
      CreatedAreNew(m, fs[..|fs| - 1]);
      if fs[|fs| - 1].Create? {
        IdsGrow(CreatedLog(fs[..|fs| - 1]), fs[|fs| - 1].route);
      }
    }
  }

  /** Deletions touch no row outside the log. */
  lemma {:induction false} DeletedFrame(m: Routes, log: seq<Route>, u: Undo, id: Id)
    requires id !in Ids(log)
    ensures id in Deleted(m, log, u) <==> id in m
    ensures id in m ==> Deleted(m, log, u)[id] == m[id]
  {
    if log != [] {
      var init, last := log[..|log| - 1], log[|log| - 1];
      assert log == init + [last];
      IdsGrow(init, last);
      DeletedFrame(m, init, u, id);
    }
  }

  /** When every deletion succeeds the logged rows are gone. */
  lemma {:induction false} DeletedGone(m: Routes, log: seq<Route>, u: Undo)
    requires forall i :: 0 <= i < |log| ==> u.deletes(i) && log[i].id != ""
    ensures Deleted(m, log, u).Keys == m.Keys - Ids(log)
  {
    if log != [] {
      var init, last := log[..|log| - 1], log[|log| - 1];
      assert log == init + [last];
      IdsGrow(init, last);
      DeletedGone(m, init, u);
    }
  }

  /** The deletion of position `i` took place. */
  predicate DeletesAt(log: seq<Route>, u: Undo, id: Id, i: nat) {
    i < |log| && log[i].id == id && u.deletes(i) && id != ""
  }

  ghost predicate Gone(log: seq<Route>, u: Undo, id: Id) {
    exists i: nat :: DeletesAt(log, u, id, i)
  }

  lemma GoneGrows(log: seq<Route>, u: Undo, id: Id)
    requires log != []
    ensures Gone(log, u, id) <==> Gone(log[..|log| - 1], u, id) || DeletesAt(log, u, id, |log| - 1)
  {
    var n := |log| - 1;
    if Gone(log[..n], u, id) {
      var i: nat :| DeletesAt(log[..n], u, id, i);
      assert DeletesAt(log, u, id, i);
    }
    if Gone(log, u, id) {
      var i: nat :| DeletesAt(log, u, id, i);
      assert i < n ==> DeletesAt(log[..n], u, id, i);
    }
  }

  /** A row is gone after the deletions exactly when one of its own reached the store. */
  lemma {:induction false} DeletedExactlyWhen(m: Routes, log: seq<Route>, u: Undo, id: Id)
    ensures id in Deleted(m, log, u) <==> id in m && !Gone(log, u, id)
    ensures id in Deleted(m, log, u) ==> Deleted(m, log, u)[id] == m[id]
  {
    if log != [] {
      DeletedExactlyWhen(m, log[..|log| - 1], u, id);
      GoneGrows(log, u, id);
    }
  }

  /** The last update of the row that reached the store. */
  function LastUpdate(log: seq<Route>, valid: Content -> bool, u: Undo, id: Id): Option<Route> {
    if log == [] then None
    else
      var n := |log| - 1;
      if log[n].id == id && u.updates(n) && valid(log[n].content) && id != "" then Some(log[n])
      else LastUpdate(log[..n], valid, u, id)
  }

  /** A row ends as the last of its updates that reached the store, whichever others failed. */
  lemma {:induction false} UpdatedRow(m: Routes, log: seq<Route>, valid: Content -> bool, u: Undo, id: Id)
    requires id in m
    ensures id in Updated(m, log, valid, u)
    ensures Updated(m, log, valid, u)[id] == match LastUpdate(log, valid, u, id) case None => m[id] case Some(r) => r
  {
    if log != [] {
      UpdatedRow(m, log[..|log| - 1], valid, u, id);
    }
  }

  /** What any rollback leaves, failed undo writes included. */
  lemma RolledBackRow(m: Routes, fs: seq<Fate>, valid: Content -> bool, u: Undo, id: Id)
    requires Legal(m, fs)
    ensures var back := RolledBack(m, fs, valid, u);
            && (id in back <==> id in Apply(m, fs) && !Gone(CreatedLog(fs), u, id))
            && (id in back ==> back[id] == match LastUpdate(ReplacedLog(m, fs), valid, u, id)
                                           case None => Apply(m, fs)[id] case Some(r) => r)
  {
    var deleted := Deleted(Apply(m, fs), CreatedLog(fs), u);
    DeletedExactlyWhen(Apply(m, fs), CreatedLog(fs), u, id);
    UpdatedKeys(deleted, ReplacedLog(m, fs), valid, u);
    if id in deleted {
      UpdatedRow(deleted, ReplacedLog(m, fs), valid, u, id);
    }
  }

  /** The last logged row with this id. */
  function LastRow(log: seq<Route>, id: Id): Option<Route> {
    if log == [] then None
    else if log[|log| - 1].id == id then Some(log[|log| - 1])
    else LastRow(log[..|log| - 1], id)
  }

  lemma {:induction false} UpdatedKeys(m: Routes, log: seq<Route>, valid: Content -> bool, u: Undo)
    ensures Updated(m, log, valid, u).Keys == m.Keys
  {
    if log != [] {
      UpdatedKeys(m, log[..|log| - 1], valid, u);
    }
  }

  /** Updates replayed forward leave the last logged row of each id. */
  lemma {:induction false} UpdatedAt(m: Routes, log: seq<Route>, valid: Content -> bool, u: Undo, id: Id)
    requires id in m && id != ""
    requires forall i :: 0 <= i < |log| ==> u.updates(i) && valid(log[i].content)
    ensures id in Updated(m, log, valid, u)
    ensures Updated(m, log, valid, u)[id] == match LastRow(log, id) case None => m[id] case Some(r) => r
  {
    if log != [] {
      UpdatedAt(m, log[..|log| - 1], valid, u, id);
      UpdatedKeys(m, log[..|log| - 1], valid, u);
    }
  }

  /** Updates touch no row outside the log. */
  lemma {:induction false} UpdatedFrame(m: Routes, log: seq<Route>, valid: Content -> bool, u: Undo, id: Id)
    requires id in m && LastRow(log, id).None?
    ensures id in Updated(m, log, valid, u) && Updated(m, log, valid, u)[id] == m[id]
  {
    if log != [] {
      UpdatedFrame(m, log[..|log| - 1], valid, u, id);
    }
  }

  lemma {:induction false} ApplyKeyed(m: Routes, fs: seq<Fate>)
    requires Legal(m, fs) && Keyed(m)
    ensures forall id :: id in Apply(m, fs) ==> Apply(m, fs)[id].id == id
  {
    if fs != [] {
      ApplyKeyed(m, fs[..|fs| - 1]);
    }
  }

  /** The last row logged for `id` is the row as it stood before its last replacement. */
  lemma {:induction false} LastLogged(m: Routes, fs: seq<Fate>, id: Id)
    requires Legal(m, fs) && Keyed(m) && id in m
    ensures LastRow(ReplacedLog(m, fs), id) == if LastHit(fs, id).None? then None else Some(PutBack(m, fs, id))
  {
    if fs != [] {
      var init, last := fs[..|fs| - 1], fs[|fs| - 1];
      LastLogged(m, init, id);
      if last.Replace? {
        ApplyKeyed(m, init);
        var log := ReplacedLog(m, init);
        var row := Apply(m, init)[last.route.id];
        assert (log + [row])[..|log|] == log;
        if last.route.id == id {
          ApplyAt(m, init, id);
        }
      }
      if LastHit(init, id).Some? && !(last.Replace? && last.route.id == id) {
        assert fs[..LastHit(init, id).value] == init[..LastHit(init, id).value];
      }
    }
  }

  /** What the rollback leaves in each row that existed before, when every undo write succeeds. */
  lemma RolledBackAt(m: Routes, fs: seq<Fate>, valid: Content -> bool, u: Undo, id: Id)
    requires Legal(m, fs) && Keyed(m) && UndoSucceeds(m, fs, valid, u) && id in m
    ensures id in RolledBack(m, fs, valid, u)
    ensures RolledBack(m, fs, valid, u)[id] == PutBack(m, fs, id)
  {
    CreatedAreNew(m, fs);
    DeletedFrame(Apply(m, fs), CreatedLog(fs), u, id);
    UpdatedAt(Deleted(Apply(m, fs), CreatedLog(fs), u), ReplacedLog(m, fs), valid, u, id);
    LastLogged(m, fs, id);
    ApplyAt(m, fs, id);
  }

  lemma RolledBackKeys(m: Routes, fs: seq<Fate>, valid: Content -> bool, u: Undo)
    requires Legal(m, fs) && UndoSucceeds(m, fs, valid, u)
    ensures RolledBack(m, fs, valid, u).Keys == m.Keys
  {
    ApplyKeys(m, fs);
    CreatedAreNew(m, fs);
    DeletedGone(Apply(m, fs), CreatedLog(fs), u);
    UpdatedKeys(Deleted(Apply(m, fs), CreatedLog(fs), u), ReplacedLog(m, fs), valid, u);
  }

  /** The rollback is an exact inverse exactly when no row was replaced twice with a different row in between. */
  lemma RollbackExactlyWhen(m: Routes, fs: seq<Fate>, valid: Content -> bool, u: Undo)
    requires Legal(m, fs) && Keyed(m) && UndoSucceeds(m, fs, valid, u)
    ensures RolledBack(m, fs, valid, u) == m <==> UndoExact(m, fs)
  {
    var back := RolledBack(m, fs, valid, u);
    RolledBackKeys(m, fs, valid, u);
    forall id | id in m ensures back[id] == PutBack(m, fs, id) {
      RolledBackAt(m, fs, valid, u, id);
    }
    if UndoExact(m, fs) {
      assert forall id :: id in m ==> back[id] == m[id];
    }
    if back == m {
      forall id | id in m && LastButOneHit(fs, id).Some?
        ensures fs[LastButOneHit(fs, id).value].route == m[id] {
        assert back[id] == PutBack(m, fs, id);
      }
    }
  }

  /** Distinct targets are enough. */
  lemma DistinctTargetsRestore(m: Routes, fs: seq<Fate>, valid: Content -> bool, u: Undo)
    requires Legal(m, fs) && Keyed(m) && UndoSucceeds(m, fs, valid, u) && DistinctTargets(fs)
    ensures RolledBack(m, fs, valid, u) == m
  {
    RollbackExactlyWhen(m, fs, valid, u);
  }

  lemma {:induction false} LoggedOnlyIfHit(m: Routes, fs: seq<Fate>, id: Id)
    requires Legal(m, fs) && Keyed(m) && LastHit(fs, id).None?
    ensures LastRow(ReplacedLog(m, fs), id).None?
  {
    if fs != [] {
      var init, last := fs[..|fs| - 1], fs[|fs| - 1];
      LoggedOnlyIfHit(m, init, id);
      if last.Replace? {
        ApplyKeyed(m, init);
        var log := ReplacedLog(m, init);
        var row := Apply(m, init)[last.route.id];
        assert (log + [row])[..|log|] == log;
      }
    }
  }

  /** A row no request replaced keeps its value through import and rollback, whichever undo writes fail. */
  lemma RollbackFrame(m: Routes, fs: seq<Fate>, valid: Content -> bool, u: Undo, id: Id)
    requires Legal(m, fs) && Keyed(m) && id in m && LastHit(fs, id).None?
    ensures id in Apply(m, fs) && Apply(m, fs)[id] == m[id]
    ensures id in RolledBack(m, fs, valid, u) && RolledBack(m, fs, valid, u)[id] == m[id]
  {
    ApplyAt(m, fs, id);
    CreatedAreNew(m, fs);
    DeletedFrame(Apply(m, fs), CreatedLog(fs), u, id);
    LoggedOnlyIfHit(m, fs, id);
    UpdatedFrame(Deleted(Apply(m, fs), CreatedLog(fs), u), ReplacedLog(m, fs), valid, u, id);
  }

  // ---------------------------------------------------------------------
  // Hosts stay unique across routes, or not
  // ---------------------------------------------------------------------

  /** The two routes share a host or alias, ignoring case. */
  predicate Overlap(r: Route, q: Route) {
    exists i, j :: 0 <= i < |AllHosts(r.content)| && 0 <= j < |AllHosts(q.content)|
                   && Lower(AllHosts(r.content)[i]) == Lower(AllHosts(q.content)[j])
  }

  /** No host is served by two routes. */
  ghost predicate HostsUnique(m: Routes) {
    forall id, id' :: id in m && id' in m && id != id' ==> !Overlap(m[id], m[id'])
  }

  /** The last request that wrote row `id`. */
  function LastWrite(fs: seq<Fate>, id: Id): (k: Option<nat>)
    ensures k.Some? ==> k.value < |fs| && !fs[k.value].Skip? && fs[k.value].route.id == id
  {
    if fs == [] then None
    else if !fs[|fs| - 1].Skip? && fs[|fs| - 1].route.id == id then Some(|fs| - 1)
    else LastWrite(fs[..|fs| - 1], id)
  }

  lemma {:induction false} ApplyRow(m: Routes, fs: seq<Fate>, id: Id)
    ensures id in Apply(m, fs) <==> id in m || LastWrite(fs, id).Some?
    ensures id in Apply(m, fs) ==>
              Apply(m, fs)[id] == if LastWrite(fs, id).Some? then fs[LastWrite(fs, id).value].route else m[id]
  {
    if fs != [] {
      ApplyRow(m, fs[..|fs| - 1], id);
    }
  }

  /** Request `i` wrote the row that its id keeps. */
  ghost predicate Final(fs: seq<Fate>, i: nat) {
    i < |fs| && !fs[i].Skip? && LastWrite(fs, fs[i].route.id) == Some(i)
  }

  /** The kept imported rows share no host with each other, nor with a row that was left alone. */
  ghost predicate NoClash(m: Routes, fs: seq<Fate>) {
    && (forall i: nat, j: nat :: Final(fs, i) && Final(fs, j) && i != j ==> !Overlap(fs[i].route, fs[j].route))
    && (forall i: nat, id :: Final(fs, i) && id in m && LastWrite(fs, id).None? ==>
          !Overlap(fs[i].route, m[id]) && !Overlap(m[id], fs[i].route))
  }

  lemma NoClashSuffices(m: Routes, fs: seq<Fate>, id: Id, id': Id)
    requires HostsUnique(m) && NoClash(m, fs) && id in Apply(m, fs) && id' in Apply(m, fs) && id != id'
    ensures !Overlap(Apply(m, fs)[id], Apply(m, fs)[id'])
  {
    ApplyRow(m, fs, id);
    ApplyRow(m, fs, id');
    var k, k' := LastWrite(fs, id), LastWrite(fs, id');
    assert k.Some? ==> Final(fs, k.value);
    assert k'.Some? ==> Final(fs, k'.value);
  }

  lemma NoClashNeeded(m: Routes, fs: seq<Fate>)
    requires HostsUnique(Apply(m, fs))
    ensures NoClash(m, fs)
  {
    forall i: nat, j: nat | Final(fs, i) && Final(fs, j) && i != j ensures !Overlap(fs[i].route, fs[j].route) {
      ApplyRow(m, fs, fs[i].route.id);
      ApplyRow(m, fs, fs[j].route.id);
    }
    forall i: nat, id | Final(fs, i) && id in m && LastWrite(fs, id).None?
      ensures !Overlap(fs[i].route, m[id]) && !Overlap(m[id], fs[i].route) {
      ApplyRow(m, fs, fs[i].route.id);
      ApplyRow(m, fs, id);
    }
  }

  /** Starting from unique hosts, an import keeps them unique exactly when its rows do not clash. */
  lemma HostsUniqueExactlyWhen(m: Routes, fs: seq<Fate>)
    requires HostsUnique(m)
    ensures HostsUnique(Apply(m, fs)) <==> NoClash(m, fs)
  {
    if HostsUnique(Apply(m, fs)) {
      NoClashNeeded(m, fs);
    } else if NoClash(m, fs) {
      forall id, id' | id in Apply(m, fs) && id' in Apply(m, fs) && id != id'
        ensures !Overlap(Apply(m, fs)[id], Apply(m, fs)[id']) {
        NoClashSuffices(m, fs, id, id');
      }
    }
  }

  /** Some alias of `r` is served by `q`. */
  predicate AliasServed(r: Route, q: Route) {
    exists a :: 0 <= a < |r.content.aliases| && Serves(q, Lower(r.content.aliases[a]))
  }

  lemma OverlapParts(r: Route, q: Route)
    ensures Overlap(r, q) <==> Serves(q, Lower(r.content.host)) || AliasServed(r, q)
    ensures Overlap(r, q) <==> Overlap(q, r)
  {
    var hs := AllHosts(r.content);
    assert hs[0] == r.content.host && forall a :: 0 <= a < |r.content.aliases| ==> hs[a + 1] == r.content.aliases[a];
    if Overlap(r, q) {
      var i, j :| 0 <= i < |hs| && 0 <= j < |AllHosts(q.content)| && Lower(hs[i]) == Lower(AllHosts(q.content)[j]);
      assert Serves(q, Lower(hs[i]));
      assert i > 0 ==> hs[i] == r.content.aliases[i - 1];
    }
    if Serves(q, Lower(r.content.host)) {
      var j :| 0 <= j < |AllHosts(q.content)| && Lower(AllHosts(q.content)[j]) == Lower(hs[0]);
      assert Overlap(r, q);
    }
    if AliasServed(r, q) {
      var a :| 0 <= a < |r.content.aliases| && Serves(q, Lower(r.content.aliases[a]));
      var j :| 0 <= j < |AllHosts(q.content)| && Lower(AllHosts(q.content)[j]) == Lower(hs[a + 1]);
      assert Overlap(r, q);
    }
  }

  lemma BothServeOverlap(r: Route, q: Route, host: Text)
    ensures Serves(r, host) && Serves(q, host) ==> Overlap(r, q)
  {
    if Serves(r, host) && Serves(q, host) {
      var i :| 0 <= i < |AllHosts(r.content)| && Lower(AllHosts(r.content)[i]) == host;
      var j :| 0 <= j < |AllHosts(q.content)| && Lower(AllHosts(q.content)[j]) == host;
    }
  }

  /** The lookup rules out a clash through the imported host itself with any row the import leaves alone. */
  lemma LookedUpHostFree(m: Routes, x: Input, i: nat, id: Id)
    requires Keyed(m) && Listing(m, x.listed) && HostsUnique(m) && i < |x.hosts|
    requires !FateOf(x, i).Skip? && id in m && (FateOf(x, i).Replace? ==> FateOf(x, i).route.id != id)
    ensures !Serves(m[id], Lower(FateOf(x, i).route.content.host))
  {
    FateJustified(x, i);
    var f := FateOf(x, i);
    var host := Lower(f.route.content.host);
    assert m[id] in x.listed;
    if f.Replace? {
      var k: nat :| LastServing(x.listed, host, k) && x.listed[k].id == f.route.id;
      BothServeOverlap(m[f.route.id], m[id], host);
    }
  }

  /** Two kept imported rows share a host. */
  ghost predicate ImportsClash(fs: seq<Fate>) {
    exists i: nat, j: nat :: Final(fs, i) && Final(fs, j) && i != j && Overlap(fs[i].route, fs[j].route)
  }

  /** A kept imported row brings an alias that a row left alone serves. */
  ghost predicate AliasClash(m: Routes, fs: seq<Fate>) {
    exists i: nat, id :: Final(fs, i) && id in m && LastWrite(fs, id).None? && AliasServed(fs[i].route, m[id])
  }

  lemma LeftAloneClash(m: Routes, x: Input, i: nat, id: Id)
    requires Keyed(m) && Listing(m, x.listed) && HostsUnique(m)
    requires var fs := Fates(x, |x.hosts|); Final(fs, i) && id in m && LastWrite(fs, id).None?
    ensures var fs := Fates(x, |x.hosts|);
            && (Overlap(fs[i].route, m[id]) <==> AliasServed(fs[i].route, m[id]))
            && (Overlap(m[id], fs[i].route) <==> AliasServed(fs[i].route, m[id]))
  {
    var fs := Fates(x, |x.hosts|);
    LookedUpHostFree(m, x, i, id);
    OverlapParts(fs[i].route, m[id]);
  }

  /**
   From unique hosts an import keeps them unique exactly when no two of its kept rows share a host and none
   brings an alias that a row left alone serves: the lookup excludes every other clash.
   */
  lemma ImportKeepsUniqueExactlyWhen(m: Routes, x: Input)
    requires Keyed(m) && Listing(m, x.listed) && FreshIds(m, x) && HostsUnique(m)
    ensures var fs := Fates(x, |x.hosts|);
            HostsUnique(Apply(m, fs)) <==> !ImportsClash(fs) && !AliasClash(m, fs)
  {
    var fs := Fates(x, |x.hosts|);
    HostsUniqueExactlyWhen(m, fs);
    forall i: nat, id | Final(fs, i) && id in m && LastWrite(fs, id).None?
      ensures Overlap(fs[i].route, m[id]) <==> AliasServed(fs[i].route, m[id])
      ensures Overlap(m[id], fs[i].route) <==> AliasServed(fs[i].route, m[id]) {
      LeftAloneClash(m, x, i, id);
    }
  }

  lemma SameHostOverlaps(r: Route, q: Route)
    requires r.content.host == q.content.host
    ensures Overlap(r, q)
  {
    assert AllHosts(r.content)[0] == r.content.host && AllHosts(q.content)[0] == q.content.host;
  }

  /** A new host requested twice is created twice: the table of existing hosts is built once, before the loop. */
  lemma SameHostCreatedTwice(m: Routes, x: Input, p: ParsedRoute)
    requires |x.hosts| == 2 && x.hosts[0] == x.hosts[1] && FreshIds(m, x)
    requires CandidateFor(x.candidates, x.hosts[0]) == Some(Candidate(x.hosts[0], Some(p), true, ""))
    requires ServedBy(x.listed, Lower(p.host)).None? && x.valid(FromCandidate(p))
    requires x.replies(0).writes && x.replies(1).writes
    ensures !HostsUnique(Apply(m, Fates(x, 2)))
  {
    var fs := Fates(x, 2);
    var id, id' := x.replies(0).newId, x.replies(1).newId;
    assert fs == [Create(Route(id, FromCandidate(p))), Create(Route(id', FromCandidate(p)))];
    TwoCreated(m, Route(id, FromCandidate(p)), Route(id', FromCandidate(p)));
  }

  /** Only the imported host is looked up, not its aliases: one that a listed route serves is created all the same. */
  lemma ServedAliasCreated(m: Routes, x: Input, p: ParsedRoute, k: nat)
    requires |x.hosts| == 1 && Listing(m, x.listed) && FreshIds(m, x)
    requires CandidateFor(x.candidates, x.hosts[0]) == Some(Candidate(x.hosts[0], Some(p), true, ""))
    requires ServedBy(x.listed, Lower(p.host)).None? && x.valid(FromCandidate(p)) && x.replies(0).writes
    requires k < |x.listed| && p.aliases != [] && Serves(x.listed[k], Lower(p.aliases[0]))
    ensures !HostsUnique(Apply(m, Fates(x, 1)))
  {
    var fs := Fates(x, 1);
    var r, q := Route(x.replies(0).newId, FromCandidate(p)), x.listed[k];
    assert fs == [Create(r)] && fs[..0] == [];
    ApplyRow(m, fs, r.id);
    ApplyRow(m, fs, q.id);
    assert AllHosts(r.content)[1] == p.aliases[0];
    assert Overlap(r, q);
  }

  lemma TwoCreated(m: Routes, r: Route, q: Route)
    requires r.id != q.id && r.content.host == q.content.host
    ensures !HostsUnique(Apply(m, [Create(r), Create(q)]))
  {
    var fs := [Create(r), Create(q)];
    assert fs[..1] == [Create(r)] && [Create(r)][..0] == [];
    assert LastWrite(fs[..1], r.id) == Some(0);
    ApplyRow(m, fs, r.id);
    ApplyRow(m, fs, q.id);
    SameHostOverlaps(r, q);
  }

  lemma TwoReplacements(m: Routes, first: Route, second: Route)
    requires first.id == second.id && first.id in m && Keyed(m)
    ensures var fs := [Replace(first), Replace(second)];
            Legal(m, fs) && CreatedLog(fs) == [] && ReplacedLog(m, fs) == [m[first.id], first]
            && LastButOneHit(fs, first.id) == Some(0)
  {
    var fs := [Replace(first), Replace(second)];
    assert fs[..1] == [Replace(first)];
    assert [Replace(first)][..0] == [];
    assert CreatedLog(fs[..1]) == [];
    assert Apply(m, fs[..1]) == m[first.id := first];
    assert ReplacedLog(m, fs[..1]) == [m[first.id]];
  }

  /** A row hit twice, say through its host and an alias: the rollback leaves the first imported row. */
  lemma TwoHitsNotUndone(m: Routes, first: Route, second: Route, valid: Content -> bool, u: Undo)
    requires first.id == second.id && first.id in m && Keyed(m) && first != m[first.id]
    requires valid(first.content) && valid(m[first.id].content) && u.updates(0) && u.updates(1)
    ensures var fs := [Replace(first), Replace(second)];
            Legal(m, fs) && UndoSucceeds(m, fs, valid, u)
            && RolledBack(m, fs, valid, u) == m[first.id := first] != m
  {
    var fs := [Replace(first), Replace(second)];
    TwoReplacements(m, first, second);
    var back := RolledBack(m, fs, valid, u);
    RolledBackKeys(m, fs, valid, u);
    forall id | id in m ensures back[id] == m[first.id := first][id] {
      RolledBackAt(m, fs, valid, u, id);
      if id != first.id {
        assert LastHit(fs, id).None?;
      }
    }
  }

  /** Two requested hosts served by one listed route, both marked for replacement, hit the same row. */
  lemma SharedRouteHitTwice(x: Input, p: ParsedRoute, q: ParsedRoute, id: Id)
    requires |x.hosts| == 2 && x.hosts[0] in x.replace && x.hosts[1] in x.replace
    requires CandidateFor(x.candidates, x.hosts[0]) == Some(Candidate(x.hosts[0], Some(p), true, ""))
    requires CandidateFor(x.candidates, x.hosts[1]) == Some(Candidate(x.hosts[1], Some(q), true, ""))
    requires ServedBy(x.listed, Lower(p.host)) == ServedBy(x.listed, Lower(q.host)) == Some(id)
    requires x.valid(FromCandidate(p)) && x.valid(FromCandidate(q))
    requires x.replies(0).loads && x.replies(0).writes && x.replies(1).loads && x.replies(1).writes
    ensures Fates(x, 2) == [Replace(Route(id, FromCandidate(p))), Replace(Route(id, FromCandidate(q)))]
  {
  }

  // ---------------------------------------------------------------------
  // The response
  // ---------------------------------------------------------------------

  datatype Summary = Summary(created: seq<Text>, replaced: seq<Text>, skipped: seq<(Text, Reason)>)

  /** The response lists for the first requests. */
  function Summarise(hosts: seq<Text>, fs: seq<Fate>): Summary
    requires |hosts| == |fs|
  {
    if fs == [] then Summary([], [], [])
    else
      var n := |fs| - 1;
      var s := Summarise(hosts[..n], fs[..n]);
      match fs[n]
      case Create(r) => s.(created := s.created + [r.content.host])
      case Replace(r) => s.(replaced := s.replaced + [r.content.host])
      case Skip(why) => s.(skipped := s.skipped + [(hosts[n], why)])
  }

  /** The request for `hosts[i]` is reported in the list of its fate, after the earlier ones and before the later ones. */
  ghost predicate Landed(hosts: seq<Text>, fs: seq<Fate>, i: nat)
    requires |hosts| == |fs| && i < |fs|
  {
    var before, all := Summarise(hosts[..i], fs[..i]), Summarise(hosts, fs);
    match fs[i]
    case Create(r) => |before.created| < |all.created| && all.created[|before.created|] == r.content.host
    case Replace(r) => |before.replaced| < |all.replaced| && all.replaced[|before.replaced|] == r.content.host
    case Skip(why) => |before.skipped| < |all.skipped| && all.skipped[|before.skipped|] == (hosts[i], why)
  }

  lemma Prefixes(hosts: seq<Text>, fs: seq<Fate>, i: nat)
    requires |hosts| == |fs| && i < |fs|
    ensures hosts[..|fs| - 1][..i] == hosts[..i] && fs[..|fs| - 1][..i] == fs[..i]
  {
  }

  /** Every requested host is reported exactly once. */
  lemma {:induction false} EachHostReportedOnce(hosts: seq<Text>, fs: seq<Fate>)
    requires |hosts| == |fs|
    ensures var s := Summarise(hosts, fs); |s.created| + |s.replaced| + |s.skipped| == |hosts|
    ensures forall i :: 0 <= i < |fs| ==> Landed(hosts, fs, i)
  {
    if fs != [] {
      var n := |fs| - 1;
      EachHostReportedOnce(hosts[..n], fs[..n]);
      forall i | 0 <= i < |fs| ensures Landed(hosts, fs, i) {
        if i < n {
          Prefixes(hosts, fs, i);
          assert Landed(hosts[..n], fs[..n], i);
        }
      }
    }
  }

  // ---------------------------------------------------------------------
  // The handler
  // ---------------------------------------------------------------------

  /** What the route listing returns: the stored rows, each once. */
  ghost predicate Listing(m: Routes, listed: seq<Route>) {
    && (forall i :: 0 <= i < |listed| ==> listed[i].id in m && m[listed[i].id] == listed[i])
    && (forall id :: id in m ==> m[id] in listed)
    && (forall i, j :: 0 <= i < j < |listed| ==> listed[i].id != listed[j].id)
  }

  /** Generated ids are new and distinct. */
  ghost predicate FreshIds(m: Routes, x: Input) {
    && (forall i: nat :: i < |x.hosts| ==> x.replies(i).newId !in m && x.replies(i).newId != "")
    && (forall i: nat, j: nat :: i < j < |x.hosts| ==> x.replies(i).newId != x.replies(j).newId)
  }

  lemma FateLegal(m: Routes, x: Input, i: nat)
    requires Listing(m, x.listed) && i < |x.hosts|
    ensures FateOf(x, i).Replace? ==> FateOf(x, i).route.id in m
    ensures FateOf(x, i).Create? ==> FateOf(x, i).route.id == x.replies(i).newId
  {
    var c := CandidateFor(x.candidates, x.hosts[i]);
    if c.Some? && c.value.route.Some? {
      ServedByIsLast(x.listed, Lower(c.value.route.value.host));
    }
  }

  lemma FatesLegal(m: Routes, x: Input, n: nat)
    requires Listing(m, x.listed) && FreshIds(m, x) && n <= |x.hosts|
    ensures Legal(m, Fates(x, n))
  {
    var fs := Fates(x, n);
    forall i | 0 <= i < n
      ensures fs[i].Replace? ==> fs[i].route.id in m
      ensures fs[i].Create? ==> fs[i].route.id == x.replies(i).newId {
      FateLegal(m, x, i);
    }
  }

  datatype Response = BadRequest | ListFailed | Done(summary: Summary) | NothingKept

  /** Some row was written. */
  predicate Wrote(fs: seq<Fate>) {
    exists i :: 0 <= i < |fs| && !fs[i].Skip?
  }

  lemma {:induction false} WroteExactlyWhenLogged(m: Routes, fs: seq<Fate>)
    requires Legal(m, fs)
    ensures Wrote(fs) <==> |CreatedLog(fs)| + |ReplacedLog(m, fs)| > 0
    ensures !Wrote(fs) ==> Apply(m, fs) == m
  {
    if fs != [] {
      WroteExactlyWhenLogged(m, fs[..|fs| - 1]);
      if Wrote(fs[..|fs| - 1]) {
        var i :| 0 <= i < |fs| - 1 && !fs[..|fs| - 1][i].Skip?;
        assert !fs[i].Skip?;
      }
    }
  }

  /** `table` answers for the listed routes. */
  ghost predicate Tabulates(table: map<Text, Id>, listed: seq<Route>) {
    && (forall host :: host in table <==> ServedBy(listed, host).Some?)
    && (forall host :: host in table ==> ServedBy(listed, host) == Some(table[host]))
  }

  /** `out` is `table` with every host of `r` pointing to `r`. */
  ghost predicate Entered(table: map<Text, Id>, r: Route, out: map<Text, Id>) {
    && (forall host :: host in out <==> host in table || Serves(r, host))
    && (forall host :: host in out ==> if Serves(r, host) then out[host] == r.id
                                       else host in table && out[host] == table[host])
  }

  method EnterHosts(table: map<Text, Id>, r: Route) returns (out: map<Text, Id>)
    ensures Entered(table, r, out)
  {
    out := table;
    var hosts := AllHosts(r.content);
    ghost var entered: set<Text> := {};
    for i := 0 to |hosts|
      invariant forall host :: host in entered <==> exists k :: 0 <= k < i && Lower(hosts[k]) == host
      invariant forall host :: host in out <==> host in table || host in entered
      invariant forall host :: host in out ==> if host in entered then out[host] == r.id
                                               else host in table && out[host] == table[host]
    {
      out := out[Lower(hosts[i]) := r.id];
      entered := entered + {Lower(hosts[i])};
    }
    assert forall host :: host in entered <==> Serves(r, host);
  }

  lemma TabulatesOneMore(table: map<Text, Id>, listed: seq<Route>, r: Route, out: map<Text, Id>)
    requires Tabulates(table, listed)
    requires Entered(table, r, out)
    ensures Tabulates(out, listed + [r])
  {
    var all := listed + [r];
    assert all[..|listed|] == listed;
    forall host ensures ServedBy(all, host) == if Serves(r, host) then Some(r.id) else ServedBy(listed, host) {
    }
  }

  method ExistingHosts(listed: seq<Route>) returns (out: map<Text, Id>)
    ensures Tabulates(out, listed)
  {
    out := map[];
    for n := 0 to |listed|
      invariant Tabulates(out, listed[..n])
    {
      var grown := EnterHosts(out, listed[n]);
      TabulatesOneMore(out, listed[..n], listed[n], grown);
      assert listed[..n + 1] == listed[..n] + [listed[n]];
      out := grown;
    }
    assert listed[..|listed|] == listed;
  }

  method FindCandidate(cs: seq<Candidate>, host: Text) returns (c: Option<Candidate>)
    ensures c == CandidateFor(cs, host)
  {
    for i := 0 to |cs|
      invariant CandidateFor(cs, host) == CandidateFor(cs[i..], host)
    {
      if Lower(cs[i].host) == Lower(host) {
        return Some(cs[i]);
      }
    }
    return None;
  }

  lemma TableNamesRows(m: Routes, listed: seq<Route>, table: map<Text, Id>)
    requires Keyed(m) && Listing(m, listed) && Tabulates(table, listed)
    ensures forall host :: host in table ==> table[host] in m && table[host] != ""
  {
    forall host | host in table ensures table[host] in m && table[host] != "" {
      ServedByIsLast(listed, host);
    }
  }

  /** The loop's state after the requests `hosts`, whose fates are `fs`. */
  ghost predicate Reached(m: Routes, hosts: seq<Text>, fs: seq<Fate>,
                          routes: Routes, s: Summary, created: seq<Route>, replaced: seq<Route>) {
    && |hosts| == |fs| && Legal(m, fs)
    && routes == Apply(m, fs) && s == Summarise(hosts, fs)
    && created == CreatedLog(fs) && replaced == ReplacedLog(m, fs)
  }

  /** The same after the first `n` requests of the input. */
  ghost predicate ReachedAt(m: Routes, x: Input, n: nat,
                            routes: Routes, s: Summary, created: seq<Route>, replaced: seq<Route>)
  {
    n <= |x.hosts| && Reached(m, x.hosts[..n], Fates(x, n), routes, s, created, replaced)
  }

  ghost predicate Ready(m: Routes, x: Input, existing: map<Text, Id>) {
    Keyed(m) && Listing(m, x.listed) && FreshIds(m, x) && Tabulates(existing, x.listed)
  }

  lemma ReachedNothing(m: Routes, x: Input)
    ensures ReachedAt(m, x, 0, m, Summary([], [], []), [], [])
  {
  }

  lemma ReachedSkip(m: Routes, hosts: seq<Text>, fs: seq<Fate>, routes: Routes, s: Summary,
                    created: seq<Route>, replaced: seq<Route>, want: Text, why: Reason)
    requires Reached(m, hosts, fs, routes, s, created, replaced)
    ensures Reached(m, hosts + [want], fs + [Skip(why)], routes, s.(skipped := s.skipped + [(want, why)]),
                    created, replaced)
  {
    assert (fs + [Skip(why)])[..|fs|] == fs && (hosts + [want])[..|hosts|] == hosts;
  }

  lemma ReachedCreate(m: Routes, hosts: seq<Text>, fs: seq<Fate>, routes: Routes, s: Summary,
                      created: seq<Route>, replaced: seq<Route>, want: Text, r: Route)
    requires Reached(m, hosts, fs, routes, s, created, replaced) && Legal(m, fs + [Create(r)])
    ensures Reached(m, hosts + [want], fs + [Create(r)], routes[r.id := r],
                    s.(created := s.created + [r.content.host]), created + [r], replaced)
  {
    assert (fs + [Create(r)])[..|fs|] == fs && (hosts + [want])[..|hosts|] == hosts;
  }

  lemma ReachedReplace(m: Routes, hosts: seq<Text>, fs: seq<Fate>, routes: Routes, s: Summary,
                       created: seq<Route>, replaced: seq<Route>, want: Text, r: Route)
    requires Reached(m, hosts, fs, routes, s, created, replaced) && Legal(m, fs + [Replace(r)]) && r.id in routes
    ensures Reached(m, hosts + [want], fs + [Replace(r)], routes[r.id := r],
                    s.(replaced := s.replaced + [r.content.host]), created, replaced + [routes[r.id]])
  {
    assert (fs + [Replace(r)])[..|fs|] == fs && (hosts + [want])[..|hosts|] == hosts;
  }

  class Handler {
    var routes: Routes
    /** The rows Caddy's running configuration was generated from. */
    var running: Routes

    /** Replays the undo logs: deletions first, then the replaced rows in the order they were saved. */
    method Rollback(created: seq<Route>, replaced: seq<Route>, valid: Content -> bool, u: Undo)
      modifies this`routes
      ensures routes == Updated(Deleted(old(routes), created, u), replaced, valid, u)
    {
      for i := 0 to |created|
        invariant routes == Deleted(old(routes), created[..i], u)
      {
        assert created[..i + 1][..i] == created[..i];
        routes := Delete(routes, created[i].id, u.deletes(i));
      }
      assert created[..|created|] == created;
      for i := 0 to |replaced|
        invariant routes == Updated(Deleted(old(routes), created, u), replaced[..i], valid, u)
      {
        assert replaced[..i + 1][..i] == replaced[..i];
        routes := Update(routes, replaced[i], valid, u.updates(i));
      }
      assert replaced[..|replaced|] == replaced;
    }

    /** Decides one requested host and writes its row; a replaced row is handed back as it was. */
    method WriteOne(x: Input, existing: map<Text, Id>, i: nat) returns (fate: Fate, previous: Option<Route>)
      requires i < |x.hosts| && Tabulates(existing, x.listed)
      requires forall id :: id in routes ==> routes[id].id == id
      requires forall host :: host in existing ==> existing[host] in routes && existing[host] != ""
      modifies this`routes
      ensures fate == FateOf(x, i)
      ensures routes == if fate.Skip? then old(routes) else old(routes)[fate.route.id := fate.route]
      ensures fate.Replace? ==> fate.route.id in old(routes) && previous == Some(old(routes)[fate.route.id])
    {
      var want, reply := x.hosts[i], x.replies(i);
      previous := None;
      var c := FindCandidate(x.candidates, want);
      if c.None? {
        return Skip(NotFound), None;
      }
      if !c.value.importable || c.value.route.None? {
        return Skip(Refused(RefusalText(c.value.reason))), None;
      }
      var content := FromCandidate(c.value.route.value);
      var host := Lower(content.host);
      var conflict := host in existing;
      if conflict && want !in x.replace {
        return Skip(AlreadyServed), None;
      }
      if !x.valid(content) {
        return Skip(Invalid), None;
      }
      if conflict {
        if !reply.loads {
          return Skip(LoadFailed), None;
        }
        var row := routes[existing[host]];
        if !reply.writes {
          return Skip(WriteFailed), None;
        }
        routes := Update(routes, Route(row.id, content), x.valid, true);
        return Replace(Route(row.id, content)), Some(row);
      }
      if !reply.writes {
        return Skip(WriteFailed), None;
      }
      var stored := Route(reply.newId, content);
      routes := routes[stored.id := stored];
      return Create(stored), None;
    }

    /** Handles the i-th requested host: the store, the undo logs and the response grow by its fate. */
    method WriteNext(ghost m: Routes, x: Input, existing: map<Text, Id>, i: nat,
                     s: Summary, created: seq<Route>, replaced: seq<Route>)
      returns (s': Summary, created': seq<Route>, replaced': seq<Route>)
      requires i < |x.hosts| && Ready(m, x, existing) && ReachedAt(m, x, i, routes, s, created, replaced)
      modifies this`routes
      ensures ReachedAt(m, x, i + 1, routes, s', created', replaced')
    {
      ApplyKeyed(m, Fates(x, i));
      FatesLegal(m, x, i + 1);
      TableNamesRows(m, x.listed, existing);
      assert x.hosts[..i + 1] == x.hosts[..i] + [x.hosts[i]];
      ghost var before, hosts, fs := routes, x.hosts[..i], Fates(x, i);
      var fate, previous := WriteOne(x, existing, i);
      s', created', replaced' := s, created, replaced;
      match fate
      case Skip(why) =>
        ReachedSkip(m, hosts, fs, routes, s, created, replaced, x.hosts[i], why);
        s' := s.(skipped := s.skipped + [(x.hosts[i], why)]);
      case Create(stored) =>
        ReachedCreate(m, hosts, fs, before, s, created, replaced, x.hosts[i], stored);
        created' := created + [stored];
        s' := s.(created := s.created + [stored.content.host]);
      case Replace(route) =>
        ReachedReplace(m, hosts, fs, before, s, created, replaced, x.hosts[i], route);
        replaced' := replaced + [previous.value];
        s' := s.(replaced := s.replaced + [route.content.host]);
    }

    /** Processes the requested hosts in order, writing the store and growing the undo logs. */
    method WriteAll(x: Input) returns (summary: Summary, created: seq<Route>, replaced: seq<Route>)
      requires Keyed(routes) && Listing(routes, x.listed) && FreshIds(routes, x)
      modifies this`routes
      ensures Reached(old(routes), x.hosts, Fates(x, |x.hosts|), routes, summary, created, replaced)
    {
      ghost var m := routes;
      var existing := ExistingHosts(x.listed);
      summary, created, replaced := Summary([], [], []), [], [];
      ReachedNothing(m, x);
      for i := 0 to |x.hosts|
        invariant ReachedAt(m, x, i, routes, summary, created, replaced)
      {
        summary, created, replaced := WriteNext(m, x, existing, i, summary, created, replaced);
      }
      assert x.hosts[..|x.hosts|] == x.hosts;
    }

    /** The reload, and when Caddy refuses the rollback and a second reload. */
    method ReloadOrUndo(ghost m: Routes, x: Input, summary: Summary, created: seq<Route>, replaced: seq<Route>,
                        u: Undo, reloads: bool, reloadsAgain: bool) returns (response: Response)
      requires Keyed(m) && Reached(m, x.hosts, Fates(x, |x.hosts|), routes, summary, created, replaced)
      modifies this
      ensures reloads ==> response == Done(summary) && routes == old(routes) && running == routes
      ensures !reloads ==>
                && response == NothingKept
                && routes == RolledBack(m, Fates(x, |x.hosts|), x.valid, u)
                && running == (if reloadsAgain then routes else old(running))
      ensures !reloads && UndoSucceeds(m, Fates(x, |x.hosts|), x.valid, u) ==>
                (routes == m <==> UndoExact(m, Fates(x, |x.hosts|)))
    {
      if reloads {
        running := routes;
        return Done(summary);
      }
      Rollback(created, replaced, x.valid, u);
      if UndoSucceeds(m, Fates(x, |x.hosts|), x.valid, u) {
        RollbackExactlyWhen(m, Fates(x, |x.hosts|), x.valid, u);
      }
      if reloadsAgain {
        running := routes;
      }
      return NothingKept;
    }

    /** `reloads` answers the reload after the writes, `reloadsAgain` the one after the rollback. */
    method Import(x: Input, listOk: bool, u: Undo, reloads: bool, reloadsAgain: bool) returns (response: Response)
      requires Keyed(routes) && Listing(routes, x.listed) && FreshIds(routes, x)
      modifies this
      ensures Legal(old(routes), Fates(x, |x.hosts|))
      ensures x.hosts == [] || !listOk || !Wrote(Fates(x, |x.hosts|)) ==>
                routes == old(routes) && running == old(running)
      ensures x.hosts == [] ==> response == BadRequest
      ensures x.hosts != [] && !listOk ==> response == ListFailed
      ensures x.hosts != [] && listOk ==>
                response == if Wrote(Fates(x, |x.hosts|)) && !reloads then NothingKept
                            else Done(Summarise(x.hosts, Fates(x, |x.hosts|)))
      ensures response.Done? && Wrote(Fates(x, |x.hosts|)) ==>
                routes == Apply(old(routes), Fates(x, |x.hosts|)) && running == routes
      ensures response.NothingKept? ==>
                && routes == RolledBack(old(routes), Fates(x, |x.hosts|), x.valid, u)
                && running == (if reloadsAgain then routes else old(running))
      ensures response.NothingKept? && UndoSucceeds(old(routes), Fates(x, |x.hosts|), x.valid, u) ==>
                (routes == old(routes) <==> UndoExact(old(routes), Fates(x, |x.hosts|)))
    {
      ghost var m := routes;
      FatesLegal(m, x, |x.hosts|);
      if x.hosts == [] {
        return BadRequest;
      }
      if !listOk {
        return ListFailed;
      }
      var summary, created, replaced := WriteAll(x);
      WroteExactlyWhenLogged(m, Fates(x, |x.hosts|));
      if |created| + |replaced| == 0 {
        return Done(summary);
      }
      response := ReloadOrUndo(m, x, summary, created, replaced, u, reloads, reloadsAgain);
    }
  }

  /** Starting in agreement, a refused import with distinct targets and a successful undo leaves both sides as they were. */
  lemma RefusedImportLeavesBoth(m: Routes, fs: seq<Fate>, valid: Content -> bool, u: Undo, reloadsAgain: bool)
    requires Legal(m, fs) && Keyed(m) && UndoSucceeds(m, fs, valid, u)
    ensures var store := RolledBack(m, fs, valid, u);
            var running := if reloadsAgain then store else m;
            (store == m && running == m) <==> UndoExact(m, fs)
  {
    RollbackExactlyWhen(m, fs, valid, u);
  }
}
