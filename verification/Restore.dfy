/**
 Restoring a backup (internal/api/backup_handlers.go): import into the store, one
 reload of Caddy, and on failure a rollback from a snapshot taken beforehand.  Three
 pieces of state move: the store, the LAPI settings held by the Caddy manager and
 the configuration Caddy runs.
 */
module Restore {
  import opened Options
  import opened Strings

  datatype Lapi = Lapi(url: Text, key: Text)

  /** An alert rule: what the operator wrote, and the edge bit the watcher owns. */
  datatype Rule = Rule(settings: Text, lastMatched: bool)

  /** `core` is replaced by every restore; the extras only by backups that carry them. */
  datatype Extras = Extras(sites: Text, rules: map<Text, Rule>, crowdsec: Option<Lapi>, rest: Text)
  datatype Store = Store(core: Text, extras: Extras)
  datatype Snapshot = Snapshot(core: Text, extras: Option<Extras>)

  /** What Caddy serves: the configuration generated from a store and the manager's LAPI settings. */
  datatype Config = Config(core: Text, sites: Text, lapi: Lapi)

  datatype World = World(store: Store, lapi: Lapi, running: Config)

  function Render(s: Store, lapi: Lapi): Config {
    Config(s.core, s.extras.sites, lapi)
  }

  function Trimmed(l: Lapi): Lapi {
    Lapi(Trim(l.url), Trim(l.key))
  }

  function ClearedRules(rules: map<Text, Rule>): (r: map<Text, Rule>)
    ensures r.Keys == rules.Keys
    ensures forall id :: id in rules ==> r[id] == Rule(rules[id].settings, false)
  {
    map id | id in rules :: Rule(rules[id].settings, false)
  }

  /** A backup never carries what the watcher recorded. */
  function Export(s: Store): Snapshot {
    Snapshot(s.core, Some(s.extras.(rules := ClearedRules(s.extras.rules))))
  }

  /** The atomic store transaction behind both the import and the rollback. */
  function Filled(s: Store, snap: Snapshot): Store {
    Store(snap.core, match snap.extras case None => s.extras case Some(x) => x)
  }

  /** Whether the restored CrowdSec row could be read back. */
  datatype ReadBack = Readable | Unreadable

  /** What the file, the store and Caddy answer during one restore. */
  datatype Answers = Answers(
    decodes: bool, opens: bool, exports: bool, marshals: bool,
    resolved: Option<Snapshot>, hasApplier: bool, readBack: ReadBack,
    reloads: bool, rollsBack: bool, reloadsAgain: bool)

  datatype Outcome = Rejected | Restored | RolledBack | RollbackFailed

  // ---------------------------------------------------------------------
  // The outcome, as a table
  // ---------------------------------------------------------------------

  predicate Imports(a: Answers) {
    a.decodes && a.opens && a.exports && a.marshals && a.resolved.Some?
  }

  /** The restored CrowdSec row, when the reload also swaps it into the manager. */
  function Swapped(s: Store, a: Answers): Option<Lapi> {
    if a.resolved.Some? && a.resolved.value.extras.Some? && a.hasApplier && a.readBack.Readable?
    then Filled(s, a.resolved.value).extras.crowdsec else None
  }

  predicate ReadFails(a: Answers) {
    a.resolved.Some? && a.resolved.value.extras.Some? && a.hasApplier && a.readBack.Unreadable?
  }

  function OutcomeOf(a: Answers): Outcome {
    if !Imports(a) then Rejected
    else if a.reloads && !ReadFails(a) then Restored
    else if a.rollsBack then RolledBack
    else RollbackFailed
  }

  function LapiAfter(w: World, a: Answers): Lapi {
    match Swapped(w.store, a)
    case None => w.lapi
    case Some(row) =>
      if OutcomeOf(a).RolledBack? && w.store.extras.crowdsec.Some?
      then Trimmed(w.store.extras.crowdsec.value) else Trimmed(row)
  }

  function After(w: World, a: Answers): World {
    match OutcomeOf(a)
    case Rejected => w
    case Restored =>
      var s := Filled(w.store, a.resolved.value);
      World(s, LapiAfter(w, a), Render(s, LapiAfter(w, a)))
    case RollbackFailed =>
      World(Filled(w.store, a.resolved.value), LapiAfter(w, a), w.running)
    case RolledBack =>
      var s := Filled(w.store, Export(w.store));
      var reapplied := Swapped(w.store, a).Some? && w.store.extras.crowdsec.Some? && a.reloadsAgain;
      World(s, LapiAfter(w, a), if reapplied then Render(s, LapiAfter(w, a)) else w.running)
  }

  // ---------------------------------------------------------------------
  // The handler
  // ---------------------------------------------------------------------

  /** The store holds what the backup does: the core always, the extras when the backup carries them. */
  ghost predicate HoldsBackup(now: Store, was: Store, snap: Snapshot) {
    && now.core == snap.core
    && match snap.extras
       case None => now.extras == was.extras
       case Some(x) =>
         && now.extras.sites == x.sites && now.extras.rules == x.rules
         && now.extras.crowdsec == x.crowdsec && now.extras.rest == x.rest
  }

  /** The store is what it was, with every edge bit clear. */
  ghost predicate HoldsExport(now: Store, was: Store) {
    && now.core == was.core && now.extras.sites == was.extras.sites
    && now.extras.crowdsec == was.extras.crowdsec && now.extras.rest == was.extras.rest
    && now.extras.rules.Keys == was.extras.rules.Keys
    && forall id :: id in was.extras.rules ==>
         now.extras.rules[id].settings == was.extras.rules[id].settings && !now.extras.rules[id].lastMatched
  }

  class RestoreHandler {
    var store: Store
    var lapi: Lapi
    var running: Config

    function Current(): World
      reads this
    {
      World(store, lapi, running)
    }

    /** A failed reload leaves the running configuration alone. */
    method Reload(ok: bool)
      modifies this`running
      ensures running == if ok then Render(store, lapi) else old(running)
    {
      if ok {
        running := Render(store, lapi);
      }
    }

    /** The settings are swapped in before the reload is attempted. */
    method ApplyCrowdSec(row: Lapi, ok: bool)
      modifies this`lapi, this`running
      ensures lapi == Trimmed(row)
      ensures running == if ok then Render(store, lapi) else old(running)
    {
      lapi := Trimmed(row);
      Reload(ok);
    }

    method ReloadAfterRestore(extras: bool, a: Answers) returns (swapped: bool, ok: bool)
      modifies this`lapi, this`running
      ensures ok == (a.reloads && !(extras && a.hasApplier && a.readBack.Unreadable?))
      ensures swapped == (extras && a.hasApplier && a.readBack.Readable? && store.extras.crowdsec.Some?)
      ensures lapi == if swapped then Trimmed(store.extras.crowdsec.value) else old(lapi)
      ensures running == if ok then Render(store, lapi) else old(running)
    {
      if extras && a.hasApplier {
        if a.readBack.Unreadable? {
          return false, false;
        }
        if store.extras.crowdsec.Some? {
          ApplyCrowdSec(store.extras.crowdsec.value, a.reloads);
          return true, a.reloads;
        }
      }
      Reload(a.reloads);
      return false, a.reloads;
    }

    method RestoreCrowdSecAfterRollback(pre: Snapshot, ok: bool)
      requires pre.extras.Some?
      modifies this`lapi, this`running
      ensures pre.extras.value.crowdsec.None? ==> lapi == old(lapi) && running == old(running)
      ensures pre.extras.value.crowdsec.Some? ==>
                && lapi == Trimmed(pre.extras.value.crowdsec.value)
                && running == if ok then Render(store, lapi) else old(running)
    {
      if pre.extras.value.crowdsec.Some? {
        ApplyCrowdSec(pre.extras.value.crowdsec.value, ok);
      }
    }

    /** The whole pipeline: against the table, and path by path on the fields. */
    method RestoreBytes(a: Answers) returns (outcome: Outcome)
      modifies this
      ensures outcome == OutcomeOf(a)
      ensures Current() == After(old(Current()), a)
      ensures outcome.Rejected? <==> !a.decodes || !a.opens || !a.exports || !a.marshals || a.resolved.None?
      ensures outcome.Rejected? ==> store == old(store) && lapi == old(lapi) && running == old(running)
      ensures !outcome.Rejected? ==>
                (outcome.Restored? <==>
                   a.reloads && !(a.resolved.value.extras.Some? && a.hasApplier && a.readBack.Unreadable?))
      ensures outcome.RolledBack? ==> a.rollsBack
      ensures outcome.RollbackFailed? ==> !a.rollsBack
      ensures outcome.Restored? || outcome.RollbackFailed? ==> HoldsBackup(store, old(store), a.resolved.value)
      ensures outcome.RolledBack? ==> HoldsExport(store, old(store))
      ensures outcome.Restored? ==>
                && running == Config(store.core, store.extras.sites, lapi)
                && lapi == (if a.resolved.value.extras.Some? && a.hasApplier && a.resolved.value.extras.value.crowdsec.Some?
                            then Trimmed(a.resolved.value.extras.value.crowdsec.value) else old(lapi))
      ensures outcome.RollbackFailed? ==> running == old(running)
    {
      if !a.decodes || !a.opens {
        return Rejected;
      }
      var pre := Export(store);
      if !a.exports || !a.marshals {
        return Rejected;
      }
      if a.resolved.None? {
        return Rejected;
      }
      store := Filled(store, a.resolved.value);
      var swapped, ok := ReloadAfterRestore(a.resolved.value.extras.Some?, a);
      if !ok {
        if !a.rollsBack {
          return RollbackFailed;
        }
        store := Filled(store, pre);
        if swapped {
          RestoreCrowdSecAfterRollback(pre, a.reloadsAgain);
        }
        return RolledBack;
      }
      return Restored;
    }
  }

  // ---------------------------------------------------------------------
  // What every path keeps
  // ---------------------------------------------------------------------

  /** Caddy runs the store's configuration, and the manager follows the stored row when there is one. */
  ghost predicate Agrees(w: World) {
    && w.running == Render(w.store, w.lapi)
    && (w.store.extras.crowdsec.Some? ==> w.lapi == Trimmed(w.store.extras.crowdsec.value))
  }

  /** Everything in the store except the watcher's edge bits. */
  function Configuration(s: Store): Store {
    s.(extras := s.extras.(rules := ClearedRules(s.extras.rules)))
  }

  ghost predicate EdgesClear(s: Store) {
    forall id :: id in s.extras.rules ==> !s.extras.rules[id].lastMatched
  }

  lemma ClearingTwice(rules: map<Text, Rule>)
    ensures ClearedRules(ClearedRules(rules)) == ClearedRules(rules)
  {
  }

  lemma ClearingExactlyWhen(rules: map<Text, Rule>)
    ensures ClearedRules(rules) == rules <==> forall id :: id in rules ==> !rules[id].lastMatched
  {
    if ClearedRules(rules) == rules {
      forall id | id in rules ensures !rules[id].lastMatched {
        assert ClearedRules(rules)[id] == rules[id];
      }
    }
  }

  /** The manager's settings after each path: swapped before the reload, put back only when there was a row. */
  lemma ManagerSettings(w: World, a: Answers)
    requires Imports(a)
    ensures var x := a.resolved.value.extras;
            var swapped := x.Some? && a.hasApplier && a.readBack.Readable? && x.value.crowdsec.Some?;
            After(w, a).lapi ==
              if !swapped then w.lapi
              else if OutcomeOf(a).RolledBack? && w.store.extras.crowdsec.Some?
              then Lapi(Trim(w.store.extras.crowdsec.value.url), Trim(w.store.extras.crowdsec.value.key))
              else Lapi(Trim(x.value.crowdsec.value.url), Trim(x.value.crowdsec.value.key))
  {
  }

  /** The rollback puts back every table; only the watcher's edge bits are lost. */
  lemma RollbackStore(w: World, a: Answers)
    requires OutcomeOf(a).RolledBack?
    ensures Configuration(After(w, a).store) == Configuration(w.store)
    ensures After(w, a).store == w.store <==> EdgesClear(w.store)
  {
    ClearingTwice(w.store.extras.rules);
    ClearingExactlyWhen(w.store.extras.rules);
    if After(w, a).store == w.store {
      assert After(w, a).store.extras.rules == ClearedRules(w.store.extras.rules);
    }
  }

  /** Store and running configuration are both the old ones. */
  ghost predicate OldOld(w: World, w': World) {
    Configuration(w'.store) == Configuration(w.store) && w'.running == w.running
  }

  /** The store is what the backup holds, and Caddy runs it. */
  ghost predicate NewNew(w: World, w': World, snap: Snapshot) {
    HoldsBackup(w'.store, w.store, snap) && w'.running == Config(snap.core, w'.store.extras.sites, w'.lapi)
  }

  /** Every path but a failed rollback ends with both sides old or both new; a failed rollback is exactly new store, old Caddy. */
  lemma BothOldOrBothNew(w: World, a: Answers)
    requires Agrees(w)
    ensures match OutcomeOf(a)
            case Rejected => After(w, a) == w
            case RolledBack => OldOld(w, After(w, a))
            case Restored => NewNew(w, After(w, a), a.resolved.value)
            case RollbackFailed => HoldsBackup(After(w, a).store, w.store, a.resolved.value) && After(w, a).running == w.running
  {
    if OutcomeOf(a).RolledBack? {
      RollbackStore(w, a);
    }
  }

  /** The backup brings a CrowdSec row that a failed restore leaves in the manager: there was no row to put back. */
  predicate LeavesForeignLapi(w: World, a: Answers) {
    && OutcomeOf(a).RolledBack? && w.store.extras.crowdsec.None?
    && Swapped(w.store, a).Some? && Trimmed(Swapped(w.store, a).value) != w.lapi
  }

  /** A row was restored that no applier could hand to the manager. */
  predicate RowNotApplied(w: World, a: Answers) {
    && OutcomeOf(a).Restored? && Swapped(w.store, a).None?
    && Filled(w.store, a.resolved.value).extras.crowdsec.Some?
    && Trimmed(Filled(w.store, a.resolved.value).extras.crowdsec.value) != w.lapi
  }

  /** The backup holds something else than what Caddy serves. */
  predicate BackupDiffers(w: World, snap: Snapshot) {
    || snap.core != w.store.core
    || (snap.extras.Some? && snap.extras.value.sites != w.store.extras.sites)
    || (snap.extras.Some? && snap.extras.value.crowdsec.Some? && Trimmed(snap.extras.value.crowdsec.value) != w.lapi)
  }

  /** The rollback failed, so a backup that differs stays in the store. */
  predicate StrandedRollback(w: World, a: Answers) {
    OutcomeOf(a).RollbackFailed? && BackupDiffers(w, a.resolved.value)
  }

  /** Agreement survives a restore exactly when none of the three named situations arises. */
  lemma AgreementExactlyWhen(w: World, a: Answers)
    requires Agrees(w)
    ensures Agrees(After(w, a)) <==>
              !LeavesForeignLapi(w, a) && !RowNotApplied(w, a) && !StrandedRollback(w, a)
  {
    var w' := After(w, a);
    match OutcomeOf(a)
    case Rejected =>
    case Restored =>
    case RolledBack =>
      assert w'.store.extras.crowdsec == w.store.extras.crowdsec;
    case RollbackFailed =>
      assert w'.running == w.running == Render(w.store, w.lapi);
  }

  function AfterAll(w: World, run: seq<Answers>): World {
    if run == [] then w else After(AfterAll(w, run[..|run| - 1]), run[|run| - 1])
  }

  ghost predicate Harmless(w: World, a: Answers) {
    !LeavesForeignLapi(w, a) && !RowNotApplied(w, a) && !StrandedRollback(w, a)
  }

  /** Any run of restores in which none of the three situations arises keeps the store, the manager and Caddy in agreement. */
  lemma {:induction false} EveryRestoreRunAgrees(w: World, run: seq<Answers>)
    requires Agrees(w)
    requires forall i :: 0 <= i < |run| ==> Harmless(AfterAll(w, run[..i]), run[i])
    ensures Agrees(AfterAll(w, run))
  {
    if run != [] {
      var n := |run| - 1;
      forall i | 0 <= i < n ensures Harmless(AfterAll(w, run[..n][..i]), run[..n][i]) {
        assert run[..n][..i] == run[..i];
      }
      EveryRestoreRunAgrees(w, run[..n]);
      AgreementExactlyWhen(AfterAll(w, run[..n]), run[n]);
    }
  }

  /** The first restore of a run in which one arises shows: right after it they disagree. */
  lemma FirstHarmShows(w: World, run: seq<Answers>, n: nat)
    requires Agrees(w) && n < |run| && !Harmless(AfterAll(w, run[..n]), run[n])
    requires forall i :: 0 <= i < n ==> Harmless(AfterAll(w, run[..i]), run[i])
    ensures !Agrees(AfterAll(w, run[..n + 1]))
  {
    forall i | 0 <= i < n ensures Harmless(AfterAll(w, run[..n][..i]), run[..n][i]) {
      assert run[..n][..i] == run[..i];
    }
    EveryRestoreRunAgrees(w, run[..n]);
    AgreementExactlyWhen(AfterAll(w, run[..n]), run[n]);
    assert run[..n + 1][..n] == run[..n];
  }

  /** With settings from the environment, a refused restore leaves the backup's settings in the manager: the next reload serves them. */
  lemma EnvironmentSettingsLost(w: World, a: Answers, lapi: Lapi)
    requires Agrees(w) && w.store.extras.crowdsec.None?
    requires OutcomeOf(a).RolledBack? && Swapped(w.store, a) == Some(lapi) && Trimmed(lapi) != w.lapi
    ensures OldOld(w, After(w, a))
    ensures Render(After(w, a).store, After(w, a).lapi) != After(w, a).running
  {
    RollbackStore(w, a);
  }
}
