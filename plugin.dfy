/**
 * The plugin object (packages/paintress-sync-plugin/main.ts): when a sync
 * controller is built, and the gate `runSync` puts in front of a pass.
 */
module Plugin {
  import opened Wrappers
  import opened Fs
  import opened Settings
  import opened SyncEngine
  import opened SyncClassify
  import opened RemoteFs
  import opened FilesServer

  /** Why `runSync` returned without starting a pass. */
  datatype Refusal = NotEnabled | AlreadyRunning | TermsNotAccepted

  /** What a call of `runSync` came to; errors of the pass are caught, never rethrown. */
  datatype RunOutcome =
    | Refused(reason: Refusal)
    | NoController           // the pass was allowed but no controller was configured
    | Ran(result: Outcome<Error>)

  /** The three checks of `runSync` (lines 110-129), in their order. */
  function Gate(s: SyncSettings, syncing: bool): (r: Option<Refusal>)
    ensures r.None? <==> s.enabled && !syncing && s.termsAccepted
    ensures r == Some(NotEnabled) <==> !s.enabled
    ensures r == Some(AlreadyRunning) <==> s.enabled && syncing
    ensures r == Some(TermsNotAccepted) <==> s.enabled && !syncing && !s.termsAccepted
  {
    if !s.enabled then Some(NotEnabled)
    else if syncing then Some(AlreadyRunning)
    else if !s.termsAccepted then Some(TermsNotAccepted)
    else None
  }

  /** `initializeSyncController` builds a controller only when both the host and the key are set. */
  predicate Configured(s: SyncSettings) {
    s.apiHost != "" && s.apiKey != ""
  }

  class PaintressSyncPlugin {
    const settingsController: SettingsController
    var syncController: SyncController?
    var syncing: bool

    constructor (settingsController: SettingsController)
      ensures this.settingsController == settingsController && syncController == null && !syncing
      ensures Valid()
    {
      this.settingsController := settingsController;
      syncController := null;
      syncing := false;
    }

    /** The objects a pass may change, and the settings objects it reads. */
    function Footprint(): set<object>
      reads this
    {
      if syncController == null then {}
      else
        var c := syncController;
        {c, c.host, c.host.history, c.host.settings, c.remote, c.remote.server, c.crypto, c.crypto.settings, c.settings}
    }

    /** A configured controller is ready to run and shares the plugin's settings. */
    ghost predicate Valid()
      reads this, Footprint()
    {
      syncController != null ==> syncController.Valid() && syncController.settings == settingsController
    }

    /**
     * `initializeSyncController()`, with `build` the controller it would wire
     * from the settings: without an API host or key nothing is built.
     */
    method InitializeSyncController(build: SyncController)
      requires Valid()
      requires build.Valid() && build.settings == settingsController
      modifies this
      ensures Valid()
      ensures syncController == if Configured(settingsController.settings) then build else old(syncController)
      ensures syncing == old(syncing)
    {
      var s := settingsController.settings;
      if s.apiHost == "" || s.apiKey == "" {
        return;
      }
      syncController := build;
    }

    /**
     * What a call of `runSync()` with `now` for the pass's `Date.now()` did,
     * between the state before it and the state after. A refused call, and
     * an allowed one without a controller, change nothing. An allowed call
     * with a controller runs the pass as `SyncController.Sync` promises: the
     * actions classified from the two listings are applied in order, a
     * thrown error is caught, and the checkpoint moves to `now` only when
     * the pass succeeded.
     */
    twostate predicate RunEffect(now: int, r: RunOutcome)
      requires old(Valid())
      reads this, Footprint(), settingsController
    {
      var gate := Gate(old(settingsController.settings), old(syncing));
      && syncController == old(syncController)
      && (gate.None? ==> !syncing)
      && (gate.Some? ==>
            r == Refused(gate.value) && unchanged(this) && unchanged(old(Footprint())) && unchanged(settingsController))
      && (gate.None? && syncController == null ==>
            r == NoController && unchanged(this) && unchanged(settingsController))
      && (gate.None? && syncController != null ==>
            var c := syncController;
            && r.Ran?
            && c.lastSyncedAt == old(settingsController.settings.lastSyncedAt)
            && c.remote.files == Cache(Summary(old(c.remote.server.rows), c.remote.workspace))
            && (c.State(), r.result) == Run(c.Ctx(), old(c.State()), Classify(old(c.host.Listing()), Metas(c.remote.files), c.lastSyncedAt))
            && settingsController.settings ==
                 if r.result.Pass? then old(settingsController.settings).(lastSyncedAt := now)
                 else old(settingsController.settings))
    }

    /**
     * `runSync()`: the gate refuses a call while the plugin is disabled, a
     * pass is running or the terms are not accepted; otherwise `syncing` is
     * set for the pass and cleared afterwards.
     */
    method RunSync(now: int) returns (r: RunOutcome)
      requires Valid()
      modifies this, Footprint()
      ensures Valid()
      ensures RunEffect(now, r)
    {
      var refusal := Gate(settingsController.settings, syncing);
      if refusal.Some? {
        return Refused(refusal.value);
      }
      syncing := true;
      if syncController == null {
        r := NoController;
      } else {
        var o := syncController.Sync(now);
        r := Ran(o);
      }
      syncing := false;
    }

    /**
     * One tick of the interval registered at layout time: `runSync()` is
     * called only in automatic mode, and a tick in manual mode changes
     * nothing.
     */
    method IntervalTick(now: int) returns (r: Option<RunOutcome>)
      requires Valid()
      modifies this, Footprint()
      ensures Valid()
      ensures r.Some? <==> old(settingsController.settings.syncType) == Auto
      ensures r.Some? ==> RunEffect(now, r.value)
      ensures r.None? ==> unchanged(this) && unchanged(old(Footprint())) && unchanged(settingsController)
    {
      if settingsController.settings.syncType == Auto {
        var o := RunSync(now);
        return Some(o);
      }
      return None;
    }
  }
}
