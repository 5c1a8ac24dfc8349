/**
 * The plug-in settings (packages/caramel-sync-plugin/src/settings-controller.ts):
 * the settings record, its defaults, and `Object.assign` of a partial record
 * onto a full one, which is how settings are loaded and updated.
 */
module Settings {
  import opened Wrappers

  datatype SyncType = Auto | Manual

  datatype ConflictResolutionStrategy = Ignore | Latest | Oldest | AlwaysPull | AlwaysPush

  datatype ResolutionRule = ResolutionRule(glob: string, strategy: ConflictResolutionStrategy)

  datatype SyncSettings = SyncSettings(
    enabled: bool,
    syncType: SyncType,
    syncInterval: int,
    apiHost: string,
    apiKey: string,
    encryptionKey: string,
    excludeGlobs: string,
    syncMaxFileSize: string,
    autoResolveConflict: bool,
    fallbackStrategy: ConflictResolutionStrategy,
    resolutionStrategies: seq<ResolutionRule>,
    termsAccepted: bool,
    lastSyncedAt: int)

  /** `Partial<CaramelSyncSettings>`: each field present or absent. */
  datatype PartialSettings = PartialSettings(
    enabled: Option<bool>,
    syncType: Option<SyncType>,
    syncInterval: Option<int>,
    apiHost: Option<string>,
    apiKey: Option<string>,
    encryptionKey: Option<string>,
    excludeGlobs: Option<string>,
    syncMaxFileSize: Option<string>,
    autoResolveConflict: Option<bool>,
    fallbackStrategy: Option<ConflictResolutionStrategy>,
    resolutionStrategies: Option<seq<ResolutionRule>>,
    termsAccepted: Option<bool>,
    lastSyncedAt: Option<int>)

  const DefaultSettings: SyncSettings := SyncSettings(
    enabled := true,
    syncType := Auto,
    syncInterval := 30000,
    apiHost := "https://app.vittey.com",
    apiKey := "",
    encryptionKey := "",
    excludeGlobs := "./vittey/file-history.db",
    syncMaxFileSize := "10MB",
    autoResolveConflict := true,
    fallbackStrategy := Latest,
    resolutionStrategies := [],
    termsAccepted := false,
    lastSyncedAt := 0)

  const NoChange: PartialSettings := PartialSettings(None, None, None, None, None, None, None,
    None, None, None, None, None, None)

  /** The partial record that sets only `last_synced_at`. */
  function SetLastSyncedAt(t: int): PartialSettings {
    NoChange.(lastSyncedAt := Some(t))
  }

  /** Every field of `s`, as a partial record. */
  function Full(s: SyncSettings): PartialSettings {
    PartialSettings(Some(s.enabled), Some(s.syncType), Some(s.syncInterval), Some(s.apiHost),
      Some(s.apiKey), Some(s.encryptionKey), Some(s.excludeGlobs), Some(s.syncMaxFileSize),
      Some(s.autoResolveConflict), Some(s.fallbackStrategy), Some(s.resolutionStrategies),
      Some(s.termsAccepted), Some(s.lastSyncedAt))
  }

  function Pick<T>(o: Option<T>, d: T): T {
    match o
    case Some(v) => v
    case None => d
  }

  /** `Object.assign(base, p)`: every field `p` gives replaces the one in `base`. */
  function Assign(base: SyncSettings, p: PartialSettings): SyncSettings {
    SyncSettings(
      Pick(p.enabled, base.enabled),
      Pick(p.syncType, base.syncType),
      Pick(p.syncInterval, base.syncInterval),
      Pick(p.apiHost, base.apiHost),
      Pick(p.apiKey, base.apiKey),
      Pick(p.encryptionKey, base.encryptionKey),
      Pick(p.excludeGlobs, base.excludeGlobs),
      Pick(p.syncMaxFileSize, base.syncMaxFileSize),
      Pick(p.autoResolveConflict, base.autoResolveConflict),
      Pick(p.fallbackStrategy, base.fallbackStrategy),
      Pick(p.resolutionStrategies, base.resolutionStrategies),
      Pick(p.termsAccepted, base.termsAccepted),
      Pick(p.lastSyncedAt, base.lastSyncedAt))
  }

  /** Two partial records applied one after the other: the later one wins field by field. */
  function Then(p: PartialSettings, q: PartialSettings): PartialSettings {
    PartialSettings(
      if q.enabled.Some? then q.enabled else p.enabled,
      if q.syncType.Some? then q.syncType else p.syncType,
      if q.syncInterval.Some? then q.syncInterval else p.syncInterval,
      if q.apiHost.Some? then q.apiHost else p.apiHost,
      if q.apiKey.Some? then q.apiKey else p.apiKey,
      if q.encryptionKey.Some? then q.encryptionKey else p.encryptionKey,
      if q.excludeGlobs.Some? then q.excludeGlobs else p.excludeGlobs,
      if q.syncMaxFileSize.Some? then q.syncMaxFileSize else p.syncMaxFileSize,
      if q.autoResolveConflict.Some? then q.autoResolveConflict else p.autoResolveConflict,
      if q.fallbackStrategy.Some? then q.fallbackStrategy else p.fallbackStrategy,
      if q.resolutionStrategies.Some? then q.resolutionStrategies else p.resolutionStrategies,
      if q.termsAccepted.Some? then q.termsAccepted else p.termsAccepted,
      if q.lastSyncedAt.Some? then q.lastSyncedAt else p.lastSyncedAt)
  }

  /** Assigning nothing changes nothing. */
  lemma AssignNoChange(base: SyncSettings)
    ensures Assign(base, NoChange) == base
  {
  }

  /** Assigning a complete record replaces everything: the result does not depend on the base. */
  lemma AssignFull(base: SyncSettings, s: SyncSettings)
    ensures Assign(base, Full(s)) == s
  {
  }

  /** Assigning the same partial record twice is the same as once. */
  lemma AssignIdempotent(base: SyncSettings, p: PartialSettings)
    ensures Assign(Assign(base, p), p) == Assign(base, p)
  {
  }

  /** Two updates in a row are one update with the later fields winning. */
  lemma AssignThen(base: SyncSettings, p: PartialSettings, q: PartialSettings)
    ensures Assign(Assign(base, p), q) == Assign(base, Then(p, q))
  {
  }

  /** Recording a checkpoint changes `last_synced_at` and no other setting. */
  lemma SetLastSyncedAtOnly(base: SyncSettings, t: int)
    ensures Assign(base, SetLastSyncedAt(t)) == base.(lastSyncedAt := t)
  {
  }

  class SettingsController {
    var settings: SyncSettings

    /** The controller starts from a copy of the defaults. */
    constructor ()
      ensures settings == DefaultSettings
    {
      settings := DefaultSettings;
    }

    /**
     * `loadSettings()`: the defaults overlaid with what was saved; `stored`
     * is `None` when nothing was saved (`loadData()` gives `null`).
     */
    method LoadSettings(stored: Option<PartialSettings>)
      modifies this
      ensures settings == Assign(DefaultSettings, Pick(stored, NoChange))
    {
      settings := Assign(DefaultSettings, Pick(stored, NoChange));
    }

    /** `updateSettings(newSettings)`: the given fields overwrite the current ones. */
    method UpdateSettings(newSettings: PartialSettings)
      modifies this
      ensures settings == Assign(old(settings), newSettings)
    {
      settings := Assign(settings, newSettings);
    }
  }
}
