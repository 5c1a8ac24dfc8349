/**
 * The executing half of the sync engine (`SyncController` in
 * packages/caramel-sync-plugin/src/sync-controller.ts): one pass reads the
 * checkpoint, lists both replicas, plans, applies the actions strictly in
 * order, and stores the pass's start time as the new checkpoint only when
 * no action threw.
 *
 * What the actions change is gathered into one `World` value so that a
 * pass can be described by a function of the state before it.
 */
module SyncEngine {
  import opened Wrappers
  import opened OrderedMap
  import opened Fs
  import opened LocalHistory
  import opened LocalFs
  import opened FilesServer
  import opened RemoteFs
  import opened Crypto
  import opened Settings
  import opened ConflictResolver
  import opened SyncClassify

  /**
   * Everything applying actions changes: the vault and its trash cans, the
   * tombstone store, the server's table and ids, and how much of the random
   * stream the cipher has used.
   */
  datatype World = World(disk: Disk, tombs: OMap<FileHistory>, rows: seq<Row>, issued: nat, drawn: nat)

  /**
   * Everything applying actions reads and never changes: the host's trash
   * choice, the server and the remote cache, the cipher and its key, the
   * text codec, the merge, and the checkpoint `last_synced_at`.
   */
  datatype Context = Context(
    where: TrashTarget,
    trashSystem: string -> bool,
    env: Env,
    workspace: string,
    cache: seq<RemoteFile>,
    errorBody: DownloadResponse -> Bytes,
    web: WebCrypto,
    key: string,
    random: nat -> byte,
    text: TextCodec,
    reconcile: Reconcile,
    ckpt: int)

  // ---------------------------------------------------------------------
  // One replica call, on the world
  // ---------------------------------------------------------------------

  /** `remote.update(path, content, previousUpdatedAt, newUpdatedAt)`, on the world. */
  function RemoteUpdate(ctx: Context, w: World, path: string, content: Bytes, previousUpdatedAt: Stamp, newUpdatedAt: int)
    : (World, Outcome<Error>)
  {
    var (rows, issued, o) := UpdateCall(ctx.env, w.rows, w.issued, ctx.workspace, path, content, previousUpdatedAt, newUpdatedAt);
    (w.(rows := rows, issued := issued), o)
  }

  /** `remote.remove(path, previousUpdatedAt)`, on the world. */
  function RemoteRemove(ctx: Context, w: World, path: string, previousUpdatedAt: Stamp): (World, Outcome<Error>) {
    var (rows, issued, o) := RemoveCall(ctx.env, w.rows, w.issued, ctx.workspace, path, previousUpdatedAt);
    (w.(rows := rows, issued := issued), o)
  }

  /** `host.update(path, content, previousUpdatedAt, newUpdatedAt)`. */
  function HostUpdate(w: World, path: string, content: Bytes, previousUpdatedAt: int, newUpdatedAt: int)
    : (World, Outcome<Error>)
  {
    var (entries, o) := UpdateSpec(w.disk.entries, path, content, previousUpdatedAt, newUpdatedAt);
    (w.(disk := w.disk.(entries := entries)), o)
  }

  /** `UpdateGuard` for the world: only the vault changes, and the outcome is the guard's or the write's. */
  lemma HostUpdateGuard(w: World, path: string, content: Bytes, previousUpdatedAt: int, newUpdatedAt: int)
    requires UniqueKeys(w.disk.entries)
    ensures var (w', o) := HostUpdate(w, path, content, previousUpdatedAt, newUpdatedAt);
      var (mtime, ctime) := Stats(w.disk.entries, path);
      && w' == w.(disk := w'.disk)
      && (o.Fail? <==> ModifiedSince(mtime, previousUpdatedAt) || WriteBlocked(WithParents(w.disk.entries, path), path))
      && (o.Fail? ==> Get(w'.disk.entries, path) == Get(w.disk.entries, path))
      && (o.Pass? ==> Get(w'.disk.entries, path) == Some(FileNode(newUpdatedAt, if ctime != 0 then ctime else newUpdatedAt, content)))
  {
    UpdateGuard(w.disk.entries, path, content, previousUpdatedAt, newUpdatedAt);
  }

  /** `host.remove(path, previousUpdatedAt)`. */
  function HostRemove(ctx: Context, w: World, path: string, previousUpdatedAt: int): (World, Outcome<Error>) {
    var (d, o) := RemoveSpec(w.disk, path, previousUpdatedAt, ctx.where, ctx.trashSystem(path));
    (w.(disk := d), o)
  }

  /** `remote.getFileContent(path)` against the table as it is now. */
  function RemoteContent(ctx: Context, w: World, path: string): Result<Bytes, Error> {
    Fetch(ctx.cache, w.rows, ctx.workspace, ctx.errorBody, path)
  }

  // ---------------------------------------------------------------------
  // handleConflict and applySyncAction, as functions of the world
  // ---------------------------------------------------------------------

  /**
   * The reading half of `handleConflict` (lines 188-192): read and decrypt
   * the host side, then the remote side, stopping at the first throw, and
   * decode both as text.
   */
  function ConflictTexts(ctx: Context, w: World, hostFile: FileMetadata, remoteFile: FileMetadata)
    : Result<(string, string), Error>
  {
    var hc := ReadFile(w.disk.entries, hostFile.path);
    if hc.Err? then Err(hc.error) else
    var hostData := Decrypted(ctx.web, ctx.key, hc.value);
    if hostData.Err? then Err(hostData.error) else
    var rc := RemoteContent(ctx, w, remoteFile.path);
    if rc.Err? then Err(rc.error) else
    var remoteData := Decrypted(ctx.web, ctx.key, rc.value);
    if remoteData.Err? then Err(remoteData.error) else
    Ok((BufferToString(ctx.text, hostData.value), BufferToString(ctx.text, remoteData.value)))
  }

  /**
   * `handleConflict(hostFile, remoteFile)` (lines 187-201): a file that is
   * not text-like gives `None`; otherwise the merge of the two texts,
   * encoded and encrypted. The second component is the random stream's new
   * position.
   */
  function ConflictData(ctx: Context, w: World, hostFile: FileMetadata, remoteFile: FileMetadata)
    : (Result<Option<Bytes>, Error>, nat)
  {
    MergeConflict(ctx, w.drawn, hostFile, remoteFile, ConflictTexts(ctx, w, hostFile, remoteFile))
  }

  /** Lines 193-200 of `handleConflict`, once the two texts are read; `drawn` is the random stream's position. */
  function MergeConflict(ctx: Context, drawn: nat, hostFile: FileMetadata, remoteFile: FileMetadata,
                         texts: Result<(string, string), Error>): (Result<Option<Bytes>, Error>, nat)
  {
    match texts
    case Err(e) => (Err(e), drawn)
    case Ok((hostText, remoteText)) =>
      if !CanResolve(hostFile, remoteFile) then (Ok(None), drawn) else
      var merged := Resolve(ctx.reconcile, hostFile, remoteFile, hostText, remoteText);
      var salt := RandomBytes(ctx.random, drawn, SaltLength);
      var iv := RandomBytes(ctx.random, drawn + SaltLength, IvLength);
      (Ok(Some(Encrypted(ctx.web, ctx.key, StringToBuffer(ctx.text, merged), salt, iv))),
       drawn + if ctx.key == "" then 0 else SaltLength + IvLength)
  }

  /**
   * `applySyncAction(action)` (lines 50-105): the world afterwards, and
   * whether a replica call threw. Calls made before a throw stay made.
   */
  function Apply(ctx: Context, w: World, a: SyncAction): (World, Outcome<Error>) {
    match a.action
    case Prune =>
      if a.hostFile.Some? then (w.(tombs := Delete(w.tombs, a.hostFile.value.path)), Pass) else (w, Pass)
    case Remove =>
      var (w1, o1) := if a.remoteFile.Some? then
        RemoteRemove(ctx, w, a.remoteFile.value.path, PreviousStamp(a.remoteFile.value)) else (w, Pass);
      if o1.Fail? then (w1, o1)
      else if a.hostFile.Some? then HostRemove(ctx, w1, a.hostFile.value.path, a.hostFile.value.updatedAt) else (w1, Pass)
    case Conflict =>
      if a.hostFile.Some? && a.remoteFile.Some? then
        var hf, rf := a.hostFile.value, a.remoteFile.value;
        var (data, drawn) := ConflictData(ctx, w, hf, rf);
        var w1 := w.(drawn := drawn);
        if data.Err? then (w1, Fail(data.error))
        else if data.value.None? then (w1, Pass)
        else
          var (w2, o2) := RemoteUpdate(ctx, w1, rf.path, data.value.value, PreviousStamp(rf), ctx.ckpt);
          if o2.Fail? then (w2, o2)
          else HostUpdate(w2, hf.path, data.value.value, hf.updatedAt, ctx.ckpt)
      else (w, Pass)
    case Push =>
      if a.hostFile.Some? then
        var hf := a.hostFile.value;
        var c := ReadFile(w.disk.entries, hf.path);
        if c.Err? then (w, Fail(c.error))
        else
          var previous := if a.remoteFile.Some? then PreviousStamp(a.remoteFile.value) else Some(hf.updatedAt);
          RemoteUpdate(ctx, w, hf.path, c.value, previous, hf.updatedAt)
      else (w, Pass)
    case Pull =>
      if a.remoteFile.Some? then
        var rf := a.remoteFile.value;
        var c := RemoteContent(ctx, w, rf.path);
        if c.Err? then (w, Fail(c.error))
        else
          var previous := if a.hostFile.Some? then a.hostFile.value.updatedAt else rf.updatedAt;
          HostUpdate(w, rf.path, c.value, previous, rf.updatedAt)
      else (w, Pass)
  }

  /** The `for ... await applySyncAction(action)` loop: in order, stopping at the first throw. */
  function Run(ctx: Context, w: World, actions: seq<SyncAction>): (World, Outcome<Error>)
    decreases |actions|
  {
    if actions == [] then (w, Pass)
    else
      var (w1, o) := Apply(ctx, w, actions[0]);
      if o.Fail? then (w1, o) else Run(ctx, w1, actions[1..])
  }

  // ---------------------------------------------------------------------
  // What a pass does
  // ---------------------------------------------------------------------

  /** Running two lists is running the first and, if nothing threw, the second from where it left off. */
  lemma {:induction false} RunAppend(ctx: Context, w: World, a: seq<SyncAction>, b: seq<SyncAction>)
    ensures Run(ctx, w, a + b) ==
      var (w1, o1) := Run(ctx, w, a);
      if o1.Fail? then (w1, o1) else Run(ctx, w1, b)
    decreases |a|
  {
    if a == [] {
      assert a + b == b;
    } else {
      assert (a + b)[1..] == a[1..] + b;
      var (w1, o1) := Apply(ctx, w, a[0]);
      if o1.Pass? {
        RunAppend(ctx, w1, a[1..], b);
      }
    }
  }

  /**
   * When action `k` is the first to throw, the pass ends in the world that
   * action left: nothing after it is applied.
   */
  lemma StopsAtFirstThrow(ctx: Context, w: World, actions: seq<SyncAction>, k: nat)
    requires k < |actions|
    requires Run(ctx, w, actions[..k]).1.Pass?
    requires Apply(ctx, Run(ctx, w, actions[..k]).0, actions[k]).1.Fail?
    ensures Run(ctx, w, actions) == Apply(ctx, Run(ctx, w, actions[..k]).0, actions[k])
  {
    assert actions == actions[..k] + actions[k..];
    RunAppend(ctx, w, actions[..k], actions[k..]);
  }

  /** A prune touches only the tombstone store, never the vault and never the server, and cannot throw. */
  lemma PruneForgetsOnlyTombstone(ctx: Context, w: World, a: SyncAction)
    requires a.action == Prune && Shaped(a) && UniqueKeys(w.tombs)
    ensures var (w', o) := Apply(ctx, w, a);
      && o == Pass
      && w' == w.(tombs := w'.tombs)
      && Get(w'.tombs, a.hostFile.value.path) == None
      && forall p :: p != a.hostFile.value.path ==> Get(w'.tombs, p) == Get(w.tombs, p)
  {
  }

  /**
   * A removal asks the server first, with the remote snapshot's stamp, and
   * that request stands whatever the host does next. A server failure
   * throws before the vault is touched; otherwise the host removal throws
   * exactly when the host file changed since its snapshot, and then leaves
   * the vault as it was.
   */
  lemma RemoveAsksServerFirst(ctx: Context, w: World, a: SyncAction)
    requires a.action == Remove && Shaped(a) && UniqueKeys(w.disk.entries)
    ensures var (hf, rf) := (a.hostFile.value, a.remoteFile.value);
      var (w1, o1) := RemoteRemove(ctx, w, rf.path, PreviousStamp(rf));
      var (w', o) := Apply(ctx, w, a);
      && (w'.rows, w'.issued) == (w1.rows, w1.issued)
      && (o1.Fail? ==> o == o1)
      && (o.Fail? <==> o1.Fail? || ModifiedSince(Stats(w.disk.entries, hf.path).0, hf.updatedAt))
      && (o.Fail? ==> w'.disk == w.disk)
      && (o.Pass? ==> Get(w'.disk.entries, hf.path) == None)
  {
    RemoveGuard(w.disk, a.hostFile.value.path, a.hostFile.value.updatedAt, ctx.where, ctx.trashSystem(a.hostFile.value.path));
  }

  /**
   * A removal whose remote entry the server listed with a null stamp throws
   * in `toString()` before any request is sent, so neither replica changes
   * and the pass stops there.
   */
  lemma StamplessRemoteRemoveThrows(ctx: Context, w: World, a: SyncAction)
    requires a.action == Remove && a.remoteFile.Some? && a.remoteFile.value.nullStamp
    ensures Apply(ctx, w, a) == (w, Fail(NullStamp))
    ensures Run(ctx, w, [a]) == (w, Fail(NullStamp))
  {
  }

  /** A conflict on a file that is not text-like writes nothing anywhere, whatever the reads gave. */
  lemma UnresolvableConflictWritesNothing(ctx: Context, w: World, a: SyncAction)
    requires a.action == Conflict && Shaped(a)
    requires !CanResolve(a.hostFile.value, a.remoteFile.value)
    ensures Apply(ctx, w, a).0 == w
  {
  }

  /**
   * A conflict whose host file cannot be read (a tombstone whose file is
   * gone, see `HostTombstoneInConflict`) throws before anything is written.
   */
  lemma ConflictOnMissingHostFileThrows(ctx: Context, w: World, a: SyncAction)
    requires a.action == Conflict && Shaped(a)
    requires ReadFile(w.disk.entries, a.hostFile.value.path).Err?
    ensures Apply(ctx, w, a) == (w, Fail(FileNotFound))
  {
  }

  /**
   * With a cipher that opens what it seals, the bytes a conflict writes
   * decrypt, under the same key, to the encoded merge of the two texts.
   */
  lemma ConflictDataDecrypts(ctx: Context, w: World, hostFile: FileMetadata, remoteFile: FileMetadata,
                             hostText: string, remoteText: string)
    requires OpensWhatItSeals(ctx.web)
    requires ConflictTexts(ctx, w, hostFile, remoteFile) == Ok((hostText, remoteText))
    requires CanResolve(hostFile, remoteFile)
    ensures var (data, _) := ConflictData(ctx, w, hostFile, remoteFile);
      && data.Ok? && data.value.Some?
      && Decrypted(ctx.web, ctx.key, data.value.value)
         == Ok(StringToBuffer(ctx.text, Resolve(ctx.reconcile, hostFile, remoteFile, hostText, remoteText)))
  {
    assert ConflictData(ctx, w, hostFile, remoteFile)
      == MergeConflict(ctx, w.drawn, hostFile, remoteFile, Ok((hostText, remoteText)));
    MergeConflictDecrypts(ctx, w.drawn, hostFile, remoteFile, hostText, remoteText);
  }

  /** `ConflictDataDecrypts`, once the two texts are read. */
  lemma MergeConflictDecrypts(ctx: Context, drawn: nat, hostFile: FileMetadata, remoteFile: FileMetadata,
                              hostText: string, remoteText: string)
    requires OpensWhatItSeals(ctx.web)
    requires CanResolve(hostFile, remoteFile)
    ensures var (data, _) := MergeConflict(ctx, drawn, hostFile, remoteFile, Ok((hostText, remoteText)));
      && data.Ok? && data.value.Some?
      && Decrypted(ctx.web, ctx.key, data.value.value)
         == Ok(StringToBuffer(ctx.text, Resolve(ctx.reconcile, hostFile, remoteFile, hostText, remoteText)))
  {
    var plain := StringToBuffer(ctx.text, Resolve(ctx.reconcile, hostFile, remoteFile, hostText, remoteText));
    var salt := RandomBytes(ctx.random, drawn, SaltLength);
    var iv := RandomBytes(ctx.random, drawn + SaltLength, IvLength);
    DecryptedOfEncrypted(ctx.web, ctx.key, plain, salt, iv);
  }

  /**
   * A resolved conflict writes the server first, and then the host, each
   * guarded by its own snapshot's stamp and both stamped with the
   * checkpoint. A server failure throws before the host is written;
   * otherwise the host write throws exactly when its guard fires or the
   * vault refuses the write.
   */
  lemma ResolvedConflictWritesBoth(ctx: Context, w: World, a: SyncAction, data: Bytes)
    requires a.action == Conflict && Shaped(a) && UniqueKeys(w.disk.entries)
    requires ConflictData(ctx, w, a.hostFile.value, a.remoteFile.value).0 == Ok(Some(data))
    ensures var (hf, rf) := (a.hostFile.value, a.remoteFile.value);
      var w1 := w.(drawn := ConflictData(ctx, w, hf, rf).1);
      var (w2, o2) := RemoteUpdate(ctx, w1, rf.path, data, PreviousStamp(rf), ctx.ckpt);
      var (w', o) := Apply(ctx, w, a);
      && (w'.rows, w'.issued) == (w2.rows, w2.issued)
      && (o2.Fail? ==> o == o2)
      && (o.Fail? <==> o2.Fail? || ModifiedSince(Stats(w.disk.entries, hf.path).0, hf.updatedAt)
                       || WriteBlocked(WithParents(w.disk.entries, hf.path), hf.path))
      && (o.Fail? ==> Get(w'.disk.entries, hf.path) == Get(w.disk.entries, hf.path))
      && (o.Pass? ==>
            (Get(w'.disk.entries, hf.path) ==
             Some(FileNode(ctx.ckpt, if Stats(w.disk.entries, hf.path).1 != 0 then Stats(w.disk.entries, hf.path).1 else ctx.ckpt, data))))
  {
    var (hf, rf) := (a.hostFile.value, a.remoteFile.value);
    var w1 := w.(drawn := ConflictData(ctx, w, hf, rf).1);
    var (w2, o2) := RemoteUpdate(ctx, w1, rf.path, data, PreviousStamp(rf), ctx.ckpt);
    assert w2.disk == w.disk;
    if o2.Pass? {
      assert Apply(ctx, w, a) == HostUpdate(w2, hf.path, data, hf.updatedAt, ctx.ckpt);
      HostUpdateGuard(w2, hf.path, data, hf.updatedAt, ctx.ckpt);
    }
  }

  /**
   * A push of a readable host file posts the bytes to the server, guarded
   * by the remote snapshot's stamp (or the host's own when the server has
   * no entry) and stamped with the host's, throws only when the server
   * fails, and leaves the vault alone.
   */
  lemma PushPostsHostBytes(ctx: Context, w: World, a: SyncAction, content: Bytes)
    requires a.action == Push && Shaped(a)
    requires ReadFile(w.disk.entries, a.hostFile.value.path) == Ok(content)
    ensures var hf := a.hostFile.value;
      var previous := if a.remoteFile.Some? then PreviousStamp(a.remoteFile.value) else Some(hf.updatedAt);
      Apply(ctx, w, a) == RemoteUpdate(ctx, w, hf.path, content, previous, hf.updatedAt)
      && Apply(ctx, w, a).0.disk == w.disk
  {
  }

  /**
   * A pull writes the fetched bytes into the vault, stamped with the remote
   * snapshot's stamp; it throws exactly when the host file changed since
   * the host snapshot (or since the remote's stamp when the host had no
   * entry) or the vault refuses the write, and never touches the server.
   */
  lemma PullWritesRemoteBytes(ctx: Context, w: World, a: SyncAction, content: Bytes)
    requires a.action == Pull && Shaped(a) && UniqueKeys(w.disk.entries)
    requires RemoteContent(ctx, w, a.remoteFile.value.path) == Ok(content)
    ensures var rf := a.remoteFile.value;
      var previous := if a.hostFile.Some? then a.hostFile.value.updatedAt else rf.updatedAt;
      var (w', o) := Apply(ctx, w, a);
      && w'.rows == w.rows && w'.issued == w.issued && w'.tombs == w.tombs
      && (o.Fail? <==> ModifiedSince(Stats(w.disk.entries, rf.path).0, previous)
                       || WriteBlocked(WithParents(w.disk.entries, rf.path), rf.path))
      && (o.Pass? ==>
            (Get(w'.disk.entries, rf.path) ==
             Some(FileNode(rf.updatedAt, if Stats(w.disk.entries, rf.path).1 != 0 then Stats(w.disk.entries, rf.path).1 else rf.updatedAt, content))))
  {
    var rf := a.remoteFile.value;
    HostUpdateGuard(w, rf.path, content,
      if a.hostFile.Some? then a.hostFile.value.updatedAt else rf.updatedAt, rf.updatedAt);
  }

  /**
   * Listings with no tombstones and nothing changed since the checkpoint
   * plan nothing, so the pass changes nothing and succeeds.
   */
  lemma QuietListingsPlanNothing(ctx: Context, w: World, hostFiles: seq<FileMetadata>, remoteFiles: seq<FileMetadata>)
    requires forall i :: 0 <= i < |hostFiles| ==> !hostFiles[i].deleted && hostFiles[i].updatedAt <= ctx.ckpt
    requires forall i :: 0 <= i < |remoteFiles| ==> !remoteFiles[i].deleted && remoteFiles[i].updatedAt <= ctx.ckpt
    ensures Classify(hostFiles, remoteFiles, ctx.ckpt) == []
    ensures Run(ctx, w, Classify(hostFiles, remoteFiles, ctx.ckpt)) == (w, Pass)
  {
    FilterNoneOf(IsDeleted, remoteFiles);
    FilterNoneOf(IsDeleted, hostFiles);
    FilterNoneOf(Modified(ctx.ckpt), hostFiles);
    FilterNoneOf(Modified(ctx.ckpt), remoteFiles);
  }

  // ---------------------------------------------------------------------
  // The controller
  // ---------------------------------------------------------------------

  class SyncController {
    var lastSyncedAt: int
    const host: LocalFileSystem
    const remote: RemoteFileSystem
    const settings: SettingsController
    const crypto: CryptoBox
    const reconcile: Reconcile
    const text: TextCodec

    constructor (host: LocalFileSystem, remote: RemoteFileSystem, settings: SettingsController, crypto: CryptoBox,
                 reconcile: Reconcile, text: TextCodec)
      ensures lastSyncedAt == 0
      ensures this.host == host && this.remote == remote && this.settings == settings && this.crypto == crypto
      ensures this.reconcile == reconcile && this.text == text
    {
      lastSyncedAt := 0;
      this.host := host;
      this.remote := remote;
      this.settings := settings;
      this.crypto := crypto;
      this.reconcile := reconcile;
      this.text := text;
    }

    ghost predicate Valid()
      reads this, host, host.history
    {
      host.Valid()
    }

    /** The part of the heap the actions change. */
    function State(): World
      reads host, host.history, remote.server, crypto
    {
      World(host.State(), host.history.data, remote.server.rows, remote.server.issued, crypto.drawn)
    }

    /** The part of the heap the actions only read. */
    function Ctx(): Context
      reads this, remote, crypto.settings
    {
      Context(host.deleteToWhere, host.trashSystem, remote.server.env, remote.workspace, remote.files,
        remote.errorBody, crypto.web, crypto.EncryptionKey(), crypto.random, text, reconcile, lastSyncedAt)
    }

    /** Lines 188-192 of `handleConflict`: both sides read, decrypted and decoded. */
    method ReadConflict(hostFile: FileMetadata, remoteFile: FileMetadata) returns (r: Result<(string, string), Error>)
      ensures r == ConflictTexts(Ctx(), State(), hostFile, remoteFile)
    {
      ghost var ctx, w := Ctx(), State();
      var hostContent := host.GetFileContent(hostFile.path);
      assert hostContent == ReadFile(w.disk.entries, hostFile.path);
      if hostContent.Err? {
        return Err(hostContent.error);
      }
      var hostFileData := crypto.Decrypt(hostContent.value);
      assert hostFileData == Decrypted(ctx.web, ctx.key, hostContent.value);
      if hostFileData.Err? {
        return Err(hostFileData.error);
      }
      var remoteContent := remote.GetFileContent(remoteFile.path);
      assert remoteContent == RemoteContent(ctx, w, remoteFile.path);
      if remoteContent.Err? {
        return Err(remoteContent.error);
      }
      var remoteFileData := crypto.Decrypt(remoteContent.value);
      assert remoteFileData == Decrypted(ctx.web, ctx.key, remoteContent.value);
      if remoteFileData.Err? {
        return Err(remoteFileData.error);
      }
      var hostFileDataString := BufferToString(text, hostFileData.value);
      var remoteFileDataString := BufferToString(text, remoteFileData.value);
      r := Ok((hostFileDataString, remoteFileDataString));
    }

    /** `handleConflict(hostFile, remoteFile)`. */
    method HandleConflict(hostFile: FileMetadata, remoteFile: FileMetadata) returns (r: Result<Option<Bytes>, Error>)
      modifies crypto
      ensures (r, crypto.drawn) == ConflictData(Ctx(), old(State()), hostFile, remoteFile)
    {
      var texts := ReadConflict(hostFile, remoteFile);
      r := MergeTexts(hostFile, remoteFile, texts);
    }

    /** Lines 193-200 of `handleConflict`: merge the two texts, then encode and encrypt the merge. */
    method MergeTexts(hostFile: FileMetadata, remoteFile: FileMetadata, texts: Result<(string, string), Error>)
      returns (r: Result<Option<Bytes>, Error>)
      modifies crypto
      ensures (r, crypto.drawn) == MergeConflict(Ctx(), old(crypto.drawn), hostFile, remoteFile, texts)
    {
      if texts.Err? {
        return Err(texts.error);
      }
      var (hostFileDataString, remoteFileDataString) := texts.value;
      if CanResolve(hostFile, remoteFile) {
        var resolvedData := Resolve(reconcile, hostFile, remoteFile, hostFileDataString, remoteFileDataString);
        var encrypted := crypto.Encrypt(StringToBuffer(text, resolvedData));
        r := Ok(Some(encrypted));
      } else {
        r := Ok(None);
      }
    }

    /** `applySyncAction(action)`. */
    method ApplySyncAction(action: SyncAction) returns (o: Outcome<Error>)
      requires Valid()
      modifies host, host.history, remote.server, crypto
      ensures Valid()
      ensures (State(), o) == Apply(Ctx(), old(State()), action)
    {
      o := Pass;
      match action.action
      case Prune =>
        if action.hostFile.Some? {
          host.Prune(action.hostFile.value.path);
        }
      case Remove =>
        // always do remote first
        if action.remoteFile.Some? {
          o := remote.Remove(action.remoteFile.value.path, PreviousStamp(action.remoteFile.value));
          if o.Fail? {
            return;
          }
        }
        if action.hostFile.Some? {
          o := host.Remove(action.hostFile.value.path, action.hostFile.value.updatedAt);
        }
      case Conflict =>
        if action.hostFile.Some? && action.remoteFile.Some? {
          var hf, rf := action.hostFile.value, action.remoteFile.value;
          var updatedData := HandleConflict(hf, rf);
          if updatedData.Err? {
            return Fail(updatedData.error);
          }
          if updatedData.value.Some? {
            // always do remote first
            o := remote.Update(rf.path, updatedData.value.value, PreviousStamp(rf), lastSyncedAt);
            if o.Fail? {
              return;
            }
            o := host.Update(hf.path, updatedData.value.value, hf.updatedAt, lastSyncedAt);
          }
        }
      case Push =>
        if action.hostFile.Some? {
          var hf := action.hostFile.value;
          var content := host.GetFileContent(hf.path);
          if content.Err? {
            return Fail(content.error);
          }
          o := remote.Update(hf.path, content.value,
            if action.remoteFile.Some? then PreviousStamp(action.remoteFile.value) else Some(hf.updatedAt), hf.updatedAt);
        }
      case Pull =>
        if action.remoteFile.Some? {
          var rf := action.remoteFile.value;
          var content := remote.GetFileContent(rf.path);
          if content.Err? {
            return Fail(content.error);
          }
          o := host.Update(rf.path, content.value,
            if action.hostFile.Some? then action.hostFile.value.updatedAt else rf.updatedAt, rf.updatedAt);
        }
    }

    /** Lines 35-37 of `sync`: the actions in order, stopping at the first throw. */
    method ApplyAll(actions: seq<SyncAction>) returns (o: Outcome<Error>)
      requires Valid()
      modifies host, host.history, remote.server, crypto
      ensures Valid()
      ensures (State(), o) == Run(Ctx(), old(State()), actions)
    {
      ghost var ctx := Ctx();
      ghost var w0 := State();
      var i := 0;
      while i < |actions|
        invariant 0 <= i <= |actions|
        invariant Valid()
        invariant Ctx() == ctx
        invariant Run(ctx, w0, actions) == Run(ctx, State(), actions[i..])
      {
        var r := ApplySyncAction(actions[i]);
        assert actions[i..][1..] == actions[i + 1..];
        if r.Fail? {
          return r;
        }
        i := i + 1;
      }
      o := Pass;
    }

    /**
     * `sync(now)` with `now` for `Date.now()`: the checkpoint is read first,
     * both replicas are listed, the plan is applied in order, and the
     * checkpoint becomes `now` exactly when no action threw.
     */
    method Sync(now: int) returns (o: Outcome<Error>)
      requires Valid()
      modifies this, host, host.history, remote, remote.server, crypto, settings
      ensures Valid()
      ensures lastSyncedAt == old(settings.settings.lastSyncedAt)
      ensures remote.files == Cache(Summary(old(remote.server.rows), remote.workspace))
      ensures (State(), o) == Run(Ctx(), old(State()), Classify(old(host.Listing()), Metas(remote.files), lastSyncedAt))
      ensures settings.settings == if o.Pass? then old(settings.settings).(lastSyncedAt := now) else old(settings.settings)
    {
      lastSyncedAt := settings.settings.lastSyncedAt;
      var hostFiles := host.GetFiles();
      var remoteFiles := remote.GetFiles();
      var actions := CreateSyncAction(hostFiles, remoteFiles, lastSyncedAt);
      ghost var ctx := Ctx();
      o := ApplyAll(actions);
      if o.Fail? {
        return;
      }
      ghost var before := settings.settings;
      settings.UpdateSettings(SetLastSyncedAt(now));
      SetLastSyncedAtOnly(before, now);
      assert Ctx() == ctx;
    }
  }
}
