/**
 * The planning half of the sync engine
 * (`createSyncAction` in packages/caramel-sync-plugin/src/sync-controller.ts):
 * four rules run in turn over filtered listings and record, per path, the
 * action to take in an insertion-ordered map; a later `set` of the same
 * path replaces the earlier action but keeps its place.
 */
module SyncClassify {
  import opened Wrappers
  import opened Fs
  import opened OrderedMap

  datatype ActionKind = Prune | Remove | Conflict | Push | Pull

  /** `createAction(hostFile, remoteFile, action)`: a `null` side is `None`. */
  datatype SyncAction = SyncAction(hostFile: Option<FileMetadata>, remoteFile: Option<FileMetadata>, action: ActionKind)

  /** What one loop iteration does: the `objMap.set(key, action)` it performs, if any. */
  type Rule = FileMetadata -> Option<(string, SyncAction)>

  /** The path an action is about: the host side's, or the remote side's when there is no host side. */
  function ActionPath(a: SyncAction): string {
    if a.hostFile.Some? then a.hostFile.value.path
    else if a.remoteFile.Some? then a.remoteFile.value.path
    else ""
  }

  /** `files.filter(pred)`, in listing order. */
  function Filter(pred: FileMetadata -> bool, files: seq<FileMetadata>): (r: seq<FileMetadata>)
    ensures forall x :: x in r <==> x in files && pred(x)
    ensures |r| <= |files|
    decreases |files|
  {
    if files == [] then []
    else
      var init := Filter(pred, files[..|files| - 1]);
      assert forall x :: x in files <==> x in files[..|files| - 1] || x == files[|files| - 1];
      if pred(files[|files| - 1]) then init + [files[|files| - 1]] else init
  }

  /**
   * Filtering distributes over concatenation. With `FilterSingle`, which
   * keeps a single entry exactly when it passes, this fixes the result:
   * the entries that pass, in their order and multiplicity.
   */
  lemma {:induction false} FilterAppend(pred: FileMetadata -> bool, a: seq<FileMetadata>, b: seq<FileMetadata>)
    ensures Filter(pred, a + b) == Filter(pred, a) + Filter(pred, b)
    decreases |b|
  {
    if b == [] {
      assert a + b == a;
    } else {
      var init, y := b[..|b| - 1], b[|b| - 1];
      assert b == init + [y];
      assert a + b == (a + init) + [y];
      FilterSnoc(pred, a + init, y);
      FilterSnoc(pred, init, y);
      FilterAppend(pred, a, init);
      var fa, fi := Filter(pred, a), Filter(pred, init);
      assert fa + fi + [y] == fa + (fi + [y]);
    }
  }

  /** One step of `Filter`: the last entry is appended exactly when it passes. */
  lemma FilterSnoc(pred: FileMetadata -> bool, s: seq<FileMetadata>, x: FileMetadata)
    ensures Filter(pred, s + [x]) == if pred(x) then Filter(pred, s) + [x] else Filter(pred, s)
  {
    assert (s + [x])[..|s|] == s;
  }

  lemma FilterSingle(pred: FileMetadata -> bool, x: FileMetadata)
    ensures Filter(pred, [x]) == if pred(x) then [x] else []
  {
    assert [x][..0] == [];
  }

  predicate IsDeleted(f: FileMetadata) {
    f.deleted
  }

  predicate IsModified(ckpt: int, f: FileMetadata) {
    !f.deleted && f.updatedAt > ckpt
  }

  function Modified(ckpt: int): FileMetadata -> bool {
    (f: FileMetadata) => IsModified(ckpt, f)
  }

  /** Rule 1 (lines 113-128), for one remote tombstone `rd`. Nothing is done when the host has no such path. */
  function RemoteDeletion(hostFiles: seq<FileMetadata>, rd: FileMetadata): Option<(string, SyncAction)> {
    match GetFile(hostFiles, rd.path)
    case None => None
    case Some(hf) =>
      if hf.deleted then Some((hf.path, SyncAction(Some(hf), Some(rd), Prune)))
      else if hf.createdAt < rd.deletedAt then Some((hf.path, SyncAction(Some(hf), Some(rd), Remove)))
      else Some((hf.path, SyncAction(Some(hf), Some(rd), Push)))
  }

  /** Rule 2 (lines 133-151), for one host tombstone `hd`. Nothing is done when the remote is a tombstone too. */
  function HostDeletion(remoteFiles: seq<FileMetadata>, hd: FileMetadata): Option<(string, SyncAction)> {
    match GetFile(remoteFiles, hd.path)
    case None => Some((hd.path, SyncAction(Some(hd), None, Prune)))
    case Some(rf) =>
      if rf.deleted then None
      else if rf.createdAt < hd.deletedAt then Some((rf.path, SyncAction(Some(hd), Some(rf), Remove)))
      else Some((hd.path, SyncAction(Some(hd), Some(rf), Pull)))
  }

  /** Rule 3 (lines 155-166), for one live host file changed since the checkpoint. */
  function HostModification(remoteFiles: seq<FileMetadata>, ckpt: int, hm: FileMetadata): Option<(string, SyncAction)> {
    var rf := GetFile(remoteFiles, hm.path);
    if rf.None? || rf.value.updatedAt < ckpt then Some((hm.path, SyncAction(Some(hm), rf, Push)))
    else if rf.value.updatedAt > ckpt then Some((hm.path, SyncAction(Some(hm), rf, Conflict)))
    else None
  }

  /** Rule 4 (lines 170-182), for one live remote file changed since the checkpoint. */
  function RemoteModification(hostFiles: seq<FileMetadata>, ckpt: int, rm: FileMetadata): Option<(string, SyncAction)> {
    var hf := GetFile(hostFiles, rm.path);
    if hf.None? || hf.value.updatedAt < ckpt then Some((rm.path, SyncAction(hf, Some(rm), Pull)))
    else if hf.value.updatedAt > ckpt then Some((rm.path, SyncAction(hf, Some(rm), Conflict)))
    else None
  }

  function Rule1(hostFiles: seq<FileMetadata>): Rule {
    (f: FileMetadata) => RemoteDeletion(hostFiles, f)
  }

  function Rule2(remoteFiles: seq<FileMetadata>): Rule {
    (f: FileMetadata) => HostDeletion(remoteFiles, f)
  }

  function Rule3(remoteFiles: seq<FileMetadata>, ckpt: int): Rule {
    (f: FileMetadata) => HostModification(remoteFiles, ckpt, f)
  }

  function Rule4(hostFiles: seq<FileMetadata>, ckpt: int): Rule {
    (f: FileMetadata) => RemoteModification(hostFiles, ckpt, f)
  }

  /**
   * The sides an action of each kind carries, which makes the null checks
   * of `applySyncAction` (lines 52-103) always succeed.
   */
  predicate Shaped(a: SyncAction) {
    match a.action
    case Prune => a.hostFile.Some?
    case Remove => a.hostFile.Some? && a.remoteFile.Some?
    case Conflict => a.hostFile.Some? && a.remoteFile.Some?
    case Push => a.hostFile.Some?
    case Pull => a.remoteFile.Some?
  }

  /** A rule keys its `set` by the path of the file it looks at, that path is the action's, and the action is shaped. */
  ghost predicate KeyedByPath(rule: Rule) {
    forall f :: rule(f).Some? ==>
      rule(f).value.0 == f.path && ActionPath(rule(f).value.1) == f.path && Shaped(rule(f).value.1)
  }

  lemma RemoteDeletionKeyed(hostFiles: seq<FileMetadata>)
    ensures KeyedByPath(Rule1(hostFiles))
  {
    forall f | Rule1(hostFiles)(f).Some?
      ensures Rule1(hostFiles)(f).value.0 == f.path && ActionPath(Rule1(hostFiles)(f).value.1) == f.path && Shaped(Rule1(hostFiles)(f).value.1)
    {
      var hf := GetFile(hostFiles, f.path);
    }
  }

  lemma HostDeletionKeyed(remoteFiles: seq<FileMetadata>)
    ensures KeyedByPath(Rule2(remoteFiles))
  {
    forall f | Rule2(remoteFiles)(f).Some?
      ensures Rule2(remoteFiles)(f).value.0 == f.path && ActionPath(Rule2(remoteFiles)(f).value.1) == f.path && Shaped(Rule2(remoteFiles)(f).value.1)
    {
      var rf := GetFile(remoteFiles, f.path);
    }
  }

  lemma HostModificationKeyed(remoteFiles: seq<FileMetadata>, ckpt: int)
    ensures KeyedByPath(Rule3(remoteFiles, ckpt))
  {
  }

  lemma RemoteModificationKeyed(hostFiles: seq<FileMetadata>, ckpt: int)
    ensures KeyedByPath(Rule4(hostFiles, ckpt))
  {
    forall f | Rule4(hostFiles, ckpt)(f).Some?
      ensures Rule4(hostFiles, ckpt)(f).value.0 == f.path && ActionPath(Rule4(hostFiles, ckpt)(f).value.1) == f.path && Shaped(Rule4(hostFiles, ckpt)(f).value.1)
    {
      var hf := GetFile(hostFiles, f.path);
    }
  }

  /** The `set`s one loop performs over `files`, in order. */
  function Sets(rule: Rule, files: seq<FileMetadata>): (r: seq<(string, SyncAction)>)
    ensures |r| <= |files|
    decreases |files|
  {
    if files == [] then []
    else
      var init := Sets(rule, files[..|files| - 1]);
      match rule(files[|files| - 1])
      case None => init
      case Some(kv) => init + [kv]
  }

  /** Every `set` the four loops perform, in program order. */
  function AllSets(hostFiles: seq<FileMetadata>, remoteFiles: seq<FileMetadata>, ckpt: int): seq<(string, SyncAction)> {
    Sets(Rule1(hostFiles), Filter(IsDeleted, remoteFiles))
    + Sets(Rule2(remoteFiles), Filter(IsDeleted, hostFiles))
    + Sets(Rule3(remoteFiles, ckpt), Filter(Modified(ckpt), hostFiles))
    + Sets(Rule4(hostFiles, ckpt), Filter(Modified(ckpt), remoteFiles))
  }

  /** The final `objMap`. */
  function Plan(hostFiles: seq<FileMetadata>, remoteFiles: seq<FileMetadata>, ckpt: int): OMap<SyncAction> {
    PutAll([], AllSets(hostFiles, remoteFiles, ckpt))
  }

  /** `Array.from(objMap.values())`. */
  function Classify(hostFiles: seq<FileMetadata>, remoteFiles: seq<FileMetadata>, ckpt: int): seq<SyncAction> {
    Values(Plan(hostFiles, remoteFiles, ckpt))
  }

  // ---------------------------------------------------------------------
  // The loops
  // ---------------------------------------------------------------------

  /** One more iteration of a loop performs that file's `set`, if it has one. */
  lemma SetsStep(m: OMap<SyncAction>, rule: Rule, files: seq<FileMetadata>, i: nat)
    requires i < |files|
    ensures PutAll(m, Sets(rule, files[..i + 1])) ==
      match rule(files[i])
      case None => PutAll(m, Sets(rule, files[..i]))
      case Some(kv) => Put(PutAll(m, Sets(rule, files[..i])), kv.0, kv.1)
  {
    assert files[..i + 1][..i] == files[..i];
    var s := Sets(rule, files[..i]);
    match rule(files[i])
    case None =>
    case Some(kv) =>
      assert (s + [kv])[..|s + [kv]| - 1] == s;
  }

  /** Lines 113-128: the loop over the remote tombstones. */
  method ApplyRemoteDeletions(objMap: OMap<SyncAction>, hostFiles: seq<FileMetadata>, remoteDeletedFiles: seq<FileMetadata>)
    returns (m: OMap<SyncAction>)
    ensures m == PutAll(objMap, Sets(Rule1(hostFiles), remoteDeletedFiles))
  {
    m := objMap;
    for i := 0 to |remoteDeletedFiles|
      invariant m == PutAll(objMap, Sets(Rule1(hostFiles), remoteDeletedFiles[..i]))
    {
      var remoteDeletedFile := remoteDeletedFiles[i];
      var hostFile := GetFile(hostFiles, remoteDeletedFile.path);
      SetsStep(objMap, Rule1(hostFiles), remoteDeletedFiles, i);
      if hostFile.Some? {
        var hf := hostFile.value;
        if hf.deleted {
          m := Put(m, hf.path, SyncAction(hostFile, Some(remoteDeletedFile), Prune));
        } else if hf.createdAt < remoteDeletedFile.deletedAt {
          m := Put(m, hf.path, SyncAction(hostFile, Some(remoteDeletedFile), Remove));
        } else {
          m := Put(m, hf.path, SyncAction(hostFile, Some(remoteDeletedFile), Push));
        }
      }
    }
    assert remoteDeletedFiles[..|remoteDeletedFiles|] == remoteDeletedFiles;
  }

  /** Lines 133-151: the loop over the host tombstones. */
  method ApplyHostDeletions(objMap: OMap<SyncAction>, remoteFiles: seq<FileMetadata>, hostDeletedFiles: seq<FileMetadata>)
    returns (m: OMap<SyncAction>)
    ensures m == PutAll(objMap, Sets(Rule2(remoteFiles), hostDeletedFiles))
  {
    m := objMap;
    for i := 0 to |hostDeletedFiles|
      invariant m == PutAll(objMap, Sets(Rule2(remoteFiles), hostDeletedFiles[..i]))
    {
      var hostDeletedFile := hostDeletedFiles[i];
      var remoteFile := GetFile(remoteFiles, hostDeletedFile.path);
      SetsStep(objMap, Rule2(remoteFiles), hostDeletedFiles, i);
      if remoteFile.Some? {
        var rf := remoteFile.value;
        if rf.deleted {
          // both sides are tombstones: the remote one is never pruned
        } else if rf.createdAt < hostDeletedFile.deletedAt {
          m := Put(m, rf.path, SyncAction(Some(hostDeletedFile), remoteFile, Remove));
        } else {
          m := Put(m, hostDeletedFile.path, SyncAction(Some(hostDeletedFile), remoteFile, Pull));
        }
      } else {
        m := Put(m, hostDeletedFile.path, SyncAction(Some(hostDeletedFile), None, Prune));
      }
    }
    assert hostDeletedFiles[..|hostDeletedFiles|] == hostDeletedFiles;
  }

  /** Lines 155-166: the loop over the host files changed since the checkpoint. */
  method ApplyHostModifications(objMap: OMap<SyncAction>, remoteFiles: seq<FileMetadata>, ckpt: int,
                                hostModifiedFiles: seq<FileMetadata>)
    returns (m: OMap<SyncAction>)
    ensures m == PutAll(objMap, Sets(Rule3(remoteFiles, ckpt), hostModifiedFiles))
  {
    m := objMap;
    for i := 0 to |hostModifiedFiles|
      invariant m == PutAll(objMap, Sets(Rule3(remoteFiles, ckpt), hostModifiedFiles[..i]))
    {
      var hostModifiedFile := hostModifiedFiles[i];
      var remoteFile := GetFile(remoteFiles, hostModifiedFile.path);
      SetsStep(objMap, Rule3(remoteFiles, ckpt), hostModifiedFiles, i);
      if remoteFile.None? || remoteFile.value.updatedAt < ckpt {
        m := Put(m, hostModifiedFile.path, SyncAction(Some(hostModifiedFile), remoteFile, Push));
      } else if remoteFile.value.updatedAt > ckpt {
        m := Put(m, hostModifiedFile.path, SyncAction(Some(hostModifiedFile), remoteFile, Conflict));
      }
    }
    assert hostModifiedFiles[..|hostModifiedFiles|] == hostModifiedFiles;
  }

  /** Lines 170-182: the loop over the remote files changed since the checkpoint. */
  method ApplyRemoteModifications(objMap: OMap<SyncAction>, hostFiles: seq<FileMetadata>, ckpt: int,
                                  remoteModifiedFiles: seq<FileMetadata>)
    returns (m: OMap<SyncAction>)
    ensures m == PutAll(objMap, Sets(Rule4(hostFiles, ckpt), remoteModifiedFiles))
  {
    m := objMap;
    for i := 0 to |remoteModifiedFiles|
      invariant m == PutAll(objMap, Sets(Rule4(hostFiles, ckpt), remoteModifiedFiles[..i]))
    {
      var remoteModifiedFile := remoteModifiedFiles[i];
      var hostFile := GetFile(hostFiles, remoteModifiedFile.path);
      SetsStep(objMap, Rule4(hostFiles, ckpt), remoteModifiedFiles, i);
      if hostFile.None? || hostFile.value.updatedAt < ckpt {
        m := Put(m, remoteModifiedFile.path, SyncAction(hostFile, Some(remoteModifiedFile), Pull));
      } else if hostFile.value.updatedAt > ckpt {
        m := Put(m, remoteModifiedFile.path, SyncAction(hostFile, Some(remoteModifiedFile), Conflict));
      }
    }
    assert remoteModifiedFiles[..|remoteModifiedFiles|] == remoteModifiedFiles;
  }

  /**
   * `createSyncAction(hostFiles, remoteFiles)` with `ckpt` for `this.last_synced_at`:
   * the four loops in turn on one map, then its values in insertion order.
   */
  method CreateSyncAction(hostFiles: seq<FileMetadata>, remoteFiles: seq<FileMetadata>, ckpt: int)
    returns (actions: seq<SyncAction>)
    ensures actions == Classify(hostFiles, remoteFiles, ckpt)
  {
    var objMap: OMap<SyncAction> := [];
    var remoteDeletedFiles := Filter(IsDeleted, remoteFiles);
    objMap := ApplyRemoteDeletions(objMap, hostFiles, remoteDeletedFiles);
    var hostDeletedFiles := Filter(IsDeleted, hostFiles);
    objMap := ApplyHostDeletions(objMap, remoteFiles, hostDeletedFiles);
    var hostModifiedFiles := Filter(Modified(ckpt), hostFiles);
    objMap := ApplyHostModifications(objMap, remoteFiles, ckpt, hostModifiedFiles);
    var remoteModifiedFiles := Filter(Modified(ckpt), remoteFiles);
    objMap := ApplyRemoteModifications(objMap, hostFiles, ckpt, remoteModifiedFiles);

    var a := Sets(Rule1(hostFiles), remoteDeletedFiles);
    var b := Sets(Rule2(remoteFiles), hostDeletedFiles);
    var c := Sets(Rule3(remoteFiles, ckpt), hostModifiedFiles);
    var d := Sets(Rule4(hostFiles, ckpt), remoteModifiedFiles);
    PutAllAppend([], a, b);
    PutAllAppend([], a + b, c);
    PutAllAppend([], a + b + c, d);
    actions := Values(objMap);
  }

  // ---------------------------------------------------------------------
  // What the plan is: a lookup law, the key order, one action per path
  // ---------------------------------------------------------------------

  ghost predicate SelfKeyed(kvs: seq<(string, SyncAction)>) {
    forall i :: 0 <= i < |kvs| ==> kvs[i].0 == ActionPath(kvs[i].1) && Shaped(kvs[i].1)
  }

  lemma {:induction false} SetsSelfKeyed(rule: Rule, files: seq<FileMetadata>)
    requires KeyedByPath(rule)
    ensures SelfKeyed(Sets(rule, files))
    decreases |files|
  {
    if files != [] {
      SetsSelfKeyed(rule, files[..|files| - 1]);
    }
  }

  lemma SelfKeyedAppend(a: seq<(string, SyncAction)>, b: seq<(string, SyncAction)>)
    requires SelfKeyed(a) && SelfKeyed(b)
    ensures SelfKeyed(a + b)
  {
    forall i | 0 <= i < |a + b|
      ensures (a + b)[i].0 == ActionPath((a + b)[i].1) && Shaped((a + b)[i].1)
    {
      if i < |a| {
        assert (a + b)[i] == a[i];
      } else {
        assert (a + b)[i] == b[i - |a|];
      }
    }
  }

  lemma AllSetsSelfKeyed(hostFiles: seq<FileMetadata>, remoteFiles: seq<FileMetadata>, ckpt: int)
    ensures SelfKeyed(AllSets(hostFiles, remoteFiles, ckpt))
  {
    var s1 := Sets(Rule1(hostFiles), Filter(IsDeleted, remoteFiles));
    var s2 := Sets(Rule2(remoteFiles), Filter(IsDeleted, hostFiles));
    var s3 := Sets(Rule3(remoteFiles, ckpt), Filter(Modified(ckpt), hostFiles));
    var s4 := Sets(Rule4(hostFiles, ckpt), Filter(Modified(ckpt), remoteFiles));
    RemoteDeletionKeyed(hostFiles);
    HostDeletionKeyed(remoteFiles);
    HostModificationKeyed(remoteFiles, ckpt);
    RemoteModificationKeyed(hostFiles, ckpt);
    SetsSelfKeyed(Rule1(hostFiles), Filter(IsDeleted, remoteFiles));
    SetsSelfKeyed(Rule2(remoteFiles), Filter(IsDeleted, hostFiles));
    SetsSelfKeyed(Rule3(remoteFiles, ckpt), Filter(Modified(ckpt), hostFiles));
    SetsSelfKeyed(Rule4(hostFiles, ckpt), Filter(Modified(ckpt), remoteFiles));
    SelfKeyedAppend(s1, s2);
    SelfKeyedAppend(s1 + s2, s3);
    SelfKeyedAppend(s1 + s2 + s3, s4);
  }

  /** Each path's planned action is the one set last for it, by whichever rule came last. */
  lemma PlanLookup(hostFiles: seq<FileMetadata>, remoteFiles: seq<FileMetadata>, ckpt: int, p: string)
    ensures Get(Plan(hostFiles, remoteFiles, ckpt), p) == LastValue(AllSets(hostFiles, remoteFiles, ckpt), p)
  {
    PutAllGet([], AllSets(hostFiles, remoteFiles, ckpt), p);
  }

  /** Paths are planned once each, in the order some rule first set them. */
  lemma PlanOrder(hostFiles: seq<FileMetadata>, remoteFiles: seq<FileMetadata>, ckpt: int)
    ensures UniqueKeys(Plan(hostFiles, remoteFiles, ckpt))
    ensures Keys(Plan(hostFiles, remoteFiles, ckpt)) == Dedup(Firsts(AllSets(hostFiles, remoteFiles, ckpt)))
  {
    var kvs := AllSets(hostFiles, remoteFiles, ckpt);
    PutAllUnique([], kvs);
    PutAllKeys([], kvs);
    assert Keys<SyncAction>([]) + Firsts(kvs) == Firsts(kvs);
  }

  /**
   * The returned actions are about distinct paths, come in the plan's key
   * order, are all shaped, and cover exactly the paths some rule set.
   */
  lemma {:induction false} ClassifyOnePerPath(hostFiles: seq<FileMetadata>, remoteFiles: seq<FileMetadata>, ckpt: int)
    ensures var c := Classify(hostFiles, remoteFiles, ckpt);
      |c| == |Plan(hostFiles, remoteFiles, ckpt)|
      && (forall i :: 0 <= i < |c| ==> ActionPath(c[i]) == Keys(Plan(hostFiles, remoteFiles, ckpt))[i] && Shaped(c[i]))
      && (forall i, j :: 0 <= i < j < |c| ==> ActionPath(c[i]) != ActionPath(c[j]))
      && (forall p :: p in Keys(Plan(hostFiles, remoteFiles, ckpt)) <==> p in Firsts(AllSets(hostFiles, remoteFiles, ckpt)))
  {
    var m := Plan(hostFiles, remoteFiles, ckpt);
    PlanOrder(hostFiles, remoteFiles, ckpt);
    PlanEntriesSelfKeyed(hostFiles, remoteFiles, ckpt);
    SelfKeyedValues(m);
  }

  /** Every planned entry is keyed by its own action's path, and every action is shaped. */
  lemma PlanEntriesSelfKeyed(hostFiles: seq<FileMetadata>, remoteFiles: seq<FileMetadata>, ckpt: int)
    ensures var m := Plan(hostFiles, remoteFiles, ckpt);
      forall i :: 0 <= i < |m| ==> m[i].0 == ActionPath(m[i].1) && Shaped(m[i].1)
  {
    var m := Plan(hostFiles, remoteFiles, ckpt);
    PlanOrder(hostFiles, remoteFiles, ckpt);
    AllSetsSelfKeyed(hostFiles, remoteFiles, ckpt);
    forall i | 0 <= i < |m|
      ensures m[i].0 == ActionPath(m[i].1) && Shaped(m[i].1)
    {
      GetUnique(m, m[i].0);
      PlanLookup(hostFiles, remoteFiles, ckpt, m[i].0);
    }
  }

  /** The values of a map keyed by their own paths carry those paths, in key order. */
  lemma SelfKeyedValues(m: OMap<SyncAction>)
    requires UniqueKeys(m)
    requires forall i :: 0 <= i < |m| ==> m[i].0 == ActionPath(m[i].1) && Shaped(m[i].1)
    ensures var c := Values(m);
      |c| == |m|
      && (forall i :: 0 <= i < |c| ==> ActionPath(c[i]) == Keys(m)[i] && Shaped(c[i]))
      && (forall i, j :: 0 <= i < j < |c| ==> ActionPath(c[i]) != ActionPath(c[j]))
  {
    var c := Values(m);
    forall i, j | 0 <= i < j < |c| ensures ActionPath(c[i]) != ActionPath(c[j]) {
      assert Keys(m)[i] == m[i].0 && Keys(m)[j] == m[j].0;
    }
  }

  // ---------------------------------------------------------------------
  // The decision table for one path
  // ---------------------------------------------------------------------

  /**
   * The reference description of what the plan holds for a path whose host
   * entry is `h` and remote entry is `r`: the rules are tried from the last
   * back to the first, and the first that sets something decides.
   */
  function Decide(h: Option<FileMetadata>, r: Option<FileMetadata>, ckpt: int): Option<SyncAction> {
    if r.Some? && !r.value.deleted && r.value.updatedAt > ckpt && !(h.Some? && h.value.updatedAt == ckpt) then
      // rule 4: the remote side changed
      Some(SyncAction(h, r, if h.None? || h.value.updatedAt < ckpt then Pull else Conflict))
    else if h.Some? && !h.value.deleted && h.value.updatedAt > ckpt && !(r.Some? && r.value.updatedAt == ckpt) then
      // rule 3: the host side changed
      Some(SyncAction(h, r, if r.None? || r.value.updatedAt < ckpt then Push else Conflict))
    else if h.Some? && h.value.deleted && !(r.Some? && r.value.deleted) then
      // rule 2: the host side is a tombstone and the remote side is not
      Some(SyncAction(h, r, if r.None? then Prune else if r.value.createdAt < h.value.deletedAt then Remove else Pull))
    else if h.Some? && r.Some? && r.value.deleted then
      // rule 1: the remote side is a tombstone and the host has the path
      Some(SyncAction(h, r, if h.value.deleted then Prune else if h.value.createdAt < r.value.deletedAt then Remove else Push))
    else
      None
  }

  function ActionOf(o: Option<(string, SyncAction)>): Option<SyncAction> {
    if o.Some? then Some(o.value.1) else None
  }

  lemma {:induction false} CountFilter(pred: FileMetadata -> bool, files: seq<FileMetadata>, p: string)
    ensures Count(Filter(pred, files), p) <= Count(files, p)
    decreases |files|
  {
    if files != [] {
      var n := |files| - 1;
      var init := Filter(pred, files[..n]);
      CountFilter(pred, files[..n], p);
      if pred(files[n]) {
        assert (init + [files[n]])[..|init|] == init;
      }
    }
  }

  /** Filtering a listing that holds a path at most once keeps that entry exactly when it passes. */
  lemma GetFileFilter(pred: FileMetadata -> bool, files: seq<FileMetadata>, p: string)
    requires Count(files, p) <= 1
    ensures GetFile(Filter(pred, files), p) ==
      match GetFile(files, p) case None => None case Some(x) => if pred(x) then Some(x) else None
  {
    var f := Filter(pred, files);
    CountFilter(pred, files, p);
    var g := GetFile(files, p);
    if g.Some? {
      if pred(g.value) {
        OnlyEntry(f, p, g.value);
      } else if GetFile(f, p).Some? {
        OnlyEntry(files, p, GetFile(f, p).value);
      }
    }
  }

  /** Over a listing that holds a path at most once, a loop sets that path only from that entry. */
  lemma {:induction false} LastValueSets(rule: Rule, files: seq<FileMetadata>, p: string)
    requires KeyedByPath(rule) && Count(files, p) <= 1
    ensures LastValue(Sets(rule, files), p) ==
      match GetFile(files, p) case None => None case Some(x) => ActionOf(rule(x))
    decreases |files|
  {
    if files != [] {
      var n := |files| - 1;
      var init := files[..n];
      assert files == init + [files[n]];
      GetFileSnoc(init, files[n], p);
      LastValueSets(rule, init, p);
      var si := Sets(rule, init);
      match rule(files[n])
      case None =>
      case Some(kv) =>
        assert (si + [kv])[..|si + [kv]| - 1] == si;
    }
  }

  /** One loop, run over a filtered listing, seen from one path. */
  lemma LoopDecides(rule: Rule, pred: FileMetadata -> bool, files: seq<FileMetadata>, p: string)
    requires KeyedByPath(rule) && Count(files, p) <= 1
    ensures LastValue(Sets(rule, Filter(pred, files)), p) ==
      match GetFile(files, p) case None => None case Some(x) => if pred(x) then ActionOf(rule(x)) else None
  {
    CountFilter(pred, files, p);
    GetFileFilter(pred, files, p);
    LastValueSets(rule, Filter(pred, files), p);
  }

  /** Rule 1 seen from path `p`: the host's entry, fetched again, decides. */
  lemma RemoteDeletionsAt(hostFiles: seq<FileMetadata>, remoteFiles: seq<FileMetadata>, p: string)
    requires Count(remoteFiles, p) <= 1
    ensures var h, r := GetFile(hostFiles, p), GetFile(remoteFiles, p);
      LastValue(Sets(Rule1(hostFiles), Filter(IsDeleted, remoteFiles)), p) ==
      if h.Some? && r.Some? && r.value.deleted then
        Some(SyncAction(h, r, if h.value.deleted then Prune else if h.value.createdAt < r.value.deletedAt then Remove else Push))
      else None
  {
    RemoteDeletionKeyed(hostFiles);
    LoopDecides(Rule1(hostFiles), IsDeleted, remoteFiles, p);
    var r := GetFile(remoteFiles, p);
    if r.Some? {
      assert Rule1(hostFiles)(r.value) == RemoteDeletion(hostFiles, r.value);
    }
  }

  lemma HostDeletionsAt(hostFiles: seq<FileMetadata>, remoteFiles: seq<FileMetadata>, p: string)
    requires Count(hostFiles, p) <= 1 && Count(remoteFiles, p) <= 1
    ensures var h, r := GetFile(hostFiles, p), GetFile(remoteFiles, p);
      LastValue(Sets(Rule2(remoteFiles), Filter(IsDeleted, hostFiles)), p) ==
      if h.Some? && h.value.deleted && !(r.Some? && r.value.deleted) then
        Some(SyncAction(h, r, if r.None? then Prune else if r.value.createdAt < h.value.deletedAt then Remove else Pull))
      else None
  {
    HostDeletionKeyed(remoteFiles);
    LoopDecides(Rule2(remoteFiles), IsDeleted, hostFiles, p);
    var h := GetFile(hostFiles, p);
    if h.Some? {
      assert Rule2(remoteFiles)(h.value) == HostDeletion(remoteFiles, h.value);
    }
  }

  lemma HostModificationsAt(hostFiles: seq<FileMetadata>, remoteFiles: seq<FileMetadata>, ckpt: int, p: string)
    requires Count(hostFiles, p) <= 1 && Count(remoteFiles, p) <= 1
    ensures var h, r := GetFile(hostFiles, p), GetFile(remoteFiles, p);
      LastValue(Sets(Rule3(remoteFiles, ckpt), Filter(Modified(ckpt), hostFiles)), p) ==
      if h.Some? && !h.value.deleted && h.value.updatedAt > ckpt && !(r.Some? && r.value.updatedAt == ckpt) then
        Some(SyncAction(h, r, if r.None? || r.value.updatedAt < ckpt then Push else Conflict))
      else None
  {
    HostModificationKeyed(remoteFiles, ckpt);
    LoopDecides(Rule3(remoteFiles, ckpt), Modified(ckpt), hostFiles, p);
    var h := GetFile(hostFiles, p);
    if h.Some? {
      assert Modified(ckpt)(h.value) == IsModified(ckpt, h.value);
      assert Rule3(remoteFiles, ckpt)(h.value) == HostModification(remoteFiles, ckpt, h.value);
    }
  }

  lemma RemoteModificationsAt(hostFiles: seq<FileMetadata>, remoteFiles: seq<FileMetadata>, ckpt: int, p: string)
    requires Count(remoteFiles, p) <= 1
    ensures var h, r := GetFile(hostFiles, p), GetFile(remoteFiles, p);
      LastValue(Sets(Rule4(hostFiles, ckpt), Filter(Modified(ckpt), remoteFiles)), p) ==
      if r.Some? && !r.value.deleted && r.value.updatedAt > ckpt && !(h.Some? && h.value.updatedAt == ckpt) then
        Some(SyncAction(h, r, if h.None? || h.value.updatedAt < ckpt then Pull else Conflict))
      else None
  {
    RemoteModificationKeyed(hostFiles, ckpt);
    LoopDecides(Rule4(hostFiles, ckpt), Modified(ckpt), remoteFiles, p);
    var r := GetFile(remoteFiles, p);
    if r.Some? {
      assert Modified(ckpt)(r.value) == IsModified(ckpt, r.value);
      assert Rule4(hostFiles, ckpt)(r.value) == RemoteModification(hostFiles, ckpt, r.value);
    }
  }

  /**
   * For a path each listing holds at most once, the planned action is the
   * one the decision table gives for the two entries.
   */
  lemma {:induction false} PlanDecides(hostFiles: seq<FileMetadata>, remoteFiles: seq<FileMetadata>, ckpt: int, p: string)
    requires Count(hostFiles, p) <= 1 && Count(remoteFiles, p) <= 1
    ensures Get(Plan(hostFiles, remoteFiles, ckpt), p) == Decide(GetFile(hostFiles, p), GetFile(remoteFiles, p), ckpt)
  {
    var s1 := Sets(Rule1(hostFiles), Filter(IsDeleted, remoteFiles));
    var s2 := Sets(Rule2(remoteFiles), Filter(IsDeleted, hostFiles));
    var s3 := Sets(Rule3(remoteFiles, ckpt), Filter(Modified(ckpt), hostFiles));
    var s4 := Sets(Rule4(hostFiles, ckpt), Filter(Modified(ckpt), remoteFiles));
    RemoteDeletionsAt(hostFiles, remoteFiles, p);
    HostDeletionsAt(hostFiles, remoteFiles, p);
    HostModificationsAt(hostFiles, remoteFiles, ckpt, p);
    RemoteModificationsAt(hostFiles, remoteFiles, ckpt, p);
    PlanLookup(hostFiles, remoteFiles, ckpt, p);
    LastValueAppend(s1 + s2 + s3, s4, p);
    LastValueAppend(s1 + s2, s3, p);
    LastValueAppend(s1, s2, p);
  }

  /**
   * The action for a path the host lists twice, as its listing does when
   * the vault still has a file the tombstone store remembers: rules 1, 3
   * and 4 look the path up and see the live entry `h1`, while rule 2 runs
   * over the tombstone `h2` itself, so its action carries the tombstone.
   * Some rule always sets the path.
   */
  function DecideTwice(h1: FileMetadata, h2: FileMetadata, r: Option<FileMetadata>, ckpt: int): SyncAction {
    if r.Some? && !r.value.deleted && r.value.updatedAt > ckpt && h1.updatedAt != ckpt then
      // rule 4, with the live entry
      SyncAction(Some(h1), r, if h1.updatedAt < ckpt then Pull else Conflict)
    else if h1.updatedAt > ckpt && !(r.Some? && r.value.updatedAt == ckpt) then
      // rule 3, with the live entry
      SyncAction(Some(h1), r, if r.None? || r.value.updatedAt < ckpt then Push else Conflict)
    else if !(r.Some? && r.value.deleted) then
      // rule 2, with the tombstone
      SyncAction(Some(h2), r, if r.None? then Prune else if r.value.createdAt < h2.deletedAt then Remove else Pull)
    else
      // rule 1, with the live entry
      SyncAction(Some(h1), r, if h1.createdAt < r.value.deletedAt then Remove else Push)
  }

  /**
   * A host listing made of live files followed by tombstones, holding path
   * `p` once in each part: the planned action is `DecideTwice` for the live
   * entry, the tombstone and the remote entry.
   */
  lemma {:induction false} LiveAndTombstoneDecide(live: seq<FileMetadata>, tombs: seq<FileMetadata>,
                                                  remoteFiles: seq<FileMetadata>, ckpt: int, h1: FileMetadata, h2: FileMetadata)
    requires forall i :: 0 <= i < |live| ==> !live[i].deleted
    requires forall i :: 0 <= i < |tombs| ==> tombs[i].deleted
    requires Count(live, h1.path) == 1 && h1 in live
    requires Count(tombs, h1.path) == 1 && h2 in tombs && h2.path == h1.path
    requires Count(remoteFiles, h1.path) <= 1
    ensures Get(Plan(live + tombs, remoteFiles, ckpt), h1.path) ==
      Some(DecideTwice(h1, h2, GetFile(remoteFiles, h1.path), ckpt))
  {
    TwiceRuleValues(live, tombs, remoteFiles, ckpt, h1, h2);
    PlanByRules(live + tombs, remoteFiles, ckpt, h1.path);
  }

  /** What each of the four rules sets for a path listed live and as a tombstone. */
  lemma TwiceRuleValues(live: seq<FileMetadata>, tombs: seq<FileMetadata>,
                        remoteFiles: seq<FileMetadata>, ckpt: int, h1: FileMetadata, h2: FileMetadata)
    requires forall i :: 0 <= i < |live| ==> !live[i].deleted
    requires forall i :: 0 <= i < |tombs| ==> tombs[i].deleted
    requires Count(live, h1.path) == 1 && h1 in live
    requires Count(tombs, h1.path) == 1 && h2 in tombs && h2.path == h1.path
    requires Count(remoteFiles, h1.path) <= 1
    ensures var p, hostFiles, r := h1.path, live + tombs, GetFile(remoteFiles, h1.path);
      && LastValue(Sets(Rule1(hostFiles), Filter(IsDeleted, remoteFiles)), p) ==
        (if r.Some? && r.value.deleted then
          Some(SyncAction(Some(h1), r, if h1.createdAt < r.value.deletedAt then Remove else Push)) else None)
      && LastValue(Sets(Rule2(remoteFiles), Filter(IsDeleted, hostFiles)), p) ==
        (if !(r.Some? && r.value.deleted) then
          Some(SyncAction(Some(h2), r, if r.None? then Prune else if r.value.createdAt < h2.deletedAt then Remove else Pull))
        else None)
      && LastValue(Sets(Rule3(remoteFiles, ckpt), Filter(Modified(ckpt), hostFiles)), p) ==
        (if h1.updatedAt > ckpt && !(r.Some? && r.value.updatedAt == ckpt) then
          Some(SyncAction(Some(h1), r, if r.None? || r.value.updatedAt < ckpt then Push else Conflict))
        else None)
      && LastValue(Sets(Rule4(hostFiles, ckpt), Filter(Modified(ckpt), remoteFiles)), p) ==
        (if r.Some? && !r.value.deleted && r.value.updatedAt > ckpt && h1.updatedAt != ckpt then
          Some(SyncAction(Some(h1), r, if h1.updatedAt < ckpt then Pull else Conflict)) else None)
  {
    var p, hostFiles, r := h1.path, live + tombs, GetFile(remoteFiles, h1.path);
    var v1 := LastValue(Sets(Rule1(hostFiles), Filter(IsDeleted, remoteFiles)), p);
    var v2 := LastValue(Sets(Rule2(remoteFiles), Filter(IsDeleted, hostFiles)), p);
    var v3 := LastValue(Sets(Rule3(remoteFiles, ckpt), Filter(Modified(ckpt), hostFiles)), p);
    var v4 := LastValue(Sets(Rule4(hostFiles, ckpt), Filter(Modified(ckpt), remoteFiles)), p);
    assert GetFile(hostFiles, p) == Some(h1) by {
      OnlyEntry(live, p, h1);
      GetFileAppend(live, tombs, p);
    }
    assert v1 == if r.Some? && r.value.deleted then
        Some(SyncAction(Some(h1), r, if h1.createdAt < r.value.deletedAt then Remove else Push)) else None by {
      RemoteDeletionsAt(hostFiles, remoteFiles, p);
    }
    assert v2 == if !(r.Some? && r.value.deleted) then
        Some(SyncAction(Some(h2), r, if r.None? then Prune else if r.value.createdAt < h2.deletedAt then Remove else Pull))
      else None by {
      TombstoneDeletionsAt(live, tombs, remoteFiles, h2);
    }
    assert v3 == if h1.updatedAt > ckpt && !(r.Some? && r.value.updatedAt == ckpt) then
        Some(SyncAction(Some(h1), r, if r.None? || r.value.updatedAt < ckpt then Push else Conflict))
      else None by {
      LiveModificationsAt(live, tombs, remoteFiles, ckpt, h1);
    }
    assert v4 == if r.Some? && !r.value.deleted && r.value.updatedAt > ckpt && h1.updatedAt != ckpt then
        Some(SyncAction(Some(h1), r, if h1.updatedAt < ckpt then Pull else Conflict)) else None by {
      RemoteModificationsAt(hostFiles, remoteFiles, ckpt, p);
    }
  }

  /** The planned action for a path is the one of the last rule that sets it. */
  lemma PlanByRules(hostFiles: seq<FileMetadata>, remoteFiles: seq<FileMetadata>, ckpt: int, p: string)
    ensures var v1 := LastValue(Sets(Rule1(hostFiles), Filter(IsDeleted, remoteFiles)), p);
      var v2 := LastValue(Sets(Rule2(remoteFiles), Filter(IsDeleted, hostFiles)), p);
      var v3 := LastValue(Sets(Rule3(remoteFiles, ckpt), Filter(Modified(ckpt), hostFiles)), p);
      var v4 := LastValue(Sets(Rule4(hostFiles, ckpt), Filter(Modified(ckpt), remoteFiles)), p);
      Get(Plan(hostFiles, remoteFiles, ckpt), p) ==
        if v4.Some? then v4 else if v3.Some? then v3 else if v2.Some? then v2 else v1
  {
    var s1 := Sets(Rule1(hostFiles), Filter(IsDeleted, remoteFiles));
    var s2 := Sets(Rule2(remoteFiles), Filter(IsDeleted, hostFiles));
    var s3 := Sets(Rule3(remoteFiles, ckpt), Filter(Modified(ckpt), hostFiles));
    var s4 := Sets(Rule4(hostFiles, ckpt), Filter(Modified(ckpt), remoteFiles));
    PlanLookup(hostFiles, remoteFiles, ckpt, p);
    LastValueAppend(s1 + s2 + s3, s4, p);
    LastValueAppend(s1 + s2, s3, p);
    LastValueAppend(s1, s2, p);
  }

  /** Rule 2 over a live-then-tombstones listing runs over the tombstones only. */
  lemma TombstoneDeletionsAt(live: seq<FileMetadata>, tombs: seq<FileMetadata>, remoteFiles: seq<FileMetadata>, h2: FileMetadata)
    requires forall i :: 0 <= i < |live| ==> !live[i].deleted
    requires forall i :: 0 <= i < |tombs| ==> tombs[i].deleted
    requires Count(tombs, h2.path) == 1 && h2 in tombs
    requires Count(remoteFiles, h2.path) <= 1
    ensures var r := GetFile(remoteFiles, h2.path);
      LastValue(Sets(Rule2(remoteFiles), Filter(IsDeleted, live + tombs)), h2.path) ==
      if !(r.Some? && r.value.deleted) then
        Some(SyncAction(Some(h2), r, if r.None? then Prune else if r.value.createdAt < h2.deletedAt then Remove else Pull))
      else None
  {
    OnlyEntry(tombs, h2.path, h2);
    FilterAppend(IsDeleted, live, tombs);
    FilterNoneOf(IsDeleted, live);
    FilterAllOf(IsDeleted, tombs);
    assert Filter(IsDeleted, live + tombs) == tombs by {
      assert [] + tombs == tombs;
    }
    HostDeletionsAt(tombs, remoteFiles, h2.path);
  }

  /** Rule 3 over a live-then-tombstones listing runs over the live files only. */
  lemma LiveModificationsAt(live: seq<FileMetadata>, tombs: seq<FileMetadata>, remoteFiles: seq<FileMetadata>, ckpt: int, h1: FileMetadata)
    requires forall i :: 0 <= i < |tombs| ==> tombs[i].deleted
    requires Count(live, h1.path) == 1 && h1 in live && !h1.deleted
    requires Count(remoteFiles, h1.path) <= 1
    ensures var r := GetFile(remoteFiles, h1.path);
      LastValue(Sets(Rule3(remoteFiles, ckpt), Filter(Modified(ckpt), live + tombs)), h1.path) ==
      if h1.updatedAt > ckpt && !(r.Some? && r.value.updatedAt == ckpt) then
        Some(SyncAction(Some(h1), r, if r.None? || r.value.updatedAt < ckpt then Push else Conflict))
      else None
  {
    OnlyEntry(live, h1.path, h1);
    FilterAppend(Modified(ckpt), live, tombs);
    FilterNoneOf(Modified(ckpt), tombs);
    var m := Filter(Modified(ckpt), live);
    assert Filter(Modified(ckpt), live + tombs) == m by {
      assert m + [] == m;
    }
    HostModificationsAt(live, remoteFiles, ckpt, h1.path);
  }

  lemma {:induction false} GetFileAppend(a: seq<FileMetadata>, b: seq<FileMetadata>, p: string)
    requires GetFile(a, p).Some?
    ensures GetFile(a + b, p) == GetFile(a, p)
    decreases |a|
  {
    if a[0].path != p {
      assert (a + b)[1..] == a[1..] + b;
      GetFileAppend(a[1..], b, p);
    }
  }

  lemma {:induction false} FilterNoneOf(pred: FileMetadata -> bool, files: seq<FileMetadata>)
    requires forall i :: 0 <= i < |files| ==> !pred(files[i])
    ensures Filter(pred, files) == []
    decreases |files|
  {
    if files != [] {
      FilterNoneOf(pred, files[..|files| - 1]);
    }
  }

  lemma {:induction false} FilterAllOf(pred: FileMetadata -> bool, files: seq<FileMetadata>)
    requires forall i :: 0 <= i < |files| ==> pred(files[i])
    ensures Filter(pred, files) == files
    decreases |files|
  {
    if files != [] {
      FilterAllOf(pred, files[..|files| - 1]);
      assert files == files[..|files| - 1] + [files[|files| - 1]];
    }
  }

  /**
   * A file the vault still holds, unchanged since the checkpoint, that the
   * tombstone store also remembers as deleted: when the server's live copy
   * is older than the tombstone and unchanged too, rule 2 plans to remove
   * it with the tombstone as the host entry, although the live entry alone
   * would have planned nothing.
   */
  lemma RememberedDeletionOfLiveFile(live: seq<FileMetadata>, tombs: seq<FileMetadata>,
                                     remoteFiles: seq<FileMetadata>, ckpt: int, h1: FileMetadata, h2: FileMetadata, r: FileMetadata)
    requires forall i :: 0 <= i < |live| ==> !live[i].deleted
    requires forall i :: 0 <= i < |tombs| ==> tombs[i].deleted
    requires Count(live, h1.path) == 1 && h1 in live && h1.updatedAt < ckpt
    requires Count(tombs, h1.path) == 1 && h2 in tombs && h2.path == h1.path
    requires Count(remoteFiles, h1.path) <= 1 && r in remoteFiles && r.path == h1.path
    requires !r.deleted && r.updatedAt <= ckpt && r.createdAt < h2.deletedAt
    ensures Get(Plan(live + tombs, remoteFiles, ckpt), h1.path) == Some(SyncAction(Some(h2), Some(r), Remove))
    ensures Decide(Some(h1), Some(r), ckpt) == None
  {
    assert !h1.deleted;
    OnlyEntry(remoteFiles, h1.path, r);
    LiveAndTombstoneDecide(live, tombs, remoteFiles, ckpt, h1, h2);
    TombstoneRemovesOlderCopy(h1, h2, r, ckpt);
  }

  lemma TombstoneRemovesOlderCopy(h1: FileMetadata, h2: FileMetadata, r: FileMetadata, ckpt: int)
    requires !h1.deleted && h1.updatedAt < ckpt
    requires !r.deleted && r.updatedAt <= ckpt && r.createdAt < h2.deletedAt
    ensures DecideTwice(h1, h2, Some(r), ckpt) == SyncAction(Some(h2), Some(r), Remove)
    ensures Decide(Some(h1), Some(r), ckpt) == None
  {
  }

  // ---------------------------------------------------------------------
  // Consequences for single paths
  // ---------------------------------------------------------------------

  /** Two tombstones: the remote-tombstone rule prunes, and the host-tombstone rule sets nothing after it. */
  lemma BothTombstonesPrune(hostFiles: seq<FileMetadata>, remoteFiles: seq<FileMetadata>, ckpt: int,
                            h: FileMetadata, r: FileMetadata)
    requires Count(hostFiles, h.path) <= 1 && h in hostFiles && h.deleted
    requires Count(remoteFiles, h.path) <= 1 && r in remoteFiles && r.path == h.path && r.deleted
    ensures Get(Plan(hostFiles, remoteFiles, ckpt), h.path) == Some(SyncAction(Some(h), Some(r), Prune))
    ensures HostDeletion(remoteFiles, h) == None
  {
    OnlyEntry(hostFiles, h.path, h);
    OnlyEntry(remoteFiles, h.path, r);
    PlanDecides(hostFiles, remoteFiles, ckpt, h.path);
  }

  /** A remote tombstone the host never had gets no action: nothing ever prunes the remote. */
  lemma LoneRemoteTombstoneIgnored(hostFiles: seq<FileMetadata>, remoteFiles: seq<FileMetadata>, ckpt: int, r: FileMetadata)
    requires Count(hostFiles, r.path) == 0
    requires Count(remoteFiles, r.path) <= 1 && r in remoteFiles && r.deleted
    ensures Get(Plan(hostFiles, remoteFiles, ckpt), r.path) == None
  {
    OnlyEntry(remoteFiles, r.path, r);
    PlanDecides(hostFiles, remoteFiles, ckpt, r.path);
  }

  /** A host tombstone the server never had is pruned from the host. */
  lemma LoneHostTombstonePruned(hostFiles: seq<FileMetadata>, remoteFiles: seq<FileMetadata>, ckpt: int, h: FileMetadata)
    requires Count(hostFiles, h.path) <= 1 && h in hostFiles && h.deleted
    requires Count(remoteFiles, h.path) == 0
    ensures Get(Plan(hostFiles, remoteFiles, ckpt), h.path) == Some(SyncAction(Some(h), None, Prune))
  {
    OnlyEntry(hostFiles, h.path, h);
    PlanDecides(hostFiles, remoteFiles, ckpt, h.path);
  }

  /** A host file changed since the checkpoint and unknown to the server is pushed. */
  lemma NewHostFilePushed(hostFiles: seq<FileMetadata>, remoteFiles: seq<FileMetadata>, ckpt: int, h: FileMetadata)
    requires Count(hostFiles, h.path) <= 1 && h in hostFiles && !h.deleted && h.updatedAt > ckpt
    requires Count(remoteFiles, h.path) == 0
    ensures Get(Plan(hostFiles, remoteFiles, ckpt), h.path) == Some(SyncAction(Some(h), None, Push))
  {
    OnlyEntry(hostFiles, h.path, h);
    assert GetFile(remoteFiles, h.path) == None;
    PlanDecides(hostFiles, remoteFiles, ckpt, h.path);
  }

  /** A remote file changed since the checkpoint over a host copy older than it is pulled. */
  lemma StaleHostCopyPulled(hostFiles: seq<FileMetadata>, remoteFiles: seq<FileMetadata>, ckpt: int,
                            h: FileMetadata, r: FileMetadata)
    requires Count(hostFiles, r.path) <= 1 && h in hostFiles && h.path == r.path && h.updatedAt < ckpt
    requires Count(remoteFiles, r.path) <= 1 && r in remoteFiles && !r.deleted && r.updatedAt > ckpt
    ensures Get(Plan(hostFiles, remoteFiles, ckpt), r.path) == Some(SyncAction(Some(h), Some(r), Pull))
  {
    OnlyEntry(hostFiles, r.path, h);
    OnlyEntry(remoteFiles, r.path, r);
    PlanDecides(hostFiles, remoteFiles, ckpt, r.path);
  }

  /** Both sides changed since the checkpoint: a conflict, never a push and a pull. */
  lemma BothChangedConflict(hostFiles: seq<FileMetadata>, remoteFiles: seq<FileMetadata>, ckpt: int,
                            h: FileMetadata, r: FileMetadata)
    requires Count(hostFiles, h.path) <= 1 && h in hostFiles && !h.deleted && h.updatedAt > ckpt
    requires Count(remoteFiles, h.path) <= 1 && r in remoteFiles && r.path == h.path && !r.deleted && r.updatedAt > ckpt
    ensures Get(Plan(hostFiles, remoteFiles, ckpt), h.path) == Some(SyncAction(Some(h), Some(r), Conflict))
  {
    OnlyEntry(hostFiles, h.path, h);
    OnlyEntry(remoteFiles, h.path, r);
    PlanDecides(hostFiles, remoteFiles, ckpt, h.path);
  }

  /**
   * A stamp equal to the checkpoint makes the modified rules set nothing, so
   * the remote-tombstone rule's earlier action stays.
   */
  lemma EqualStampKeepsEarlier(hostFiles: seq<FileMetadata>, remoteFiles: seq<FileMetadata>, ckpt: int,
                               h: FileMetadata, r: FileMetadata)
    requires Count(hostFiles, h.path) <= 1 && h in hostFiles && !h.deleted && h.updatedAt > ckpt
    requires Count(remoteFiles, h.path) <= 1 && r in remoteFiles && r.path == h.path && r.deleted && r.updatedAt == ckpt
    ensures HostModification(remoteFiles, ckpt, h) == None
    ensures Get(Plan(hostFiles, remoteFiles, ckpt), h.path) ==
      Some(SyncAction(Some(h), Some(r), if h.createdAt < r.deletedAt then Remove else Push))
  {
    OnlyEntry(hostFiles, h.path, h);
    OnlyEntry(remoteFiles, h.path, r);
    PlanDecides(hostFiles, remoteFiles, ckpt, h.path);
  }

  /**
   * The remote-modified rule does not look at the host side's `deleted`
   * flag: a host tombstone whose stamp is past the checkpoint is planned as
   * a conflict with the remote file.
   */
  lemma HostTombstoneInConflict(hostFiles: seq<FileMetadata>, remoteFiles: seq<FileMetadata>, ckpt: int,
                                h: FileMetadata, r: FileMetadata)
    requires Count(hostFiles, h.path) <= 1 && h in hostFiles && h.deleted && h.updatedAt > ckpt
    requires Count(remoteFiles, h.path) <= 1 && r in remoteFiles && r.path == h.path && !r.deleted && r.updatedAt > ckpt
    ensures Get(Plan(hostFiles, remoteFiles, ckpt), h.path) == Some(SyncAction(Some(h), Some(r), Conflict))
  {
    OnlyEntry(hostFiles, h.path, h);
    OnlyEntry(remoteFiles, h.path, r);
    PlanDecides(hostFiles, remoteFiles, ckpt, h.path);
  }

  /** Likewise the host-modified rule conflicts with a remote tombstone stamped past the checkpoint. */
  lemma RemoteTombstoneInConflict(hostFiles: seq<FileMetadata>, remoteFiles: seq<FileMetadata>, ckpt: int,
                                  h: FileMetadata, r: FileMetadata)
    requires Count(hostFiles, h.path) <= 1 && h in hostFiles && !h.deleted && h.updatedAt > ckpt
    requires Count(remoteFiles, h.path) <= 1 && r in remoteFiles && r.path == h.path && r.deleted && r.updatedAt > ckpt
    ensures Get(Plan(hostFiles, remoteFiles, ckpt), h.path) == Some(SyncAction(Some(h), Some(r), Conflict))
  {
    OnlyEntry(hostFiles, h.path, h);
    OnlyEntry(remoteFiles, h.path, r);
    PlanDecides(hostFiles, remoteFiles, ckpt, h.path);
  }
}
