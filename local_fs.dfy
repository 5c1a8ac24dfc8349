/**
 * The host replica (packages/paintress-sync-plugin/src/fs.local.ts): the
 * Obsidian vault seen as an insertion-ordered map from path to file or
 * folder, together with the local and system trash and the tombstone store.
 */
module LocalFs {
  import opened Wrappers
  import opened OrderedMap
  import opened Fs
  import Text
  import opened LocalHistory
  import opened Settings

  /** A vault entry: a file with its stamps and bytes, or a folder. */
  datatype Node = FileNode(mtime: int, ctime: int, data: Bytes) | FolderNode

  /** `deleteToWhere`: Obsidian's `.trash` folder or the system trash. */
  datatype TrashTarget = ObsidianTrash | SystemTrash

  /** `minimatch(path, pattern, { dot: true })`: a verdict, or `None` when the pattern makes it throw. */
  type Matcher = (string, string) -> Option<bool>

  /** The vault with both trash cans, as one value. */
  datatype Disk = Disk(entries: OMap<Node>, localTrash: seq<string>, systemTrash: seq<string>)

  // ----- paths -----

  /** `path.substring(0, path.lastIndexOf('/'))`: empty when there is no `/`. */
  function ParentDir(path: string): (dir: string)
    ensures '/' !in path ==> dir == ""
  {
    var i := Text.LastIndexOf(path, '/');
    if i < 0 then "" else path[..i]
  }

  /** A path with a `/` is its parent directory, a `/`, and a final name without `/`. */
  lemma ParentDirSplits(path: string)
    requires '/' in path
    ensures var dir := ParentDir(path);
      |dir| < |path| && path[|dir|] == '/' && path == dir + ['/'] + path[|dir| + 1..]
      && '/' !in path[|dir| + 1..]
  {
    var i := Text.LastIndexOf(path, '/');
    assert path == path[..i] + [path[i]] + path[i + 1..];
  }

  /** `parts.filter(part => part.length > 0)`. */
  function NonEmpty(parts: seq<string>): (r: seq<string>)
    ensures forall i :: 0 <= i < |r| ==> r[i] != [] && r[i] in parts
    ensures forall x :: x in parts && x != [] ==> x in r
    decreases |parts|
  {
    if parts == [] then []
    else if parts[0] == [] then NonEmpty(parts[1..])
    else [parts[0]] + NonEmpty(parts[1..])
  }

  /** Filtering distributes over concatenation: the kept segments keep their order and multiplicity. */
  lemma {:induction false} NonEmptyAppend(a: seq<string>, b: seq<string>)
    ensures NonEmpty(a + b) == NonEmpty(a) + NonEmpty(b)
    decreases |a|
  {
    if a == [] {
      assert a + b == b;
    } else {
      assert (a + b)[1..] == a[1..] + b;
      NonEmptyAppend(a[1..], b);
    }
  }

  /** One segment is kept exactly when it is not empty. */
  lemma NonEmptySingle(x: string)
    ensures NonEmpty([x]) == if x == [] then [] else [x]
  {
    assert [x][1..] == [];
  }

  /** Segments that are all non-empty are kept as they are. */
  lemma {:induction false} NonEmptyKeepsAll(parts: seq<string>)
    requires forall i :: 0 <= i < |parts| ==> parts[i] != []
    ensures NonEmpty(parts) == parts
    decreases |parts|
  {
    if parts != [] {
      NonEmptyKeepsAll(parts[1..]);
    }
  }

  /** The length of the pieces, one separator counted after each. */
  function Weight(parts: seq<string>): nat
    decreases |parts|
  {
    if parts == [] then 0 else |parts[0]| + 1 + Weight(parts[1..])
  }

  lemma {:induction false} JoinWeight(parts: seq<string>, sep: char)
    requires |parts| >= 1
    ensures |Text.Join(parts, sep)| + 1 == Weight(parts)
    decreases |parts|
  {
    if |parts| > 1 {
      JoinWeight(parts[1..], sep);
    }
  }

  lemma {:induction false} NonEmptyWeight(parts: seq<string>)
    ensures Weight(NonEmpty(parts)) <= Weight(parts)
    decreases |parts|
  {
    if parts != [] {
      NonEmptyWeight(parts[1..]);
      if parts[0] != [] {
        assert ([parts[0]] + NonEmpty(parts[1..]))[1..] == NonEmpty(parts[1..]);
      }
    }
  }

  lemma {:induction false} WeightTake(parts: seq<string>, k: nat)
    requires k <= |parts|
    ensures Weight(parts[..k]) <= Weight(parts)
    decreases |parts|
  {
    if k > 0 {
      assert parts[..k][1..] == parts[1..][..k - 1];
      WeightTake(parts[1..], k - 1);
    }
  }

  /** The non-empty `/`-separated segments of a folder path. */
  function PathParts(dir: string): seq<string> {
    NonEmpty(Text.Split(dir, '/'))
  }

  /** The cumulative prefixes `a`, `a/b`, `a/b/c`, ... of a list of segments, shortest first. */
  function Prefixes(parts: seq<string>): (r: seq<string>)
    ensures |r| == |parts|
  {
    seq(|parts|, k requires 0 <= k < |parts| => Text.Join(parts[..k + 1], '/'))
  }

  // ----- folder creation -----

  /** Visit `prefixes` in order, creating a folder for each that names nothing yet. */
  function CreateMissing(entries: OMap<Node>, prefixes: seq<string>): OMap<Node>
    decreases |prefixes|
  {
    if prefixes == [] then entries
    else
      var before := CreateMissing(entries, prefixes[..|prefixes| - 1]);
      var p := prefixes[|prefixes| - 1];
      if Get(before, p).None? then Put(before, p, FolderNode) else before
  }

  /**
   * After `mkdirpInVault` every prefix names an entry, whatever existed
   * stays as it was, and each new entry is a folder for one of the prefixes.
   */
  lemma {:induction false} CreateMissingSpec(entries: OMap<Node>, prefixes: seq<string>)
    requires UniqueKeys(entries)
    ensures UniqueKeys(CreateMissing(entries, prefixes))
    ensures forall p :: p in prefixes ==> Get(CreateMissing(entries, prefixes), p).Some?
    ensures forall k :: Get(entries, k).Some? ==> Get(CreateMissing(entries, prefixes), k) == Get(entries, k)
    ensures forall k :: Get(entries, k).None? && Get(CreateMissing(entries, prefixes), k).Some? ==>
      k in prefixes && Get(CreateMissing(entries, prefixes), k) == Some(FolderNode)
    decreases |prefixes|
  {
    if prefixes != [] {
      var init := prefixes[..|prefixes| - 1];
      CreateMissingSpec(entries, init);
      assert prefixes == init + [prefixes[|prefixes| - 1]];
    }
  }

  /** Each prefix extends the one before it by a `/` and the next segment; none is empty. */
  lemma PrefixStep(parts: seq<string>, i: nat)
    requires i < |parts|
    requires forall j :: 0 <= j < |parts| ==> parts[j] != []
    ensures i == 0 ==> Prefixes(parts)[i] == parts[0]
    ensures i > 0 ==> Prefixes(parts)[i - 1] != [] && Prefixes(parts)[i] == Prefixes(parts)[i - 1] + "/" + parts[i]
  {
    if i > 0 {
      Text.JoinSnoc(parts[..i], parts[i], '/');
      assert parts[..i + 1] == parts[..i] + [parts[i]];
      var ps := parts[..i];
      assert |Text.Join(ps, '/')| >= |ps[0]|;
    }
  }

  /** The path `mkdirpInVault` builds at step `i` is the `i`-th prefix. */
  lemma NextPrefix(parts: seq<string>, i: nat, currentPath: string)
    requires i < |parts|
    requires forall j :: 0 <= j < |parts| ==> parts[j] != []
    requires currentPath == if i == 0 then "" else Prefixes(parts)[i - 1]
    ensures (if currentPath != "" then currentPath + "/" + parts[i] else parts[i]) == Prefixes(parts)[i]
  {
    PrefixStep(parts, i);
  }

  lemma CreateMissingSnoc(entries: OMap<Node>, prefixes: seq<string>, i: nat)
    requires i < |prefixes|
    ensures CreateMissing(entries, prefixes[..i + 1]) ==
      var before := CreateMissing(entries, prefixes[..i]);
      if Get(before, prefixes[i]).None? then Put(before, prefixes[i], FolderNode) else before
  {
    assert prefixes[..i + 1][..i] == prefixes[..i];
  }

  // ----- stats and the guard -----

  /** `getFileStats(path)`: the stamps of a file, `(0, 0)` for a folder or a missing path. */
  function Stats(entries: OMap<Node>, path: string): (int, int) {
    var g: Option<Node> := Get(entries, path);
    if g.Some? && g.value.FileNode? then (g.value.mtime, g.value.ctime) else (0, 0)
  }

  /** The optimistic-concurrency test: a present file whose stamp is not the expected one. */
  predicate ModifiedSince(mtime: int, previousUpdatedAt: int) {
    mtime != 0 && mtime != previousUpdatedAt
  }

  /** Creating folders does not change the stamps seen for any path. */
  lemma StatsAfterCreate(entries: OMap<Node>, prefixes: seq<string>, path: string)
    requires UniqueKeys(entries)
    ensures Stats(CreateMissing(entries, prefixes), path) == Stats(entries, path)
  {
    CreateMissingSpec(entries, prefixes);
  }

  /** `readFile(path)`: the bytes of a file; reading a folder or a missing path throws. */
  function ReadFile(entries: OMap<Node>, path: string): (r: Result<Bytes, Error>)
    ensures r.Ok? <==> (Get(entries, path).Some? && Get(entries, path).value.FileNode?)
    ensures r.Ok? ==> r.value == Get(entries, path).value.data
    ensures r.Err? ==> r.error == FileNotFound
  {
    var g: Option<Node> := Get(entries, path);
    if g.Some? && g.value.FileNode? then Ok(g.value.data) else Err(FileNotFound)
  }

  // ----- update and remove, as functions of the disk -----

  /** The vault after the parent folders of `path` have been created. */
  function WithParents(entries: OMap<Node>, path: string): OMap<Node> {
    var dir := ParentDir(path);
    if dir != "" then CreateMissing(entries, Prefixes(PathParts(dir))) else entries
  }

  /** The folders `mkdirpInVault(parentDir)` visits for `path`: none when the path has no `/`. */
  function ParentFolders(path: string): seq<string> {
    var dir := ParentDir(path);
    if dir != "" then Prefixes(PathParts(dir)) else []
  }

  /** Every folder `mkdirpInVault` visits is shorter than the path, so the path is never one of them. */
  lemma ParentFoldersShorter(path: string)
    ensures forall p :: p in ParentFolders(path) ==> |p| < |path|
  {
    var dir := ParentDir(path);
    if dir != "" {
      ParentDirSplits(path);
      var split := Text.Split(dir, '/');
      var q := NonEmpty(split);
      Text.JoinSplit(dir, '/');
      JoinWeight(split, '/');
      NonEmptyWeight(split);
      forall k | 0 <= k < |q|
        ensures |Prefixes(q)[k]| < |path|
      {
        PrefixWeight(q, k);
      }
    }
  }

  lemma PrefixWeight(q: seq<string>, k: nat)
    requires k < |q|
    ensures |Prefixes(q)[k]| + 1 <= Weight(q)
  {
    JoinWeight(q[..k + 1], '/');
    WeightTake(q, k + 1);
  }

  predicate IsFile(entries: OMap<Node>, path: string) {
    Get(entries, path).Some? && Get(entries, path).value.FileNode?
  }

  /**
   * `writeBinary(path, ...)` rejects: a folder sits at the path, or a file
   * sits where one of its parent folders should be (`mkdirpInVault` skips
   * any prefix that names something, file or folder).
   */
  predicate WriteBlocked(entries: OMap<Node>, path: string) {
    Get(entries, path) == Some(FolderNode)
    || exists p :: p in ParentFolders(path) && IsFile(entries, p)
  }

  /** `update(path, content, previousUpdatedAt, newUpdatedAt)`: the vault afterwards, and whether it threw. */
  function UpdateSpec(entries: OMap<Node>, path: string, content: Bytes, previousUpdatedAt: int, newUpdatedAt: int)
    : (OMap<Node>, Outcome<Error>)
  {
    var e := WithParents(entries, path);
    var (mtime, ctime) := Stats(e, path);
    if ModifiedSince(mtime, previousUpdatedAt) then (e, Fail(ModifiedSinceLastSync))
    else if WriteBlocked(e, path) then (e, Fail(WriteRejected))
    else (Put(e, path, FileNode(newUpdatedAt, if ctime != 0 then ctime else newUpdatedAt, content)), Pass)
  }

  /**
   * An update throws when the file exists with another stamp, or when the
   * write is refused: a folder at the path, or a file (already in the vault
   * before the call) in place of a parent folder. Those are the only ways it
   * throws, and then the path holds what it held. Otherwise the file holds
   * the new bytes, stamped `newUpdatedAt`, keeping a non-zero creation time.
   * Either way every parent prefix names an entry afterwards, and no other
   * entry changes except that missing parents become folders.
   */
  lemma UpdateGuard(entries: OMap<Node>, path: string, content: Bytes, previousUpdatedAt: int, newUpdatedAt: int)
    requires UniqueKeys(entries)
    ensures var (mtime, ctime) := Stats(entries, path);
      var (e, o) := UpdateSpec(entries, path, content, previousUpdatedAt, newUpdatedAt);
      && UniqueKeys(e)
      && (o == Fail(ModifiedSinceLastSync) <==> ModifiedSince(mtime, previousUpdatedAt))
      && (o.Fail? <==> ModifiedSince(mtime, previousUpdatedAt) || WriteBlocked(WithParents(entries, path), path))
      && (o.Fail? ==> o == Fail(ModifiedSinceLastSync) || o == Fail(WriteRejected))
      && (Get(entries, path) == Some(FolderNode) ==> o.Fail?)
      && (forall p :: p in ParentFolders(path) && IsFile(entries, p) ==> o.Fail?)
      && (o.Fail? ==> Get(e, path) == Get(entries, path))
      && (o.Pass? ==> Get(e, path) == Some(FileNode(newUpdatedAt, if ctime != 0 then ctime else newUpdatedAt, content)))
      && (forall p :: p in ParentFolders(path) ==> Get(e, p).Some?)
      && (forall k :: k != path && Get(entries, k).Some? ==> Get(e, k) == Get(entries, k))
      && (forall k :: k != path && Get(entries, k).None? && Get(e, k).Some? ==> Get(e, k) == Some(FolderNode))
  {
    var e0 := WithParents(entries, path);
    var (mtime, ctime) := Stats(entries, path);
    WithParentsSpec(entries, path);
    BlockedBeforeParents(entries, path);
    var (e, o) := UpdateSpec(entries, path, content, previousUpdatedAt, newUpdatedAt);
    if ModifiedSince(mtime, previousUpdatedAt) {
      assert e == e0 && o == Fail(ModifiedSinceLastSync);
    } else if WriteBlocked(e0, path) {
      assert e == e0 && o == Fail(WriteRejected);
    } else {
      assert e == Put(e0, path, FileNode(newUpdatedAt, if ctime != 0 then ctime else newUpdatedAt, content)) && o == Pass;
    }
  }

  /** What `mkdirpInVault(parentDir)` does to the vault, as `UpdateSpec` sees it. */
  lemma WithParentsSpec(entries: OMap<Node>, path: string)
    requires UniqueKeys(entries)
    ensures var e := WithParents(entries, path);
      && UniqueKeys(e)
      && Stats(e, path) == Stats(entries, path)
      && Get(e, path) == Get(entries, path)
      && (forall p :: p in ParentFolders(path) ==> Get(e, p).Some?)
      && (forall k :: Get(entries, k).Some? ==> Get(e, k) == Get(entries, k))
      && (forall k :: Get(entries, k).None? && Get(e, k).Some? ==> Get(e, k) == Some(FolderNode))
  {
    var dir := ParentDir(path);
    if dir != "" {
      CreateMissingSpec(entries, Prefixes(PathParts(dir)));
      StatsAfterCreate(entries, Prefixes(PathParts(dir)), path);
      ParentFoldersShorter(path);
    }
  }

  /** A folder at the path or a file in place of a parent, present before the call, still blocks the write. */
  lemma BlockedBeforeParents(entries: OMap<Node>, path: string)
    requires UniqueKeys(entries)
    ensures Get(entries, path) == Some(FolderNode) ==> WriteBlocked(WithParents(entries, path), path)
    ensures forall p :: p in ParentFolders(path) && IsFile(entries, p) ==> WriteBlocked(WithParents(entries, path), path)
  {
    WithParentsSpec(entries, path);
  }

  /**
   * When the parent directory has no empty segment (no leading, trailing or
   * doubled `/`), it is the last prefix `mkdirpInVault` visits, so it names
   * an entry after the update, whether the update passed or threw.
   */
  lemma ParentExistsAfterUpdate(entries: OMap<Node>, path: string, content: Bytes, previousUpdatedAt: int, newUpdatedAt: int)
    requires UniqueKeys(entries)
    requires ParentDir(path) != ""
    requires forall s :: s in Text.Split(ParentDir(path), '/') ==> s != []
    ensures var ps := ParentFolders(path); |ps| > 0 && ps[|ps| - 1] == ParentDir(path)
    ensures Get(UpdateSpec(entries, path, content, previousUpdatedAt, newUpdatedAt).0, ParentDir(path)).Some?
  {
    var dir := ParentDir(path);
    LastParentFolder(path);
    WithParentsSpec(entries, path);
    ParentDirSplits(path);
    var e := WithParents(entries, path);
    assert Get(e, dir).Some?;
    assert dir != path;
  }

  lemma LastParentFolder(path: string)
    requires ParentDir(path) != ""
    requires forall s :: s in Text.Split(ParentDir(path), '/') ==> s != []
    ensures var ps := ParentFolders(path); |ps| > 0 && ps[|ps| - 1] == ParentDir(path)
  {
    var dir := ParentDir(path);
    var parts := Text.Split(dir, '/');
    assert forall i :: 0 <= i < |parts| ==> parts[i] in parts;
    NonEmptyKeepsAll(parts);
    assert PathParts(dir) == parts;
    assert parts[..|parts|] == parts;
    Text.JoinSplit(dir, '/');
  }

  /** Moving a path to one of the trash cans. */
  function TrashLocal(d: Disk, path: string): Disk {
    d.(entries := Delete(d.entries, path), localTrash := d.localTrash + [path])
  }

  function TrashSystemCan(d: Disk, path: string): Disk {
    d.(entries := Delete(d.entries, path), systemTrash := d.systemTrash + [path])
  }

  /**
   * `remove(path, previousUpdatedAt)`: the same guard as `update`, then the
   * path goes to Obsidian's trash, or to the system trash when that is
   * configured and succeeds (`systemTrashOk`), else to Obsidian's trash.
   * A path missing from the vault passes the guard and is still recorded
   * in the trash it was sent to: what the host's `trashLocal` does with a
   * path it does not have is outside the model.
   */
  function RemoveSpec(d: Disk, path: string, previousUpdatedAt: int, where: TrashTarget, systemTrashOk: bool)
    : (Disk, Outcome<Error>)
  {
    var (mtime, _) := Stats(d.entries, path);
    if ModifiedSince(mtime, previousUpdatedAt) then (d, Fail(ModifiedSinceLastSync))
    else if where == ObsidianTrash then (TrashLocal(d, path), Pass)
    else if systemTrashOk then (TrashSystemCan(d, path), Pass)
    else (TrashLocal(d, path), Pass)
  }

  /**
   * A removal throws exactly when the file exists with another stamp, and
   * then changes nothing; a missing path always passes. Otherwise the path
   * is gone, no other entry changes, and it went to the system trash only
   * when that was asked for and worked.
   */
  lemma RemoveGuard(d: Disk, path: string, previousUpdatedAt: int, where: TrashTarget, systemTrashOk: bool)
    requires UniqueKeys(d.entries)
    ensures var (d', o) := RemoveSpec(d, path, previousUpdatedAt, where, systemTrashOk);
      && (o.Fail? <==> ModifiedSince(Stats(d.entries, path).0, previousUpdatedAt))
      && (Get(d.entries, path).None? ==> o.Pass?)
      && (o.Fail? ==> d' == d)
      && (o.Pass? ==> Get(d'.entries, path) == None && UniqueKeys(d'.entries))
      && (forall k :: k != path ==> Get(d'.entries, k) == Get(d.entries, k))
      && (o.Pass? ==> (d'.systemTrash == d.systemTrash + [path] <==> where == SystemTrash && systemTrashOk))
      && (o.Pass? ==> (d'.localTrash == d.localTrash + [path] <==> !(where == SystemTrash && systemTrashOk)))
  {
  }

  // ----- walk and exclusion -----

  /** `isFileExcluded(filePath, patterns)`: some non-blank pattern matches without throwing. */
  function IsFileExcluded(matcher: Matcher, filePath: string, patterns: seq<string>): (r: bool)
    ensures r <==> exists i :: (0 <= i < |patterns| && Text.Trim(patterns[i]) != ""
      && matcher(filePath, patterns[i]) == Some(true))
    decreases |patterns|
  {
    if patterns == [] then false
    else
      assert forall i :: 1 <= i < |patterns| ==> patterns[i] == patterns[1..][i - 1];
      if Text.Trim(patterns[0]) == "" then IsFileExcluded(matcher, filePath, patterns[1..])
      else if matcher(filePath, patterns[0]) == Some(true) then true
      else IsFileExcluded(matcher, filePath, patterns[1..])
  }

  /** `parts.flatMap(pattern => pattern.trim().split(','))`. */
  function SplitEach(parts: seq<string>): seq<string>
    decreases |parts|
  {
    if parts == [] then [] else Text.Split(Text.Trim(parts[0]), ',') + SplitEach(parts[1..])
  }

  function TrimEach(parts: seq<string>): (r: seq<string>)
    ensures |r| == |parts|
  {
    seq(|parts|, i requires 0 <= i < |parts| => Text.Trim(parts[i]))
  }

  /** The exclusion patterns built from the `exclude_globs` setting. */
  function ExcludePatterns(excludeGlobs: string): seq<string> {
    TrimEach(SplitEach(Text.Split(excludeGlobs, ',')))
  }

  /** The second split and trim change nothing: the patterns are the trimmed comma-separated pieces. */
  lemma {:induction false} ExcludePatternsPieces(excludeGlobs: string)
    ensures ExcludePatterns(excludeGlobs) == TrimEach(Text.Split(excludeGlobs, ','))
    ensures |ExcludePatterns(excludeGlobs)| >= 1
    ensures forall i :: 0 <= i < |ExcludePatterns(excludeGlobs)| ==> ',' !in ExcludePatterns(excludeGlobs)[i]
  {
    var parts := Text.Split(excludeGlobs, ',');
    SplitEachOfCommaFree(parts);
    TrimEachTwice(parts);
    forall i | 0 <= i < |parts| ensures ',' !in Text.Trim(parts[i]) {
      TrimKeepsOut(parts[i], ',');
    }
  }

  lemma TrimKeepsOut(s: string, c: char)
    requires c !in s
    ensures c !in Text.Trim(s)
  {
    var r := Text.Trim(s);
    var i := Text.LeadingWhitespace(s);
    assert forall k :: 0 <= k < |r| ==> r[k] == s[i + k];
  }

  lemma {:induction false} SplitEachOfCommaFree(parts: seq<string>)
    requires forall i :: 0 <= i < |parts| ==> ',' !in parts[i]
    ensures SplitEach(parts) == TrimEach(parts)
    decreases |parts|
  {
    if parts != [] {
      var rest := parts[1..];
      assert forall i :: 0 <= i < |rest| ==> rest[i] == parts[i + 1];
      SplitEachOfCommaFree(rest);
      var t := Text.Trim(parts[0]);
      TrimKeepsOut(parts[0], ',');
      Text.SplitSingle(t, ',');
      assert Text.Split(t, ',') == [t];
      assert SplitEach(parts) == [t] + SplitEach(rest);
      assert TrimEach(parts) == [t] + TrimEach(rest);
    }
  }

  lemma TrimEachTwice(parts: seq<string>)
    ensures TrimEach(TrimEach(parts)) == TrimEach(parts)
  {
    forall i | 0 <= i < |parts| ensures Text.Trim(Text.Trim(parts[i])) == Text.Trim(parts[i]) {
      Text.TrimIdempotent(parts[i]);
    }
  }

  /** `path.startsWith('/') ? path.slice(1) : path`. */
  function StripLeadingSlash(path: string): string {
    if |path| > 0 && path[0] == '/' then path[1..] else path
  }

  /**
   * What `walk` lists for one vault entry: files only, not `''` or `'/'`,
   * with one leading `/` removed, unless excluded. The update and
   * deletion stamps are both the raw modification time.
   */
  function WalkEntry(matcher: Matcher, patterns: seq<string>, entry: (string, Node)): (r: Option<FileMetadata>)
    ensures r.Some? <==> (entry.1.FileNode? && entry.0 != "" && entry.0 != "/"
      && !IsFileExcluded(matcher, StripLeadingSlash(entry.0), patterns))
    ensures r.Some? ==> r.value == FileMetadata(StripLeadingSlash(entry.0), |entry.1.data|,
      entry.1.ctime, entry.1.mtime, entry.1.mtime, false, false)
  {
    var (path, node) := entry;
    if path == "/" || path == "" || node.FolderNode? then None
    else
      var p := StripLeadingSlash(path);
      if IsFileExcluded(matcher, p, patterns) then None
      else Some(FileMetadata(p, |node.data|, node.ctime, node.mtime, node.mtime, false, false))
  }

  /** The listing `walk` builds, entry by entry in vault order. */
  function Walked(matcher: Matcher, patterns: seq<string>, entries: OMap<Node>): (r: seq<FileMetadata>)
    ensures |r| <= |entries|
    decreases |entries|
  {
    if entries == [] then []
    else
      var before := Walked(matcher, patterns, entries[..|entries| - 1]);
      match WalkEntry(matcher, patterns, entries[|entries| - 1])
      case Some(f) => before + [f]
      case None => before
  }

  /** A metadata record is walked exactly when some vault entry yields it; all are live. */
  lemma {:induction false} WalkedMembers(matcher: Matcher, patterns: seq<string>, entries: OMap<Node>)
    ensures forall f :: f in Walked(matcher, patterns, entries) <==>
      exists i :: 0 <= i < |entries| && WalkEntry(matcher, patterns, entries[i]) == Some(f)
    ensures forall f :: f in Walked(matcher, patterns, entries) ==> !f.deleted
    decreases |entries|
  {
    WalkedSound(matcher, patterns, entries);
    WalkedComplete(matcher, patterns, entries);
  }

  /** Every walked record comes from some vault entry and is live. */
  lemma {:induction false} WalkedSound(matcher: Matcher, patterns: seq<string>, entries: OMap<Node>)
    ensures forall f :: f in Walked(matcher, patterns, entries) ==>
      !f.deleted && exists i :: 0 <= i < |entries| && WalkEntry(matcher, patterns, entries[i]) == Some(f)
    decreases |entries|
  {
    if entries != [] {
      var n := |entries| - 1;
      var init := entries[..n];
      WalkedSound(matcher, patterns, init);
      WalkedSnoc(matcher, patterns, entries);
      forall f | f in Walked(matcher, patterns, entries)
        ensures !f.deleted && exists i :: 0 <= i < |entries| && WalkEntry(matcher, patterns, entries[i]) == Some(f)
      {
        if f in Walked(matcher, patterns, init) {
          var i :| 0 <= i < n && WalkEntry(matcher, patterns, init[i]) == Some(f);
          assert init[i] == entries[i];
        } else {
          assert WalkEntry(matcher, patterns, entries[n]) == Some(f);
        }
      }
    }
  }

  /** Every record a vault entry yields is walked. */
  lemma {:induction false} WalkedComplete(matcher: Matcher, patterns: seq<string>, entries: OMap<Node>)
    ensures forall i :: 0 <= i < |entries| && WalkEntry(matcher, patterns, entries[i]).Some? ==>
      WalkEntry(matcher, patterns, entries[i]).value in Walked(matcher, patterns, entries)
    decreases |entries|
  {
    if entries != [] {
      var n := |entries| - 1;
      var init := entries[..n];
      WalkedComplete(matcher, patterns, init);
      WalkedSnoc(matcher, patterns, entries);
      forall i | 0 <= i < n && WalkEntry(matcher, patterns, entries[i]).Some?
        ensures WalkEntry(matcher, patterns, entries[i]).value in Walked(matcher, patterns, entries)
      {
        assert init[i] == entries[i];
        assert WalkEntry(matcher, patterns, init[i]).value in Walked(matcher, patterns, init);
      }
    }
  }

  /** The walk over one more vault entry. */
  lemma WalkedStep(matcher: Matcher, patterns: seq<string>, entries: OMap<Node>, i: nat)
    requires i < |entries|
    ensures Walked(matcher, patterns, entries[..i + 1]) ==
      match WalkEntry(matcher, patterns, entries[i])
      case Some(f) => Walked(matcher, patterns, entries[..i]) + [f]
      case None => Walked(matcher, patterns, entries[..i])
  {
    assert entries[..i + 1][..i] == entries[..i];
  }

  /** One more vault entry adds at most its own record, which is live. */
  lemma WalkedSnoc(matcher: Matcher, patterns: seq<string>, entries: OMap<Node>)
    requires entries != []
    ensures var last := WalkEntry(matcher, patterns, entries[|entries| - 1]);
      forall f :: f in Walked(matcher, patterns, entries) <==>
        f in Walked(matcher, patterns, entries[..|entries| - 1]) || last == Some(f)
    ensures var last := WalkEntry(matcher, patterns, entries[|entries| - 1]);
      last.Some? ==> !last.value.deleted
  {
  }

  // ----- getFiles -----

  /** `deletedFiles.map(file => ({ ...file, deleted: true, size: 0 }))`. */
  function Tombstones(ds: seq<DeletedFile>): (r: seq<FileMetadata>)
    ensures |r| == |ds|
    ensures forall i :: 0 <= i < |r| ==> (r[i].deleted && r[i].size == 0 && r[i].path == ds[i].path
      && r[i].createdAt == ds[i].createdAt && r[i].updatedAt == ds[i].updatedAt && r[i].deletedAt == ds[i].deletedAt
      && !r[i].nullStamp)
  {
    seq(|ds|, i requires 0 <= i < |ds| =>
      FileMetadata(ds[i].path, 0, ds[i].createdAt, ds[i].updatedAt, ds[i].deletedAt, true, false))
  }

  /**
   * The host listing is the live files followed by the tombstones, so a
   * path that is both in the vault and in the tombstone store is listed
   * twice: once live and once deleted.
   */
  lemma ListedTwice(live: seq<FileMetadata>, ds: seq<DeletedFile>, i: nat, j: nat)
    requires i < |live| && j < |ds| && live[i].path == ds[j].path
    requires forall f :: f in live ==> !f.deleted
    ensures var all := live + Tombstones(ds);
      all[i].path == all[|live| + j].path && !all[i].deleted && all[|live| + j].deleted
  {
    assert live[i] in live;
  }

  class LocalFileSystem {
    var entries: OMap<Node>
    var localTrash: seq<string>
    var systemTrash: seq<string>
    const settings: SettingsController
    const history: LocalFileHistory
    const deleteToWhere: TrashTarget
    const matcher: Matcher
    /** `vault.adapter.trashSystem(path)`: whether the system trash took the file. */
    const trashSystem: string -> bool

    ghost predicate Valid()
      reads this, history
    {
      UniqueKeys(entries) && history.Valid()
    }

    function State(): Disk
      reads this
    {
      Disk(entries, localTrash, systemTrash)
    }

    constructor (entries: OMap<Node>, settings: SettingsController, history: LocalFileHistory,
                 deleteToWhere: TrashTarget, matcher: Matcher, trashSystem: string -> bool)
      requires UniqueKeys(entries) && history.Valid()
      ensures Valid()
      ensures State() == Disk(entries, [], [])
      ensures this.settings == settings && this.history == history && this.deleteToWhere == deleteToWhere
      ensures this.matcher == matcher && this.trashSystem == trashSystem
    {
      this.entries := entries;
      this.localTrash := [];
      this.systemTrash := [];
      this.settings := settings;
      this.history := history;
      this.deleteToWhere := deleteToWhere;
      this.matcher := matcher;
      this.trashSystem := trashSystem;
    }

    /** `getFileContent(path)`. */
    function GetFileContent(path: string): (r: Result<Bytes, Error>)
      reads this
      ensures r == ReadFile(entries, path)
    {
      ReadFile(entries, path)
    }

    /** One step of `mkdirpInVault`: create a folder at `path` unless something is there. */
    method CreateFolder(path: string)
      modifies this
      ensures entries == if Get(old(entries), path).None? then Put(old(entries), path, FolderNode) else old(entries)
      ensures localTrash == old(localTrash) && systemTrash == old(systemTrash)
    {
      if Get(entries, path).None? {
        entries := Put(entries, path, FolderNode);
      }
    }

    /** `mkdirpInVault(dir)`: walk the cumulative prefixes, creating each that is missing. */
    method MkdirpInVault(dir: string)
      modifies this
      ensures entries == CreateMissing(old(entries), Prefixes(PathParts(dir)))
      ensures localTrash == old(localTrash) && systemTrash == old(systemTrash)
    {
      var parts := PathParts(dir);
      var prefixes := Prefixes(parts);
      var currentPath := "";
      var i := 0;
      assert prefixes[..0] == [];
      while i < |parts|
        invariant 0 <= i <= |parts|
        invariant currentPath == if i == 0 then "" else prefixes[i - 1]
        invariant entries == CreateMissing(old(entries), prefixes[..i])
        invariant localTrash == old(localTrash) && systemTrash == old(systemTrash)
      {
        NextPrefix(parts, i, currentPath);
        currentPath := if currentPath != "" then currentPath + "/" + parts[i] else parts[i];
        CreateMissingSnoc(old(entries), prefixes, i);
        CreateFolder(currentPath);
        i := i + 1;
      }
      assert prefixes[..i] == prefixes;
    }

    /** `update(path, content, previousUpdatedAt, newUpdatedAt)`. */
    method Update(path: string, content: Bytes, previousUpdatedAt: int, newUpdatedAt: int)
        returns (o: Outcome<Error>)
      requires Valid()
      modifies this
      ensures Valid()
      ensures (entries, o) == UpdateSpec(old(entries), path, content, previousUpdatedAt, newUpdatedAt)
      ensures localTrash == old(localTrash) && systemTrash == old(systemTrash)
    {
      var parentDir := ParentDir(path);
      if parentDir != "" {
        MkdirpInVault(parentDir);
      }
      UpdateGuard(old(entries), path, content, previousUpdatedAt, newUpdatedAt);
      var (mtime, ctime) := Stats(entries, path);
      if ModifiedSince(mtime, previousUpdatedAt) {
        return Fail(ModifiedSinceLastSync);
      }
      if WriteBlocked(entries, path) {
        return Fail(WriteRejected);
      }
      entries := Put(entries, path, FileNode(newUpdatedAt, if ctime != 0 then ctime else newUpdatedAt, content));
      o := Pass;
    }

    /** `remove(path, previousUpdatedAt)`. */
    method Remove(path: string, previousUpdatedAt: int) returns (o: Outcome<Error>)
      requires Valid()
      modifies this
      ensures Valid()
      ensures (State(), o) == RemoveSpec(old(State()), path, previousUpdatedAt, deleteToWhere, trashSystem(path))
    {
      var (mtime, _) := Stats(entries, path);
      if ModifiedSince(mtime, previousUpdatedAt) {
        return Fail(ModifiedSinceLastSync);
      }
      if deleteToWhere == ObsidianTrash {
        entries, localTrash := Delete(entries, path), localTrash + [path];
      } else if trashSystem(path) {
        entries, systemTrash := Delete(entries, path), systemTrash + [path];
      } else {
        entries, localTrash := Delete(entries, path), localTrash + [path];
      }
      o := Pass;
    }

    /** The body of `walk`'s loop for one vault entry: the file it pushes, if any. */
    method WalkOne(patterns: seq<string>, entry: (string, Node)) returns (f: Option<FileMetadata>)
      ensures f == WalkEntry(matcher, patterns, entry)
    {
      var (path, node) := entry;
      if path == "/" || path == "" || node.FolderNode? {
        return None;
      }
      if |path| > 0 && path[0] == '/' {
        path := path[1..];
      }
      if IsFileExcluded(matcher, path, patterns) {
        return None;
      }
      f := Some(FileMetadata(path, |node.data|, node.ctime, node.mtime, node.mtime, false, false));
    }

    /** `walk()`: one pass over the loaded vault entries, pushing each listed file. */
    method Walk() returns (files: seq<FileMetadata>)
      ensures files == Walked(matcher, ExcludePatterns(settings.settings.excludeGlobs), entries)
    {
      var patterns := ExcludePatterns(settings.settings.excludeGlobs);
      var vault := entries;
      files := [];
      var i := 0;
      while i < |vault|
        invariant 0 <= i <= |vault|
        invariant files == Walked(matcher, patterns, vault[..i])
      {
        var f := WalkOne(patterns, vault[i]);
        WalkedStep(matcher, patterns, vault, i);
        if f.Some? {
          files := files + [f.value];
        }
        i := i + 1;
      }
      assert vault[..i] == vault;
    }

    /** What `getFiles()` returns: the walked live files, then one tombstone per history record. */
    function Listing(): seq<FileMetadata>
      requires Valid()
      reads this, history, settings
    {
      Walked(matcher, ExcludePatterns(settings.settings.excludeGlobs), entries) + Tombstones(history.GetAllDeletedFiles())
    }

    /** `getFiles()`. */
    method GetFiles() returns (r: seq<FileMetadata>)
      requires Valid()
      ensures r == Listing()
    {
      var arr := Walk();
      var deletedFiles := history.GetAllDeletedFiles();
      r := arr + Tombstones(deletedFiles);
    }

    /** `prune(path)`: forget the tombstone; the vault itself is not touched. */
    method Prune(path: string)
      requires Valid()
      modifies history
      ensures Valid()
      ensures history.data == Delete(old(history.data), path)
    {
      history.RemoveEntry(path);
    }
  }
}
