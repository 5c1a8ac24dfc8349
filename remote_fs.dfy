/**
 * The remote replica (packages/caramel-sync-plugin/src/fs.remote.ts): a
 * cached listing of the server's summary and three kinds of request,
 * forwarded through the HTTP client (packages/caramel-sync-plugin/src/repo.ts)
 * to the server's handlers, which here are called directly.
 */
module RemoteFs {
  import opened Wrappers
  import opened Fs
  import opened FilesServer

  /** A cached listing entry: the metadata and the server's id for the file. */
  datatype RemoteFile = RemoteFile(fileId: string, meta: FileMetadata)

  /** A stamp as `<` and `>` see it: `null` counts as 0. */
  function Compared(s: Stamp): (n: int)
    ensures s.Some? ==> n == s.value
    ensures s.None? ==> n == 0
  {
    if s.Some? then s.value else 0
  }

  /** The summary row mapped field by field to a listing entry. */
  function FromSummary(s: SummaryRow): (f: RemoteFile)
    ensures f.fileId == s.fileId && f.meta.path == s.filePath && f.meta.size == s.fileSize && f.meta.deleted == s.deleted
    ensures f.meta.nullStamp <==> s.updatedAt.None?
    ensures PreviousStamp(f.meta) == s.updatedAt
    ensures (f.meta.createdAt, f.meta.updatedAt, f.meta.deletedAt) == (Compared(s.createdAt), Compared(s.updatedAt), Compared(s.deletedAt))
  {
    RemoteFile(s.fileId, FileMetadata(s.filePath, s.fileSize, Compared(s.createdAt), Compared(s.updatedAt),
                                      Compared(s.deletedAt), s.deleted, s.updatedAt.None?))
  }

  /** `file.updatedAt` as the value `update` and `remove` are handed: `null` when the server listed none. */
  function PreviousStamp(f: FileMetadata): Stamp {
    if f.nullStamp then None else Some(f.updatedAt)
  }

  function Cache(rows: seq<SummaryRow>): (r: seq<RemoteFile>)
    ensures |r| == |rows|
    ensures forall i :: 0 <= i < |r| ==> r[i] == FromSummary(rows[i])
  {
    seq(|rows|, i requires 0 <= i < |rows| => FromSummary(rows[i]))
  }

  function Metas(files: seq<RemoteFile>): (r: seq<FileMetadata>)
    ensures |r| == |files|
    ensures forall i :: 0 <= i < |r| ==> r[i] == files[i].meta
  {
    seq(|files|, i requires 0 <= i < |files| => files[i].meta)
  }

  /** `files.find(file => file.path === path)` over the cache. */
  function FindCached(files: seq<RemoteFile>, path: string): (r: Option<RemoteFile>)
    ensures r.None? <==> forall i :: 0 <= i < |files| ==> files[i].meta.path != path
    ensures r.Some? ==> r.value in files && r.value.meta.path == path
    decreases |files|
  {
    if files == [] then None
    else if files[0].meta.path == path then Some(files[0])
    else
      assert forall i :: 1 <= i < |files| ==> files[i] == files[1..][i - 1];
      FindCached(files[1..], path)
  }

  /** `if (opt.newUpdatedAt) formData.set('updatedAt', ...)`: a zero stamp is not sent. */
  function SentStamp(newUpdatedAt: int): (r: Option<int>)
    ensures r.None? <==> newUpdatedAt == 0
    ensures r.Some? ==> r.value == newUpdatedAt
  {
    if newUpdatedAt != 0 then Some(newUpdatedAt) else None
  }

  /** The request `update` sends: not deleted, both stamps, and the content. */
  function UpdateRequest(path: string, content: Bytes, previousUpdatedAt: int, newUpdatedAt: int): PostRequest {
    PostRequest(path, false, previousUpdatedAt, SentStamp(newUpdatedAt), Some(content))
  }

  /** The request `remove` sends: deleted, the previous stamp only, no content. */
  function RemoveRequest(path: string, previousUpdatedAt: int): PostRequest {
    PostRequest(path, true, previousUpdatedAt, None, None)
  }

  /** `response.json()` succeeds on every response but the server's own failure. */
  function Surfaced(resp: PostResponse): (o: Outcome<Error>)
    ensures o.Fail? <==> resp.ServerError?
  {
    if resp.ServerError? then Fail(RequestFailed) else Pass
  }

  /** A refusal by the server's guard is not surfaced to the sync engine. */
  lemma GuardRefusalNotSurfaced(msg: string)
    ensures Surfaced(Rejected(msg)) == Pass
  {
  }

  /**
   * `update(path, content, previousUpdatedAt, newUpdatedAt)` against the
   * table: a `null` previous stamp throws in `toString()` before anything is
   * sent; otherwise the request is posted and its response surfaced.
   */
  function UpdateCall(env: Env, rows: seq<Row>, issued: nat, ws: string,
                      path: string, content: Bytes, previousUpdatedAt: Stamp, newUpdatedAt: int)
    : (seq<Row>, nat, Outcome<Error>)
  {
    if previousUpdatedAt.None? then (rows, issued, Fail(NullStamp))
    else
      var (rows', issued', resp) := PostSpec(env, rows, issued, ws, UpdateRequest(path, content, previousUpdatedAt.value, newUpdatedAt));
      (rows', issued', Surfaced(resp))
  }

  /** `remove(path, previousUpdatedAt)` against the table, with the same `toString()` failure. */
  function RemoveCall(env: Env, rows: seq<Row>, issued: nat, ws: string, path: string, previousUpdatedAt: Stamp)
    : (seq<Row>, nat, Outcome<Error>)
  {
    if previousUpdatedAt.None? then (rows, issued, Fail(NullStamp))
    else
      var (rows', issued', resp) := PostSpec(env, rows, issued, ws, RemoveRequest(path, previousUpdatedAt.value));
      (rows', issued', Surfaced(resp))
  }

  /**
   * An `update` throws when its previous stamp is `null` (and then sends
   * nothing); otherwise the request carries content, so it surfaces an
   * error exactly when the guard lets it through and the upload rejects. A
   * row whose stamp is null never lets it through.
   */
  lemma UpdateFailsOnlyOnUpload(env: Env, rows: seq<Row>, issued: nat, ws: string,
                                path: string, content: Bytes, previousUpdatedAt: Stamp, newUpdatedAt: int)
    ensures var existing := FirstRow(rows, ws, path);
      var (rows', issued', o) := UpdateCall(env, rows, issued, ws, path, content, previousUpdatedAt, newUpdatedAt);
      && (previousUpdatedAt.None? ==> rows' == rows && issued' == issued && o == Fail(NullStamp))
      && (o.Fail? <==> previousUpdatedAt.None?
                       || ((existing.None? || existing.value.updatedAt == previousUpdatedAt) && !env.uploads(ws, path)))
      && (existing.Some? && existing.value.updatedAt.None? ==> rows' == rows && issued' == issued)
  {
    if previousUpdatedAt.Some? {
      ServerErrorOnlyFromStorage(env, rows, issued, ws, UpdateRequest(path, content, previousUpdatedAt.value, newUpdatedAt));
    }
  }

  /**
   * A `remove` throws when its previous stamp is `null` (and then sends
   * nothing); otherwise it surfaces an error exactly when there is a row,
   * the guard lets it through and unlinking the row's blob rejects. A
   * missing row, a stale stamp or a row whose stamp is null is refused
   * quietly.
   */
  lemma RemoveFailsOnlyOnUnlink(env: Env, rows: seq<Row>, issued: nat, ws: string, path: string, previousUpdatedAt: Stamp)
    ensures var existing := FirstRow(rows, ws, path);
      var (rows', issued', o) := RemoveCall(env, rows, issued, ws, path, previousUpdatedAt);
      && (previousUpdatedAt.None? ==> rows' == rows && issued' == issued && o == Fail(NullStamp))
      && (o.Fail? <==> previousUpdatedAt.None?
                       || (existing.Some? && existing.value.updatedAt == previousUpdatedAt && !env.unlinks(existing.value.s3Path)))
      && (existing.Some? && existing.value.updatedAt.None? ==> rows' == rows && issued' == issued)
  {
    if previousUpdatedAt.Some? {
      ServerErrorOnlyFromStorage(env, rows, issued, ws, RemoveRequest(path, previousUpdatedAt.value));
    }
  }

  /**
   * `getFileContent(path)` over the cache `files`: a path missing from the
   * cache throws; otherwise whatever the download of the first cached
   * entry's id returns, error bodies included, and tombstones are not refused.
   */
  function Fetch(files: seq<RemoteFile>, rows: seq<Row>, ws: string, errorBody: DownloadResponse -> Bytes, path: string)
    : (r: Result<Bytes, Error>)
    ensures r.Err? <==> FindCached(files, path).None?
    ensures r.Err? ==> r.error == FileNotFound
    ensures r.Ok? ==> var d := Download(rows, ws, FindCached(files, path).value.fileId);
      r.value == if d.Served? then d.body else errorBody(d)
  {
    match FindCached(files, path)
    case None => Err(FileNotFound)
    case Some(f) =>
      match Download(rows, ws, f.fileId)
      case Served(body, _, _) => Ok(body)
      case other => Ok(errorBody(other))
  }

  class RemoteFileSystem {
    var files: seq<RemoteFile>
    const server: FilesTable
    const workspace: string
    /** The bytes of an error response body, which `getRaw` returns without looking at the status. */
    const errorBody: DownloadResponse -> Bytes

    constructor (server: FilesTable, workspace: string, errorBody: DownloadResponse -> Bytes)
      ensures files == [] && this.server == server && this.workspace == workspace && this.errorBody == errorBody
    {
      files := [];
      this.server := server;
      this.workspace := workspace;
      this.errorBody := errorBody;
    }

    /** `getFiles()`: replace the cache by the server's summary and return it. */
    method GetFiles() returns (r: seq<FileMetadata>)
      modifies this
      ensures files == Cache(Summary(server.rows, workspace))
      ensures r == Metas(files)
    {
      var arr := Summary(server.rows, workspace);
      files := Cache(arr);
      r := Metas(files);
    }

    /** `getFileContent(path)`. */
    function GetFileContent(path: string): (r: Result<Bytes, Error>)
      reads this, server
      ensures r == Fetch(files, server.rows, workspace, errorBody, path)
    {
      Fetch(files, server.rows, workspace, errorBody, path)
    }

    /** `update(path, content, previousUpdatedAt, newUpdatedAt)`. */
    method Update(path: string, content: Bytes, previousUpdatedAt: Stamp, newUpdatedAt: int) returns (o: Outcome<Error>)
      modifies server
      ensures (server.rows, server.issued, o) ==
        UpdateCall(server.env, old(server.rows), old(server.issued), workspace, path, content, previousUpdatedAt, newUpdatedAt)
    {
      if previousUpdatedAt.None? {
        return Fail(NullStamp);
      }
      var resp := server.Post(workspace, UpdateRequest(path, content, previousUpdatedAt.value, newUpdatedAt));
      o := Surfaced(resp);
    }

    /** `remove(path, previousUpdatedAt)`. */
    method Remove(path: string, previousUpdatedAt: Stamp) returns (o: Outcome<Error>)
      modifies server
      ensures (server.rows, server.issued, o) ==
        RemoveCall(server.env, old(server.rows), old(server.issued), workspace, path, previousUpdatedAt)
    {
      if previousUpdatedAt.None? {
        return Fail(NullStamp);
      }
      var resp := server.Post(workspace, RemoveRequest(path, previousUpdatedAt.value));
      o := Surfaced(resp);
    }

    /** `prune()`: always throws; the server's tombstones are never forgotten. */
    method Prune(path: string) returns (o: Outcome<Error>)
      ensures o == Fail(PruneNotSupported)
    {
      o := Fail(PruneNotSupported);
    }
  }
}
