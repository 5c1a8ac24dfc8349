/**
 * The server's file routes (apps/paintress-server/src/modules/files.ts) over
 * the `files` table: the summary listing, the `POST /` write with its
 * optimistic-concurrency guard, and the download by file id.
 *
 * Blob storage is abstract: where an upload is stored, the hash and the size
 * it reports are functions of the request, whether an upload or an unlink
 * succeeds is a parameter, and each row keeps the bytes stored for it
 * (`None` once the blob was deleted).
 *
 * A stamp column is `Option<int>`: `None` is the `null` a request without
 * `updatedAt` leaves there (`Number(undefined)` is NaN, which the database
 * keeps as null and JSON serialises as null). No number is `!==`-equal to
 * it, so the guard rejects every later request on that path.
 */
module FilesServer {
  import opened Wrappers
  import opened Fs
  import Text

  type Stamp = Option<int>

  /** One row of the `files` table. */
  datatype Row = Row(
    fileId: string,
    workspaceId: string,
    filePath: string,
    fileSize: int,
    s3Path: string,
    s3Hash: string,
    s3Size: int,
    deleted: bool,
    updatedAt: Stamp,
    deletedAt: Stamp,
    createdAt: Stamp,
    blob: Option<Bytes>)

  /** The columns `GET summary` selects. */
  datatype SummaryRow = SummaryRow(
    fileId: string,
    fileSize: int,
    filePath: string,
    deleted: bool,
    updatedAt: Stamp,
    s3Hash: string,
    deletedAt: Stamp,
    createdAt: Stamp)

  /** The form fields of a `POST /`; `updatedAt` and `file` may be missing. */
  datatype PostRequest = PostRequest(
    filePath: string,
    isDeleted: bool,
    previousUpdatedAt: int,
    updatedAt: Option<int>,
    file: Option<Bytes>)

  datatype PostResponse =
    | Success                  // `{ success: true }`
    | Rejected(error: string)  // status 400
    | ServerError              // the handler threw: no file in a write request, or a storage call failed

  datatype DownloadResponse =
    | NotFound                                           // status 404
    | Served(body: Bytes, fileName: string, contentLength: int)
    | StorageFailure                                     // the stored blob is gone

  /** The collaborators the handlers call: blob storage and id generation. */
  datatype Env = Env(
    storagePath: (string, string) -> string,    // (workspace, file path) -> where the blob is stored
    storageHash: (string, string, Bytes) -> string,
    storedSize: Bytes -> int,
    ulid: nat -> string,                        // the n-th id `ulid()` hands out
    uploads: (string, string) -> bool,          // whether `uploadFile(workspace, file path, ...)` resolves
    unlinks: string -> bool)                    // whether `deleteFile(s3Path)` resolves

  const UpdatedSinceLastSync: string := "File has been updated since the last sync"
  const FileDoesNotExist: string := "File does not exist"

  predicate Matches(r: Row, ws: string, path: string) {
    r.workspaceId == ws && r.filePath == path
  }

  /** `selectFrom('files').where(file_path).where(workspace_id).executeTakeFirst()`. */
  function FirstRow(rows: seq<Row>, ws: string, path: string): (r: Option<Row>)
    ensures r.None? <==> forall i :: 0 <= i < |rows| ==> !Matches(rows[i], ws, path)
    ensures r.Some? ==> r.value in rows && Matches(r.value, ws, path)
    decreases |rows|
  {
    if rows == [] then None
    else if Matches(rows[0], ws, path) then Some(rows[0])
    else
      assert forall i :: 1 <= i < |rows| ==> rows[i] == rows[1..][i - 1];
      FirstRow(rows[1..], ws, path)
  }

  /** `updateTable('files').set(...).where(file_path).where(workspace_id)`: every matching row changes. */
  function UpdateWhere(rows: seq<Row>, ws: string, path: string, f: Row -> Row): (r: seq<Row>)
    ensures |r| == |rows|
    ensures forall i :: 0 <= i < |rows| ==> r[i] == if Matches(rows[i], ws, path) then f(rows[i]) else rows[i]
  {
    seq(|rows|, i requires 0 <= i < |rows| => if Matches(rows[i], ws, path) then f(rows[i]) else rows[i])
  }

  /** The delete branch's `set`. */
  function Tombstoned(stamp: Stamp): Row -> Row {
    (r: Row) => r.(deleted := true, s3Path := "", s3Hash := "", updatedAt := stamp, deletedAt := stamp, blob := None)
  }

  /** The write branch's `set` on an existing row. */
  function Uploaded(s3Path: string, s3Hash: string, size: int, stamp: Stamp, content: Bytes): Row -> Row {
    (r: Row) => r.(s3Path := s3Path, s3Hash := s3Hash, s3Size := size, fileSize := size, updatedAt := stamp, blob := Some(content))
  }

  /**
   * `POST /`: the table, the number of ids handed out, and the response.
   * An existing row with another stamp, or with none, rejects the request;
   * with no row the stamp sent is not looked at. The stamp stored is the one
   * sent, or null when none was. A delete needs a row and unlinks its blob
   * before the row is touched. A write uploads the blob, then updates the
   * existing rows or inserts one. A storage call that rejects makes the
   * handler throw (status 500) before the table changes.
   */
  function PostSpec(env: Env, rows: seq<Row>, issued: nat, ws: string, req: PostRequest): (seq<Row>, nat, PostResponse) {
    var existing := FirstRow(rows, ws, req.filePath);
    var stamp := req.updatedAt;
    if existing.Some? && existing.value.updatedAt != Some(req.previousUpdatedAt) then
      (rows, issued, Rejected(UpdatedSinceLastSync))
    else if req.isDeleted then
      if existing.None? then (rows, issued, Rejected(FileDoesNotExist))
      else if !env.unlinks(existing.value.s3Path) then (rows, issued, ServerError)
      else (UpdateWhere(rows, ws, req.filePath, Tombstoned(stamp)), issued, Success)
    else
      // line 58 draws an id it never uses when there is no row
      var issued' := if existing.Some? then issued else issued + 1;
      if req.file.None? || !env.uploads(ws, req.filePath) then (rows, issued', ServerError)
      else
        var content := req.file.value;
        var s3Path := env.storagePath(ws, req.filePath);
        var s3Hash := env.storageHash(ws, req.filePath, content);
        var size := env.storedSize(content);
        if existing.Some? then
          (UpdateWhere(rows, ws, req.filePath, Uploaded(s3Path, s3Hash, size, stamp, content)), issued', Success)
        else
          (rows + [Row(env.ulid(issued'), ws, req.filePath, size, s3Path, s3Hash, size,
                       false, stamp, Some(0), stamp, Some(content))], issued' + 1, Success)
  }

  /** No two rows of a workspace share a path. */
  ghost predicate UniquePaths(rows: seq<Row>) {
    forall i, j :: 0 <= i < j < |rows| ==> !(rows[i].workspaceId == rows[j].workspaceId && rows[i].filePath == rows[j].filePath)
  }

  // ----- properties of POST / -----

  /** A row whose stamp is not the one the client saw, or is null, rejects the request and changes nothing. */
  lemma PostGuardRejects(env: Env, rows: seq<Row>, issued: nat, ws: string, req: PostRequest, i: nat)
    requires UniquePaths(rows)
    requires i < |rows| && Matches(rows[i], ws, req.filePath)
    ensures var (rows', issued', resp) := PostSpec(env, rows, issued, ws, req);
      rows[i].updatedAt != Some(req.previousUpdatedAt) <==> (rows' == rows && issued' == issued && resp == Rejected(UpdatedSinceLastSync))
  {
    var existing := FirstRow(rows, ws, req.filePath);
    SameMatchingRow(rows, ws, req.filePath, i);
    var (rows', issued', resp) := PostSpec(env, rows, issued, ws, req);
    if rows[i].updatedAt == Some(req.previousUpdatedAt) {
      assert resp != Rejected(UpdatedSinceLastSync);
    }
  }

  /** With unique paths, the first matching row is the only one. */
  lemma SameMatchingRow(rows: seq<Row>, ws: string, path: string, i: nat)
    requires UniquePaths(rows)
    requires i < |rows| && Matches(rows[i], ws, path)
    ensures FirstRow(rows, ws, path) == Some(rows[i])
  {
    var r := FirstRow(rows, ws, path).value;
    var j :| 0 <= j < |rows| && rows[j] == r;
  }

  /** Without a row for the path, the stamp the client sent makes no difference. */
  lemma NoRowIgnoresPrevious(env: Env, rows: seq<Row>, issued: nat, ws: string, req: PostRequest, other: int)
    requires FirstRow(rows, ws, req.filePath).None?
    ensures PostSpec(env, rows, issued, ws, req) == PostSpec(env, rows, issued, ws, req.(previousUpdatedAt := other))
  {
  }

  /** Deleting a path that has no row is refused and changes nothing. */
  lemma DeleteMissingRejected(env: Env, rows: seq<Row>, issued: nat, ws: string, req: PostRequest)
    requires req.isDeleted && FirstRow(rows, ws, req.filePath).None?
    ensures PostSpec(env, rows, issued, ws, req) == (rows, issued, Rejected(FileDoesNotExist))
  {
  }

  /**
   * An accepted delete turns every row for the path into a tombstone with
   * both stamps set to the one sent (null when none was); it keeps the row's
   * id, sizes and creation time, and leaves every other row alone.
   */
  lemma DeleteTombstones(env: Env, rows: seq<Row>, issued: nat, ws: string, req: PostRequest)
    requires req.isDeleted
    requires var e := FirstRow(rows, ws, req.filePath); e.Some? && e.value.updatedAt == Some(req.previousUpdatedAt)
    requires env.unlinks(FirstRow(rows, ws, req.filePath).value.s3Path)
    ensures var (rows', issued', resp) := PostSpec(env, rows, issued, ws, req);
      var stamp := req.updatedAt;
      && resp == Success && issued' == issued && |rows'| == |rows|
      && (forall i :: 0 <= i < |rows| && Matches(rows[i], ws, req.filePath) ==>
            rows'[i].deleted && rows'[i].s3Path == "" && rows'[i].s3Hash == ""
            && rows'[i].updatedAt == stamp && rows'[i].deletedAt == stamp
            && rows'[i].fileId == rows[i].fileId && rows'[i].createdAt == rows[i].createdAt
            && rows'[i].fileSize == rows[i].fileSize && rows'[i].s3Size == rows[i].s3Size)
      && (forall i :: 0 <= i < |rows| && !Matches(rows[i], ws, req.filePath) ==> rows'[i] == rows[i])
  {
  }

  /**
   * An accepted write to a path that has a row replaces the stored blob,
   * sizes and update stamp, and nothing else: a tombstoned row stays
   * deleted, and the creation and deletion stamps are kept.
   */
  lemma WriteUpdatesRow(env: Env, rows: seq<Row>, issued: nat, ws: string, req: PostRequest)
    requires !req.isDeleted && req.file.Some? && env.uploads(ws, req.filePath)
    requires var e := FirstRow(rows, ws, req.filePath); e.Some? && e.value.updatedAt == Some(req.previousUpdatedAt)
    ensures var (rows', issued', resp) := PostSpec(env, rows, issued, ws, req);
      && resp == Success && issued' == issued && |rows'| == |rows|
      && (forall i :: 0 <= i < |rows| && Matches(rows[i], ws, req.filePath) ==>
            rows'[i].deleted == rows[i].deleted && rows'[i].createdAt == rows[i].createdAt
            && rows'[i].deletedAt == rows[i].deletedAt && rows'[i].fileId == rows[i].fileId
            && rows'[i].updatedAt == req.updatedAt
            && rows'[i].blob == req.file
            && rows'[i].fileSize == rows'[i].s3Size == env.storedSize(req.file.value))
      && (forall i :: 0 <= i < |rows| && !Matches(rows[i], ws, req.filePath) ==> rows'[i] == rows[i])
  {
  }

  /** A write to a new path appends one live row whose creation and update stamps are the one sent (null when none was). */
  lemma WriteInsertsRow(env: Env, rows: seq<Row>, issued: nat, ws: string, req: PostRequest)
    requires !req.isDeleted && req.file.Some? && env.uploads(ws, req.filePath)
    requires FirstRow(rows, ws, req.filePath).None?
    ensures var (rows', issued', resp) := PostSpec(env, rows, issued, ws, req);
      var stamp := req.updatedAt;
      && resp == Success && issued' == issued + 2
      && |rows'| == |rows| + 1 && rows'[..|rows|] == rows
      && var r := rows'[|rows|];
      && Matches(r, ws, req.filePath) && !r.deleted && r.deletedAt == Some(0)
      && r.createdAt == stamp && r.updatedAt == stamp && r.blob == req.file
      && r.fileId == env.ulid(issued + 1)
  {
    var (rows', issued', resp) := PostSpec(env, rows, issued, ws, req);
    assert rows'[..|rows|] == rows;
  }

  /** No request creates a second row for a path. */
  lemma PostKeepsPathsUnique(env: Env, rows: seq<Row>, issued: nat, ws: string, req: PostRequest)
    requires UniquePaths(rows)
    ensures UniquePaths(PostSpec(env, rows, issued, ws, req).0)
  {
    var rows' := PostSpec(env, rows, issued, ws, req).0;
    var existing := FirstRow(rows, ws, req.filePath);
    if |rows'| != |rows| {
      forall i, j | 0 <= i < j < |rows'|
        ensures !(rows'[i].workspaceId == rows'[j].workspaceId && rows'[i].filePath == rows'[j].filePath)
      {
        if j == |rows| {
          assert rows'[i] == rows[i];
        } else {
          assert rows'[i] == rows[i] && rows'[j] == rows[j];
        }
      }
    } else {
      forall i | 0 <= i < |rows'|
        ensures rows'[i].workspaceId == rows[i].workspaceId && rows'[i].filePath == rows[i].filePath
      {
      }
    }
  }

  /**
   * A request the guard lets through fails on the server exactly when its
   * storage call rejects (or a write carries no file), and then the table is
   * as it was; only the id drawn at line 58 for a new path stays drawn.
   */
  lemma ServerErrorOnlyFromStorage(env: Env, rows: seq<Row>, issued: nat, ws: string, req: PostRequest)
    ensures var existing := FirstRow(rows, ws, req.filePath);
      var (rows', issued', resp) := PostSpec(env, rows, issued, ws, req);
      && (resp == ServerError <==>
            && (existing.None? || existing.value.updatedAt == Some(req.previousUpdatedAt))
            && (if req.isDeleted then existing.Some? && !env.unlinks(existing.value.s3Path)
                else req.file.None? || !env.uploads(ws, req.filePath)))
      && (resp == ServerError ==> rows' == rows && issued' == (if existing.Some? then issued else issued + 1))
  {
  }

  /** A row whose update stamp is null rejects every request on its path, whatever stamp is sent. */
  lemma StamplessRowRejects(env: Env, rows: seq<Row>, issued: nat, ws: string, req: PostRequest, i: nat)
    requires UniquePaths(rows)
    requires i < |rows| && Matches(rows[i], ws, req.filePath) && rows[i].updatedAt.None?
    ensures PostSpec(env, rows, issued, ws, req) == (rows, issued, Rejected(UpdatedSinceLastSync))
  {
    SameMatchingRow(rows, ws, req.filePath, i);
  }

  /**
   * An accepted request sent without `updatedAt` (every delete the client
   * sends, and a write stamped 0) leaves null in the row's update stamp, so
   * from then on every request on that path is rejected and changes nothing.
   */
  lemma {:induction false} StamplessRequestLocksPath(env: Env, rows: seq<Row>, issued: nat, ws: string,
                                                     req: PostRequest, next: PostRequest)
    requires UniquePaths(rows)
    requires req.updatedAt.None? && PostSpec(env, rows, issued, ws, req).2 == Success
    requires next.filePath == req.filePath
    ensures var (rows1, issued1, _) := PostSpec(env, rows, issued, ws, req);
      && FirstRow(rows1, ws, req.filePath).Some?
      && FirstRow(rows1, ws, req.filePath).value.updatedAt.None?
      && PostSpec(env, rows1, issued1, ws, next) == (rows1, issued1, Rejected(UpdatedSinceLastSync))
  {
    var (rows1, issued1, _) := PostSpec(env, rows, issued, ws, req);
    PostKeepsPathsUnique(env, rows, issued, ws, req);
    var existing := FirstRow(rows, ws, req.filePath);
    var i: nat;
    if existing.Some? {
      i :| 0 <= i < |rows| && rows[i] == existing.value;
      SameMatchingRow(rows, ws, req.filePath, i);
      if req.isDeleted {
        DeleteTombstones(env, rows, issued, ws, req);
      } else {
        WriteUpdatesRow(env, rows, issued, ws, req);
      }
    } else {
      i := |rows|;
      WriteInsertsRow(env, rows, issued, ws, req);
    }
    assert Matches(rows1[i], ws, req.filePath) && rows1[i].updatedAt.None?;
    SameMatchingRow(rows1, ws, req.filePath, i);
    StamplessRowRejects(env, rows1, issued1, ws, next, i);
  }

  // ----- reads -----

  function SummaryOf(r: Row): SummaryRow {
    SummaryRow(r.fileId, r.fileSize, r.filePath, r.deleted, r.updatedAt, r.s3Hash, r.deletedAt, r.createdAt)
  }

  /** `GET summary`: every row of the workspace, in table order, tombstones included. */
  function Summary(rows: seq<Row>, ws: string): (r: seq<SummaryRow>)
    ensures forall s :: s in r <==> exists i :: 0 <= i < |rows| && rows[i].workspaceId == ws && SummaryOf(rows[i]) == s
    ensures |r| <= |rows|
    decreases |rows|
  {
    if rows == [] then []
    else
      var rest := Summary(rows[1..], ws);
      assert forall i :: 1 <= i < |rows| ==> rows[i] == rows[1..][i - 1];
      if rows[0].workspaceId == ws then [SummaryOf(rows[0])] + rest else rest
  }

  /** `GET /file/:fileId`: the first row with that id in the workspace, if any. */
  function FileById(rows: seq<Row>, ws: string, fileId: string): (r: Option<Row>)
    ensures r.None? <==> forall i :: 0 <= i < |rows| ==> !(rows[i].fileId == fileId && rows[i].workspaceId == ws)
    ensures r.Some? ==> r.value in rows && r.value.fileId == fileId && r.value.workspaceId == ws
    decreases |rows|
  {
    if rows == [] then None
    else if rows[0].fileId == fileId && rows[0].workspaceId == ws then Some(rows[0])
    else
      assert forall i :: 1 <= i < |rows| ==> rows[i] == rows[1..][i - 1];
      FileById(rows[1..], ws, fileId)
  }

  /**
   * The download: 404 for an unknown id; otherwise the stored bytes, named
   * after the last `/`-segment of the path, with the stored size as length.
   */
  function Download(rows: seq<Row>, ws: string, fileId: string): (resp: DownloadResponse)
    ensures resp.NotFound? <==> FileById(rows, ws, fileId).None?
    ensures resp.Served? ==> var r := FileById(rows, ws, fileId).value;
      && Some(resp.body) == r.blob && resp.contentLength == r.s3Size
      && resp.fileName == r.filePath[Text.LastIndexOf(r.filePath, '/') + 1..]
      && '/' !in resp.fileName
  {
    match FileById(rows, ws, fileId)
    case None => NotFound
    case Some(r) =>
      match r.blob
      case None => StorageFailure
      case Some(b) =>
        Text.LastPieceIsSuffix(r.filePath, '/');
        Served(b, Text.LastPiece(r.filePath, '/'), r.s3Size)
  }

  /** The table and the handlers, with the number of ids handed out so far. */
  class FilesTable {
    var rows: seq<Row>
    var issued: nat
    const env: Env

    constructor (env: Env)
      ensures rows == [] && issued == 0 && this.env == env
    {
      rows := [];
      issued := 0;
      this.env := env;
    }

    /** `POST /` for workspace `ws`. */
    method Post(ws: string, req: PostRequest) returns (resp: PostResponse)
      modifies this
      ensures (rows, issued, resp) == PostSpec(env, old(rows), old(issued), ws, req)
    {
      var existing := FirstRow(rows, ws, req.filePath);
      if existing.Some? && existing.value.updatedAt != Some(req.previousUpdatedAt) {
        return Rejected(UpdatedSinceLastSync);
      }
      var stamp := req.updatedAt;
      if req.isDeleted {
        if existing.None? {
          return Rejected(FileDoesNotExist);
        }
        if !env.unlinks(existing.value.s3Path) {
          return ServerError;
        }
        rows := UpdateWhere(rows, ws, req.filePath, Tombstoned(stamp));
        return Success;
      }
      if existing.None? {
        issued := issued + 1;
      }
      if req.file.None? || !env.uploads(ws, req.filePath) {
        return ServerError;
      }
      var content := req.file.value;
      var s3Path := env.storagePath(ws, req.filePath);
      var s3Hash := env.storageHash(ws, req.filePath, content);
      var size := env.storedSize(content);
      if existing.Some? {
        rows := UpdateWhere(rows, ws, req.filePath, Uploaded(s3Path, s3Hash, size, stamp, content));
      } else {
        rows := rows + [Row(env.ulid(issued), ws, req.filePath, size, s3Path, s3Hash, size,
                            false, stamp, Some(0), stamp, Some(content))];
        issued := issued + 1;
      }
      resp := Success;
    }
  }
}
