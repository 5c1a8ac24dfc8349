/**
 * The replica-independent vocabulary of the sync engine: bytes, the
 * per-path metadata record every replica lists, the errors a replica
 * operation can throw, and the `files.find(f => f.path === path)` lookup.
 */
module Fs {
  import opened Wrappers

  newtype byte = x: int | 0 <= x < 256

  /** The contents of an `ArrayBuffer` / `Uint8Array`. */
  type Bytes = seq<byte>

  /**
   * One entry of a replica listing, live file or tombstone. Timestamps are
   * milliseconds since the epoch. The server may list a stamp as `null`;
   * the stamps here are the numbers `<` and `>` compare, where `null` counts
   * as 0, and `nullStamp` records that `updatedAt` was `null`, which only
   * matters where the value is serialised (a host entry never has it).
   */
  datatype FileMetadata = FileMetadata(
    path: string,
    size: int,
    createdAt: int,
    updatedAt: int,
    deletedAt: int,
    deleted: bool,
    nullStamp: bool)

  /** What a replica operation throws. */
  datatype Error =
    | ModifiedSinceLastSync   // the optimistic-concurrency guard saw another stamp
    | FileNotFound            // the content of an unknown path was asked for
    | PruneNotSupported       // the remote replica refuses to forget a tombstone
    | DecryptionFailed        // the cipher rejected a frame
    | RequestFailed           // the server answered with something other than JSON
    | WriteRejected           // the vault adapter refused a write: a folder at the path, or a file above it
    | NullStamp               // `previousUpdatedAt.toString()` on a `null` stamp threw a TypeError

  /** `files.find(file => file.path === path)`: the first entry listed for `path`. */
  function GetFile(files: seq<FileMetadata>, path: string): (r: Option<FileMetadata>)
    ensures r.Some? ==> r.value in files && r.value.path == path
    ensures r.None? <==> forall i :: 0 <= i < |files| ==> files[i].path != path
    ensures r.Some? ==> exists i :: (0 <= i < |files| && files[i] == r.value
      && forall j :: 0 <= j < i ==> files[j].path != path)
    decreases |files|
  {
    if files == [] then None
    else if files[0].path == path then Some(files[0])
    else
      var r := GetFile(files[1..], path);
      assert forall i :: 1 <= i < |files| ==> files[i] == files[1..][i - 1];
      r
  }

  /**
   * How many entries `files` lists for `path`. A host listing holds two for a
   * path that has both a live file and a tombstone record.
   */
  function Count(files: seq<FileMetadata>, path: string): (r: nat)
    ensures r == 0 <==> forall i :: 0 <= i < |files| ==> files[i].path != path
    decreases |files|
  {
    if files == [] then 0
    else
      var n := |files| - 1;
      var c := Count(files[..n], path);
      assert forall i :: 0 <= i < n ==> files[..n][i] == files[i];
      c + if files[n].path == path then 1 else 0
  }

  lemma {:induction false} GetFileSnoc(files: seq<FileMetadata>, x: FileMetadata, path: string)
    ensures GetFile(files + [x], path) ==
      if GetFile(files, path).Some? then GetFile(files, path) else if x.path == path then Some(x) else None
    decreases |files|
  {
    if files != [] {
      assert (files + [x])[1..] == files[1..] + [x];
      GetFileSnoc(files[1..], x, path);
    }
  }

  /** A path listed at most once is found as that one entry. */
  lemma {:induction false} OnlyEntry(files: seq<FileMetadata>, path: string, x: FileMetadata)
    requires Count(files, path) <= 1 && x in files && x.path == path
    ensures GetFile(files, path) == Some(x)
    decreases |files|
  {
    var n := |files| - 1;
    var init := files[..n];
    assert files == init + [files[n]];
    GetFileSnoc(init, files[n], path);
    if files[n] != x {
      assert x in init;
      assert Count(init, path) >= 1;
      OnlyEntry(init, path, x);
    }
  }
}
