/**
 * The local tombstone store (packages/paintress-sync-plugin/src/fs.local.file-history.ts):
 * a plain object from vault path to the stamps the file had when it was
 * deleted. Its keys are kept in insertion order and enumerated as
 * `Object.entries` does (`ObjectEntries`).
 */
module LocalHistory {
  import opened Wrappers
  import opened OrderedMap

  /** What is remembered about a deleted file. */
  datatype FileHistory = FileHistory(deletedAt: int, updatedAt: int, createdAt: int)

  /** One entry of `getAllDeletedFiles()`. */
  datatype DeletedFile = DeletedFile(path: string, deletedAt: int, updatedAt: int, createdAt: int)

  /**
   * `JSON.parse` of the saved file: a list of key/value pairs in the file's
   * order, where a key given twice keeps its first position and its last value.
   */
  type StoredHistory = seq<(string, FileHistory)>

  function Parsed(stored: Option<StoredHistory>): (data: OMap<FileHistory>)
    ensures UniqueKeys(data)
    ensures stored.None? ==> data == []
    ensures stored.Some? ==> forall p :: Get(data, p) == LastValue(stored.value, p)
  {
    match stored
    case None => []
    case Some(kvs) =>
      PutAllUnique([], kvs);
      forall p ensures Get(PutAll([], kvs), p) == LastValue(kvs, p) {
        PutAllGet([], kvs, p);
      }
      PutAll([], kvs)
  }

  function Listing(data: OMap<FileHistory>): seq<DeletedFile> {
    seq(|data|, i requires 0 <= i < |data| =>
      DeletedFile(data[i].0, data[i].1.deletedAt, data[i].1.updatedAt, data[i].1.createdAt))
  }

  /** A listing of a rearrangement of the store: every remembered path once, with its stamps. */
  lemma ListingOfPermutation(data: OMap<FileHistory>, e: OMap<FileHistory>)
    requires UniqueKeys(data) && multiset(e) == multiset(data)
    ensures var r := Listing(e);
      && (forall i :: 0 <= i < |r| ==>
            Get(data, r[i].path) == Some(FileHistory(r[i].deletedAt, r[i].updatedAt, r[i].createdAt)))
      && (forall p :: Get(data, p).Some? ==> exists i :: 0 <= i < |r| && r[i].path == p)
      && (forall i, j :: 0 <= i < j < |r| ==> r[i].path != r[j].path)
  {
    PermutedEntries(data, e);
    var r := Listing(e);
    assert forall i :: 0 <= i < |r| ==>
      r[i] == DeletedFile(e[i].0, e[i].1.deletedAt, e[i].1.updatedAt, e[i].1.createdAt);
    forall p | Get(data, p).Some? ensures exists i :: 0 <= i < |r| && r[i].path == p {
      var i :| 0 <= i < |e| && e[i].0 == p;
      assert r[i].path == p;
    }
    forall i, j | 0 <= i < j < |r| ensures r[i].path != r[j].path {
      assert Keys(e)[i] == r[i].path && Keys(e)[j] == r[j].path;
    }
  }

  /** What `getAllDeletedFiles` promises, stated for the store's contents. */
  lemma DeletedListing(data: OMap<FileHistory>)
    requires UniqueKeys(data)
    ensures var r := Listing(ObjectEntries(data));
      && |r| == |data|
      && (forall i :: 0 <= i < |r| ==> r[i].path == ObjectEntries(data)[i].0)
      && (forall i, j :: 0 <= i < j < |r| && IsArrayIndex(r[j].path) ==>
            IsArrayIndex(r[i].path) && DecimalValue(r[i].path) <= DecimalValue(r[j].path))
      && (forall i :: 0 <= i < |r| ==>
            Get(data, r[i].path) == Some(FileHistory(r[i].deletedAt, r[i].updatedAt, r[i].createdAt)))
      && (forall p :: Get(data, p).Some? ==> exists i :: 0 <= i < |r| && r[i].path == p)
      && (forall i, j :: 0 <= i < j < |r| ==> r[i].path != r[j].path)
  {
    ObjectEntriesOrder(data);
    ListingOfPermutation(data, ObjectEntries(data));
    ListingInEntryOrder(data);
  }

  /** The listing follows `Object.entries`: same length, same paths position by position. */
  lemma ListingInEntryOrder(data: OMap<FileHistory>)
    ensures var r := Listing(ObjectEntries(data));
      && |r| == |data|
      && (forall i :: 0 <= i < |r| ==> r[i].path == ObjectEntries(data)[i].0)
      && (forall i, j :: 0 <= i < j < |r| && IsArrayIndex(r[j].path) ==>
            IsArrayIndex(r[i].path) && DecimalValue(r[i].path) <= DecimalValue(r[j].path))
  {
    var e := ObjectEntries(data);
    var r := Listing(e);
    ObjectEntriesOrder(data);
    assert |e| == |data| by {
      assert |multiset(e)| == |multiset(data)|;
    }
    assert forall i :: 0 <= i < |r| ==> r[i].path == e[i].0;
  }

  class LocalFileHistory {
    var data: OMap<FileHistory>

    ghost predicate Valid()
      reads this
    {
      UniqueKeys(data)
    }

    /**
     * The constructor starts from `{}` and starts loading the saved file
     * without waiting for it; the load completes later, in `LoadData`.
     */
    constructor ()
      ensures Valid()
      ensures data == []
    {
      data := [];
    }

    /**
     * `loadData()` completing: `stored` is `None` when the file is missing
     * or is not valid JSON, and the store then becomes empty. Whatever was
     * in the store before is replaced, marks made meanwhile included.
     */
    method LoadData(stored: Option<StoredHistory>)
      modifies this
      ensures Valid()
      ensures data == Parsed(stored)
    {
      data := Parsed(stored);
    }

    /** `markFileAsDeleted(filePath, mtime, ctime)`, with `now` for `Date.now()`. */
    method MarkFileAsDeleted(filePath: string, mtime: int, ctime: int, now: int)
      requires Valid()
      modifies this
      ensures Valid()
      ensures data == Put(old(data), filePath, FileHistory(now, mtime, ctime))
    {
      data := Put(data, filePath, FileHistory(now, mtime, ctime));
    }

    /**
     * `getAllDeletedFiles()`: one entry per remembered path, in the order of
     * `Object.entries` (paths that are array indices first, ascending, then
     * the others in insertion order); a path is listed exactly when it is
     * remembered, with the stamps remembered for it, and no path is listed
     * twice.
     */
    function GetAllDeletedFiles(): (r: seq<DeletedFile>)
      requires Valid()
      reads this
      ensures |r| == |data|
      ensures forall i :: 0 <= i < |r| ==> r[i].path == ObjectEntries(data)[i].0
      ensures forall i, j :: 0 <= i < j < |r| && IsArrayIndex(r[j].path) ==>
        IsArrayIndex(r[i].path) && DecimalValue(r[i].path) <= DecimalValue(r[j].path)
      ensures forall i :: 0 <= i < |r| ==>
        Get(data, r[i].path) == Some(FileHistory(r[i].deletedAt, r[i].updatedAt, r[i].createdAt))
      ensures forall p :: Get(data, p).Some? ==> exists i :: 0 <= i < |r| && r[i].path == p
      ensures forall i, j :: 0 <= i < j < |r| ==> r[i].path != r[j].path
    {
      DeletedListing(data);
      Listing(ObjectEntries(data))
    }

    /** `removeEntry(filePath)`: forget the path; an unknown path changes nothing. */
    method RemoveEntry(filePath: string)
      requires Valid()
      modifies this
      ensures Valid()
      ensures data == Delete(old(data), filePath)
    {
      data := Delete(data, filePath);
    }
  }

  /** After marking a path deleted, it is looked up with the new stamps and nothing else changes. */
  lemma MarkRecords(data: OMap<FileHistory>, p: string, mtime: int, ctime: int, now: int)
    ensures Get(Put(data, p, FileHistory(now, mtime, ctime)), p) == Some(FileHistory(now, mtime, ctime))
    ensures forall q :: q != p ==> Get(Put(data, p, FileHistory(now, mtime, ctime)), q) == Get(data, q)
    ensures |Put(data, p, FileHistory(now, mtime, ctime))| == if p in Keys(data) then |data| else |data| + 1
  {
    assert |Keys(Put(data, p, FileHistory(now, mtime, ctime)))| == |Put(data, p, FileHistory(now, mtime, ctime))|;
  }

  /** After removing a path it is no longer remembered, and nothing else changes. */
  lemma RemoveForgets(data: OMap<FileHistory>, p: string)
    requires UniqueKeys(data)
    ensures Get(Delete(data, p), p) == None
    ensures forall q :: q != p ==> Get(Delete(data, p), q) == Get(data, q)
  {
  }

  /** Removing a path twice is the same as removing it once. */
  lemma RemoveIdempotent(data: OMap<FileHistory>, p: string)
    requires UniqueKeys(data)
    ensures Delete(Delete(data, p), p) == Delete(data, p)
  {
    assert IndexOf(Delete(data, p), p).None?;
  }

  /** Marking a path that was not remembered and then removing it restores the store. */
  lemma MarkThenRemove(data: OMap<FileHistory>, p: string, h: FileHistory)
    requires UniqueKeys(data)
    requires Get(data, p).None?
    ensures Delete(Put(data, p, h), p) == data
  {
    PutNewThenDelete(data, p, h);
  }
}
