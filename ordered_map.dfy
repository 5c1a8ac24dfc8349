/**
 * An insertion-ordered dictionary, as a JavaScript `Map` behaves: `set` on a
 * present key replaces its value in place, `set` on a new key appends it,
 * `delete` drops the key, and the entries are listed in insertion order.
 * A plain object is kept the same way but enumerated by `ObjectEntries`,
 * which lists the array-index keys first, in ascending numeric order.
 */
module OrderedMap {
  import opened Wrappers

  type OMap<V> = seq<(string, V)>

  function Keys<V>(m: OMap<V>): seq<string> {
    seq(|m|, i requires 0 <= i < |m| => m[i].0)
  }

  function Values<V>(m: OMap<V>): seq<V> {
    seq(|m|, i requires 0 <= i < |m| => m[i].1)
  }

  /** No key is listed twice. */
  ghost predicate UniqueKeys<V>(m: OMap<V>) {
    NoDuplicates(Keys(m))
  }

  ghost predicate NoDuplicates(s: seq<string>) {
    forall i, j :: 0 <= i < j < |s| ==> s[i] != s[j]
  }

  /** Position of key `k`, if it is present. */
  function IndexOf<V>(m: OMap<V>, k: string): (r: Option<nat>)
    ensures r.Some? ==> r.value < |m| && m[r.value].0 == k
    ensures r.Some? ==> forall j :: 0 <= j < r.value ==> m[j].0 != k
    ensures r.None? <==> k !in Keys(m)
  {
    if m == [] then None
    else
      assert Keys(m) == [m[0].0] + Keys(m[1..]);
      if m[0].0 == k then Some(0)
      else
        match IndexOf(m[1..], k)
        case None => None
        case Some(i) => Some(i + 1)
  }

  /** `map.get(k)`: the value stored under `k`, if any. */
  function Get<V>(m: OMap<V>, k: string): Option<V> {
    match IndexOf(m, k)
    case None => None
    case Some(i) => Some(m[i].1)
  }

  /** `map.set(k, v)`. */
  function Put<V>(m: OMap<V>, k: string, v: V): (r: OMap<V>)
    ensures UniqueKeys(m) ==> UniqueKeys(r)
    ensures Get(r, k) == Some(v)
    ensures forall k' :: k' != k ==> Get(r, k') == Get(m, k')
    ensures Keys(r) == if k in Keys(m) then Keys(m) else Keys(m) + [k]
  {
    match IndexOf(m, k)
    case Some(i) =>
      var r := m[i := (k, v)];
      assert forall j :: 0 <= j < |r| ==> Keys(r)[j] == Keys(m)[j];
      assert Keys(r) == Keys(m);
      assert Keys(m)[i] == k;
      IndexOfSameKeys(m, r, k);
      forall k' | k' != k ensures Get(r, k') == Get(m, k') {
        IndexOfSameKeys(m, r, k');
      }
      r
    case None =>
      var r := m + [(k, v)];
      assert Keys(r) == Keys(m) + [k];
      IndexOfAppendNew(m, k, v);
      assert UniqueKeys(m) ==> UniqueKeys(r) by {
        if UniqueKeys(m) {
          forall a, b | 0 <= a < b < |r| ensures Keys(r)[a] != Keys(r)[b] {
            if b < |m| {
              assert Keys(r)[a] == Keys(m)[a] && Keys(r)[b] == Keys(m)[b];
            }
          }
        }
      }
      forall k' | k' != k ensures Get(r, k') == Get(m, k') {
        IndexOfAppend(m, (k, v), k');
      }
      r
  }

  /** `delete obj[k]`. */
  function Delete<V>(m: OMap<V>, k: string): (r: OMap<V>)
    ensures UniqueKeys(m) ==> UniqueKeys(r) && Get(r, k) == None
    ensures UniqueKeys(m) ==> forall k' :: k' != k ==> Get(r, k') == Get(m, k')
    ensures k !in Keys(m) ==> r == m
    ensures |r| <= |m|
  {
    match IndexOf(m, k)
    case None => m
    case Some(i) =>
      var r := m[..i] + m[i + 1..];
      DeleteAt(m, i, k);
      r
  }

  lemma DeleteAt<V>(m: OMap<V>, i: nat, k: string)
    requires i < |m| && m[i].0 == k
    ensures UniqueKeys(m) ==> UniqueKeys(m[..i] + m[i + 1..]) && Get(m[..i] + m[i + 1..], k) == None
    ensures UniqueKeys(m) ==> forall k' :: k' != k ==> Get(m[..i] + m[i + 1..], k') == Get(m, k')
  {
    if UniqueKeys(m) {
      var r := m[..i] + m[i + 1..];
      var ks := Keys(m);
      assert Keys(r) == ks[..i] + ks[i + 1..];
      assert ks[i] == k;
      RemovedNoDuplicates(ks, i);
      forall k' | k' != k ensures Get(r, k') == Get(m, k') {
        match IndexOf(m, k')
        case None =>
          assert k' !in Keys(r);
        case Some(j) =>
          var j' := if j < i then j else j - 1;
          assert r[j'] == m[j];
          GetUnique(m, k');
          GetUnique(r, k');
      }
    }
  }

  lemma RemovedNoDuplicates(s: seq<string>, i: nat)
    requires i < |s| && NoDuplicates(s)
    ensures NoDuplicates(s[..i] + s[i + 1..]) && s[i] !in s[..i] + s[i + 1..]
  {
    var r := s[..i] + s[i + 1..];
    assert forall j :: 0 <= j < |r| ==> r[j] == s[if j < i then j else j + 1];
  }

  /** Two listings with the same key at every position find keys at the same place. */
  lemma {:induction false} IndexOfSameKeys<V>(m: OMap<V>, r: OMap<V>, k: string)
    requires Keys(m) == Keys(r)
    ensures IndexOf(m, k) == IndexOf(r, k)
  {
    assert |m| == |Keys(m)| == |Keys(r)| == |r|;
    if m != [] {
      assert m[0].0 == Keys(m)[0] == Keys(r)[0] == r[0].0;
      assert Keys(m[1..]) == Keys(m)[1..] == Keys(r)[1..] == Keys(r[1..]);
      IndexOfSameKeys(m[1..], r[1..], k);
    }
  }

  lemma {:induction false} IndexOfAppend<V>(m: OMap<V>, e: (string, V), k: string)
    requires k != e.0
    ensures IndexOf(m + [e], k) == IndexOf(m, k)
  {
    if m != [] {
      assert (m + [e])[1..] == m[1..] + [e];
      IndexOfAppend(m[1..], e, k);
    }
  }

  lemma {:induction false} IndexOfAppendNew<V>(m: OMap<V>, k: string, v: V)
    requires k !in Keys(m)
    ensures IndexOf(m + [(k, v)], k) == Some(|m|)
  {
    if m != [] {
      assert (m + [(k, v)])[1..] == m[1..] + [(k, v)];
      assert Keys(m) == [m[0].0] + Keys(m[1..]);
      IndexOfAppendNew(m[1..], k, v);
    }
  }

  /** With unique keys, `Get` finds the one entry that holds the key. */
  lemma GetUnique<V>(m: OMap<V>, k: string)
    requires UniqueKeys(m)
    ensures forall j :: 0 <= j < |m| && m[j].0 == k ==> Get(m, k) == Some(m[j].1)
    ensures (forall j :: 0 <= j < |m| ==> m[j].0 != k) ==> Get(m, k) == None
  {
    assert forall j :: 0 <= j < |m| ==> Keys(m)[j] == m[j].0;
  }

  /** The keys of a listing with unique keys have no duplicates. */
  lemma UniqueKeysNoDuplicates<V>(m: OMap<V>)
    requires UniqueKeys(m)
    ensures NoDuplicates(Keys(m))
  {
  }

  // ---------------------------------------------------------------
  // A run of `set` calls, and its two reference descriptions:
  // the value of each key is the last one set, and the key order is the
  // order of first insertion.
  // ---------------------------------------------------------------

  /** `for (const [k, v] of kvs) map.set(k, v)`. */
  function PutAll<V>(m: OMap<V>, kvs: seq<(string, V)>): OMap<V>
    decreases |kvs|
  {
    if kvs == [] then m
    else Put(PutAll(m, kvs[..|kvs| - 1]), kvs[|kvs| - 1].0, kvs[|kvs| - 1].1)
  }

  /** The value of the last pair in `kvs` whose key is `k`. */
  function LastValue<V>(kvs: seq<(string, V)>, k: string): (r: Option<V>)
    ensures r.None? <==> forall i :: 0 <= i < |kvs| ==> kvs[i].0 != k
    ensures r.Some? ==> exists i :: 0 <= i < |kvs| && kvs[i] == (k, r.value)
    decreases |kvs|
  {
    if kvs == [] then None
    else if kvs[|kvs| - 1].0 == k then Some(kvs[|kvs| - 1].1)
    else
      var r := LastValue(kvs[..|kvs| - 1], k);
      assert forall i :: 0 <= i < |kvs| - 1 ==> kvs[..|kvs| - 1][i] == kvs[i];
      r
  }

  /** The elements of `s` in the order of their first occurrence. */
  function Dedup(s: seq<string>): (r: seq<string>)
    ensures NoDuplicates(r)
    ensures forall x :: x in r <==> x in s
    decreases |s|
  {
    if s == [] then []
    else
      var d := Dedup(s[..|s| - 1]);
      assert s == s[..|s| - 1] + [s[|s| - 1]];
      if s[|s| - 1] in d then d else d + [s[|s| - 1]]
  }

  lemma {:induction false} PutAllAppend<V>(m: OMap<V>, a: seq<(string, V)>, b: seq<(string, V)>)
    ensures PutAll(m, a + b) == PutAll(PutAll(m, a), b)
    decreases |b|
  {
    if b == [] {
      assert a + b == a;
    } else {
      assert (a + b)[..|a + b| - 1] == a + b[..|b| - 1];
      PutAllAppend(m, a, b[..|b| - 1]);
    }
  }

  /** After a run of `set` calls each key holds the last value set for it. */
  lemma {:induction false} PutAllGet<V>(m: OMap<V>, kvs: seq<(string, V)>, k: string)
    ensures Get(PutAll(m, kvs), k) == match LastValue(kvs, k) case Some(v) => Some(v) case None => Get(m, k)
    decreases |kvs|
  {
    if kvs != [] {
      PutAllGet(m, kvs[..|kvs| - 1], k);
    }
  }

  /** A run of `set` calls keeps the keys unique. */
  lemma {:induction false} PutAllUnique<V>(m: OMap<V>, kvs: seq<(string, V)>)
    requires UniqueKeys(m)
    ensures UniqueKeys(PutAll(m, kvs))
    decreases |kvs|
  {
    if kvs != [] {
      PutAllUnique(m, kvs[..|kvs| - 1]);
    }
  }

  function Firsts<V>(kvs: seq<(string, V)>): seq<string> {
    seq(|kvs|, i requires 0 <= i < |kvs| => kvs[i].0)
  }

  lemma DedupOfDistinct(s: seq<string>)
    requires NoDuplicates(s)
    ensures Dedup(s) == s
    decreases |s|
  {
    if s != [] {
      var n := |s| - 1;
      DedupOfDistinct(s[..n]);
      assert s[n] !in s[..n];
    }
  }

  /** After a run of `set` calls, new keys appear in the order they were first set. */
  lemma {:induction false} PutAllKeys<V>(m: OMap<V>, kvs: seq<(string, V)>)
    requires UniqueKeys(m)
    ensures Keys(PutAll(m, kvs)) == Dedup(Keys(m) + Firsts(kvs))
    decreases |kvs|
  {
    if kvs == [] {
      assert Keys(m) + Firsts(kvs) == Keys(m);
      DedupOfDistinct(Keys(m));
    } else {
      PutAllKeys(m, kvs[..|kvs| - 1]);
      PutAllKeysStep(m, kvs);
    }
  }

  lemma PutAllKeysStep<V>(m: OMap<V>, kvs: seq<(string, V)>)
    requires kvs != []
    requires Keys(PutAll(m, kvs[..|kvs| - 1])) == Dedup(Keys(m) + Firsts(kvs[..|kvs| - 1]))
    ensures Keys(PutAll(m, kvs)) == Dedup(Keys(m) + Firsts(kvs))
  {
    var n := |kvs| - 1;
    var pm := PutAll(m, kvs[..n]);
    assert PutAll(m, kvs) == Put(pm, kvs[n].0, kvs[n].1);
    FirstsSnoc(kvs);
    ConcatSnoc(Keys(m), Firsts(kvs[..n]), kvs[n].0);
    PutKeysStep(pm, Keys(m) + Firsts(kvs[..n]), kvs[n].0, kvs[n].1, Keys(m) + Firsts(kvs));
  }

  lemma ConcatSnoc(a: seq<string>, b: seq<string>, x: string)
    ensures a + (b + [x]) == (a + b) + [x]
  {
  }

  lemma FirstsSnoc<V>(kvs: seq<(string, V)>)
    requires kvs != []
    ensures Firsts(kvs) == Firsts(kvs[..|kvs| - 1]) + [kvs[|kvs| - 1].0]
  {
    var n := |kvs| - 1;
    var a, b := Firsts(kvs), Firsts(kvs[..n]) + [kvs[n].0];
    assert |a| == |b|;
    forall i | 0 <= i < |a| ensures a[i] == b[i] {
      if i < n {
        assert b[i] == Firsts(kvs[..n])[i];
      }
    }
  }

  /** One more `set`, seen on the keys. */
  lemma PutKeysStep<V>(m: OMap<V>, s: seq<string>, k: string, v: V, t: seq<string>)
    requires Keys(m) == Dedup(s) && t == s + [k]
    ensures Keys(Put(m, k, v)) == Dedup(t)
  {
    DedupSnoc(s, k);
  }

  lemma DedupSnoc(s: seq<string>, x: string)
    ensures Dedup(s + [x]) == if x in Dedup(s) then Dedup(s) else Dedup(s) + [x]
  {
    assert (s + [x])[..|s + [x]| - 1] == s;
  }

  /** Setting a new key and deleting it again gives the map back. */
  lemma PutNewThenDelete<V>(m: OMap<V>, k: string, v: V)
    requires k !in Keys(m)
    ensures Delete(Put(m, k, v), k) == m
  {
    IndexOfAppendNew(m, k, v);
    assert (m + [(k, v)])[..|m|] == m;
  }

  /** The last value set in `a + b` comes from `b` when `b` sets the key at all. */
  lemma {:induction false} LastValueAppend<V>(a: seq<(string, V)>, b: seq<(string, V)>, k: string)
    ensures LastValue(a + b, k) == if LastValue(b, k).Some? then LastValue(b, k) else LastValue(a, k)
    decreases |b|
  {
    if b == [] {
      assert a + b == a;
    } else {
      var n := |b| - 1;
      assert (a + b)[..|a + b| - 1] == a + b[..n];
      assert (a + b)[|a + b| - 1] == b[n];
      LastValueAppend(a, b[..n], k);
    }
  }

  // ---------------------------------------------------------------------
  // Enumerating a plain object
  // ---------------------------------------------------------------------

  /** The number a string of decimal digits denotes; only read on digit strings. */
  function DecimalValue(k: string): nat
    decreases |k|
  {
    if k == [] then 0
    else
      var c := k[|k| - 1];
      DecimalValue(k[..|k| - 1]) * 10 + if '0' <= c <= '9' then c as int - '0' as int else 0
  }

  /**
   * An array index (section 6.1.7 of ECMA-262): the canonical decimal form
   * of an integer below 2^32 - 1, that is `"0"` or digits without a leading
   * zero. Such keys are enumerated before every other key.
   */
  predicate IsArrayIndex(k: string) {
    && |k| > 0
    && (forall i :: 0 <= i < |k| ==> '0' <= k[i] <= '9')
    && (k[0] != '0' || |k| == 1)
    && DecimalValue(k) < 0xFFFF_FFFF
  }

  /** The entries whose key is (`index`) or is not (`!index`) an array index, in order. */
  function Those<V>(m: OMap<V>, index: bool): (r: OMap<V>)
    ensures forall i :: 0 <= i < |r| ==> IsArrayIndex(r[i].0) == index
    decreases |m|
  {
    if m == [] then []
    else (if IsArrayIndex(m[0].0) == index then [m[0]] else []) + Those(m[1..], index)
  }

  /** Entries listed with array-index keys in ascending numeric order. */
  ghost predicate Ascending<V>(m: OMap<V>) {
    forall i, j :: 0 <= i < j < |m| ==> DecimalValue(m[i].0) <= DecimalValue(m[j].0)
  }

  /** `e` placed before the first entry whose number is not below its own. */
  function InsertByIndex<V>(e: (string, V), m: OMap<V>): OMap<V>
    decreases |m|
  {
    if m == [] || DecimalValue(e.0) <= DecimalValue(m[0].0) then [e] + m
    else [m[0]] + InsertByIndex(e, m[1..])
  }

  lemma {:induction false} InsertByIndexPermutes<V>(e: (string, V), m: OMap<V>)
    ensures multiset(InsertByIndex(e, m)) == multiset(m) + multiset{e}
    decreases |m|
  {
    if !(m == [] || DecimalValue(e.0) <= DecimalValue(m[0].0)) {
      InsertByIndexPermutes(e, m[1..]);
      assert m == [m[0]] + m[1..];
    }
  }

  /** A lower bound of `e` and of every entry of `m` bounds every entry of the insertion. */
  lemma {:induction false} InsertByIndexBound<V>(e: (string, V), m: OMap<V>, b: nat)
    requires b <= DecimalValue(e.0)
    requires forall j :: 0 <= j < |m| ==> b <= DecimalValue(m[j].0)
    ensures forall j :: 0 <= j < |InsertByIndex(e, m)| ==> b <= DecimalValue(InsertByIndex(e, m)[j].0)
    decreases |m|
  {
    if !(m == [] || DecimalValue(e.0) <= DecimalValue(m[0].0)) {
      InsertByIndexBound(e, m[1..], b);
    }
  }

  lemma AscendingCons<V>(x: (string, V), m: OMap<V>)
    requires Ascending(m)
    requires forall j :: 0 <= j < |m| ==> DecimalValue(x.0) <= DecimalValue(m[j].0)
    ensures Ascending([x] + m)
  {
    var r := [x] + m;
    forall i, j | 0 <= i < j < |r| ensures DecimalValue(r[i].0) <= DecimalValue(r[j].0) {
      assert r[j] == m[j - 1];
      if i > 0 {
        assert r[i] == m[i - 1];
      }
    }
  }

  lemma {:induction false} InsertByIndexAscending<V>(e: (string, V), m: OMap<V>)
    requires Ascending(m)
    ensures Ascending(InsertByIndex(e, m))
    decreases |m|
  {
    if m == [] || DecimalValue(e.0) <= DecimalValue(m[0].0) {
      AscendingCons(e, m);
    } else {
      assert Ascending(m[1..]);
      InsertByIndexAscending(e, m[1..]);
      InsertByIndexBound(e, m[1..], DecimalValue(m[0].0));
      AscendingCons(m[0], InsertByIndex(e, m[1..]));
    }
  }

  /** Insertion sort by the keys' numbers. */
  function SortByIndex<V>(m: OMap<V>): OMap<V>
    decreases |m|
  {
    if m == [] then [] else InsertByIndex(m[0], SortByIndex(m[1..]))
  }

  lemma {:induction false} SortByIndexSorts<V>(m: OMap<V>)
    ensures multiset(SortByIndex(m)) == multiset(m)
    ensures Ascending(SortByIndex(m))
    decreases |m|
  {
    if m != [] {
      SortByIndexSorts(m[1..]);
      InsertByIndexPermutes(m[0], SortByIndex(m[1..]));
      InsertByIndexAscending(m[0], SortByIndex(m[1..]));
      assert m == [m[0]] + m[1..];
    }
  }

  /**
   * `Object.entries` of a plain object kept as `m`: the array-index keys
   * first, in ascending numeric order, then the other keys in insertion
   * order (section 10.1.11.1 of ECMA-262, OrdinaryOwnPropertyKeys).
   */
  function ObjectEntries<V>(m: OMap<V>): (r: OMap<V>)
    ensures |r| == |m|
  {
    SortByIndexSorts(Those(m, true));
    ThoseSplit(m);
    assert |multiset(SortByIndex(Those(m, true)))| + |multiset(Those(m, false))| == |multiset(m)|;
    SortByIndex(Those(m, true)) + Those(m, false)
  }

  /** `ObjectEntries` lists the same entries, index keys first and ascending, the others in insertion order. */
  lemma ObjectEntriesOrder<V>(m: OMap<V>)
    ensures multiset(ObjectEntries(m)) == multiset(m)
    ensures var r := ObjectEntries(m);
      forall i, j :: 0 <= i < j < |r| && IsArrayIndex(r[j].0) ==>
        IsArrayIndex(r[i].0) && DecimalValue(r[i].0) <= DecimalValue(r[j].0)
    ensures Those(ObjectEntries(m), false) == Those(m, false)
  {
    ObjectEntriesPermutes(m);
    ObjectEntriesIndexFirst(m);
    ObjectEntriesOthers(m);
  }

  lemma ObjectEntriesPermutes<V>(m: OMap<V>)
    ensures multiset(ObjectEntries(m)) == multiset(m)
  {
    SortByIndexSorts(Those(m, true));
    ThoseSplit(m);
  }

  lemma ObjectEntriesIndexFirst<V>(m: OMap<V>)
    ensures var r := ObjectEntries(m);
      forall i, j :: 0 <= i < j < |r| && IsArrayIndex(r[j].0) ==>
        IsArrayIndex(r[i].0) && DecimalValue(r[i].0) <= DecimalValue(r[j].0)
  {
    SortByIndexSorts(Those(m, true));
    SortedIndexKeys(m);
    IndexKeysFirst(SortByIndex(Those(m, true)), Those(m, false));
  }

  /** Ascending index entries followed by other entries: every index entry comes first, in order. */
  lemma IndexKeysFirst<V>(idx: OMap<V>, rest: OMap<V>)
    requires forall i :: 0 <= i < |idx| ==> IsArrayIndex(idx[i].0)
    requires Ascending(idx)
    requires forall k :: 0 <= k < |rest| ==> !IsArrayIndex(rest[k].0)
    ensures var r := idx + rest;
      forall i, j :: 0 <= i < j < |r| && IsArrayIndex(r[j].0) ==>
        IsArrayIndex(r[i].0) && DecimalValue(r[i].0) <= DecimalValue(r[j].0)
  {
    var r := idx + rest;
    forall k | |idx| <= k < |r| ensures !IsArrayIndex(r[k].0) {
      assert r[k] == rest[k - |idx|];
    }
    forall i, j | 0 <= i < j < |r| && IsArrayIndex(r[j].0)
      ensures IsArrayIndex(r[i].0) && DecimalValue(r[i].0) <= DecimalValue(r[j].0)
    {
      assert j < |idx|;
      assert r[i] == idx[i] && r[j] == idx[j];
    }
  }

  lemma ObjectEntriesOthers<V>(m: OMap<V>)
    ensures Those(ObjectEntries(m), false) == Those(m, false)
  {
    var idx, rest := SortByIndex(Those(m, true)), Those(m, false);
    assert ObjectEntries(m) == idx + rest;
    SortedIndexKeys(m);
    ThoseAppend(idx, rest, false);
    ThoseNone(idx);
    ThoseIdempotent(m, false);
  }

  /** Sorting the index entries keeps only index entries. */
  lemma SortedIndexKeys<V>(m: OMap<V>)
    ensures forall i :: 0 <= i < |SortByIndex(Those(m, true))| ==> IsArrayIndex(SortByIndex(Those(m, true))[i].0)
  {
    var idx := SortByIndex(Those(m, true));
    SortByIndexSorts(Those(m, true));
    forall i | 0 <= i < |idx| ensures IsArrayIndex(idx[i].0) {
      assert idx[i] in multiset(Those(m, true));
      var k :| 0 <= k < |Those(m, true)| && Those(m, true)[k] == idx[i];
    }
  }

  /** Every entry is an index entry or another one. */
  lemma {:induction false} ThoseSplit<V>(m: OMap<V>)
    ensures multiset(Those(m, true)) + multiset(Those(m, false)) == multiset(m)
    decreases |m|
  {
    if m != [] {
      ThoseSplit(m[1..]);
      assert m == [m[0]] + m[1..];
    }
  }

  lemma {:induction false} ThoseAppend<V>(a: OMap<V>, b: OMap<V>, index: bool)
    ensures Those(a + b, index) == Those(a, index) + Those(b, index)
    decreases |a|
  {
    if a == [] {
      assert a + b == b;
    } else {
      assert (a + b)[1..] == a[1..] + b;
      ThoseAppend(a[1..], b, index);
    }
  }

  lemma {:induction false} ThoseNone<V>(m: OMap<V>)
    requires forall i :: 0 <= i < |m| ==> IsArrayIndex(m[i].0)
    ensures Those(m, false) == []
    decreases |m|
  {
    if m != [] {
      ThoseNone(m[1..]);
    }
  }

  lemma {:induction false} ThoseIdempotent<V>(m: OMap<V>, index: bool)
    ensures Those(Those(m, index), index) == Those(m, index)
    decreases |m|
  {
    if m != [] {
      var head := if IsArrayIndex(m[0].0) == index then [m[0]] else [];
      ThoseAppend(head, Those(m[1..], index), index);
      ThoseIdempotent(m[1..], index);
    }
  }

  /** Without array-index keys a plain object is enumerated in insertion order. */
  lemma {:induction false} NoIndexKeysInsertionOrder<V>(m: OMap<V>)
    requires forall i :: 0 <= i < |m| ==> !IsArrayIndex(m[i].0)
    ensures ObjectEntries(m) == m
    decreases |m|
  {
    ThoseNoIndex(m);
    ThoseNone2(m);
    assert ObjectEntries(m) == [] + m;
  }

  lemma {:induction false} ThoseNoIndex<V>(m: OMap<V>)
    requires forall i :: 0 <= i < |m| ==> !IsArrayIndex(m[i].0)
    ensures Those(m, false) == m
    decreases |m|
  {
    if m != [] {
      ThoseNoIndex(m[1..]);
      assert m == [m[0]] + m[1..];
    }
  }

  lemma {:induction false} ThoseNone2<V>(m: OMap<V>)
    requires forall i :: 0 <= i < |m| ==> !IsArrayIndex(m[i].0)
    ensures Those(m, true) == []
    decreases |m|
  {
    if m != [] {
      ThoseNone2(m[1..]);
    }
  }

  /** An entry of a map with unique keys occurs once. */
  lemma {:induction false} UniqueKeysOnce<V>(m: OMap<V>, e: (string, V))
    requires UniqueKeys(m)
    ensures multiset(m)[e] <= 1
    decreases |m|
  {
    if m != [] {
      assert m == [m[0]] + m[1..];
      assert Keys(m[1..]) == Keys(m)[1..];
      UniqueKeysOnce(m[1..], e);
      if m[0] == e {
        forall j | 0 <= j < |m[1..]| ensures m[1..][j] != e {
          assert Keys(m)[0] != Keys(m)[j + 1];
        }
        assert e !in m[1..];
      }
    }
  }

  /**
   * A rearrangement of a map with unique keys has unique keys, and every
   * entry it lists is what the map holds for that key.
   */
  lemma PermutedEntries<V>(m: OMap<V>, r: OMap<V>)
    requires UniqueKeys(m) && multiset(r) == multiset(m)
    ensures UniqueKeys(r)
    ensures forall i :: 0 <= i < |r| ==> Get(m, r[i].0) == Some(r[i].1)
    ensures forall k :: Get(m, k).Some? ==> exists i :: 0 <= i < |r| && r[i].0 == k
  {
    forall i | 0 <= i < |r| ensures Get(m, r[i].0) == Some(r[i].1) {
      assert r[i] in multiset(m);
      var j :| 0 <= j < |m| && m[j] == r[i];
      GetUnique(m, r[i].0);
    }
    forall i, j | 0 <= i < j < |Keys(r)| ensures Keys(r)[i] != Keys(r)[j] {
      if r[i].0 == r[j].0 {
        var a, b := IndexOf(m, r[i].0).value, IndexOf(m, r[j].0).value;
        assert r[i] == r[j] by {
          GetUnique(m, r[i].0);
        }
        assert r == r[..i] + [r[i]] + r[i + 1..j] + [r[j]] + r[j + 1..];
        assert multiset(r)[r[i]] >= 2;
        UniqueKeysOnce(m, r[i]);
      }
    }
    forall k | Get(m, k).Some? ensures exists i :: 0 <= i < |r| && r[i].0 == k {
      var j := IndexOf(m, k).value;
      assert m[j] in multiset(r);
    }
  }
}
