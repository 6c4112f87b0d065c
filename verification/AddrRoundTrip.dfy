// Writing the address manager to a file and reading it back.
module AddrRoundTrip {
  import opened FiniteSets
  import opened AddrTables
  import opened AddrInvariant
  import opened AddrDisk
  import opened AddrCheck

  // ------------------------------------------------------ files that load whole

  function AllRecords(d: Disk): seq<Record> { d.newRecords + d.triedRecords }

  /** The ids tried records of bucket b get when all of them are loaded. */
  function HomedAt(o: Oracle, d: Disk, b: nat): set<int> {
    set x | |d.newRecords| <= x < |AllRecords(d)| && TriedBucket(o, d.nKey, AllRecords(d)[x].service) == b
  }

  function Sets(buckets: seq<seq<int>>): (r: seq<set<int>>)
    ensures |r| == |buckets|
  {
    seq(|buckets|, b requires 0 <= b < |buckets| => Elements(buckets[b]))
  }

  ghost predicate DistinctAddresses(recs: seq<Record>) {
    forall i, j | 0 <= i < j < |recs| :: recs[i].service.ip != recs[j].service.ip
  }

  ghost predicate SoundBucket(ids: seq<int>, n: nat) {
    Distinct(ids) && |ids| <= NEW_BUCKET_SIZE && forall x | x in ids :: 0 <= x < n
  }

  /** What a file must look like for nothing in it to be lost or repaired. */
  ghost predicate Sound(o: Oracle, d: Disk) {
    && WellFormed(d) && d.nUBuckets == NEW_BUCKET_COUNT
    && DistinctAddresses(AllRecords(d))
    && (forall b | 0 <= b < NEW_BUCKET_COUNT :: SoundBucket(d.buckets[b], |d.newRecords|))
    && (forall i | 0 <= i < |d.newRecords| ::
          1 <= |BucketsHolding(Sets(d.buckets), i)| <= NEW_BUCKETS_PER_ADDRESS)
    && (forall b | 0 <= b < TRIED_BUCKET_COUNT :: |HomedAt(o, d, b)| <= TRIED_BUCKET_SIZE)
  }

  function LoadedInfo(d: Disk, i: nat): AddrInfo
    requires i < |AllRecords(d)|
  {
    FromRecord(AllRecords(d)[i]).(nRandomPos := i, fInTried := i >= |d.newRecords|)
  }

  ghost predicate LoadedAddresses(d: Disk, mapAddr: map<NetAddr, int>, k: nat)
    requires k <= |AllRecords(d)|
  {
    && (forall i | 0 <= i < k :: AllRecords(d)[i].service.ip in mapAddr && mapAddr[AllRecords(d)[i].service.ip] == i)
    && (forall ip | ip in mapAddr :: 0 <= mapAddr[ip] < k && AllRecords(d)[mapAddr[ip]].service.ip == ip)
  }

  ghost predicate LoadedEntries(d: Disk, m: map<int, AddrInfo>, k: nat)
    requires k <= |AllRecords(d)|
  {
    && (forall i :: i in m <==> 0 <= i < k)
    && (forall i | 0 <= i < k :: m[i] == LoadedInfo(d, i))
  }

  ghost predicate LoadedBucket(o: Oracle, d: Disk, bucket: seq<int>, b: nat, k: nat) {
    Distinct(bucket) && forall x :: x in bucket <==> x in HomedAt(o, d, b) && x < k
  }

  /** The tables after k records of a sound file. */
  ghost predicate Stage(o: Oracle, d: Disk, s: Tables, k: nat) {
    && k <= |AllRecords(d)|
    && LoadedEntries(d, s.mapInfo, k) && LoadedAddresses(d, s.mapAddr, k)
    && |s.vRandom| == k && (forall i | 0 <= i < k :: s.vRandom[i] == i)
    && |s.vvTried| == TRIED_BUCKET_COUNT
    && (forall b | 0 <= b < TRIED_BUCKET_COUNT :: LoadedBucket(o, d, s.vvTried[b], b, k))
    && |s.vvNew| == NEW_BUCKET_COUNT && (forall b | 0 <= b < NEW_BUCKET_COUNT :: s.vvNew[b] == {})
    && s.nNew == d.nNew && s.nTried == d.nTried
  }

  lemma LoadAddress(d: Disk, mapAddr: map<NetAddr, int>, k: nat)
    requires DistinctAddresses(AllRecords(d)) && k < |AllRecords(d)| && LoadedAddresses(d, mapAddr, k)
    ensures LoadedAddresses(d, mapAddr[AllRecords(d)[k].service.ip := k], k + 1)
  {
  }

  lemma LoadEntry(d: Disk, m: map<int, AddrInfo>, k: nat)
    requires k < |AllRecords(d)| && LoadedEntries(d, m, k)
    ensures LoadedEntries(d, m[k := LoadedInfo(d, k)], k + 1)
  {
    hide LoadedInfo;
    var m' := m[k := LoadedInfo(d, k)];
    forall i ensures i in m' <==> 0 <= i < k + 1 {
      assert i in m <==> 0 <= i < k;
    }
  }

  lemma StageStart(o: Oracle, d: Disk)
    ensures Stage(o, d, Empty().(nNew := d.nNew, nTried := d.nTried), 0)
  {
    forall b | 0 <= b < TRIED_BUCKET_COUNT ensures LoadedBucket(o, d, [], b, 0) {
    }
  }

  lemma {:induction false} LoadNewStage(o: Oracle, d: Disk, n: nat)
    requires Sound(o, d) && n <= |d.newRecords|
    ensures Stage(o, d, LoadNew(o, d.nKey, Empty().(nNew := d.nNew, nTried := d.nTried), d.newRecords[..n], false), n)
  {
    hide HomedAt, LoadedAddresses, LoadedEntries, Sets, SoundBucket, BucketsHolding, Distinct;
    var s0 := Empty().(nNew := d.nNew, nTried := d.nTried);
    if n == 0 {
      StageStart(o, d);
    } else {
      LoadNewStage(o, d, n - 1);
      assert d.newRecords[..n][..n - 1] == d.newRecords[..n - 1];
      var s := LoadNew(o, d.nKey, s0, d.newRecords[..n - 1], false);
      assert AllRecords(d)[n - 1] == d.newRecords[n - 1];
      LoadAddress(d, s.mapAddr, n - 1);
      LoadEntry(d, s.mapInfo, n - 1);
      forall b | 0 <= b < TRIED_BUCKET_COUNT ensures LoadedBucket(o, d, s.vvTried[b], b, n) {
        NewIdsNowhere(o, d, s.vvTried[b], b, n - 1);
      }
    }
  }

  lemma NewIdsNowhere(o: Oracle, d: Disk, bucket: seq<int>, b: nat, k: nat)
    requires LoadedBucket(o, d, bucket, b, k) && k < |d.newRecords|
    ensures LoadedBucket(o, d, bucket, b, k + 1)
  {
    assert k !in HomedAt(o, d, b);
  }

  lemma LoadIntoBucket(o: Oracle, d: Disk, bucket: seq<int>, b: nat, k: nat)
    requires LoadedBucket(o, d, bucket, b, k) && |d.newRecords| <= k < |AllRecords(d)|
    requires |HomedAt(o, d, b)| <= TRIED_BUCKET_SIZE
    ensures var here := TriedBucket(o, d.nKey, AllRecords(d)[k].service) == b;
      && LoadedBucket(o, d, if here then bucket + [k] else bucket, b, k + 1)
      && (here ==> |bucket| < TRIED_BUCKET_SIZE)
  {
    hide TriedBucket, AllRecords;
    var home := HomedAt(o, d, b);
    if TriedBucket(o, d.nKey, AllRecords(d)[k].service) == b {
      assert k in home && k !in bucket;
      DistinctSize(bucket);
      assert Elements(bucket) <= home - {k};
      CardinalityMonotone(Elements(bucket), home - {k});
    } else {
      assert k !in home;
    }
  }

  /** Reading one more tried record keeps the stage: its bucket has room. */
  lemma TriedRecordStage(o: Oracle, d: Disk, p: Progress, m: nat)
    requires Sound(o, d) && m < |d.triedRecords|
    requires p.nLost == 0 && Stage(o, d, p.s, |d.newRecords| + m) && p.s.nIdCount == |d.newRecords| + m
    ensures var p' := LoadTriedRecord(o, d.nKey, p, d.triedRecords[m]);
      && p'.nLost == 0 && Stage(o, d, p'.s, |d.newRecords| + m + 1) && p'.s.nIdCount == |d.newRecords| + m + 1
  {
    hide HomedAt, LoadedAddresses, LoadedEntries, Sets, SoundBucket, BucketsHolding, Distinct, DistinctAddresses,
         TriedBucket, LoadedBucket, FromRecord;
    var k := |d.newRecords| + m;
    var b0 := TriedBucket(o, d.nKey, d.triedRecords[m].service);
    assert AllRecords(d)[k] == d.triedRecords[m];
    LoadAddress(d, p.s.mapAddr, k);
    LoadEntry(d, p.s.mapInfo, k);
    forall b | 0 <= b < TRIED_BUCKET_COUNT
      ensures LoadedBucket(o, d, if b == b0 then p.s.vvTried[b] + [k] else p.s.vvTried[b], b, k + 1)
      ensures b == b0 ==> |p.s.vvTried[b]| < TRIED_BUCKET_SIZE
    {
      LoadIntoBucket(o, d, p.s.vvTried[b], b, k);
    }
  }

  lemma {:induction false} LoadTriedStage(o: Oracle, d: Disk, m: nat)
    requires Sound(o, d) && m <= |d.triedRecords|
    ensures var p := LoadTried(o, d.nKey, Progress(LoadedNew(o, d), 0), d.triedRecords[..m]);
      && p.nLost == 0 && Stage(o, d, p.s, |d.newRecords| + m) && p.s.nIdCount == |d.newRecords| + m
  {
    hide Stage, LoadNew, LoadTriedRecord;
    var p0 := Progress(LoadedNew(o, d), 0);
    if m == 0 {
      NoTriedYet(o, d);
    } else {
      LoadTriedStage(o, d, m - 1);
      LoadTriedStep(o, d.nKey, p0, d.triedRecords, m - 1);
      TriedRecordStage(o, d, LoadTried(o, d.nKey, p0, d.triedRecords[..m - 1]), m - 1);
    }
  }

  lemma NoTriedYet(o: Oracle, d: Disk)
    requires Sound(o, d)
    ensures var p0 := Progress(LoadedNew(o, d), 0);
      && LoadTried(o, d.nKey, p0, d.triedRecords[..0]) == p0
      && Stage(o, d, p0.s, |d.newRecords|) && p0.s.nIdCount == |d.newRecords|
  {
    hide HomedAt, LoadedAddresses, LoadedEntries, Sets, SoundBucket, BucketsHolding, Distinct, DistinctAddresses,
         TriedBucket, LoadNew, LoadedBucket;
    LoadNewStage(o, d, |d.newRecords|);
    assert d.newRecords[..|d.newRecords|] == d.newRecords;
    LoadNoTried(o, d.nKey, Progress(LoadedNew(o, d), 0));
  }

  // ------------------------------------------------------ loading the references

  /** s is base with some references loaded: the counts are exactly the buckets. */
  ghost predicate Counted(d: Disk, base: Tables, s: Tables) {
    && s == base.(mapInfo := s.mapInfo, vvNew := s.vvNew) && s.mapInfo.Keys == base.mapInfo.Keys
    && |s.vvNew| == |d.buckets| == NEW_BUCKET_COUNT
    && (forall b | 0 <= b < NEW_BUCKET_COUNT :: s.vvNew[b] <= Sets(d.buckets)[b])
    && (forall id | id in s.mapInfo ::
          s.mapInfo[id] == base.mapInfo[id].(nRefCount := |BucketsHolding(s.vvNew, id)|))
  }

  lemma FewerBuckets(xs: seq<set<int>>, ys: seq<set<int>>, id: int, b: nat)
    requires |xs| == |ys| && b < |ys| && id in ys[b] && id !in xs[b]
    requires forall c | 0 <= c < |xs| :: xs[c] <= ys[c]
    ensures |BucketsHolding(xs, id)| < |BucketsHolding(ys, id)|
  {
    var less, more := BucketsHolding(xs, id), BucketsHolding(ys, id);
    assert b in more && b !in less;
    assert less <= more - {b};
    assert more - {b} == less + (more - {b} - less);
  }

  lemma LoadReferenceCounts(o: Oracle, d: Disk, base: Tables, s: Tables, b: nat, id: int)
    requires Sound(o, d) && Counted(d, base, s) && b < NEW_BUCKET_COUNT && id in d.buckets[b] && id !in s.vvNew[b]
    requires 0 <= id < |d.newRecords| && id in base.mapInfo
    ensures Counted(d, base, LoadReference(s, b, id, true))
    ensures LoadReference(s, b, id, true).vvNew == s.vvNew[b := s.vvNew[b] + {id}]
  {
    hide HomedAt, SoundBucket, DistinctAddresses;
    FewerBuckets(s.vvNew, Sets(d.buckets), id, b);
    forall x { BucketsAfterInsert(s.vvNew, b, id, x); }
    assert b !in BucketsHolding(s.vvNew, id);
    var u := LoadReference(s, b, id, true);
    assert u.vvNew == s.vvNew[b := s.vvNew[b] + {id}];
    forall x | x in u.mapInfo ensures u.mapInfo[x] == base.mapInfo[x].(nRefCount := |BucketsHolding(u.vvNew, x)|) {
      if x == id { assert |BucketsHolding(u.vvNew, id)| == |BucketsHolding(s.vvNew, id)| + 1; }
    }
  }

  lemma {:induction false} LoadBucketCounts(o: Oracle, d: Disk, base: Tables, s: Tables, b: nat, n: nat)
    requires Sound(o, d) && Counted(d, base, s) && b < NEW_BUCKET_COUNT && s.vvNew[b] == {} && n <= |d.buckets[b]|
    requires forall id | 0 <= id < |d.newRecords| :: id in base.mapInfo
    ensures var u := LoadBucket(s, b, d.buckets[b][..n], true);
      Counted(d, base, u) && u.vvNew == s.vvNew[b := Elements(d.buckets[b][..n])]
    decreases n
  {
    hide Counted, HomedAt, LoadReference, DistinctAddresses, Sets, BucketsHolding;
    if n == 0 {
      assert Elements(d.buckets[b][..0]) == {};
      CountedShape(d, base, s);
    } else {
      LoadBucketCounts(o, d, base, s, b, n - 1);
      var ids := d.buckets[b];
      assert ids[..n][..n - 1] == ids[..n - 1];
      assert Elements(ids[..n]) == Elements(ids[..n - 1]) + {ids[n - 1]};
      assert SoundBucket(ids, |d.newRecords|);
      CountedShape(d, base, s);
      LoadReferenceCounts(o, d, base, LoadBucket(s, b, ids[..n - 1], true), b, ids[n - 1]);
    }
  }

  lemma CountedShape(d: Disk, base: Tables, s: Tables)
    requires Counted(d, base, s)
    ensures |s.vvNew| == |d.buckets| == NEW_BUCKET_COUNT
  {
  }

  lemma {:induction false} LoadBucketsCount(o: Oracle, d: Disk, base: Tables, n: nat)
    requires Sound(o, d) && Counted(d, base, base) && n <= NEW_BUCKET_COUNT
    requires forall b | 0 <= b < NEW_BUCKET_COUNT :: base.vvNew[b] == {}
    requires forall id | 0 <= id < |d.newRecords| :: id in base.mapInfo
    ensures var u := LoadBuckets(base, d.buckets[..n], true);
      && Counted(d, base, u)
      && (forall b | 0 <= b < n :: u.vvNew[b] == Elements(d.buckets[b]))
      && (forall b | n <= b < NEW_BUCKET_COUNT :: u.vvNew[b] == {})
    decreases n
  {
    hide Counted, HomedAt, DistinctAddresses, Sets, BucketsHolding, LoadBuckets, LoadBucket, SoundBucket;
    CountedShape(d, base, base);
    if n == 0 {
      LoadNothing(base, true);
    } else {
      LoadBucketsCount(o, d, base, n - 1);
      var s := LoadBuckets(base, d.buckets[..n - 1], true);
      CountedShape(d, base, s);
      LoadBucketsStep(base, d.buckets, n - 1, true);
      LoadBucketCounts(o, d, base, s, n - 1, |d.buckets[n - 1]|);
      assert d.buckets[n - 1][..|d.buckets[n - 1]|] == d.buckets[n - 1];
    }
  }

  // ------------------------------------------------------------- what comes back

  /** The tables a sound file loads to. */
  ghost predicate Restored(o: Oracle, d: Disk, s: Tables) {
    && LoadedAddresses(d, s.mapAddr, |AllRecords(d)|)
    && s.nIdCount == |s.vRandom| == |AllRecords(d)| && (forall i | 0 <= i < |s.vRandom| :: s.vRandom[i] == i)
    && s.nNew == |d.newRecords| && s.nTried == |d.triedRecords|
    && (forall i :: i in s.mapInfo <==> 0 <= i < |AllRecords(d)|)
    && (forall i | 0 <= i < |AllRecords(d)| ::
          s.mapInfo[i] == LoadedInfo(d, i).(nRefCount := |BucketsHolding(s.vvNew, i)|))
    && s.vvNew == Sets(d.buckets)
    && |s.vvTried| == TRIED_BUCKET_COUNT
    && (forall b | 0 <= b < TRIED_BUCKET_COUNT :: LoadedBucket(o, d, s.vvTried[b], b, |AllRecords(d)|))
  }

  lemma StageIsCounted(o: Oracle, d: Disk, base: Tables, k: nat)
    requires Stage(o, d, base, k) && |d.buckets| == NEW_BUCKET_COUNT
    ensures Counted(d, base, base)
  {
    hide HomedAt, LoadedAddresses, LoadedBucket;
    forall id | id in base.mapInfo ensures base.mapInfo[id].nRefCount == |BucketsHolding(base.vvNew, id)| {
      NobodyHolds(base.vvNew, id);
    }
  }

  lemma LoadRestores(o: Oracle, d: Disk)
    requires Sound(o, d)
    ensures LoadedTried(o, d).nLost == 0 && Restored(o, d, Loaded(o, d))
  {
    hide HomedAt, LoadedAddresses, LoadedBucket, LoadBuckets, LoadTried, LoadNew, LoadedInfo, SoundBucket,
         DistinctAddresses, Sets;
    var m := |d.triedRecords|;
    LoadTriedStage(o, d, m);
    assert d.triedRecords[..m] == d.triedRecords;
    var base := LoadedTried(o, d).s;
    assert base.(nTried := base.nTried - 0) == base;
    StageIsCounted(o, d, base, |AllRecords(d)|);
    LoadBucketsCount(o, d, base, NEW_BUCKET_COUNT);
    assert d.buckets[..NEW_BUCKET_COUNT] == d.buckets;
    var s := Loaded(o, d);
    assert s == LoadBuckets(base, d.buckets, true);
    SetsAre(d.buckets, s.vvNew);
    forall i ensures i in s.mapInfo <==> 0 <= i < |AllRecords(d)| {
      assert i in s.mapInfo.Keys <==> i in base.mapInfo.Keys;
    }
  }

  lemma SetsAre(buckets: seq<seq<int>>, vvNew: seq<set<int>>)
    requires |vvNew| == |buckets| && forall b | 0 <= b < |buckets| :: vvNew[b] == Elements(buckets[b])
    ensures vvNew == Sets(buckets)
  {
  }

  lemma RestoredIndexes(o: Oracle, d: Disk, s: Tables)
    requires Restored(o, d, s)
    ensures AddrIndex(s) && RandomIndex(s)
  {
    hide HomedAt, LoadedBucket, BucketsHolding, Sets;
  }

  function Range(lo: int, hi: int): (r: set<int>)
    requires lo <= hi
    ensures |r| == hi - lo && forall i :: i in r <==> lo <= i < hi
    decreases hi - lo
  {
    if lo == hi then {} else Range(lo, hi - 1) + {hi - 1}
  }

  lemma RestoredCounters(o: Oracle, d: Disk, s: Tables)
    requires Restored(o, d, s)
    ensures Counters(s)
  {
    hide HomedAt, LoadedBucket, BucketsHolding, Sets, LoadedAddresses, Range, FromRecord;
    var n, k := |d.newRecords|, |AllRecords(d)|;
    assert forall i | 0 <= i < k :: s.mapInfo[i].fInTried == (i >= n);
    hide Restored, LoadedInfo;
    assert Ids(s.mapInfo, false) == Range(0, n);
    assert Ids(s.mapInfo, true) == Range(n, k);
  }

  lemma RestoredNewTable(o: Oracle, d: Disk, s: Tables)
    requires Sound(o, d) && Restored(o, d, s)
    ensures NewTable(s, NOBODY)
  {
    hide HomedAt, LoadedBucket, BucketsHolding, LoadedAddresses, DistinctAddresses;
    forall b | 0 <= b < NEW_BUCKET_COUNT ensures NewBucketOk(s.mapInfo, s.vvNew[b]) {
      assert SoundBucket(d.buckets[b], |d.newRecords|);
      DistinctSize(d.buckets[b]);
    }
    forall id | id in s.mapInfo && !s.mapInfo[id].fInTried ensures NewEntryOk(s.vvNew, id, s.mapInfo[id], NOBODY) {
    }
  }

  lemma RestoredTriedTable(o: Oracle, d: Disk, s: Tables)
    requires Sound(o, d) && Restored(o, d, s)
    ensures TriedTable(o, d.nKey, s)
  {
    hide LoadedAddresses, DistinctAddresses, TriedBucket;
    var n, k := |d.newRecords|, |AllRecords(d)|;
    forall b | 0 <= b < TRIED_BUCKET_COUNT ensures TriedBucketOk(o, d.nKey, s.mapInfo, b, s.vvTried[b]) {
      assert LoadedBucket(o, d, s.vvTried[b], b, k);
      DistinctSize(s.vvTried[b]);
      assert Elements(s.vvTried[b]) <= HomedAt(o, d, b);
      CardinalityMonotone(Elements(s.vvTried[b]), HomedAt(o, d, b));
    }
    forall id | id in s.mapInfo && s.mapInfo[id].fInTried
      ensures TriedEntryOk(o, d.nKey, s.vvTried, id, s.mapInfo[id])
    {
      var b := TriedBucket(o, d.nKey, s.mapInfo[id].service);
      assert LoadedBucket(o, d, s.vvTried[b], b, k);
      assert id in HomedAt(o, d, b);
      NobodyListed(d, id);
    }
  }

  lemma NobodyListed(d: Disk, id: int)
    requires id >= |d.newRecords| && forall b | 0 <= b < |d.buckets| :: SoundBucket(d.buckets[b], |d.newRecords|)
    ensures BucketsHolding(Sets(d.buckets), id) == {}
  {
    forall b | 0 <= b < |d.buckets| ensures id !in Sets(d.buckets)[b] { assert SoundBucket(d.buckets[b], |d.newRecords|); }
    NobodyHolds(Sets(d.buckets), id);
  }

  /** A sound file loads whole, and to consistent tables. */
  lemma SoundFileLoads(o: Oracle, d: Disk)
    requires Sound(o, d)
    ensures LoadedTried(o, d).nLost == 0 && Restored(o, d, Loaded(o, d)) && Valid(o, d.nKey, Loaded(o, d))
  {
    hide Sound, Restored, Loaded, LoadedTried, AddrIndex, RandomIndex, NewTable, TriedTable, Counters;
    LoadRestores(o, d);
    RestoredIndexes(o, d, Loaded(o, d));
    RestoredCounters(o, d, Loaded(o, d));
    RestoredNewTable(o, d, Loaded(o, d));
    RestoredTriedTable(o, d, Loaded(o, d));
  }

  // ----------------------------------------------------- a saved file is sound

  lemma {:induction false} IndexOfMember(ids: seq<int>, id: int)
    requires id in ids
    ensures IndexOf(ids, id) < |ids| && ids[IndexOf(ids, id)] == id
  {
  }

  lemma {:induction false} SortedIsDistinct(s: set<int>)
    ensures Distinct(Sorted(s))
  {
    SortedAscends(s);
  }

  /** An injective renaming of a set into another bounds its size. */
  lemma {:induction false} RenamedSize(xs: set<int>, names: seq<int>, ys: set<int>)
    requires Distinct(names)
    requires forall x | x in xs :: 0 <= x < |names| && names[x] in ys
    ensures |xs| <= |ys|
    decreases |xs|
  {
    if xs != {} {
      assert (forall z :: z !in xs) ==> xs == {};
      var x :| x in xs;
      RenamedSize(xs - {x}, names, ys - {names[x]});
    }
  }

  lemma DistinctPart(ids: seq<int>, members: seq<int>)
    requires Distinct(members) && forall x | x in members :: x in ids
    ensures Distinct(Indices(ids, members))
  {
    var r := Indices(ids, members);
    forall i, j | 0 <= i < j < |r| ensures r[i] != r[j] {
      IndexOfMember(ids, members[i]);
      IndexOfMember(ids, members[j]);
    }
  }

  /** Where an id of the saved tables is found again. */
  function Renamed(t: Tables, id: int): nat {
    if id in Referenced(t.mapInfo) then IndexOf(NewIds(t), id) else |NewIds(t)| + IndexOf(TriedIds(t), id)
  }

  function AllIds(t: Tables): seq<int> { NewIds(t) + TriedIds(t) }

  lemma AllIdsAre(o: Oracle, key: Bytes, t: Tables)
    requires Valid(o, key, t)
    ensures Distinct(AllIds(t)) && forall id :: id in AllIds(t) <==> id in t.mapInfo
    ensures |NewIds(t)| == t.nNew && |TriedIds(t)| == t.nTried
    ensures forall id :: id in NewIds(t) <==> id in t.mapInfo && !t.mapInfo[id].fInTried
  {
    hide AddrIndex, RandomIndex, NewTable, TriedTable, Sorted;
    ReferencedAreNew(o, key, t);
    SortedIsDistinct(Referenced(t.mapInfo));
    SortedIsDistinct(Ids(t.mapInfo, true));
    DistinctConcat(NewIds(t), TriedIds(t));
  }

  lemma RenamedAt(o: Oracle, key: Bytes, t: Tables, id: int)
    requires Valid(o, key, t) && id in t.mapInfo
    ensures Renamed(t, id) < |AllIds(t)| && AllIds(t)[Renamed(t, id)] == id
    ensures Renamed(t, id) < |NewIds(t)| <==> !t.mapInfo[id].fInTried
  {
    hide AddrIndex, RandomIndex, NewTable, TriedTable, Sorted;
    AllIdsAre(o, key, t);
    ReferencedAreNew(o, key, t);
    if id in Referenced(t.mapInfo) {
      IndexOfMember(NewIds(t), id);
    } else {
      assert id in Ids(t.mapInfo, true);
      IndexOfMember(TriedIds(t), id);
    }
  }

  lemma SavedRecords(o: Oracle, key: Bytes, t: Tables)
    requires Valid(o, key, t)
    ensures var recs := AllRecords(Saved(t, key)); var ids := AllIds(t);
      |recs| == |ids| && forall i | 0 <= i < |ids| :: ids[i] in t.mapInfo && recs[i] == ToRecord(t.mapInfo[ids[i]])
  {
    hide AddrIndex, RandomIndex, NewTable, TriedTable, Sorted;
    AllIdsAre(o, key, t);
    forall i | 0 <= i < |AllIds(t)|
      ensures AllIds(t)[i] in t.mapInfo && AllRecords(Saved(t, key))[i] == ToRecord(t.mapInfo[AllIds(t)[i]])
    {
      assert AllIds(t)[i] in AllIds(t);
    }
  }

  lemma SavedAddresses(o: Oracle, key: Bytes, t: Tables)
    requires Valid(o, key, t)
    ensures DistinctAddresses(AllRecords(Saved(t, key)))
  {
    hide RandomIndex, NewTable, TriedTable, Sorted, Counters, AllIds, AllRecords, Saved;
    AllIdsAre(o, key, t);
    SavedRecords(o, key, t);
    var recs, ids := AllRecords(Saved(t, key)), AllIds(t);
    forall i, j | 0 <= i < j < |recs| ensures recs[i].service.ip != recs[j].service.ip {
      assert ids[i] != ids[j];
    }
  }

  lemma SavedBucket(o: Oracle, key: Bytes, t: Tables, b: nat)
    requires Valid(o, key, t) && b < NEW_BUCKET_COUNT
    ensures var ids := Saved(t, key).buckets[b];
      && SoundBucket(ids, |NewIds(t)|)
      && forall i | 0 <= i < |NewIds(t)| :: i in ids <==> NewIds(t)[i] in t.vvNew[b]
  {
    hide AddrIndex, RandomIndex, TriedTable, Sorted, Counters, IndexOf;
    AllIdsAre(o, key, t);
    var names, members := NewIds(t), Sorted(t.vvNew[b]);
    var ids := Saved(t, key).buckets[b];
    assert NewBucketOk(t.mapInfo, t.vvNew[b]);
    SortedIsDistinct(t.vvNew[b]);
    DistinctPart(names, members);
    forall k | 0 <= k < |ids| ensures 0 <= ids[k] < |names| && names[ids[k]] == members[k] {
      assert members[k] in t.vvNew[b];
      IndexOfMember(names, members[k]);
    }
    forall i | 0 <= i < |names| ensures i in ids <==> names[i] in t.vvNew[b] {
      if i in ids {
        var k :| 0 <= k < |ids| && ids[k] == i;
        assert members[k] in t.vvNew[b];
      }
      if names[i] in t.vvNew[b] {
        assert names[i] in members;
        var k :| 0 <= k < |members| && members[k] == names[i];
        SortedIsDistinct(Referenced(t.mapInfo));
        IndexOfAt(names, i);
        assert ids[k] == i;
      }
    }
  }

  lemma SavedCounts(o: Oracle, key: Bytes, t: Tables, i: nat)
    requires Valid(o, key, t) && i < |NewIds(t)|
    ensures BucketsHolding(Sets(Saved(t, key).buckets), i) == BucketsHolding(t.vvNew, NewIds(t)[i])
    ensures NewIds(t)[i] in t.mapInfo
    ensures 1 <= |BucketsHolding(t.vvNew, NewIds(t)[i])| <= NEW_BUCKETS_PER_ADDRESS
  {
    hide AddrIndex, RandomIndex, TriedTable, Sorted, IndexOf, SoundBucket;
    AllIdsAre(o, key, t);
    var id := NewIds(t)[i];
    assert id in NewIds(t);
    assert NewEntryOk(t.vvNew, id, t.mapInfo[id], NOBODY);
    var sets := Sets(Saved(t, key).buckets);
    forall b | 0 <= b < NEW_BUCKET_COUNT ensures i in sets[b] <==> id in t.vvNew[b] {
      SavedBucket(o, key, t, b);
    }
  }

  lemma SavedHomes(o: Oracle, key: Bytes, t: Tables, b: nat)
    requires Valid(o, key, t) && b < TRIED_BUCKET_COUNT
    ensures |HomedAt(o, Saved(t, key), b)| <= TRIED_BUCKET_SIZE
    ensures forall i | |NewIds(t)| <= i < |AllIds(t)| ::
      i in HomedAt(o, Saved(t, key), b) <==> AllIds(t)[i] in t.vvTried[b]
  {
    hide AddrIndex, RandomIndex, NewTable, Sorted, Counters, IndexOf, TriedBucket, NewIds, TriedIds;
    AllIdsAre(o, key, t);
    SavedRecords(o, key, t);
    var d, names := Saved(t, key), AllIds(t);
    assert TriedBucketOk(o, key, t.mapInfo, b, t.vvTried[b]);
    forall i | |NewIds(t)| <= i < |names| ensures i in HomedAt(o, d, b) <==> names[i] in t.vvTried[b] {
      assert names[i] in names;
      assert forall j | 0 <= j < |NewIds(t)| :: NewIds(t)[j] == names[j] != names[i];
      assert TriedEntryOk(o, key, t.vvTried, names[i], t.mapInfo[names[i]]);
    }
    RenamedSize(HomedAt(o, d, b), names, Elements(t.vvTried[b]));
    ElementsBound(t.vvTried[b]);
  }

  lemma SavedIsSound(o: Oracle, key: Bytes, t: Tables)
    requires Valid(o, key, t)
    ensures Sound(o, Saved(t, key))
  {
    hide AddrIndex, RandomIndex, TriedTable, Sorted, NewIds, TriedIds, HomedAt, SoundBucket, BucketsHolding,
         DistinctAddresses, Sets;
    var d := Saved(t, key);
    AllIdsAre(o, key, t);
    SavedAddresses(o, key, t);
    forall b | 0 <= b < NEW_BUCKET_COUNT ensures SoundBucket(d.buckets[b], |d.newRecords|) { SavedBucket(o, key, t, b); }
    forall i | 0 <= i < |d.newRecords| ensures 1 <= |BucketsHolding(Sets(d.buckets), i)| <= NEW_BUCKETS_PER_ADDRESS {
      SavedCounts(o, key, t, i);
    }
    forall b | 0 <= b < TRIED_BUCKET_COUNT ensures |HomedAt(o, d, b)| <= TRIED_BUCKET_SIZE { SavedHomes(o, key, t, b); }
  }

  // ------------------------------------------------------------ the round trip

  /** The same entries under other ids, one to one: all is kept but the time of
      the last try and the place in vRandom. */
  ghost predicate SameEntries(t: Tables, s: Tables, name: int -> nat) {
    && |s.mapInfo| == |t.mapInfo|
    && (forall id | id in t.mapInfo :: SameInfo(t, s, id, name(id)))
    && (forall x, y | x in t.mapInfo && y in t.mapInfo && name(x) == name(y) :: x == y)
  }

  ghost predicate SameInfo(t: Tables, s: Tables, id: int, n: int)
    requires id in t.mapInfo
  {
    n in s.mapInfo &&
    s.mapInfo[n] == t.mapInfo[id].(nLastTry := 0, nRandomPos := s.mapInfo[n].nRandomPos)
  }

  ghost predicate SamePlaces(t: Tables, s: Tables, name: int -> nat) {
    && |s.vvNew| == |t.vvNew| && |s.vvTried| == |t.vvTried|
    && (forall b, id | 0 <= b < |t.vvNew| && id in t.mapInfo :: name(id) in s.vvNew[b] <==> id in t.vvNew[b])
    && (forall b, id | 0 <= b < |t.vvTried| && id in t.mapInfo :: name(id) in s.vvTried[b] <==> id in t.vvTried[b])
  }

  /** s holds the same addresses as t, with the same persisted records, in the
      same new buckets and the same tried buckets, under other ids. */
  ghost predicate SameBook(t: Tables, s: Tables, name: int -> nat) {
    s.nNew == t.nNew && s.nTried == t.nTried && SameEntries(t, s, name) && SamePlaces(t, s, name)
  }

  lemma SameEntry(o: Oracle, key: Bytes, t: Tables, s: Tables, id: int)
    requires Valid(o, key, t) && id in t.mapInfo && Restored(o, Saved(t, key), s)
    ensures SameInfo(t, s, id, Renamed(t, id))
  {
    hide AddrIndex, RandomIndex, Sorted, NewIds, TriedIds, BucketsHolding, Sets, LoadedBucket, LoadedAddresses;
    AllIdsAre(o, key, t);
    RenamedAt(o, key, t, id);
    SavedRecords(o, key, t);
    var d, n := Saved(t, key), Renamed(t, id);
    assert s.mapInfo[n] == LoadedInfo(d, n).(nRefCount := |BucketsHolding(s.vvNew, n)|);
    if t.mapInfo[id].fInTried {
      forall b | 0 <= b < |d.buckets| ensures SoundBucket(d.buckets[b], |d.newRecords|) { SavedBucket(o, key, t, b); }
      NobodyListed(d, n);
      assert TriedEntryOk(o, key, t.vvTried, id, t.mapInfo[id]);
    } else {
      SavedCounts(o, key, t, n);
      assert NewEntryOk(t.vvNew, id, t.mapInfo[id], NOBODY);
    }
  }

  lemma SameNewBucket(o: Oracle, key: Bytes, t: Tables, s: Tables, b: nat, id: int)
    requires Valid(o, key, t) && id in t.mapInfo && Restored(o, Saved(t, key), s) && b < NEW_BUCKET_COUNT
    ensures Renamed(t, id) in s.vvNew[b] <==> id in t.vvNew[b]
  {
    hide AddrIndex, RandomIndex, Sorted, NewIds, TriedIds, BucketsHolding, LoadedBucket, LoadedAddresses, Counters;
    AllIdsAre(o, key, t);
    RenamedAt(o, key, t, id);
    SavedBucket(o, key, t, b);
    assert NewBucketOk(t.mapInfo, t.vvNew[b]);
    assert s.vvNew[b] == Elements(Saved(t, key).buckets[b]);
  }

  lemma SameTriedBucket(o: Oracle, key: Bytes, t: Tables, s: Tables, b: nat, id: int)
    requires Valid(o, key, t) && id in t.mapInfo && Restored(o, Saved(t, key), s) && b < TRIED_BUCKET_COUNT
    ensures Renamed(t, id) in s.vvTried[b] <==> id in t.vvTried[b]
  {
    hide AddrIndex, RandomIndex, Sorted, NewIds, TriedIds, BucketsHolding, LoadedAddresses, Counters, Sets;
    AllIdsAre(o, key, t);
    RenamedAt(o, key, t, id);
    SavedRecords(o, key, t);
    SavedHomes(o, key, t, b);
    assert TriedBucketOk(o, key, t.mapInfo, b, t.vvTried[b]);
    assert LoadedBucket(o, Saved(t, key), s.vvTried[b], b, |AllRecords(Saved(t, key))|);
  }

  /** The stamp of the last attempt is not saved and comes back as zero, the others stay. */
  lemma StampsReturn(o: Oracle, key: Bytes, t: Tables, s: Tables)
    requires Valid(o, key, t) && Stamped(t) && Restored(o, Saved(t, key), s)
    ensures Stamped(s)
  {
    hide AddrIndex, RandomIndex, NewTable, TriedTable, Counters, Sorted, NewIds, TriedIds, BucketsHolding, Sets,
         LoadedBucket, LoadedAddresses;
    var d, ids := Saved(t, key), AllIds(t);
    AllIdsAre(o, key, t);
    SavedRecords(o, key, t);
    forall i | i in s.mapInfo ensures
      && s.mapInfo[i].nLastTry >= 0 && s.mapInfo[i].nLastSuccess >= 0
      && (s.mapInfo[i].fInTried ==> s.mapInfo[i].nLastSuccess != 0)
    {
      var id := ids[i];
      assert s.mapInfo[i] == LoadedInfo(d, i).(nRefCount := |BucketsHolding(s.vvNew, i)|);
      assert AllRecords(d)[i] == ToRecord(t.mapInfo[id]);
      RenamedAt(o, key, t, id);
      TriedPlaces(o, key, t, i);
    }
  }

  lemma TriedPlaces(o: Oracle, key: Bytes, t: Tables, i: nat)
    requires Valid(o, key, t) && i < |AllIds(t)|
    ensures AllIds(t)[i] in t.mapInfo && (t.mapInfo[AllIds(t)[i]].fInTried <==> i >= |Saved(t, key).newRecords|)
  {
    hide AddrIndex, RandomIndex, NewTable, TriedTable, Counters, Sorted;
    AllIdsAre(o, key, t);
    var id := AllIds(t)[i];
    assert id in AllIds(t);
    if i < |NewIds(t)| {
      assert NewIds(t)[i] == id;
    } else {
      assert TriedIds(t)[i - |NewIds(t)|] == id && id in TriedIds(t);
    }
  }

  /** Saving consistent tables and loading the file gives consistent tables that
      hold the same book, and loses nothing; sound stamps stay sound. */
  lemma RoundTrip(o: Oracle, key: Bytes, t: Tables)
    requires Valid(o, key, t)
    ensures var d := Saved(t, key); var s := Loaded(o, d);
      && d.nKey == key && LoadedTried(o, d).nLost == 0
      && Valid(o, key, s) && SameBook(t, s, id => Renamed(t, id))
      && (Stamped(t) ==> Stamped(s) && CheckPasses(s))
  {
    hide Valid, Stamped, Restored, Saved, Loaded, LoadedTried, Sound, SameEntries, SamePlaces, CheckPasses, Renamed;
    var d := Saved(t, key);
    SavedKey(key, t);
    SavedIsSound(o, key, t);
    SoundFileLoads(o, d);
    var s := Loaded(o, d);
    AllSameEntries(o, key, t, s);
    AllSamePlaces(o, key, t, s);
    if Stamped(t) {
      StampsReturn(o, key, t, s);
      ValidPasses(o, key, s);
    }
  }

  lemma SavedKey(key: Bytes, t: Tables)
    ensures Saved(t, key).nKey == key
  {
  }

  lemma AllSameEntries(o: Oracle, key: Bytes, t: Tables, s: Tables)
    requires Valid(o, key, t) && Restored(o, Saved(t, key), s) && Valid(o, key, s)
    ensures s.nNew == t.nNew && s.nTried == t.nTried && SameEntries(t, s, id => Renamed(t, id))
  {
    hide AddrIndex, RandomIndex, NewTable, TriedTable, Counters, Renamed, SameInfo, Sorted, LoadedBucket, LoadedAddresses,
         BucketsHolding, Sets, NewIds, TriedIds;
    AllIdsAre(o, key, t);
    forall id | id in t.mapInfo ensures SameInfo(t, s, id, Renamed(t, id)) { SameEntry(o, key, t, s, id); }
    forall x, y | x in t.mapInfo && y in t.mapInfo && Renamed(t, x) == Renamed(t, y) ensures x == y {
      RenamedAt(o, key, t, x);
      RenamedAt(o, key, t, y);
    }
    SizesAgree(t);
    SizesAgree(s);
  }

  lemma AllSamePlaces(o: Oracle, key: Bytes, t: Tables, s: Tables)
    requires Valid(o, key, t) && Restored(o, Saved(t, key), s) && Valid(o, key, s)
    ensures SamePlaces(t, s, id => Renamed(t, id))
  {
    hide Renamed, Restored, Saved, Valid;
    Sizes(o, key, t);
    Sizes(o, key, s);
    forall b, id | 0 <= b < |t.vvNew| && id in t.mapInfo ensures Renamed(t, id) in s.vvNew[b] <==> id in t.vvNew[b] {
      SameNewBucket(o, key, t, s, b, id);
    }
    forall b, id | 0 <= b < |t.vvTried| && id in t.mapInfo
      ensures Renamed(t, id) in s.vvTried[b] <==> id in t.vvTried[b]
    {
      SameTriedBucket(o, key, t, s, b, id);
    }
  }

  lemma Sizes(o: Oracle, key: Bytes, t: Tables)
    requires Valid(o, key, t)
    ensures |t.vvNew| == NEW_BUCKET_COUNT && |t.vvTried| == TRIED_BUCKET_COUNT
  {
  }
}
