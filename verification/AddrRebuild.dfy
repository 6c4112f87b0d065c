// Loading a file that was saved with another number of new buckets: the new
// table is rebuilt from the addresses, and the saved lists only name entries.
module AddrRebuild {
  import opened AddrTables
  import opened AddrInvariant
  import opened AddrDisk
  import opened AddrRoundTrip

  // ---------------------------------------------------------------- what is kept

  /** Number of records that belong into tried bucket b. */
  function Homed(o: Oracle, key: Bytes, recs: seq<Record>, b: nat): nat {
    if recs == [] then 0 else
      var n := |recs| - 1;
      Homed(o, key, recs[..n], b) + if TriedBucket(o, key, recs[n].service) == b then 1 else 0
  }

  /** The tried records that find room in their bucket. */
  function Kept(o: Oracle, key: Bytes, recs: seq<Record>): seq<Record> {
    if recs == [] then [] else
      var kept, rec := Kept(o, key, recs[..|recs| - 1]), recs[|recs| - 1];
      if Homed(o, key, kept, TriedBucket(o, key, rec.service)) < TRIED_BUCKET_SIZE then kept + [rec] else kept
  }

  /** The new records whose address and source lead to new bucket b. */
  function NewHome(o: Oracle, d: Disk, b: nat): set<int> {
    set i | 0 <= i < |d.newRecords| && NewBucket(o, d.nKey, d.newRecords[i].service, d.newRecords[i].source) == b
  }

  /** The ids named in the saved bucket lists. */
  function Listed(buckets: seq<seq<int>>): set<int> {
    if buckets == [] then {} else Listed(buckets[..|buckets| - 1]) + Elements(buckets[|buckets| - 1])
  }

  /** Today's file with the entries that are kept, each new one in the bucket it belongs to. */
  function Current(o: Oracle, d: Disk): Disk {
    var kept := Kept(o, d.nKey, d.triedRecords);
    d.(nTried := |kept|, nUBuckets := NEW_BUCKET_COUNT, triedRecords := kept,
       buckets := seq(NEW_BUCKET_COUNT, b requires 0 <= b < NEW_BUCKET_COUNT => Sorted(NewHome(o, d, b))))
  }

  // --------------------------------------------------- the tables as they are filled

  function Rebuilt(c: Disk, i: nat): AddrInfo
    requires i < |AllRecords(c)|
  {
    LoadedInfo(c, i).(nRefCount := if i < |c.newRecords| then 1 else 0)
  }

  ghost predicate Entries(c: Disk, m: map<int, AddrInfo>) {
    && (forall i :: i in m <==> 0 <= i < |AllRecords(c)|)
    && (forall i | 0 <= i < |AllRecords(c)| :: m[i] == Rebuilt(c, i))
  }

  /** Every address is there; where two records have one, it names either. */
  ghost predicate Named(c: Disk, mapAddr: map<NetAddr, int>) {
    && (forall i | 0 <= i < |AllRecords(c)| :: AllRecords(c)[i].service.ip in mapAddr)
    && (forall ip | ip in mapAddr ::
          0 <= mapAddr[ip] < |AllRecords(c)| && AllRecords(c)[mapAddr[ip]].service.ip == ip)
  }

  ghost predicate TriedFilled(o: Oracle, c: Disk, bucket: seq<int>, b: nat) {
    && LoadedBucket(o, c, bucket, b, |AllRecords(c)|)
    && |bucket| == Homed(o, c.nKey, c.triedRecords, b) <= TRIED_BUCKET_SIZE
  }

  ghost predicate Filled(o: Oracle, c: Disk, s: Tables) {
    && Entries(c, s.mapInfo) && Named(c, s.mapAddr)
    && |s.vRandom| == |AllRecords(c)| && (forall i | 0 <= i < |s.vRandom| :: s.vRandom[i] == i)
    && |s.vvTried| == TRIED_BUCKET_COUNT
    && (forall b | 0 <= b < TRIED_BUCKET_COUNT :: TriedFilled(o, c, s.vvTried[b], b))
    && |s.vvNew| == NEW_BUCKET_COUNT && (forall b | 0 <= b < NEW_BUCKET_COUNT :: s.vvNew[b] == NewHome(o, c, b))
  }

  /** c' is c with one more record, a new one before all tried ones or a tried one. */
  ghost predicate OneMore(c: Disk, c': Disk, rec: Record) {
    || (c.triedRecords == [] && c' == c.(newRecords := c.newRecords + [rec]))
    || c' == c.(triedRecords := c.triedRecords + [rec])
  }

  lemma EntriesMore(c: Disk, c': Disk, rec: Record, m: map<int, AddrInfo>)
    requires OneMore(c, c', rec) && Entries(c, m)
    ensures |AllRecords(c')| == |AllRecords(c)| + 1 && AllRecords(c')[|AllRecords(c)|] == rec
    ensures Entries(c', m[|AllRecords(c)| := Rebuilt(c', |AllRecords(c)|)])
  {
    var k := |AllRecords(c)|;
    assert AllRecords(c') == AllRecords(c) + [rec];
    forall i | 0 <= i < k ensures Rebuilt(c', i) == Rebuilt(c, i) {
    }
    var m' := m[k := Rebuilt(c', k)];
    forall i ensures i in m' <==> 0 <= i < k + 1 { assert i in m <==> 0 <= i < k; }
  }

  lemma NamedMore(c: Disk, c': Disk, rec: Record, mapAddr: map<NetAddr, int>)
    requires OneMore(c, c', rec) && Named(c, mapAddr)
    ensures Named(c', mapAddr[rec.service.ip := |AllRecords(c)|])
  {
    assert AllRecords(c') == AllRecords(c) + [rec];
  }

  // ------------------------------------------------------------------ the new records

  lemma NewMore(o: Oracle, c: Disk, rec: Record, s: Tables)
    requires c.triedRecords == [] && Filled(o, c, s)
    ensures Filled(o, c.(newRecords := c.newRecords + [rec]), LoadNewRecord(o, c.nKey, s, |c.newRecords|, rec, true))
  {
    hide Entries, Named, LoadedBucket, TriedFilled, NewHome, LoadedInfo, HomedAt, FromRecord;
    var c', n := c.(newRecords := c.newRecords + [rec]), |c.newRecords|;
    EntriesMore(c, c', rec, s.mapInfo);
    NamedMore(c, c', rec, s.mapAddr);
    RebuiltNew(c', n, rec);
    var u := LoadNewRecord(o, c.nKey, s, n, rec, true);
    assert u.mapInfo == s.mapInfo[n := Rebuilt(c', n)];
    forall b | 0 <= b < TRIED_BUCKET_COUNT ensures TriedFilled(o, c', u.vvTried[b], b) {
      NoneTried(o, c, c', u.vvTried[b], b);
    }
    forall b | 0 <= b < NEW_BUCKET_COUNT ensures u.vvNew[b] == NewHome(o, c', b) {
      NewHomeMore(o, c, rec, b);
    }
  }

  lemma RebuiltNew(c: Disk, n: nat, rec: Record)
    requires n < |c.newRecords| && c.newRecords[n] == rec
    ensures Rebuilt(c, n) == FromRecord(rec).(nRandomPos := n, nRefCount := 1)
  {
  }

  lemma NoneTried(o: Oracle, c: Disk, c': Disk, bucket: seq<int>, b: nat)
    requires c.triedRecords == c'.triedRecords == [] && TriedFilled(o, c, bucket, b)
    ensures TriedFilled(o, c', bucket, b)
  {
    assert bucket == [];
    assert HomedAt(o, c', b) == {};
  }

  lemma NewHomeMore(o: Oracle, c: Disk, rec: Record, b: nat)
    ensures NewHome(o, c.(newRecords := c.newRecords + [rec]), b) ==
            NewHome(o, c, b) + if NewBucket(o, c.nKey, rec.service, rec.source) == b then {|c.newRecords|} else {}
  {
    hide NewBucket;
  }

  lemma {:induction false} NewFilled(o: Oracle, d: Disk, n: nat)
    requires n <= |d.newRecords|
    ensures Filled(o, d.(newRecords := d.newRecords[..n], triedRecords := []),
                   LoadNew(o, d.nKey, Empty().(nNew := d.nNew, nTried := d.nTried), d.newRecords[..n], true))
  {
    hide Filled, LoadNewRecord;
    var c := d.(newRecords := d.newRecords[..n], triedRecords := []);
    if n == 0 {
      NothingFilled(o, c);
    } else {
      NewFilled(o, d, n - 1);
      var before := d.(newRecords := d.newRecords[..n - 1], triedRecords := []);
      assert d.newRecords[..n][..n - 1] == d.newRecords[..n - 1];
      assert d.newRecords[..n] == d.newRecords[..n - 1] + [d.newRecords[n - 1]];
      NewMore(o, before, d.newRecords[n - 1],
              LoadNew(o, d.nKey, Empty().(nNew := d.nNew, nTried := d.nTried), d.newRecords[..n - 1], true));
    }
  }

  lemma NothingFilled(o: Oracle, c: Disk)
    requires AllRecords(c) == []
    ensures Filled(o, c, Empty().(nNew := c.nNew, nTried := c.nTried))
  {
    forall b | 0 <= b < TRIED_BUCKET_COUNT ensures TriedFilled(o, c, [], b) {
    }
    forall b | 0 <= b < NEW_BUCKET_COUNT ensures NewHome(o, c, b) == {} {
    }
  }

  // ---------------------------------------------------------------- the tried records

  lemma TriedMore(o: Oracle, c: Disk, rec: Record, p: Progress)
    requires Filled(o, c, p.s) && p.s.nIdCount == |AllRecords(c)|
    ensures var p' := LoadTriedRecord(o, c.nKey, p, rec);
      var room := Homed(o, c.nKey, c.triedRecords, TriedBucket(o, c.nKey, rec.service)) < TRIED_BUCKET_SIZE;
      var c' := if room then c.(triedRecords := c.triedRecords + [rec]) else c;
      && Filled(o, c', p'.s) && p'.s.nIdCount == |AllRecords(c')|
      && p'.nLost == p.nLost + (if room then 0 else 1)
      && p'.s.nNew == p.s.nNew && p'.s.nTried == p.s.nTried
  {
    hide Entries, Named, LoadedBucket, NewHome, LoadedInfo, HomedAt, FromRecord, Homed;
    var b0 := TriedBucket(o, c.nKey, rec.service);
    var s, k := p.s, |AllRecords(c)|;
    assert TriedFilled(o, c, s.vvTried[b0], b0);
    if Homed(o, c.nKey, c.triedRecords, b0) < TRIED_BUCKET_SIZE {
      var c' := c.(triedRecords := c.triedRecords + [rec]);
      EntriesMore(c, c', rec, s.mapInfo);
      NamedMore(c, c', rec, s.mapAddr);
      RebuiltTried(c, rec);
      var u := LoadTriedRecord(o, c.nKey, p, rec).s;
      assert u.mapInfo == s.mapInfo[k := Rebuilt(c', k)];
      forall b | 0 <= b < TRIED_BUCKET_COUNT ensures TriedFilled(o, c', u.vvTried[b], b) {
        assert TriedFilled(o, c, s.vvTried[b], b);
        TriedBucketMore(o, c, rec, s.vvTried[b], b);
      }
      forall b | 0 <= b < NEW_BUCKET_COUNT ensures NewHome(o, c', b) == NewHome(o, c, b) { SameNewHome(o, c, c', b); }
    }
  }

  lemma RebuiltTried(c: Disk, rec: Record)
    ensures Rebuilt(c.(triedRecords := c.triedRecords + [rec]), |AllRecords(c)|) ==
            FromRecord(rec).(nRandomPos := |AllRecords(c)|, fInTried := true)
  {
  }

  lemma SameNewHome(o: Oracle, c: Disk, c': Disk, b: nat)
    requires c'.newRecords == c.newRecords && c'.nKey == c.nKey
    ensures NewHome(o, c', b) == NewHome(o, c, b)
  {
    hide NewBucket;
  }

  lemma TriedBucketMore(o: Oracle, c: Disk, rec: Record, bucket: seq<int>, b: nat)
    requires TriedFilled(o, c, bucket, b)
    requires TriedBucket(o, c.nKey, rec.service) == b ==> |bucket| < TRIED_BUCKET_SIZE
    ensures var here := TriedBucket(o, c.nKey, rec.service) == b;
      TriedFilled(o, c.(triedRecords := c.triedRecords + [rec]), if here then bucket + [|AllRecords(c)|] else bucket, b)
  {
    hide TriedBucket;
    var c', k := c.(triedRecords := c.triedRecords + [rec]), |AllRecords(c)|;
    assert AllRecords(c') == AllRecords(c) + [rec];
    assert c'.triedRecords[..|c.triedRecords|] == c.triedRecords;
    assert HomedAt(o, c', b) ==
           HomedAt(o, c, b) + if TriedBucket(o, c.nKey, rec.service) == b then {k} else {};
    assert k !in HomedAt(o, c, b);
  }

  lemma {:induction false} AllTriedFilled(o: Oracle, d: Disk, m: nat)
    requires WellFormed(d) && d.nUBuckets != NEW_BUCKET_COUNT && m <= |d.triedRecords|
    ensures var p := LoadTried(o, d.nKey, Progress(LoadedNew(o, d), 0), d.triedRecords[..m]);
      var kept := Kept(o, d.nKey, d.triedRecords[..m]);
      && Filled(o, d.(triedRecords := kept), p.s) && p.s.nIdCount == |d.newRecords| + |kept|
      && p.nLost + |kept| == m && p.s.nNew == d.nNew && p.s.nTried == d.nTried
  {
    hide Filled, LoadTriedRecord, Homed, LoadedNew;
    var p0 := Progress(LoadedNew(o, d), 0);
    if m == 0 {
      NoTriedFilled(o, d);
    } else {
      AllTriedFilled(o, d, m - 1);
      LoadTriedStep(o, d.nKey, p0, d.triedRecords, m - 1);
      assert d.triedRecords[..m][..m - 1] == d.triedRecords[..m - 1];
      var kept := Kept(o, d.nKey, d.triedRecords[..m - 1]);
      TriedMore(o, d.(triedRecords := kept), d.triedRecords[m - 1],
                LoadTried(o, d.nKey, p0, d.triedRecords[..m - 1]));
    }
  }

  lemma NoTriedFilled(o: Oracle, d: Disk)
    requires WellFormed(d) && d.nUBuckets != NEW_BUCKET_COUNT
    ensures var s := LoadedNew(o, d);
      && Filled(o, d.(triedRecords := []), s) && s.nIdCount == |d.newRecords| && s.nNew == d.nNew && s.nTried == d.nTried
    ensures LoadTried(o, d.nKey, Progress(LoadedNew(o, d), 0), d.triedRecords[..0]) == Progress(LoadedNew(o, d), 0)
  {
    hide Entries, Named, TriedFilled, NewHome;
    var n := |d.newRecords|;
    NewFilled(o, d, n);
    assert d.newRecords[..n] == d.newRecords;
    assert d.(newRecords := d.newRecords, triedRecords := []) == d.(triedRecords := []);
    NewCounters(o, d.nKey, Empty().(nNew := d.nNew, nTried := d.nTried), d.newRecords, true);
  }

  lemma {:induction false} NewCounters(o: Oracle, key: Bytes, s: Tables, recs: seq<Record>, rebuild: bool)
    ensures var u := LoadNew(o, key, s, recs, rebuild); u.nNew == s.nNew && u.nTried == s.nTried
  {
    if recs != [] { NewCounters(o, key, s, recs[..|recs| - 1], rebuild); }
  }

  // --------------------------------------------------------------- the saved lists

  /** s with a blank entry for each id that has none. */
  function WithBlanks(s: Tables, ids: set<int>): Tables {
    s.(mapInfo := map id | id in s.mapInfo.Keys + ids :: if id in s.mapInfo then s.mapInfo[id] else Blank)
  }

  lemma {:induction false} ListsOnlyName(s: Tables, b: nat, ids: seq<int>)
    ensures LoadBucket(s, b, ids, false) == WithBlanks(s, Elements(ids))
  {
    if ids == [] {
      assert Elements(ids) == {};
      assert s.mapInfo == WithBlanks(s, {}).mapInfo;
    } else {
      var n := |ids| - 1;
      ListsOnlyName(s, b, ids[..n]);
      assert ids == ids[..n] + [ids[n]];
      assert Elements(ids) == Elements(ids[..n]) + {ids[n]};
      assert LoadReference(WithBlanks(s, Elements(ids[..n])), b, ids[n], false).mapInfo ==
             WithBlanks(s, Elements(ids)).mapInfo;
    }
  }

  lemma {:induction false} BucketsOnlyName(s: Tables, buckets: seq<seq<int>>)
    ensures LoadBuckets(s, buckets, false) == WithBlanks(s, Listed(buckets))
  {
    hide LoadBucket, Blank;
    if buckets == [] {
      assert s.mapInfo == WithBlanks(s, {}).mapInfo;
    } else {
      var n := |buckets| - 1;
      BucketsOnlyName(s, buckets[..n]);
      ListsOnlyName(WithBlanks(s, Listed(buckets[..n])), n, buckets[n]);
      assert WithBlanks(WithBlanks(s, Listed(buckets[..n])), Elements(buckets[n])).mapInfo ==
             WithBlanks(s, Listed(buckets)).mapInfo;
    }
  }

  /** The tables before the saved lists are read. */
  function Unlisted(o: Oracle, d: Disk): Tables {
    var p := LoadedTried(o, d);
    p.s.(nTried := p.s.nTried - p.nLost)
  }

  lemma LoadedFilled(o: Oracle, d: Disk)
    requires WellFormed(d) && d.nUBuckets != NEW_BUCKET_COUNT
    ensures Loaded(o, d) == WithBlanks(Unlisted(o, d), Listed(d.buckets))
    ensures var s := Unlisted(o, d); var c := Current(o, d);
      && Filled(o, c, s) && s.nIdCount == |AllRecords(c)| && s.nNew == |c.newRecords| && s.nTried == |c.triedRecords|
  {
    hide LoadBuckets, LoadTried, LoadedNew, Kept, TriedFilled, Entries, Named, NewHome, Sorted;
    var m := |d.triedRecords|;
    AllTriedFilled(o, d, m);
    assert d.triedRecords[..m] == d.triedRecords;
    BucketsOnlyName(Unlisted(o, d), d.buckets);
    var c := Current(o, d);
    SameFilled(o, d.(triedRecords := c.triedRecords), c, Unlisted(o, d));
  }

  lemma SameFilled(o: Oracle, c: Disk, c': Disk, s: Tables)
    requires Filled(o, c, s)
    requires c'.nKey == c.nKey && c'.newRecords == c.newRecords && c'.triedRecords == c.triedRecords
    ensures Filled(o, c', s)
  {
    hide NewBucket, TriedBucket;
    assert AllRecords(c') == AllRecords(c);
    forall i | 0 <= i < |AllRecords(c)| ensures Rebuilt(c', i) == Rebuilt(c, i) {
    }
    forall b | 0 <= b < TRIED_BUCKET_COUNT ensures TriedFilled(o, c', s.vvTried[b], b) {
      assert TriedFilled(o, c, s.vvTried[b], b);
      assert HomedAt(o, c', b) == HomedAt(o, c, b);
    }
    forall b | 0 <= b < NEW_BUCKET_COUNT ensures s.vvNew[b] == NewHome(o, c', b) {
      SameNewHome(o, c, c', b);
    }
  }

  // ------------------------------------------------------------- when they are valid

  /** What the file must be for the rebuilt tables to be consistent. */
  ghost predicate Rebuildable(o: Oracle, d: Disk) {
    && DistinctAddresses(AllRecords(Current(o, d)))
    && (forall b | 0 <= b < NEW_BUCKET_COUNT :: |NewHome(o, d, b)| <= NEW_BUCKET_SIZE)
    && (forall id | id in Listed(d.buckets) :: 0 <= id < |AllRecords(Current(o, d))|)
  }

  /** A new entry is in its own bucket and nowhere else. */
  lemma InItsBucket(o: Oracle, c: Disk, vvNew: seq<set<int>>, i: int)
    requires |vvNew| == NEW_BUCKET_COUNT && forall b | 0 <= b < NEW_BUCKET_COUNT :: vvNew[b] == NewHome(o, c, b)
    ensures |BucketsHolding(vvNew, i)| == if 0 <= i < |c.newRecords| then 1 else 0
  {
    if 0 <= i < |c.newRecords| {
      var b := NewBucket(o, c.nKey, c.newRecords[i].service, c.newRecords[i].source);
      assert BucketsHolding(vvNew, i) == {b};
    } else {
      assert BucketsHolding(vvNew, i) == {};
    }
  }

  lemma BucketLists(o: Oracle, d: Disk)
    ensures var c := Current(o, d);
      |Sets(c.buckets)| == NEW_BUCKET_COUNT && forall b | 0 <= b < NEW_BUCKET_COUNT ::
        Sets(c.buckets)[b] == NewHome(o, d, b) == NewHome(o, c, b)
  {
    hide Sorted, NewBucket, Kept;
    var c := Current(o, d);
    forall b | 0 <= b < NEW_BUCKET_COUNT ensures Sets(c.buckets)[b] == NewHome(o, d, b) == NewHome(o, c, b) {
      SameNewHome(o, d, c, b);
      assert c.buckets[b] == Sorted(NewHome(o, d, b));
      assert Sets(c.buckets)[b] == Elements(c.buckets[b]);
    }
  }

  lemma FilledIsRestored(o: Oracle, d: Disk, s: Tables)
    requires var c := Current(o, d);
      Filled(o, c, s) && s.nIdCount == |AllRecords(c)| && s.nNew == |c.newRecords| && s.nTried == |c.triedRecords|
    requires DistinctAddresses(AllRecords(Current(o, d)))
    ensures Restored(o, Current(o, d), s)
  {
    hide Current, LoadedInfo, NewHome, HomedAt, BucketsHolding, Homed;
    var c := Current(o, d);
    BucketLists(o, d);
    assert s.vvNew == Sets(c.buckets);
    forall i | 0 <= i < |AllRecords(c)|
      ensures s.mapInfo[i] == LoadedInfo(c, i).(nRefCount := |BucketsHolding(s.vvNew, i)|) {
      assert s.mapInfo[i] == Rebuilt(c, i);
      InItsBucket(o, c, s.vvNew, i);
    }
    forall b | 0 <= b < TRIED_BUCKET_COUNT ensures LoadedBucket(o, c, s.vvTried[b], b, |AllRecords(c)|) {
      assert TriedFilled(o, c, s.vvTried[b], b);
    }
  }

  lemma CurrentIsSound(o: Oracle, d: Disk, s: Tables)
    requires WellFormed(d) && Rebuildable(o, d) && Filled(o, Current(o, d), s)
    ensures Sound(o, Current(o, d))
  {
    hide Sorted, NewHome, HomedAt, BucketsHolding, DistinctAddresses, Kept, Sets;
    var c := Current(o, d);
    BucketLists(o, d);
    forall b | 0 <= b < NEW_BUCKET_COUNT ensures SoundBucket(c.buckets[b], |c.newRecords|) {
      ListIsSound(o, d, b);
    }
    forall i | 0 <= i < |c.newRecords| ensures |BucketsHolding(Sets(c.buckets), i)| == 1 {
      InItsBucket(o, c, Sets(c.buckets), i);
    }
    forall b | 0 <= b < TRIED_BUCKET_COUNT ensures |HomedAt(o, c, b)| <= TRIED_BUCKET_SIZE {
      assert TriedFilled(o, c, s.vvTried[b], b);
      AllHomed(o, c, s.vvTried[b], b);
    }
  }

  lemma ListIsSound(o: Oracle, d: Disk, b: nat)
    requires |NewHome(o, d, b)| <= NEW_BUCKET_SIZE
    ensures SoundBucket(Sorted(NewHome(o, d, b)), |d.newRecords|)
  {
    hide Sorted;
    SortedIsDistinct(NewHome(o, d, b));
  }

  lemma AllHomed(o: Oracle, c: Disk, bucket: seq<int>, b: nat)
    requires TriedFilled(o, c, bucket, b)
    ensures |HomedAt(o, c, b)| <= TRIED_BUCKET_SIZE
  {
    assert HomedAt(o, c, b) == Elements(bucket);
    ElementsBound(bucket);
  }

  /** An entry that only a saved list names has no reference: not consistent. */
  lemma BlankIsWrong(o: Oracle, key: Bytes, s: Tables, ids: set<int>)
    requires Valid(o, key, WithBlanks(s, ids))
    ensures ids <= s.mapInfo.Keys && WithBlanks(s, ids) == s
  {
    var t := WithBlanks(s, ids);
    forall id | id in ids ensures id in s.mapInfo {
      assert NewEntryOk(t.vvNew, id, t.mapInfo[id], NOBODY) || t.mapInfo[id].fInTried;
    }
    assert t.mapInfo == s.mapInfo;
  }

  lemma NoBlanks(s: Tables, ids: set<int>)
    requires ids <= s.mapInfo.Keys
    ensures WithBlanks(s, ids) == s
  {
    assert WithBlanks(s, ids).mapInfo == s.mapInfo;
  }

  lemma ValidIsDistinct(o: Oracle, c: Disk, s: Tables)
    requires Filled(o, c, s) && Valid(o, c.nKey, s)
    ensures DistinctAddresses(AllRecords(c))
    ensures forall b | 0 <= b < NEW_BUCKET_COUNT :: |NewHome(o, c, b)| <= NEW_BUCKET_SIZE
  {
    hide TriedTable, RandomIndex, Counters, NewHome;
    var recs := AllRecords(c);
    forall i, j | 0 <= i < j < |recs| ensures recs[i].service.ip != recs[j].service.ip {
      assert s.mapInfo[i] == Rebuilt(c, i) && s.mapInfo[j] == Rebuilt(c, j);
      assert s.mapAddr[s.mapInfo[i].service.ip] == i && s.mapAddr[s.mapInfo[j].service.ip] == j;
    }
    forall b | 0 <= b < NEW_BUCKET_COUNT ensures |NewHome(o, c, b)| <= NEW_BUCKET_SIZE {
      assert NewBucketOk(s.mapInfo, s.vvNew[b]);
    }
  }

  /** A file with another number of buckets loads to consistent tables exactly if
      no address comes twice among the kept entries, no new bucket gets more
      than it may hold, and the saved lists name only entries that exist. */
  lemma RebuildsIff(o: Oracle, d: Disk)
    requires WellFormed(d) && d.nUBuckets != NEW_BUCKET_COUNT
    ensures Valid(o, d.nKey, Loaded(o, d)) <==> Rebuildable(o, d)
    ensures Rebuildable(o, d) ==> Restored(o, Current(o, d), Loaded(o, d))
  {
    hide Current, Filled, Loaded, Unlisted, Valid, Restored, Sound, WithBlanks;
    var c, s := Current(o, d), Unlisted(o, d);
    LoadedFilled(o, d);
    CurrentKeys(o, d, s);
    if Valid(o, d.nKey, Loaded(o, d)) {
      BlankIsWrong(o, d.nKey, s, Listed(d.buckets));
      assert Loaded(o, d) == s;
      ValidIsDistinct(o, c, s);
    }
    if Rebuildable(o, d) {
      forall id | id in Listed(d.buckets) ensures id in s.mapInfo.Keys {
      }
      NoBlanks(s, Listed(d.buckets));
      FilledIsRestored(o, d, s);
      CurrentIsSound(o, d, s);
      RestoredIsValid(o, c, s);
    }
  }

  lemma CurrentKeys(o: Oracle, d: Disk, s: Tables)
    requires Filled(o, Current(o, d), s)
    ensures Current(o, d).nKey == d.nKey
    ensures forall b | 0 <= b < NEW_BUCKET_COUNT :: NewHome(o, Current(o, d), b) == NewHome(o, d, b)
    ensures forall id :: id in s.mapInfo.Keys <==> 0 <= id < |AllRecords(Current(o, d))|
  {
    hide Kept, NewHome;
    forall b | 0 <= b < NEW_BUCKET_COUNT ensures NewHome(o, Current(o, d), b) == NewHome(o, d, b) {
      SameNewHome(o, d, Current(o, d), b);
    }
  }

  lemma RestoredIsValid(o: Oracle, c: Disk, s: Tables)
    requires Sound(o, c) && Restored(o, c, s)
    ensures Valid(o, c.nKey, s)
  {
    hide Sound, Restored, AddrIndex, RandomIndex, NewTable, TriedTable, Counters;
    RestoredIndexes(o, c, s);
    RestoredCounters(o, c, s);
    RestoredNewTable(o, c, s);
    RestoredTriedTable(o, c, s);
  }

  // ------------------------------------------------------------- a file that does not

  /** Sixty-five addresses that hash alike. */
  function Crowd(): Disk {
    Disk(0, [], 65, 0, 0, seq(65, i requires 0 <= i < 65 => Record(Service([i], 0), {}, 0, [], 0, 0)), [], [])
  }

  function Alike(): Oracle { Oracle(fields => 0, ip => [], ip => true) }

  /** The rebuilding loop does not look at the size of a bucket, so this file
      leaves more in one than the tables allow. */
  lemma CrowdOverflows()
    ensures WellFormed(Crowd()) && !Valid(Alike(), [], Loaded(Alike(), Crowd()))
    ensures |NewHome(Alike(), Crowd(), 0)| == NEW_BUCKET_SIZE + 1
  {
    hide Valid, Loaded, Current, Alike, Crowd;
    AllInOne();
    RebuildsIff(Alike(), Crowd());
  }

  lemma AllInOne()
    ensures |NewHome(Alike(), Crowd(), 0)| == 65
    ensures WellFormed(Crowd()) && Crowd().nKey == [] && Crowd().nUBuckets != NEW_BUCKET_COUNT
  {
    hide NewBucket, Range;
    forall service, source ensures NewBucket(Alike(), [], service, source) == 0 { AllAlike(service, source); }
    assert NewHome(Alike(), Crowd(), 0) == Range(0, 65);
  }

  lemma AllAlike(service: Service, source: NetAddr)
    ensures NewBucket(Alike(), [], service, source) == 0
  {
  }
}
