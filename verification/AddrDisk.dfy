// The file format of the address manager: only part of the tables is written,
// and reading a file rebuilds the rest.
module AddrDisk {
  import opened AddrTables
  import opened AddrInvariant
  import opened AddrMan

  /** The part of an entry that is written. */
  datatype Record = Record(
    service: Service, nServices: Flags, nTime: int, source: NetAddr, nLastSuccess: int, nAttempts: int)

  function ToRecord(i: AddrInfo): Record {
    Record(i.service, i.nServices, i.nTime, i.source, i.nLastSuccess, i.nAttempts)
  }

  function FromRecord(r: Record): AddrInfo {
    AddrInfo(r.service, r.nServices, r.nTime, r.source, r.nLastSuccess, 0, r.nAttempts, 0, false, -1)
  }

  const Blank := AddrInfo(Service([], 0), {}, 0, [], 0, 0, 0, 0, false, -1)

  datatype Disk = Disk(
    nVersion: nat, nKey: Bytes, nNew: int, nTried: int, nUBuckets: int,
    newRecords: seq<Record>, triedRecords: seq<Record>, buckets: seq<seq<int>>)

  ghost predicate WellFormed(d: Disk) {
    d.nNew == |d.newRecords| && d.nTried == |d.triedRecords| && d.nUBuckets == |d.buckets|
  }

  // ------------------------------------------------------------------ writing

  predicate IsGreatest(s: set<int>, x: int) {
    x in s && forall y | y in s :: y <= x
  }

  lemma {:induction false} GreatestExists(s: set<int>)
    requires s != {}
    ensures exists x :: IsGreatest(s, x)
  {
    var z := Least(s);
    var rest := s - {z};
    assert forall y | y in s :: y == z || y in rest;
    if rest == {} {
      assert IsGreatest(s, z);
    } else {
      GreatestExists(rest);
      var x :| IsGreatest(rest, x);
      assert IsGreatest(s, x);
    }
  }

  function Greatest(s: set<int>): (x: int)
    requires s != {}
    ensures IsGreatest(s, x)
  {
    GreatestExists(s);
    var x :| IsGreatest(s, x);
    x
  }

  /** The ids of a set in ascending order. */
  function Sorted(s: set<int>): (ids: seq<int>)
    ensures |ids| == |s| && forall id :: id in ids <==> id in s
    decreases |s|
  {
    if s == {} then [] else
      var x := Greatest(s);
      Sorted(s - {x}) + [x]
  }

  ghost predicate Ascending(ids: seq<int>) {
    forall i, j | 0 <= i < j < |ids| :: ids[i] < ids[j]
  }

  lemma AscendingAppend(ids: seq<int>, x: int)
    requires Ascending(ids) && forall y | y in ids :: y < x
    ensures Ascending(ids + [x])
  {
    assert forall i | 0 <= i < |ids| :: ids[i] in ids;
  }

  lemma {:induction false} SortedAscends(s: set<int>)
    ensures Ascending(Sorted(s))
    decreases |s|
  {
    hide Ascending;
    if s != {} {
      var x := Greatest(s);
      SortedAscends(s - {x});
      AscendingAppend(Sorted(s - {x}), x);
    } else {
      AscendingEmpty();
    }
  }

  lemma AscendingEmpty()
    ensures Ascending([])
  {
  }

  /** Adding a largest element appends it. */
  lemma SortedAppend(s: set<int>, x: int)
    requires forall y | y in s :: y < x
    ensures Sorted(s + {x}) == Sorted(s) + [x]
  {
    var u := s + {x};
    assert IsGreatest(u, x);
    assert u - {x} == s;
  }

  function Referenced(m: map<int, AddrInfo>): set<int> {
    set id | id in m && m[id].nRefCount != 0
  }

  function IndexOf(ids: seq<int>, id: int): (i: nat)
    ensures i <= |ids| && (i < |ids| ==> ids[i] == id) && (id in ids ==> i < |ids|)
  {
    if ids == [] || ids[0] == id then 0 else 1 + IndexOf(ids[1..], id)
  }

  lemma {:induction false} IndexOfAt(ids: seq<int>, i: nat)
    requires Distinct(ids) && i < |ids|
    ensures IndexOf(ids, ids[i]) == i
  {
    if i > 0 { IndexOfAt(ids[1..], i - 1); }
  }

  function Records(m: map<int, AddrInfo>, ids: seq<int>): (r: seq<Record>)
    requires forall i | 0 <= i < |ids| :: ids[i] in m
    ensures |r| == |ids|
  {
    seq(|ids|, i requires 0 <= i < |ids| => ToRecord(m[ids[i]]))
  }

  function Indices(ids: seq<int>, members: seq<int>): (r: seq<int>)
    ensures |r| == |members|
  {
    seq(|members|, i requires 0 <= i < |members| => IndexOf(ids, members[i]))
  }

  function AllIndices(ids: seq<int>, vvNew: seq<set<int>>): (r: seq<seq<int>>)
    ensures |r| == |vvNew|
  {
    seq(|vvNew|, b requires 0 <= b < |vvNew| => Indices(ids, Sorted(vvNew[b])))
  }

  function NewIds(t: Tables): (ids: seq<int>)
    ensures forall i | 0 <= i < |ids| :: ids[i] in t.mapInfo
  {
    var ids := Sorted(Referenced(t.mapInfo));
    assert forall i | 0 <= i < |ids| :: ids[i] in Referenced(t.mapInfo);
    ids
  }

  function TriedIds(t: Tables): (ids: seq<int>)
    ensures forall i | 0 <= i < |ids| :: ids[i] in t.mapInfo
  {
    var ids := Sorted(Ids(t.mapInfo, true));
    assert forall i | 0 <= i < |ids| :: ids[i] in Ids(t.mapInfo, true);
    ids
  }

  function Saved(t: Tables, key: Bytes): Disk {
    Disk(0, key, t.nNew, t.nTried, NEW_BUCKET_COUNT,
         Records(t.mapInfo, NewIds(t)), Records(t.mapInfo, TriedIds(t)), AllIndices(NewIds(t), t.vvNew))
  }

  // ------------------------------------------------------------------ reading

  function LoadNewRecord(o: Oracle, key: Bytes, s: Tables, n: int, rec: Record, rebuild: bool): Tables {
    var info := FromRecord(rec).(nRandomPos := |s.vRandom|);
    var u := s.(mapInfo := s.mapInfo[n := info], mapAddr := s.mapAddr[rec.service.ip := n], vRandom := s.vRandom + [n]);
    var b := NewBucket(o, key, rec.service, rec.source);
    if rebuild && b < |u.vvNew| then
      u.(vvNew := u.vvNew[b := u.vvNew[b] + {n}], mapInfo := u.mapInfo[n := info.(nRefCount := 1)])
    else u
  }

  function LoadNew(o: Oracle, key: Bytes, s: Tables, recs: seq<Record>, rebuild: bool): Tables {
    if recs == [] then s else
      var n := |recs| - 1;
      LoadNewRecord(o, key, LoadNew(o, key, s, recs[..n], rebuild), n, recs[n], rebuild)
  }

  datatype Progress = Progress(s: Tables, nLost: nat)

  function LoadTriedRecord(o: Oracle, key: Bytes, p: Progress, rec: Record): Progress {
    var b := TriedBucket(o, key, rec.service);
    if b < |p.s.vvTried| && |p.s.vvTried[b]| < TRIED_BUCKET_SIZE then
      var s := p.s;
      var id := s.nIdCount;
      p.(s := s.(
        mapInfo := s.mapInfo[id := FromRecord(rec).(nRandomPos := |s.vRandom|, fInTried := true)],
        mapAddr := s.mapAddr[rec.service.ip := id],
        vRandom := s.vRandom + [id],
        vvTried := s.vvTried[b := s.vvTried[b] + [id]],
        nIdCount := id + 1))
    else p.(nLost := p.nLost + 1)
  }

  function LoadTried(o: Oracle, key: Bytes, p: Progress, recs: seq<Record>): Progress {
    if recs == [] then p else
      LoadTriedRecord(o, key, LoadTried(o, key, p, recs[..|recs| - 1]), recs[|recs| - 1])
  }

  function LoadReference(s: Tables, b: nat, id: int, live: bool): Tables {
    var m := if id in s.mapInfo then s.mapInfo else s.mapInfo[id := Blank];
    if live && b < |s.vvNew| && m[id].nRefCount < NEW_BUCKETS_PER_ADDRESS
    then s.(mapInfo := m[id := m[id].(nRefCount := m[id].nRefCount + 1)], vvNew := s.vvNew[b := s.vvNew[b] + {id}])
    else s.(mapInfo := m)
  }

  function LoadBucket(s: Tables, b: nat, ids: seq<int>, live: bool): Tables {
    if ids == [] then s else LoadReference(LoadBucket(s, b, ids[..|ids| - 1], live), b, ids[|ids| - 1], live)
  }

  function LoadBuckets(s: Tables, buckets: seq<seq<int>>, live: bool): Tables {
    if buckets == [] then s else
      var b := |buckets| - 1;
      LoadBucket(LoadBuckets(s, buckets[..b], live), b, buckets[b], live)
  }

  function LoadedNew(o: Oracle, d: Disk): Tables {
    LoadNew(o, d.nKey, Empty().(nNew := d.nNew, nTried := d.nTried), d.newRecords, d.nUBuckets != NEW_BUCKET_COUNT)
      .(nIdCount := d.nNew)
  }

  function LoadedTried(o: Oracle, d: Disk): Progress {
    LoadTried(o, d.nKey, Progress(LoadedNew(o, d), 0), d.triedRecords)
  }

  function Loaded(o: Oracle, d: Disk): Tables {
    var p := LoadedTried(o, d);
    LoadBuckets(p.s.(nTried := p.s.nTried - p.nLost), d.buckets, d.nUBuckets == NEW_BUCKET_COUNT)
  }

  // ----------------------------------------------------- the loops themselves

  lemma ReferencedAreNew(o: Oracle, key: Bytes, t: Tables)
    requires Valid(o, key, t)
    ensures Referenced(t.mapInfo) == Ids(t.mapInfo, false)
  {
    forall id | id in t.mapInfo ensures t.mapInfo[id].nRefCount != 0 <==> !t.mapInfo[id].fInTried {
      if t.mapInfo[id].fInTried { assert TriedEntryOk(o, key, t.vvTried, id, t.mapInfo[id]); }
      else { assert NewEntryOk(t.vvNew, id, t.mapInfo[id], NOBODY); }
    }
  }

  lemma {:induction false} IndexOfAppend(ids: seq<int>, x: int)
    requires x !in ids
    ensures IndexOf(ids + [x], x) == |ids|
    ensures forall id | id in ids :: IndexOf(ids + [x], id) == IndexOf(ids, id)
  {
    if ids != [] {
      assert (ids + [x])[1..] == ids[1..] + [x];
      IndexOfAppend(ids[1..], x);
    }
  }

  /** Ids already passed, of those that count, after i places of the ascending order. */
  function Passed(keys: set<int>, wanted: set<int>, i: nat): set<int>
    requires i <= |Sorted(keys)|
  {
    set id | id in Sorted(keys)[..i] && id in wanted
  }

  lemma PassOne(keys: set<int>, wanted: set<int>, i: nat)
    requires i < |Sorted(keys)|
    ensures var id := Sorted(keys)[i]; var before := Passed(keys, wanted, i);
      && Passed(keys, wanted, i + 1) == (if id in wanted then before + {id} else before)
      && (id in wanted ==> Sorted(before + {id}) == Sorted(before) + [id])
      && id !in before
  {
    hide Sorted;
    var id, before := Sorted(keys)[i], Passed(keys, wanted, i);
    SortedAscends(keys);
    assert Sorted(keys)[..i + 1] == Sorted(keys)[..i] + [id];
    forall y | y in before ensures y < id {
      var k :| 0 <= k < i && Sorted(keys)[k] == y;
    }
    SortedAppend(before, id);
  }

  lemma PassedAll(keys: set<int>, wanted: set<int>, i: nat)
    requires i <= |Sorted(keys)| && wanted <= keys
    requires i == |Sorted(keys)| || |Passed(keys, wanted, i)| == |wanted|
    ensures Passed(keys, wanted, i) == wanted
  {
    var done := Passed(keys, wanted, i);
    if i == |Sorted(keys)| {
      assert Sorted(keys)[..i] == Sorted(keys);
    } else {
      assert wanted == done + (wanted - done);
      assert |wanted - done| == 0;
    }
  }

  ghost predicate RecordsOf(m: map<int, AddrInfo>, ids: seq<int>, records: seq<Record>) {
    |records| == |ids| && forall k | 0 <= k < |ids| :: ids[k] in m && records[k] == ToRecord(m[ids[k]])
  }

  /** Each id of the set has its place in the ascending order as its number. */
  ghost predicate Numbered(mapUnkIds: map<int, int>, ids: set<int>) {
    forall id | id in ids :: id in mapUnkIds && mapUnkIds[id] == IndexOf(Sorted(ids), id)
  }

  lemma NumberOther(ids: set<int>, mapUnkIds: map<int, int>, id: int, n: int)
    requires Numbered(mapUnkIds, ids) && id !in ids
    ensures Numbered(mapUnkIds[id := n], ids)
  {
    hide Sorted, IndexOf;
  }

  lemma NumberOne(ids: set<int>, mapUnkIds: map<int, int>, id: int)
    requires Numbered(mapUnkIds, ids) && id !in ids && id in mapUnkIds && mapUnkIds[id] == |ids|
    requires Sorted(ids + {id}) == Sorted(ids) + [id]
    ensures Numbered(mapUnkIds, ids + {id})
  {
    hide Sorted, IndexOf;
    IndexOfAppend(Sorted(ids), id);
  }

  lemma NothingRecorded(m: map<int, AddrInfo>, wanted: set<int>)
    ensures RecordsOf(m, Sorted({}), []) && Passed(m.Keys, wanted, 0) == {} && Numbered(map[], {})
  {
  }

  lemma RecordOne(m: map<int, AddrInfo>, ids: set<int>, records: seq<Record>, id: int)
    requires RecordsOf(m, Sorted(ids), records) && id in m && id !in ids && Sorted(ids + {id}) == Sorted(ids) + [id]
    ensures RecordsOf(m, Sorted(ids + {id}), records + [ToRecord(m[id])])
    ensures |records| == |ids| && |ids + {id}| == |ids| + 1
  {
    hide Sorted;
  }

  /** The first pass of the writer: number and record the referenced entries. */
  method WriteNew(am: AddrMan) returns (mapUnkIds: map<int, int>, records: seq<Record>)
    requires am.nNew == |Referenced(am.mapInfo)|
    ensures RecordsOf(am.mapInfo, Sorted(Referenced(am.mapInfo)), records)
    ensures Numbered(mapUnkIds, Referenced(am.mapInfo))
  {
    hide Sorted, IndexOf, RecordsOf, Passed, Numbered;
    NothingRecorded(am.mapInfo, Referenced(am.mapInfo));
    mapUnkIds, records := map[], [];
    var nIds := 0;
    var all := Sorted(am.mapInfo.Keys);
    ghost var wanted := Referenced(am.mapInfo);
    var i := 0;
    while i < |all|
      invariant 0 <= i <= |all| && nIds == |records|
      invariant RecordsOf(am.mapInfo, Sorted(Passed(am.mapInfo.Keys, wanted, i)), records)
      invariant |records| == |Passed(am.mapInfo.Keys, wanted, i)|
      invariant Numbered(mapUnkIds, Passed(am.mapInfo.Keys, wanted, i))
    {
      if nIds == am.nNew { break; }
      PassOne(am.mapInfo.Keys, wanted, i);
      ghost var before := Passed(am.mapInfo.Keys, wanted, i);
      var id := all[i];
      assert id in am.mapInfo.Keys;
      NumberOther(before, mapUnkIds, id, nIds);
      mapUnkIds := mapUnkIds[id := nIds];
      if am.mapInfo[id].nRefCount != 0 {
        NumberOne(before, mapUnkIds, id);
        RecordOne(am.mapInfo, before, records, id);
        records := records + [ToRecord(am.mapInfo[id])];
        nIds := nIds + 1;
      }
      i := i + 1;
    }
    PassedAll(am.mapInfo.Keys, wanted, i);
  }

  /** The second pass: record the tried entries. */
  method WriteTried(am: AddrMan) returns (records: seq<Record>)
    requires am.nTried == |Ids(am.mapInfo, true)|
    ensures RecordsOf(am.mapInfo, Sorted(Ids(am.mapInfo, true)), records)
  {
    hide Sorted, RecordsOf, Passed;
    NothingRecorded(am.mapInfo, Ids(am.mapInfo, true));
    records := [];
    var nIds := 0;
    var all := Sorted(am.mapInfo.Keys);
    ghost var wanted := Ids(am.mapInfo, true);
    var i := 0;
    while i < |all|
      invariant 0 <= i <= |all| && nIds == |records|
      invariant RecordsOf(am.mapInfo, Sorted(Passed(am.mapInfo.Keys, wanted, i)), records)
      invariant |records| == |Passed(am.mapInfo.Keys, wanted, i)|
    {
      if nIds == am.nTried { break; }
      PassOne(am.mapInfo.Keys, wanted, i);
      var id := all[i];
      assert id in am.mapInfo.Keys;
      if am.mapInfo[id].fInTried {
        RecordOne(am.mapInfo, Passed(am.mapInfo.Keys, wanted, i), records, id);
        records := records + [ToRecord(am.mapInfo[id])];
        nIds := nIds + 1;
      }
      i := i + 1;
    }
    PassedAll(am.mapInfo.Keys, wanted, i);
  }

  method Write(am: AddrMan) returns (d: Disk)
    requires am.Ok()
    ensures d == Saved(am.State(), am.nKey)
  {
    hide Sorted, IndexOf, Indices;
    ReferencedAreNew(am.oracle, am.nKey, am.State());
    ghost var newIds := Sorted(Referenced(am.mapInfo));
    var mapUnkIds, newRecords := WriteNew(am);
    var triedRecords := WriteTried(am);
    var buckets: seq<seq<int>> := [];
    var b := 0;
    while b < |am.vvNew|
      invariant 0 <= b <= |am.vvNew| && |buckets| == b
      invariant forall c | 0 <= c < b :: buckets[c] == Indices(newIds, Sorted(am.vvNew[c]))
    {
      assert NewBucketOk(am.mapInfo, am.vvNew[b]);
      var indices := WriteBucket(am.vvNew[b], mapUnkIds, newIds);
      buckets := buckets + [indices];
      b := b + 1;
    }
    d := Disk(0, am.nKey, am.nNew, am.nTried, NEW_BUCKET_COUNT, newRecords, triedRecords, buckets);
    ghost var e := Saved(am.State(), am.nKey);
    assert d.newRecords == e.newRecords;
    assert d.triedRecords == e.triedRecords;
    assert d.buckets == e.buckets;
  }

  method WriteBucket(vNew: set<int>, mapUnkIds: map<int, int>, ghost newIds: seq<int>) returns (indices: seq<int>)
    requires forall id | id in vNew :: id in mapUnkIds && mapUnkIds[id] == IndexOf(newIds, id)
    ensures indices == Indices(newIds, Sorted(vNew))
  {
    var members := Sorted(vNew);
    indices := [];
    var i := 0;
    while i < |members|
      invariant 0 <= i <= |members| && indices == Indices(newIds, members)[..i]
    {
      indices := indices + [mapUnkIds[members[i]]];
      i := i + 1;
    }
  }

  lemma LoadNothing(s: Tables, live: bool)
    ensures LoadBuckets(s, [], live) == s
  {
  }

  lemma LoadBucketsStep(s: Tables, buckets: seq<seq<int>>, b: nat, live: bool)
    requires b < |buckets|
    ensures LoadBuckets(s, buckets[..b + 1], live) == LoadBucket(LoadBuckets(s, buckets[..b], live), b, buckets[b], live)
  {
    assert buckets[..b + 1][..b] == buckets[..b];
  }

  lemma LoadNoTried(o: Oracle, key: Bytes, p: Progress)
    ensures LoadTried(o, key, p, []) == p
  {
  }

  lemma LoadTriedStep(o: Oracle, key: Bytes, p: Progress, recs: seq<Record>, n: nat)
    requires n < |recs|
    ensures LoadTried(o, key, p, recs[..n + 1]) == LoadTriedRecord(o, key, LoadTried(o, key, p, recs[..n]), recs[n])
  {
    assert recs[..n + 1][..n] == recs[..n];
  }

  method Read(am: AddrMan, d: Disk)
    requires WellFormed(d)
    modifies am
    ensures am.nKey == d.nKey && am.State() == Loaded(am.oracle, d)
  {
    hide LoadNew, LoadTried, LoadBucket, LoadBuckets;
    am.nKey, am.nNew, am.nTried := d.nKey, d.nNew, d.nTried;
    am.nIdCount, am.mapInfo, am.mapAddr, am.vRandom := 0, map[], map[], [];
    am.vvTried := seq(TRIED_BUCKET_COUNT, _ => []);
    am.vvNew := seq(NEW_BUCKET_COUNT, _ => {});
    ReadNew(am, d);
    am.nIdCount := am.nNew;
    var nLost := ReadTried(am, d);
    am.nTried := am.nTried - nLost;
    ghost var s := am.State();
    var b := 0;
    LoadNothing(s, d.nUBuckets == NEW_BUCKET_COUNT);
    while b < d.nUBuckets
      invariant 0 <= b <= d.nUBuckets && am.nKey == d.nKey
      invariant am.State() == LoadBuckets(s, d.buckets[..b], d.nUBuckets == NEW_BUCKET_COUNT)
    {
      LoadBucketsStep(s, d.buckets, b, d.nUBuckets == NEW_BUCKET_COUNT);
      ReadBucket(am, b, d.buckets[b], d.nUBuckets == NEW_BUCKET_COUNT);
      b := b + 1;
    }
    assert d.buckets[..b] == d.buckets;
  }

  lemma LoadNoNew(o: Oracle, key: Bytes, s: Tables, rebuild: bool)
    ensures LoadNew(o, key, s, [], rebuild) == s
  {
  }

  lemma LoadNewStep(o: Oracle, key: Bytes, s: Tables, recs: seq<Record>, n: nat, rebuild: bool)
    requires n < |recs|
    ensures LoadNew(o, key, s, recs[..n + 1], rebuild) ==
            LoadNewRecord(o, key, LoadNew(o, key, s, recs[..n], rebuild), n, recs[n], rebuild)
  {
    assert recs[..n + 1][..n] == recs[..n];
  }

  lemma RecordAddress(r: Record)
    ensures FromRecord(r).service == r.service && FromRecord(r).source == r.source
  {
  }

  method ReadNew(am: AddrMan, d: Disk)
    requires WellFormed(d) && am.nNew == d.nNew && am.nKey == d.nKey
    requires am.State() == Empty().(nNew := d.nNew, nTried := d.nTried)
    modifies am`mapInfo, am`mapAddr, am`vRandom, am`vvNew
    ensures am.State() == LoadNew(am.oracle, d.nKey, old(am.State()), d.newRecords, d.nUBuckets != NEW_BUCKET_COUNT)
    ensures |am.vvNew| == NEW_BUCKET_COUNT
  {
    hide LoadNew, NewBucket, FromRecord;
    ghost var s := am.State();
    LoadNoNew(am.oracle, d.nKey, s, d.nUBuckets != NEW_BUCKET_COUNT);
    var n := 0;
    while n < am.nNew
      invariant 0 <= n <= am.nNew && |am.vvNew| == NEW_BUCKET_COUNT
      invariant am.State() == LoadNew(am.oracle, d.nKey, s, d.newRecords[..n], d.nUBuckets != NEW_BUCKET_COUNT)
    {
      LoadNewStep(am.oracle, d.nKey, s, d.newRecords, n, d.nUBuckets != NEW_BUCKET_COUNT);
      RecordAddress(d.newRecords[n]);
      var info := FromRecord(d.newRecords[n]).(nRandomPos := |am.vRandom|);
      am.mapInfo := am.mapInfo[n := info];
      am.mapAddr := am.mapAddr[info.service.ip := n];
      am.vRandom := am.vRandom + [n];
      if d.nUBuckets != NEW_BUCKET_COUNT {
        var b := NewBucket(am.oracle, am.nKey, info.service, info.source);
        am.vvNew := am.vvNew[b := am.vvNew[b] + {n}];
        am.mapInfo := am.mapInfo[n := info.(nRefCount := 1)];
      }
      n := n + 1;
    }
    assert d.newRecords[..n] == d.newRecords;
  }

  method ReadTried(am: AddrMan, d: Disk) returns (nLost: nat)
    requires WellFormed(d) && am.nTried == d.nTried && am.nKey == d.nKey && |am.vvTried| == TRIED_BUCKET_COUNT
    modifies am`mapInfo, am`mapAddr, am`vRandom, am`vvTried, am`nIdCount
    ensures Progress(am.State(), nLost) == LoadTried(am.oracle, d.nKey, Progress(old(am.State()), 0), d.triedRecords)
  {
    hide LoadTried;
    ghost var p := Progress(am.State(), 0);
    nLost := 0;
    LoadNoTried(am.oracle, d.nKey, p);
    var n := 0;
    while n < am.nTried
      invariant 0 <= n <= am.nTried && |am.vvTried| == TRIED_BUCKET_COUNT
      invariant Progress(am.State(), nLost) == LoadTried(am.oracle, d.nKey, p, d.triedRecords[..n])
    {
      LoadTriedStep(am.oracle, d.nKey, p, d.triedRecords, n);
      var info := FromRecord(d.triedRecords[n]);
      var b := TriedBucket(am.oracle, am.nKey, info.service);
      if |am.vvTried[b]| < TRIED_BUCKET_SIZE {
        info := info.(nRandomPos := |am.vRandom|, fInTried := true);
        am.vRandom := am.vRandom + [am.nIdCount];
        am.mapInfo := am.mapInfo[am.nIdCount := info];
        am.mapAddr := am.mapAddr[info.service.ip := am.nIdCount];
        am.vvTried := am.vvTried[b := am.vvTried[b] + [am.nIdCount]];
        am.nIdCount := am.nIdCount + 1;
      } else {
        nLost := nLost + 1;
      }
      n := n + 1;
    }
    assert d.triedRecords[..n] == d.triedRecords;
  }

  lemma LoadNoReference(s: Tables, b: nat, live: bool)
    ensures LoadBucket(s, b, [], live) == s
  {
  }

  lemma LoadBucketStep(s: Tables, b: nat, ids: seq<int>, n: nat, live: bool)
    requires n < |ids|
    ensures LoadBucket(s, b, ids[..n + 1], live) == LoadReference(LoadBucket(s, b, ids[..n], live), b, ids[n], live)
  {
    assert ids[..n + 1][..n] == ids[..n];
  }

  method ReadBucket(am: AddrMan, b: nat, ids: seq<int>, live: bool)
    modifies am`mapInfo, am`vvNew
    ensures am.State() == LoadBucket(old(am.State()), b, ids, live)
  {
    hide LoadBucket;
    ghost var s := am.State();
    LoadNoReference(s, b, live);
    var n := 0;
    while n < |ids|
      invariant 0 <= n <= |ids| && am.State() == LoadBucket(s, b, ids[..n], live)
    {
      LoadBucketStep(s, b, ids, n, live);
      var nIndex := ids[n];
      if nIndex !in am.mapInfo { am.mapInfo := am.mapInfo[nIndex := Blank]; }
      if live && b < |am.vvNew| && am.mapInfo[nIndex].nRefCount < NEW_BUCKETS_PER_ADDRESS {
        am.mapInfo := am.mapInfo[nIndex := am.mapInfo[nIndex].(nRefCount := am.mapInfo[nIndex].nRefCount + 1)];
        am.vvNew := am.vvNew[b := am.vvNew[b] + {nIndex}];
      }
      n := n + 1;
    }
    assert ids[..n] == ids;
  }
}
