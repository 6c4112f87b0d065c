// Every operation of the address manager keeps the invariant, hence so does every run.
module AddrInvariant {
  import opened AddrTables
  import opened FiniteSets

  // ------------------------------------------------- counting ids and buckets

  lemma BucketsAfterRemove(vvNew: seq<set<int>>, b: nat, x: int, y: int)
    requires b < |vvNew|
    ensures BucketsHolding(vvNew[b := vvNew[b] - {x}], y)
         == if x == y then BucketsHolding(vvNew, y) - {b} else BucketsHolding(vvNew, y)
  {
  }

  lemma BucketsAfterInsert(vvNew: seq<set<int>>, b: nat, x: int, y: int)
    requires b < |vvNew|
    ensures BucketsHolding(vvNew[b := vvNew[b] + {x}], y)
         == if x == y then BucketsHolding(vvNew, y) + {b} else BucketsHolding(vvNew, y)
  {
  }

  lemma NobodyHolds(vvNew: seq<set<int>>, id: int)
    requires forall b | 0 <= b < |vvNew| :: id !in vvNew[b]
    ensures BucketsHolding(vvNew, id) == {}
  {
  }

  // ------------------------------------------------------------------- frames

  /** The tried table only looks at the entries that are tried. */
  lemma TriedTableFrame(o: Oracle, key: Bytes, t: Tables, s: Tables)
    requires TriedTable(o, key, t) && s.vvTried == t.vvTried
    requires forall id | id in t.mapInfo && t.mapInfo[id].fInTried :: id in s.mapInfo
    requires forall id | id in s.mapInfo && ((id in t.mapInfo && t.mapInfo[id].fInTried) || s.mapInfo[id].fInTried) ::
               && id in t.mapInfo && s.mapInfo[id].fInTried && t.mapInfo[id].fInTried
               && s.mapInfo[id].service == t.mapInfo[id].service
               && s.mapInfo[id].nRefCount == t.mapInfo[id].nRefCount
    ensures TriedTable(o, key, s)
  {
    forall b | 0 <= b < TRIED_BUCKET_COUNT ensures TriedBucketOk(o, key, s.mapInfo, b, s.vvTried[b]) {
      assert TriedBucketOk(o, key, t.mapInfo, b, t.vvTried[b]);
    }
    forall id | id in s.mapInfo && s.mapInfo[id].fInTried
      ensures TriedEntryOk(o, key, s.vvTried, id, s.mapInfo[id])
    {
      assert TriedEntryOk(o, key, t.vvTried, id, t.mapInfo[id]);
    }
  }

  ghost predicate SameStructure(x: AddrInfo, y: AddrInfo) {
    x.service == y.service && x.fInTried == y.fInTried && x.nRefCount == y.nRefCount && x.nRandomPos == y.nRandomPos
  }

  // --------------------------------------------------------- one step at a time

  lemma Shape(o: Oracle, key: Bytes, t: Tables, pending: int)
    requires Consistent(o, key, t, pending)
    ensures NOBODY !in t.mapInfo && |t.vvNew| == NEW_BUCKET_COUNT && |t.vvTried| == TRIED_BUCKET_COUNT
  {
  }

  lemma IndexesFrame(t: Tables, s: Tables)
    requires AddrIndex(t) && RandomIndex(t) && s.mapAddr == t.mapAddr && s.vRandom == t.vRandom
    requires s.mapInfo.Keys == t.mapInfo.Keys
    requires forall id | id in s.mapInfo ::
      s.mapInfo[id].service == t.mapInfo[id].service && s.mapInfo[id].nRandomPos == t.mapInfo[id].nRandomPos
    ensures AddrIndex(s) && RandomIndex(s)
  {
  }

  /** Changing only the reference count of an untried id. */
  lemma RecountFrame(o: Oracle, key: Bytes, t: Tables, id: int, info: AddrInfo)
    requires AddrIndex(t) && RandomIndex(t) && TriedTable(o, key, t) && Counters(t)
    requires id in t.mapInfo && SameStructure(info, t.mapInfo[id].(nRefCount := info.nRefCount))
    requires info.fInTried ==> info.nRefCount == t.mapInfo[id].nRefCount
    ensures var s := SetInfo(t, id, info); AddrIndex(s) && RandomIndex(s) && TriedTable(o, key, s) && Counters(s)
  {
    var s := SetInfo(t, id, info);
    IndexesFrame(t, s);
    TriedTableFrame(o, key, t, s);
    assert Ids(s.mapInfo, false) == Ids(t.mapInfo, false);
    assert Ids(s.mapInfo, true) == Ids(t.mapInfo, true);
  }

  lemma RecountNewTable(t: Tables, pending: int, pending': int, id: int, info: AddrInfo)
    requires NewTable(t, pending) && id in t.mapInfo && info.fInTried == t.mapInfo[id].fInTried
    requires !info.fInTried ==> NewEntryOk(t.vvNew, id, info, pending')
    requires pending' == pending || (pending == NOBODY && pending' == id)
    requires NOBODY !in t.mapInfo
    ensures NewTable(SetInfo(t, id, info), pending')
  {
    var s := SetInfo(t, id, info);
    forall b | 0 <= b < NEW_BUCKET_COUNT ensures NewBucketOk(s.mapInfo, s.vvNew[b]) {
      assert NewBucketOk(t.mapInfo, t.vvNew[b]);
    }
    forall x | x in s.mapInfo && !s.mapInfo[x].fInTried ensures NewEntryOk(s.vvNew, x, s.mapInfo[x], pending') {
      if x != id { assert NewEntryOk(t.vvNew, x, t.mapInfo[x], pending); }
    }
  }

  /** A change to an entry that touches no structural field is invisible. */
  lemma StatisticsKeepValid(o: Oracle, key: Bytes, t: Tables, id: int, info: AddrInfo)
    requires Valid(o, key, t) && id in t.mapInfo && SameStructure(info, t.mapInfo[id])
    ensures Valid(o, key, SetInfo(t, id, info))
  {
    RecountFrame(o, key, t, id, info);
    if !info.fInTried { assert NewEntryOk(t.vvNew, id, t.mapInfo[id], NOBODY); }
    RecountNewTable(t, NOBODY, NOBODY, id, info);
  }

  lemma BumpKeepsConsistent(o: Oracle, key: Bytes, t: Tables, id: int)
    requires Valid(o, key, t) && id in t.mapInfo && !t.mapInfo[id].fInTried
    requires t.mapInfo[id].nRefCount < NEW_BUCKETS_PER_ADDRESS
    ensures Consistent(o, key, SetInfo(t, id, t.mapInfo[id].(nRefCount := t.mapInfo[id].nRefCount + 1)), id)
  {
    var info := t.mapInfo[id].(nRefCount := t.mapInfo[id].nRefCount + 1);
    RecountFrame(o, key, t, id, info);
    assert NewEntryOk(t.vvNew, id, t.mapInfo[id], NOBODY);
    RecountNewTable(t, NOBODY, id, id, info);
  }

  lemma EnrollKeepsConsistent(o: Oracle, key: Bytes, t: Tables, addr: Address, source: NetAddr, penalty: int)
    requires Valid(o, key, t) && addr.service.ip !in t.mapAddr
    ensures var s := Enrolled(t, addr, source, penalty); var id := t.nIdCount;
      Consistent(o, key, SetInfo(s, id, s.mapInfo[id].(nRefCount := s.mapInfo[id].nRefCount + 1)), id)
  {
    var id := t.nIdCount;
    var info := Enrolled(t, addr, source, penalty).mapInfo[id];
    var s := SetInfo(Enrolled(t, addr, source, penalty), id, info.(nRefCount := 1));
    EnrollMap(t, addr, source, penalty);
    EnrollNewTable(t, s, id);
    TriedTableFrame(o, key, t, s);
    EnrollCounters(t, s, id);
    EnrollIndexes(t, s, id);
  }

  lemma EnrollMap(t: Tables, addr: Address, source: NetAddr, penalty: int)
    requires Counters(t) && RandomIndex(t)
    ensures var s := Enrolled(t, addr, source, penalty); var id := t.nIdCount;
      && s.mapInfo == t.mapInfo[id := s.mapInfo[id]]
      && s.mapInfo[id].(nTime := 0) ==
           AddrInfo(addr.service, addr.nServices, 0, source, 0, 0, 0, 0, false, |t.vRandom|)
  {
  }

  lemma EnrollIndexes(t: Tables, s: Tables, id: int)
    requires AddrIndex(t) && RandomIndex(t) && id !in t.mapInfo
    requires s.mapInfo.Keys == t.mapInfo.Keys + {id} && forall x | x in t.mapInfo :: s.mapInfo[x] == t.mapInfo[x]
    requires s.mapInfo[id].nRandomPos == |t.vRandom| && s.vRandom == t.vRandom + [id]
    requires s.mapInfo[id].service.ip !in t.mapAddr && s.mapAddr == t.mapAddr[s.mapInfo[id].service.ip := id]
    ensures AddrIndex(s) && RandomIndex(s)
  {
    hide AddrIndex;
    EnrollAddress(t, s, id);
    forall x | x in s.mapInfo ensures 0 <= s.mapInfo[x].nRandomPos < |s.vRandom| && s.vRandom[s.mapInfo[x].nRandomPos] == x {
      assert x in t.mapInfo || x == id;
    }
    forall i | 0 <= i < |s.vRandom| ensures s.vRandom[i] in s.mapInfo && s.mapInfo[s.vRandom[i]].nRandomPos == i {
      if i < |t.vRandom| { assert s.vRandom[i] == t.vRandom[i]; }
    }
  }

  lemma EnrollAddress(t: Tables, s: Tables, id: int)
    requires AddrIndex(t) && id !in t.mapInfo
    requires s.mapInfo.Keys == t.mapInfo.Keys + {id} && forall x | x in t.mapInfo :: s.mapInfo[x] == t.mapInfo[x]
    requires s.mapInfo[id].service.ip !in t.mapAddr && s.mapAddr == t.mapAddr[s.mapInfo[id].service.ip := id]
    ensures AddrIndex(s)
  {
    forall x | x in s.mapInfo ensures s.mapInfo[x].service.ip in s.mapAddr && s.mapAddr[s.mapInfo[x].service.ip] == x {
      assert x in t.mapInfo || x == id;
    }
  }

  lemma EnrollNewTable(t: Tables, s: Tables, id: int)
    requires NewTable(t, NOBODY) && s.vvNew == t.vvNew && id !in t.mapInfo && NOBODY !in t.mapInfo
    requires s.mapInfo.Keys == t.mapInfo.Keys + {id} && s.mapInfo[id].nRefCount == 1
    requires forall x | x in t.mapInfo :: s.mapInfo[x] == t.mapInfo[x]
    ensures NewTable(s, id)
  {
    forall b | 0 <= b < NEW_BUCKET_COUNT ensures NewBucketOk(s.mapInfo, s.vvNew[b]) && id !in t.vvNew[b] {
      assert NewBucketOk(t.mapInfo, t.vvNew[b]);
    }
    NobodyHolds(t.vvNew, id);
    forall x | x in s.mapInfo && !s.mapInfo[x].fInTried ensures NewEntryOk(s.vvNew, x, s.mapInfo[x], id) {
      if x != id { assert NewEntryOk(t.vvNew, x, t.mapInfo[x], NOBODY); }
    }
  }

  lemma IdsGrow(m: map<int, AddrInfo>, m': map<int, AddrInfo>, id: int, tried: bool)
    requires m'.Keys == m.Keys + {id} && id !in m && forall x | x in m :: m'[x].fInTried == m[x].fInTried
    ensures |Ids(m', tried)| == |Ids(m, tried)| + if m'[id].fInTried == tried then 1 else 0
  {
    var after := Ids(m', tried);
    var before := Ids(m, tried) + if m'[id].fInTried == tried then {id} else {};
    forall x ensures x in after <==> x in before {
      assert x in m' <==> x in m || x == id;
    }
    assert after == before;
  }

  lemma EnrollCounters(t: Tables, s: Tables, id: int)
    requires Counters(t) && id == t.nIdCount && s.nIdCount == id + 1
    requires s.mapInfo.Keys == t.mapInfo.Keys + {id} && !s.mapInfo[id].fInTried
    requires forall x | x in t.mapInfo :: s.mapInfo[x].fInTried == t.mapInfo[x].fInTried
    requires s.nNew == t.nNew + 1 && s.nTried == t.nTried
    ensures Counters(s)
  {
    hide Ids;
    IdsGrow(t.mapInfo, s.mapInfo, id, false);
    IdsGrow(t.mapInfo, s.mapInfo, id, true);
    forall x | x in s.mapInfo ensures 0 <= x < s.nIdCount {
      assert x in t.mapInfo || x == id;
    }
  }

  lemma DeleteFacts(t: Tables, id: int)
    requires RandomIndex(t) && id in t.mapInfo
    ensures var s := Delete(t, id);
      && s.mapInfo.Keys == t.mapInfo.Keys - {id}
      && s.mapAddr == t.mapAddr - {t.mapInfo[id].service.ip}
      && (forall x | x in s.mapInfo :: s.mapInfo[x] == t.mapInfo[x].(nRandomPos := s.mapInfo[x].nRandomPos))
      && RandomIndex(s)
  {
    hide SwapRandom;
    var pos := t.mapInfo[id].nRandomPos;
    var n := |t.vRandom| - 1;
    var u := SwapRandom(t, pos, n);
    SwapRandomKeepsIndex(t, pos, n);
    SwapMovesPositions(t, pos, n);
    SwapsToEnd(t, id);
    var s := Delete(t, id);
    assert s.mapInfo == u.mapInfo - {id};
    forall x | x in s.mapInfo
      ensures 0 <= s.mapInfo[x].nRandomPos < |s.vRandom| && s.vRandom[s.mapInfo[x].nRandomPos] == x
    {
      assert u.vRandom[u.mapInfo[x].nRandomPos] == x;
    }
    forall i | 0 <= i < |s.vRandom| ensures s.vRandom[i] in s.mapInfo && s.mapInfo[s.vRandom[i]].nRandomPos == i {
      assert u.mapInfo[u.vRandom[i]].nRandomPos == i;
    }
  }

  lemma SwapsToEnd(t: Tables, id: int)
    requires RandomIndex(t) && id in t.mapInfo
    ensures var u := SwapRandom(t, t.mapInfo[id].nRandomPos, |t.vRandom| - 1);
      |u.vRandom| == |t.vRandom| && u.vRandom[|t.vRandom| - 1] == id
  {
  }

  lemma DeleteKeepsAddrIndex(t: Tables, s: Tables, id: int)
    requires AddrIndex(t) && id in t.mapInfo && s.mapInfo.Keys == t.mapInfo.Keys - {id}
    requires s.mapAddr == t.mapAddr - {t.mapInfo[id].service.ip}
    requires forall x | x in s.mapInfo :: s.mapInfo[x].service == t.mapInfo[x].service
    ensures AddrIndex(s)
  {
  }

  lemma DeleteCounters(t: Tables, id: int)
    requires Counters(t) && RandomIndex(t) && id in t.mapInfo && !t.mapInfo[id].fInTried
    ensures Counters(Delete(t, id))
  {
    hide RandomIndex, SwapRandom, Ids;
    DeleteFacts(t, id);
    var s := Delete(t, id);
    DeleteCounts(t, id);
    IdsGrow(s.mapInfo, t.mapInfo, id, false);
    IdsGrow(s.mapInfo, t.mapInfo, id, true);
  }

  lemma DeleteCounts(t: Tables, id: int)
    requires RandomIndex(t) && id in t.mapInfo
    ensures var s := Delete(t, id); s.nNew == t.nNew - 1 && s.nTried == t.nTried && s.nIdCount == t.nIdCount
    ensures Delete(t, id).vvTried == t.vvTried && Delete(t, id).vvNew == t.vvNew
  {
  }

  /** What dropping a reference does to everybody else. */
  lemma DropReferenceFacts(o: Oracle, key: Bytes, t: Tables, b: nat, id: int)
    requires AddrIndex(t) && RandomIndex(t) && TriedTable(o, key, t) && Counters(t)
    requires id in t.mapInfo && !t.mapInfo[id].fInTried && b < |t.vvNew|
    ensures var s := DropReference(t, b, id); var last := t.mapInfo[id].nRefCount == 1;
      && s.vvNew == t.vvNew[b := t.vvNew[b] - {id}]
      && s.mapInfo.Keys == (if last then t.mapInfo.Keys - {id} else t.mapInfo.Keys)
      && (forall x | x in s.mapInfo && x != id ::
            s.mapInfo[x] == t.mapInfo[x].(nRandomPos := s.mapInfo[x].nRandomPos))
      && (!last ==> s.mapInfo[id] == t.mapInfo[id].(nRefCount := t.mapInfo[id].nRefCount - 1))
      && AddrIndex(s) && RandomIndex(s) && TriedTable(o, key, s) && Counters(s)
  {
    hide RandomIndex, AddrIndex, TriedTable, Counters, Delete;
    var info := t.mapInfo[id].(nRefCount := t.mapInfo[id].nRefCount - 1);
    var u := SetInfo(t, id, info);
    RecountFrame(o, key, t, id, info);
    var d := u;
    if info.nRefCount == 0 {
      d := Delete(u, id);
      DeleteFacts(u, id);
      DeleteCounts(u, id);
      DeleteCounters(u, id);
      DeleteKeepsAddrIndex(u, d, id);
      TriedTableFrame(o, key, u, d);
    }
    BucketsDoNotMatter(o, key, d, d.vvNew[b := d.vvNew[b] - {id}]);
  }

  lemma BucketsDoNotMatter(o: Oracle, key: Bytes, t: Tables, vvNew: seq<set<int>>)
    requires AddrIndex(t) && RandomIndex(t) && TriedTable(o, key, t) && Counters(t)
    ensures var s := t.(vvNew := vvNew); AddrIndex(s) && RandomIndex(s) && TriedTable(o, key, s) && Counters(s)
  {
    TriedTableFrame(o, key, t, t.(vvNew := vvNew));
  }

  lemma DropReferenceKeepsConsistent(o: Oracle, key: Bytes, t: Tables, pending: int, b: nat, id: int)
    requires Consistent(o, key, t, pending) && b < NEW_BUCKET_COUNT && id in t.vvNew[b] && id != pending
    ensures id in t.mapInfo
    ensures Consistent(o, key, DropReference(t, b, id), pending)
    ensures |DropReference(t, b, id).vvNew[b]| == |t.vvNew[b]| - 1
  {
    assert NewBucketOk(t.mapInfo, t.vvNew[b]);
    assert NewEntryOk(t.vvNew, id, t.mapInfo[id], pending);
    DropReferenceFacts(o, key, t, b, id);
    DropReferenceNewTable(t, DropReference(t, b, id), pending, b, id);
  }

  lemma DropReferenceNewTable(t: Tables, s: Tables, pending: int, b: nat, id: int)
    requires NewTable(t, pending) && b < NEW_BUCKET_COUNT && id in t.vvNew[b] && id != pending
    requires id in t.mapInfo && !t.mapInfo[id].fInTried && NewEntryOk(t.vvNew, id, t.mapInfo[id], pending)
    requires s.vvNew == t.vvNew[b := t.vvNew[b] - {id}]
    requires var last := t.mapInfo[id].nRefCount == 1;
      && s.mapInfo.Keys == (if last then t.mapInfo.Keys - {id} else t.mapInfo.Keys)
      && (forall x | x in s.mapInfo && x != id ::
            s.mapInfo[x] == t.mapInfo[x].(nRandomPos := s.mapInfo[x].nRandomPos))
      && (!last ==> s.mapInfo[id] == t.mapInfo[id].(nRefCount := t.mapInfo[id].nRefCount - 1))
    ensures NewTable(s, pending)
  {
    var held := BucketsHolding(t.vvNew, id);
    assert b in held;
    BucketsAfterRemove(t.vvNew, b, id, id);
    assert |held - {b}| == |held| - 1;
    assert t.mapInfo[id].nRefCount == 1 ==> held - {b} == {};
    forall c | 0 <= c < NEW_BUCKET_COUNT ensures NewBucketOk(s.mapInfo, s.vvNew[c]) {
      assert NewBucketOk(t.mapInfo, t.vvNew[c]);
      assert id in t.vvNew[c] ==> c in held;
    }
    forall x | x in s.mapInfo && !s.mapInfo[x].fInTried ensures NewEntryOk(s.vvNew, x, s.mapInfo[x], pending) {
      BucketsAfterRemove(t.vvNew, b, id, x);
      if x != id { assert NewEntryOk(t.vvNew, x, t.mapInfo[x], pending); }
    }
  }

  lemma PlaceKeepsConsistent(o: Oracle, key: Bytes, t: Tables, b: nat, id: int)
    requires Consistent(o, key, t, id) && b < NEW_BUCKET_COUNT && id !in t.vvNew[b]
    requires id in t.mapInfo && !t.mapInfo[id].fInTried && |t.vvNew[b]| < NEW_BUCKET_SIZE
    ensures Valid(o, key, t.(vvNew := t.vvNew[b := t.vvNew[b] + {id}]))
  {
    hide AddrIndex, RandomIndex, TriedTable, Counters, NewTable;
    Shape(o, key, t, id);
    var s := t.(vvNew := t.vvNew[b := t.vvNew[b] + {id}]);
    PlaceNewTable(t, s, b, id);
    BucketsDoNotMatter(o, key, t, s.vvNew);
  }

  lemma PlaceNewTable(t: Tables, s: Tables, b: nat, id: int)
    requires NewTable(t, id) && b < NEW_BUCKET_COUNT && id !in t.vvNew[b]
    requires id in t.mapInfo && !t.mapInfo[id].fInTried && |t.vvNew[b]| < NEW_BUCKET_SIZE && NOBODY !in t.mapInfo
    requires s.mapInfo == t.mapInfo && s.vvNew == t.vvNew[b := t.vvNew[b] + {id}]
    ensures NewTable(s, NOBODY)
  {
    forall c | 0 <= c < NEW_BUCKET_COUNT ensures NewBucketOk(s.mapInfo, s.vvNew[c]) {
      assert NewBucketOk(t.mapInfo, t.vvNew[c]);
    }
    forall x | x in s.mapInfo && !s.mapInfo[x].fInTried ensures NewEntryOk(s.vvNew, x, s.mapInfo[x], NOBODY) {
      assert NewEntryOk(t.vvNew, x, t.mapInfo[x], id);
      BucketsAfterInsert(t.vvNew, b, id, x);
      assert b !in BucketsHolding(t.vvNew, id);
    }
  }

  lemma InsertReferenceKeepsValid(o: Oracle, key: Bytes, t: Tables, b: nat, id: int, victim: int)
    requires b < |t.vvNew| == NEW_BUCKET_COUNT && id in t.mapInfo && RandomIndex(t) && id !in t.vvNew[b]
    requires |t.vvNew[b]| == NEW_BUCKET_SIZE ==> victim in t.mapInfo && victim in t.vvNew[b]
    requires !t.mapInfo[id].fInTried
    requires Consistent(o, key, SetInfo(t, id, t.mapInfo[id].(nRefCount := t.mapInfo[id].nRefCount + 1)), id)
    ensures Valid(o, key, InsertReference(t, b, id, victim))
  {
    hide AddrIndex, RandomIndex, TriedTable, Counters, DropReference, NewEntryOk;
    var s := SetInfo(t, id, t.mapInfo[id].(nRefCount := t.mapInfo[id].nRefCount + 1));
    if |s.vvNew[b]| == NEW_BUCKET_SIZE {
      DropReferenceKeepsConsistent(o, key, s, id, b, victim);
      assert NewBucketOk(s.mapInfo, s.vvNew[b]);
      DropReferenceFacts(o, key, s, b, victim);
      PlaceKeepsConsistent(o, key, DropReference(s, b, victim), b, id);
    } else {
      assert NewBucketOk(s.mapInfo, s.vvNew[b]);
      PlaceKeepsConsistent(o, key, s, b, id);
    }
  }

  lemma AddKeepsValid(o: Oracle, key: Bytes, t: Tables, op: Op)
    requires op.Add? && Valid(o, key, t) && Legal(o, key, t, op)
    ensures Valid(o, key, ApplyAdd(o, key, t, op))
  {
    var id := Lookup(t, op.addr.service.ip);
    if o.routable(op.addr.service.ip) {
      if id in t.mapInfo {
        VictimIsKnown(t, NewBucket(o, key, t.mapInfo[id].service, op.source));
        AddKnownKeepsValid(o, key, t, op, id, Refreshed(t.mapInfo[id], op.addr, op.penalty, op.now));
      } else {
        VictimIsKnown(t, NewBucket(o, key, op.addr.service, op.source));
        AddUnknownKeepsValid(o, key, t, op.addr, op.source, op.penalty, op.victim);
      }
    }
  }

  lemma AddKnownKeepsValid(o: Oracle, key: Bytes, t: Tables, op: Op, id: int, info: AddrInfo)
    requires Valid(o, key, t) && op.Add? && id in t.mapInfo && SameStructure(info, t.mapInfo[id])
    requires var b := NewBucket(o, key, info.service, op.source);
      op.coin == 0 && Admissible(info, op.addr) && id !in t.vvNew[b] && |t.vvNew[b]| == NEW_BUCKET_SIZE ==>
        op.victim in t.vvNew[b] && op.victim in t.mapInfo
    ensures var s := SetInfo(t, id, info);
      && RandomIndex(s) && Valid(o, key, s)
      && (op.coin == 0 && Admissible(info, op.addr) ==>
            Valid(o, key, Reference(s, NewBucket(o, key, info.service, op.source), id, op.victim)))
  {
    var s := SetInfo(t, id, info);
    StatisticsKeepValid(o, key, t, id, info);
    var b := NewBucket(o, key, info.service, op.source);
    if op.coin == 0 && Admissible(info, op.addr) && id !in s.vvNew[b] {
      assert NewEntryOk(s.vvNew, id, s.mapInfo[id], NOBODY);
      BumpKeepsConsistent(o, key, s, id);
      InsertReferenceKeepsValid(o, key, s, b, id, op.victim);
    }
  }

  lemma AddUnknownKeepsValid(o: Oracle, key: Bytes, t: Tables, addr: Address, source: NetAddr, penalty: int, victim: int)
    requires Valid(o, key, t) && addr.service.ip !in t.mapAddr
    requires var b := NewBucket(o, key, addr.service, source);
      |t.vvNew[b]| == NEW_BUCKET_SIZE ==> victim in t.vvNew[b] && victim in t.mapInfo
    ensures var b := NewBucket(o, key, addr.service, source);
      Valid(o, key, Reference(Enrolled(t, addr, source, penalty), b, t.nIdCount, victim))
  {
    hide TriedTable, NewEntryOk, InsertReference, RandomIndex, AddrIndex;
    var b := NewBucket(o, key, addr.service, source);
    assert NewBucketOk(t.mapInfo, t.vvNew[b]);
    EnrollKeepsConsistent(o, key, t, addr, source, penalty);
    EnrollMap(t, addr, source, penalty);
    InsertReferenceKeepsValid(o, key, Enrolled(t, addr, source, penalty), b, t.nIdCount, victim);
  }

  lemma VictimIsKnown(t: Tables, b: nat)
    requires NewTable(t, NOBODY) && b < NEW_BUCKET_COUNT
    ensures forall x | x in t.vvNew[b] :: x in t.mapInfo && !t.mapInfo[x].fInTried
  {
    assert NewBucketOk(t.mapInfo, t.vvNew[b]);
  }

  // ------------------------------------------------------- promotion to tried

  /** After an id has been withdrawn it is counted nowhere, and its former
      buckets have room. */
  lemma WithdrawFacts(t: Tables, id: int)
    requires NewTable(t, NOBODY) && NOBODY !in t.mapInfo && id in t.mapInfo && !t.mapInfo[id].fInTried
    ensures var w := Withdraw(t, id);
      && w.mapInfo[id] == t.mapInfo[id].(nRefCount := 0)
      && (forall b | 0 <= b < NEW_BUCKET_COUNT :: id !in w.vvNew[b] && NewBucketOk(t.mapInfo, w.vvNew[b]))
      && (forall b | 0 <= b < NEW_BUCKET_COUNT && id in t.vvNew[b] :: |w.vvNew[b]| < NEW_BUCKET_SIZE)
      && forall x | x != id :: BucketsHolding(w.vvNew, x) == BucketsHolding(t.vvNew, x)
  {
    var w := Withdraw(t, id);
    assert NewEntryOk(t.vvNew, id, t.mapInfo[id], NOBODY);
    forall b | 0 <= b < NEW_BUCKET_COUNT
      ensures id !in w.vvNew[b] && NewBucketOk(t.mapInfo, w.vvNew[b])
      ensures id in t.vvNew[b] ==> |w.vvNew[b]| < NEW_BUCKET_SIZE
    {
      assert NewBucketOk(t.mapInfo, t.vvNew[b]);
      assert w.vvNew[b] == t.vvNew[b] - {id};
    }
  }

  lemma AppendTriedKeepsValid(o: Oracle, key: Bytes, t: Tables, id: int, origin: nat)
    requires Valid(o, key, t) && id in t.mapInfo && !t.mapInfo[id].fInTried && origin < NEW_BUCKET_COUNT
    requires |t.vvTried[TriedBucket(o, key, t.mapInfo[id].service)]| < TRIED_BUCKET_SIZE
    ensures Valid(o, key, MakeTried(o, key, t, id, origin, [], 0))
  {
    hide AddrIndex, RandomIndex, NewTable, TriedBucketOk, TriedEntryOk, Counters, TriedBucket, Withdraw;
    Shape(o, key, t, NOBODY);
    WithdrawFacts(t, id);
    WithdrawShape(t, id);
    var s := MakeTried(o, key, t, id, origin, [], 0);
    IndexesFrame(t, s);
    AppendCounters(t, s, id);
    AppendedBucket(o, key, t, s, id, TriedBucket(o, key, t.mapInfo[id].service));
    AppendNewTable(t, s, id);
  }

  lemma WithdrawShape(t: Tables, id: int)
    requires id in t.mapInfo
    ensures var w := Withdraw(t, id);
      && w == t.(vvNew := w.vvNew, nNew := t.nNew - 1, mapInfo := t.mapInfo[id := w.mapInfo[id]])
      && w.mapInfo[id] == t.mapInfo[id].(nRefCount := w.mapInfo[id].nRefCount) && |w.vvNew| == |t.vvNew|
  {
  }

  lemma AppendCounters(t: Tables, s: Tables, id: int)
    requires Counters(t) && id in t.mapInfo && !t.mapInfo[id].fInTried
    requires s.mapInfo == t.mapInfo[id := t.mapInfo[id].(nRefCount := 0, fInTried := true)]
    requires s.nNew == t.nNew - 1 && s.nTried == t.nTried + 1 && s.nIdCount == t.nIdCount
    ensures Counters(s)
  {
    assert Ids(s.mapInfo, false) == Ids(t.mapInfo, false) - {id};
    assert Ids(s.mapInfo, true) == Ids(t.mapInfo, true) + {id};
  }

  lemma AppendNewTable(t: Tables, s: Tables, id: int)
    requires NewTable(t, NOBODY) && NOBODY !in t.mapInfo && id in t.mapInfo && !t.mapInfo[id].fInTried
    requires s.mapInfo == t.mapInfo[id := t.mapInfo[id].(nRefCount := 0, fInTried := true)]
    requires s.vvNew == Withdraw(t, id).vvNew
    ensures NewTable(s, NOBODY)
  {
    WithdrawFacts(t, id);
    forall b | 0 <= b < NEW_BUCKET_COUNT ensures NewBucketOk(s.mapInfo, s.vvNew[b]) {
      assert NewBucketOk(t.mapInfo, Withdraw(t, id).vvNew[b]);
    }
    forall x | x in s.mapInfo && !s.mapInfo[x].fInTried ensures NewEntryOk(s.vvNew, x, s.mapInfo[x], NOBODY) {
      assert NewEntryOk(t.vvNew, x, t.mapInfo[x], NOBODY);
    }
  }

  lemma AppendedBucket(o: Oracle, key: Bytes, t: Tables, s: Tables, id: int, k: nat)
    requires TriedTable(o, key, t) && id in t.mapInfo && !t.mapInfo[id].fInTried
    requires k == TriedBucket(o, key, t.mapInfo[id].service) && |t.vvTried[k]| < TRIED_BUCKET_SIZE
    requires s.vvTried == t.vvTried[k := t.vvTried[k] + [id]]
    requires s.mapInfo == t.mapInfo[id := t.mapInfo[id].(nRefCount := 0, fInTried := true)]
    ensures TriedTable(o, key, s)
  {
    forall b | 0 <= b < TRIED_BUCKET_COUNT ensures TriedBucketOk(o, key, s.mapInfo, b, s.vvTried[b]) {
      assert TriedBucketOk(o, key, t.mapInfo, b, t.vvTried[b]);
    }
    forall x | x in s.mapInfo && s.mapInfo[x].fInTried
      ensures TriedEntryOk(o, key, s.vvTried, x, s.mapInfo[x])
    {
      if x == id { assert s.vvTried[k][|t.vvTried[k]|] == id; }
      else { assert TriedEntryOk(o, key, t.vvTried, x, t.mapInfo[x]); }
    }
  }

  lemma {:induction false} CountOfDistinct(b: seq<int>, x: int)
    requires Distinct(b)
    ensures multiset(b)[x] <= 1
  {
    if b != [] {
      var n := |b| - 1;
      assert b == b[..n] + [b[n]];
      CountOfDistinct(b[..n], x);
    }
  }

  lemma CountOfTwice(a: seq<int>, i: nat, j: nat)
    requires i < j < |a| && a[i] == a[j]
    ensures multiset(a)[a[i]] >= 2
  {
    assert a == a[..j] + a[j..];
    assert a[..j][i] == a[i] && a[j..][0] == a[i];
  }

  lemma DistinctByMultiset(a: seq<int>, b: seq<int>)
    requires multiset(a) == multiset(b) && Distinct(b)
    ensures |a| == |b| && Distinct(a) && forall x :: x in a <==> x in b
  {
    assert |multiset(a)| == |a| && |multiset(b)| == |b|;
    forall x ensures x in a <==> x in b {
      assert x in a <==> x in multiset(a);
      assert x in b <==> x in multiset(b);
    }
    forall i, j | 0 <= i < j < |a| ensures a[i] != a[j] {
      if a[i] == a[j] {
        CountOfTwice(a, i, j);
        CountOfDistinct(b, a[i]);
      }
    }
  }

  /** Replacing an entry of a full tried bucket: the evicted entry always finds
      room, in its own new bucket or else in the one the newcomer left. */
  lemma ReplaceTriedKeepsValid(o: Oracle, key: Bytes, t: Tables, id: int, origin: nat, shuffled: seq<int>, pos: nat)
    requires Valid(o, key, t) && id in t.mapInfo && !t.mapInfo[id].fInTried
    requires origin < NEW_BUCKET_COUNT && id in t.vvNew[origin]
    requires |t.vvTried[TriedBucket(o, key, t.mapInfo[id].service)]| >= TRIED_BUCKET_SIZE
    requires multiset(shuffled) == multiset(t.vvTried[TriedBucket(o, key, t.mapInfo[id].service)])
    requires pos < |shuffled| && shuffled[pos] in t.mapInfo
    ensures Valid(o, key, MakeTried(o, key, t, id, origin, shuffled, pos))
  {
    hide AddrIndex, RandomIndex, NewTable, NewBucketOk, NewEntryOk, TriedEntryOk, TriedBucket, NewBucket, Counters, Withdraw,
         BucketsHolding;
    Shape(o, key, t, NOBODY);
    WithdrawShape(t, id);
    WithdrawFacts(t, id);
    var w := Withdraw(t, id);
    var k := TriedBucket(o, key, t.mapInfo[id].service);
    var evicted := shuffled[pos];
    assert TriedBucketOk(o, key, t.mapInfo, k, t.vvTried[k]);
    DistinctByMultiset(shuffled, t.vvTried[k]);
    assert evicted in t.vvTried[k];
    var u := NewBucket(o, key, w.mapInfo[evicted].service, w.mapInfo[evicted].source);
    var home := if |w.vvNew[u]| < NEW_BUCKET_SIZE then u else origin;
    SwapKeepsValid(o, key, t, MakeTried(o, key, t, id, origin, shuffled, pos), id, shuffled, pos, home);
  }

  lemma SwapKeepsValid(o: Oracle, key: Bytes, t: Tables, s: Tables, id: int, shuffled: seq<int>, pos: nat, home: nat)
    requires Valid(o, key, t) && id in t.mapInfo && !t.mapInfo[id].fInTried && pos < |shuffled|
    requires var k := TriedBucket(o, key, t.mapInfo[id].service);
      && |shuffled| == |t.vvTried[k]| && Distinct(shuffled) && (forall x :: x in shuffled <==> x in t.vvTried[k])
      && s.vvTried == t.vvTried[k := shuffled[pos := id]]
    requires shuffled[pos] in t.mapInfo && t.mapInfo[shuffled[pos]].fInTried
    requires home < NEW_BUCKET_COUNT && |Withdraw(t, id).vvNew[home]| < NEW_BUCKET_SIZE
    requires var w := Withdraw(t, id); s.vvNew == w.vvNew[home := w.vvNew[home] + {shuffled[pos]}]
    requires s.mapInfo == t.mapInfo[shuffled[pos] := t.mapInfo[shuffled[pos]].(fInTried := false, nRefCount := 1)]
                                   [id := t.mapInfo[id].(fInTried := true, nRefCount := 0)]
    requires s.mapAddr == t.mapAddr && s.vRandom == t.vRandom && s.nIdCount == t.nIdCount
    requires s.nNew == t.nNew && s.nTried == t.nTried
    ensures Valid(o, key, s)
  {
    hide AddrIndex, RandomIndex, NewTable, TriedBucketOk, TriedEntryOk, Counters, TriedBucket, Withdraw;
    var evicted := shuffled[pos];
    Shape(o, key, t, NOBODY);
    ReturnToNew(t, Withdraw(t, id), s, id, evicted, home);
    ReplacedBucket(o, key, t, s, id, shuffled, pos);
    IndexesFrame(t, s);
    SwapCounters(t, s, id, evicted);
  }

  lemma SwapCounters(t: Tables, s: Tables, id: int, evicted: int)
    requires Counters(t) && id in t.mapInfo && !t.mapInfo[id].fInTried
    requires evicted in t.mapInfo && t.mapInfo[evicted].fInTried
    requires s.mapInfo == t.mapInfo[evicted := t.mapInfo[evicted].(fInTried := false, nRefCount := 1)]
                                   [id := t.mapInfo[id].(fInTried := true, nRefCount := 0)]
    requires s.nNew == t.nNew && s.nTried == t.nTried && s.nIdCount == t.nIdCount
    ensures Counters(s)
  {
    hide Ids;
    IdsExchange(t.mapInfo, s.mapInfo, id, evicted, false);
    IdsExchange(t.mapInfo, s.mapInfo, evicted, id, true);
  }

  lemma IdsExchange(m: map<int, AddrInfo>, m': map<int, AddrInfo>, a: int, b: int, tried: bool)
    requires m'.Keys == m.Keys && a in m && b in m
    requires m[a].fInTried == tried != m'[a].fInTried && m[b].fInTried != tried == m'[b].fInTried
    requires forall x | x in m && x != a && x != b :: m'[x].fInTried == m[x].fInTried
    ensures |Ids(m', tried)| == |Ids(m, tried)|
  {
    forall x ensures x in Ids(m', tried) <==> x in Ids(m, tried) - {a} + {b} {
    }
    assert Ids(m', tried) == Ids(m, tried) - {a} + {b};
  }

  lemma ReturnToNew(t: Tables, w: Tables, s: Tables, id: int, evicted: int, home: nat)
    requires NewTable(t, NOBODY) && NOBODY !in t.mapInfo && id in t.mapInfo && !t.mapInfo[id].fInTried
    requires w == Withdraw(t, id) && home < NEW_BUCKET_COUNT && |w.vvNew[home]| < NEW_BUCKET_SIZE
    requires evicted in t.mapInfo && t.mapInfo[evicted].fInTried
    requires s.vvNew == w.vvNew[home := w.vvNew[home] + {evicted}]
    requires s.mapInfo == t.mapInfo[evicted := t.mapInfo[evicted].(fInTried := false, nRefCount := 1)]
                                   [id := t.mapInfo[id].(fInTried := true, nRefCount := 0)]
    ensures NewTable(s, NOBODY)
  {
    hide Withdraw, BucketsHolding;
    WithdrawFacts(t, id);
    WithdrawShape(t, id);
    forall b | 0 <= b < NEW_BUCKET_COUNT ensures NewBucketOk(s.mapInfo, s.vvNew[b]) && evicted !in w.vvNew[b] {
      assert NewBucketOk(t.mapInfo, w.vvNew[b]);
    }
    NobodyHolds(w.vvNew, evicted);
    forall x | x in s.mapInfo && !s.mapInfo[x].fInTried ensures NewEntryOk(s.vvNew, x, s.mapInfo[x], NOBODY) {
      BucketsAfterInsert(w.vvNew, home, evicted, x);
      if x != evicted {
        assert NewEntryOk(t.vvNew, x, t.mapInfo[x], NOBODY);
      }
    }
  }

  lemma ReplacedBucket(o: Oracle, key: Bytes, t: Tables, s: Tables, id: int, shuffled: seq<int>, pos: nat)
    requires TriedTable(o, key, t) && id in t.mapInfo && !t.mapInfo[id].fInTried && pos < |shuffled|
    requires var k := TriedBucket(o, key, t.mapInfo[id].service);
      && s.vvTried == t.vvTried[k := shuffled[pos := id]]
      && |shuffled| == |t.vvTried[k]| && Distinct(shuffled)
      && (forall x :: x in shuffled <==> x in t.vvTried[k])
    requires shuffled[pos] in t.mapInfo
    requires s.mapInfo == t.mapInfo[shuffled[pos] := t.mapInfo[shuffled[pos]].(fInTried := false, nRefCount := 1)]
                                   [id := t.mapInfo[id].(fInTried := true, nRefCount := 0)]
    ensures TriedTable(o, key, s)
  {
    var k := TriedBucket(o, key, t.mapInfo[id].service);
    var evicted := shuffled[pos];
    var after := shuffled[pos := id];
    assert TriedBucketOk(o, key, t.mapInfo, k, t.vvTried[k]);
    assert id !in shuffled;
    assert forall x :: x in after <==> x == id || (x in shuffled && x != evicted) by {
      forall x | x in shuffled && x != evicted ensures x in after {
        var i :| 0 <= i < |shuffled| && shuffled[i] == x;
        assert after[i] == x;
      }
      assert after[pos] == id;
    }
    forall b | 0 <= b < TRIED_BUCKET_COUNT ensures TriedBucketOk(o, key, s.mapInfo, b, s.vvTried[b]) {
      assert TriedBucketOk(o, key, t.mapInfo, b, t.vvTried[b]);
    }
    forall x | x in s.mapInfo && s.mapInfo[x].fInTried
      ensures TriedEntryOk(o, key, s.vvTried, x, s.mapInfo[x])
    {
      if x != id { assert TriedEntryOk(o, key, t.vvTried, x, t.mapInfo[x]); }
    }
  }

  lemma RoomNeedsNoChoice(o: Oracle, key: Bytes, t: Tables, id: int, origin: nat, shuffled: seq<int>, pos: nat)
    requires id in t.mapInfo && |t.vvTried| == TRIED_BUCKET_COUNT && |t.vvNew| == NEW_BUCKET_COUNT
    requires origin < NEW_BUCKET_COUNT && |t.vvTried[TriedBucket(o, key, t.mapInfo[id].service)]| < TRIED_BUCKET_SIZE
    ensures MakeTried(o, key, t, id, origin, shuffled, pos) == MakeTried(o, key, t, id, origin, [], 0)
  {
  }

  lemma GoodKeepsValid(o: Oracle, key: Bytes, t: Tables, op: Op)
    requires op.Good? && Valid(o, key, t) && Legal(o, key, t, op)
    ensures Valid(o, key, ApplyGood(o, key, t, op))
  {
    hide AddrIndex, RandomIndex, NewTable, TriedBucketOk, TriedEntryOk, Counters, TriedBucket, MakeTried;
    Shape(o, key, t, NOBODY);
    var id := Known(t, op.service);
    if id in t.mapInfo {
      var info := AfterGood(t.mapInfo[id], op.time);
      StatisticsKeepValid(o, key, t, id, info);
      var s := SetInfo(t, id, info);
      if !info.fInTried {
        ShuffledMembers(o, key, t, op);
        var k := TriedBucket(o, key, s.mapInfo[id].service);
        if |s.vvTried[k]| < TRIED_BUCKET_SIZE {
          AppendTriedKeepsValid(o, key, s, id, op.origin);
          RoomNeedsNoChoice(o, key, s, id, op.origin, op.shuffled, op.pos);
        } else {
          ReplaceTriedKeepsValid(o, key, s, id, op.origin, op.shuffled, op.pos);
        }
      }
    }
  }

  // ------------------------------------------------------------- every run

  /** s differs from t in the order of vRandom, and what follows from it, only. */
  ghost predicate OnlyPositions(t: Tables, s: Tables) {
    && s == t.(mapInfo := s.mapInfo, vRandom := s.vRandom)
    && s.mapInfo.Keys == t.mapInfo.Keys
    && forall id | id in s.mapInfo :: s.mapInfo[id] == t.mapInfo[id].(nRandomPos := s.mapInfo[id].nRandomPos)
  }

  lemma SwapMovesPositions(t: Tables, p: nat, q: nat)
    requires RandomIndex(t) && p < |t.vRandom| && q < |t.vRandom|
    ensures OnlyPositions(t, SwapRandom(t, p, q))
  {
  }

  lemma OnlyPositionsTransitive(t: Tables, s: Tables, u: Tables)
    requires OnlyPositions(t, s) && OnlyPositions(s, u)
    ensures OnlyPositions(t, u)
  {
  }

  lemma {:induction false} ShuffleMovesPositions(t: Tables, picks: seq<nat>)
    requires RandomIndex(t)
    requires |picks| <= |t.vRandom| && forall i | 0 <= i < |picks| :: picks[i] < |t.vRandom|
    ensures OnlyPositions(t, Shuffle(t, picks))
    decreases |picks|
  {
    if picks != [] {
      var n := |picks| - 1;
      var s := Shuffle(t, picks[..n]);
      ShuffleMovesPositions(t, picks[..n]);
      SwapMovesPositions(s, n, picks[n]);
      OnlyPositionsTransitive(t, s, Shuffle(t, picks));
    }
  }

  lemma PositionsKeepValid(o: Oracle, key: Bytes, t: Tables, s: Tables)
    requires Valid(o, key, t) && RandomIndex(s) && OnlyPositions(t, s)
    ensures Valid(o, key, s)
  {
    TriedTableFrame(o, key, t, s);
    assert Ids(s.mapInfo, false) == Ids(t.mapInfo, false);
    assert Ids(s.mapInfo, true) == Ids(t.mapInfo, true);
    assert NewTable(s, NOBODY) by {
      forall b | 0 <= b < NEW_BUCKET_COUNT ensures NewBucketOk(s.mapInfo, s.vvNew[b]) {
        assert NewBucketOk(t.mapInfo, t.vvNew[b]);
      }
      forall x | x in s.mapInfo && !s.mapInfo[x].fInTried ensures NewEntryOk(s.vvNew, x, s.mapInfo[x], NOBODY) {
        assert NewEntryOk(t.vvNew, x, t.mapInfo[x], NOBODY);
      }
    }
  }

  lemma AttemptKeepsValid(o: Oracle, key: Bytes, t: Tables, service: Service, time: int)
    requires Valid(o, key, t)
    ensures Valid(o, key, ApplyAttempt(t, service, time))
  {
    hide Valid;
    var id := Known(t, service);
    if id in t.mapInfo {
      var info := t.mapInfo[id].(nLastTry := time, nAttempts := t.mapInfo[id].nAttempts + 1);
      StatisticsKeepValid(o, key, t, id, info);
      assert ApplyAttempt(t, service, time) == SetInfo(t, id, info);
    } else {
      assert ApplyAttempt(t, service, time) == t;
    }
  }

  lemma ConnectedKeepsValid(o: Oracle, key: Bytes, t: Tables, service: Service, time: int)
    requires Valid(o, key, t)
    ensures Valid(o, key, ApplyConnected(t, service, time))
  {
    hide Valid;
    var id := Known(t, service);
    if id in t.mapInfo && time - t.mapInfo[id].nTime > 20 * 60 {
      var info := t.mapInfo[id].(nTime := U32(time));
      StatisticsKeepValid(o, key, t, id, info);
      assert ApplyConnected(t, service, time) == SetInfo(t, id, info);
    } else {
      assert ApplyConnected(t, service, time) == t;
    }
  }

  lemma GetAddrKeepsValid(o: Oracle, key: Bytes, t: Tables, picks: seq<nat>)
    requires Valid(o, key, t) && Legal(o, key, t, GetAddr(picks))
    ensures Valid(o, key, Shuffle(t, picks))
  {
    ShuffleMovesPositions(t, picks);
    PositionsKeepValid(o, key, t, Shuffle(t, picks));
  }

  /** Whatever a call does and whatever random choices it makes, it takes
      consistent tables to consistent tables. */
  lemma ApplyKeepsValid(o: Oracle, key: Bytes, t: Tables, op: Op)
    requires Valid(o, key, t) && Legal(o, key, t, op)
    ensures Valid(o, key, Apply(o, key, t, op))
  {
    match op {
      case Add(_, _, _, _, _, _) => AddKeepsValid(o, key, t, op);
      case Good(_, _, _, _, _) => GoodKeepsValid(o, key, t, op);
      case Attempt(service, time) => AttemptKeepsValid(o, key, t, service, time);
      case Connected(service, time) => ConnectedKeepsValid(o, key, t, service, time);
      case GetAddr(picks) => GetAddrKeepsValid(o, key, t, picks);
    }
  }

  /** The clock readings under which a call leaves the stamps acceptable. */
  predicate TimeOk(t: Tables, op: Op) {
    match op
    case Good(service, time, _, _, _) => Known(t, service) in t.mapInfo ==> time > 0
    case Attempt(service, time) => Known(t, service) in t.mapInfo ==> time >= 0
    case _ => true
  }

  lemma DropReferenceKeepsStamps(t: Tables, b: nat, id: int)
    requires b < |t.vvNew| && id in t.mapInfo && RandomIndex(t) && Stamped(t)
    ensures Stamped(DropReference(t, b, id))
  {
    var u := SetInfo(t, id, t.mapInfo[id].(nRefCount := t.mapInfo[id].nRefCount - 1));
    assert Stamped(u);
    if u.mapInfo[id].nRefCount == 0 { DeleteFacts(u, id); }
  }

  lemma RecountKeepsStamps(t: Tables, id: int, n: int)
    requires id in t.mapInfo && Stamped(t) && RandomIndex(t)
    ensures var s := SetInfo(t, id, t.mapInfo[id].(nRefCount := n)); Stamped(s) && RandomIndex(s)
  {
  }

  lemma ReferenceKeepsStamps(t: Tables, b: nat, id: int, victim: int)
    requires b < |t.vvNew| && id in t.mapInfo && RandomIndex(t) && Stamped(t)
    requires id !in t.vvNew[b] && |t.vvNew[b]| == NEW_BUCKET_SIZE ==> victim in t.mapInfo
    ensures Stamped(Reference(t, b, id, victim))
  {
    hide RandomIndex, DropReference;
    if id !in t.vvNew[b] {
      var n := t.mapInfo[id].nRefCount + 1;
      RecountKeepsStamps(t, id, n);
      var s := SetInfo(t, id, t.mapInfo[id].(nRefCount := n));
      if |s.vvNew[b]| == NEW_BUCKET_SIZE { DropReferenceKeepsStamps(s, b, victim); }
    }
  }

  /** A call leaves the stamps in order exactly when its clock reading is. */
  lemma ApplyKeepsStamped(o: Oracle, key: Bytes, t: Tables, op: Op)
    requires Valid(o, key, t) && Legal(o, key, t, op) && Stamped(t)
    ensures Stamped(Apply(o, key, t, op)) <==> TimeOk(t, op)
  {
    hide AddrIndex, NewTable, TriedTable, Counters, ApplyAdd, ApplyGood, Shuffle;
    match op {
      case Add(_, _, _, _, _, _) => AddKeepsStamped(o, key, t, op);
      case Good(service, _, _, _, _) =>
        var id := Known(t, service);
        if id in t.mapInfo { GoodStamps(o, key, t, op); } else { UnknownIsIgnored(o, key, t, op); }
      case Attempt(service, time) =>
        var id := Known(t, service);
        if id in t.mapInfo { assert Apply(o, key, t, op).mapInfo[id].nLastTry == time; }
      case Connected(_, _) =>
      case GetAddr(picks) => ShuffleMovesPositions(t, picks);
    }
  }

  lemma UnknownIsIgnored(o: Oracle, key: Bytes, t: Tables, op: Op)
    requires op.Good? && Valid(o, key, t) && Legal(o, key, t, op) && Known(t, op.service) !in t.mapInfo
    ensures ApplyGood(o, key, t, op) == t
  {
  }

  lemma AddKeepsStamped(o: Oracle, key: Bytes, t: Tables, op: Op)
    requires op.Add? && Valid(o, key, t) && Legal(o, key, t, op) && Stamped(t)
    ensures Stamped(ApplyAdd(o, key, t, op))
  {
    hide AddrIndex, RandomIndex, NewTable, TriedTable, Reference, NewBucket;
    Shape(o, key, t, NOBODY);
    var id := Lookup(t, op.addr.service.ip);
    if o.routable(op.addr.service.ip) {
      if id in t.mapInfo {
        var info := Refreshed(t.mapInfo[id], op.addr, op.penalty, op.now);
        var s := SetInfo(t, id, info);
        RecountFrame(o, key, t, id, info);
        VictimIsKnown(t, NewBucket(o, key, t.mapInfo[id].service, op.source));
        if WantsReference(t, id, op) {
          ReferenceKeepsStamps(s, NewBucket(o, key, s.mapInfo[id].service, op.source), id, op.victim);
        }
      } else {
        VictimIsKnown(t, NewBucket(o, key, op.addr.service, op.source));
        EnrollMap(t, op.addr, op.source, op.penalty);
        ReferenceKeepsStamps(Enrolled(t, op.addr, op.source, op.penalty), NewBucket(o, key, op.addr.service, op.source),
                             t.nIdCount, op.victim);
      }
    }
  }

  /** A known address becomes tried, with the time of the call as its stamps;
      nobody else's stamps change, except that one entry may stop being tried. */
  lemma GoodStamps(o: Oracle, key: Bytes, t: Tables, op: Op)
    requires op.Good? && Valid(o, key, t) && Legal(o, key, t, op) && Known(t, op.service) in t.mapInfo
    ensures var s := ApplyGood(o, key, t, op); var id := Known(t, op.service);
      && s.mapInfo.Keys == t.mapInfo.Keys && s.mapInfo[id].fInTried
      && s.mapInfo[id].nLastTry == s.mapInfo[id].nLastSuccess == op.time
      && forall x | x in t.mapInfo && x != id ::
           && s.mapInfo[x].nLastTry == t.mapInfo[x].nLastTry && s.mapInfo[x].nLastSuccess == t.mapInfo[x].nLastSuccess
           && (s.mapInfo[x].fInTried ==> t.mapInfo[x].fInTried)
  {
    hide AddrIndex, RandomIndex, NewTable, TriedTable, Counters, TriedBucket, NewBucket, BucketsHolding;
    Shape(o, key, t, NOBODY);
    ShuffledMembersAll(o, key, t, op);
  }

  lemma ShuffledMembersAll(o: Oracle, key: Bytes, t: Tables, op: Op)
    requires op.Good? && Valid(o, key, t) && Legal(o, key, t, op) && Known(t, op.service) in t.mapInfo
    ensures (!t.mapInfo[Known(t, op.service)].fInTried
             && |t.vvTried[TriedBucket(o, key, op.service)]| >= TRIED_BUCKET_SIZE) ==>
              op.pos < |op.shuffled| && op.shuffled[op.pos] in t.mapInfo && t.mapInfo[op.shuffled[op.pos]].fInTried
  {
    var k := TriedBucket(o, key, op.service);
    if !t.mapInfo[Known(t, op.service)].fInTried && |t.vvTried[k]| >= TRIED_BUCKET_SIZE {
      var x := op.shuffled[op.pos];
      assert x in multiset(op.shuffled);
      assert x in t.vvTried[k];
      assert TriedBucketOk(o, key, t.mapInfo, k, t.vvTried[k]);
    }
  }

  ghost predicate LegalRun(o: Oracle, key: Bytes, t: Tables, ops: seq<Op>)
    requires Valid(o, key, t)
    decreases |ops|
  {
    ops == [] || (Legal(o, key, t, ops[0]) &&
      (ApplyKeepsValid(o, key, t, ops[0]);
       LegalRun(o, key, Apply(o, key, t, ops[0]), ops[1..])))
  }

  ghost function Run(o: Oracle, key: Bytes, t: Tables, ops: seq<Op>): Tables
    requires Valid(o, key, t) && LegalRun(o, key, t, ops)
    decreases |ops|
  {
    if ops == [] then t else
      ApplyKeepsValid(o, key, t, ops[0]);
      Run(o, key, Apply(o, key, t, ops[0]), ops[1..])
  }

  predicate Punctual(op: Op) {
    (op.Good? ==> op.time > 0) && (op.Attempt? ==> op.time >= 0)
  }

  lemma {:induction false} RunKeepsValid(o: Oracle, key: Bytes, t: Tables, ops: seq<Op>)
    requires Valid(o, key, t) && LegalRun(o, key, t, ops)
    ensures Valid(o, key, Run(o, key, t, ops))
    ensures Stamped(t) && (forall i | 0 <= i < |ops| :: Punctual(ops[i])) ==> Stamped(Run(o, key, t, ops))
    decreases |ops|
  {
    if ops != [] {
      ApplyKeepsValid(o, key, t, ops[0]);
      RunKeepsValid(o, key, Apply(o, key, t, ops[0]), ops[1..]);
      if Stamped(t) && Punctual(ops[0]) { ApplyKeepsStamped(o, key, t, ops[0]); }
    }
  }

  lemma EmptyIsValid(o: Oracle, key: Bytes)
    ensures Valid(o, key, Empty()) && Stamped(Empty())
  {
    assert Ids(Empty().mapInfo, false) == {} == Ids(Empty().mapInfo, true);
  }

  // ---------------------------------------------------------- consequences

  /** An untried entry is in some new bucket, so the search of `Good_` for a
      bucket cannot come back empty. */
  lemma SomeBucketHolds(o: Oracle, key: Bytes, t: Tables, id: int)
    requires Valid(o, key, t) && id in t.mapInfo && !t.mapInfo[id].fInTried
    ensures exists b :: 0 <= b < NEW_BUCKET_COUNT && id in t.vvNew[b]
  {
    assert NewEntryOk(t.vvNew, id, t.mapInfo[id], NOBODY);
    assert BucketsHolding(t.vvNew, id) != {};
    var b :| b in BucketsHolding(t.vvNew, id);
  }

  ghost function Union(buckets: seq<set<int>>): set<int> {
    if buckets == [] then {} else buckets[0] + Union(buckets[1..])
  }

  lemma {:induction false} UnionHolds(buckets: seq<set<int>>, b: nat, x: int)
    requires b < |buckets| && x in buckets[b]
    ensures x in Union(buckets)
  {
    if b > 0 { UnionHolds(buckets[1..], b - 1, x); }
  }

  lemma {:induction false} UnionBound(buckets: seq<set<int>>, size: nat)
    requires forall b | 0 <= b < |buckets| :: |buckets[b]| <= size
    ensures |Union(buckets)| <= size * |buckets|
  {
    if buckets != [] {
      UnionBound(buckets[1..], size);
      CardinalityUnion(buckets[0], Union(buckets[1..]));
      assert size * |buckets| == size + size * |buckets[1..]|;
    }
  }

  function Elements(s: seq<int>): (r: set<int>) { set x | x in s }

  lemma {:induction false} ElementsBound(s: seq<int>)
    ensures |Elements(s)| <= |s|
  {
    if s != [] {
      ElementsBound(s[1..]);
      assert Elements(s) == {s[0]} + Elements(s[1..]);
      CardinalityUnion({s[0]}, Elements(s[1..]));
    }
  }

  /** Only a limited number of addresses is ever kept. */
  lemma SizeIsBounded(o: Oracle, key: Bytes, t: Tables)
    requires Valid(o, key, t)
    ensures t.nNew <= NEW_BUCKET_SIZE * NEW_BUCKET_COUNT
    ensures t.nTried <= TRIED_BUCKET_SIZE * TRIED_BUCKET_COUNT
    ensures |t.vRandom| == |t.mapInfo| == t.nNew + t.nTried
  {
    forall b | 0 <= b < |t.vvNew| ensures |t.vvNew[b]| <= NEW_BUCKET_SIZE {
      assert NewBucketOk(t.mapInfo, t.vvNew[b]);
    }
    forall x | x in Ids(t.mapInfo, false) ensures x in Union(t.vvNew) {
      SomeBucketHolds(o, key, t, x);
      var b :| 0 <= b < NEW_BUCKET_COUNT && x in t.vvNew[b];
      UnionHolds(t.vvNew, b, x);
    }
    UnionBound(t.vvNew, NEW_BUCKET_SIZE);
    CardinalityMonotone(Ids(t.mapInfo, false), Union(t.vvNew));
    var tried := seq(TRIED_BUCKET_COUNT, b requires 0 <= b < TRIED_BUCKET_COUNT => Elements(t.vvTried[b]));
    forall b | 0 <= b < |tried| ensures |tried[b]| <= TRIED_BUCKET_SIZE {
      ElementsBound(t.vvTried[b]);
      assert TriedBucketOk(o, key, t.mapInfo, b, t.vvTried[b]);
    }
    forall x | x in Ids(t.mapInfo, true) ensures x in Union(tried) {
      assert TriedEntryOk(o, key, t.vvTried, x, t.mapInfo[x]);
      UnionHolds(tried, TriedBucket(o, key, t.mapInfo[x].service), x);
    }
    UnionBound(tried, TRIED_BUCKET_SIZE);
    CardinalityMonotone(Ids(t.mapInfo, true), Union(tried));
    SizesAgree(t);
  }

  lemma SizesAgree(t: Tables)
    requires RandomIndex(t) && Counters(t)
    ensures |t.vRandom| == |t.mapInfo| == t.nNew + t.nTried
  {
    assert t.mapInfo.Keys == Ids(t.mapInfo, false) + Ids(t.mapInfo, true);
    assert Elements(t.vRandom) == t.mapInfo.Keys by {
      forall id | id in t.mapInfo ensures id in t.vRandom {
        assert t.vRandom[t.mapInfo[id].nRandomPos] == id;
      }
    }
    DistinctSize(t.vRandom);
  }

  lemma DistinctConcat(a: seq<int>, b: seq<int>)
    requires Distinct(a) && Distinct(b) && forall x | x in a :: x !in b
    ensures Distinct(a + b)
  {
    forall i, j | 0 <= i < j < |a + b| ensures (a + b)[i] != (a + b)[j] {
      if i < |a| <= j { assert a[i] in a && b[j - |a|] in b; }
    }
  }

  lemma {:induction false} DistinctSize(s: seq<int>)
    requires Distinct(s)
    ensures |Elements(s)| == |s|
  {
    if s != [] {
      DistinctSize(s[1..]);
      assert Elements(s) == {s[0]} + Elements(s[1..]);
    }
  }

  /** The entries at the first n places of vRandom. */
  function First(t: Tables, n: nat): (infos: seq<AddrInfo>)
    requires n <= |t.vRandom| && forall i | 0 <= i < n :: t.vRandom[i] in t.mapInfo
  {
    seq(n, i requires 0 <= i < n => t.mapInfo[t.vRandom[i]])
  }

  lemma SwapKeepsFirst(t: Tables, p: nat, q: nat)
    requires RandomIndex(t) && p <= q < |t.vRandom|
    ensures RandomIndex(SwapRandom(t, p, q)) && First(SwapRandom(t, p, q), p) == First(t, p)
  {
    SwapRandomKeepsIndex(t, p, q);
  }

  lemma ShuffleStep(t: Tables, picks: seq<nat>, pick: nat)
    requires RandomIndex(t) && |picks| < |t.vRandom| && |picks| <= pick < |t.vRandom|
    requires forall i | 0 <= i < |picks| :: picks[i] < |t.vRandom|
    ensures var s := Shuffle(t, picks); var n := |picks|;
      && Shuffle(t, picks + [pick]) == SwapRandom(s, n, pick)
      && RandomIndex(SwapRandom(s, n, pick)) && |SwapRandom(s, n, pick).vRandom| == |t.vRandom|
      && First(SwapRandom(s, n, pick), n) == First(s, n)
      && var u := SwapRandom(s, n, pick); First(u, n + 1) == First(s, n) + [u.mapInfo[u.vRandom[n]]]
  {
    assert (picks + [pick])[..|picks|] == picks;
    SwapKeepsFirst(Shuffle(t, picks), |picks|, pick);
  }

  lemma ShuffleNothing(t: Tables)
    requires RandomIndex(t)
    ensures Shuffle(t, []) == t && First(t, 0) == []
  {
  }

  /** An answer never names the same address twice. */
  lemma AnswerIsDistinct(o: Oracle, key: Bytes, t: Tables, n: nat)
    requires Valid(o, key, t) && n <= |t.vRandom|
    ensures forall i, j | 0 <= i < j < n :: First(t, n)[i].service.ip != First(t, n)[j].service.ip
  {
    forall i, j | 0 <= i < j < n ensures First(t, n)[i].service.ip != First(t, n)[j].service.ip {
      assert t.vRandom[i] != t.vRandom[j];
    }
  }
}
