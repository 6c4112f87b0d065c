// The consistency check of the debugging build: what it accepts, and that no
// reachable state of the address manager fails it.
module AddrCheck {
  import opened AddrTables
  import opened AddrInvariant
  import opened AddrMan

  /** What the check demands of one entry. */
  ghost predicate EntryPasses(t: Tables, id: int, info: AddrInfo) {
    && (if info.fInTried then info.nLastSuccess != 0 && info.nRefCount == 0
        else 1 <= info.nRefCount <= NEW_BUCKETS_PER_ADDRESS)
    && (if info.service.ip in t.mapAddr then t.mapAddr[info.service.ip] == id else id == 0)
    && 0 <= info.nRandomPos < |t.vRandom| && t.vRandom[info.nRandomPos] == id
    && info.nLastTry >= 0 && info.nLastSuccess >= 0
  }

  function Flatten(vv: seq<seq<int>>): seq<int> {
    if vv == [] then [] else Flatten(vv[..|vv| - 1]) + vv[|vv| - 1]
  }

  ghost predicate CheckPasses(t: Tables) {
    && |t.vRandom| == t.nTried + t.nNew
    && (forall id | id in t.mapInfo :: EntryPasses(t, id, t.mapInfo[id]))
    && |Ids(t.mapInfo, true)| == t.nTried && |Ids(t.mapInfo, false)| == t.nNew
    && Distinct(Flatten(t.vvTried)) && Elements(Flatten(t.vvTried)) == Ids(t.mapInfo, true)
    && (forall b, id | 0 <= b < |t.vvNew| && id in t.vvNew[b] :: id in Ids(t.mapInfo, false))
    && (forall id | id in Ids(t.mapInfo, false) :: t.mapInfo[id].nRefCount == |BucketsHolding(t.vvNew, id)|)
  }

  // ----------------------------------------------------------- the two loops

  /** Strike the tried slots off a set of ids: every slot must still be there. */
  method StrikeTried(vvTried: seq<seq<int>>, ids: set<int>) returns (ok: bool, rest: set<int>)
    ensures ok <==> Distinct(Flatten(vvTried)) && Elements(Flatten(vvTried)) <= ids
    ensures ok ==> rest == ids - Elements(Flatten(vvTried))
  {
    rest := ids;
    var n := 0;
    while n < |vvTried|
      invariant 0 <= n <= |vvTried| && Distinct(Flatten(vvTried[..n]))
      invariant Elements(Flatten(vvTried[..n])) <= ids && rest == ids - Elements(Flatten(vvTried[..n]))
    {
      assert vvTried[..n + 1][..n] == vvTried[..n];
      ghost var before := Flatten(vvTried[..n]);
      var i := 0;
      assert before + vvTried[n][..0] == before;
      while i < |vvTried[n]|
        invariant 0 <= i <= |vvTried[n]| && Distinct(before + vvTried[n][..i])
        invariant Elements(before + vvTried[n][..i]) <= ids
        invariant rest == ids - Elements(before + vvTried[n][..i])
      {
        var x := vvTried[n][i];
        assert before + vvTried[n][..i + 1] == before + vvTried[n][..i] + [x];
        if x !in rest {
          assert vvTried[n] == vvTried[n][..i] + [x] + vvTried[n][i + 1..];
          assert before + vvTried[n][..i] + [x] <= before + vvTried[n] == Flatten(vvTried[..n + 1]);
          FlattenIsPrefix(vvTried, n + 1);
          ExtensionFails(before + vvTried[n][..i], x, ids, Flatten(vvTried));
          return false, rest;
        }
        rest := rest - {x};
        i := i + 1;
      }
      assert vvTried[n][..|vvTried[n]|] == vvTried[n];
      n := n + 1;
    }
    assert vvTried[..n] == vvTried;
    ok := true;
  }

  lemma ExtensionFails(done: seq<int>, x: int, ids: set<int>, all: seq<int>)
    requires Elements(done) <= ids && (x !in ids || x in done) && done + [x] <= all
    ensures !(Distinct(all) && Elements(all) <= ids)
  {
    assert all[|done|] == (done + [x])[|done|] == x;
    if x in done {
      var i :| 0 <= i < |done| && done[i] == x;
      assert all[i] == (done + [x])[i] == x;
    } else {
      assert x in Elements(all);
    }
  }

  lemma {:induction false} FlattenIsPrefix(vv: seq<seq<int>>, n: nat)
    requires n <= |vv|
    ensures Flatten(vv[..n]) <= Flatten(vv)
    decreases |vv|
  {
    if n < |vv| {
      FlattenIsPrefix(vv[..|vv| - 1], n);
      assert vv[..|vv| - 1][..n] == vv[..n];
    } else {
      assert vv[..n] == vv;
    }
  }

  /** Count the references in the new buckets off a table of counts. */
  method StrikeNew(vvNew: seq<set<int>>, counts: map<int, int>) returns (ok: bool, rest: map<int, int>)
    requires forall id | id in counts :: counts[id] >= 1
    ensures ok <==> forall b, id | 0 <= b < |vvNew| && id in vvNew[b] ::
                      id in counts && |BucketsHolding(vvNew, id)| <= counts[id]
    ensures ok ==> rest.Keys == set id | id in counts && |BucketsHolding(vvNew, id)| < counts[id]
  {
    rest := counts;
    var n := 0;
    while n < |vvNew|
      invariant 0 <= n <= |vvNew|
      invariant Struck(vvNew[..n], {}, counts, rest)
    {
      var todo := vvNew[n];
      BeforeBucket(vvNew, n, counts, rest);
      while todo != {}
        invariant todo <= vvNew[n]
        invariant Struck(vvNew[..n], vvNew[n] - todo, counts, rest)
      {
        var x := Least(todo);
        assert vvNew[n] - (todo - {x}) == (vvNew[n] - todo) + {x};
        if x !in rest {
          TooMany(vvNew, n, vvNew[n] - todo, counts, rest, x);
          return false, rest;
        }
        rest := if rest[x] - 1 == 0 then rest - {x} else rest[x := rest[x] - 1];
        todo := todo - {x};
      }
      AfterBucket(vvNew, n, counts, rest);
      n := n + 1;
    }
    assert vvNew[..n] == vvNew;
    ok := true;
    ghost var short := set id | id in counts && |BucketsHolding(vvNew, id)| < counts[id];
    forall id ensures id in rest <==> id in short {
      assert Seen(vvNew, {}, id) == |BucketsHolding(vvNew, id)|;
    }
    assert rest.Keys == short;
  }

  function Seen(vvNew: seq<set<int>>, partial: set<int>, id: int): nat {
    |BucketsHolding(vvNew, id)| + if id in partial then 1 else 0
  }

  /** The table of counts after the buckets vvNew and part of one more. */
  ghost predicate Struck(vvNew: seq<set<int>>, partial: set<int>, counts: map<int, int>, rest: map<int, int>) {
    && (forall b, id | 0 <= b < |vvNew| && id in vvNew[b] :: id in counts)
    && (forall id | id in partial :: id in counts)
    && (forall id | id in counts :: Seen(vvNew, partial, id) <= counts[id])
    && (forall id :: id in rest <==> id in counts && Seen(vvNew, partial, id) < counts[id])
    && (forall id | id in rest :: rest[id] == counts[id] - Seen(vvNew, partial, id))
  }

  lemma BeforeBucket(vvNew: seq<set<int>>, n: nat, counts: map<int, int>, rest: map<int, int>)
    requires n < |vvNew| && Struck(vvNew[..n], {}, counts, rest)
    ensures Struck(vvNew[..n], vvNew[n] - vvNew[n], counts, rest)
  {
    assert vvNew[n] - vvNew[n] == {};
  }

  lemma AfterBucket(vvNew: seq<set<int>>, n: nat, counts: map<int, int>, rest: map<int, int>)
    requires n < |vvNew| && Struck(vvNew[..n], vvNew[n] - {}, counts, rest)
    ensures Struck(vvNew[..n + 1], {}, counts, rest)
  {
    assert vvNew[n] - {} == vvNew[n];
    forall id ensures Seen(vvNew[..n + 1], {}, id) == Seen(vvNew[..n], vvNew[n], id) { BucketsOfPrefix(vvNew, n, id); }
    var upTo := vvNew[..n + 1];
    forall b, id | 0 <= b < |upTo| && id in upTo[b] ensures id in counts {
      if b < n { assert id in vvNew[..n][b]; }
    }
  }

  lemma TooMany(vvNew: seq<set<int>>, n: nat, partial: set<int>, counts: map<int, int>, rest: map<int, int>, x: int)
    requires n < |vvNew| && Struck(vvNew[..n], partial, counts, rest) && x in vvNew[n] && x !in partial && x !in rest
    ensures !(x in counts && |BucketsHolding(vvNew, x)| <= counts[x])
  {
    if x in counts {
      BucketsOfPrefix(vvNew, n, x);
      var more, all := BucketsHolding(vvNew[..n + 1], x), BucketsHolding(vvNew, x);
      assert all == more + (all - more);
    }
  }

  // ---------------------------------------------------------------- the check

  /** Look at every entry; collect the tried ids and the reference counts of the others. */
  method ScanEntries(am: AddrMan) returns (err: int, setTried: set<int>, mapNew: map<int, int>)
    modifies am`mapAddr
    ensures err == 0 <==> forall id | id in am.mapInfo :: EntryPasses(old(am.State()), id, am.mapInfo[id])
    ensures err == 0 ==> setTried == Ids(am.mapInfo, true) && mapNew.Keys == Ids(am.mapInfo, false)
    ensures err == 0 ==> forall id | id in mapNew :: mapNew[id] == am.mapInfo[id].nRefCount
  {
    ghost var t := am.State();
    setTried, mapNew := {}, map[];
    var todo := am.mapInfo.Keys;
    while todo != {}
      invariant todo <= am.mapInfo.Keys
      invariant setTried == set id | id in am.mapInfo && id !in todo && am.mapInfo[id].fInTried
      invariant mapNew.Keys == set id | id in am.mapInfo && id !in todo && !am.mapInfo[id].fInTried
      invariant forall id | id in mapNew :: mapNew[id] == am.mapInfo[id].nRefCount
      invariant forall id | id in am.mapInfo && id !in todo :: EntryPasses(t, id, am.mapInfo[id])
      invariant forall ip | ip in t.mapAddr :: ip in am.mapAddr && am.mapAddr[ip] == t.mapAddr[ip]
      invariant forall ip | ip in am.mapAddr && ip !in t.mapAddr :: am.mapAddr[ip] == 0
    {
      var n := Least(todo);
      err := ScanEntry(am, n, t);
      if err != 0 { return; }
      if am.mapInfo[n].fInTried { setTried := setTried + {n}; }
      else { mapNew := mapNew[n := am.mapInfo[n].nRefCount]; }
      todo := todo - {n};
    }
    err := 0;
  }

  /** Reading mapAddr at an absent address enters it there with id 0. */
  method ScanEntry(am: AddrMan, n: int, ghost t: Tables) returns (err: int)
    requires n in am.mapInfo && t.vRandom == am.vRandom
    requires forall ip | ip in t.mapAddr :: ip in am.mapAddr && am.mapAddr[ip] == t.mapAddr[ip]
    requires forall ip | ip in am.mapAddr && ip !in t.mapAddr :: am.mapAddr[ip] == 0
    modifies am`mapAddr
    ensures err == 0 <==> EntryPasses(t, n, am.mapInfo[n])
    ensures forall ip | ip in t.mapAddr :: ip in am.mapAddr && am.mapAddr[ip] == t.mapAddr[ip]
    ensures forall ip | ip in am.mapAddr && ip !in t.mapAddr :: am.mapAddr[ip] == 0
  {
    var info := am.mapInfo[n];
    if info.fInTried {
      if info.nLastSuccess == 0 { return -1; }
      if info.nRefCount != 0 { return -2; }
    } else {
      if info.nRefCount < 0 || info.nRefCount > NEW_BUCKETS_PER_ADDRESS { return -3; }
      if info.nRefCount == 0 { return -4; }
    }
    if info.service.ip !in am.mapAddr { am.mapAddr := am.mapAddr[info.service.ip := 0]; }
    if am.mapAddr[info.service.ip] != n { return -5; }
    if info.nRandomPos < 0 || info.nRandomPos >= |am.vRandom| || am.vRandom[info.nRandomPos] != n { return -14; }
    if info.nLastTry < 0 { return -6; }
    if info.nLastSuccess < 0 { return -8; }
    return 0;
  }

  /** Both walks over the buckets. */
  method CheckBuckets(vvTried: seq<seq<int>>, vvNew: seq<set<int>>, setTried: set<int>, mapNew: map<int, int>)
    returns (err: int)
    requires forall id | id in mapNew :: mapNew[id] >= 1
    ensures err == 0 <==>
      && Distinct(Flatten(vvTried)) && Elements(Flatten(vvTried)) == setTried
      && (forall b, id | 0 <= b < |vvNew| && id in vvNew[b] :: id in mapNew)
      && (forall id | id in mapNew :: mapNew[id] == |BucketsHolding(vvNew, id)|)
  {
    var ok, restTried := StrikeTried(vvTried, setTried);
    if !ok { return -11; }
    var ok', restNew := StrikeNew(vvNew, mapNew);
    if !ok' { return -12; }
    if restTried != {} { return -13; }
    NothingMissing(Elements(Flatten(vvTried)), setTried);
    if restNew.Keys != {} {
      assert (forall id :: id !in restNew.Keys) ==> restNew.Keys == {};
      ghost var id :| id in restNew.Keys;
      return -15;
    }
    NothingLeft(vvNew, mapNew, restNew);
    return 0;
  }

  method Check(am: AddrMan) returns (err: int)
    modifies am`mapAddr
    ensures err == 0 <==> CheckPasses(old(am.State()))
  {
    ghost var t := am.State();
    if |am.vRandom| != am.nTried + am.nNew { return -7; }
    var setTried, mapNew;
    err, setTried, mapNew := ScanEntries(am);
    if err != 0 { return; }
    if |setTried| != am.nTried { return -9; }
    if |mapNew.Keys| != am.nNew { return -10; }
    assert forall id | id in mapNew :: EntryPasses(t, id, t.mapInfo[id]);
    err := CheckBuckets(am.vvTried, am.vvNew, setTried, mapNew);
  }

  lemma NothingMissing(a: set<int>, b: set<int>)
    requires a <= b && b - a == {}
    ensures a == b
  {
    forall x | x in b ensures x in a { assert x !in b - a; }
  }

  lemma NothingLeft(vvNew: seq<set<int>>, counts: map<int, int>, rest: map<int, int>)
    requires forall id | id in counts :: counts[id] >= 1
    requires forall b, id | 0 <= b < |vvNew| && id in vvNew[b] :: id in counts && |BucketsHolding(vvNew, id)| <= counts[id]
    requires rest.Keys == (set id | id in counts && |BucketsHolding(vvNew, id)| < counts[id]) == {}
    ensures forall id | id in counts :: |BucketsHolding(vvNew, id)| == counts[id]
  {
    forall id | id in counts ensures |BucketsHolding(vvNew, id)| == counts[id] {
      assert id !in rest.Keys;
      var held := BucketsHolding(vvNew, id);
      if held != {} {
        assert (forall b :: b !in held) ==> held == {};
        var b :| b in held;
        assert id in vvNew[b];
      }
    }
  }

  // ------------------------------------------------- the check and the invariant

  lemma {:induction false} FlattenTried(o: Oracle, key: Bytes, t: Tables, n: nat)
    requires TriedTable(o, key, t) && n <= TRIED_BUCKET_COUNT
    ensures Distinct(Flatten(t.vvTried[..n]))
    ensures forall id :: id in Flatten(t.vvTried[..n]) <==>
              id in t.mapInfo && t.mapInfo[id].fInTried && TriedBucket(o, key, t.mapInfo[id].service) < n
  {
    if n > 0 {
      FlattenTried(o, key, t, n - 1);
      assert t.vvTried[..n][..n - 1] == t.vvTried[..n - 1];
      var last := t.vvTried[n - 1];
      assert TriedBucketOk(o, key, t.mapInfo, n - 1, last);
      forall id ensures id in last <==>
          id in t.mapInfo && t.mapInfo[id].fInTried && TriedBucket(o, key, t.mapInfo[id].service) == n - 1 {
        if id in t.mapInfo && t.mapInfo[id].fInTried { assert TriedEntryOk(o, key, t.vvTried, id, t.mapInfo[id]); }
      }
      DistinctConcat(Flatten(t.vvTried[..n - 1]), last);
    }
  }

  /** A consistent state with sound stamps passes. */
  lemma ValidPasses(o: Oracle, key: Bytes, t: Tables)
    requires Valid(o, key, t) && Stamped(t)
    ensures CheckPasses(t)
  {
    SizesAgree(t);
    FlattenTried(o, key, t, TRIED_BUCKET_COUNT);
    assert t.vvTried[..TRIED_BUCKET_COUNT] == t.vvTried;
    forall id ensures id in Elements(Flatten(t.vvTried)) <==> id in Ids(t.mapInfo, true) {
    }
    assert Elements(Flatten(t.vvTried)) == Ids(t.mapInfo, true);
    forall id | id in t.mapInfo ensures EntryPasses(t, id, t.mapInfo[id]) {
      if t.mapInfo[id].fInTried { assert TriedEntryOk(o, key, t.vvTried, id, t.mapInfo[id]); }
      else { assert NewEntryOk(t.vvNew, id, t.mapInfo[id], NOBODY); }
    }
    forall b, id | 0 <= b < |t.vvNew| && id in t.vvNew[b] ensures id in Ids(t.mapInfo, false) {
      assert NewBucketOk(t.mapInfo, t.vvNew[b]);
    }
    forall id | id in Ids(t.mapInfo, false) ensures t.mapInfo[id].nRefCount == |BucketsHolding(t.vvNew, id)| {
      assert NewEntryOk(t.vvNew, id, t.mapInfo[id], NOBODY);
    }
  }

  /** Passing is no formality: it already forces vRandom and the entries to be
      inverse to each other, though the check only ever looks at one direction. */
  lemma PassingIsConsistent(t: Tables)
    requires CheckPasses(t)
    ensures RandomIndex(t) && Stamped(t)
  {
    hide EntryPasses, CheckPasses;
    AllPass(t);
    EveryIdIsRandom(t);
    forall i | 0 <= i < |t.vRandom| ensures t.vRandom[i] in t.mapInfo && t.mapInfo[t.vRandom[i]].nRandomPos == i {
      var id := t.vRandom[i];
      assert id in Elements(t.vRandom);
      PassingEntry(t, id);
      if t.mapInfo[id].nRandomPos != i {
        RepetitionShrinks(t.vRandom, i, t.mapInfo[id].nRandomPos);
      }
    }
    forall id | id in t.mapInfo ensures
      && 0 <= t.mapInfo[id].nRandomPos < |t.vRandom| && t.vRandom[t.mapInfo[id].nRandomPos] == id
      && t.mapInfo[id].nLastTry >= 0 && t.mapInfo[id].nLastSuccess >= 0
      && (t.mapInfo[id].fInTried ==> t.mapInfo[id].nLastSuccess != 0)
    {
      PassingEntry(t, id);
    }
  }

  lemma PassingEntry(t: Tables, id: int)
    requires id in t.mapInfo && EntryPasses(t, id, t.mapInfo[id])
    ensures var info := t.mapInfo[id];
      && 0 <= info.nRandomPos < |t.vRandom| && t.vRandom[info.nRandomPos] == id
      && info.nLastTry >= 0 && info.nLastSuccess >= 0 && (info.fInTried ==> info.nLastSuccess != 0)
  {
  }

  lemma AllPass(t: Tables)
    requires CheckPasses(t)
    ensures forall id | id in t.mapInfo :: EntryPasses(t, id, t.mapInfo[id])
  {
  }

  lemma EveryIdIsRandom(t: Tables)
    requires CheckPasses(t)
    ensures Elements(t.vRandom) == t.mapInfo.Keys && |t.vRandom| == |t.mapInfo.Keys|
  {
    hide Flatten, BucketsHolding, Distinct, EntryPasses;
    var ids := t.mapInfo.Keys;
    assert ids == Ids(t.mapInfo, false) + Ids(t.mapInfo, true);
    assert |ids| == |t.vRandom|;
    forall id | id in ids ensures id in t.vRandom { PassingEntry(t, id); }
    ElementsBound(t.vRandom);
    FullSubset(ids, Elements(t.vRandom));
  }

  /** What the invariant asks for beyond the check: the number and the sizes of
      the buckets, the tried entries' own buckets, an address index with nothing
      missing and nothing left over, and ids below the counter. */
  ghost predicate Unchecked(o: Oracle, key: Bytes, t: Tables) {
    && |t.vvNew| == NEW_BUCKET_COUNT && (forall b | 0 <= b < |t.vvNew| :: |t.vvNew[b]| <= NEW_BUCKET_SIZE)
    && |t.vvTried| == TRIED_BUCKET_COUNT && (forall b | 0 <= b < |t.vvTried| :: |t.vvTried[b]| <= TRIED_BUCKET_SIZE)
    && (forall b, id | 0 <= b < |t.vvTried| && id in t.vvTried[b] && id in t.mapInfo ::
          TriedBucket(o, key, t.mapInfo[id].service) == b)
    && (forall id | id in t.mapInfo :: t.mapInfo[id].service.ip in t.mapAddr)
    && (forall ip | ip in t.mapAddr :: t.mapAddr[ip] in t.mapInfo && t.mapInfo[t.mapAddr[ip]].service.ip == ip)
    && 0 <= t.nIdCount && (forall id | id in t.mapInfo :: 0 <= id < t.nIdCount)
  }

  lemma {:induction false} InFlatten(vv: seq<seq<int>>, id: int)
    ensures id in Flatten(vv) <==> exists b | 0 <= b < |vv| :: id in vv[b]
  {
    if vv != [] {
      var n := |vv| - 1;
      InFlatten(vv[..n], id);
      if b :| 0 <= b < |vv| && id in vv[b] {
        if b < n { assert id in vv[..n][b]; }
      }
      if b :| 0 <= b < n && id in vv[..n][b] { assert id in vv[b]; }
    }
  }

  lemma {:induction false} BucketIsDistinct(vv: seq<seq<int>>, b: nat)
    requires b < |vv| && Distinct(Flatten(vv))
    ensures Distinct(vv[b])
  {
    var n := |vv| - 1;
    var front, all := Flatten(vv[..n]), Flatten(vv);
    if b == n {
      forall i, j | 0 <= i < j < |vv[b]| ensures vv[b][i] != vv[b][j] {
        assert all[|front| + i] == vv[b][i] && all[|front| + j] == vv[b][j];
      }
    } else {
      forall i, j | 0 <= i < j < |front| ensures front[i] != front[j] {
        assert all[i] == front[i] && all[j] == front[j];
      }
      BucketIsDistinct(vv[..n], b);
    }
  }

  lemma PassingNewTable(o: Oracle, key: Bytes, t: Tables)
    requires CheckPasses(t) && Unchecked(o, key, t)
    ensures NewTable(t, NOBODY)
  {
    forall b | 0 <= b < NEW_BUCKET_COUNT ensures NewBucketOk(t.mapInfo, t.vvNew[b]) {
      forall id | id in t.vvNew[b] ensures id in Ids(t.mapInfo, false) {
      }
    }
    forall id | id in t.mapInfo && !t.mapInfo[id].fInTried ensures NewEntryOk(t.vvNew, id, t.mapInfo[id], NOBODY) {
      assert EntryPasses(t, id, t.mapInfo[id]);
      assert id in Ids(t.mapInfo, false);
    }
  }

  lemma PassingTriedTable(o: Oracle, key: Bytes, t: Tables)
    requires CheckPasses(t) && Unchecked(o, key, t)
    ensures TriedTable(o, key, t)
  {
    hide TriedBucket, Flatten;
    forall b | 0 <= b < TRIED_BUCKET_COUNT ensures TriedBucketOk(o, key, t.mapInfo, b, t.vvTried[b]) {
      BucketIsDistinct(t.vvTried, b);
      forall id | id in t.vvTried[b] ensures id in Ids(t.mapInfo, true) {
        InFlatten(t.vvTried, id);
        assert id in Elements(Flatten(t.vvTried));
      }
    }
    forall id | id in t.mapInfo && t.mapInfo[id].fInTried ensures TriedEntryOk(o, key, t.vvTried, id, t.mapInfo[id]) {
      assert EntryPasses(t, id, t.mapInfo[id]);
      assert id in Elements(Flatten(t.vvTried));
      InFlatten(t.vvTried, id);
    }
  }

  /** The invariant with its stamps is the check and what the check never looks at. */
  lemma CheckAndRest(o: Oracle, key: Bytes, t: Tables)
    ensures Valid(o, key, t) && Stamped(t) <==> CheckPasses(t) && Unchecked(o, key, t)
  {
    if CheckPasses(t) && Unchecked(o, key, t) {
      PassingIsConsistent(t);
      PassingNewTable(o, key, t);
      PassingTriedTable(o, key, t);
      PassingAddresses(o, key, t);
    }
    if Valid(o, key, t) && Stamped(t) {
      ValidPasses(o, key, t);
      ValidRest(o, key, t);
    }
  }

  lemma PassingAddresses(o: Oracle, key: Bytes, t: Tables)
    requires CheckPasses(t) && Unchecked(o, key, t)
    ensures AddrIndex(t) && Counters(t)
  {
    forall id | id in t.mapInfo ensures
      t.mapInfo[id].service.ip in t.mapAddr && t.mapAddr[t.mapInfo[id].service.ip] == id
    {
      assert EntryPasses(t, id, t.mapInfo[id]);
    }
  }

  lemma ValidRest(o: Oracle, key: Bytes, t: Tables)
    requires Valid(o, key, t)
    ensures Unchecked(o, key, t)
  {
    hide TriedBucket, RandomIndex;
    forall b | 0 <= b < |t.vvNew| ensures |t.vvNew[b]| <= NEW_BUCKET_SIZE { assert NewBucketOk(t.mapInfo, t.vvNew[b]); }
    forall b | 0 <= b < |t.vvTried| ensures |t.vvTried[b]| <= TRIED_BUCKET_SIZE {
      assert TriedBucketOk(o, key, t.mapInfo, b, t.vvTried[b]);
    }
    forall b, id | 0 <= b < |t.vvTried| && id in t.vvTried[b] && id in t.mapInfo
      ensures TriedBucket(o, key, t.mapInfo[id].service) == b
    {
      assert TriedBucketOk(o, key, t.mapInfo, b, t.vvTried[b]);
    }
  }

  lemma FullSubset(a: set<int>, b: set<int>)
    requires a <= b && |b| <= |a|
    ensures a == b
  {
    assert b == a + (b - a);
    assert |b - a| == 0;
  }

  lemma RepetitionShrinks(s: seq<int>, i: nat, j: nat)
    requires i < |s| && j < |s| && i != j && s[i] == s[j]
    ensures |Elements(s)| < |s|
  {
    var shorter := s[..i] + s[i + 1..];
    assert Elements(shorter) == Elements(s) by {
      forall x | x in s ensures x in shorter {
        var k :| 0 <= k < |s| && s[k] == x;
        var k' := if k == i then j else k;
        assert shorter[if k' < i then k' else k' - 1] == x;
      }
    }
    ElementsBound(shorter);
  }
}
