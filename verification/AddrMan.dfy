// The address manager itself: an object that updates its tables in place.
module AddrMan {
  import opened AddrTables
  import opened AddrInvariant
  import opened TriedChoice

  /** Some number below n, or 0 when there is none. */
  method GetRandInt(n: nat) returns (r: nat)
    ensures n > 0 ==> r < n
    ensures n == 0 ==> r == 0
  {
    if n == 0 { return 0; }
    r :| r < n;
  }

  predicate IsLeast(s: set<int>, x: int) {
    x in s && forall y | y in s :: x <= y
  }

  lemma {:induction false} LeastExists(s: set<int>)
    requires s != {}
    ensures exists x :: IsLeast(s, x)
  {
    assert (forall z :: z !in s) ==> s == {};
    var z :| z in s;
    var rest := s - {z};
    if rest == {} {
      assert forall y | y in s :: y == z || y in rest;
      assert IsLeast(s, z);
    } else {
      LeastExists(rest);
      var x :| IsLeast(rest, x);
      assert forall y | y in s :: y == z || y in rest;
      assert IsLeast(s, if z < x then z else x);
    }
  }

  /** First element of a set in the order std::set keeps it. */
  function Least(s: set<int>): (x: int)
    requires s != {}
    ensures IsLeast(s, x)
  {
    LeastExists(s);
    var x :| IsLeast(s, x);
    x
  }

  /** victim is the oldest of at most four members of the bucket. */
  ghost predicate OldestOfSample(m: map<int, AddrInfo>, bucket: set<int>, sample: set<int>, victim: int) {
    && victim in sample && sample <= bucket && |sample| <= 4
    && forall y | y in sample :: y in m && victim in m && m[victim].nTime <= m[y].nTime
  }

  /** How a bucket's victim is chosen: the first terrible member if there is
      one (code 0), otherwise the oldest of a small sample (code 1). */
  ghost predicate GoodVictim(m: map<int, AddrInfo>, bucket: set<int>, now: int, victim: int, r: int) {
    && victim in bucket && victim in m && (forall y | y in bucket :: y in m)
    && if r == 0
       then IsTerrible(m[victim], now) && forall y | y in bucket && IsTerrible(m[y], now) :: victim <= y
       else r == 1 && (forall y | y in bucket :: !IsTerrible(m[y], now))
            && exists sample :: OldestOfSample(m, bucket, sample, victim)
  }

  function Passed(nI: int, n: int): int { if n < nI then 1 else 0 }

  class AddrMan {
    const oracle: Oracle
    var nKey: Bytes
    var nIdCount: int
    var mapInfo: map<int, AddrInfo>
    var mapAddr: map<NetAddr, int>
    var vRandom: seq<int>
    var nTried: int
    var vvTried: seq<seq<int>>
    var nNew: int
    var vvNew: seq<set<int>>

    function State(): Tables
      reads this
    {
      Tables(nIdCount, mapInfo, mapAddr, vRandom, nTried, vvTried, nNew, vvNew)
    }

    ghost predicate Ok()
      reads this
    {
      Valid(oracle, nKey, State())
    }

    constructor (oracle: Oracle, nKey: Bytes)
      ensures this.oracle == oracle && this.nKey == nKey
      ensures State() == Empty() && Ok() && Stamped(State())
    {
      this.oracle, this.nKey := oracle, nKey;
      nIdCount, mapInfo, mapAddr, vRandom := 0, map[], map[], [];
      nTried, vvTried := 0, seq(TRIED_BUCKET_COUNT, _ => []);
      nNew, vvNew := 0, seq(NEW_BUCKET_COUNT, _ => {});
      new;
      EmptyIsValid(oracle, nKey);
      assert State() == Empty();
    }

    method Find(ip: NetAddr) returns (nId: int)
      ensures nId == Lookup(State(), ip)
    {
      if ip !in mapAddr { return NOBODY; }
      if mapAddr[ip] in mapInfo { return mapAddr[ip]; }
      return NOBODY;
    }

    method CreateEntry(addr: Address, source: NetAddr) returns (nId: int)
      modifies this`nIdCount, this`mapInfo, this`mapAddr, this`vRandom
      ensures nId == old(nIdCount) && State() == Create(old(State()), addr, source)
    {
      nId := nIdCount;
      nIdCount := nIdCount + 1;
      mapInfo := mapInfo[nId := AddrInfo(addr.service, addr.nServices, addr.nTime, source, 0, 0, 0, 0, false, -1)];
      mapAddr := mapAddr[addr.service.ip := nId];
      mapInfo := mapInfo[nId := mapInfo[nId].(nRandomPos := |vRandom|)];
      vRandom := vRandom + [nId];
    }

    method Swap(nRndPos1: nat, nRndPos2: nat)
      requires nRndPos1 < |vRandom| && nRndPos2 < |vRandom|
      requires vRandom[nRndPos1] in mapInfo && vRandom[nRndPos2] in mapInfo
      modifies this`mapInfo, this`vRandom
      ensures State() == SwapRandom(old(State()), nRndPos1, nRndPos2)
    {
      if nRndPos1 == nRndPos2 { return; }
      var nId1, nId2 := vRandom[nRndPos1], vRandom[nRndPos2];
      mapInfo := mapInfo[nId1 := mapInfo[nId1].(nRandomPos := nRndPos2)];
      mapInfo := mapInfo[nId2 := mapInfo[nId2].(nRandomPos := nRndPos1)];
      vRandom := vRandom[nRndPos1 := nId2];
      vRandom := vRandom[nRndPos2 := nId1];
    }

    /** Shuffle the first few places of a tried bucket and name one of its positions. */
    method SelectTried(nKBucket: nat) returns (nOldestPos: int, ghost positions: seq<nat>)
      requires nKBucket < |vvTried|
      requires forall id | id in vvTried[nKBucket] :: id in mapInfo && id >= 0
      modifies this`vvTried
      ensures |vvTried| == old(|vvTried|) && vvTried == old(vvTried)[nKBucket := vvTried[nKBucket]]
      ensures LegalDraws(old(vvTried[nKBucket]), positions) && |positions| == Inspected(old(vvTried[nKBucket]))
      ensures vvTried[nKBucket] == Drawn(old(vvTried[nKBucket]), positions)
      ensures nOldestPos == Answer(mapInfo, old(vvTried[nKBucket]), positions)
    {
      hide Drawn, OldestRound;
      var nOldest := -1;
      nOldestPos, positions := -1, [];
      var i := 0;
      ghost var bucket := vvTried[nKBucket];
      NothingDrawn(bucket);
      while i < TRIED_ENTRIES_INSPECT_ON_EVICT && i < |vvTried[nKBucket]|
        invariant |vvTried| == old(|vvTried|) && vvTried == old(vvTried)[nKBucket := vvTried[nKBucket]]
        invariant LegalDraws(bucket, positions) && 0 <= i == |positions| <= Inspected(bucket)
        invariant vvTried[nKBucket] == Drawn(bucket, positions)
        invariant nOldest == -1 <==> i == 0
        invariant nOldestPos == Answer(mapInfo, bucket, positions)
        invariant i > 0 ==> nOldest in mapInfo && nOldest == vvTried[nKBucket][OldestRound(mapInfo, vvTried[nKBucket], i)]
      {
        var r := GetRandInt(|vvTried[nKBucket]| - i);
        var nPos := r + i;
        var nTemp := vvTried[nKBucket][nPos];
        DrawnMember(bucket, positions, nPos);
        OneMoreDraw(mapInfo, bucket, positions, nPos);
        positions := positions + [nPos];
        vvTried := vvTried[nKBucket := vvTried[nKBucket][nPos := vvTried[nKBucket][i]]];
        vvTried := vvTried[nKBucket := vvTried[nKBucket][i := nTemp]];
        if nOldest == -1 || mapInfo[nTemp].nLastSuccess < mapInfo[nOldest].nLastSuccess {
          nOldest := nTemp;
          nOldestPos := nPos;
        }
        i := i + 1;
      }
    }

    /** Release one reference of a bucket's member; this is where entries are deleted. */
    method Release(nUBucket: nat, nId: int)
      requires nUBucket < |vvNew| && nId in mapInfo && RandomIndex(State())
      modifies this`mapInfo, this`mapAddr, this`vRandom, this`nNew, this`vvNew
      ensures State() == DropReference(old(State()), nUBucket, nId)
    {
      hide RandomIndex, SwapRandom;
      ghost var info := mapInfo[nId].(nRefCount := mapInfo[nId].nRefCount - 1);
      ghost var u := SetInfo(State(), nId, info);
      RecountPlaces(State(), nId, info);
      mapInfo := mapInfo[nId := mapInfo[nId].(nRefCount := mapInfo[nId].nRefCount - 1)];
      assert State() == u;
      if mapInfo[nId].nRefCount == 0 {
        Swap(mapInfo[nId].nRandomPos, |vRandom| - 1);
        assert State() == SwapRandom(u, info.nRandomPos, |u.vRandom| - 1);
        vRandom := vRandom[..|vRandom| - 1];
        mapAddr := mapAddr - {mapInfo[nId].service.ip};
        mapInfo := mapInfo - {nId};
        nNew := nNew - 1;
        assert State() == Delete(u, nId);
      }
      vvNew := vvNew[nUBucket := vvNew[nUBucket] - {nId}];
    }

    method ShrinkNew(nUBucket: nat, now: int) returns (r: int, ghost victim: int)
      requires nUBucket < |vvNew| && vvNew[nUBucket] != {} && RandomIndex(State())
      requires forall id | id in vvNew[nUBucket] :: id in mapInfo && id >= 0
      modifies this`mapInfo, this`mapAddr, this`vRandom, this`nNew, this`vvNew
      ensures GoodVictim(old(mapInfo), old(vvNew[nUBucket]), now, victim, r)
      ensures State() == DropReference(old(State()), nUBucket, victim)
    {
      var vNew := vvNew[nUBucket];
      var rest := vNew;
      while rest != {}
        invariant rest <= vNew && State() == old(State())
        invariant forall y | y in vNew && y !in rest :: !IsTerrible(mapInfo[y], now)
        invariant forall y | y in vNew && y !in rest :: forall z | z in rest :: y < z
      {
        var it := Least(rest);
        if IsTerrible(mapInfo[it], now) {
          Release(nUBucket, it);
          return 0, it;
        }
        rest := rest - {it};
      }
      var nOldest;
      ghost var sample;
      nOldest, sample := PickOldest(vNew);
      Release(nUBucket, nOldest);
      return 1, nOldest;
    }

    /** The oldest among the members at four random ranks. */
    method PickOldest(vNew: set<int>) returns (nOldest: int, ghost sample: set<int>)
      requires vNew != {} && forall id | id in vNew :: id in mapInfo && id >= 0
      ensures OldestOfSample(mapInfo, vNew, sample, nOldest)
    {
      var n0 := GetRandInt(|vNew|);
      var n1 := GetRandInt(|vNew|);
      var n2 := GetRandInt(|vNew|);
      var n3 := GetRandInt(|vNew|);
      var nI := 0;
      nOldest := -1;
      sample := {};
      var rest := vNew;
      while rest != {}
        invariant rest <= vNew && nI == |vNew| - |rest| && sample <= vNew && sample !! rest
        invariant |sample| <= Passed(nI, n0) + Passed(nI, n1) + Passed(nI, n2) + Passed(nI, n3)
        invariant n0 < nI ==> sample != {}
        invariant nOldest == -1 <==> sample == {}
        invariant sample != {} ==>
          nOldest in sample && forall y | y in sample :: mapInfo[nOldest].nTime <= mapInfo[y].nTime
      {
        var it := Least(rest);
        if nI == n0 || nI == n1 || nI == n2 || nI == n3 {
          if nOldest == -1 || mapInfo[it].nTime < mapInfo[nOldest].nTime { nOldest := it; }
          sample := sample + {it};
        }
        nI := nI + 1;
        rest := rest - {it};
      }
    }

    /** Take an id out of every new bucket, counting its references down. */
    method WithdrawEntry(nId: int)
      requires nId in mapInfo && |vvNew| == NEW_BUCKET_COUNT
      modifies this`mapInfo, this`vvNew, this`nNew
      ensures State() == Withdraw(old(State()), nId)
    {
      ghost var vvNew0, mapInfo0 := vvNew, mapInfo;
      var j := 0;
      while j < |vvNew|
        invariant 0 <= j <= |vvNew| == NEW_BUCKET_COUNT
        invariant forall b | 0 <= b < j :: vvNew[b] == vvNew0[b] - {nId}
        invariant forall b | j <= b < NEW_BUCKET_COUNT :: vvNew[b] == vvNew0[b]
        invariant nNew == old(nNew) && mapInfo == mapInfo0[nId := mapInfo0[nId].(nRefCount :=
                               mapInfo0[nId].nRefCount - |BucketsHolding(vvNew0[..j], nId)|)]
      {
        BucketsOfPrefix(vvNew0, j, nId);
        if nId in vvNew[j] {
          vvNew := vvNew[j := vvNew[j] - {nId}];
          mapInfo := mapInfo[nId := mapInfo[nId].(nRefCount := mapInfo[nId].nRefCount - 1)];
        }
        j := j + 1;
      }
      assert vvNew0[..NEW_BUCKET_COUNT] == vvNew0;
      nNew := nNew - 1;
    }

    method MakeTriedEntry(nId: int, nOrigin: nat) returns (ghost shuffled: seq<int>, ghost pos: nat)
      requires |vvNew| == NEW_BUCKET_COUNT && |vvTried| == TRIED_BUCKET_COUNT
      requires nOrigin < NEW_BUCKET_COUNT && nId in vvNew[nOrigin]
      requires nId in mapInfo && nId != NOBODY && NewEntryOk(vvNew, nId, mapInfo[nId], NOBODY)
      requires forall id | id in vvTried[TriedBucket(oracle, nKey, mapInfo[nId].service)] :: id in mapInfo && id >= 0
      modifies this`mapInfo, this`vvNew, this`vvTried, this`nNew, this`nTried
      ensures var k := TriedBucket(oracle, nKey, old(mapInfo[nId].service));
        old(|vvTried[k]|) >= TRIED_BUCKET_SIZE ==>
          && multiset(shuffled) == multiset(old(vvTried[k])) && pos < |shuffled|
          && shuffled[pos] in old(mapInfo)
      ensures State() == MakeTried(oracle, nKey, old(State()), nId, nOrigin, shuffled, pos)
    {
      hide NewEntryOk, BucketsHolding, Withdraw, LegalDraws, Drawn, Answer, NewBucket, TriedBucket, MakeTried;
      ghost var vvTried0, t0 := vvTried, State();
      WithdrawShape(t0, nId);
      WithdrawEntry(nId);
      assert State() == Withdraw(t0, nId);
      shuffled, pos := [], 0;
      var nKBucket := TriedBucket(oracle, nKey, mapInfo[nId].service);
      if |vvTried[nKBucket]| < TRIED_BUCKET_SIZE {
        vvTried := vvTried[nKBucket := vvTried[nKBucket] + [nId]];
        nTried := nTried + 1;
        mapInfo := mapInfo[nId := mapInfo[nId].(fInTried := true)];
        Appended(oracle, nKey, t0, State(), nId, nOrigin, shuffled, pos);
      } else {
        var nPos;
        ghost var positions;
        nPos, positions := SelectTried(nKBucket);
        AnswerIsMember(mapInfo, vvTried0[nKBucket], positions);
        shuffled, pos := vvTried[nKBucket], nPos;
        ReplaceTried(nId, nOrigin, nKBucket, nPos);
        assert vvTried == vvTried0[nKBucket := shuffled[pos := nId]];
        Replaced(oracle, nKey, t0, State(), nId, nOrigin, shuffled, pos);
      }
    }

    /** Put nId in place of the entry at nPos of a full tried bucket, and that
        entry back into a new bucket. */
    method ReplaceTried(nId: int, nOrigin: nat, nKBucket: nat, nPos: nat)
      requires nKBucket < |vvTried| && nPos < |vvTried[nKBucket]| && vvTried[nKBucket][nPos] in mapInfo
      requires nId in mapInfo && |vvNew| == NEW_BUCKET_COUNT && nOrigin < NEW_BUCKET_COUNT
      modifies this`mapInfo, this`vvNew, this`vvTried, this`nNew
      ensures var evicted := old(vvTried[nKBucket][nPos]);
        var u := NewBucket(oracle, nKey, old(mapInfo[evicted].service), old(mapInfo[evicted].source));
        var home := if old(|vvNew[u]|) < NEW_BUCKET_SIZE then u else nOrigin;
        var m := old(mapInfo)[evicted := old(mapInfo)[evicted].(fInTried := false, nRefCount := 1)];
        && vvTried == old(vvTried)[nKBucket := old(vvTried[nKBucket])[nPos := nId]]
        && vvNew == old(vvNew)[home := old(vvNew[home]) + {evicted}]
        && nNew == old(nNew) + 1
        && mapInfo == m[nId := m[nId].(fInTried := true)]
    {
      var nUBucket := NewBucket(oracle, nKey, mapInfo[vvTried[nKBucket][nPos]].service,
                                mapInfo[vvTried[nKBucket][nPos]].source);
      var infoOld := vvTried[nKBucket][nPos];
      mapInfo := mapInfo[infoOld := mapInfo[infoOld].(fInTried := false)];
      mapInfo := mapInfo[infoOld := mapInfo[infoOld].(nRefCount := 1)];
      if |vvNew[nUBucket]| < NEW_BUCKET_SIZE {
        vvNew := vvNew[nUBucket := vvNew[nUBucket] + {vvTried[nKBucket][nPos]}];
      } else {
        vvNew := vvNew[nOrigin := vvNew[nOrigin] + {vvTried[nKBucket][nPos]}];
      }
      nNew := nNew + 1;
      vvTried := vvTried[nKBucket := vvTried[nKBucket][nPos := nId]];
      mapInfo := mapInfo[nId := mapInfo[nId].(fInTried := true)];
    }

    /** Some new bucket holding nId, searched for from a random start; -1 if there is none. */
    method FindNewBucket(nId: int) returns (nUBucket: int)
      requires |vvNew| == NEW_BUCKET_COUNT
      ensures nUBucket == -1 <==> forall b | 0 <= b < NEW_BUCKET_COUNT :: nId !in vvNew[b]
      ensures nUBucket != -1 ==> 0 <= nUBucket < NEW_BUCKET_COUNT && nId in vvNew[nUBucket]
    {
      var nRnd := GetRandInt(|vvNew|);
      var n := 0;
      while n < |vvNew|
        invariant 0 <= n <= |vvNew|
        invariant forall k | 0 <= k < n :: nId !in vvNew[Wrapped(nRnd, k)]
      {
        var nB := (n + nRnd) % |vvNew|;
        if nId in vvNew[nB] { return nB; }
        assert nB == Wrapped(nRnd, n);
        n := n + 1;
      }
      forall b | 0 <= b < NEW_BUCKET_COUNT ensures nId !in vvNew[b] { CyclicSearch(nRnd, b); }
      return -1;
    }

    /** Mark an address good.  The search for a bucket holding it never fails. */
    method Good_(addr: Service, nTime: int) returns (ghost op: Op)
      requires Ok()
      modifies this`mapInfo, this`vvNew, this`vvTried, this`nNew, this`nTried
      ensures op.Good? && op.service == addr && op.time == nTime
      ensures Valid(oracle, nKey, old(State())) && Legal(oracle, nKey, old(State()), op)
      ensures State() == Apply(oracle, nKey, old(State()), op) && Ok()
    {
      hide Consistent, MakeTried, Legal;
      op := Good(addr, nTime, 0, [], 0);
      ghost var t0 := State();
      var nId := Find(addr.ip);
      if nId == NOBODY || mapInfo[nId].service != addr {
        GoodStranger(oracle, nKey, t0, op);
        return;
      }
      mapInfo := mapInfo[nId := mapInfo[nId].(nLastSuccess := nTime)];
      mapInfo := mapInfo[nId := mapInfo[nId].(nLastTry := nTime)];
      mapInfo := mapInfo[nId := mapInfo[nId].(nTime := U32(nTime))];
      mapInfo := mapInfo[nId := mapInfo[nId].(nAttempts := 0)];
      ghost var t1 := State();
      assert t1 == SetInfo(t0, nId, AfterGood(t0.mapInfo[nId], nTime));
      if mapInfo[nId].fInTried {
        GoodAgain(oracle, nKey, t0, op);
        return;
      }
      GoodPrecondition(oracle, nKey, t0, t1, nId, nTime);
      var nUBucket := FindNewBucket(nId);
      if nUBucket == -1 {
        assert false;
      }
      ghost var shuffled, pos := MakeTriedEntry(nId, nUBucket);
      op := Good(addr, nTime, nUBucket, shuffled, pos);
      GoodMoves(oracle, nKey, t0, op);
    }

    method Add_(addr: Address, source: NetAddr, nTimePenalty: int, now: int) returns (fNew: bool, ghost op: Op)
      requires Ok()
      modifies this`nIdCount, this`mapInfo, this`mapAddr, this`vRandom, this`nNew, this`vvNew
      ensures op.Add? && op.addr == addr && op.source == source && op.penalty == nTimePenalty && op.now == now
      ensures Valid(oracle, nKey, old(State())) && Legal(oracle, nKey, old(State()), op)
      ensures State() == Apply(oracle, nKey, old(State()), op) && Ok()
      ensures fNew <==> oracle.routable(addr.service.ip) && addr.service.ip !in old(mapAddr)
    {
      hide Consistent, Reference, Legal, Apply, RandomIndex, AddrIndex;
      ValidParts(oracle, nKey, State());
      ghost var t0 := State();
      op := Add(addr, source, nTimePenalty, now, 0, 0);
      if !oracle.routable(addr.service.ip) {
        AddIgnored(oracle, nKey, t0, op);
        return false, op;
      }
      var nId, goOn;
      ghost var coin;
      nId, goOn, fNew, coin := Announce(addr, source, nTimePenalty, now);
      op := op.(coin := coin);
      if !goOn {
        AddStops(oracle, nKey, t0, op);
        return;
      }
      ghost var s := State();
      AddPrecondition(oracle, nKey, t0, s, nId, source);
      ghost var victim := ReferenceEntry(nId, source, now);
      op := op.(victim := victim);
      AddReferences(oracle, nKey, t0, s, nId, op);
    }

    /** Find or create the entry an announcement is about, and decide whether
        it should be referenced once more. */
    method Announce(addr: Address, source: NetAddr, nTimePenalty: int, now: int)
      returns (nId: int, goOn: bool, fNew: bool, ghost coin: nat)
      requires AddrIndex(State()) && RandomIndex(State()) && Counters(State())
      modifies this`nIdCount, this`mapInfo, this`mapAddr, this`vRandom, this`nNew
      ensures fNew <==> addr.service.ip !in old(mapAddr)
      ensures var id := Lookup(old(State()), addr.service.ip);
        if fNew then
          && id == NOBODY && nId == old(nIdCount) && goOn
          && State() == Enrolled(old(State()), addr, source, nTimePenalty)
        else
          && nId == id && id in old(mapInfo)
          && State() == SetInfo(old(State()), id, Refreshed(old(mapInfo[id]), addr, nTimePenalty, now))
          && coin < Odds(mapInfo[nId].nRefCount) && (goOn <==> Admissible(mapInfo[nId], addr) && coin == 0)
    {
      fNew, coin := false, 0;
      nId := Find(addr.service.ip);
      if nId != NOBODY {
        Refresh(nId, addr, nTimePenalty, now);
        goOn, coin := Admit(nId, addr);
      } else {
        nId := CreateEntry(addr, source);
        mapInfo := mapInfo[nId := mapInfo[nId].(nTime := U32(Max(0, mapInfo[nId].nTime - nTimePenalty)))];
        nNew := nNew + 1;
        fNew, goOn := true, true;
      }
    }

    /** Note a repeated announcement of a known address. */
    method Refresh(nId: int, addr: Address, nTimePenalty: int, now: int)
      requires nId in mapInfo
      modifies this`mapInfo
      ensures State() == SetInfo(old(State()), nId, Refreshed(old(mapInfo[nId]), addr, nTimePenalty, now))
    {
      var fCurrentlyOnline := now - addr.nTime < 24 * 60 * 60;
      var nUpdateInterval := if fCurrentlyOnline then 60 * 60 else 24 * 60 * 60;
      if addr.nTime != 0 &&
         (mapInfo[nId].nTime == 0 || mapInfo[nId].nTime < addr.nTime - nUpdateInterval - nTimePenalty) {
        mapInfo := mapInfo[nId := mapInfo[nId].(nTime := U32(Max(0, addr.nTime - nTimePenalty)))];
      }
      mapInfo := mapInfo[nId := mapInfo[nId].(nServices := mapInfo[nId].nServices + addr.nServices)];
    }

    /** Whether an announcement should add a reference; ever less likely with more references. */
    method Admit(nId: int, addr: Address) returns (goOn: bool, ghost coin: nat)
      requires nId in mapInfo
      ensures coin < Odds(mapInfo[nId].nRefCount)
      ensures goOn <==> Admissible(mapInfo[nId], addr) && coin == 0
    {
      coin := 0;
      if addr.nTime == 0 || (mapInfo[nId].nTime != 0 && addr.nTime <= mapInfo[nId].nTime) { return false, 0; }
      if mapInfo[nId].fInTried { return false, 0; }
      if mapInfo[nId].nRefCount == NEW_BUCKETS_PER_ADDRESS { return false, 0; }
      var nFactor := 1;
      var n := 0;
      while n < mapInfo[nId].nRefCount
        invariant nFactor == Odds(n) && 0 <= n && (n <= mapInfo[nId].nRefCount || n == 0)
      {
        nFactor := nFactor * 2;
        n := n + 1;
      }
      if nFactor > 1 {
        var drawn := GetRandInt(nFactor);
        coin := drawn;
        if drawn != 0 { return false, coin; }
      }
      goOn := true;
    }

    /** Put nId in the bucket the source of the announcement selects, shrinking it when full. */
    method ReferenceEntry(nId: int, source: NetAddr, now: int) returns (ghost victim: int)
      requires nId in mapInfo && RandomIndex(State()) && |vvNew| == NEW_BUCKET_COUNT
      requires forall id | id in vvNew[NewBucket(oracle, nKey, mapInfo[nId].service, source)] :: id in mapInfo && id >= 0
      modifies this`mapInfo, this`mapAddr, this`vRandom, this`nNew, this`vvNew
      ensures var b := NewBucket(oracle, nKey, old(mapInfo[nId].service), source);
        && (nId !in old(vvNew[b]) && |old(vvNew[b])| == NEW_BUCKET_SIZE ==>
              victim in old(vvNew[b]) && victim in old(mapInfo))
        && State() == Reference(old(State()), b, nId, victim)
    {
      var nUBucket := NewBucket(oracle, nKey, mapInfo[nId].service, source);
      victim := 0;
      if nId !in vvNew[nUBucket] {
        ghost var t0 := State();
        mapInfo := mapInfo[nId := mapInfo[nId].(nRefCount := mapInfo[nId].nRefCount + 1)];
        ghost var t1 := State();
        assert t1 == SetInfo(t0, nId, t0.mapInfo[nId].(nRefCount := t0.mapInfo[nId].nRefCount + 1));
        assert RandomIndex(t1);
        if |vvNew[nUBucket]| == NEW_BUCKET_SIZE {
          var r;
          r, victim := ShrinkNew(nUBucket, now);
        }
        vvNew := vvNew[nUBucket := vvNew[nUBucket] + {nId}];
        assert State() == InsertReference(t0, nUBucket, nId, victim);
      }
    }

    method Attempt_(addr: Service, nTime: int)
      requires Ok()
      modifies this`mapInfo
      ensures State() == ApplyAttempt(old(State()), addr, nTime) && Ok()
    {
      hide Consistent;
      Shape(oracle, nKey, State(), NOBODY);
      AttemptKeepsValid(oracle, nKey, State(), addr, nTime);
      var nId := Find(addr.ip);
      if nId == NOBODY { return; }
      if mapInfo[nId].service != addr { return; }
      mapInfo := mapInfo[nId := mapInfo[nId].(nLastTry := nTime)];
      mapInfo := mapInfo[nId := mapInfo[nId].(nAttempts := mapInfo[nId].nAttempts + 1)];
    }

    method Connected_(addr: Service, nTime: int)
      requires Ok()
      modifies this`mapInfo
      ensures State() == ApplyConnected(old(State()), addr, nTime) && Ok()
    {
      hide Consistent;
      Shape(oracle, nKey, State(), NOBODY);
      ConnectedKeepsValid(oracle, nKey, State(), addr, nTime);
      var nId := Find(addr.ip);
      if nId == NOBODY { return; }
      if mapInfo[nId].service != addr { return; }
      var nUpdateInterval := 20 * 60;
      if nTime - mapInfo[nId].nTime > nUpdateInterval {
        mapInfo := mapInfo[nId := mapInfo[nId].(nTime := U32(nTime))];
      }
    }

    /** Append a random selection of known addresses to vAddr: the entries at
        the first places of vRandom after the draw. */
    method GetAddr_(vAddr: seq<AddrInfo>) returns (answer: seq<AddrInfo>, ghost op: Op)
      requires Ok()
      modifies this`mapInfo, this`vRandom
      ensures op.GetAddr? && Valid(oracle, nKey, old(State())) && Legal(oracle, nKey, old(State()), op)
      ensures State() == Apply(oracle, nKey, old(State()), op) && Ok()
      ensures answer == vAddr + First(State(), AnswerSize(old(State())))
    {
      ghost var t0 := State();
      ghost var picks: seq<nat>;
      answer, picks := Draw(vAddr);
      op := GetAddr(picks);
      ApplyKeepsValid(oracle, nKey, t0, op);
    }

    method Draw(vAddr: seq<AddrInfo>) returns (answer: seq<AddrInfo>, ghost picks: seq<nat>)
      requires RandomIndex(State())
      modifies this`mapInfo, this`vRandom
      ensures |picks| == AnswerSize(old(State()))
      ensures forall i | 0 <= i < |picks| :: i <= picks[i] < old(|vRandom|)
      ensures State() == Shuffle(old(State()), picks)
      ensures answer == vAddr + First(State(), |picks|)
    {
      hide Shuffle, SwapRandom, First;
      ghost var t0 := State();
      picks := [];
      ShuffleNothing(t0);
      answer := vAddr;
      var nNodes := GETADDR_MAX_PCT * |vRandom| / 100;
      if nNodes > GETADDR_MAX { nNodes := GETADDR_MAX; }
      var n := 0;
      while n < nNodes
        invariant 0 <= n <= nNodes == AnswerSize(t0) && |picks| == n && RandomIndex(State())
        invariant forall i | 0 <= i < n :: i <= picks[i] < |t0.vRandom|
        invariant State() == Shuffle(t0, picks)
        invariant answer == vAddr + First(State(), n)
      {
        var r := GetRandInt(|vRandom| - n);
        var nRndPos := r + n;
        ShuffleStep(t0, picks, nRndPos);
        Swap(n, nRndPos);
        picks := picks + [nRndPos];
        answer := answer + [mapInfo[vRandom[n]]];
        n := n + 1;
      }
    }
  }

  lemma GoodStranger(o: Oracle, key: Bytes, t: Tables, op: Op)
    requires op.Good? && Valid(o, key, t) && Known(t, op.service) == NOBODY
    ensures Legal(o, key, t, op) && Apply(o, key, t, op) == t
  {
  }

  lemma GoodAgain(o: Oracle, key: Bytes, t: Tables, op: Op)
    requires op.Good? && Valid(o, key, t) && Known(t, op.service) in t.mapInfo
    requires t.mapInfo[Known(t, op.service)].fInTried
    ensures Legal(o, key, t, op) && Valid(o, key, Apply(o, key, t, op))
    ensures var id := Known(t, op.service); Apply(o, key, t, op) == SetInfo(t, id, AfterGood(t.mapInfo[id], op.time))
  {
    ApplyKeepsValid(o, key, t, op);
  }

  lemma GoodPrecondition(o: Oracle, key: Bytes, t: Tables, s: Tables, id: int, time: int)
    requires Valid(o, key, t) && id in t.mapInfo && !t.mapInfo[id].fInTried
    requires s == SetInfo(t, id, AfterGood(t.mapInfo[id], time))
    ensures |s.vvNew| == NEW_BUCKET_COUNT && |s.vvTried| == TRIED_BUCKET_COUNT
    ensures NewEntryOk(s.vvNew, id, s.mapInfo[id], NOBODY)
    ensures forall x | x in s.vvTried[TriedBucket(o, key, s.mapInfo[id].service)] :: x in s.mapInfo && x >= 0
    ensures exists b :: 0 <= b < NEW_BUCKET_COUNT && id in s.vvNew[b]
  {
    assert NewEntryOk(t.vvNew, id, t.mapInfo[id], NOBODY);
    var k := TriedBucket(o, key, t.mapInfo[id].service);
    assert TriedBucketOk(o, key, t.mapInfo, k, t.vvTried[k]);
    SomeBucketHolds(o, key, t, id);
  }

  lemma GoodMoves(o: Oracle, key: Bytes, t: Tables, op: Op)
    requires op.Good? && Valid(o, key, t) && Known(t, op.service) in t.mapInfo
    requires !t.mapInfo[Known(t, op.service)].fInTried
    requires op.origin < NEW_BUCKET_COUNT && Known(t, op.service) in t.vvNew[op.origin]
    requires |t.vvTried[TriedBucket(o, key, op.service)]| >= TRIED_BUCKET_SIZE ==>
      && multiset(op.shuffled) == multiset(t.vvTried[TriedBucket(o, key, op.service)])
      && op.pos < |op.shuffled| && op.shuffled[op.pos] in t.mapInfo
    ensures Legal(o, key, t, op) && Valid(o, key, Apply(o, key, t, op))
    ensures var id := Known(t, op.service); var s := SetInfo(t, id, AfterGood(t.mapInfo[id], op.time));
      Apply(o, key, t, op) == MakeTried(o, key, s, id, op.origin, op.shuffled, op.pos)
  {
    ApplyKeepsValid(o, key, t, op);
  }

  lemma AddPrecondition(o: Oracle, key: Bytes, t: Tables, s: Tables, id: int, source: NetAddr)
    requires Valid(o, key, t) && s.vvNew == t.vvNew && t.mapInfo.Keys <= s.mapInfo.Keys && id in s.mapInfo
    ensures forall x | x in s.vvNew[NewBucket(o, key, s.mapInfo[id].service, source)] :: x in s.mapInfo && x >= 0
  {
    assert NewBucketOk(t.mapInfo, t.vvNew[NewBucket(o, key, s.mapInfo[id].service, source)]);
  }

  /** The parts of the invariant an announcement relies on. */
  lemma ValidParts(o: Oracle, key: Bytes, t: Tables)
    requires Valid(o, key, t)
    ensures AddrIndex(t) && RandomIndex(t) && Counters(t) && |t.vvNew| == NEW_BUCKET_COUNT
  {
  }

  lemma AddIgnored(o: Oracle, key: Bytes, t: Tables, op: Op)
    requires op.Add? && Valid(o, key, t) && !o.routable(op.addr.service.ip)
    ensures Legal(o, key, t, op) && Apply(o, key, t, op) == t
  {
  }

  lemma AddStops(o: Oracle, key: Bytes, t: Tables, op: Op)
    requires op.Add? && Valid(o, key, t) && o.routable(op.addr.service.ip)
    requires Lookup(t, op.addr.service.ip) in t.mapInfo
    requires var id := Lookup(t, op.addr.service.ip);
      op.coin < Odds(t.mapInfo[id].nRefCount) && !WantsReference(t, id, op)
    ensures Legal(o, key, t, op) && Valid(o, key, Apply(o, key, t, op))
    ensures var id := Lookup(t, op.addr.service.ip);
      Apply(o, key, t, op) == SetInfo(t, id, Refreshed(t.mapInfo[id], op.addr, op.penalty, op.now))
  {
    ApplyKeepsValid(o, key, t, op);
  }

  lemma AddReferences(o: Oracle, key: Bytes, t: Tables, s: Tables, id: int, op: Op)
    requires op.Add? && Valid(o, key, t) && o.routable(op.addr.service.ip) && RandomIndex(s)
    requires id in s.mapInfo && s.mapInfo[id].service.ip == op.addr.service.ip && s.vvNew == t.vvNew
    requires if id in t.mapInfo
             then && id == Lookup(t, op.addr.service.ip) && WantsReference(t, id, op)
                  && s == SetInfo(t, id, Refreshed(t.mapInfo[id], op.addr, op.penalty, op.now))
             else && Lookup(t, op.addr.service.ip) !in t.mapInfo && id == t.nIdCount
                  && s == Enrolled(t, op.addr, op.source, op.penalty)
    requires var b := NewBucket(o, key, s.mapInfo[id].service, op.source);
      id !in s.vvNew[b] && |s.vvNew[b]| == NEW_BUCKET_SIZE ==> op.victim in s.vvNew[b] && op.victim in s.mapInfo
    ensures Legal(o, key, t, op) && Valid(o, key, Apply(o, key, t, op))
    ensures Apply(o, key, t, op) == Reference(s, NewBucket(o, key, s.mapInfo[id].service, op.source), id, op.victim)
  {
    if id !in t.mapInfo {
      EnrollMap(t, op.addr, op.source, op.penalty);
      VictimIsKnown(t, NewBucket(o, key, op.addr.service, op.source));
    }
    assert Legal(o, key, t, op);
    ApplyKeepsValid(o, key, t, op);
  }

  lemma BucketsOfPrefix(vvNew: seq<set<int>>, j: nat, id: int)
    requires j < |vvNew|
    ensures |BucketsHolding(vvNew[..j + 1], id)| == |BucketsHolding(vvNew[..j], id)| + if id in vvNew[j] then 1 else 0
  {
    var more, less := BucketsHolding(vvNew[..j + 1], id), BucketsHolding(vvNew[..j], id);
    if id in vvNew[j] { assert more == less + {j}; } else { assert more == less; }
  }

  function Wrapped(start: nat, k: nat): (b: nat)
    ensures b < NEW_BUCKET_COUNT
  {
    (k + start) % NEW_BUCKET_COUNT
  }

  /** Going round once from any start reaches every bucket. */
  lemma CyclicSearch(start: nat, b: nat)
    requires start < NEW_BUCKET_COUNT && b < NEW_BUCKET_COUNT
    ensures exists k :: 0 <= k < NEW_BUCKET_COUNT && Wrapped(start, k) == b
  {
    var k := if b >= start then b - start else b + NEW_BUCKET_COUNT - start;
    assert Wrapped(start, k) == b;
  }

  lemma RecountPlaces(t: Tables, id: int, info: AddrInfo)
    requires RandomIndex(t) && id in t.mapInfo && info == t.mapInfo[id].(nRefCount := info.nRefCount)
    ensures var u := SetInfo(t, id, info); var n := |u.vRandom| - 1;
      && RandomIndex(u) && 0 <= info.nRandomPos <= n && u.vRandom[info.nRandomPos] in u.mapInfo && u.vRandom[n] in u.mapInfo
      && id in SwapRandom(u, info.nRandomPos, n).mapInfo && |SwapRandom(u, info.nRandomPos, n).vRandom| == n + 1
  {
    var u := SetInfo(t, id, info);
    forall x | x in u.mapInfo ensures 0 <= u.mapInfo[x].nRandomPos < |u.vRandom| && u.vRandom[u.mapInfo[x].nRandomPos] == x {
      assert u.mapInfo[x].nRandomPos == t.mapInfo[x].nRandomPos;
    }
    assert RandomIndex(u);
  }

  lemma Appended(o: Oracle, key: Bytes, t: Tables, s: Tables, id: int, origin: nat, shuffled: seq<int>, pos: nat)
    requires id in t.mapInfo && |t.vvTried| == TRIED_BUCKET_COUNT && |t.vvNew| == NEW_BUCKET_COUNT
    requires origin < NEW_BUCKET_COUNT && |t.vvTried[TriedBucket(o, key, t.mapInfo[id].service)]| < TRIED_BUCKET_SIZE
    requires var w := Withdraw(t, id); var k := TriedBucket(o, key, t.mapInfo[id].service);
      s == w.(vvTried := w.vvTried[k := w.vvTried[k] + [id]], nTried := w.nTried + 1,
              mapInfo := w.mapInfo[id := w.mapInfo[id].(fInTried := true)])
    ensures s == MakeTried(o, key, t, id, origin, shuffled, pos)
  {
    hide TriedBucket, BucketsHolding;
  }

  lemma Replaced(o: Oracle, key: Bytes, t: Tables, s: Tables, id: int, origin: nat, shuffled: seq<int>, pos: nat)
    requires id in t.mapInfo && |t.vvTried| == TRIED_BUCKET_COUNT && |t.vvNew| == NEW_BUCKET_COUNT
    requires origin < NEW_BUCKET_COUNT && |t.vvTried[TriedBucket(o, key, t.mapInfo[id].service)]| >= TRIED_BUCKET_SIZE
    requires pos < |shuffled| && shuffled[pos] in t.mapInfo
    requires var w := Withdraw(t, id); var k := TriedBucket(o, key, t.mapInfo[id].service);
      var evicted := shuffled[pos];
      var u := NewBucket(o, key, w.mapInfo[evicted].service, w.mapInfo[evicted].source);
      var home := if |w.vvNew[u]| < NEW_BUCKET_SIZE then u else origin;
      var m := w.mapInfo[evicted := w.mapInfo[evicted].(fInTried := false, nRefCount := 1)];
      s == w.(vvTried := w.vvTried[k := shuffled[pos := id]], vvNew := w.vvNew[home := w.vvNew[home] + {evicted}],
              nNew := w.nNew + 1, mapInfo := m[id := m[id].(fInTried := true)])
    ensures s == MakeTried(o, key, t, id, origin, shuffled, pos)
  {
    hide TriedBucket, NewBucket, BucketsHolding;
  }
}
