// What each call does to the entry it is about, and where that entry is afterwards.
module AddrEffects {
  import opened AddrTables
  import opened AddrInvariant

  // ------------------------------------------------------------------ announcements

  /** A day, an hour and the months of the code, in seconds. */
  const HOUR: int := 3600
  const DAY: int := 86400

  /** The recorded time of a known address moves if none was recorded, or if the
      sighting, seen within a day, is later by more than an hour and the penalty,
      or, seen earlier, by more than a day and the penalty; services only grow. */
  lemma RefreshedIs(info: AddrInfo, addr: Address, penalty: int, now: int)
    ensures var r := Refreshed(info, addr, penalty, now);
      var gap := if now < addr.nTime + DAY then HOUR else DAY;
      var moves := addr.nTime != 0 && (info.nTime == 0 || addr.nTime > info.nTime + gap + penalty);
      && r == info.(nTime := r.nTime, nServices := r.nServices)
      && r.nServices == info.nServices + addr.nServices
      && (!moves ==> r.nTime == info.nTime)
      && (moves && penalty <= addr.nTime < 0x1_0000_0000 && penalty >= 0 ==> r.nTime == addr.nTime - penalty)
      && (moves && penalty > addr.nTime ==> r.nTime == 0)
  {
  }

  /** A new routable address is in exactly one new bucket, the one its group and
      its source's group lead to, and its entry is a fresh one with the penalised time. */
  lemma AddedIs(o: Oracle, key: Bytes, t: Tables, op: Op)
    requires op.Add? && Valid(o, key, t) && Legal(o, key, t, op)
    requires o.routable(op.addr.service.ip) && op.addr.service.ip !in t.mapAddr
    ensures var s := ApplyAdd(o, key, t, op); var id := t.nIdCount; var a := op.addr;
      && id in s.mapInfo && |s.vvNew| == NEW_BUCKET_COUNT
      && (forall b | 0 <= b < NEW_BUCKET_COUNT :: id in s.vvNew[b] <==> b == NewBucket(o, key, a.service, op.source))
      && var e := s.mapInfo[id];
      && e == AddrInfo(a.service, a.nServices, e.nTime, op.source, 0, 0, 0, 1, false, e.nRandomPos)
      && (0 <= op.penalty <= a.nTime < 0x1_0000_0000 ==> e.nTime == a.nTime - op.penalty)
      && (op.penalty > a.nTime ==> e.nTime == 0)
  {
    hide AddrIndex, RandomIndex, TriedTable, NewBucket, Reference, Consistent;
    var id, b := t.nIdCount, NewBucket(o, key, op.addr.service, op.source);
    TablesOf(o, key, t);
    var u := Enrolled(t, op.addr, op.source, op.penalty);
    EnrollMap(t, op.addr, op.source, op.penalty);
    NewIsNowhere(o, key, t);
    ReferencedIs(u, b, id, op.victim);
    EnrolledTime(t, op.addr, op.source, op.penalty);
  }

  lemma TablesOf(o: Oracle, key: Bytes, t: Tables)
    requires Valid(o, key, t)
    ensures RandomIndex(t) && Counters(t) && NewTable(t, NOBODY) && NOBODY !in t.mapInfo && |t.vvNew| == NEW_BUCKET_COUNT
    ensures |t.vvTried| == TRIED_BUCKET_COUNT && t.nIdCount !in t.mapInfo
  {
  }

  lemma NewIsNowhere(o: Oracle, key: Bytes, t: Tables)
    requires Valid(o, key, t)
    ensures |t.vvNew| == NEW_BUCKET_COUNT && forall b | 0 <= b < NEW_BUCKET_COUNT :: t.nIdCount !in t.vvNew[b]
  {
    forall b | 0 <= b < NEW_BUCKET_COUNT ensures t.nIdCount !in t.vvNew[b] {
      assert NewBucketOk(t.mapInfo, t.vvNew[b]);
    }
  }

  lemma EnrolledTime(t: Tables, addr: Address, source: NetAddr, penalty: int)
    requires Counters(t) && RandomIndex(t)
    ensures var e := Enrolled(t, addr, source, penalty).mapInfo[t.nIdCount];
      && (0 <= penalty <= addr.nTime < 0x1_0000_0000 ==> e.nTime == addr.nTime - penalty)
      && (penalty > addr.nTime ==> e.nTime == 0)
  {
  }

  /** One reference more puts an id in that bucket and leaves its other buckets. */
  lemma ReferencedIs(t: Tables, b: nat, id: int, victim: int)
    requires b < |t.vvNew| && id in t.mapInfo && RandomIndex(t)
    requires id !in t.vvNew[b] && |t.vvNew[b]| == NEW_BUCKET_SIZE ==> victim in t.mapInfo && victim in t.vvNew[b]
    ensures var s := Reference(t, b, id, victim);
      && |s.vvNew| == |t.vvNew| && id in s.mapInfo
      && (forall c | 0 <= c < |t.vvNew| :: id in s.vvNew[c] <==> id in t.vvNew[c] || c == b)
      && (id !in t.vvNew[b] ==>
            s.mapInfo[id] == t.mapInfo[id].(nRefCount := t.mapInfo[id].nRefCount + 1, nRandomPos := s.mapInfo[id].nRandomPos))
      && (id in t.vvNew[b] ==> s == t)
  {
    hide RandomIndex, Delete;
    if id !in t.vvNew[b] {
      var info := t.mapInfo[id].(nRefCount := t.mapInfo[id].nRefCount + 1);
      var u := SetInfo(t, id, info);
      RecountIndex(t, id, info);
      if |t.vvNew[b]| == NEW_BUCKET_SIZE { DroppedIs(u, b, victim, id); }
    }
  }

  lemma RecountIndex(t: Tables, id: int, info: AddrInfo)
    requires RandomIndex(t) && id in t.mapInfo && info == t.mapInfo[id].(nRefCount := info.nRefCount)
    ensures RandomIndex(SetInfo(t, id, info))
  {
  }

  lemma DroppedIs(t: Tables, b: nat, victim: int, id: int)
    requires b < |t.vvNew| && victim in t.mapInfo && RandomIndex(t) && id in t.mapInfo && id != victim
    ensures var s := DropReference(t, b, victim);
      && s.vvNew == t.vvNew[b := t.vvNew[b] - {victim}]
      && id in s.mapInfo && s.mapInfo[id] == t.mapInfo[id].(nRandomPos := s.mapInfo[id].nRandomPos)
  {
    hide RandomIndex, Delete;
    var info := t.mapInfo[victim].(nRefCount := t.mapInfo[victim].nRefCount - 1);
    var u := SetInfo(t, victim, info);
    RecountIndex(t, victim, info);
    if info.nRefCount == 0 {
      DeleteFacts(u, victim);
      DeleteCounts(u, victim);
    }
  }

  /** A known address keeps its buckets, and gets one more exactly if the
      announcement is news about an untried entry with fewer than four, and was
      let through; its entry changes as said above. */
  lemma KnownIs(o: Oracle, key: Bytes, t: Tables, op: Op)
    requires op.Add? && Valid(o, key, t) && Legal(o, key, t, op)
    requires o.routable(op.addr.service.ip) && op.addr.service.ip in t.mapAddr
    ensures var s := ApplyAdd(o, key, t, op); var id := t.mapAddr[op.addr.service.ip];
      id in t.mapInfo && id in s.mapInfo && |s.vvNew| == NEW_BUCKET_COUNT &&
      var r := Refreshed(t.mapInfo[id], op.addr, op.penalty, op.now);
      var b := NewBucket(o, key, r.service, op.source);
      var more := op.coin == 0 && op.addr.nTime != 0 && (r.nTime == 0 || op.addr.nTime > r.nTime)
                  && !r.fInTried && r.nRefCount != 4;
      && (forall c | 0 <= c < NEW_BUCKET_COUNT :: id in s.vvNew[c] <==> id in t.vvNew[c] || (more && c == b))
      && s.mapInfo[id] == r.(nRandomPos := s.mapInfo[id].nRandomPos,
                             nRefCount := if more && id !in t.vvNew[b] then r.nRefCount + 1 else r.nRefCount)
  {
    hide RandomIndex, TriedTable, NewBucket, Reference, Refreshed, NewBucketOk, NewEntryOk;
    KnownHasEntry(o, key, t, op.addr.service.ip);
    var id := t.mapAddr[op.addr.service.ip];
    var r := Refreshed(t.mapInfo[id], op.addr, op.penalty, op.now);
    RefreshedIs(t.mapInfo[id], op.addr, op.penalty, op.now);
    RecountFrame(o, key, t, id, r);
    VictimIsKnown(t, NewBucket(o, key, t.mapInfo[id].service, op.source));
    if WantsReference(t, id, op) {
      ReferencedIs(SetInfo(t, id, r), NewBucket(o, key, r.service, op.source), id, op.victim);
    }
  }

  lemma KnownHasEntry(o: Oracle, key: Bytes, t: Tables, ip: NetAddr)
    requires Valid(o, key, t) && ip in t.mapAddr
    ensures t.mapAddr[ip] in t.mapInfo && Lookup(t, ip) == t.mapAddr[ip] && |t.vvNew| == NEW_BUCKET_COUNT
  {
  }

  // ---------------------------------------------------------------- the other calls

  /** A successful connection moves an untried address out of all new buckets into
      the last place, or the drawn one, of the tried bucket it belongs to; an entry
      driven out of there goes to its own new bucket, or to the one given up if
      that is full, and is in no other. */
  lemma GoodPlaces(o: Oracle, key: Bytes, t: Tables, op: Op)
    requires op.Good? && Valid(o, key, t) && Legal(o, key, t, op)
    requires Known(t, op.service) in t.mapInfo && !t.mapInfo[Known(t, op.service)].fInTried
    ensures var s := ApplyGood(o, key, t, op); var id := Known(t, op.service);
      var k := TriedBucket(o, key, op.service);
      && |s.vvNew| == NEW_BUCKET_COUNT && |s.vvTried| == |t.vvTried| == TRIED_BUCKET_COUNT
      && id in s.mapInfo
      && s.mapInfo[id] == t.mapInfo[id].(nLastSuccess := op.time, nLastTry := op.time, nTime := U32(op.time),
                                         nAttempts := 0, nRefCount := 0, fInTried := true)
      && (forall b | 0 <= b < NEW_BUCKET_COUNT :: id !in s.vvNew[b])
      && if |t.vvTried[k]| < TRIED_BUCKET_SIZE
         then s.vvTried == t.vvTried[k := t.vvTried[k] + [id]]
         else
           op.pos < |op.shuffled| && var e := op.shuffled[op.pos];
           && e in t.mapInfo && e in s.mapInfo
           && s.vvTried == t.vvTried[k := op.shuffled[op.pos := id]]
           && s.mapInfo[e] == t.mapInfo[e].(nRefCount := 1, fInTried := false)
           && var own := NewBucket(o, key, t.mapInfo[e].service, t.mapInfo[e].source);
           var room := |t.vvNew[own] - {id}| < NEW_BUCKET_SIZE;
           forall b | 0 <= b < NEW_BUCKET_COUNT :: e in s.vvNew[b] <==> b == (if room then own else op.origin)
  {
    hide AddrIndex, RandomIndex, NewTable, TriedBucketOk, TriedEntryOk, Counters, TriedBucket, NewBucket, MakeTried;
    Shape(o, key, t, NOBODY);
    var id := Known(t, op.service);
    var info := AfterGood(t.mapInfo[id], op.time);
    StatisticsKeepValid(o, key, t, id, info);
    ShuffledMembersAll(o, key, t, op);
    var k := TriedBucket(o, key, op.service);
    if |t.vvTried[k]| >= TRIED_BUCKET_SIZE { TriedIsNowhere(o, key, t, op.shuffled[op.pos]); }
    MadeTriedIs(o, key, SetInfo(t, id, info), id, op.origin, op.shuffled, op.pos);
  }

  lemma TriedIsNowhere(o: Oracle, key: Bytes, t: Tables, e: int)
    requires Valid(o, key, t) && e in t.mapInfo && t.mapInfo[e].fInTried
    ensures |t.vvNew| == NEW_BUCKET_COUNT && forall b | 0 <= b < NEW_BUCKET_COUNT :: e !in t.vvNew[b]
  {
    forall b | 0 <= b < NEW_BUCKET_COUNT ensures e !in t.vvNew[b] {
      assert NewBucketOk(t.mapInfo, t.vvNew[b]);
    }
  }

  lemma MadeTriedIs(o: Oracle, key: Bytes, t: Tables, id: int, origin: nat, shuffled: seq<int>, pos: nat)
    requires Valid(o, key, t) && id in t.mapInfo && !t.mapInfo[id].fInTried && origin < NEW_BUCKET_COUNT
    requires |t.vvTried| == TRIED_BUCKET_COUNT && |t.vvNew| == NEW_BUCKET_COUNT
    requires |t.vvTried[TriedBucket(o, key, t.mapInfo[id].service)]| >= TRIED_BUCKET_SIZE ==>
      && pos < |shuffled| && shuffled[pos] in t.mapInfo && t.mapInfo[shuffled[pos]].fInTried
      && forall b | 0 <= b < NEW_BUCKET_COUNT :: shuffled[pos] !in t.vvNew[b]
    ensures var s := MakeTried(o, key, t, id, origin, shuffled, pos);
      var k := TriedBucket(o, key, t.mapInfo[id].service);
      && |s.vvNew| == NEW_BUCKET_COUNT && id in s.mapInfo
      && s.mapInfo[id] == t.mapInfo[id].(nRefCount := 0, fInTried := true)
      && (forall b | 0 <= b < NEW_BUCKET_COUNT :: id !in s.vvNew[b])
      && if |t.vvTried[k]| < TRIED_BUCKET_SIZE then s.vvTried == t.vvTried[k := t.vvTried[k] + [id]]
         else
           var e := shuffled[pos];
           && e in s.mapInfo && s.vvTried == t.vvTried[k := shuffled[pos := id]]
           && s.mapInfo[e] == t.mapInfo[e].(nRefCount := 1, fInTried := false)
           && var own := NewBucket(o, key, t.mapInfo[e].service, t.mapInfo[e].source);
           var room := |t.vvNew[own] - {id}| < NEW_BUCKET_SIZE;
           forall b | 0 <= b < NEW_BUCKET_COUNT :: e in s.vvNew[b] <==> b == (if room then own else origin)
  {
    hide AddrIndex, RandomIndex, NewTable, TriedTable, TriedBucket, NewBucket, BucketsHolding;
    TablesOf(o, key, t);
    WithdrawFacts(t, id);
  }

  /** An attempt is counted for the very service only. */
  lemma AttemptIs(t: Tables, service: Service, time: int)
    ensures var s := ApplyAttempt(t, service, time); var ip := service.ip;
      if ip in t.mapAddr && t.mapAddr[ip] in t.mapInfo && t.mapInfo[t.mapAddr[ip]].service == service
      then
        var id := t.mapAddr[ip];
        s == t.(mapInfo := t.mapInfo[id := t.mapInfo[id].(nLastTry := time, nAttempts := t.mapInfo[id].nAttempts + 1)])
      else NOBODY !in t.mapInfo ==> s == t
  {
  }

  /** A message from a connected service moves its time if that is twenty minutes old. */
  lemma ConnectedIs(t: Tables, service: Service, time: int)
    requires 0 <= time < 0x1_0000_0000
    ensures var s := ApplyConnected(t, service, time); var ip := service.ip;
      if ip in t.mapAddr && t.mapAddr[ip] in t.mapInfo && t.mapInfo[t.mapAddr[ip]].service == service
         && time > t.mapInfo[t.mapAddr[ip]].nTime + 1200
      then s == t.(mapInfo := t.mapInfo[t.mapAddr[ip] := t.mapInfo[t.mapAddr[ip]].(nTime := time)])
      else NOBODY !in t.mapInfo ==> s == t
  {
  }

  /** An answer names 23 of a hundred known addresses, rounded down, but no more than 2500. */
  lemma AnswerSizeIs(t: Tables)
    ensures var n := AnswerSize(t); var all := |t.vRandom|;
      if 23 * all < 250100 then 100 * n <= 23 * all < 100 * (n + 1) else n == 2500
  {
  }

  /** An entry is worth nothing exactly if it was not tried within the last minute
      and was seen in the future, never, or more than thirty days ago, or failed
      three times without a success, or ten times with none in the last week. */
  lemma TerribleIs(info: AddrInfo, now: int)
    ensures IsTerrible(info, now) <==>
      && (info.nLastTry == 0 || info.nLastTry < now - 60)
      && (|| info.nTime > now + 600 || info.nTime == 0 || info.nTime < now - 2592000
          || (info.nAttempts >= 3 && info.nLastSuccess == 0)
          || (info.nAttempts >= 10 && info.nLastSuccess < now - 604800))
  {
  }

  /** A service that was connected to is not terrible within the week after,
      however many attempts have failed since. */
  lemma GoodIsNotTerrible(info: AddrInfo, time: int, now: int, attempts: int, lastTry: int)
    requires 0 < time < 0x1_0000_0000 && time <= now <= time + 604800
    ensures !IsTerrible(AfterGood(info, time).(nAttempts := attempts, nLastTry := lastTry), now)
  {
  }
}
