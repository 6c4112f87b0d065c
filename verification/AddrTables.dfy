// The tables behind the address manager as one value: what each operation
// does to them, and the invariant that ties the six redundant structures together.
module AddrTables {

  const TRIED_BUCKET_COUNT: nat := 64
  const TRIED_BUCKET_SIZE: nat := 64
  const NEW_BUCKET_COUNT: nat := 256
  const NEW_BUCKET_SIZE: nat := 64
  const TRIED_BUCKETS_PER_GROUP: nat := 4
  const NEW_BUCKETS_PER_SOURCE_GROUP: nat := 32
  const NEW_BUCKETS_PER_ADDRESS: nat := 4
  const TRIED_ENTRIES_INSPECT_ON_EVICT: nat := 4
  const HORIZON_DAYS := 30
  const RETRIES := 3
  const MAX_FAILURES := 10
  const MIN_FAIL_DAYS := 7
  const GETADDR_MAX_PCT: nat := 23
  const GETADDR_MAX: nat := 2500

  type Bytes = seq<nat>
  type NetAddr = Bytes

  datatype Service = Service(ip: NetAddr, port: nat)

  /** The bits that are set in a word of flags. */
  type Flags = set<nat>

  /** A network address as it travels: time of last sighting is 32 bits wide. */
  datatype Address = Address(service: Service, nServices: Flags, nTime: nat)

  datatype AddrInfo = AddrInfo(
    service: Service, nServices: Flags, nTime: int, source: NetAddr,
    nLastSuccess: int, nLastTry: int, nAttempts: int,
    nRefCount: int, fInTried: bool, nRandomPos: int)

  /** One serialised argument of a hash. */
  datatype Field = Blob(bytes: Bytes) | Number(n: nat)

  /** Code outside this model: the 64-bit digest of a list of fields, the group
      of an address and whether it can be routed. */
  datatype Oracle = Oracle(hash: seq<Field> -> nat, group: NetAddr -> Bytes, routable: NetAddr -> bool)

  function ServiceKey(s: Service): Bytes {
    s.ip + [s.port / 0x100, s.port % 0x100]
  }

  function TriedBucket(o: Oracle, key: Bytes, s: Service): (b: nat)
    ensures b < TRIED_BUCKET_COUNT
  {
    var hash1 := o.hash([Blob(key), Blob(ServiceKey(s))]);
    o.hash([Blob(key), Blob(o.group(s.ip)), Number(hash1 % TRIED_BUCKETS_PER_GROUP)]) % TRIED_BUCKET_COUNT
  }

  function NewBucket(o: Oracle, key: Bytes, s: Service, source: NetAddr): (b: nat)
    ensures b < NEW_BUCKET_COUNT
  {
    var hash1 := o.hash([Blob(key), Blob(o.group(s.ip)), Blob(o.group(source))]);
    o.hash([Blob(key), Blob(o.group(source)), Number(hash1 % NEW_BUCKETS_PER_SOURCE_GROUP)]) % NEW_BUCKET_COUNT
  }

  predicate IsTerrible(info: AddrInfo, now: int) {
    if info.nLastTry != 0 && info.nLastTry >= now - 60 then false
    else
      || info.nTime > now + 10 * 60
      || info.nTime == 0 || now - info.nTime > HORIZON_DAYS * 86400
      || (info.nLastSuccess == 0 && info.nAttempts >= RETRIES)
      || (now - info.nLastSuccess > MIN_FAIL_DAYS * 86400 && info.nAttempts >= MAX_FAILURES)
  }

  datatype Tables = Tables(
    nIdCount: int, mapInfo: map<int, AddrInfo>, mapAddr: map<NetAddr, int>, vRandom: seq<int>,
    nTried: int, vvTried: seq<seq<int>>, nNew: int, vvNew: seq<set<int>>)

  function Empty(): Tables {
    Tables(0, map[], map[], [], 0, seq(TRIED_BUCKET_COUNT, _ => []), 0, seq(NEW_BUCKET_COUNT, _ => {}))
  }

  // ---------------------------------------------------------------- invariant

  function Ids(mapInfo: map<int, AddrInfo>, tried: bool): set<int> {
    set id | id in mapInfo && mapInfo[id].fInTried == tried
  }

  function BucketsHolding(vvNew: seq<set<int>>, id: int): set<int> {
    set b | 0 <= b < |vvNew| && id in vvNew[b]
  }

  /** mapAddr and mapInfo are inverse to each other. */
  ghost predicate AddrIndex(t: Tables) {
    && (forall id | id in t.mapInfo ::
          t.mapInfo[id].service.ip in t.mapAddr && t.mapAddr[t.mapInfo[id].service.ip] == id)
    && (forall ip | ip in t.mapAddr ::
          t.mapAddr[ip] in t.mapInfo && t.mapInfo[t.mapAddr[ip]].service.ip == ip)
  }

  /** vRandom and the nRandomPos fields are inverse permutations. */
  ghost predicate RandomIndex(t: Tables) {
    && (forall id | id in t.mapInfo ::
          0 <= t.mapInfo[id].nRandomPos < |t.vRandom| && t.vRandom[t.mapInfo[id].nRandomPos] == id)
    && (forall i | 0 <= i < |t.vRandom| ::
          t.vRandom[i] in t.mapInfo && t.mapInfo[t.vRandom[i]].nRandomPos == i)
  }

  ghost predicate NewBucketOk(m: map<int, AddrInfo>, bucket: set<int>) {
    |bucket| <= NEW_BUCKET_SIZE && forall id | id in bucket :: id in m && !m[id].fInTried
  }

  ghost predicate NewEntryOk(vvNew: seq<set<int>>, id: int, info: AddrInfo, pending: int) {
    && 1 <= info.nRefCount <= NEW_BUCKETS_PER_ADDRESS
    && info.nRefCount == |BucketsHolding(vvNew, id)| + if id == pending then 1 else 0
  }

  /** Every untried id sits in exactly nRefCount (1..4) new buckets and no bucket
      overflows.  `pending` is an id, if any, whose count already includes the
      bucket it is about to be put in. */
  ghost predicate NewTable(t: Tables, pending: int) {
    && |t.vvNew| == NEW_BUCKET_COUNT
    && (forall b | 0 <= b < NEW_BUCKET_COUNT :: NewBucketOk(t.mapInfo, t.vvNew[b]))
    && (forall id | id in t.mapInfo && !t.mapInfo[id].fInTried :: NewEntryOk(t.vvNew, id, t.mapInfo[id], pending))
  }

  ghost predicate Distinct(s: seq<int>) {
    forall i, j | 0 <= i < j < |s| :: s[i] != s[j]
  }

  ghost predicate TriedBucketOk(o: Oracle, key: Bytes, m: map<int, AddrInfo>, b: nat, bucket: seq<int>) {
    && |bucket| <= TRIED_BUCKET_SIZE && Distinct(bucket)
    && forall id | id in bucket :: id in m && m[id].fInTried && TriedBucket(o, key, m[id].service) == b
  }

  ghost predicate TriedEntryOk(o: Oracle, key: Bytes, vvTried: seq<seq<int>>, id: int, info: AddrInfo)
    requires |vvTried| == TRIED_BUCKET_COUNT
  {
    info.nRefCount == 0 && id in vvTried[TriedBucket(o, key, info.service)]
  }

  /** Every tried id has no references, and sits in exactly one tried slot, in
      the bucket its address hashes to. */
  ghost predicate TriedTable(o: Oracle, key: Bytes, t: Tables) {
    && |t.vvTried| == TRIED_BUCKET_COUNT
    && (forall b | 0 <= b < TRIED_BUCKET_COUNT :: TriedBucketOk(o, key, t.mapInfo, b, t.vvTried[b]))
    && (forall id | id in t.mapInfo && t.mapInfo[id].fInTried :: TriedEntryOk(o, key, t.vvTried, id, t.mapInfo[id]))
  }

  ghost predicate Counters(t: Tables) {
    && t.nNew == |Ids(t.mapInfo, false)|
    && t.nTried == |Ids(t.mapInfo, true)|
    && 0 <= t.nIdCount && (forall id | id in t.mapInfo :: 0 <= id < t.nIdCount)
  }

  ghost predicate Consistent(o: Oracle, key: Bytes, t: Tables, pending: int) {
    AddrIndex(t) && RandomIndex(t) && NewTable(t, pending) && TriedTable(o, key, t) && Counters(t)
  }

  const NOBODY := -1

  ghost predicate Valid(o: Oracle, key: Bytes, t: Tables) {
    Consistent(o, key, t, NOBODY)
  }

  /** The time stamps the consistency check insists on. */
  ghost predicate Stamped(t: Tables) {
    forall id | id in t.mapInfo ::
      && t.mapInfo[id].nLastTry >= 0
      && t.mapInfo[id].nLastSuccess >= 0
      && (t.mapInfo[id].fInTried ==> t.mapInfo[id].nLastSuccess != 0)
  }

  // --------------------------------------------------------------- operations

  function Lookup(t: Tables, ip: NetAddr): (id: int)
    ensures id in t.mapInfo || id == NOBODY
  {
    if ip in t.mapAddr && t.mapAddr[ip] in t.mapInfo then t.mapAddr[ip] else NOBODY
  }

  function SwapRandom(t: Tables, p: nat, q: nat): Tables
    requires p < |t.vRandom| && q < |t.vRandom|
    requires t.vRandom[p] in t.mapInfo && t.vRandom[q] in t.mapInfo
  {
    if p == q then t else
      var id1, id2 := t.vRandom[p], t.vRandom[q];
      var m := t.mapInfo[id1 := t.mapInfo[id1].(nRandomPos := q)];
      t.(mapInfo := m[id2 := m[id2].(nRandomPos := p)], vRandom := t.vRandom[p := id2][q := id1])
  }

  /** Forget an id: swap it to the end of vRandom and drop it everywhere. */
  function Delete(t: Tables, id: int): Tables
    requires id in t.mapInfo && RandomIndex(t)
  {
    var s := SwapRandom(t, t.mapInfo[id].nRandomPos, |t.vRandom| - 1);
    s.(vRandom := s.vRandom[..|s.vRandom| - 1],
       mapAddr := s.mapAddr - {s.mapInfo[id].service.ip},
       mapInfo := s.mapInfo - {id},
       nNew := s.nNew - 1)
  }

  function SetInfo(t: Tables, id: int, info: AddrInfo): Tables {
    t.(mapInfo := t.mapInfo[id := info])
  }

  /** Take id out of new bucket b, forgetting it when that was its last one. */
  function DropReference(t: Tables, b: nat, id: int): Tables
    requires b < |t.vvNew| && id in t.mapInfo && RandomIndex(t)
  {
    var s := SetInfo(t, id, t.mapInfo[id].(nRefCount := t.mapInfo[id].nRefCount - 1));
    var u := if s.mapInfo[id].nRefCount == 0 then Delete(s, id) else s;
    u.(vvNew := u.vvNew[b := u.vvNew[b] - {id}])
  }

  function Create(t: Tables, addr: Address, source: NetAddr): Tables {
    var info := AddrInfo(addr.service, addr.nServices, addr.nTime, source, 0, 0, 0, 0, false, |t.vRandom|);
    t.(nIdCount := t.nIdCount + 1,
       mapInfo := t.mapInfo[t.nIdCount := info],
       mapAddr := t.mapAddr[addr.service.ip := t.nIdCount],
       vRandom := t.vRandom + [t.nIdCount])
  }

  /** Count one more reference to id and put it in new bucket b, making room
      there by dropping `victim` when the bucket is full. */
  function InsertReference(t: Tables, b: nat, id: int, victim: int): Tables
    requires b < |t.vvNew| && id in t.mapInfo && RandomIndex(t)
    requires |t.vvNew[b]| == NEW_BUCKET_SIZE ==> victim in t.mapInfo
  {
    var s := SetInfo(t, id, t.mapInfo[id].(nRefCount := t.mapInfo[id].nRefCount + 1));
    var u := if |s.vvNew[b]| == NEW_BUCKET_SIZE then DropReference(s, b, victim) else s;
    u.(vvNew := u.vvNew[b := u.vvNew[b] + {id}])
  }

  function Reference(t: Tables, b: nat, id: int, victim: int): Tables
    requires b < |t.vvNew| && id in t.mapInfo && RandomIndex(t)
    requires id !in t.vvNew[b] && |t.vvNew[b]| == NEW_BUCKET_SIZE ==> victim in t.mapInfo
  {
    if id in t.vvNew[b] then t else InsertReference(t, b, id, victim)
  }

  /** Take id out of every new bucket. */
  function Withdraw(t: Tables, id: int): Tables
    requires id in t.mapInfo
  {
    t.(vvNew := seq(|t.vvNew|, b requires 0 <= b < |t.vvNew| => t.vvNew[b] - {id}),
       mapInfo := t.mapInfo[id :=
         t.mapInfo[id].(nRefCount := t.mapInfo[id].nRefCount - |BucketsHolding(t.vvNew, id)|)],
       nNew := t.nNew - 1)
  }

  /** Move an id from the new table to tried bucket k.  When that bucket is full,
      `shuffled` is its content after the random swaps and the entry at `pos`
      goes back to its own new bucket, or to `origin` if there is no room. */
  function MakeTried(o: Oracle, key: Bytes, t: Tables, id: int, origin: nat, shuffled: seq<int>, pos: nat): Tables
    requires id in t.mapInfo && |t.vvTried| == TRIED_BUCKET_COUNT && |t.vvNew| == NEW_BUCKET_COUNT
    requires origin < NEW_BUCKET_COUNT
    requires |t.vvTried[TriedBucket(o, key, t.mapInfo[id].service)]| >= TRIED_BUCKET_SIZE ==>
               pos < |shuffled| && shuffled[pos] in t.mapInfo
  {
    var w := Withdraw(t, id);
    var k := TriedBucket(o, key, w.mapInfo[id].service);
    if |w.vvTried[k]| < TRIED_BUCKET_SIZE then
      w.(vvTried := w.vvTried[k := w.vvTried[k] + [id]],
         nTried := w.nTried + 1,
         mapInfo := w.mapInfo[id := w.mapInfo[id].(fInTried := true)])
    else
      var evicted := shuffled[pos];
      var u := NewBucket(o, key, w.mapInfo[evicted].service, w.mapInfo[evicted].source);
      var home := if |w.vvNew[u]| < NEW_BUCKET_SIZE then u else origin;
      var m := w.mapInfo[evicted := w.mapInfo[evicted].(fInTried := false, nRefCount := 1)];
      w.(vvTried := w.vvTried[k := shuffled[pos := id]],
         vvNew := w.vvNew[home := w.vvNew[home] + {evicted}],
         nNew := w.nNew + 1,
         mapInfo := m[id := m[id].(fInTried := true)])
  }

  function U32(x: int): (r: int)
    ensures 0 <= r < 0x1_0000_0000
  {
    x % 0x1_0000_0000
  }

  function Max(x: int, y: int): int { if x > y then x else y }

  /** What a repeated announcement changes about a known address. */
  function Refreshed(info: AddrInfo, addr: Address, penalty: int, now: int): AddrInfo {
    var online := now - addr.nTime < 24 * 60 * 60;
    var interval := if online then 60 * 60 else 24 * 60 * 60;
    var time :=
      if addr.nTime != 0 && (info.nTime == 0 || info.nTime < addr.nTime - interval - penalty)
      then U32(Max(0, addr.nTime - penalty)) else info.nTime;
    info.(nTime := time, nServices := info.nServices + addr.nServices)
  }

  function AfterGood(info: AddrInfo, time: int): AddrInfo {
    info.(nLastSuccess := time, nLastTry := time, nTime := U32(time), nAttempts := 0)
  }

  /** An address with n references is given another one in one case out of 2^n. */
  function Odds(n: int): (k: nat)
    ensures k > 0
  {
    if n <= 0 then 1 else 2 * Odds(n - 1)
  }

  /** One call on the manager together with the random choices it made. */
  datatype Op =
    | Add(addr: Address, source: NetAddr, penalty: int, now: int, coin: nat, victim: int)
    | Good(service: Service, time: int, origin: nat, shuffled: seq<int>, pos: nat)
    | Attempt(service: Service, time: int)
    | Connected(service: Service, time: int)
    | GetAddr(picks: seq<nat>)

  function Known(t: Tables, service: Service): (id: int)
    ensures id in t.mapInfo || id == NOBODY
  {
    var id := Lookup(t, service.ip);
    if id in t.mapInfo && t.mapInfo[id].service == service then id else NOBODY
  }

  /** Whether an announcement is news about an entry that can take one more reference. */
  predicate Admissible(info: AddrInfo, addr: Address) {
    && addr.nTime != 0 && (info.nTime == 0 || addr.nTime > info.nTime)
    && !info.fInTried && info.nRefCount != NEW_BUCKETS_PER_ADDRESS
  }

  /** Whether an announcement of known address id goes on to another bucket. */
  predicate WantsReference(t: Tables, id: int, op: Op)
    requires op.Add? && id in t.mapInfo
  {
    op.coin == 0 && Admissible(Refreshed(t.mapInfo[id], op.addr, op.penalty, op.now), op.addr)
  }

  /** Number of addresses a request for addresses is answered with. */
  function AnswerSize(t: Tables): (n: nat)
    ensures n <= |t.vRandom| && n <= GETADDR_MAX
  {
    var n := GETADDR_MAX_PCT * |t.vRandom| / 100;
    if n > GETADDR_MAX then GETADDR_MAX else n
  }

  /** The choices recorded in op could have been made by a call in state t. */
  ghost predicate Legal(o: Oracle, key: Bytes, t: Tables, op: Op) {
    match op
    case Add(addr, source, _, now, coin, victim) =>
      var b := NewBucket(o, key, addr.service, source);
      var id := Lookup(t, addr.service.ip);
      o.routable(addr.service.ip) ==>
        if id in t.mapInfo then
          var c := NewBucket(o, key, t.mapInfo[id].service, source);
          coin < Odds(t.mapInfo[id].nRefCount) &&
          (WantsReference(t, id, op) && c < |t.vvNew| && id !in t.vvNew[c] && |t.vvNew[c]| == NEW_BUCKET_SIZE ==>
             victim in t.vvNew[c])
        else
          b < |t.vvNew| && |t.vvNew[b]| == NEW_BUCKET_SIZE ==> victim in t.vvNew[b]
    case Good(service, _, origin, shuffled, pos) =>
      var id := Known(t, service);
      id in t.mapInfo && !t.mapInfo[id].fInTried ==>
        var k := TriedBucket(o, key, service);
        && origin < |t.vvNew| && id in t.vvNew[origin]
        && (k < |t.vvTried| && |t.vvTried[k]| >= TRIED_BUCKET_SIZE ==>
              multiset(shuffled) == multiset(t.vvTried[k]) && pos < |shuffled|)
    case GetAddr(picks) =>
      |picks| == AnswerSize(t) && forall i | 0 <= i < |picks| :: i <= picks[i] < |t.vRandom|
    case _ => true
  }

  /** The swaps of the first |picks| places of vRandom, one after the other. */
  function Shuffle(t: Tables, picks: seq<nat>): Tables
    requires RandomIndex(t)
    requires |picks| <= |t.vRandom| && forall i | 0 <= i < |picks| :: picks[i] < |t.vRandom|
    ensures RandomIndex(Shuffle(t, picks)) && |Shuffle(t, picks).vRandom| == |t.vRandom|
    decreases |picks|
  {
    if picks == [] then t
    else
      var n := |picks| - 1;
      var s := Shuffle(t, picks[..n]);
      SwapRandomKeepsIndex(s, n, picks[n]);
      SwapRandom(s, n, picks[n])
  }

  function ApplyAdd(o: Oracle, key: Bytes, t: Tables, op: Op): Tables
    requires op.Add? && Valid(o, key, t) && Legal(o, key, t, op)
  {
    var id := Lookup(t, op.addr.service.ip);
    if !o.routable(op.addr.service.ip) then t
    else if id in t.mapInfo then
      var s := SetInfo(t, id, Refreshed(t.mapInfo[id], op.addr, op.penalty, op.now));
      if WantsReference(t, id, op)
      then Reference(s, NewBucket(o, key, s.mapInfo[id].service, op.source), id, op.victim) else s
    else
      Reference(Enrolled(t, op.addr, op.source, op.penalty),
                NewBucket(o, key, op.addr.service, op.source), t.nIdCount, op.victim)
  }

  /** The tables with a fresh, not yet referenced, entry for a new address. */
  function Enrolled(t: Tables, addr: Address, source: NetAddr, penalty: int): (s: Tables)
    requires Counters(t) && RandomIndex(t)
    ensures RandomIndex(s) && t.nIdCount in s.mapInfo
  {
    var s := Create(t, addr, source);
    var info := s.mapInfo[t.nIdCount];
    SetInfo(s, t.nIdCount, info.(nTime := U32(Max(0, info.nTime - penalty)))).(nNew := t.nNew + 1)
  }

  function ApplyGood(o: Oracle, key: Bytes, t: Tables, op: Op): Tables
    requires op.Good? && Valid(o, key, t) && Legal(o, key, t, op)
  {
    var id := Known(t, op.service);
    if id !in t.mapInfo then t
    else
      var s := SetInfo(t, id, AfterGood(t.mapInfo[id], op.time));
      if s.mapInfo[id].fInTried then s
      else
        ShuffledMembers(o, key, t, op);
        MakeTried(o, key, s, id, op.origin, op.shuffled, op.pos)
  }

  function ApplyAttempt(t: Tables, service: Service, time: int): Tables {
    var id := Known(t, service);
    if id !in t.mapInfo then t
    else SetInfo(t, id, t.mapInfo[id].(nLastTry := time, nAttempts := t.mapInfo[id].nAttempts + 1))
  }

  function ApplyConnected(t: Tables, service: Service, time: int): Tables {
    var id := Known(t, service);
    if id in t.mapInfo && time - t.mapInfo[id].nTime > 20 * 60
    then SetInfo(t, id, t.mapInfo[id].(nTime := U32(time))) else t
  }

  function Apply(o: Oracle, key: Bytes, t: Tables, op: Op): Tables
    requires Valid(o, key, t) && Legal(o, key, t, op)
  {
    match op
    case Add(_, _, _, _, _, _) => ApplyAdd(o, key, t, op)
    case Good(_, _, _, _, _) => ApplyGood(o, key, t, op)
    case Attempt(service, time) => ApplyAttempt(t, service, time)
    case Connected(service, time) => ApplyConnected(t, service, time)
    case GetAddr(picks) => Shuffle(t, picks)
  }

  // ------------------------------------------------------------ preservation

  lemma SwapRandomKeepsIndex(t: Tables, p: nat, q: nat)
    requires RandomIndex(t) && p < |t.vRandom| && q < |t.vRandom|
    ensures RandomIndex(SwapRandom(t, p, q)) && SwapRandom(t, p, q).mapInfo.Keys == t.mapInfo.Keys
  {
  }

  lemma ShuffledMembers(o: Oracle, key: Bytes, t: Tables, op: Op)
    requires op.Good? && TriedTable(o, key, t) && Legal(o, key, t, op) && |t.vvNew| == NEW_BUCKET_COUNT
    requires Known(t, op.service) in t.mapInfo && !t.mapInfo[Known(t, op.service)].fInTried
    ensures |t.vvTried[TriedBucket(o, key, op.service)]| >= TRIED_BUCKET_SIZE ==>
              op.pos < |op.shuffled| && op.shuffled[op.pos] in t.mapInfo
  {
    var k := TriedBucket(o, key, op.service);
    if |t.vvTried[k]| >= TRIED_BUCKET_SIZE {
      var x := op.shuffled[op.pos];
      assert x in multiset(op.shuffled);
      assert x in t.vvTried[k];
    }
  }
}
