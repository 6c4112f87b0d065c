// Filling a new block from the memory pool: CreateNewBlock in miner.cpp.
module BlockTemplate {
  import opened HashType
  import opened Options
  import opened Transactions
  import opened TxIndex
  import ConnectBlock
  import opened IndexSteps
  import opened IndexUndo
  import opened TemplatePool

  const MIN_TX_FEE: int := 1_000_000
  const MAX_BLOCK_SIZE_GEN: nat := 10_000_000
  const HIGH_PRIORITY: real := 57_600_000.0

  /** The surroundings of one call: the chain's answers, the clock and the options. */
  datatype Miner = Miner(
    env: Env,
    isFinal: Tx -> bool,
    depth: Hash -> int,
    nAdjustedTime: nat,
    nCoinbaseTime: nat,
    fProofOfStake: bool,
    nBlockMaxSize: nat,
    nBlockPrioritySize: nat,
    nBlockMinSize: nat,
    nMinTxFee: int)

  predicate OnDisk(m: Miner, index: Index, o: OutPoint) {
    o.hash in index &&
    match m.env.read(index[o.hash].pos)
    case Some(tx) => o.n < |tx.vout|
    case None => false
  }

  /** An input that is neither in the chain nor in the memory pool. */
  predicate Missing(m: Miner, index: Index, o: OutPoint) { !OnDisk(m, index, o) && o.hash !in m.env.mempool }

  /** An input that another pool transaction has to supply. */
  predicate FromPool(m: Miner, index: Index, o: OutPoint) { !OnDisk(m, index, o) && o.hash in m.env.mempool }

  predicate AllPresent(m: Miner, index: Index, tx: Tx) { forall o | o in tx.vin :: !Missing(m, index, o) }

  /** A transaction that may go into a block once its parents are there. */
  predicate Candidate(m: Miner, index: Index, h: Hash) {
    h in m.env.mempool &&
    var tx := m.env.mempool[h];
    !tx.IsCoinBase() && !tx.IsCoinStake() && m.isFinal(tx) && AllPresent(m, index, tx)
  }

  /** What the memory pool promises: checked transactions that are not in the
      chain, and outputs that exist. */
  ghost predicate Closed(m: Miner, index: Index) {
    forall h | h in m.env.mempool ::
      var tx := m.env.mempool[h];
      && tx.hash == h && h !in index && tx.nSize > 0 && OutputsInRange(tx)
      && (forall o | o in tx.vin && FromPool(m, index, o) :: o.n < |m.env.mempool[o.hash].vout|)
      && NothingStale(m, index, tx)
  }

  /** No input that waits comes before the first missing one: the note made of
      it would outlive the discarded transaction. */
  ghost predicate NothingStale(m: Miner, index: Index, tx: Tx) {
    forall i, k | 0 <= i < k < |tx.vin| && FromPool(m, index, tx.vin[i]) && Missing(m, index, tx.vin[k]) ::
      exists j | 0 <= j < i :: Missing(m, index, tx.vin[j])
  }

  /** The parents a transaction has to wait for. */
  function Deps(m: Miner, index: Index, tx: Tx): set<Hash> {
    set o | o in tx.vin && !OnDisk(m, index, o) :: o.hash
  }

  function OutValue(m: Miner, index: Index, o: OutPoint): int {
    if OnDisk(m, index, o) then m.env.read(index[o.hash].pos).value.vout[o.n].nValue
    else if o.hash in m.env.mempool && o.n < |m.env.mempool[o.hash].vout| then m.env.mempool[o.hash].vout[o.n].nValue
    else 0
  }

  function TotalIn(m: Miner, index: Index, tx: Tx, k: nat): int
    requires k <= |tx.vin|
  {
    if k == 0 then 0 else TotalIn(m, index, tx, k - 1) + OutValue(m, index, tx.vin[k - 1])
  }

  function Fee(m: Miner, index: Index, tx: Tx): int { TotalIn(m, index, tx, |tx.vin|) - ValueOut(tx) }

  /** Sum of value times age over the inputs in the chain. */
  function Age(m: Miner, index: Index, tx: Tx, k: nat): real
    requires k <= |tx.vin|
  {
    if k == 0 then 0.0 else
      Age(m, index, tx, k - 1) +
      if OnDisk(m, index, tx.vin[k - 1])
      then (OutValue(m, index, tx.vin[k - 1]) * m.depth(tx.vin[k - 1].hash)) as real
      else 0.0
  }

  datatype TxPriority = TxPriority(dPriority: real, dFeePerKb: real, hash: Hash)

  function PriorityOf(m: Miner, index: Index, tx: Tx): TxPriority
    requires tx.nSize > 0
  {
    TxPriority(Age(m, index, tx, |tx.vin|) / tx.nSize as real,
               Fee(m, index, tx) as real / (tx.nSize as real / 1000.0), tx.hash)
  }

  /** TxPriorityCompare. */
  predicate Less(byFee: bool, a: TxPriority, b: TxPriority) {
    if byFee then a.dFeePerKb < b.dFeePerKb || (a.dFeePerKb == b.dFeePerKb && a.dPriority < b.dPriority)
    else a.dPriority < b.dPriority || (a.dPriority == b.dPriority && a.dFeePerKb < b.dFeePerKb)
  }

  /** The heap's front: an entry that no other is above. */
  method PopHighest(vecPriority: seq<TxPriority>, byFee: bool) returns (top: TxPriority, rest: seq<TxPriority>)
    requires vecPriority != []
    ensures multiset(vecPriority) == multiset(rest) + multiset{top}
    ensures forall e | e in vecPriority :: !Less(byFee, top, e)
    ensures exists k | 0 <= k < |vecPriority| :: top == vecPriority[k] && rest == vecPriority[..k] + vecPriority[k + 1..]
  {
    var k := 0;
    for i := 1 to |vecPriority|
      invariant 0 <= k < i
      invariant forall j | 0 <= j < i :: !Less(byFee, vecPriority[k], vecPriority[j])
    {
      if Less(byFee, vecPriority[k], vecPriority[i]) { k := i; }
    }
    top, rest := vecPriority[k], vecPriority[..k] + vecPriority[k + 1..];
    assert vecPriority == vecPriority[..k] + [vecPriority[k]] + vecPriority[k + 1..];
  }

  /** GetMinFee for a block of the given size. */
  function BlockMinFee(nBlockSize: nat): int {
    if nBlockSize != 1 && nBlockSize >= MAX_BLOCK_SIZE_GEN / 2 then
      if nBlockSize >= MAX_BLOCK_SIZE_GEN then MAX_MONEY
      else
        var nMinFee := MIN_TX_FEE * (MAX_BLOCK_SIZE_GEN / (MAX_BLOCK_SIZE_GEN - nBlockSize));
        if MoneyRange(nMinFee) then nMinFee else MAX_MONEY
    else MIN_TX_FEE
  }

  function ClampMax(nBlockMaxSize: nat): nat {
    var capped := if nBlockMaxSize < MAX_BLOCK_SIZE - 1000 then nBlockMaxSize else MAX_BLOCK_SIZE - 1000;
    if capped < 1000 then 1000 else capped
  }

  function Min(a: nat, b: nat): nat { if a < b then a else b }

  // --------------------------------------------------------------------- the template

  function SizeSum(vtx: seq<Tx>): nat {
    if vtx == [] then 0 else SizeSum(vtx[..|vtx| - 1]) + vtx[|vtx| - 1].nSize
  }

  function FeeSum(m: Miner, index: Index, vtx: seq<Tx>): int {
    if vtx == [] then 0 else FeeSum(m, index, vtx[..|vtx| - 1]) + Fee(m, index, vtx[|vtx| - 1])
  }

  datatype Template = Template(vtx: seq<Tx>, pool: Index, nBlockSize: nat, nBlockSigOps: nat, nFees: int)

  /** What holds of the transactions chosen so far. */
  ghost predicate Sound(m: Miner, index: Index, t: Template) {
    && Chosen(m, index, t.vtx) && UniqueTx(t.vtx)
    && Spends(index, t.vtx, index + t.pool) && InOrder(index, t.vtx)
    && t.nBlockSize == 1000 + SizeSum(t.vtx) && (t.vtx != [] ==> t.nBlockSize < ClampMax(m.nBlockMaxSize))
    && 100 + SigOps(t.vtx) <= t.nBlockSigOps < MAX_BLOCK_SIGOPS
    && t.nFees == FeeSum(m, index, t.vtx)
    && FeesPaid(m, index, t.vtx)
  }

  /** All are candidates from the memory pool. */
  ghost predicate Chosen(m: Miner, index: Index, vtx: seq<Tx>) {
    forall k | 0 <= k < |vtx| :: Candidate(m, index, vtx[k].hash) && m.env.mempool[vtx[k].hash] == vtx[k]
  }

  /** Each pays the fee for the size the block had when it came. */
  ghost predicate FeesPaid(m: Miner, index: Index, vtx: seq<Tx>) {
    forall k | 0 <= k < |vtx| :: FeePaid(m, index, vtx, k)
  }

  ghost predicate FeePaid(m: Miner, index: Index, vtx: seq<Tx>, k: nat)
    requires k < |vtx|
  {
    Fee(m, index, vtx[k]) >= BlockMinFee(1000 + SizeSum(vtx[..k]))
  }

  lemma SoundStart(m: Miner, index: Index)
    ensures Sound(m, index, Template([], map[], 1000, 100, 0))
  {
    SpendsNothing(index);
    assert index + map[] == index;
  }

  lemma BaseEntries(m: Miner, index: Index, vtx: seq<Tx>, h: Hash)
    requires forall k | 0 <= k < |vtx| :: vtx[k].hash !in index
    requires h in Base(index, vtx)
    ensures if h in index then Base(index, vtx)[h] == index[h] else Base(index, vtx)[h].pos == MEMPOOL_POS
  {
    if vtx != [] {
      var n := |vtx| - 1;
      if h != vtx[n].hash { BaseEntries(m, index, vtx[..n], h); }
    }
  }

  /** Inputs fetched for the template have the value they have in the chain or the pool. */
  lemma FetchedWorth(m: Miner, index: Index, vtx: seq<Tx>, pool: Index, tx: Tx, o: OutPoint)
    requires Closed(m, index) && IndexOk(m.env, index) && tx.hash in m.env.mempool && m.env.mempool[tx.hash] == tx
    requires forall k | 0 <= k < |vtx| :: vtx[k].hash in m.env.mempool
    requires Spends(index, vtx, index + pool)
    requires !tx.IsCoinBase() && AllInRange(tx, Fetched(m.env, index, pool, false, true, tx)) && o in tx.vin
    ensures Worth(Fetched(m.env, index, pool, false, true, tx), o) == OutValue(m, index, o)
  {
    hide OutputsInRange, AllUnspent, NoRepeat;
    var inputs := Fetched(m.env, index, pool, false, true, tx);
    assert InRange(inputs, o);
    FetchedIsCurrent(m.env, index, pool, false, true, tx);
    BaseEntries(m, index, vtx, o.hash);
    if o.hash in index { assert Stored(m.env, o.hash, index[o.hash]); }
    SameTx(m, index, vtx, pool, tx, o);
  }

  lemma SameTx(m: Miner, index: Index, vtx: seq<Tx>, pool: Index, tx: Tx, o: OutPoint)
    requires Closed(m, index)
    requires tx.hash in m.env.mempool && m.env.mempool[tx.hash] == tx && o in tx.vin && !tx.IsCoinBase()
    requires o.hash in Fetched(m.env, index, pool, false, true, tx)
    requires o.hash in index + pool
    requires if o.hash in index then (index + pool)[o.hash].pos == index[o.hash].pos != MEMPOOL_POS
             else (index + pool)[o.hash].pos == MEMPOOL_POS
    ensures var prev := Fetched(m.env, index, pool, false, true, tx)[o.hash].tx;
      o.n < |prev.vout| ==> prev.vout[o.n].nValue == OutValue(m, index, o)
  {
    hide OutputsInRange;
    var prev := Fetched(m.env, index, pool, false, true, tx)[o.hash];
    assert FetchOne(m.env, index, pool, false, true, o.hash) == Some(prev);
    assert o.hash in m.env.mempool ==> o.hash !in index;
  }

  lemma {:induction false} ValueInIs(m: Miner, index: Index, vtx: seq<Tx>, pool: Index, tx: Tx, k: nat)
    requires Closed(m, index) && IndexOk(m.env, index) && tx.hash in m.env.mempool && m.env.mempool[tx.hash] == tx
    requires forall k | 0 <= k < |vtx| :: vtx[k].hash in m.env.mempool
    requires Spends(index, vtx, index + pool) && k <= |tx.vin|
    requires !tx.IsCoinBase() && AllInRange(tx, Fetched(m.env, index, pool, false, true, tx))
    ensures ValueIn(Fetched(m.env, index, pool, false, true, tx), tx, k) == TotalIn(m, index, tx, k)
  {
    hide Closed, IndexOk, Spends, AllInRange, Fetched, Worth, OutValue;
    if k > 0 {
      ValueInIs(m, index, vtx, pool, tx, k - 1);
      FetchedWorth(m, index, vtx, pool, tx, tx.vin[k - 1]);
    }
  }

  /** The transaction passes everything from fetching its inputs on. */
  predicate Connects(m: Miner, index: Index, t: Template, tx: Tx) {
    var inputs := Fetched(m.env, index, t.pool, false, true, tx);
    && AllInRange(tx, inputs)
    && ValueIn(inputs, tx, |tx.vin|) - ValueOut(tx) >= BlockMinFee(t.nBlockSize)
    && t.nBlockSigOps + tx.nSigOps + m.env.p2shSigOps(tx, Parents(inputs)) < MAX_BLOCK_SIGOPS
    && Connected(m.env, tx, inputs, t.pool, MEMPOOL_POS, false, true).0 == Done
  }

  method Connect(m: Miner, txdb: TxDB, t: Template, tx: Tx) returns (added: bool, t': Template)
    requires Closed(m, txdb.index) && IndexOk(m.env, txdb.index) && Sound(m, txdb.index, t)
    requires Candidate(m, txdb.index, tx.hash) && m.env.mempool[tx.hash] == tx && tx.hash !in Hashes(t.vtx)
    requires t.nBlockSize + tx.nSize < ClampMax(m.nBlockMaxSize)
    ensures added <==> Connects(m, txdb.index, t, tx)
    ensures if added then t'.vtx == t.vtx + [tx] && Sound(m, txdb.index, t') else t' == t
    ensures added ==> t'.nBlockSigOps == t.nBlockSigOps + tx.nSigOps +
                      m.env.p2shSigOps(tx, Parents(Fetched(m.env, txdb.index, t.pool, false, true, tx)))
  {
    hide Closed, IndexOk, Sound, Fetched, Connected, OutputsInRange, BlockMinFee, AllInRange, AllFound, ValueIn;
    t' := t;
    ClosedTx(m, txdb.index, tx.hash);
    var found, mapInputs, fInvalid := FetchInputs(m.env, txdb, t.pool, false, true, tx);
    if !found { return false, t; }
    var nValueIn := ConnectBlock.GetValueIn(mapInputs, tx);
    var nTxFees := nValueIn - ValueOut(tx);
    if nTxFees < BlockMinFee(t.nBlockSize) { return false, t; }
    var nTxSigOps := tx.nSigOps + m.env.p2shSigOps(tx, Parents(mapInputs));
    if t.nBlockSigOps + nTxSigOps >= MAX_BLOCK_SIGOPS { return false, t; }
    RangeIsFound(tx, mapInputs);
    var connected, pool, used := ConnectInputs(m.env, tx, mapInputs, t.pool, MEMPOOL_POS, false, true);
    if !connected { return false, t; }
    t' := Template(t.vtx + [tx], pool[tx.hash := NewEntry(MEMPOOL_POS, |tx.vout|)], t.nBlockSize + tx.nSize,
                   t.nBlockSigOps + nTxSigOps, t.nFees + nTxFees);
    Extend(m, txdb.index, t, tx, pool, nTxSigOps, nTxFees);
    added := true;
  }

  lemma RangeIsFound(tx: Tx, inputs: PrevTxs)
    requires AllInRange(tx, inputs)
    ensures AllFound(tx, inputs)
  {
    forall o | o in tx.vin ensures o.hash in inputs { assert InRange(inputs, o); }
  }

  lemma ClosedTx(m: Miner, index: Index, h: Hash)
    requires Closed(m, index) && h in m.env.mempool
    ensures var tx := m.env.mempool[h]; tx.hash == h && h !in index && tx.nSize > 0 && OutputsInRange(tx)
  {
    hide OutputsInRange;
  }

  lemma Extend(m: Miner, index: Index, t: Template, tx: Tx, pool: Index, nTxSigOps: nat, nTxFees: int)
    requires Closed(m, index) && IndexOk(m.env, index) && Sound(m, index, t)
    requires Candidate(m, index, tx.hash) && m.env.mempool[tx.hash] == tx && tx.hash !in Hashes(t.vtx)
    requires t.nBlockSize + tx.nSize < ClampMax(m.nBlockMaxSize)
    requires tx.nSigOps <= nTxSigOps && t.nBlockSigOps + nTxSigOps < MAX_BLOCK_SIGOPS
    requires var inputs := Fetched(m.env, index, t.pool, false, true, tx);
      && AllInRange(tx, inputs) && Connected(m.env, tx, inputs, t.pool, MEMPOOL_POS, false, true) == (Done, pool)
      && nTxFees == ValueIn(inputs, tx, |tx.vin|) - ValueOut(tx) >= BlockMinFee(t.nBlockSize)
    ensures Sound(m, index, Template(t.vtx + [tx], pool[tx.hash := NewEntry(MEMPOOL_POS, |tx.vout|)],
                                     t.nBlockSize + tx.nSize, t.nBlockSigOps + nTxSigOps, t.nFees + nTxFees))
  {
    hide Closed, IndexOk, Fetched, Connected, OutputsInRange, BlockMinFee, AllInRange, Spends, InOrder, ValueIn, Fee,
         UniqueTx, Hashes, ClampMax, Candidate, Chosen, FeesPaid;
    var vtx := t.vtx + [tx];
    ChosenMore(m, index, t.vtx, tx);
    ClosedTx(m, index, tx.hash);
    ExtendPool(m, index, t.vtx, t.pool, tx, pool);
    assert vtx[..|t.vtx|] == t.vtx;
    NewIsUnique(t.vtx, tx);
    FeesMore(m, index, t.vtx, tx);
  }

  lemma ExtendPool(m: Miner, index: Index, vtx: seq<Tx>, before: Index, tx: Tx, pool: Index)
    requires Closed(m, index) && IndexOk(m.env, index) && Spends(index, vtx, index + before) && InOrder(index, vtx)
    requires forall k | 0 <= k < |vtx| :: vtx[k].hash in m.env.mempool
    requires tx.hash in m.env.mempool && m.env.mempool[tx.hash] == tx && tx.hash !in Hashes(vtx) && !tx.IsCoinBase()
    requires var inputs := Fetched(m.env, index, before, false, true, tx);
      AllInRange(tx, inputs) && Connected(m.env, tx, inputs, before, MEMPOOL_POS, false, true) == (Done, pool)
    ensures Spends(index, vtx + [tx], index + pool[tx.hash := NewEntry(MEMPOOL_POS, |tx.vout|)])
    ensures InOrder(index, vtx + [tx])
    ensures ValueIn(Fetched(m.env, index, before, false, true, tx), tx, |tx.vin|) - ValueOut(tx) == Fee(m, index, tx)
  {
    hide Closed, IndexOk, Fetched, Connected, AllInRange, Spends, InOrder, ValueIn, TotalIn, Spendable, Mark, Current,
         AllUnspent, Hashes, Base;
    ClosedTx(m, index, tx.hash);
    FetchedIsCurrent(m.env, index, before, false, true, tx);
    ConnectedIsMark(m.env, tx, Fetched(m.env, index, before, false, true, tx), index, before, MEMPOOL_POS, false, true);
    Merge(index, pool, tx.hash, NewEntry(MEMPOOL_POS, |tx.vout|));
    SpendsMore(index, vtx, index + before, tx);
    InOrderMore(index, vtx, tx);
    ValueInIs(m, index, vtx, before, tx, |tx.vin|);
  }

  lemma ChosenMore(m: Miner, index: Index, vtx: seq<Tx>, tx: Tx)
    requires Chosen(m, index, vtx) && Candidate(m, index, tx.hash) && m.env.mempool[tx.hash] == tx
    ensures Chosen(m, index, vtx + [tx]) && tx.hash in m.env.mempool && !tx.IsCoinBase()
    ensures forall k | 0 <= k < |vtx| :: vtx[k].hash in m.env.mempool
  {
  }

  lemma FeesMore(m: Miner, index: Index, vtx: seq<Tx>, tx: Tx)
    requires FeesPaid(m, index, vtx) && Fee(m, index, tx) >= BlockMinFee(1000 + SizeSum(vtx))
    ensures FeesPaid(m, index, vtx + [tx])
  {
    hide Fee, BlockMinFee, SizeSum, FeePaid;
    var more := vtx + [tx];
    forall k | 0 <= k < |more| ensures FeePaid(m, index, more, k) {
      FeePaidSame(m, index, vtx, tx, k);
    }
  }

  lemma FeePaidSame(m: Miner, index: Index, vtx: seq<Tx>, tx: Tx, k: nat)
    requires k <= |vtx| && (k < |vtx| ==> FeePaid(m, index, vtx, k))
    requires Fee(m, index, tx) >= BlockMinFee(1000 + SizeSum(vtx))
    ensures FeePaid(m, index, vtx + [tx], k)
  {
    hide Fee, BlockMinFee, SizeSum;
    assert (vtx + [tx])[..k] == vtx[..k];
    assert vtx[..|vtx|] == vtx;
  }

  lemma NewIsUnique(vtx: seq<Tx>, tx: Tx)
    requires UniqueTx(vtx) && tx.hash !in Hashes(vtx)
    ensures UniqueTx(vtx + [tx])
  {
    var more := vtx + [tx];
    forall i, j | 0 <= i < j < |more| ensures more[i].hash != more[j].hash {
      if j == |vtx| {
        var u := vtx[i];
        assert u in vtx && u.hash in Hashes(vtx);
      }
    }
  }
}
