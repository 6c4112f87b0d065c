// The transaction index: which outputs are spent, and the steps that fetch,
// spend and give back the inputs of one transaction (main.cpp).
module TxIndex {
  import opened HashType
  import opened Options
  import opened Transactions

  /** Where a transaction is stored; Null is the mark of an unspent output. */
  datatype DiskTxPos = Null | At(nFile: nat, nBlockPos: nat, nTxPos: nat)

  /** The position that stands for "look in the memory pool". */
  const MEMPOOL_POS: DiskTxPos := At(1, 1, 1)

  datatype TxEntry = TxEntry(pos: DiskTxPos, vSpent: seq<DiskTxPos>)

  type Index = map<Hash, TxEntry>

  datatype PrevTx = PrevTx(entry: TxEntry, tx: Tx)

  type PrevTxs = map<Hash, PrevTx>

  datatype ChainBlock = ChainBlock(nFile: nat, nBlockPos: nat, nHeight: int)

  /** What the code asks of its surroundings: block files, memory pool, script
      and fee rules, and the chain that ends in the block at hand. */
  datatype Env = Env(
    read: DiskTxPos -> Option<Tx>,
    mempool: map<Hash, Tx>,
    verifySignature: (Tx, Tx, nat) -> bool,
    minFee: Tx -> int,
    p2shSigOps: (Tx, map<Hash, Tx>) -> nat,
    belowCheckpoint: bool,
    chain: seq<ChainBlock>,
    coinbaseMaturity: int)

  function Unspents(n: nat): seq<DiskTxPos> { seq(n, _ => Null) }

  function NewEntry(pos: DiskTxPos, n: nat): TxEntry { TxEntry(pos, Unspents(n)) }

  class TxDB {
    var index: Index

    constructor ()
      ensures index == map[]
    {
      index := map[];
    }

    method ReadTxIndex(hash: Hash) returns (entry: Option<TxEntry>)
      ensures entry == if hash in index then Some(index[hash]) else None
    {
      entry := if hash in index then Some(index[hash]) else None;
    }

    method UpdateTxIndex(hash: Hash, entry: TxEntry)
      modifies this
      ensures index == old(index)[hash := entry]
    {
      index := index[hash := entry];
    }

    method EraseTxIndex(hash: Hash)
      modifies this
      ensures index == old(index) - {hash}
    {
      index := index - {hash};
    }
  }

  // -------------------------------------------------------------------- fetching

  /** The index entry and the transaction behind a hash, if both are found. */
  function FetchOne(env: Env, index: Index, pool: Index, fBlock: bool, fMiner: bool, hash: Hash): Option<PrevTx> {
    var entry :=
      if (fBlock || fMiner) && hash in pool then Some(pool[hash])
      else if hash in index then Some(index[hash])
      else None;
    if entry.None? && (fBlock || fMiner) then None
    else if entry.None? || entry.value.pos == MEMPOOL_POS then
      if hash !in env.mempool then None
      else
        var prev := env.mempool[hash];
        Some(PrevTx(if entry.None? then NewEntry(Null, |prev.vout|) else entry.value, prev))
    else
      match env.read(entry.value.pos)
      case Some(prev) => Some(PrevTx(entry.value, prev))
      case None => None
  }

  function PrevHashes(tx: Tx): set<Hash> { set o | o in tx.vin :: o.hash }

  function Fetched(env: Env, index: Index, pool: Index, fBlock: bool, fMiner: bool, tx: Tx): PrevTxs {
    if tx.IsCoinBase() then map[] else
      map h | h in PrevHashes(tx) && FetchOne(env, index, pool, fBlock, fMiner, h).Some? ::
        FetchOne(env, index, pool, fBlock, fMiner, h).value
  }

  /** The transactions behind the inputs, whatever is spent of them. */
  function Parents(inputs: PrevTxs): map<Hash, Tx> { map h | h in inputs :: inputs[h].tx }

  predicate InRange(inputs: PrevTxs, o: OutPoint) {
    o.hash in inputs && o.n < |inputs[o.hash].tx.vout| && o.n < |inputs[o.hash].entry.vSpent|
  }

  /** Every input's transaction is found and has the output the input names. */
  predicate AllFound(tx: Tx, inputs: PrevTxs) { forall o | o in tx.vin :: o.hash in inputs }

  predicate AllInRange(tx: Tx, inputs: PrevTxs) { forall o | o in tx.vin :: InRange(inputs, o) }

  /** One round of the first loop of FetchInputs. */
  method FetchInput(env: Env, txdb: TxDB, mapTestPool: Index, fBlock: bool, fMiner: bool, hash: Hash)
    returns (prev: Option<PrevTx>)
    ensures prev == FetchOne(env, txdb.index, mapTestPool, fBlock, fMiner, hash)
  {
    var entry: Option<TxEntry>;
    if (fBlock || fMiner) && hash in mapTestPool {
      entry := Some(mapTestPool[hash]);
    } else {
      entry := txdb.ReadTxIndex(hash);
    }
    if entry.None? && (fBlock || fMiner) { return None; }
    if entry.None? || entry.value.pos == MEMPOOL_POS {
      if hash !in env.mempool { return None; }
      var tx := env.mempool[hash];
      var txindex := if entry.None? then NewEntry(Null, |tx.vout|) else entry.value;
      prev := Some(PrevTx(txindex, tx));
    } else {
      var tx := env.read(entry.value.pos);
      prev := if tx.None? then None else Some(PrevTx(entry.value, tx.value));
    }
  }

  method FetchInputs(env: Env, txdb: TxDB, mapTestPool: Index, fBlock: bool, fMiner: bool, tx: Tx)
    returns (ok: bool, inputsRet: PrevTxs, fInvalid: bool)
    ensures var inputs := Fetched(env, txdb.index, mapTestPool, fBlock, fMiner, tx);
      && (ok <==> tx.IsCoinBase() || AllInRange(tx, inputs))
      && (ok ==> inputsRet == inputs)
      && (fInvalid <==> !tx.IsCoinBase() && AllFound(tx, inputs) && !AllInRange(tx, inputs))
  {
    hide FetchOne;
    fInvalid, inputsRet := false, map[];
    if tx.IsCoinBase() { return true, map[], false; }
    ghost var inputs := Fetched(env, txdb.index, mapTestPool, fBlock, fMiner, tx);
    for i := 0 to |tx.vin|
      invariant forall k | 0 <= k < i :: tx.vin[k].hash in inputsRet
      invariant forall h | h in inputsRet :: h in inputs && inputsRet[h] == inputs[h]
    {
      var prevout := tx.vin[i];
      assert prevout in tx.vin && prevout.hash in PrevHashes(tx);
      if prevout.hash in inputsRet { continue; }
      var prev := FetchInput(env, txdb, mapTestPool, fBlock, fMiner, prevout.hash);
      if prev.None? {
        assert prevout.hash !in inputs;
        return false, inputsRet, false;
      }
      inputsRet := inputsRet[prevout.hash := prev.value];
    }
    forall h | h in inputs ensures h in inputsRet {
      assert h in PrevHashes(tx);
      var o :| o in tx.vin && o.hash == h;
    }
    assert forall h | h in inputsRet :: h in inputs;
    assert forall h | h in inputs :: h in inputsRet;
    assert forall h | h in inputs :: inputsRet[h] == inputs[h];
    assert inputsRet == inputs;
    for i := 0 to |tx.vin|
      invariant forall k | 0 <= k < i :: InRange(inputsRet, tx.vin[k])
    {
      var prevout := tx.vin[i];
      assert prevout in tx.vin;
      if !InRange(inputsRet, prevout) { return false, inputsRet, true; }
    }
    ok := true;
  }

  // -------------------------------------------------------------------- spending

  function Worth(inputs: PrevTxs, o: OutPoint): int {
    if InRange(inputs, o) then inputs[o.hash].tx.vout[o.n].nValue else 0
  }

  /** The value of the first k inputs. */
  function ValueIn(inputs: PrevTxs, tx: Tx, k: nat): int
    requires k <= |tx.vin|
  {
    if k == 0 then 0 else ValueIn(inputs, tx, k - 1) + Worth(inputs, tx.vin[k - 1])
  }

  /** The position lies in one of the youngest blocks of the chain. */
  predicate TooYoung(chain: seq<ChainBlock>, top: int, maturity: int, pos: DiskTxPos) {
    chain != [] && top - chain[0].nHeight < maturity &&
    ((pos.At? && chain[0].nBlockPos == pos.nBlockPos && chain[0].nFile == pos.nFile) ||
     TooYoung(chain[1..], top, maturity, pos))
  }

  method IsTooYoung(env: Env, pos: DiskTxPos) returns (young: bool)
    requires env.chain != []
    ensures young == TooYoung(env.chain, env.chain[0].nHeight, env.coinbaseMaturity, pos)
  {
    var pindex, top := env.chain, env.chain[0].nHeight;
    while pindex != [] && top - pindex[0].nHeight < env.coinbaseMaturity
      invariant TooYoung(env.chain, top, env.coinbaseMaturity, pos) ==
                TooYoung(pindex, top, env.coinbaseMaturity, pos)
      decreases |pindex|
    {
      if pos.At? && pindex[0].nBlockPos == pos.nBlockPos && pindex[0].nFile == pos.nFile { return true; }
      pindex := pindex[1..];
    }
    young := false;
  }

  /** The inexpensive checks on input i; they come before any signature. */
  predicate InputPasses(env: Env, tx: Tx, inputs: PrevTxs, i: nat)
    requires i < |tx.vin|
  {
    && InRange(inputs, tx.vin[i])
    && (var prev := inputs[tx.vin[i].hash];
        && ((prev.tx.IsCoinBase() || prev.tx.IsCoinStake()) && env.chain != [] ==>
              !TooYoung(env.chain, env.chain[0].nHeight, env.coinbaseMaturity, prev.entry.pos))
        && prev.tx.nTime <= tx.nTime)
    && MoneyRange(Worth(inputs, tx.vin[i])) && MoneyRange(ValueIn(inputs, tx, i + 1))
  }

  predicate InputsPass(env: Env, tx: Tx, inputs: PrevTxs) {
    forall i | 0 <= i < |tx.vin| :: InputPasses(env, tx, inputs, i)
  }

  datatype Outcome = Done | Rejected | AlreadyUsed

  datatype Spending = Spending(outcome: Outcome, inputs: PrevTxs, pool: Index)

  /** Marks the first k inputs as spent by pos, up to the first that cannot be. */
  function Spend(env: Env, tx: Tx, inputs: PrevTxs, pool: Index, pos: DiskTxPos, fBlock: bool, fMiner: bool, k: nat)
    : Spending
    requires k <= |tx.vin|
  {
    if k == 0 then Spending(Done, inputs, pool) else
      var s := Spend(env, tx, inputs, pool, pos, fBlock, fMiner, k - 1);
      var o := tx.vin[k - 1];
      if s.outcome != Done then s
      else if !InRange(s.inputs, o) then s.(outcome := Rejected)
      else if s.inputs[o.hash].entry.vSpent[o.n] != Null then s.(outcome := AlreadyUsed)
      else if !(fBlock && env.belowCheckpoint) && !env.verifySignature(s.inputs[o.hash].tx, tx, k - 1) then
        s.(outcome := Rejected)
      else
        var prev := s.inputs[o.hash];
        var entry := prev.entry.(vSpent := prev.entry.vSpent[o.n := pos]);
        Spending(Done, s.inputs[o.hash := prev.(entry := entry)],
                 if fBlock || fMiner then s.pool[o.hash := entry] else s.pool)
  }

  /** A transaction other than a coinstake gives no more than it takes and pays the fee. */
  predicate FeeOk(env: Env, tx: Tx, inputs: PrevTxs) {
    tx.IsCoinStake() ||
    (var fee := ValueIn(inputs, tx, |tx.vin|) - ValueOut(tx);
     0 <= fee && env.minFee(tx) <= fee && MoneyRange(fee))
  }

  function Connected(env: Env, tx: Tx, inputs: PrevTxs, pool: Index, pos: DiskTxPos, fBlock: bool, fMiner: bool)
    : (Outcome, Index)
  {
    if tx.IsCoinBase() then (Done, pool)
    else if !InputsPass(env, tx, inputs) then (Rejected, pool)
    else
      var s := Spend(env, tx, inputs, pool, pos, fBlock, fMiner, |tx.vin|);
      (if s.outcome == Done && !FeeOk(env, tx, inputs) then Rejected else s.outcome, s.pool)
  }

  method ConnectInputs(env: Env, tx: Tx, inputs: PrevTxs, mapTestPool: Index, posThisTx: DiskTxPos,
                       fBlock: bool, fMiner: bool)
    returns (ok: bool, pool: Index, txAlreadyUsed: bool)
    requires !tx.IsCoinBase() ==> AllFound(tx, inputs)
    requires OutputsInRange(tx)
    ensures var c := Connected(env, tx, inputs, mapTestPool, posThisTx, fBlock, fMiner);
      && pool == c.1
      && (ok <==> c.0 == Done)
      && (txAlreadyUsed <==> c.0 == AlreadyUsed)
  {
    hide Spend;
    pool := mapTestPool;
    if tx.IsCoinBase() { return true, pool, false; }
    var passes, nValueIn := CheckInputs(env, tx, inputs);
    if !passes { return false, pool, false; }
    var spent;
    spent, pool, txAlreadyUsed := SpendInputs(env, tx, inputs, pool, posThisTx, fBlock, fMiner);
    if !spent { return false, pool, txAlreadyUsed; }
    if !tx.IsCoinStake() {
      if nValueIn < ValueOut(tx) { return false, pool, false; }
      var nTxFee := nValueIn - ValueOut(tx);
      if nTxFee < env.minFee(tx) { return false, pool, false; }
      if !MoneyRange(nTxFee) { return false, pool, false; }
    }
    ok := true;
  }

  /** The first loop of ConnectInputs. */
  method CheckInputs(env: Env, tx: Tx, inputs: PrevTxs) returns (ok: bool, nValueIn: int)
    requires AllFound(tx, inputs)
    ensures ok <==> InputsPass(env, tx, inputs)
    ensures ok ==> nValueIn == ValueIn(inputs, tx, |tx.vin|) && AllInRange(tx, inputs)
  {
    hide TooYoung;
    nValueIn := 0;
    for i := 0 to |tx.vin|
      invariant nValueIn == ValueIn(inputs, tx, i)
      invariant forall k | 0 <= k < i :: InputPasses(env, tx, inputs, k)
    {
      var prevout := tx.vin[i];
      assert prevout in tx.vin;
      var prev := inputs[prevout.hash];
      ghost var passes := InputPasses(env, tx, inputs, i);
      if prevout.n >= |prev.tx.vout| || prevout.n >= |prev.entry.vSpent| {
        assert !passes;
        return false, nValueIn;
      }
      if (prev.tx.IsCoinBase() || prev.tx.IsCoinStake()) && env.chain != [] {
        var young := IsTooYoung(env, prev.entry.pos);
        if young {
          assert !passes;
          return false, nValueIn;
        }
      }
      if prev.tx.nTime > tx.nTime {
        assert !passes;
        return false, nValueIn;
      }
      nValueIn := nValueIn + prev.tx.vout[prevout.n].nValue;
      if !MoneyRange(prev.tx.vout[prevout.n].nValue) || !MoneyRange(nValueIn) {
        assert !passes;
        return false, nValueIn;
      }
      assert passes;
    }
    ok := true;
    assert forall i | 0 <= i < |tx.vin| :: InputPasses(env, tx, inputs, i) ==> InRange(inputs, tx.vin[i]);
  }

  /** The second loop of ConnectInputs. */
  method SpendInputs(env: Env, tx: Tx, inputs: PrevTxs, mapTestPool: Index, posThisTx: DiskTxPos,
                     fBlock: bool, fMiner: bool)
    returns (ok: bool, pool: Index, txAlreadyUsed: bool)
    requires AllInRange(tx, inputs)
    ensures var s := Spend(env, tx, inputs, mapTestPool, posThisTx, fBlock, fMiner, |tx.vin|);
      && pool == s.pool
      && (ok <==> s.outcome == Done)
      && (txAlreadyUsed <==> s.outcome == AlreadyUsed)
  {
    hide Spend;
    SpendNone(env, tx, inputs, mapTestPool, posThisTx, fBlock, fMiner);
    pool := mapTestPool;
    var updated := inputs;
    for i := 0 to |tx.vin|
      invariant AllInRange(tx, updated)
      invariant Spend(env, tx, inputs, mapTestPool, posThisTx, fBlock, fMiner, i) == Spending(Done, updated, pool)
    {
      var prevout := tx.vin[i];
      assert prevout in tx.vin;
      var prev := updated[prevout.hash];
      SpendRound(env, tx, inputs, mapTestPool, posThisTx, fBlock, fMiner, i, updated, pool);
      if prev.entry.vSpent[prevout.n] != Null {
        SpendStops(env, tx, inputs, mapTestPool, posThisTx, fBlock, fMiner, i + 1, |tx.vin|);
        return false, pool, true;
      }
      if !(fBlock && env.belowCheckpoint) && !env.verifySignature(prev.tx, tx, i) {
        SpendStops(env, tx, inputs, mapTestPool, posThisTx, fBlock, fMiner, i + 1, |tx.vin|);
        return false, pool, false;
      }
      var entry := prev.entry.(vSpent := prev.entry.vSpent[prevout.n := posThisTx]);
      updated := updated[prevout.hash := prev.(entry := entry)];
      if fBlock || fMiner { pool := pool[prevout.hash := entry]; }
    }
    return true, pool, false;
  }

  lemma SpendNone(env: Env, tx: Tx, inputs: PrevTxs, pool: Index, pos: DiskTxPos, fBlock: bool, fMiner: bool)
    ensures Spend(env, tx, inputs, pool, pos, fBlock, fMiner, 0) == Spending(Done, inputs, pool)
  {
  }

  lemma SpendRound(env: Env, tx: Tx, inputs: PrevTxs, pool: Index, pos: DiskTxPos, fBlock: bool, fMiner: bool, i: nat,
                 updated: PrevTxs, p: Index)
    requires i < |tx.vin| && AllInRange(tx, updated)
    requires Spend(env, tx, inputs, pool, pos, fBlock, fMiner, i) == Spending(Done, updated, p)
    ensures var s := Spend(env, tx, inputs, pool, pos, fBlock, fMiner, i + 1);
      var o := tx.vin[i];
      var prev := updated[o.hash];
      var entry := prev.entry.(vSpent := prev.entry.vSpent[o.n := pos]);
      if prev.entry.vSpent[o.n] != Null then s.pool == p && s.outcome == AlreadyUsed
      else if !(fBlock && env.belowCheckpoint) && !env.verifySignature(prev.tx, tx, i) then
        s.pool == p && s.outcome == Rejected
      else
        && s == Spending(Done, updated[o.hash := prev.(entry := entry)],
                         if fBlock || fMiner then p[o.hash := entry] else p)
        && AllInRange(tx, s.inputs)
  {
    assert InRange(updated, tx.vin[i]);
  }

  /** Nothing more happens after the first input that cannot be spent. */
  lemma {:induction false} SpendStops(env: Env, tx: Tx, inputs: PrevTxs, pool: Index, pos: DiskTxPos,
                                      fBlock: bool, fMiner: bool, i: nat, k: nat)
    requires i <= k <= |tx.vin|
    requires Spend(env, tx, inputs, pool, pos, fBlock, fMiner, i).outcome != Done
    ensures Spend(env, tx, inputs, pool, pos, fBlock, fMiner, k) == Spend(env, tx, inputs, pool, pos, fBlock, fMiner, i)
    decreases k
  {
    if i < k { SpendStops(env, tx, inputs, pool, pos, fBlock, fMiner, i, k - 1); }
  }

  // ---------------------------------------------------------------- giving back

  datatype Undo = Undo(ok: bool, index: Index)

  /** Marks the outputs of the first k inputs as not spent. */
  function Unspend(index: Index, tx: Tx, k: nat): Undo
    requires k <= |tx.vin|
  {
    if k == 0 then Undo(true, index) else
      var u := Unspend(index, tx, k - 1);
      var o := tx.vin[k - 1];
      if !u.ok || o.hash !in u.index || o.n >= |u.index[o.hash].vSpent| then u.(ok := false)
      else
        var entry := u.index[o.hash];
        Undo(true, u.index[o.hash := entry.(vSpent := entry.vSpent[o.n := Null])])
  }

  function Disconnected(index: Index, tx: Tx): Undo {
    var u := if tx.IsCoinBase() then Undo(true, index) else Unspend(index, tx, |tx.vin|);
    if u.ok then Undo(true, u.index - {tx.hash}) else u
  }

  lemma {:induction false} UnspendStops(index: Index, tx: Tx, i: nat, k: nat)
    requires i <= k <= |tx.vin| && !Unspend(index, tx, i).ok
    ensures Unspend(index, tx, k) == Unspend(index, tx, i)
    decreases k
  {
    if i < k { UnspendStops(index, tx, i, k - 1); }
  }

  method DisconnectInputs(txdb: TxDB, tx: Tx) returns (ok: bool)
    modifies txdb
    ensures Undo(ok, txdb.index) == Disconnected(old(txdb.index), tx)
  {
    if !tx.IsCoinBase() {
      for i := 0 to |tx.vin|
        invariant Unspend(old(txdb.index), tx, i) == Undo(true, txdb.index)
      {
        var prevout := tx.vin[i];
        var txindex := txdb.ReadTxIndex(prevout.hash);
        if txindex.None? || prevout.n >= |txindex.value.vSpent| {
          UnspendStops(old(txdb.index), tx, i + 1, |tx.vin|);
          return false;
        }
        var entry := txindex.value;
        txdb.UpdateTxIndex(prevout.hash, entry.(vSpent := entry.vSpent[prevout.n := Null]));
      }
    }
    txdb.EraseTxIndex(tx.hash);
    ok := true;
  }
}
