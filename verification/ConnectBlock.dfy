// Connecting a block to the index and disconnecting it again (main.cpp).
module ConnectBlock {
  import opened Options
  import opened Transactions
  import opened TxIndex
  import Emission

  /** How a block is connected: as a check only, tolerating inputs that are
      spent already, and spending inputs at all. */
  datatype Flags = Flags(fJustCheck: bool, skipTxCheck: bool, connectInputs: bool)

  /** The running amounts of CalculateBlockAmounts, with the queued changes and
      the position of the next transaction. */
  datatype Totals = Totals(pool: Index, nFees: int, nValueIn: int, nValueOut: int, nStakeReward: int,
                           nSigOps: nat, nTxPos: nat)

  /** An entry whose outputs are all spent may be overwritten. */
  predicate FullySpent(entry: TxEntry) { forall i | 0 <= i < |entry.vSpent| :: entry.vSpent[i] != Null }

  method IsFullySpent(entry: TxEntry) returns (spent: bool)
    ensures spent == FullySpent(entry)
  {
    for i := 0 to |entry.vSpent|
      invariant forall k | 0 <= k < i :: entry.vSpent[k] != Null
    {
      if entry.vSpent[i] == Null { return false; }
    }
    spent := true;
  }

  function PosOf(nFile: nat, nBlockPos: nat, t: Totals): DiskTxPos { At(nFile, nBlockPos, t.nTxPos) }

  /** The amounts after one more transaction, if it can be connected. */
  function AddTx(env: Env, index: Index, nFile: nat, nBlockPos: nat, flags: Flags, t: Totals, tx: Tx): Option<Totals> {
    var pos := PosOf(nFile, nBlockPos, t);
    var nSigOps := t.nSigOps + tx.nSigOps;
    var nTxPos := if flags.fJustCheck then t.nTxPos else t.nTxPos + tx.nSize;
    if !flags.skipTxCheck && tx.hash in index && !FullySpent(index[tx.hash]) then None
    else if nSigOps > MAX_BLOCK_SIGOPS then None
    else if tx.IsCoinBase() then
      Some(t.(pool := t.pool[tx.hash := NewEntry(pos, |tx.vout|)], nValueOut := t.nValueOut + ValueOut(tx),
              nSigOps := nSigOps, nTxPos := nTxPos))
    else
      var inputs := Fetched(env, index, t.pool, true, false, tx);
      if !AllInRange(tx, inputs) || nSigOps + env.p2shSigOps(tx, Parents(inputs)) > MAX_BLOCK_SIGOPS then None
      else
        var c := Connected(env, tx, inputs, t.pool, pos, true, false);
        if flags.connectInputs && c.0 != Done && !(flags.skipTxCheck && c.0 == AlreadyUsed) then None
        else
          var pool := if flags.connectInputs then c.1 else t.pool;
          var nTxValueIn := ValueIn(inputs, tx, |tx.vin|);
          var nTxValueOut := ValueOut(tx);
          Some(Totals(pool[tx.hash := NewEntry(pos, |tx.vout|)],
            if tx.IsCoinStake() then t.nFees else t.nFees + nTxValueIn - nTxValueOut,
            t.nValueIn + nTxValueIn, t.nValueOut + nTxValueOut,
            if tx.IsCoinStake() then nTxValueOut - nTxValueIn else t.nStakeReward,
            nSigOps + env.p2shSigOps(tx, Parents(inputs)), nTxPos))
  }

  function Start(nTxPos: nat): Totals { Totals(map[], 0, 0, 0, 0, 0, nTxPos) }

  /** The amounts of the first k transactions. */
  function Amounts(env: Env, index: Index, nFile: nat, nBlockPos: nat, nTxPos: nat, vtx: seq<Tx>, flags: Flags, k: nat)
    : Option<Totals>
    requires k <= |vtx|
  {
    if k == 0 then Some(Start(nTxPos)) else
      match Amounts(env, index, nFile, nBlockPos, nTxPos, vtx, flags, k - 1)
      case None => None
      case Some(t) => AddTx(env, index, nFile, nBlockPos, flags, t, vtx[k - 1])
  }

  lemma {:induction false} AmountsStop(env: Env, index: Index, nFile: nat, nBlockPos: nat, nTxPos: nat,
                                       vtx: seq<Tx>, flags: Flags, i: nat, k: nat)
    requires i <= k <= |vtx| && Amounts(env, index, nFile, nBlockPos, nTxPos, vtx, flags, i).None?
    ensures Amounts(env, index, nFile, nBlockPos, nTxPos, vtx, flags, k).None?
    decreases k
  {
    hide AddTx;
    if i < k { AmountsStop(env, index, nFile, nBlockPos, nTxPos, vtx, flags, i, k - 1); }
  }

  method AddTransaction(env: Env, txdb: TxDB, nFile: nat, nBlockPos: nat, flags: Flags, t: Totals, tx: Tx)
    returns (next: Option<Totals>)
    requires OutputsInRange(tx)
    ensures next == AddTx(env, txdb.index, nFile, nBlockPos, flags, t, tx)
  {
    hide Connected, Fetched, FullySpent;
    var txindexOld := txdb.ReadTxIndex(tx.hash);
    if !flags.skipTxCheck && txindexOld.Some? {
      var spent := IsFullySpent(txindexOld.value);
      if !spent { return None; }
    }
    var nSigOps := t.nSigOps + tx.nSigOps;
    if nSigOps > MAX_BLOCK_SIGOPS { return None; }
    var posThisTx := At(nFile, nBlockPos, t.nTxPos);
    var nTxPos := t.nTxPos;
    if !flags.fJustCheck { nTxPos := nTxPos + tx.nSize; }
    var pool, nFees, nValueIn, nValueOut, nStakeReward := t.pool, t.nFees, t.nValueIn, t.nValueOut, t.nStakeReward;
    if tx.IsCoinBase() {
      nValueOut := nValueOut + ValueOut(tx);
    } else {
      var fetched, mapInputs, fInvalid := FetchInputs(env, txdb, t.pool, true, false, tx);
      if !fetched { return None; }
      nSigOps := nSigOps + env.p2shSigOps(tx, Parents(mapInputs));
      if nSigOps > MAX_BLOCK_SIGOPS { return None; }
      var nTxValueIn := GetValueIn(mapInputs, tx);
      var nTxValueOut := ValueOut(tx);
      nValueIn := nValueIn + nTxValueIn;
      nValueOut := nValueOut + nTxValueOut;
      if !tx.IsCoinStake() { nFees := nFees + nTxValueIn - nTxValueOut; }
      if tx.IsCoinStake() { nStakeReward := nTxValueOut - nTxValueIn; }
      if flags.connectInputs {
        var ok, changed, txAlreadyUsed := ConnectInputs(env, tx, mapInputs, t.pool, posThisTx, true, false);
        if !ok && !(flags.skipTxCheck && txAlreadyUsed) { return None; }
        pool := changed;
      }
    }
    next := Some(Totals(pool[tx.hash := NewEntry(posThisTx, |tx.vout|)], nFees, nValueIn, nValueOut, nStakeReward,
                        nSigOps, nTxPos));
  }

  method GetValueIn(inputs: PrevTxs, tx: Tx) returns (nResult: int)
    requires AllInRange(tx, inputs)
    ensures nResult == ValueIn(inputs, tx, |tx.vin|)
  {
    nResult := 0;
    for i := 0 to |tx.vin|
      invariant nResult == ValueIn(inputs, tx, i)
    {
      assert tx.vin[i] in tx.vin;
      nResult := nResult + inputs[tx.vin[i].hash].tx.vout[tx.vin[i].n].nValue;
    }
  }

  method CalculateBlockAmounts(env: Env, txdb: TxDB, nFile: nat, nBlockPos: nat, nTxPos: nat, vtx: seq<Tx>, flags: Flags)
    returns (totals: Option<Totals>)
    requires forall i | 0 <= i < |vtx| :: OutputsInRange(vtx[i])
    ensures totals == Amounts(env, txdb.index, nFile, nBlockPos, nTxPos, vtx, flags, |vtx|)
  {
    hide AddTx, OutputsInRange;
    totals := Some(Start(nTxPos));
    for i := 0 to |vtx|
      invariant totals.Some?
      invariant totals == Amounts(env, txdb.index, nFile, nBlockPos, nTxPos, vtx, flags, i)
    {
      totals := AddTransaction(env, txdb, nFile, nBlockPos, flags, totals.value, vtx[i]);
      if totals.None? {
        AmountsStop(env, txdb.index, nFile, nBlockPos, nTxPos, vtx, flags, i + 1, |vtx|);
        return None;
      }
    }
  }

  // -------------------------------------------------------------------- the block

  /** The part of a block index entry that connecting uses and updates. */
  class BlockIndex {
    const nFile: nat
    const nBlockPos: nat
    const nHeight: int
    const pprev: BlockIndex?
    var nMint: int
    var nMoneySupply: int

    constructor (nFile: nat, nBlockPos: nat, nHeight: int, pprev: BlockIndex?)
      ensures this.nFile == nFile && this.nBlockPos == nBlockPos && this.nHeight == nHeight && this.pprev == pprev
      ensures nMint == 0 && nMoneySupply == 0
    {
      this.nFile, this.nBlockPos, this.nHeight, this.pprev := nFile, nBlockPos, nHeight, pprev;
      nMint, nMoneySupply := 0, 0;
    }
  }

  /** Outcomes that connecting a block takes from code outside this model. */
  datatype Judgement = Judgement(
    otherBlockChecks: bool,      // CheckBlock: size, time stamps, signature, Merkle root
    initialDownload: bool,
    coinAge: Option<nat>,        // GetCoinAge of the coinstake
    paymentsOk: bool)            // masternode and developer payments

  predicate RewardOk(b: Block, nHeight: int, t: Totals, j: Judgement)
    requires b.vtx != []
  {
    if !b.IsProofOfStake() then
      !(nHeight > 17901 && ValueOut(b.vtx[0]) > Emission.GetProofOfWorkReward(t.nFees, nHeight))
    else
      j.coinAge.Some? &&
      !(nHeight > 17901 && t.nStakeReward > Emission.GetProofOfStakeReward(j.coinAge.value, t.nFees, nHeight)) &&
      j.paymentsOk
  }

  /** The money a block creates, its fees included. */
  function Minted(t: Totals): int { t.nValueOut - t.nValueIn + t.nFees }

  /** Where the transactions of a block start in its file. */
  function FirstTxPos(nBlockPos: nat, fJustCheck: bool, header: nat): nat {
    if fJustCheck then 1 else nBlockPos + header
  }

  function BlockAmounts(env: Env, index: Index, nFile: nat, nBlockPos: nat, header: nat, vtx: seq<Tx>, flags: Flags)
    : Option<Totals>
  {
    Amounts(env, index, nFile, nBlockPos, FirstTxPos(nBlockPos, flags.fJustCheck, header), vtx, flags, |vtx|)
  }

  ghost predicate Acceptable(env: Env, index: Index, b: Block, nFile: nat, nBlockPos: nat, nHeight: int,
                             supplyBefore: int, header: nat, flags: Flags, j: Judgement)
  {
    && j.otherBlockChecks && BlockOk(b)
    && (supplyBefore == 0 ==> j.initialDownload)
    && var t := BlockAmounts(env, index, nFile, nBlockPos, header, b.vtx, flags);
       t.Some? && RewardOk(b, nHeight, t.value, j)
  }

  method ConnectBlock(env: Env, txdb: TxDB, b: Block, pindex: BlockIndex, fJustCheck: bool, reorganize: bool,
                      header: nat, j: Judgement)
    returns (ok: bool)
    requires pindex.pprev != pindex
    modifies txdb, pindex
    ensures var flags := Flags(fJustCheck, reorganize, true);
      var before := if pindex.pprev == null then 0 else pindex.pprev.nMoneySupply;
      var t := BlockAmounts(env, old(txdb.index), pindex.nFile, pindex.nBlockPos, header, b.vtx, flags);
      && (ok <==> Acceptable(env, old(txdb.index), b, pindex.nFile, pindex.nBlockPos, pindex.nHeight, before, header,
                             flags, j))
      && (ok ==> pindex.nMint == Minted(t.value) &&
                 pindex.nMoneySupply == before + t.value.nValueOut - t.value.nValueIn)
      && txdb.index == if ok && !fJustCheck then old(txdb.index) + t.value.pool else old(txdb.index)
  {
    hide Amounts, TransactionOk, UniqueTx, OutputsInRange;
    var sound := CheckBlock(b, j.otherBlockChecks);
    if !sound { return false; }
    RangesOf(b);
    var flags := Flags(fJustCheck, reorganize, true);
    var amounts := CalculateBlockAmounts(env, txdb, pindex.nFile, pindex.nBlockPos,
                                         FirstTxPos(pindex.nBlockPos, fJustCheck, header), b.vtx, flags);
    if amounts.None? { return false; }
    var t := amounts.value;
    pindex.nMint := t.nValueOut - t.nValueIn + t.nFees;
    pindex.nMoneySupply := if pindex.pprev == null then 0 else pindex.pprev.nMoneySupply;
    if pindex.nMoneySupply == 0 && !j.initialDownload { return false; }
    pindex.nMoneySupply := pindex.nMoneySupply + t.nValueOut - t.nValueIn;
    if !b.IsProofOfStake() {
      var nReward := Emission.GetProofOfWorkReward(t.nFees, pindex.nHeight);
      if pindex.nHeight > 17901 && ValueOut(b.vtx[0]) > nReward { return false; }
    } else {
      if j.coinAge.None? { return false; }
      var nCalculated := Emission.GetProofOfStakeReward(j.coinAge.value, t.nFees, pindex.nHeight);
      if pindex.nHeight > 17901 && t.nStakeReward > nCalculated { return false; }
      if !j.paymentsOk { return false; }
    }
    if fJustCheck { return true; }
    WriteQueued(txdb, t.pool);
    ok := true;
  }

  lemma RangesOf(b: Block)
    requires BlockOk(b)
    ensures forall i | 0 <= i < |b.vtx| :: OutputsInRange(b.vtx[i])
  {
    hide OutputsInRange;
  }

  /** The queued changes are written one by one, in any order. */
  method WriteQueued(txdb: TxDB, mapQueuedChanges: Index)
    modifies txdb
    ensures txdb.index == old(txdb.index) + mapQueuedChanges
  {
    var todo := mapQueuedChanges.Keys;
    while todo != {}
      invariant todo <= mapQueuedChanges.Keys
      invariant txdb.index == old(txdb.index) + (map h | h in mapQueuedChanges && h !in todo :: mapQueuedChanges[h])
    {
      assert (forall h :: h !in todo) ==> todo == {};
      var h :| h in todo;
      txdb.UpdateTxIndex(h, mapQueuedChanges[h]);
      todo := todo - {h};
    }
    assert (map h | h in mapQueuedChanges && h !in todo :: mapQueuedChanges[h]) == mapQueuedChanges;
  }

  /** Disconnecting from the last transaction down to transaction k. */
  function DisconnectedFrom(index: Index, vtx: seq<Tx>, k: nat): Undo
    requires k <= |vtx|
    decreases |vtx| - k
  {
    if k == |vtx| then Undo(true, index) else
      var u := DisconnectedFrom(index, vtx, k + 1);
      if u.ok then Disconnected(u.index, vtx[k]) else u
  }

  lemma {:induction false} DisconnectStops(index: Index, vtx: seq<Tx>, i: nat, k: nat)
    requires i <= k <= |vtx| && !DisconnectedFrom(index, vtx, k).ok
    ensures DisconnectedFrom(index, vtx, i) == DisconnectedFrom(index, vtx, k)
    decreases k - i
  {
    if i < k { DisconnectStops(index, vtx, i + 1, k); }
  }

  method DisconnectBlock(txdb: TxDB, b: Block) returns (ok: bool)
    modifies txdb
    ensures Undo(ok, txdb.index) == DisconnectedFrom(old(txdb.index), b.vtx, 0)
  {
    hide Disconnected;
    for i := |b.vtx| downto 0
      invariant Undo(true, txdb.index) == DisconnectedFrom(old(txdb.index), b.vtx, i)
    {
      var done := DisconnectInputs(txdb, b.vtx[i]);
      if !done {
        DisconnectStops(old(txdb.index), b.vtx, 0, i);
        return false;
      }
    }
    ok := true;
  }
}
