// What it takes for a transaction and a block to be accepted, and what a block of work may create.
module Accepting {
  import opened HashType
  import opened Options
  import opened Transactions
  import opened TxIndex
  import opened ConnectBlock
  import opened IndexSteps
  import opened Connecting
  import opened Supply
  import Emission

  /** The inputs are sensible, free and signed, and pay, or with tolerance stop at a spent one. */
  ghost predicate Connectable(env: Env, tx: Tx, inputs: PrevTxs, tolerant: bool) {
    && Sensible(env, tx, inputs)
    && (|| ((forall i | 0 <= i < |tx.vin| :: Free(tx, inputs, i) && Signed(env, tx, inputs, true, i))
            && (tx.IsCoinStake() || Pays(env, tx, inputs)))
        || (tolerant && exists i | 0 <= i < |tx.vin| :: StopsAt(env, tx, inputs, true, i)))
  }

  /** A transaction is added to its block's amounts exactly if it overwrites
      nothing unspent, unless that is tolerated, leaves the signature operations
      within the limit, and is a coinbase or connectable. */
  lemma AddTxIff(env: Env, index: Index, nFile: nat, nBlockPos: nat, flags: Flags, t: Totals, tx: Tx)
    requires flags.connectInputs
    ensures var inputs := Fetched(env, index, t.pool, true, false, tx);
      var ops := t.nSigOps + tx.nSigOps + if tx.IsCoinBase() then 0 else env.p2shSigOps(tx, Parents(inputs));
      var r := AddTx(env, index, nFile, nBlockPos, flags, t, tx);
      && (r.Some? <==>
            && (flags.skipTxCheck || tx.hash !in index ||
                forall i | 0 <= i < |index[tx.hash].vSpent| :: index[tx.hash].vSpent[i] != Null)
            && ops <= MAX_BLOCK_SIGOPS
            && (tx.IsCoinBase() || Connectable(env, tx, inputs, flags.skipTxCheck)))
      && (r.Some? ==> r.value.nSigOps == ops)
  {
    hide Fetched, Connected, Sensible, Pays, Free, Signed, StopsAt, ValueIn, ValueOut, AllInRange;
    if !tx.IsCoinBase() {
      var inputs := Fetched(env, index, t.pool, true, false, tx);
      ConnectedIff(env, tx, inputs, t.pool, PosOf(nFile, nBlockPos, t), true, false);
      if Sensible(env, tx, inputs) { SensibleIsInRange(env, tx, inputs); }
    }
  }

  /** A block whose amounts are found is accepted exactly if it passes the checks
      and, above height 17901, its coinbase pays out no more than the fees, or its
      coinstake gains no more than the subsidy and the fees. */
  lemma AcceptableIff(env: Env, index: Index, b: Block, nFile: nat, nBlockPos: nat, nHeight: int, supplyBefore: int,
                      header: nat, flags: Flags, j: Judgement)
    requires BlockAmounts(env, index, nFile, nBlockPos, header, b.vtx, flags).Some?
    ensures var t := BlockAmounts(env, index, nFile, nBlockPos, header, b.vtx, flags).value;
      Acceptable(env, index, b, nFile, nBlockPos, nHeight, supplyBefore, header, flags, j) <==>
        && j.otherBlockChecks && BlockOk(b) && (supplyBefore != 0 || j.initialDownload)
        && if |b.vtx| > 1 && b.vtx[1].IsCoinStake()
           then j.coinAge.Some? && j.paymentsOk &&
                (nHeight <= 17901 || t.nStakeReward <= Emission.Subsidy(nHeight) + t.nFees)
           else nHeight <= 17901 || SumOut(b.vtx[0].vout) <= t.nFees
  {
    hide BlockAmounts, TransactionOk, UniqueTx, SumOut, Emission.Subsidy;
  }

  /** In a block without a coinstake only the coinbase creates money, besides the fees. */
  lemma {:induction false} WorkAmounts(env: Env, index: Index, nFile: nat, nBlockPos: nat, from: nat, vtx: seq<Tx>,
                                       flags: Flags, k: nat)
    requires 1 <= k <= |vtx| && vtx[0].IsCoinBase() && forall i | 1 <= i < |vtx| :: !vtx[i].IsCoinBase()
    requires forall i | 0 <= i < |vtx| :: !vtx[i].IsCoinStake()
    requires Amounts(env, index, nFile, nBlockPos, from, vtx, flags, k).Some?
    ensures var t := Amounts(env, index, nFile, nBlockPos, from, vtx, flags, k).value;
      t.nValueOut - t.nValueIn + t.nFees == ValueOut(vtx[0])
    decreases k
  {
    hide AddTx, ValueOut, Fetched;
    LastAmount(env, index, nFile, nBlockPos, from, vtx, flags, k - 1);
    var t := Amounts(env, index, nFile, nBlockPos, from, vtx, flags, k - 1).value;
    AddTxMoney(env, index, nFile, nBlockPos, flags, t, vtx[k - 1]);
    if k > 1 { WorkAmounts(env, index, nFile, nBlockPos, from, vtx, flags, k - 1); }
  }

  /** What a block mints is what its coinbase pays out, or what its coinstake gains. */
  lemma MintedIs(env: Env, index: Index, b: Block, nFile: nat, nBlockPos: nat, header: nat, flags: Flags)
    requires BlockOk(b) && BlockAmounts(env, index, nFile, nBlockPos, header, b.vtx, flags).Some?
    requires b.IsProofOfStake() || forall i | 0 <= i < |b.vtx| :: !b.vtx[i].IsCoinStake()
    ensures var t := BlockAmounts(env, index, nFile, nBlockPos, header, b.vtx, flags).value;
      Minted(t) == if |b.vtx| > 1 && b.vtx[1].IsCoinStake() then t.nStakeReward else SumOut(b.vtx[0].vout)
  {
    hide Amounts, TransactionOk, UniqueTx, SumOut;
    var from := FirstTxPos(nBlockPos, flags.fJustCheck, header);
    if b.IsProofOfStake() {
      StakeAmounts(env, index, nFile, nBlockPos, from, b, flags, |b.vtx|);
    } else {
      WorkAmounts(env, index, nFile, nBlockPos, from, b.vtx, flags, |b.vtx|);
    }
  }

  /** Above height 17901, an accepted block without a coinstake raises the unspent
      value by no more than the gap of its transactions. */
  lemma WorkRaisesNothing(env: Env, index: Index, b: Block, nFile: nat, nBlockPos: nat, nHeight: int,
                          supplyBefore: int, header: nat, flags: Flags, j: Judgement)
    requires flags == CONNECT || flags == TOLERATE
    requires IndexOk(env, index) && Written(env, nFile, nBlockPos, nBlockPos + header, b.vtx)
    requires (forall i | 0 <= i < |b.vtx| :: !b.vtx[i].IsCoinStake()) && nHeight > 17901
    requires Acceptable(env, index, b, nFile, nBlockPos, nHeight, supplyBefore, header, flags, j)
    ensures var t := BlockAmounts(env, index, nFile, nBlockPos, header, b.vtx, flags).value;
      var gap := Gap(env, index, nFile, nBlockPos, nBlockPos + header, b.vtx, |b.vtx|);
      && Unspent(env, index + t.pool) <= Unspent(env, index) + gap
      && (flags == CONNECT ==> gap == 0)
  {
    hide Amounts, IndexOk, Written, UniqueTx, Unspent, TransactionOk, Emission.Subsidy, Gap;
    BlockValue(env, index, nFile, nBlockPos, nBlockPos + header, b.vtx, flags, |b.vtx|);
    if flags == CONNECT { StrictGap(env, index, nFile, nBlockPos, nBlockPos + header, b.vtx, |b.vtx|); }
    WorkAmounts(env, index, nFile, nBlockPos, nBlockPos + header, b.vtx, flags, |b.vtx|);
  }
}
