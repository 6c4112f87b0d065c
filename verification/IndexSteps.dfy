// Connecting a block without its queue: every transaction changes one index.
module IndexSteps {
  import opened HashType
  import opened Options
  import opened Transactions
  import opened TxIndex
  import opened ConnectBlock

  // ------------------------------------------------------------- one transaction

  function SpendOutput(e: Index, o: OutPoint, pos: DiskTxPos): Index {
    if o.hash in e && o.n < |e[o.hash].vSpent|
    then e[o.hash := e[o.hash].(vSpent := e[o.hash].vSpent[o.n := pos])] else e
  }

  /** The index with the first k inputs of tx spent by pos. */
  function Mark(e: Index, tx: Tx, pos: DiskTxPos, k: nat): Index
    requires k <= |tx.vin|
  {
    if k == 0 then e else SpendOutput(Mark(e, tx, pos, k - 1), tx.vin[k - 1], pos)
  }

  predicate IsUnspent(e: Index, o: OutPoint) {
    o.hash in e && o.n < |e[o.hash].vSpent| && e[o.hash].vSpent[o.n] == Null
  }

  /** Each of the first k inputs is unspent when its turn comes. */
  ghost predicate Spendable(e: Index, tx: Tx, pos: DiskTxPos, k: nat)
    requires k <= |tx.vin|
  {
    forall i | 0 <= i < k :: IsUnspent(Mark(e, tx, pos, i), tx.vin[i])
  }

  function InputsOf(tx: Tx): nat { if tx.IsCoinBase() then 0 else |tx.vin| }

  /** How many inputs can be spent before the first that is spent already. */
  function NumSpent(e: Index, tx: Tx, pos: DiskTxPos, from: nat): (n: nat)
    requires from <= InputsOf(tx)
    ensures from <= n <= InputsOf(tx)
    decreases InputsOf(tx) - from
  {
    if from == InputsOf(tx) || !IsUnspent(Mark(e, tx, pos, from), tx.vin[from]) then from
    else NumSpent(e, tx, pos, from + 1)
  }

  lemma {:induction false} NumSpentIs(e: Index, tx: Tx, pos: DiskTxPos, from: nat, n: nat)
    requires from <= n <= InputsOf(tx) && Spendable(e, tx, pos, n)
    requires n == InputsOf(tx) || !IsUnspent(Mark(e, tx, pos, n), tx.vin[n])
    ensures NumSpent(e, tx, pos, from) == n
    decreases n - from
  {
    hide Mark, IsUnspent;
    if from < n {
      assert IsUnspent(Mark(e, tx, pos, from), tx.vin[from]);
      NumSpentIs(e, tx, pos, from + 1, n);
    }
  }

  /** A transaction spends its inputs as far as they can be spent and is added;
      with no tolerance that is all of them. */
  function Step(e: Index, tx: Tx, pos: DiskTxPos): Index {
    Mark(e, tx, pos, NumSpent(e, tx, pos, 0))[tx.hash := NewEntry(pos, |tx.vout|)]
  }

  /** The fetched entries are those of the index e. */
  ghost predicate Current(inputs: PrevTxs, e: Index) {
    forall h | h in inputs :: h in e && inputs[h].entry == e[h]
  }

  lemma Merge(index: Index, pool: Index, h: Hash, entry: TxEntry)
    ensures index + pool[h := entry] == (index + pool)[h := entry]
  {
  }

  function Respent(prev: PrevTx, n: nat, pos: DiskTxPos): PrevTx {
    if n < |prev.entry.vSpent| then prev.(entry := prev.entry.(vSpent := prev.entry.vSpent[n := pos])) else prev
  }

  lemma SpendLast(env: Env, tx: Tx, inputs: PrevTxs, pool: Index, pos: DiskTxPos,
                  fBlock: bool, fMiner: bool, k: nat)
    requires fBlock || fMiner
    requires 0 < k <= |tx.vin| && Spend(env, tx, inputs, pool, pos, fBlock, fMiner, k).outcome == Done
    ensures var s := Spend(env, tx, inputs, pool, pos, fBlock, fMiner, k - 1);
      var o := tx.vin[k - 1];
      && s.outcome == Done && InRange(s.inputs, o) && s.inputs[o.hash].entry.vSpent[o.n] == Null
      && var prev := Respent(s.inputs[o.hash], o.n, pos);
         Spend(env, tx, inputs, pool, pos, fBlock, fMiner, k) ==
         Spending(Done, s.inputs[o.hash := prev], s.pool[o.hash := prev.entry])
  {
  }

  lemma SpendOne(inputs: PrevTxs, e: Index, o: OutPoint, pos: DiskTxPos)
    requires Current(inputs, e) && InRange(inputs, o) && inputs[o.hash].entry.vSpent[o.n] == Null
    ensures var prev := Respent(inputs[o.hash], o.n, pos);
      && IsUnspent(e, o) && SpendOutput(e, o, pos) == e[o.hash := prev.entry]
      && Current(inputs[o.hash := prev], e[o.hash := prev.entry])
  {
  }

  /** Spending through the queue is spending in the index the queue stands for. */
  lemma {:induction false} SpendIsMark(env: Env, tx: Tx, inputs: PrevTxs, index: Index, pool: Index,
                                       pos: DiskTxPos, fBlock: bool, fMiner: bool, k: nat)
    requires (fBlock || fMiner) && k <= |tx.vin| && Current(inputs, index + pool)
    requires Spend(env, tx, inputs, pool, pos, fBlock, fMiner, k).outcome == Done
    ensures var s := Spend(env, tx, inputs, pool, pos, fBlock, fMiner, k);
      index + s.pool == Mark(index + pool, tx, pos, k) && Current(s.inputs, index + s.pool)
    ensures Spendable(index + pool, tx, pos, k)
  {
    hide Spend, Current, Respent, IsUnspent, SpendOutput, InRange;
    if k == 0 {
      SpendNone(env, tx, inputs, pool, pos, fBlock, fMiner);
    } else {
      SpendLast(env, tx, inputs, pool, pos, fBlock, fMiner, k);
      SpendIsMark(env, tx, inputs, index, pool, pos, fBlock, fMiner, k - 1);
      var s := Spend(env, tx, inputs, pool, pos, fBlock, fMiner, k - 1);
      var o := tx.vin[k - 1];
      SpendOne(s.inputs, index + s.pool, o, pos);
      Merge(index, s.pool, o.hash, Respent(s.inputs[o.hash], o.n, pos).entry);
    }
  }

  /** Entries point to the stored transaction, with one mark for each output. */
  predicate Stored(env: Env, h: Hash, entry: TxEntry) {
    && entry.pos != MEMPOOL_POS && env.read(entry.pos).Some?
    && env.read(entry.pos).value.hash == h && |env.read(entry.pos).value.vout| == |entry.vSpent|
  }

  ghost predicate IndexOk(env: Env, e: Index) { forall h | h in e :: Stored(env, h, e[h]) }

  /** In a block, inputs come from the index with the queued changes. */
  lemma FetchedIsCurrent(env: Env, index: Index, pool: Index, fBlock: bool, fMiner: bool, tx: Tx)
    requires fBlock || fMiner
    ensures Current(Fetched(env, index, pool, fBlock, fMiner, tx), index + pool)
  {
    var inputs := Fetched(env, index, pool, fBlock, fMiner, tx);
    var e := index + pool;
    forall h | h in inputs ensures h in e && inputs[h].entry == e[h] {
    }
  }

  /** The transactions come from where their entries point. */
  lemma FetchedIsStored(env: Env, index: Index, pool: Index, tx: Tx)
    requires IndexOk(env, index + pool)
    ensures forall h | h in Fetched(env, index, pool, true, false, tx) ::
      var prev := Fetched(env, index, pool, true, false, tx)[h];
      env.read(prev.entry.pos) == Some(prev.tx)
  {
    FetchedIsCurrent(env, index, pool, true, false, tx);
    var inputs := Fetched(env, index, pool, true, false, tx);
    forall h | h in inputs ensures env.read(inputs[h].entry.pos) == Some(inputs[h].tx) {
      assert Stored(env, h, (index + pool)[h]);
    }
  }

  // --------------------------------------------------------------------- a block

  /** The flags for connecting a block without tolerance.  No caller of
      ConnectBlock uses them: SetBestChainInner passes its number of postponed
      blocks, -1 for none, where the tolerance flag stands. */
  const CONNECT: Flags := Flags(false, false, true)

  /** The flags with which blocks are connected, in a reorganisation and
      directly: no overwrite check, and inputs that are spent already are passed
      over. */
  const TOLERATE: Flags := Flags(false, true, true)

  /** One transaction connected is one step of the index, whatever the tolerance. */
  lemma AddTxIsStep(env: Env, index: Index, nFile: nat, nBlockPos: nat, flags: Flags, t: Totals, tx: Tx)
    requires flags == CONNECT || flags == TOLERATE
    requires AddTx(env, index, nFile, nBlockPos, flags, t, tx).Some?
    ensures var t' := AddTx(env, index, nFile, nBlockPos, flags, t, tx).value;
      var pos := PosOf(nFile, nBlockPos, t);
      var n := NumSpent(index + t.pool, tx, pos, 0);
      && index + t'.pool == Step(index + t.pool, tx, pos)
      && Spendable(index + t.pool, tx, pos, n)
      && (flags == CONNECT ==> n == InputsOf(tx) && (tx.hash in index ==> FullySpent(index[tx.hash])))
      && t'.nTxPos == t.nTxPos + tx.nSize
  {
    hide Fetched, Connected, Spendable, Mark, NumSpent, FullySpent, AllInRange, ValueIn, ValueOut;
    var pos := PosOf(nFile, nBlockPos, t);
    var t' := AddTx(env, index, nFile, nBlockPos, flags, t, tx).value;
    var pool := t.pool;
    if tx.IsCoinBase() {
      NoMarks(index + t.pool, tx, pos);
      NumSpentIs(index + t.pool, tx, pos, 0, 0);
    } else {
      var inputs := Fetched(env, index, t.pool, true, false, tx);
      FetchedIsCurrent(env, index, t.pool, true, false, tx);
      var c := Connected(env, tx, inputs, t.pool, pos, true, false);
      pool := c.1;
      if c.0 == Done {
        ConnectedIsMark(env, tx, inputs, index, t.pool, pos, true, false);
        NumSpentIs(index + t.pool, tx, pos, 0, |tx.vin|);
      } else {
        UsedIsMark(env, tx, inputs, index, t.pool, pos);
      }
    }
    Merge(index, pool, tx.hash, NewEntry(pos, |tx.vout|));
  }

  /** Where spending stops at an input that is spent already. */
  lemma {:induction false} UsedAt(env: Env, tx: Tx, inputs: PrevTxs, pool: Index, pos: DiskTxPos, k: nat)
    returns (n: nat)
    requires k <= |tx.vin| && Spend(env, tx, inputs, pool, pos, true, false, k).outcome == AlreadyUsed
    ensures n < k
    ensures var s := Spend(env, tx, inputs, pool, pos, true, false, n);
      && s.outcome == Done && s.pool == Spend(env, tx, inputs, pool, pos, true, false, k).pool
      && InRange(s.inputs, tx.vin[n]) && s.inputs[tx.vin[n].hash].entry.vSpent[tx.vin[n].n] != Null
  {
    if Spend(env, tx, inputs, pool, pos, true, false, k - 1).outcome == Done {
      n := k - 1;
    } else {
      n := UsedAt(env, tx, inputs, pool, pos, k - 1);
    }
  }

  /** A transaction turned down for a spent input leaves the inputs before it spent. */
  lemma UsedIsMark(env: Env, tx: Tx, inputs: PrevTxs, index: Index, pool: Index, pos: DiskTxPos)
    requires !tx.IsCoinBase() && Current(inputs, index + pool)
    requires Connected(env, tx, inputs, pool, pos, true, false).0 == AlreadyUsed
    ensures var n := NumSpent(index + pool, tx, pos, 0);
      && n < |tx.vin| && Spendable(index + pool, tx, pos, n)
      && index + Connected(env, tx, inputs, pool, pos, true, false).1 == Mark(index + pool, tx, pos, n)
  {
    hide Spend, InputsPass, FeeOk, Mark, Spendable, NumSpent;
    var n := UsedAt(env, tx, inputs, pool, pos, |tx.vin|);
    SpendIsMark(env, tx, inputs, index, pool, pos, true, false, n);
    NumSpentIs(index + pool, tx, pos, 0, n);
  }

  /** What one transaction adds to the amounts of its block. */
  lemma AddTxMoney(env: Env, index: Index, nFile: nat, nBlockPos: nat, flags: Flags, t: Totals, tx: Tx)
    requires AddTx(env, index, nFile, nBlockPos, flags, t, tx).Some?
    ensures var t' := AddTx(env, index, nFile, nBlockPos, flags, t, tx).value;
      var inputs := Fetched(env, index, t.pool, true, false, tx);
      var taken := ValueIn(inputs, tx, InputsOf(tx));
      && t'.nValueOut == t.nValueOut + ValueOut(tx)
      && t'.nValueIn == t.nValueIn + taken
      && t'.nFees == (if tx.IsCoinBase() || tx.IsCoinStake() then t.nFees else t.nFees + taken - ValueOut(tx))
      && t'.nStakeReward == (if tx.IsCoinStake() then ValueOut(tx) - taken else t.nStakeReward)
      && (!tx.IsCoinBase() ==> AllInRange(tx, inputs))
  {
    hide Fetched, Connected, AllInRange, FullySpent;
  }

  lemma NoMarks(e: Index, tx: Tx, pos: DiskTxPos)
    ensures Mark(e, tx, pos, 0) == e && Spendable(e, tx, pos, 0)
  {
  }

  lemma ConnectedIsMark(env: Env, tx: Tx, inputs: PrevTxs, index: Index, pool: Index, pos: DiskTxPos,
                        fBlock: bool, fMiner: bool)
    requires (fBlock || fMiner) && !tx.IsCoinBase() && Current(inputs, index + pool)
    requires Connected(env, tx, inputs, pool, pos, fBlock, fMiner).0 == Done
    ensures index + Connected(env, tx, inputs, pool, pos, fBlock, fMiner).1 == Mark(index + pool, tx, pos, |tx.vin|)
    ensures Spendable(index + pool, tx, pos, |tx.vin|)
  {
    hide Spend, InputsPass, FeeOk;
    SpendIsMark(env, tx, inputs, index, pool, pos, fBlock, fMiner, |tx.vin|);
  }

  /** Position of transaction k of a block that starts at from. */
  function TxPos(nFile: nat, nBlockPos: nat, from: nat, vtx: seq<Tx>, k: nat): DiskTxPos
    requires k <= |vtx|
  {
    At(nFile, nBlockPos, from + Sizes(vtx, k))
  }

  function Sizes(vtx: seq<Tx>, k: nat): nat
    requires k <= |vtx|
  {
    if k == 0 then 0 else Sizes(vtx, k - 1) + vtx[k - 1].nSize
  }

  /** The block lies in its file where the index will say its transactions are. */
  ghost predicate Written(env: Env, nFile: nat, nBlockPos: nat, from: nat, vtx: seq<Tx>) {
    forall k | 0 <= k < |vtx| ::
      TxPos(nFile, nBlockPos, from, vtx, k) != MEMPOOL_POS &&
      env.read(TxPos(nFile, nBlockPos, from, vtx, k)) == Some(vtx[k])
  }

  /** The index after the first k transactions. */
  function Steps(e: Index, nFile: nat, nBlockPos: nat, from: nat, vtx: seq<Tx>, k: nat): Index
    requires k <= |vtx|
  {
    if k == 0 then e
    else Step(Steps(e, nFile, nBlockPos, from, vtx, k - 1), vtx[k - 1], TxPos(nFile, nBlockPos, from, vtx, k - 1))
  }

  lemma {:induction false} MarkKeepsShape(e: Index, tx: Tx, pos: DiskTxPos, k: nat)
    requires k <= |tx.vin|
    ensures Mark(e, tx, pos, k).Keys == e.Keys
    ensures forall h | h in e ::
      Mark(e, tx, pos, k)[h].pos == e[h].pos && |Mark(e, tx, pos, k)[h].vSpent| == |e[h].vSpent|
  {
    if k > 0 { MarkKeepsShape(e, tx, pos, k - 1); }
  }

  lemma StepKeepsIndex(env: Env, e: Index, tx: Tx, pos: DiskTxPos)
    requires IndexOk(env, e) && pos != MEMPOOL_POS && env.read(pos) == Some(tx)
    ensures IndexOk(env, Step(e, tx, pos))
  {
    hide Mark;
    var n := NumSpent(e, tx, pos, 0);
    MarkKeepsShape(e, tx, pos, n);
    var m := Mark(e, tx, pos, n);
    forall h | h in Step(e, tx, pos) ensures Stored(env, h, Step(e, tx, pos)[h]) {
      if h != tx.hash { assert h in e && Stored(env, h, e[h]); }
    }
  }

  /** A transaction accepted earlier in the block still counts as accepted. */
  lemma {:induction false} Prefix(env: Env, index: Index, nFile: nat, nBlockPos: nat, from: nat, vtx: seq<Tx>,
                                  flags: Flags, k: nat, n: nat)
    requires k <= n <= |vtx| && Amounts(env, index, nFile, nBlockPos, from, vtx, flags, n).Some?
    ensures Amounts(env, index, nFile, nBlockPos, from, vtx, flags, k).Some?
    decreases n
  {
    hide AddTx;
    if k < n { Prefix(env, index, nFile, nBlockPos, from, vtx, flags, k, n - 1); }
  }

  lemma LastAmount(env: Env, index: Index, nFile: nat, nBlockPos: nat, from: nat, vtx: seq<Tx>, flags: Flags, k: nat)
    requires k < |vtx| && Amounts(env, index, nFile, nBlockPos, from, vtx, flags, k + 1).Some?
    ensures var t := Amounts(env, index, nFile, nBlockPos, from, vtx, flags, k);
      && t.Some?
      && Amounts(env, index, nFile, nBlockPos, from, vtx, flags, k + 1) ==
         AddTx(env, index, nFile, nBlockPos, flags, t.value, vtx[k])
  {
    hide AddTx;
  }

  lemma WrittenAt(env: Env, nFile: nat, nBlockPos: nat, from: nat, vtx: seq<Tx>, k: nat)
    requires k < |vtx| && Written(env, nFile, nBlockPos, from, vtx)
    ensures var pos := TxPos(nFile, nBlockPos, from, vtx, k); pos != MEMPOOL_POS && env.read(pos) == Some(vtx[k])
  {
    hide TxPos;
  }

  /** Connecting a block is taking its steps one after the other. */
  lemma {:induction false} AmountsAreSteps(env: Env, index: Index, nFile: nat, nBlockPos: nat, from: nat,
                                           vtx: seq<Tx>, flags: Flags, k: nat)
    requires flags == CONNECT || flags == TOLERATE
    requires k <= |vtx| && IndexOk(env, index) && Written(env, nFile, nBlockPos, from, vtx)
    requires Amounts(env, index, nFile, nBlockPos, from, vtx, flags, k).Some?
    ensures var t := Amounts(env, index, nFile, nBlockPos, from, vtx, flags, k).value;
      && index + t.pool == Steps(index, nFile, nBlockPos, from, vtx, k)
      && t.nTxPos == from + Sizes(vtx, k)
      && IndexOk(env, index + t.pool)
    decreases k
  {
    hide AddTx, Step, IndexOk, Spendable, FullySpent, Written, NumSpent;
    if k == 0 {
      assert index + map[] == index;
    } else {
      AmountsAreSteps(env, index, nFile, nBlockPos, from, vtx, flags, k - 1);
      var t := Amounts(env, index, nFile, nBlockPos, from, vtx, flags, k - 1).value;
      AddTxIsStep(env, index, nFile, nBlockPos, flags, t, vtx[k - 1]);
      assert PosOf(nFile, nBlockPos, t) == TxPos(nFile, nBlockPos, from, vtx, k - 1);
      WrittenAt(env, nFile, nBlockPos, from, vtx, k - 1);
      StepKeepsIndex(env, index + t.pool, vtx[k - 1], TxPos(nFile, nBlockPos, from, vtx, k - 1));
    }
  }

  /** What connecting a block says about the step of transaction k. */
  lemma StepOf(env: Env, index: Index, nFile: nat, nBlockPos: nat, from: nat, vtx: seq<Tx>, flags: Flags, k: nat)
    requires flags == CONNECT || flags == TOLERATE
    requires k < |vtx| && IndexOk(env, index) && Written(env, nFile, nBlockPos, from, vtx)
    requires Amounts(env, index, nFile, nBlockPos, from, vtx, flags, |vtx|).Some?
    ensures var e, pos := Steps(index, nFile, nBlockPos, from, vtx, k), TxPos(nFile, nBlockPos, from, vtx, k);
      var n := NumSpent(e, vtx[k], pos, 0);
      && IndexOk(env, e) && Spendable(e, vtx[k], pos, n)
      && (flags == CONNECT ==> n == InputsOf(vtx[k]) && (vtx[k].hash in index ==> FullySpent(index[vtx[k].hash])))
  {
    hide AddTx, Steps, Step, Spendable, IndexOk, FullySpent, Amounts, NumSpent, Written, Sizes;
    Prefix(env, index, nFile, nBlockPos, from, vtx, flags, k + 1, |vtx|);
    LastAmount(env, index, nFile, nBlockPos, from, vtx, flags, k);
    AmountsAreSteps(env, index, nFile, nBlockPos, from, vtx, flags, k);
    var t := Amounts(env, index, nFile, nBlockPos, from, vtx, flags, k).value;
    AddTxIsStep(env, index, nFile, nBlockPos, flags, t, vtx[k]);
  }
}
