// The value of all unspent outputs, and the money supply kept with the blocks.
module Supply {
  import opened HashType
  import opened Options
  import opened Transactions
  import opened TxIndex
  import opened ConnectBlock
  import opened IndexSteps
  import opened IndexUndo
  import Emission

  // ------------------------------------------------------------------ the measure

  function SumUnspent(vout: seq<TxOut>, vSpent: seq<DiskTxPos>): int
    requires |vout| == |vSpent|
  {
    if vout == [] then 0 else
      var n := |vout| - 1;
      SumUnspent(vout[..n], vSpent[..n]) + if vSpent[n] == Null then vout[n].nValue else 0
  }

  function EntryValue(env: Env, entry: TxEntry): int {
    match env.read(entry.pos)
    case Some(tx) => if |tx.vout| == |entry.vSpent| then SumUnspent(tx.vout, entry.vSpent) else 0
    case None => 0
  }

  /** The value of all outputs that the index has as unspent. */
  ghost function Unspent(env: Env, e: Index): int
    decreases |e|
  {
    if e == map[] then 0 else
      assert (forall h :: h !in e) ==> e == map[];
      var h :| h in e;
      EntryValue(env, e[h]) + Unspent(env, e - {h})
  }

  lemma {:induction false} UnspentWithout(env: Env, e: Index, h: Hash)
    requires h in e
    ensures Unspent(env, e) == EntryValue(env, e[h]) + Unspent(env, e - {h})
    decreases |e|
  {
    hide EntryValue;
    var g :| g in e && Unspent(env, e) == EntryValue(env, e[g]) + Unspent(env, e - {g});
    if g != h {
      UnspentWithout(env, e - {g}, h);
      UnspentWithout(env, e - {h}, g);
      assert e - {g} - {h} == e - {h} - {g};
    }
  }

  lemma UnspentPut(env: Env, e: Index, h: Hash, entry: TxEntry)
    ensures Unspent(env, e[h := entry]) ==
            Unspent(env, e) - (if h in e then EntryValue(env, e[h]) else 0) + EntryValue(env, entry)
  {
    hide EntryValue, Unspent;
    UnspentWithout(env, e[h := entry], h);
    assert e[h := entry] - {h} == e - {h};
    if h in e { UnspentWithout(env, e, h); } else { assert e - {h} == e; }
  }

  lemma {:induction false} SpendOne(vout: seq<TxOut>, vSpent: seq<DiskTxPos>, n: nat, pos: DiskTxPos)
    requires |vout| == |vSpent| && n < |vSpent| && vSpent[n] == Null && pos != Null
    ensures SumUnspent(vout, vSpent[n := pos]) == SumUnspent(vout, vSpent) - vout[n].nValue
  {
    var k := |vout| - 1;
    if n < k {
      SpendOne(vout[..k], vSpent[..k], n, pos);
      assert vSpent[n := pos][..k] == vSpent[..k][n := pos];
    } else {
      assert vSpent[n := pos][..k] == vSpent[..k];
    }
  }

  lemma {:induction false} NewIsOutputs(vout: seq<TxOut>)
    ensures SumUnspent(vout, Unspents(|vout|)) == SumOut(vout)
  {
    if vout != [] {
      var n := |vout| - 1;
      NewIsOutputs(vout[..n]);
      assert Unspents(|vout|)[..n] == Unspents(n);
    }
  }

  lemma {:induction false} SpentIsNothing(vout: seq<TxOut>, vSpent: seq<DiskTxPos>)
    requires |vout| == |vSpent| && forall i | 0 <= i < |vSpent| :: vSpent[i] != Null
    ensures SumUnspent(vout, vSpent) == 0
  {
    if vout != [] { SpentIsNothing(vout[..|vout| - 1], vSpent[..|vout| - 1]); }
  }

  // ------------------------------------------------------------- one transaction

  /** The inputs are those stored behind the entries of e. */
  ghost predicate Backed(env: Env, inputs: PrevTxs, e: Index) {
    forall h | h in inputs :: h in e && env.read(e[h].pos) == Some(inputs[h].tx)
  }

  lemma SpendValue(env: Env, m: Index, o: OutPoint, pos: DiskTxPos, prev: Tx)
    requires IsUnspent(m, o) && pos != Null && env.read(m[o.hash].pos) == Some(prev) && |prev.vout| == |m[o.hash].vSpent|
    ensures Unspent(env, SpendOutput(m, o, pos)) == Unspent(env, m) - prev.vout[o.n].nValue
  {
    var entry := m[o.hash].(vSpent := m[o.hash].vSpent[o.n := pos]);
    SpendOne(prev.vout, m[o.hash].vSpent, o.n, pos);
    UnspentPut(env, m, o.hash, entry);
  }

  lemma {:induction false} MarkedValue(env: Env, e: Index, tx: Tx, inputs: PrevTxs, pos: DiskTxPos, k: nat)
    requires k <= |tx.vin| && Spendable(e, tx, pos, k) && pos != Null && IndexOk(env, e)
    requires Backed(env, inputs, e) && AllInRange(tx, inputs)
    ensures Unspent(env, Mark(e, tx, pos, k)) == Unspent(env, e) - ValueIn(inputs, tx, k)
  {
    hide SpendOutput, Spendable, Unspent;
    if k > 0 {
      SpendableBefore(e, tx, pos, k);
      MarkedValue(env, e, tx, inputs, pos, k - 1);
      MarkKeepsShape(e, tx, pos, k - 1);
      var o := tx.vin[k - 1];
      assert o in tx.vin && InRange(inputs, o);
      assert Stored(env, o.hash, e[o.hash]);
      SpendValue(env, Mark(e, tx, pos, k - 1), o, pos, inputs[o.hash].tx);
    }
  }

  /** The value of an output of the index. */
  function OutputValue(env: Env, e: Index, o: OutPoint): int {
    if o.hash !in e then 0 else
      match env.read(e[o.hash].pos)
      case Some(tx) => if o.n < |tx.vout| && o.n < |e[o.hash].vSpent| then tx.vout[o.n].nValue else 0
      case None => 0
  }

  /** The value of the inputs from position from up to position k. */
  function InputValue(env: Env, e: Index, tx: Tx, from: nat, k: nat): int
    requires from <= k <= |tx.vin|
    decreases k
  {
    if from == k then 0 else InputValue(env, e, tx, from, k - 1) + OutputValue(env, e, tx.vin[k - 1])
  }

  lemma {:induction false} InputValueIs(env: Env, e: Index, tx: Tx, inputs: PrevTxs, from: nat, k: nat)
    requires from <= k <= |tx.vin| && IndexOk(env, e) && Backed(env, inputs, e) && AllInRange(tx, inputs)
    ensures InputValue(env, e, tx, from, k) == ValueIn(inputs, tx, k) - ValueIn(inputs, tx, from)
    decreases k
  {
    if from < k {
      InputValueIs(env, e, tx, inputs, from, k - 1);
      var o := tx.vin[k - 1];
      assert o in tx.vin && InRange(inputs, o);
      assert Stored(env, o.hash, e[o.hash]);
    }
  }

  /** What is counted as taken in without being spent: the inputs from the first
      that was spent already. */
  function Tolerated(env: Env, e: Index, tx: Tx, pos: DiskTxPos): int {
    InputValue(env, e, tx, NumSpent(e, tx, pos, 0), InputsOf(tx))
  }

  /** What is still unspent, after the inputs are spent, in an entry that is overwritten. */
  function Overwritten(env: Env, e: Index, tx: Tx, pos: DiskTxPos): int {
    var m := Mark(e, tx, pos, NumSpent(e, tx, pos, 0));
    if tx.hash in m then EntryValue(env, m[tx.hash]) else 0
  }

  /** A step takes the value of the inputs it spends and of the entry it
      overwrites, and adds that of the outputs. */
  lemma StepValue(env: Env, e: Index, tx: Tx, inputs: PrevTxs, pos: DiskTxPos)
    requires Spendable(e, tx, pos, NumSpent(e, tx, pos, 0)) && pos != Null && IndexOk(env, e)
    requires env.read(pos) == Some(tx)
    requires Backed(env, inputs, e) && (!tx.IsCoinBase() ==> AllInRange(tx, inputs))
    ensures Unspent(env, Step(e, tx, pos)) ==
            Unspent(env, e) - ValueIn(inputs, tx, InputsOf(tx)) + ValueOut(tx) +
            Tolerated(env, e, tx, pos) - Overwritten(env, e, tx, pos)
  {
    hide Mark, Spendable, Unspent, AllInRange, Backed, SumUnspent, NumSpent, EntryValue;
    var n := NumSpent(e, tx, pos, 0);
    var m := Mark(e, tx, pos, n);
    if tx.IsCoinBase() {
      NoMarks(e, tx, pos);
    } else {
      MarkedValue(env, e, tx, inputs, pos, n);
      InputValueIs(env, e, tx, inputs, n, |tx.vin|);
    }
    UnspentPut(env, m, tx.hash, NewEntry(pos, |tx.vout|));
    NewValue(env, tx, pos);
  }

  lemma NewValue(env: Env, tx: Tx, pos: DiskTxPos)
    requires env.read(pos) == Some(tx)
    ensures EntryValue(env, NewEntry(pos, |tx.vout|)) == ValueOut(tx)
  {
    NewIsOutputs(tx.vout);
  }

  /** Without tolerance nothing is tolerated and what is overwritten held nothing. */
  lemma StrictStep(env: Env, e: Index, tx: Tx, pos: DiskTxPos)
    requires Spendable(e, tx, pos, InputsOf(tx)) && NumSpent(e, tx, pos, 0) == InputsOf(tx)
    requires IndexOk(env, e) && Closed(e, tx.hash)
    ensures Tolerated(env, e, tx, pos) == 0 == Overwritten(env, e, tx, pos)
  {
    hide Mark, Spendable, SumUnspent, NumSpent;
    var m := Mark(e, tx, pos, InputsOf(tx));
    MarkLeaves(e, tx, pos, InputsOf(tx), tx.hash);
    if tx.hash in m {
      assert Stored(env, tx.hash, e[tx.hash]);
      SpentIsNothing(env.read(m[tx.hash].pos).value.vout, m[tx.hash].vSpent);
    }
  }

  // --------------------------------------------------------------------- a block

  lemma FetchedIsBacked(env: Env, index: Index, pool: Index, tx: Tx)
    requires IndexOk(env, index + pool)
    ensures Backed(env, Fetched(env, index, pool, true, false, tx), index + pool)
  {
    hide Fetched, IndexOk;
    FetchedIsCurrent(env, index, pool, true, false, tx);
    FetchedIsStored(env, index, pool, tx);
  }

  /** Any transaction that is connected balances the books exactly if the value
      it is taken to spend but does not is the value it overwrites. */
  lemma BooksBalanceIff(env: Env, index: Index, nFile: nat, nBlockPos: nat, flags: Flags, t: Totals, tx: Tx)
    requires flags == CONNECT || flags == TOLERATE
    requires IndexOk(env, index + t.pool) && env.read(PosOf(nFile, nBlockPos, t)) == Some(tx)
    requires AddTx(env, index, nFile, nBlockPos, flags, t, tx).Some?
    ensures var t' := AddTx(env, index, nFile, nBlockPos, flags, t, tx).value;
      var e, pos := index + t.pool, PosOf(nFile, nBlockPos, t);
      && Unspent(env, index + t'.pool) - Unspent(env, e) ==
         t'.nValueOut - t.nValueOut - (t'.nValueIn - t.nValueIn) + Tolerated(env, e, tx, pos) - Overwritten(env, e, tx, pos)
      && (Unspent(env, index + t'.pool) - Unspent(env, e) == t'.nValueOut - t.nValueOut - (t'.nValueIn - t.nValueIn) <==>
          Tolerated(env, e, tx, pos) == Overwritten(env, e, tx, pos))
  {
    hide AddTx, IndexOk, Step, Unspent, Spendable, Backed, AllInRange, Fetched, Tolerated, Overwritten, NumSpent;
    AddTxIsStep(env, index, nFile, nBlockPos, flags, t, tx);
    AddTxMoney(env, index, nFile, nBlockPos, flags, t, tx);
    FetchedIsBacked(env, index, t.pool, tx);
    StepValue(env, index + t.pool, tx, Fetched(env, index, t.pool, true, false, tx), PosOf(nFile, nBlockPos, t));
  }

  /** Over the first k transactions, the value tolerated less the value overwritten. */
  function Gap(env: Env, e: Index, nFile: nat, nBlockPos: nat, from: nat, vtx: seq<Tx>, k: nat): int
    requires k <= |vtx|
  {
    if k == 0 then 0 else
      var before, pos := Steps(e, nFile, nBlockPos, from, vtx, k - 1), TxPos(nFile, nBlockPos, from, vtx, k - 1);
      Gap(env, e, nFile, nBlockPos, from, vtx, k - 1) +
      Tolerated(env, before, vtx[k - 1], pos) - Overwritten(env, before, vtx[k - 1], pos)
  }

  /** Connecting the first k transactions changes the unspent value by what they
      put out less what they take in, and by the gap. */
  lemma {:induction false} BlockValue(env: Env, index: Index, nFile: nat, nBlockPos: nat, from: nat,
                                      vtx: seq<Tx>, flags: Flags, k: nat)
    requires flags == CONNECT || flags == TOLERATE
    requires k <= |vtx| && IndexOk(env, index) && Written(env, nFile, nBlockPos, from, vtx)
    requires Amounts(env, index, nFile, nBlockPos, from, vtx, flags, k).Some?
    ensures var t := Amounts(env, index, nFile, nBlockPos, from, vtx, flags, k).value;
      Unspent(env, index + t.pool) ==
      Unspent(env, index) + t.nValueOut - t.nValueIn + Gap(env, index, nFile, nBlockPos, from, vtx, k)
  {
    hide AddTx, IndexOk, Written, Unspent, Steps, Tolerated, Overwritten;
    if k == 0 {
      assert index + map[] == index;
    } else {
      LastAmount(env, index, nFile, nBlockPos, from, vtx, flags, k - 1);
      BlockValue(env, index, nFile, nBlockPos, from, vtx, flags, k - 1);
      AmountsAreSteps(env, index, nFile, nBlockPos, from, vtx, flags, k - 1);
      WrittenAt(env, nFile, nBlockPos, from, vtx, k - 1);
      BooksBalanceIff(env, index, nFile, nBlockPos, flags,
                      Amounts(env, index, nFile, nBlockPos, from, vtx, flags, k - 1).value, vtx[k - 1]);
    }
  }

  lemma {:induction false} StrictGap(env: Env, index: Index, nFile: nat, nBlockPos: nat, from: nat, vtx: seq<Tx>, k: nat)
    requires k <= |vtx| && IndexOk(env, index) && Written(env, nFile, nBlockPos, from, vtx) && UniqueTx(vtx)
    requires Amounts(env, index, nFile, nBlockPos, from, vtx, CONNECT, |vtx|).Some?
    ensures Gap(env, index, nFile, nBlockPos, from, vtx, k) == 0
  {
    hide Amounts, IndexOk, Written, UniqueTx, Steps, Spendable, NumSpent, Closed, Tolerated, Overwritten;
    if k > 0 {
      StrictGap(env, index, nFile, nBlockPos, from, vtx, k - 1);
      StepOf(env, index, nFile, nBlockPos, from, vtx, CONNECT, k - 1);
      LaterAreClosed(env, index, nFile, nBlockPos, from, vtx, k - 1, k - 1);
      StrictStep(env, Steps(index, nFile, nBlockPos, from, vtx, k - 1), vtx[k - 1],
                 TxPos(nFile, nBlockPos, from, vtx, k - 1));
    }
  }

  /** What a block connected without tolerance adds to the recorded money supply
      is what it adds to the value of all unspent outputs. */
  lemma SupplyIsUnspentValue(env: Env, index: Index, nFile: nat, nBlockPos: nat, header: nat, vtx: seq<Tx>)
    requires IndexOk(env, index) && Written(env, nFile, nBlockPos, nBlockPos + header, vtx) && UniqueTx(vtx)
    requires BlockAmounts(env, index, nFile, nBlockPos, header, vtx, CONNECT).Some?
    ensures var t := BlockAmounts(env, index, nFile, nBlockPos, header, vtx, CONNECT).value;
      && Unspent(env, index + t.pool) == Unspent(env, index) + t.nValueOut - t.nValueIn
      && IndexOk(env, index + t.pool)
  {
    hide Amounts, IndexOk, Written, UniqueTx, Unspent, Gap;
    BlockValue(env, index, nFile, nBlockPos, nBlockPos + header, vtx, CONNECT, |vtx|);
    StrictGap(env, index, nFile, nBlockPos, nBlockPos + header, vtx, |vtx|);
    AmountsAreSteps(env, index, nFile, nBlockPos, nBlockPos + header, vtx, CONNECT, |vtx|);
  }

  /** With tolerance the two differ by the gap of the block, and agree exactly if
      there is none. */
  lemma SupplyMissesByGap(env: Env, index: Index, nFile: nat, nBlockPos: nat, header: nat, vtx: seq<Tx>)
    requires IndexOk(env, index) && Written(env, nFile, nBlockPos, nBlockPos + header, vtx)
    requires BlockAmounts(env, index, nFile, nBlockPos, header, vtx, TOLERATE).Some?
    ensures var t := BlockAmounts(env, index, nFile, nBlockPos, header, vtx, TOLERATE).value;
      var gap := Gap(env, index, nFile, nBlockPos, nBlockPos + header, vtx, |vtx|);
      && Unspent(env, index + t.pool) == Unspent(env, index) + t.nValueOut - t.nValueIn + gap
      && (Unspent(env, index + t.pool) == Unspent(env, index) + t.nValueOut - t.nValueIn <==> gap == 0)
      && IndexOk(env, index + t.pool)
  {
    hide Amounts, IndexOk, Written, Unspent, Gap;
    BlockValue(env, index, nFile, nBlockPos, nBlockPos + header, vtx, TOLERATE, |vtx|);
    AmountsAreSteps(env, index, nFile, nBlockPos, nBlockPos + header, vtx, TOLERATE, |vtx|);
  }

  /** In a proof-of-stake block only the coinstake creates or destroys money besides the fees. */
  lemma {:induction false} StakeAmounts(env: Env, index: Index, nFile: nat, nBlockPos: nat, from: nat,
                                        b: Block, flags: Flags, k: nat)
    requires 1 <= k <= |b.vtx| && BlockOk(b) && b.IsProofOfStake()
    requires Amounts(env, index, nFile, nBlockPos, from, b.vtx, flags, k).Some?
    ensures var t := Amounts(env, index, nFile, nBlockPos, from, b.vtx, flags, k).value;
      t.nValueOut - t.nValueIn == t.nStakeReward - t.nFees && (k == 1 ==> t.nStakeReward == 0)
    decreases k
  {
    hide AddTx, UniqueTx, TransactionOk;
    LastAmount(env, index, nFile, nBlockPos, from, b.vtx, flags, k - 1);
    var t := Amounts(env, index, nFile, nBlockPos, from, b.vtx, flags, k - 1).value;
    AddTxMoney(env, index, nFile, nBlockPos, flags, t, b.vtx[k - 1]);
    if k == 1 {
      CoinbaseIsEmpty(b);
    } else {
      StakeAmounts(env, index, nFile, nBlockPos, from, b, flags, k - 1);
    }
  }

  lemma CoinbaseIsEmpty(b: Block)
    requires BlockOk(b) && b.IsProofOfStake()
    ensures ValueOut(b.vtx[0]) == 0 && !b.vtx[0].IsCoinStake()
  {
    hide UniqueTx, TransactionOk;
    var vout := b.vtx[0].vout;
    assert vout[..|vout| - 1] == [] && vout[0].IsEmpty();
    assert SumOut(vout) == SumOut([]) + vout[0].nValue;
  }

  /** Above height 17901, an accepted proof-of-stake block raises the unspent
      value by no more than the subsidy of its height, whatever fees it collects,
      and by the gap of its transactions; without tolerance there is no gap. */
  lemma StakeRaisesBySubsidy(env: Env, index: Index, b: Block, nFile: nat, nBlockPos: nat, nHeight: int,
                             supplyBefore: int, header: nat, flags: Flags, j: Judgement)
    requires flags == CONNECT || flags == TOLERATE
    requires IndexOk(env, index) && Written(env, nFile, nBlockPos, nBlockPos + header, b.vtx)
    requires b.IsProofOfStake() && nHeight > 17901
    requires Acceptable(env, index, b, nFile, nBlockPos, nHeight, supplyBefore, header, flags, j)
    ensures var t := BlockAmounts(env, index, nFile, nBlockPos, header, b.vtx, flags).value;
      var gap := Gap(env, index, nFile, nBlockPos, nBlockPos + header, b.vtx, |b.vtx|);
      && Unspent(env, index + t.pool) <= Unspent(env, index) + Emission.Subsidy(nHeight) + gap
      && (flags == CONNECT ==> gap == 0)
  {
    hide Amounts, IndexOk, Written, UniqueTx, Unspent, TransactionOk, Emission.Subsidy, Gap;
    BlockValue(env, index, nFile, nBlockPos, nBlockPos + header, b.vtx, flags, |b.vtx|);
    if flags == CONNECT { StrictGap(env, index, nFile, nBlockPos, nBlockPos + header, b.vtx, |b.vtx|); }
    StakeAmounts(env, index, nFile, nBlockPos, nBlockPos + header, b, flags, |b.vtx|);
  }
}
