// Concrete blocks for which connecting and disconnecting fall short.
module IndexFailures {
  import opened Options
  import opened Transactions
  import opened TxIndex
  import opened ConnectBlock
  import opened IndexSteps
  import opened IndexUndo
  import opened IndexTolerance
  import opened Supply
  import Emission

  const NO_INPUT: OutPoint := OutPoint(0, 0xFFFF_FFFF)
  const WORTH: int := 1000 * 100_000_000

  /** A coinbase of 1000 coins that the chain holds, and where it lies. */
  const PAID: Tx := Tx(7, 0, [NO_INPUT], [TxOut(WORTH, false)], 100, 2, 0)
  const PAID_POS: DiskTxPos := At(2, 8, 88)
  const SPENDER_POS: DiskTxPos := At(2, 8, 188)

  /** The block before the one at hand; PAID lies further back. */
  const PREVIOUS: ChainBlock := ChainBlock(2, 900, 19999)
  const MATURITY: int := 80

  const HEADER: nat := 80
  const BLOCK_POS: nat := 1000

  /** The place of a block's first and second transaction, each 100 bytes long. */
  const FIRST: DiskTxPos := At(3, 1000, 1080)
  const SECOND: DiskTxPos := At(3, 1000, 1180)

  function Disk(first: Tx, second: Tx, pos: DiskTxPos): Option<Tx> {
    if pos == PAID_POS then Some(PAID)
    else if pos == FIRST then Some(first)
    else if pos == SECOND then Some(second)
    else None
  }

  function Surroundings(first: Tx, second: Tx): Env {
    Env(pos => Disk(first, second, pos), map[], (a, b, i) => true, tx => 0, (tx, inputs) => 0, false, [PREVIOUS], MATURITY)
  }

  function SpentIndex(): Index { map[7 := TxEntry(PAID_POS, [SPENDER_POS])] }

  function UnspentIndex(): Index { map[7 := TxEntry(PAID_POS, [Null])] }

  lemma OneTransaction(tx: Tx)
    requires tx.nSize == 100
    ensures Written(Surroundings(tx, tx), 3, BLOCK_POS, BLOCK_POS + HEADER, [tx]) && UniqueTx([tx])
    ensures TxPos(3, BLOCK_POS, BLOCK_POS + HEADER, [tx], 0) == FIRST
  {
    assert Sizes([tx], 0) == 0;
  }

  lemma SpentIndexOk(env: Env)
    requires env.read(PAID_POS) == Some(PAID)
    ensures IndexOk(env, SpentIndex()) && IndexOk(env, UnspentIndex())
  {
  }

  /** A block that repeats a coinbase all spent: connecting it without
      tolerance and disconnecting it loses the entry of the old transaction. */
  lemma EntryIsLost()
    ensures var env, vtx := Surroundings(PAID, PAID), [PAID];
      && IndexOk(env, SpentIndex()) && Written(env, 3, BLOCK_POS, BLOCK_POS + HEADER, vtx) && UniqueTx(vtx)
      && BlockAmounts(env, SpentIndex(), 3, BLOCK_POS, HEADER, vtx, CONNECT).Some?
      && var pool := BlockAmounts(env, SpentIndex(), 3, BLOCK_POS, HEADER, vtx, CONNECT).value.pool;
         DisconnectedFrom(SpentIndex() + pool, vtx, 0) == Undo(true, map[]) != Undo(true, SpentIndex())
  {
    hide IndexOk, Written, DisconnectedFrom;
    var env, vtx := Surroundings(PAID, PAID), [PAID];
    OneTransaction(PAID);
    SpentIndexOk(env);
    CoinbaseConnects(env, SpentIndex(), CONNECT);
    DisconnectAfterConnect(env, SpentIndex(), 3, BLOCK_POS, HEADER, vtx);
    assert HashesFrom(vtx, 1) == {};
    assert SpentIndex() - {7} == map[];
  }

  lemma CoinbaseConnects(env: Env, index: Index, flags: Flags)
    requires flags == TOLERATE || (flags == CONNECT && index == SpentIndex())
    ensures BlockAmounts(env, index, 3, BLOCK_POS, HEADER, [PAID], flags).Some?
    ensures var t := BlockAmounts(env, index, 3, BLOCK_POS, HEADER, [PAID], flags).value;
      t.nValueOut == WORTH && t.nValueIn == 0
  {
    var vtx := [PAID];
    assert Amounts(env, index, 3, BLOCK_POS, BLOCK_POS + HEADER, vtx, flags, 0) == Some(Start(BLOCK_POS + HEADER));
    assert [TxOut(WORTH, false)][..0] == [];
    assert ValueOut(PAID) == SumOut([]) + WORTH;
  }

  lemma NothingSpentByCoinbase(env: Env, e: Index, tx: Tx, pos: DiskTxPos)
    requires tx.IsCoinBase()
    ensures Tolerated(env, e, tx, pos) == 0
    ensures Overwritten(env, e, tx, pos) == if tx.hash in e then EntryValue(env, e[tx.hash]) else 0
  {
    NoMarks(e, tx, pos);
    NumSpentIs(e, tx, pos, 0, 0);
  }

  lemma PaidValue(env: Env)
    requires env.read(PAID_POS) == Some(PAID)
    ensures EntryValue(env, TxEntry(PAID_POS, [Null])) == WORTH
    ensures EntryValue(env, TxEntry(PAID_POS, [SPENDER_POS])) == 0
  {
    var open: seq<DiskTxPos> := [Null];
    assert [TxOut(WORTH, false)][..0] == [] && open[..0] == [] && [SPENDER_POS][..0] == [];
    assert SumUnspent([], []) == 0;
  }

  /** With tolerance, a coinbase that repeats an unspent one adds 1000 coins to
      the money supply, which are counted twice then: the unspent value stays. */
  lemma OverwriteUnbalances()
    ensures var env, vtx := Surroundings(PAID, PAID), [PAID];
      && BlockAmounts(env, UnspentIndex(), 3, BLOCK_POS, HEADER, vtx, TOLERATE).Some?
      && var t := BlockAmounts(env, UnspentIndex(), 3, BLOCK_POS, HEADER, vtx, TOLERATE).value;
         && t.nValueOut - t.nValueIn == WORTH
         && Unspent(env, UnspentIndex() + t.pool) == Unspent(env, UnspentIndex())
  {
    hide IndexOk, Written, Unspent, Amounts, Tolerated, Overwritten, EntryValue;
    var env, vtx := Surroundings(PAID, PAID), [PAID];
    OneTransaction(PAID);
    SpentIndexOk(env);
    CoinbaseConnects(env, UnspentIndex(), TOLERATE);
    SupplyMissesByGap(env, UnspentIndex(), 3, BLOCK_POS, HEADER, vtx);
    NothingSpentByCoinbase(env, UnspentIndex(), PAID, FIRST);
    PaidValue(env);
    assert Gap(env, UnspentIndex(), 3, BLOCK_POS, BLOCK_POS + HEADER, vtx, 0) == 0;
    assert Steps(UnspentIndex(), 3, BLOCK_POS, BLOCK_POS + HEADER, vtx, 0) == UnspentIndex();
  }

  // --------------------------------------------------------- a proof-of-stake block

  function EmptyCoinbase(): Tx { Tx(1, 0, [NO_INPUT], [TxOut(0, true)], 100, 2, 0) }

  /** A coinstake whose one input, the old coinbase, is spent already. */
  function Restake(): Tx { Tx(2, 0, [OutPoint(7, 0)], [TxOut(0, true), TxOut(WORTH, false)], 100, 2, 0) }

  function StakeBlock(): Block { Block([EmptyCoinbase(), Restake()]) }

  lemma OutputsFine(tx: Tx)
    requires tx == EmptyCoinbase() || tx == Restake()
    ensures TransactionOk(tx) && ValueOut(tx) == if tx == Restake() then WORTH else 0
  {
    var none: seq<TxOut> := [];
    assert SumOut(none) == 0;
    assert tx.vout[..0] == none && tx.vout[..1] == [TxOut(0, true)];
    assert SumOut([TxOut(0, true)]) == 0 by { assert [TxOut(0, true)][..0] == none; }
    assert tx.vout[..|tx.vout|] == tx.vout;
    if tx == Restake() {
      assert SumOut(tx.vout) == SumOut(tx.vout[..1]) + WORTH;
    }
    forall k | 0 <= k <= |tx.vout| ensures MoneyRange(SumOut(tx.vout[..k])) {
      assert k == 0 || k == 1 || k == 2;
    }
  }

  lemma StakeBlockOk()
    ensures BlockOk(StakeBlock()) && StakeBlock().IsProofOfStake()
    ensures var env := Surroundings(EmptyCoinbase(), Restake());
      Written(env, 3, BLOCK_POS, BLOCK_POS + HEADER, StakeBlock().vtx)
    ensures TxPos(3, BLOCK_POS, BLOCK_POS + HEADER, StakeBlock().vtx, 0) == FIRST
    ensures TxPos(3, BLOCK_POS, BLOCK_POS + HEADER, StakeBlock().vtx, 1) == SECOND
  {
    hide TransactionOk, ValueOut;
    OutputsFine(EmptyCoinbase());
    OutputsFine(Restake());
    var vtx := StakeBlock().vtx;
    assert Sizes(vtx, 0) == 0 && Sizes(vtx, 1) == 100;
    assert SigOps(vtx[..0]) == 0 && SigOps(vtx[..1]) == 0 by { assert vtx[..1][..0] == []; }
    assert SigOps(vtx) == 0 by { assert vtx[..|vtx| - 1] == vtx[..1]; }
  }

  function AfterCoinbase(): Index { SpentIndex()[1 := NewEntry(FIRST, 1)] }

  function CoinbaseTotals(): Totals {
    Totals(map[1 := NewEntry(FIRST, 1)], 0, 0, 0, 0, 0, BLOCK_POS + HEADER + 100)
  }

  lemma CoinbaseAmounts(env: Env)
    ensures Amounts(env, SpentIndex(), 3, BLOCK_POS, BLOCK_POS + HEADER, StakeBlock().vtx, TOLERATE, 1) ==
            Some(CoinbaseTotals())
    ensures SpentIndex() + CoinbaseTotals().pool == AfterCoinbase()
  {
    hide ValueOut;
    OutputsFine(EmptyCoinbase());
    assert Amounts(env, SpentIndex(), 3, BLOCK_POS, BLOCK_POS + HEADER, StakeBlock().vtx, TOLERATE, 0) ==
           Some(Start(BLOCK_POS + HEADER));
  }

  function PaidInputs(): PrevTxs { map[7 := PrevTx(TxEntry(PAID_POS, [SPENDER_POS]), PAID)] }

  lemma PaidFetched(env: Env)
    requires env.read(PAID_POS) == Some(PAID)
    ensures Fetched(env, SpentIndex(), CoinbaseTotals().pool, true, false, Restake()) == PaidInputs()
    ensures AllInRange(Restake(), PaidInputs()) && ValueIn(PaidInputs(), Restake(), 1) == WORTH
  {
    var inputs := Fetched(env, SpentIndex(), CoinbaseTotals().pool, true, false, Restake());
    assert OutPoint(7, 0) in Restake().vin && 7 in PrevHashes(Restake());
    assert FetchOne(env, SpentIndex(), CoinbaseTotals().pool, true, false, 7) == Some(PaidInputs()[7]);
    forall h | h in inputs ensures h == 7 {
      assert h in PrevHashes(Restake());
      var o :| o in Restake().vin && o.hash == h;
    }
    assert inputs.Keys == {7};
    assert ValueIn(PaidInputs(), Restake(), 0) == 0;
  }

  lemma PaidIsUsed(env: Env)
    requires env.chain == [PREVIOUS] && env.read(PAID_POS) == Some(PAID)
    ensures Connected(env, Restake(), PaidInputs(), CoinbaseTotals().pool, SECOND, true, false) ==
            (AlreadyUsed, CoinbaseTotals().pool)
  {
    PaidFetched(env);
    var tx, inputs, pool := Restake(), PaidInputs(), CoinbaseTotals().pool;
    assert InputPasses(env, tx, inputs, 0);
    assert InputsPass(env, tx, inputs);
    assert Spend(env, tx, inputs, pool, SECOND, true, false, 0) == Spending(Done, inputs, pool);
    assert Spend(env, tx, inputs, pool, SECOND, true, false, 1) == Spending(AlreadyUsed, inputs, pool);
  }

  lemma RestakeAmounts()
    ensures var env := Surroundings(EmptyCoinbase(), Restake());
      BlockAmounts(env, SpentIndex(), 3, BLOCK_POS, HEADER, StakeBlock().vtx, TOLERATE) ==
      Some(Totals(CoinbaseTotals().pool[2 := NewEntry(SECOND, 2)], 0, WORTH, WORTH, 0, 0, BLOCK_POS + HEADER + 200))
  {
    hide Connected, Fetched, ValueIn, ValueOut, AllInRange;
    var env := Surroundings(EmptyCoinbase(), Restake());
    CoinbaseAmounts(env);
    PaidFetched(env);
    PaidIsUsed(env);
    OutputsFine(Restake());
    assert SECOND == PosOf(3, BLOCK_POS, CoinbaseTotals());
    assert StakeBlock().vtx[1] == Restake();
  }

  lemma RestakeGap()
    ensures var env := Surroundings(EmptyCoinbase(), Restake());
      Gap(env, SpentIndex(), 3, BLOCK_POS, BLOCK_POS + HEADER, StakeBlock().vtx, 2) == WORTH
  {
    hide TxPos, EntryValue;
    var env := Surroundings(EmptyCoinbase(), Restake());
    var vtx := StakeBlock().vtx;
    StakeBlockOk();
    NothingSpentByCoinbase(env, SpentIndex(), EmptyCoinbase(), FIRST);
    assert Gap(env, SpentIndex(), 3, BLOCK_POS, BLOCK_POS + HEADER, vtx, 0) == 0;
    assert Gap(env, SpentIndex(), 3, BLOCK_POS, BLOCK_POS + HEADER, vtx, 1) == 0;
    NoMarks(SpentIndex(), EmptyCoinbase(), FIRST);
    NumSpentIs(SpentIndex(), EmptyCoinbase(), FIRST, 0, 0);
    assert Steps(SpentIndex(), 3, BLOCK_POS, BLOCK_POS + HEADER, vtx, 1) == AfterCoinbase();
    NoMarks(AfterCoinbase(), Restake(), SECOND);
    NumSpentIs(AfterCoinbase(), Restake(), SECOND, 0, 0);
    assert InputValue(env, AfterCoinbase(), Restake(), 0, 0) == 0;
    assert OutputValue(env, AfterCoinbase(), OutPoint(7, 0)) == WORTH;
  }

  /** With tolerance, a proof-of-stake block that stakes a spent output again is
      accepted, and raises the unspent value by 1000 coins where the subsidy is
      at most 40. */
  lemma RestakeExceedsSubsidy()
    ensures var env, b := Surroundings(EmptyCoinbase(), Restake()), StakeBlock();
      && b.IsProofOfStake()
      && Acceptable(env, SpentIndex(), b, 3, BLOCK_POS, 20000, 1, HEADER, TOLERATE, Judgement(true, false, Some(0), true))
      && var t := BlockAmounts(env, SpentIndex(), 3, BLOCK_POS, HEADER, b.vtx, TOLERATE).value;
         && t.nValueOut - t.nValueIn == 0
         && Unspent(env, SpentIndex() + t.pool) == Unspent(env, SpentIndex()) + WORTH
         && WORTH > Emission.Subsidy(20000)
  {
    hide BlockOk, BlockAmounts, IndexOk, Written, Unspent, Gap, Emission.Subsidy;
    var env := Surroundings(EmptyCoinbase(), Restake());
    StakeBlockOk();
    SpentIndexOk(env);
    RestakeAmounts();
    RestakeGap();
    SupplyMissesByGap(env, SpentIndex(), 3, BLOCK_POS, HEADER, StakeBlock().vtx);
    Emission.SubsidyRange(20000);
  }

  /** Nor does disconnecting that block give the old index back. */
  lemma RestakeIsNotRestored()
    ensures var env, vtx := Surroundings(EmptyCoinbase(), Restake()), StakeBlock().vtx;
      var t := BlockAmounts(env, SpentIndex(), 3, BLOCK_POS, HEADER, vtx, TOLERATE);
      t.Some? && DisconnectedFrom(SpentIndex() + t.value.pool, vtx, 0) != Undo(true, SpentIndex())
  {
    hide BlockAmounts, IndexOk, Written, DisconnectedFrom;
    var env, vtx := Surroundings(EmptyCoinbase(), Restake()), StakeBlock().vtx;
    StakeBlockOk();
    SpentIndexOk(env);
    RestakeAmounts();
    RestoredIff(env, SpentIndex(), 3, BLOCK_POS, HEADER, vtx, TOLERATE);
    assert InputsFrom(vtx, 2) == [] && InputsFrom(vtx, 1) == [] + Restake().vin[..1];
    assert OutPoint(7, 0) in InputsFrom(vtx, 1) && OutPoint(7, 0) in InputsFrom(vtx, 0);
    assert Exists(SpentIndex(), OutPoint(7, 0)) && !IsUnspent(SpentIndex(), OutPoint(7, 0));
  }
}
