// A concrete run after which the index lags behind the chain.
module LedgerFailures {
  import opened Options
  import opened Transactions
  import opened TxIndex
  import opened ConnectBlock
  import opened IndexSteps
  import opened IndexTolerance
  import opened IndexChecks
  import opened IndexFailures
  import opened Supply
  import opened Ledger

  /** A proof-of-work block whose coinbase of 1000 coins is its only transaction,
      attached after having been postponed. */
  function Postponed(): Placed {
    Placed(Surroundings(PAID, PAID), Block([PAID]), 3, BLOCK_POS, 5000, HEADER, Judgement(true, false, None, true), Checked)
  }

  /** The chain gets the block and the money supply its 1000 coins, but the index
      does not get its coinbase. */
  lemma CheckedFallsBehind()
    ensures var disk, p := Surroundings(PAID, PAID), Postponed();
      && IndexOk(disk, map[]) && LegalRun(disk, map[], 1, [Connect(p)])
      && Run(map[], 1, [Connect(p)]) == State(map[], [p])
      && SupplyAt(map[], 1, [p]) == 1 + WORTH && Unspent(disk, map[]) == 0
      && Replay(map[], [p]) != map[] && PAID.hash in Replay(map[], [p])
  {
    hide IndexOk, Accepted, Legal, Unspent, Run, LegalRun, SupplyAt, Replay, Postponed;
    var disk, p := Surroundings(PAID, PAID), Postponed();
    NothingStored(disk);
    NothingUnspent(disk);
    PostponedAmounts();
    PostponedIsLegal();
    PostponedHash();
    OnlyOne(disk, map[], 1, p);
    BooksOfOne(map[], 1, p);
  }

  /** What a run of one merely checked block leads to. */
  lemma OnlyOne(disk: Env, start: Index, supply: int, p: Placed)
    requires Legal(disk, State(start, []), Connect(p)) && Accepted(start, supply, p) && p.how == Checked
    ensures LegalRun(disk, start, supply, [Connect(p)]) && Run(start, supply, [Connect(p)]) == State(start, [p])
  {
    hide Legal, Accepted, SupplyAt, DisconnectedFrom;
    BooksOfOne(start, supply, p);
    assert [Connect(p)][..0] == [] && [] + [p] == [p];
    assert Run(start, supply, []) == State(start, []) && LegalRun(disk, start, supply, []);
  }

  lemma BooksOfOne(start: Index, supply: int, p: Placed)
    ensures SupplyAt(start, supply, []) == supply
    ensures SupplyAt(start, supply, [p]) == supply + Added(start, p) && Replay(start, [p]) == Put(start, p)
  {
    hide Put, Added;
    assert [p][..0] == [];
    assert Replay(start, []) == start && Held(start, []) == start;
  }

  lemma PostponedIsLegal()
    ensures Legal(Surroundings(PAID, PAID), State(map[], []), Connect(Postponed()))
  {
    hide Written;
    OneTransaction(PAID);
    NamesNothing();
  }

  lemma PostponedHash()
    ensures PAID.hash in Put(map[], Postponed()) && Postponed().how == Checked
  {
    hide IndexOk, Written;
    OneTransaction(PAID);
    NothingStored(Postponed().env);
    PostponedAmounts();
    PoolKeepsIndex(map[], Postponed());
  }

  lemma NothingStored(env: Env)
    ensures IndexOk(env, map[])
  {
  }

  lemma NothingUnspent(env: Env)
    ensures Unspent(env, map[]) == 0
  {
  }

  lemma NamesNothing()
    ensures InputsFrom([PAID], 0) == [] && UniqueTx([PAID])
  {
    assert InputsFrom([PAID], 1) == [];
  }

  lemma PostponedAmounts()
    ensures AmountsOf(map[], Postponed()).Some? && PoolOf(map[], Postponed()).Some?
    ensures Added(map[], Postponed()) == WORTH
    ensures Accepted(map[], 1, Postponed())
  {
    var p := Postponed();
    PaidIsSound();
    assert Amounts(p.env, map[], 3, BLOCK_POS, 1, [PAID], CHECK, 0) == Some(Start(1));
    assert Amounts(p.env, map[], 3, BLOCK_POS, BLOCK_POS + HEADER, [PAID], TOLERATE, 0) == Some(Start(BLOCK_POS + HEADER));
    assert [PAID][..1] == [PAID] && [PAID][..0] == [];
  }

  lemma PaidIsSound()
    ensures TransactionOk(PAID) && ValueOut(PAID) == WORTH && BlockOk(Block([PAID]))
  {
    assert [TxOut(WORTH, false)][..0] == [] && [TxOut(WORTH, false)][..1] == [TxOut(WORTH, false)];
    assert SumOut([]) == 0;
    assert ValueOut(PAID) == SumOut([]) + WORTH;
    forall k | 0 <= k <= 1 ensures MoneyRange(SumOut(PAID.vout[..k])) {
    }
    assert [PAID][..0] == [];
    assert SigOps([PAID]) == SigOps([]) + 0;
  }
}
