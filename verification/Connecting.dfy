// What it takes for a transaction to be connected, input by input.
module Connecting {
  import opened HashType
  import opened Options
  import opened Transactions
  import opened TxIndex

  /** The output that input i names is in range. */
  predicate Named(tx: Tx, inputs: PrevTxs, i: nat)
    requires i < |tx.vin|
  {
    var o := tx.vin[i];
    o.hash in inputs && o.n < |inputs[o.hash].tx.vout| && o.n < |inputs[o.hash].entry.vSpent|
  }

  /** It is not spent, and no earlier input of the transaction names it. */
  ghost predicate Free(tx: Tx, inputs: PrevTxs, i: nat)
    requires i < |tx.vin| && Named(tx, inputs, i)
  {
    && inputs[tx.vin[i].hash].entry.vSpent[tx.vin[i].n] == Null
    && forall j | 0 <= j < i :: tx.vin[j] != tx.vin[i]
  }

  /** Its signature verifies, unless blocks this old are not asked for any. */
  predicate Signed(env: Env, tx: Tx, inputs: PrevTxs, fBlock: bool, i: nat)
    requires i < |tx.vin| && Named(tx, inputs, i)
  {
    (fBlock && env.belowCheckpoint) || env.verifySignature(inputs[tx.vin[i].hash].tx, tx, i)
  }

  ghost predicate FreeAndSigned(env: Env, tx: Tx, inputs: PrevTxs, fBlock: bool, i: nat)
    requires i < |tx.vin|
  {
    Named(tx, inputs, i) && Free(tx, inputs, i) && Signed(env, tx, inputs, fBlock, i)
  }

  /** Input i is the first that is not free. */
  ghost predicate StopsAt(env: Env, tx: Tx, inputs: PrevTxs, fBlock: bool, i: nat)
    requires i < |tx.vin|
  {
    && (forall j | 0 <= j < i :: FreeAndSigned(env, tx, inputs, fBlock, j))
    && Named(tx, inputs, i) && !Free(tx, inputs, i)
  }

  /** The queued entry counts before the one in the index, in blocks only; the
      transaction is read from where the entry points, or taken from the memory
      pool if that is where it points.  Without an entry there is nothing in a
      block, and a memory pool transaction with nothing spent elsewhere. */
  lemma FetchedIs(env: Env, index: Index, pool: Index, fBlock: bool, fMiner: bool, h: Hash)
    ensures var p := FetchOne(env, index, pool, fBlock, fMiner, h);
      var e := if fBlock || fMiner then index + pool else index;
      if h in e then
        && (p.Some? ==> p.value.entry == e[h])
        && (if e[h].pos == At(1, 1, 1)
            then (p.Some? <==> h in env.mempool) && (p.Some? ==> p.value.tx == env.mempool[h])
            else (p.Some? <==> env.read(e[h].pos).Some?) && (p.Some? ==> Some(p.value.tx) == env.read(e[h].pos)))
      else
        && (p.Some? <==> h in env.mempool && !fBlock && !fMiner)
        && (p.Some? ==>
              p.value.tx == env.mempool[h] && p.value.entry.pos == Null &&
              |p.value.entry.vSpent| == |env.mempool[h].vout| &&
              forall n | 0 <= n < |p.value.entry.vSpent| :: p.value.entry.vSpent[n] == Null)
  {
  }

  // --------------------------------------------------------------------- spending

  /** After k inputs: the same transactions, and the named outputs marked. */
  ghost predicate SpentUpTo(tx: Tx, inputs: PrevTxs, p: PrevTxs, pos: DiskTxPos, k: nat)
    requires k <= |tx.vin|
  {
    && p.Keys == inputs.Keys
    && forall h | h in inputs ::
         && p[h].tx == inputs[h].tx && p[h].entry.pos == inputs[h].entry.pos
         && |p[h].entry.vSpent| == |inputs[h].entry.vSpent|
         && forall n | 0 <= n < |p[h].entry.vSpent| ::
              p[h].entry.vSpent[n] == if OutPoint(h, n) in tx.vin[..k] then pos else inputs[h].entry.vSpent[n]
  }

  lemma SpentOneMore(tx: Tx, inputs: PrevTxs, p: PrevTxs, pos: DiskTxPos, k: nat)
    requires k < |tx.vin| && SpentUpTo(tx, inputs, p, pos, k) && Named(tx, inputs, k)
    ensures var o := tx.vin[k];
      var prev := p[o.hash];
      SpentUpTo(tx, inputs, p[o.hash := prev.(entry := prev.entry.(vSpent := prev.entry.vSpent[o.n := pos]))], pos, k + 1)
  {
    var o := tx.vin[k];
    assert tx.vin[..k + 1] == tx.vin[..k] + [o];
    assert forall h, n: nat :: OutPoint(h, n) in tx.vin[..k + 1] <==> OutPoint(h, n) in tx.vin[..k] || OutPoint(h, n) == o;
  }

  /** Spending gets past the first k inputs exactly if each of them is free and
      signed, and stops for a spent output exactly at the first that is not free. */
  lemma {:induction false} SpendIff(env: Env, tx: Tx, inputs: PrevTxs, pool: Index, pos: DiskTxPos, fBlock: bool,
                                    fMiner: bool, k: nat)
    requires k <= |tx.vin| && pos != Null
    ensures var s := Spend(env, tx, inputs, pool, pos, fBlock, fMiner, k);
      && (s.outcome == Done <==> forall i | 0 <= i < k :: FreeAndSigned(env, tx, inputs, fBlock, i))
      && (s.outcome == Done ==> SpentUpTo(tx, inputs, s.inputs, pos, k))
      && (s.outcome == AlreadyUsed <==>
            exists i | 0 <= i < k :: StopsAt(env, tx, inputs, fBlock, i))
  {
    hide FreeAndSigned, SpentUpTo, Free, Named, StopsAt;
    if k == 0 {
      NothingSpentYet(tx, inputs, pos);
    } else {
      SpendIff(env, tx, inputs, pool, pos, fBlock, fMiner, k - 1);
      var s := Spend(env, tx, inputs, pool, pos, fBlock, fMiner, k - 1);
      if s.outcome == Done {
        SpendRound(env, tx, inputs, pool, pos, fBlock, fMiner, k - 1);
        StopsNowOnly(env, tx, inputs, fBlock, k);
      } else {
        StaysStopped(env, tx, inputs, fBlock, k);
      }
    }
  }

  lemma NothingSpentYet(tx: Tx, inputs: PrevTxs, pos: DiskTxPos)
    ensures SpentUpTo(tx, inputs, inputs, pos, 0)
  {
  }

  /** One more input after a stop changes nothing. */
  lemma StaysStopped(env: Env, tx: Tx, inputs: PrevTxs, fBlock: bool, k: nat)
    requires 0 < k <= |tx.vin| && !(forall i | 0 <= i < k - 1 :: FreeAndSigned(env, tx, inputs, fBlock, i))
    ensures (exists i | 0 <= i < k :: StopsAt(env, tx, inputs, fBlock, i)) <==>
            (exists i | 0 <= i < k - 1 :: StopsAt(env, tx, inputs, fBlock, i))
  {
    hide FreeAndSigned, Free, Named;
  }

  lemma StopsNowOnly(env: Env, tx: Tx, inputs: PrevTxs, fBlock: bool, k: nat)
    requires 0 < k <= |tx.vin| && forall i | 0 <= i < k - 1 :: FreeAndSigned(env, tx, inputs, fBlock, i)
    ensures (exists i | 0 <= i < k :: StopsAt(env, tx, inputs, fBlock, i)) <==>
            Named(tx, inputs, k - 1) && !Free(tx, inputs, k - 1)
  {
    hide Free, Named, Signed;
    assert StopsAt(env, tx, inputs, fBlock, k - 1) <==> Named(tx, inputs, k - 1) && !Free(tx, inputs, k - 1);
    forall i | 0 <= i < k - 1 ensures !StopsAt(env, tx, inputs, fBlock, i) {
      assert FreeAndSigned(env, tx, inputs, fBlock, i);
    }
  }

  lemma SpendRound(env: Env, tx: Tx, inputs: PrevTxs, pool: Index, pos: DiskTxPos, fBlock: bool, fMiner: bool, i: nat)
    requires i < |tx.vin| && pos != Null
    requires var s := Spend(env, tx, inputs, pool, pos, fBlock, fMiner, i);
      s.outcome == Done && SpentUpTo(tx, inputs, s.inputs, pos, i)
    requires forall j | 0 <= j < i :: FreeAndSigned(env, tx, inputs, fBlock, j)
    ensures var t := Spend(env, tx, inputs, pool, pos, fBlock, fMiner, i + 1);
      && (t.outcome == Done <==> FreeAndSigned(env, tx, inputs, fBlock, i))
      && (t.outcome == Done ==> SpentUpTo(tx, inputs, t.inputs, pos, i + 1))
      && (t.outcome == AlreadyUsed <==> Named(tx, inputs, i) && !Free(tx, inputs, i))
  {
    var s := Spend(env, tx, inputs, pool, pos, fBlock, fMiner, i);
    var o := tx.vin[i];
    if Named(tx, inputs, i) {
      SpentOneMore(tx, inputs, s.inputs, pos, i);
      assert o in tx.vin[..i] <==> exists j | 0 <= j < i :: tx.vin[j] == o;
      assert OutPoint(o.hash, o.n) == o;
    }
    hide SpentUpTo;
  }

  // -------------------------------------------------------------- the cheaper checks

  /** A block fewer than so many below the top of the chain holds the position. */
  ghost predicate InYoungBlock(chain: seq<ChainBlock>, maturity: int, pos: DiskTxPos) {
    exists q | 0 <= q < |chain| :: HoldsYoung(chain, maturity, pos, q)
  }

  ghost predicate HoldsYoung(chain: seq<ChainBlock>, maturity: int, pos: DiskTxPos, q: nat)
    requires q < |chain|
  {
    && (forall r | 0 <= r <= q :: chain[0].nHeight - chain[r].nHeight < maturity)
    && pos.At? && pos.nFile == chain[q].nFile && pos.nBlockPos == chain[q].nBlockPos
  }

  lemma {:induction false} YoungFrom(chain: seq<ChainBlock>, maturity: int, pos: DiskTxPos, k: nat)
    requires k <= |chain| && chain != [] && forall r | 0 <= r < k :: chain[0].nHeight - chain[r].nHeight < maturity
    ensures TooYoung(chain[k..], chain[0].nHeight, maturity, pos) <==>
            exists q | k <= q < |chain| :: HoldsYoung(chain, maturity, pos, q)
    decreases |chain| - k
  {
    if k < |chain| && chain[0].nHeight - chain[k].nHeight < maturity {
      YoungFrom(chain, maturity, pos, k + 1);
      assert chain[k..][1..] == chain[k + 1..];
      assert pos.At? && pos.nFile == chain[k].nFile && pos.nBlockPos == chain[k].nBlockPos ==>
        HoldsYoung(chain, maturity, pos, k);
    }
  }

  ghost predicate AllNamed(tx: Tx, inputs: PrevTxs) { forall i | 0 <= i < |tx.vin| :: Named(tx, inputs, i) }

  function Parent(tx: Tx, inputs: PrevTxs, i: nat): PrevTx
    requires i < |tx.vin| && Named(tx, inputs, i)
  {
    inputs[tx.vin[i].hash]
  }

  function OutputOf(tx: Tx, inputs: PrevTxs, i: nat): TxOut
    requires i < |tx.vin| && Named(tx, inputs, i)
  {
    Parent(tx, inputs, i).tx.vout[tx.vin[i].n]
  }

  /** The outputs that the inputs name, in order. */
  ghost function Taken(tx: Tx, inputs: PrevTxs): (outs: seq<TxOut>)
    requires AllNamed(tx, inputs)
    ensures |outs| == |tx.vin| && forall i | 0 <= i < |outs| :: outs[i] == OutputOf(tx, inputs, i)
  {
    seq(|tx.vin|, i requires 0 <= i < |tx.vin| => OutputOf(tx, inputs, i))
  }

  lemma {:induction false} ValueIsSum(tx: Tx, inputs: PrevTxs, k: nat)
    requires k <= |tx.vin| && AllNamed(tx, inputs)
    ensures ValueIn(inputs, tx, k) == SumOut(Taken(tx, inputs)[..k])
  {
    assert Taken(tx, inputs)[..0] == [];
    if k > 0 {
      ValueIsSum(tx, inputs, k - 1);
      var outs := Taken(tx, inputs)[..k];
      assert outs[..k - 1] == Taken(tx, inputs)[..k - 1];
      assert Named(tx, inputs, k - 1) && outs[k - 1] == OutputOf(tx, inputs, k - 1);
      assert |outs| == k && SumOut(outs) == SumOut(outs[..k - 1]) + outs[k - 1].nValue;
    }
  }

  /** The transaction behind an input is mature, if it needs to be, and not younger. */
  ghost predicate FineParent(env: Env, tx: Tx, inputs: PrevTxs, i: nat)
    requires i < |tx.vin| && Named(tx, inputs, i)
  {
    var parent := Parent(tx, inputs, i);
    && (parent.tx.IsCoinBase() || parent.tx.IsCoinStake() ==>
          !InYoungBlock(env.chain, env.coinbaseMaturity, parent.entry.pos))
    && parent.tx.nTime <= tx.nTime
  }

  /** What is asked of the inputs before any signature is looked at. */
  ghost predicate Sensible(env: Env, tx: Tx, inputs: PrevTxs) {
    && AllNamed(tx, inputs)
    && (forall i | 0 <= i < |tx.vin| :: FineParent(env, tx, inputs, i))
    && (forall i | 0 <= i < |tx.vin| :: InMoneyRange(tx, inputs, i))
  }

  /** The value of input i and the sum up to it are amounts of money. */
  ghost predicate InMoneyRange(tx: Tx, inputs: PrevTxs, i: nat)
    requires AllNamed(tx, inputs) && i < |tx.vin|
  {
    && 0 <= Taken(tx, inputs)[i].nValue <= MAX_MONEY
    && 0 <= SumOut(Taken(tx, inputs)[..i + 1]) <= MAX_MONEY
  }

  lemma OnePasses(env: Env, tx: Tx, inputs: PrevTxs, i: nat)
    requires AllNamed(tx, inputs) && i < |tx.vin|
    ensures InputPasses(env, tx, inputs, i) <==> FineParent(env, tx, inputs, i) && InMoneyRange(tx, inputs, i)
  {
    hide SumOut, ValueIn, TooYoung, InYoungBlock;
    ValueIsSum(tx, inputs, i + 1);
    assert Named(tx, inputs, i);
    assert Taken(tx, inputs)[i] == OutputOf(tx, inputs, i);
    YoungIff(env.chain, env.coinbaseMaturity, Parent(tx, inputs, i).entry.pos);
  }

  lemma PassesIff(env: Env, tx: Tx, inputs: PrevTxs)
    ensures InputsPass(env, tx, inputs) <==> Sensible(env, tx, inputs)
  {
    hide SumOut, FineParent, Named, InputPasses, InMoneyRange;
    forall i | 0 <= i < |tx.vin| ensures InputPasses(env, tx, inputs, i) ==> Named(tx, inputs, i) {
      if InputPasses(env, tx, inputs, i) { PassingIsNamed(env, tx, inputs, i); }
    }
    if AllNamed(tx, inputs) {
      forall i | 0 <= i < |tx.vin| { OnePasses(env, tx, inputs, i); }
    }
  }

  lemma PassingIsNamed(env: Env, tx: Tx, inputs: PrevTxs, i: nat)
    requires i < |tx.vin| && InputPasses(env, tx, inputs, i)
    ensures Named(tx, inputs, i)
  {
  }

  lemma YoungIff(chain: seq<ChainBlock>, maturity: int, pos: DiskTxPos)
    ensures (chain != [] && TooYoung(chain, chain[0].nHeight, maturity, pos)) <==> InYoungBlock(chain, maturity, pos)
  {
    if chain != [] {
      YoungFrom(chain, maturity, pos, 0);
      assert chain[0..] == chain;
    }
  }

  /** Inputs less outputs: no less than nothing, no less than the minimum fee, and in range. */
  ghost predicate Pays(env: Env, tx: Tx, inputs: PrevTxs)
    requires AllNamed(tx, inputs)
  {
    var fee := SumOut(Taken(tx, inputs)) - SumOut(tx.vout);
    0 <= fee <= MAX_MONEY && fee >= env.minFee(tx)
  }

  /** A transaction other than a coinbase is connected exactly if its inputs are
      sensible, free and signed and, unless it is a coinstake, it pays; it is
      told to have spent inputs exactly if, sensible, it stops at one. */
  lemma ConnectedIff(env: Env, tx: Tx, inputs: PrevTxs, pool: Index, pos: DiskTxPos, fBlock: bool, fMiner: bool)
    requires !tx.IsCoinBase() && pos != Null
    ensures var outcome := Connected(env, tx, inputs, pool, pos, fBlock, fMiner).0;
      && (outcome == Done <==>
            && Sensible(env, tx, inputs)
            && (forall i | 0 <= i < |tx.vin| :: Free(tx, inputs, i) && Signed(env, tx, inputs, fBlock, i))
            && (tx.IsCoinStake() || Pays(env, tx, inputs)))
      && (outcome == AlreadyUsed <==>
            Sensible(env, tx, inputs) && exists i | 0 <= i < |tx.vin| :: StopsAt(env, tx, inputs, fBlock, i))
  {
    hide InputsPass, Spend, SumOut, ValueIn, Free, Signed, StopsAt, Named;
    PassesIff(env, tx, inputs);
    SpendIff(env, tx, inputs, pool, pos, fBlock, fMiner, |tx.vin|);
    if Sensible(env, tx, inputs) {
      ValueIsSum(tx, inputs, |tx.vin|);
      assert Taken(tx, inputs)[..|tx.vin|] == Taken(tx, inputs);
      forall i | 0 <= i < |tx.vin|
        ensures FreeAndSigned(env, tx, inputs, fBlock, i) <==>
                Free(tx, inputs, i) && Signed(env, tx, inputs, fBlock, i)
      {
        assert Named(tx, inputs, i);
      }
    }
  }

  lemma SensibleIsInRange(env: Env, tx: Tx, inputs: PrevTxs)
    requires Sensible(env, tx, inputs)
    ensures AllInRange(tx, inputs)
  {
    forall o | o in tx.vin ensures InRange(inputs, o) {
      var i :| 0 <= i < |tx.vin| && tx.vin[i] == o;
      assert Named(tx, inputs, i);
    }
  }
}
