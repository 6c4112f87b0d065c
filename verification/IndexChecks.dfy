// A postponed block is attached by a mere check, which writes nothing: what the
// check accepts, compared with connecting the block.
module IndexChecks {
  import opened HashType
  import opened Options
  import opened Transactions
  import opened TxIndex
  import opened ConnectBlock
  import opened IndexSteps
  import opened IndexUndo
  import opened IndexTolerance

  /** The flags that a postponed block gets: SetBestChainInner passes its
      reorganisation flag where the check-only flag stands. */
  const CHECK: Flags := Flags(true, true, true)

  /** The one position that all transactions of the block have in a check. */
  function CheckPos(nFile: nat, nBlockPos: nat): DiskTxPos { At(nFile, nBlockPos, 1) }

  // ------------------------------------------------------------------ alike states

  predicate SameNulls(a: seq<DiskTxPos>, b: seq<DiskTxPos>) {
    |a| == |b| && forall i | 0 <= i < |a| :: a[i] == Null <==> b[i] == Null
  }

  /** The queues of a check and of a connection: the same outputs are spent, and
      the entries of the block's own transactions, ours, are all at here. */
  ghost predicate AlikePools(c: Index, e: Index, here: DiskTxPos, ours: set<Hash>) {
    && c.Keys == e.Keys && ours <= c.Keys
    && forall h | h in c :: SameNulls(c[h].vSpent, e[h].vSpent) && c[h].pos == if h in ours then here else e[h].pos
  }

  ghost predicate AlikeInputs(c: PrevTxs, e: PrevTxs) {
    && c.Keys == e.Keys
    && forall h | h in c ::
         c[h].tx == e[h].tx && c[h].entry.pos == e[h].entry.pos && SameNulls(c[h].entry.vSpent, e[h].entry.vSpent)
  }

  /** The transaction spends nothing from ours. */
  ghost predicate NoneFrom(tx: Tx, ours: set<Hash>) {
    tx.IsCoinBase() || forall o | o in tx.vin :: o.hash !in ours
  }

  // --------------------------------------------------------------------- one transaction

  lemma FetchOneAlike(env: Env, index: Index, c: Index, e: Index, here: DiskTxPos, ours: set<Hash>, h: Hash)
    requires AlikePools(c, e, here, ours) && here != MEMPOOL_POS && env.read(here) == None
    ensures var p, q := FetchOne(env, index, c, true, false, h), FetchOne(env, index, e, true, false, h);
      if h in ours then p == None
      else
        && (p.Some? <==> q.Some?)
        && (p.Some? ==> p.value.tx == q.value.tx && p.value.entry.pos == q.value.entry.pos
                        && SameNulls(p.value.entry.vSpent, q.value.entry.vSpent))
  {
  }

  lemma FetchedAlike(env: Env, index: Index, c: Index, e: Index, here: DiskTxPos, ours: set<Hash>, tx: Tx)
    requires AlikePools(c, e, here, ours) && here != MEMPOOL_POS && env.read(here) == None && !tx.IsCoinBase()
    ensures var p, q := Fetched(env, index, c, true, false, tx), Fetched(env, index, e, true, false, tx);
      && (AllInRange(tx, p) <==> AllInRange(tx, q) && NoneFrom(tx, ours))
      && (NoneFrom(tx, ours) ==> AlikeInputs(p, q))
  {
    hide FetchOne, AlikePools;
    var p, q := Fetched(env, index, c, true, false, tx), Fetched(env, index, e, true, false, tx);
    forall h { FetchOneAlike(env, index, c, e, here, ours, h); }
    if NoneFrom(tx, ours) {
      forall h | h in PrevHashes(tx) ensures h !in ours {
        var o :| o in tx.vin && o.hash == h;
      }
      forall o | o in tx.vin ensures InRange(p, o) <==> InRange(q, o) {
        assert o.hash in PrevHashes(tx);
      }
    } else {
      var o :| o in tx.vin && o.hash in ours;
      assert !InRange(p, o);
    }
  }

  lemma {:induction false} ValueAlike(tx: Tx, c: PrevTxs, e: PrevTxs, k: nat)
    requires AlikeInputs(c, e) && k <= |tx.vin|
    ensures ValueIn(c, tx, k) == ValueIn(e, tx, k)
    ensures k < |tx.vin| ==> (InRange(c, tx.vin[k]) <==> InRange(e, tx.vin[k])) && Worth(c, tx.vin[k]) == Worth(e, tx.vin[k])
  {
    if k > 0 { ValueAlike(tx, c, e, k - 1); }
  }

  lemma PassAlike(env: Env, tx: Tx, c: PrevTxs, e: PrevTxs)
    requires AlikeInputs(c, e)
    ensures InputsPass(env, tx, c) <==> InputsPass(env, tx, e)
    ensures FeeOk(env, tx, c) <==> FeeOk(env, tx, e)
    ensures Parents(c) == Parents(e) && ValueIn(c, tx, |tx.vin|) == ValueIn(e, tx, |tx.vin|)
  {
    hide TooYoung, ValueIn, Worth;
    ValueAlike(tx, c, e, |tx.vin|);
    forall h | h in c ensures Parents(c)[h] == Parents(e)[h] {
    }
    assert Parents(c) == Parents(e);
    forall i | 0 <= i < |tx.vin| ensures InputPasses(env, tx, c, i) <==> InputPasses(env, tx, e, i) {
      ValueAlike(tx, c, e, i);
      ValueAlike(tx, c, e, i + 1);
    }
  }

  lemma {:induction false} SpendAlike(env: Env, tx: Tx, p: PrevTxs, q: PrevTxs, c: Index, e: Index, here: DiskTxPos,
                                      pos: DiskTxPos, ours: set<Hash>, k: nat)
    requires AlikeInputs(p, q) && AlikePools(c, e, here, ours) && here != Null && pos != Null
    requires k <= |tx.vin| && forall o | o in tx.vin :: o.hash !in ours
    ensures var s, r := Spend(env, tx, p, c, here, true, false, k), Spend(env, tx, q, e, pos, true, false, k);
      s.outcome == r.outcome && AlikeInputs(s.inputs, r.inputs) && AlikePools(s.pool, r.pool, here, ours)
  {
    hide Spend, AlikeInputs, AlikePools;
    if k == 0 {
      SpendNone(env, tx, p, c, here, true, false);
      SpendNone(env, tx, q, e, pos, true, false);
    } else {
      SpendAlike(env, tx, p, q, c, e, here, pos, ours, k - 1);
      var s, r := Spend(env, tx, p, c, here, true, false, k - 1), Spend(env, tx, q, e, pos, true, false, k - 1);
      var o := tx.vin[k - 1];
      assert o in tx.vin;
      SpendOneAlike(env, tx, p, q, c, e, here, pos, ours, k, s, r);
    }
  }

  lemma SpendOneAlike(env: Env, tx: Tx, p: PrevTxs, q: PrevTxs, c: Index, e: Index, here: DiskTxPos, pos: DiskTxPos,
                      ours: set<Hash>, k: nat, s: Spending, r: Spending)
    requires 0 < k <= |tx.vin| && tx.vin[k - 1].hash !in ours && here != Null && pos != Null
    requires s == Spend(env, tx, p, c, here, true, false, k - 1) && r == Spend(env, tx, q, e, pos, true, false, k - 1)
    requires s.outcome == r.outcome && AlikeInputs(s.inputs, r.inputs) && AlikePools(s.pool, r.pool, here, ours)
    ensures var s', r' := Spend(env, tx, p, c, here, true, false, k), Spend(env, tx, q, e, pos, true, false, k);
      s'.outcome == r'.outcome && AlikeInputs(s'.inputs, r'.inputs) && AlikePools(s'.pool, r'.pool, here, ours)
  {
    if s.outcome == Done {
      hide AlikeInputs, AlikePools, SameNulls;
      var o := tx.vin[k - 1];
      InputAlike(s.inputs, r.inputs, o);
      if InRange(s.inputs, o) && s.inputs[o.hash].entry.vSpent[o.n] == Null {
        RespentAlike(s.inputs, r.inputs, s.pool, r.pool, here, pos, ours, o);
      }
    }
  }

  lemma InputAlike(p: PrevTxs, q: PrevTxs, o: OutPoint)
    requires AlikeInputs(p, q)
    ensures InRange(p, o) <==> InRange(q, o)
    ensures InRange(p, o) ==>
      p[o.hash].tx == q[o.hash].tx && (p[o.hash].entry.vSpent[o.n] == Null <==> q[o.hash].entry.vSpent[o.n] == Null)
  {
  }

  lemma RespentAlike(p: PrevTxs, q: PrevTxs, c: Index, e: Index, here: DiskTxPos, pos: DiskTxPos, ours: set<Hash>,
                     o: OutPoint)
    requires AlikeInputs(p, q) && AlikePools(c, e, here, ours) && o.hash !in ours && here != Null && pos != Null
    requires InRange(p, o) && InRange(q, o)
    ensures var x, y := Respent(p[o.hash], o.n, here), Respent(q[o.hash], o.n, pos);
      AlikeInputs(p[o.hash := x], q[o.hash := y]) && AlikePools(c[o.hash := x.entry], e[o.hash := y.entry], here, ours)
  {
    var x, y := Respent(p[o.hash], o.n, here), Respent(q[o.hash], o.n, pos);
    assert SameNulls(x.entry.vSpent, y.entry.vSpent);
    hide SameNulls;
  }

  lemma ConnectedAlike(env: Env, tx: Tx, p: PrevTxs, q: PrevTxs, c: Index, e: Index, here: DiskTxPos, pos: DiskTxPos,
                       ours: set<Hash>)
    requires AlikeInputs(p, q) && AlikePools(c, e, here, ours) && here != Null && pos != Null
    requires NoneFrom(tx, ours)
    ensures var x, y := Connected(env, tx, p, c, here, true, false), Connected(env, tx, q, e, pos, true, false);
      x.0 == y.0 && AlikePools(x.1, y.1, here, ours)
  {
    hide AlikeInputs, AlikePools, Spend, InputsPass, FeeOk;
    if !tx.IsCoinBase() {
      PassAlike(env, tx, p, q);
      SpendAlike(env, tx, p, q, c, e, here, pos, ours, |tx.vin|);
    }
  }

  // --------------------------------------------------------------------------- a block

  /** The amounts agree, the queues are alike and the check stays at one position. */
  ghost predicate AlikeTotals(t: Totals, u: Totals, here: DiskTxPos, ours: set<Hash>) {
    && t == u.(pool := t.pool, nTxPos := 1) && AlikePools(t.pool, u.pool, here, ours)
  }

  lemma AddTxAlike(env: Env, index: Index, nFile: nat, nBlockPos: nat, t: Totals, u: Totals, ours: set<Hash>, tx: Tx)
    requires AlikeTotals(t, u, CheckPos(nFile, nBlockPos), ours)
    requires CheckPos(nFile, nBlockPos) != MEMPOOL_POS && env.read(CheckPos(nFile, nBlockPos)) == None
    ensures var t' := AddTx(env, index, nFile, nBlockPos, CHECK, t, tx);
      var u' := AddTx(env, index, nFile, nBlockPos, TOLERATE, u, tx);
      && (t'.Some? <==> u'.Some? && NoneFrom(tx, ours))
      && (t'.Some? ==> AlikeTotals(t'.value, u'.value, CheckPos(nFile, nBlockPos), ours + {tx.hash}))
  {
    hide AlikePools, AlikeInputs, Fetched, Connected, AllInRange, ValueIn, ValueOut, NoneFrom;
    var here, pos := CheckPos(nFile, nBlockPos), PosOf(nFile, nBlockPos, u);
    assert tx.IsCoinBase() ==> NoneFrom(tx, ours) by { CoinbaseFromNone(tx, ours); }
    if tx.IsCoinBase() {
      NewAlike(t.pool, u.pool, here, ours, tx, pos);
    } else {
      FetchedAlike(env, index, t.pool, u.pool, here, ours, tx);
      if NoneFrom(tx, ours) {
        var p, q := Fetched(env, index, t.pool, true, false, tx), Fetched(env, index, u.pool, true, false, tx);
        PassAlike(env, tx, p, q);
        ConnectedAlike(env, tx, p, q, t.pool, u.pool, here, pos, ours);
        NewAlike(Connected(env, tx, p, t.pool, here, true, false).1, Connected(env, tx, q, u.pool, pos, true, false).1,
                 here, ours, tx, pos);
      }
    }
  }

  lemma CoinbaseFromNone(tx: Tx, ours: set<Hash>)
    ensures tx.IsCoinBase() ==> NoneFrom(tx, ours)
  {
  }

  lemma NewAlike(c: Index, e: Index, here: DiskTxPos, ours: set<Hash>, tx: Tx, pos: DiskTxPos)
    requires AlikePools(c, e, here, ours)
    ensures AlikePools(c[tx.hash := NewEntry(here, |tx.vout|)], e[tx.hash := NewEntry(pos, |tx.vout|)], here,
                       ours + {tx.hash})
  {
  }

  function FirstHashes(vtx: seq<Tx>, k: nat): set<Hash>
    requires k <= |vtx|
  {
    if k == 0 then {} else FirstHashes(vtx, k - 1) + {vtx[k - 1].hash}
  }

  /** None of the first k transactions spends from an earlier one. */
  ghost predicate NoInnerSpending(vtx: seq<Tx>, k: nat)
    requires k <= |vtx|
  {
    forall j | 0 <= j < k :: NoneFrom(vtx[j], FirstHashes(vtx, j))
  }

  lemma {:induction false} AmountsAlike(env: Env, index: Index, nFile: nat, nBlockPos: nat, from: nat, vtx: seq<Tx>, k: nat)
    requires k <= |vtx|
    requires CheckPos(nFile, nBlockPos) != MEMPOOL_POS && env.read(CheckPos(nFile, nBlockPos)) == None
    ensures var t := Amounts(env, index, nFile, nBlockPos, 1, vtx, CHECK, k);
      var u := Amounts(env, index, nFile, nBlockPos, from, vtx, TOLERATE, k);
      && (t.Some? <==> u.Some? && NoInnerSpending(vtx, k))
      && (t.Some? ==> AlikeTotals(t.value, u.value, CheckPos(nFile, nBlockPos), FirstHashes(vtx, k)))
  {
    hide AddTx, AlikePools, NoneFrom;
    if k == 0 {
      NothingAlike(CheckPos(nFile, nBlockPos));
    } else {
      AmountsAlike(env, index, nFile, nBlockPos, from, vtx, k - 1);
      var t := Amounts(env, index, nFile, nBlockPos, 1, vtx, CHECK, k - 1);
      var u := Amounts(env, index, nFile, nBlockPos, from, vtx, TOLERATE, k - 1);
      if t.Some? {
        AddTxAlike(env, index, nFile, nBlockPos, t.value, u.value, FirstHashes(vtx, k - 1), vtx[k - 1]);
      }
    }
  }

  lemma NothingAlike(here: DiskTxPos)
    ensures AlikePools(map[], map[], here, {})
  {
  }

  /** If nothing can be read at the check's position, a block passes the check
      exactly if it can be connected and no transaction of it spends from an
      earlier one; the amounts are then the same. */
  lemma CheckedIff(env: Env, index: Index, nFile: nat, nBlockPos: nat, header: nat, vtx: seq<Tx>)
    requires CheckPos(nFile, nBlockPos) != MEMPOOL_POS && env.read(CheckPos(nFile, nBlockPos)) == None
    ensures var t := BlockAmounts(env, index, nFile, nBlockPos, header, vtx, CHECK);
      var u := BlockAmounts(env, index, nFile, nBlockPos, header, vtx, TOLERATE);
      && (t.Some? <==> u.Some? && NoInnerSpending(vtx, |vtx|))
      && (t.Some? ==> t.value == u.value.(pool := t.value.pool, nTxPos := 1))
  {
    hide Amounts, AlikePools, NoInnerSpending;
    AmountsAlike(env, index, nFile, nBlockPos, nBlockPos + header, vtx, |vtx|);
  }

  // -------------------------------------------------------------- disconnecting it

  ghost predicate AllExist(index: Index, outs: seq<OutPoint>) { forall o | o in outs :: Exists(index, o) }

  lemma {:induction false} UnspendFree(index: Index, tx: Tx, k: nat)
    requires k <= |tx.vin| && AllFree(index, tx.vin[..k])
    ensures Unspend(index, tx, k).ok <==> AllExist(index, tx.vin[..k])
    ensures Unspend(index, tx, k).ok ==> Unspend(index, tx, k).index == index
  {
    if k > 0 {
      var o := tx.vin[k - 1];
      assert tx.vin[..k] == tx.vin[..k - 1] + [o];
      assert o in tx.vin[..k];
      assert forall p | p in tx.vin[..k - 1] :: p in tx.vin[..k];
      UnspendFree(index, tx, k - 1);
      assert AllExist(index, tx.vin[..k]) <==> AllExist(index, tx.vin[..k - 1]) && Exists(index, o);
      if Exists(index, o) {
        var entry := index[o.hash];
        assert entry.vSpent[o.n := Null] == entry.vSpent;
        assert index[o.hash := entry] == index;
      }
    }
  }

  /** Disconnecting a block that was never written succeeds exactly if every
      output it names is in the index, and then changes nothing. */
  lemma {:induction false} UndoOfChecked(index: Index, vtx: seq<Tx>, k: nat)
    requires k <= |vtx| && Fresh(index, vtx) && AllFree(index, InputsFrom(vtx, k))
    ensures DisconnectedFrom(index, vtx, k).ok <==> AllExist(index, InputsFrom(vtx, k))
    ensures DisconnectedFrom(index, vtx, k).ok ==> DisconnectedFrom(index, vtx, k).index == index
    decreases |vtx| - k
  {
    if k < |vtx| {
      var later, own := InputsFrom(vtx, k + 1), vtx[k].vin[..InputsOf(vtx[k])];
      forall o | o in later ensures o in InputsFrom(vtx, k) {
      }
      forall o | o in own ensures o in InputsFrom(vtx, k) {
      }
      UndoOfChecked(index, vtx, k + 1);
      assert vtx[k].vin[..|vtx[k].vin|] == vtx[k].vin;
      if !vtx[k].IsCoinBase() { UnspendFree(index, vtx[k], |vtx[k].vin|); }
      assert AllExist(index, InputsFrom(vtx, k)) <==> AllExist(index, later) && AllExist(index, own);
      assert index - {vtx[k].hash} == index;
    }
  }
}
