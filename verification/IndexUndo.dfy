// Disconnecting a block right after connecting it.
module IndexUndo {
  import opened HashType
  import opened Transactions
  import opened TxIndex
  import opened ConnectBlock
  import opened IndexSteps

  // ------------------------------------------------------------- one transaction

  predicate SameShape(a: Index, b: Index) {
    a.Keys == b.Keys && forall h | h in a :: a[h].pos == b[h].pos && |a[h].vSpent| == |b[h].vSpent|
  }

  /** Output j of h carries the given mark in b if it is among outs, and what it has in a if not. */
  ghost predicate MarkedAs(a: Index, b: Index, outs: seq<OutPoint>, mark: DiskTxPos) {
    SameShape(a, b) &&
    forall h, j | h in a && 0 <= j < |a[h].vSpent| ::
      b[h].vSpent[j] == if OutPoint(h, j) in outs then mark else a[h].vSpent[j]
  }

  lemma MarkedOnce(a: Index, b: Index, outs: seq<OutPoint>, mark: DiskTxPos, o: OutPoint)
    requires MarkedAs(a, b, outs, mark) && o.hash in b && o.n < |b[o.hash].vSpent|
    ensures MarkedAs(a, SpendOutput(b, o, mark), outs + [o], mark)
  {
    var c := SpendOutput(b, o, mark);
    forall h, j | h in a && 0 <= j < |a[h].vSpent|
      ensures c[h].vSpent[j] == if OutPoint(h, j) in outs + [o] then mark else a[h].vSpent[j]
    {
      assert OutPoint(h, j) in outs + [o] <==> OutPoint(h, j) in outs || OutPoint(h, j) == o;
    }
  }

  /** Marking twice is marking both lists. */
  lemma MarkedBoth(a: Index, b: Index, c: Index, outs: seq<OutPoint>, more: seq<OutPoint>, mark: DiskTxPos)
    requires MarkedAs(a, b, outs, mark) && MarkedAs(b, c, more, mark)
    ensures MarkedAs(a, c, outs + more, mark)
  {
    forall h, j | h in a && 0 <= j < |a[h].vSpent|
      ensures c[h].vSpent[j] == if OutPoint(h, j) in outs + more then mark else a[h].vSpent[j]
    {
      assert OutPoint(h, j) in outs + more <==> OutPoint(h, j) in outs || OutPoint(h, j) in more;
    }
  }

  lemma NothingMarked(e: Index, mark: DiskTxPos)
    ensures MarkedAs(e, e, [], mark)
  {
  }

  ghost predicate AllUnspent(e: Index, outs: seq<OutPoint>) { forall o | o in outs :: IsUnspent(e, o) }

  lemma OneMoreUnspent(a: Index, b: Index, outs: seq<OutPoint>, mark: DiskTxPos, o: OutPoint)
    requires MarkedAs(a, b, outs, mark) && mark != Null && IsUnspent(b, o) && AllUnspent(a, outs)
    ensures AllUnspent(a, outs + [o])
  {
    assert IsUnspent(a, o);
    forall p | p in outs + [o] ensures IsUnspent(a, p) {
      assert p in outs || p == o;
    }
  }

  lemma SpendableBefore(e: Index, tx: Tx, pos: DiskTxPos, k: nat)
    requires 0 < k <= |tx.vin| && Spendable(e, tx, pos, k)
    ensures Spendable(e, tx, pos, k - 1) && IsUnspent(Mark(e, tx, pos, k - 1), tx.vin[k - 1])
    ensures tx.vin[..k] == tx.vin[..k - 1] + [tx.vin[k - 1]]
  {
    hide Mark;
  }

  /** Spending marks the outputs named by the inputs, all unspent before, and no others. */
  lemma {:induction false} MarkAt(e: Index, tx: Tx, pos: DiskTxPos, k: nat)
    requires k <= |tx.vin| && Spendable(e, tx, pos, k) && pos != Null
    ensures MarkedAs(e, Mark(e, tx, pos, k), tx.vin[..k], pos)
    ensures AllUnspent(e, tx.vin[..k])
  {
    hide MarkedAs, SpendOutput, Spendable, AllUnspent;
    if k == 0 {
      NothingMarked(e, pos);
      NoneUnspent(e);
    } else {
      SpendableBefore(e, tx, pos, k);
      MarkAt(e, tx, pos, k - 1);
      var m := Mark(e, tx, pos, k - 1);
      MarkedOnce(e, m, tx.vin[..k - 1], pos, tx.vin[k - 1]);
      OneMoreUnspent(e, m, tx.vin[..k - 1], pos, tx.vin[k - 1]);
    }
  }

  lemma NoneUnspent(e: Index)
    ensures AllUnspent(e, [])
  {
  }

  predicate Exists(e: Index, o: OutPoint) { o.hash in e && o.n < |e[o.hash].vSpent| }

  lemma {:induction false} UnspendAt(x: Index, tx: Tx, k: nat)
    requires k <= |tx.vin| && forall i | 0 <= i < k :: Exists(x, tx.vin[i])
    ensures Unspend(x, tx, k).ok && MarkedAs(x, Unspend(x, tx, k).index, tx.vin[..k], Null)
  {
    if k == 0 {
      NothingMarked(x, Null);
    } else {
      UnspendAt(x, tx, k - 1);
      assert Exists(x, tx.vin[k - 1]);
      GiveBackOne(x, tx, k);
    }
  }

  lemma GiveBackOne(x: Index, tx: Tx, k: nat)
    requires 0 < k <= |tx.vin| && Exists(x, tx.vin[k - 1])
    requires Unspend(x, tx, k - 1).ok && MarkedAs(x, Unspend(x, tx, k - 1).index, tx.vin[..k - 1], Null)
    ensures Unspend(x, tx, k).ok && MarkedAs(x, Unspend(x, tx, k).index, tx.vin[..k], Null)
  {
    var u := Unspend(x, tx, k - 1);
    assert tx.vin[..k] == tx.vin[..k - 1] + [tx.vin[k - 1]];
    assert Exists(u.index, tx.vin[k - 1]);
    MarkedOnce(x, u.index, tx.vin[..k - 1], Null, tx.vin[k - 1]);
  }

  /** Marking unspent outputs and marking them unspent again changes nothing. */
  lemma Cancel(e: Index, m: Index, u: Index, outs: seq<OutPoint>, pos: DiskTxPos)
    requires MarkedAs(e, m, outs, pos) && MarkedAs(m, u, outs, Null) && AllUnspent(e, outs)
    ensures u == e
  {
    forall h | h in e ensures u[h] == e[h] {
      forall j | 0 <= j < |e[h].vSpent| ensures u[h].vSpent[j] == e[h].vSpent[j] {
        if OutPoint(h, j) in outs { assert IsUnspent(e, OutPoint(h, j)); }
      }
    }
  }

  /** Other entries may be added or missing meanwhile. */
  lemma {:induction false} UnspendElsewhere(x: Index, y: Index, tx: Tx, k: nat)
    requires k <= |tx.vin|
    requires forall i | 0 <= i < k :: tx.vin[i].hash in x && tx.vin[i].hash in y && x[tx.vin[i].hash] == y[tx.vin[i].hash]
    requires Unspend(x, tx, k).ok
    ensures Unspend(y, tx, k).ok
    ensures var (u, v) := (Unspend(x, tx, k).index, Unspend(y, tx, k).index);
      && u.Keys == x.Keys && v.Keys == y.Keys
      && (forall h | h in x && h in y && x[h] == y[h] :: u[h] == v[h])
      && (forall h | h in y && (forall i | 0 <= i < k :: tx.vin[i].hash != h) :: v[h] == y[h])
  {
    if k > 0 { UnspendElsewhere(x, y, tx, k - 1); }
  }

  lemma UndoInputs(e: Index, tx: Tx, pos: DiskTxPos)
    requires Spendable(e, tx, pos, |tx.vin|) && pos != Null
    ensures Unspend(Mark(e, tx, pos, |tx.vin|), tx, |tx.vin|) == Undo(true, e)
    ensures forall i | 0 <= i < |tx.vin| :: Exists(Mark(e, tx, pos, |tx.vin|), tx.vin[i]) && Exists(e, tx.vin[i])
    ensures Mark(e, tx, pos, |tx.vin|).Keys == e.Keys
  {
    hide MarkedAs, Mark, Unspend, Spendable, AllUnspent;
    var m := Mark(e, tx, pos, |tx.vin|);
    MarkAt(e, tx, pos, |tx.vin|);
    assert tx.vin[..|tx.vin|] == tx.vin;
    InputsExist(e, m, tx.vin, pos);
    UnspendAt(m, tx, |tx.vin|);
    Cancel(e, m, Unspend(m, tx, |tx.vin|).index, tx.vin, pos);
  }

  lemma InputsExist(e: Index, m: Index, outs: seq<OutPoint>, pos: DiskTxPos)
    requires MarkedAs(e, m, outs, pos) && AllUnspent(e, outs)
    ensures m.Keys == e.Keys && forall i | 0 <= i < |outs| :: Exists(m, outs[i]) && Exists(e, outs[i])
  {
    forall i | 0 <= i < |outs| ensures Exists(m, outs[i]) && Exists(e, outs[i]) {
      assert outs[i] in outs && IsUnspent(e, outs[i]);
    }
  }

  /** Disconnecting a transaction undoes its step and erases its entry, even
      while entries of later transactions are gone. */
  lemma UndoStep(e: Index, tx: Tx, pos: DiskTxPos, gone: set<Hash>)
    requires Spendable(e, tx, pos, InputsOf(tx)) && pos != Null && tx.hash !in gone
    requires forall i | 0 <= i < InputsOf(tx) :: tx.vin[i].hash != tx.hash && tx.vin[i].hash !in gone
    ensures Disconnected(Step(e, tx, pos) - gone, tx) == Undo(true, e - gone - {tx.hash})
  {
    hide Mark, Unspend, Spendable, NumSpent;
    NumSpentIs(e, tx, pos, 0, InputsOf(tx));
    var m := Mark(e, tx, pos, InputsOf(tx));
    var y := Step(e, tx, pos) - gone;
    if tx.IsCoinBase() {
      NoMarks(e, tx, pos);
      assert y - {tx.hash} == e - gone - {tx.hash};
    } else {
      UndoInputs(e, tx, pos);
      forall i | 0 <= i < |tx.vin|
        ensures tx.vin[i].hash in m && tx.vin[i].hash in y && m[tx.vin[i].hash] == y[tx.vin[i].hash]
      {
        assert Exists(m, tx.vin[i]);
      }
      UnspendElsewhere(m, y, tx, |tx.vin|);
      var v := Unspend(y, tx, |tx.vin|).index;
      forall h | h in y && h != tx.hash ensures v[h] == e[h] {
        assert h in m && m[h] == y[h];
      }
      assert v.Keys - {tx.hash} == e.Keys - gone - {tx.hash};
      assert v - {tx.hash} == e - gone - {tx.hash};
    }
  }

  // --------------------------------------------------------------------- a block

  /** Nothing of h can be spent: it is not there or all spent. */
  predicate Closed(e: Index, h: Hash) { h in e ==> FullySpent(e[h]) }

  lemma {:induction false} MarkLeaves(e: Index, tx: Tx, pos: DiskTxPos, k: nat, h: Hash)
    requires k <= |tx.vin| && Spendable(e, tx, pos, k) && Closed(e, h)
    ensures Mark(e, tx, pos, k).Keys == e.Keys && (h in e ==> Mark(e, tx, pos, k)[h] == e[h])
    ensures forall i | 0 <= i < k :: tx.vin[i].hash != h
  {
    hide FullySpent, Spendable, SpendOutput, IsUnspent;
    if k > 0 {
      SpendableBefore(e, tx, pos, k);
      MarkLeaves(e, tx, pos, k - 1, h);
      var m := Mark(e, tx, pos, k - 1);
      ClosedIsNotUnspent(m, tx.vin[k - 1], h);
      SpendLeaves(m, tx.vin[k - 1], pos, h);
    }
  }

  lemma SpendLeaves(e: Index, o: OutPoint, pos: DiskTxPos, h: Hash)
    requires o.hash != h
    ensures SpendOutput(e, o, pos).Keys == e.Keys && (h in e ==> SpendOutput(e, o, pos)[h] == e[h])
  {
  }

  lemma ClosedIsNotUnspent(e: Index, o: OutPoint, h: Hash)
    requires IsUnspent(e, o) && Closed(e, h)
    ensures o.hash != h
  {
  }

  /** The overwrite check and unique hashes keep the entries of later
      transactions closed while earlier ones are connected. */
  lemma {:induction false} LaterAreClosed(env: Env, index: Index, nFile: nat, nBlockPos: nat, from: nat,
                                          vtx: seq<Tx>, k: nat, j: nat)
    requires k <= j < |vtx| && IndexOk(env, index) && Written(env, nFile, nBlockPos, from, vtx) && UniqueTx(vtx)
    requires Amounts(env, index, nFile, nBlockPos, from, vtx, CONNECT, |vtx|).Some?
    ensures Closed(Steps(index, nFile, nBlockPos, from, vtx, k), vtx[j].hash)
    decreases k
  {
    hide Amounts, Mark, Spendable, FullySpent, IndexOk, Written;
    if k == 0 {
      StepOf(env, index, nFile, nBlockPos, from, vtx, CONNECT, j);
    } else {
      LaterAreClosed(env, index, nFile, nBlockPos, from, vtx, k - 1, j);
      StepOf(env, index, nFile, nBlockPos, from, vtx, CONNECT, k - 1);
      MarkLeaves(Steps(index, nFile, nBlockPos, from, vtx, k - 1), vtx[k - 1],
                 TxPos(nFile, nBlockPos, from, vtx, k - 1), InputsOf(vtx[k - 1]), vtx[j].hash);
    }
  }

  function HashesFrom(vtx: seq<Tx>, k: nat): set<Hash>
    requires k <= |vtx|
    decreases |vtx| - k
  {
    if k == |vtx| then {} else {vtx[k].hash} + HashesFrom(vtx, k + 1)
  }

  lemma {:induction false} HashFrom(vtx: seq<Tx>, k: nat, h: Hash)
    requires k <= |vtx|
    ensures h in HashesFrom(vtx, k) <==> exists j | k <= j < |vtx| :: vtx[j].hash == h
    decreases |vtx| - k
  {
    if k < |vtx| { HashFrom(vtx, k + 1, h); }
  }

  lemma {:induction false} UndoFrom(env: Env, index: Index, nFile: nat, nBlockPos: nat, from: nat,
                                    vtx: seq<Tx>, k: nat)
    requires k <= |vtx| && IndexOk(env, index) && Written(env, nFile, nBlockPos, from, vtx) && UniqueTx(vtx)
    requires Amounts(env, index, nFile, nBlockPos, from, vtx, CONNECT, |vtx|).Some?
    ensures DisconnectedFrom(Steps(index, nFile, nBlockPos, from, vtx, |vtx|), vtx, k) ==
            Undo(true, Steps(index, nFile, nBlockPos, from, vtx, k) - HashesFrom(vtx, k))
    decreases |vtx| - k
  {
    hide Amounts, IndexOk, Written, Step, Disconnected, UniqueTx, Spendable;
    if k < |vtx| {
      UndoFrom(env, index, nFile, nBlockPos, from, vtx, k + 1);
      StepOf(env, index, nFile, nBlockPos, from, vtx, CONNECT, k);
      var e := Steps(index, nFile, nBlockPos, from, vtx, k);
      var gone := HashesFrom(vtx, k + 1);
      InputsElsewhere(env, index, nFile, nBlockPos, from, vtx, k);
      UndoStep(e, vtx[k], TxPos(nFile, nBlockPos, from, vtx, k), gone);
      assert e - gone - {vtx[k].hash} == e - HashesFrom(vtx, k);
    } else {
      var e := Steps(index, nFile, nBlockPos, from, vtx, k);
      assert e - {} == e;
    }
  }

  /** A transaction never spends from itself or from a later one. */
  lemma InputsElsewhere(env: Env, index: Index, nFile: nat, nBlockPos: nat, from: nat, vtx: seq<Tx>, k: nat)
    requires k < |vtx| && IndexOk(env, index) && Written(env, nFile, nBlockPos, from, vtx) && UniqueTx(vtx)
    requires Amounts(env, index, nFile, nBlockPos, from, vtx, CONNECT, |vtx|).Some?
    ensures vtx[k].hash !in HashesFrom(vtx, k + 1)
    ensures forall i | 0 <= i < InputsOf(vtx[k]) ::
      vtx[k].vin[i].hash != vtx[k].hash && vtx[k].vin[i].hash !in HashesFrom(vtx, k + 1)
  {
    hide Amounts, IndexOk, Written, Spendable, FullySpent, Steps, HashesFrom, Closed;
    HashFrom(vtx, k + 1, vtx[k].hash);
    StepOf(env, index, nFile, nBlockPos, from, vtx, CONNECT, k);
    var e := Steps(index, nFile, nBlockPos, from, vtx, k);
    var pos := TxPos(nFile, nBlockPos, from, vtx, k);
    forall i | 0 <= i < InputsOf(vtx[k])
      ensures vtx[k].vin[i].hash != vtx[k].hash && vtx[k].vin[i].hash !in HashesFrom(vtx, k + 1)
    {
      var h := vtx[k].vin[i].hash;
      HashFrom(vtx, k + 1, h);
      forall j | k <= j < |vtx| ensures vtx[j].hash != h {
        LaterAreClosed(env, index, nFile, nBlockPos, from, vtx, k, j);
        MarkLeaves(e, vtx[k], pos, InputsOf(vtx[k]), vtx[j].hash);
      }
    }
  }

  /** Disconnecting a block right after connecting it succeeds and gives back
      the old index, except that entries the block overwrote are gone. */
  lemma DisconnectAfterConnect(env: Env, index: Index, nFile: nat, nBlockPos: nat, header: nat, vtx: seq<Tx>)
    requires IndexOk(env, index) && Written(env, nFile, nBlockPos, nBlockPos + header, vtx) && UniqueTx(vtx)
    requires BlockAmounts(env, index, nFile, nBlockPos, header, vtx, CONNECT).Some?
    ensures DisconnectedFrom(index + BlockAmounts(env, index, nFile, nBlockPos, header, vtx, CONNECT).value.pool, vtx, 0) ==
            Undo(true, index - HashesFrom(vtx, 0))
  {
    hide Amounts, IndexOk, Written, DisconnectedFrom, HashesFrom, UniqueTx;
    AmountsAreSteps(env, index, nFile, nBlockPos, nBlockPos + header, vtx, CONNECT, |vtx|);
    UndoFrom(env, index, nFile, nBlockPos, nBlockPos + header, vtx, 0);
  }

  /** The index is restored exactly if no transaction of the block was in it. */
  lemma RestoredIffFresh(env: Env, index: Index, nFile: nat, nBlockPos: nat, header: nat, vtx: seq<Tx>)
    requires IndexOk(env, index) && Written(env, nFile, nBlockPos, nBlockPos + header, vtx) && UniqueTx(vtx)
    requires BlockAmounts(env, index, nFile, nBlockPos, header, vtx, CONNECT).Some?
    ensures DisconnectedFrom(index + BlockAmounts(env, index, nFile, nBlockPos, header, vtx, CONNECT).value.pool, vtx, 0) ==
            Undo(true, index) <==>
            forall k | 0 <= k < |vtx| :: vtx[k].hash !in index
  {
    hide BlockAmounts, IndexOk, Written, DisconnectedFrom, UniqueTx;
    DisconnectAfterConnect(env, index, nFile, nBlockPos, header, vtx);
    var gone := HashesFrom(vtx, 0);
    forall h ensures h in gone <==> exists j | 0 <= j < |vtx| :: vtx[j].hash == h { HashFrom(vtx, 0, h); }
    if forall k | 0 <= k < |vtx| :: vtx[k].hash !in index {
      assert index - gone == index;
    } else {
      var k :| 0 <= k < |vtx| && vtx[k].hash in index;
      assert vtx[k].hash in gone && vtx[k].hash !in index - gone;
    }
  }
}
