// The trial index of a block template: what the chosen transactions spend.
module TemplatePool {
  import opened HashType
  import opened Transactions
  import opened TxIndex
  import opened IndexSteps
  import opened IndexUndo

  /** All outputs that the transactions spend, in order. */
  function Spent(vtx: seq<Tx>): seq<OutPoint> {
    if vtx == [] then [] else Spent(vtx[..|vtx| - 1]) + vtx[|vtx| - 1].vin
  }

  /** The index with the transactions added and nothing spent. */
  function Base(index: Index, vtx: seq<Tx>): Index {
    if vtx == [] then index else
      var tx := vtx[|vtx| - 1];
      Base(index, vtx[..|vtx| - 1])[tx.hash := NewEntry(MEMPOOL_POS, |tx.vout|)]
  }

  ghost predicate NoRepeat(outs: seq<OutPoint>) { forall i, j | 0 <= i < j < |outs| :: outs[i] != outs[j] }

  function Hashes(vtx: seq<Tx>): set<Hash> { set tx | tx in vtx :: tx.hash }

  /** e is the index with vtx added and all their inputs spent, each once. */
  ghost predicate Spends(index: Index, vtx: seq<Tx>, e: Index) {
    && MarkedAs(Base(index, vtx), e, Spent(vtx), MEMPOOL_POS)
    && AllUnspent(Base(index, vtx), Spent(vtx)) && NoRepeat(Spent(vtx))
  }

  /** Every input is unspent in the index or an output of an earlier transaction. */
  ghost predicate InOrder(index: Index, vtx: seq<Tx>) {
    forall k | 0 <= k < |vtx| :: AllUnspent(Base(index, vtx[..k]), vtx[k].vin)
  }

  lemma {:induction false} BaseKeys(index: Index, vtx: seq<Tx>)
    ensures Base(index, vtx).Keys == index.Keys + Hashes(vtx)
  {
    if vtx != [] {
      var n := |vtx| - 1;
      BaseKeys(index, vtx[..n]);
      HashesLast(vtx);
    }
  }

  lemma HashesLast(vtx: seq<Tx>)
    requires vtx != []
    ensures Hashes(vtx) == Hashes(vtx[..|vtx| - 1]) + {vtx[|vtx| - 1].hash}
  {
    assert vtx == vtx[..|vtx| - 1] + [vtx[|vtx| - 1]];
  }

  lemma SpendsNothing(index: Index)
    ensures Spends(index, [], index)
  {
    NothingMarked(index, MEMPOOL_POS);
  }

  lemma SpendableDistinct(e: Index, tx: Tx, pos: DiskTxPos, i: nat, j: nat)
    requires i < j < |tx.vin| && Spendable(e, tx, pos, |tx.vin|) && pos != Null
    ensures tx.vin[i] != tx.vin[j]
  {
    hide Mark, MarkedAs, AllUnspent, IsUnspent;
    PrefixSpendable(e, tx, pos, j);
    MarkAt(e, tx, pos, j);
    MarkedIsSpent(e, Mark(e, tx, pos, j), tx.vin[..j], pos, i, tx.vin[j]);
  }

  lemma PrefixSpendable(e: Index, tx: Tx, pos: DiskTxPos, j: nat)
    requires j < |tx.vin| && Spendable(e, tx, pos, |tx.vin|)
    ensures Spendable(e, tx, pos, j) && IsUnspent(Mark(e, tx, pos, j), tx.vin[j])
  {
    hide Mark, IsUnspent;
  }

  lemma MarkedIsSpent(a: Index, b: Index, outs: seq<OutPoint>, mark: DiskTxPos, i: nat, o: OutPoint)
    requires MarkedAs(a, b, outs, mark) && mark != Null && i < |outs| && IsUnspent(b, o)
    ensures outs[i] != o
  {
    var p := outs[i];
    assert p in outs && p == OutPoint(p.hash, p.n);
  }

  lemma UnmarkedBefore(a: Index, b: Index, outs: seq<OutPoint>, mark: DiskTxPos, o: OutPoint)
    requires MarkedAs(a, b, outs, mark) && mark != Null && IsUnspent(b, o)
    ensures IsUnspent(a, o)
  {
  }

  lemma UnspentBefore(a: Index, b: Index, outs: seq<OutPoint>, more: seq<OutPoint>, mark: DiskTxPos)
    requires MarkedAs(a, b, outs, mark) && mark != Null && AllUnspent(b, more) && AllUnspent(a, outs)
    ensures AllUnspent(a, outs + more) && AllUnspent(a, more)
    ensures forall i, j | 0 <= i < |outs| && 0 <= j < |more| :: outs[i] != more[j]
  {
    forall o | o in more ensures IsUnspent(a, o) {
      UnmarkedBefore(a, b, outs, mark, o);
    }
    forall o | o in outs + more ensures IsUnspent(a, o) {
      assert o in outs || o in more;
    }
    forall i, j | 0 <= i < |outs| && 0 <= j < |more| ensures outs[i] != more[j] {
      var o := more[j];
      assert o in more && IsUnspent(b, o);
      MarkedIsSpent(a, b, outs, mark, i, o);
    }
  }

  /** A new entry, whose outputs no one can have spent, changes nothing else. */
  lemma NewKeeps(a: Index, b: Index, outs: seq<OutPoint>, mark: DiskTxPos, h: Hash, entry: TxEntry)
    requires MarkedAs(a, b, outs, mark) && AllUnspent(a, outs) && h !in a
    ensures MarkedAs(a[h := entry], b[h := entry], outs, mark) && AllUnspent(a[h := entry], outs)
  {
    forall o | o in outs ensures o.hash != h && IsUnspent(a[h := entry], o) {
      assert IsUnspent(a, o);
    }
    forall g, j | g in a[h := entry] && 0 <= j < |a[h := entry][g].vSpent|
      ensures b[h := entry][g].vSpent[j] == if OutPoint(g, j) in outs then mark else a[h := entry][g].vSpent[j]
    {
      assert OutPoint(g, j) in outs ==> g != h;
    }
  }

  lemma NoRepeatBoth(outs: seq<OutPoint>, tx: Tx, e: Index)
    requires NoRepeat(outs) && Spendable(e, tx, MEMPOOL_POS, |tx.vin|)
    requires forall i, j | 0 <= i < |outs| && 0 <= j < |tx.vin| :: outs[i] != tx.vin[j]
    ensures NoRepeat(outs + tx.vin)
  {
    hide Spendable;
    var both := outs + tx.vin;
    forall i, j | 0 <= i < j < |both| ensures both[i] != both[j] {
      if i >= |outs| { SpendableDistinct(e, tx, MEMPOOL_POS, i - |outs|, j - |outs|); }
    }
  }

  /** Appending a transaction whose inputs can be spent keeps the account. */
  lemma SpendsMore(index: Index, vtx: seq<Tx>, e: Index, tx: Tx)
    requires Spends(index, vtx, e) && Spendable(e, tx, MEMPOOL_POS, |tx.vin|) && tx.hash !in index.Keys + Hashes(vtx)
    ensures Spends(index, vtx + [tx], Mark(e, tx, MEMPOOL_POS, |tx.vin|)[tx.hash := NewEntry(MEMPOOL_POS, |tx.vout|)])
    ensures AllUnspent(Base(index, vtx), tx.vin)
  {
    hide MarkedAs, AllUnspent, NoRepeat, Mark, Spendable;
    var base := Base(index, vtx);
    var m := Mark(e, tx, MEMPOOL_POS, |tx.vin|);
    MarkAt(e, tx, MEMPOOL_POS, |tx.vin|);
    assert tx.vin[..|tx.vin|] == tx.vin;
    MarkedBoth(base, e, m, Spent(vtx), tx.vin, MEMPOOL_POS);
    UnspentBefore(base, e, Spent(vtx), tx.vin, MEMPOOL_POS);
    NoRepeatBoth(Spent(vtx), tx, e);
    BaseKeys(index, vtx);
    NewKeeps(base, m, Spent(vtx) + tx.vin, MEMPOOL_POS, tx.hash, NewEntry(MEMPOOL_POS, |tx.vout|));
    assert (vtx + [tx])[..|vtx|] == vtx;
  }

  lemma InOrderMore(index: Index, vtx: seq<Tx>, tx: Tx)
    requires InOrder(index, vtx) && AllUnspent(Base(index, vtx), tx.vin)
    ensures InOrder(index, vtx + [tx])
  {
    hide AllUnspent;
    var more := vtx + [tx];
    forall k | 0 <= k < |more| ensures AllUnspent(Base(index, more[..k]), more[k].vin) {
      if k < |vtx| { assert more[..k] == vtx[..k]; } else { assert more[..k] == vtx; }
    }
  }

  /** An input whose transaction is not in the index names an earlier transaction of the list. */
  lemma ParentIsEarlier(index: Index, vtx: seq<Tx>, k: nat, o: OutPoint)
    requires InOrder(index, vtx) && k < |vtx| && o in vtx[k].vin && o.hash !in index
    ensures exists j | 0 <= j < k :: vtx[j].hash == o.hash
  {
    assert IsUnspent(Base(index, vtx[..k]), o);
    BaseKeys(index, vtx[..k]);
    var tx :| tx in vtx[..k] && tx.hash == o.hash;
    var j :| 0 <= j < k && vtx[..k][j] == tx;
    assert vtx[j].hash == o.hash;
  }
}
