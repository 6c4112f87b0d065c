// Disconnecting a block that was connected in a reorganisation, where inputs
// that are spent already are passed over and entries may be overwritten.
module IndexTolerance {
  import opened HashType
  import opened Transactions
  import opened TxIndex
  import opened ConnectBlock
  import opened IndexSteps
  import opened IndexUndo

  /** No transaction of the block is in the index. */
  ghost predicate Fresh(index: Index, vtx: seq<Tx>) { forall k | 0 <= k < |vtx| :: vtx[k].hash !in index }

  /** The outputs named by the inputs of the transactions from k on. */
  function InputsFrom(vtx: seq<Tx>, k: nat): seq<OutPoint>
    requires k <= |vtx|
    decreases |vtx| - k
  {
    if k == |vtx| then [] else InputsFrom(vtx, k + 1) + vtx[k].vin[..InputsOf(vtx[k])]
  }

  /** Of these outputs, those in the index are unspent there. */
  ghost predicate AllFree(index: Index, outs: seq<OutPoint>) {
    forall o | o in outs :: Exists(index, o) ==> IsUnspent(index, o)
  }

  // ----------------------------------------------------------- the index on the way

  lemma {:induction false} StepsKeys(e: Index, nFile: nat, nBlockPos: nat, from: nat, vtx: seq<Tx>, k: nat, h: Hash)
    requires k <= |vtx|
    ensures h in Steps(e, nFile, nBlockPos, from, vtx, k) <==> h in e || exists j | 0 <= j < k :: vtx[j].hash == h
  {
    hide Mark, NumSpent;
    if k > 0 {
      StepsKeys(e, nFile, nBlockPos, from, vtx, k - 1, h);
      var before, pos := Steps(e, nFile, nBlockPos, from, vtx, k - 1), TxPos(nFile, nBlockPos, from, vtx, k - 1);
      MarkKeepsShape(before, vtx[k - 1], pos, NumSpent(before, vtx[k - 1], pos, 0));
    }
  }

  /** The outputs a connected transaction names exist when its turn comes. */
  lemma InputsExistAt(env: Env, index: Index, nFile: nat, nBlockPos: nat, from: nat, vtx: seq<Tx>, flags: Flags, k: nat)
    requires flags == CONNECT || flags == TOLERATE
    requires k < |vtx| && IndexOk(env, index) && Written(env, nFile, nBlockPos, from, vtx)
    requires Amounts(env, index, nFile, nBlockPos, from, vtx, flags, |vtx|).Some?
    ensures forall i | 0 <= i < InputsOf(vtx[k]) ::
      Exists(Steps(index, nFile, nBlockPos, from, vtx, k), vtx[k].vin[i])
  {
    hide AddTx, Steps, Amounts, Fetched, IndexOk, Written;
    Prefix(env, index, nFile, nBlockPos, from, vtx, flags, k + 1, |vtx|);
    LastAmount(env, index, nFile, nBlockPos, from, vtx, flags, k);
    AmountsAreSteps(env, index, nFile, nBlockPos, from, vtx, flags, k);
    var t := Amounts(env, index, nFile, nBlockPos, from, vtx, flags, k).value;
    AddTxMoney(env, index, nFile, nBlockPos, flags, t, vtx[k]);
    FetchedIsCurrent(env, index, t.pool, true, false, vtx[k]);
    forall i | 0 <= i < InputsOf(vtx[k]) ensures Exists(index + t.pool, vtx[k].vin[i]) {
      var o := vtx[k].vin[i];
      assert o in vtx[k].vin;
    }
  }

  // ------------------------------------------------------------------ one transaction

  /** Marks of any kind disappear under marks of the same outputs and more. */
  lemma Overmarked(a: Index, b: Index, c: Index, few: seq<OutPoint>, outs: seq<OutPoint>, pos: DiskTxPos)
    requires MarkedAs(a, b, few, pos) && MarkedAs(b, c, outs, Null) && forall o | o in few :: o in outs
    ensures MarkedAs(a, c, outs, Null)
  {
  }

  lemma WithoutKey(a: Index, b: Index, outs: seq<OutPoint>, mark: DiskTxPos, h: Hash)
    requires MarkedAs(a, b, outs, mark)
    ensures MarkedAs(a - {h}, b - {h}, outs, mark)
  {
  }

  /** Disconnecting one transaction takes back its step but for the inputs that
      were spent before it: they come out unspent. */
  lemma UndoTolerant(e: Index, tx: Tx, pos: DiskTxPos, x: Index, outs: seq<OutPoint>)
    requires pos != Null && Spendable(e, tx, pos, NumSpent(e, tx, pos, 0)) && tx.hash !in e
    requires forall i | 0 <= i < InputsOf(tx) :: Exists(e, tx.vin[i])
    requires MarkedAs(Step(e, tx, pos), x, outs, Null)
    ensures Disconnected(x, tx).ok && MarkedAs(e, Disconnected(x, tx).index, outs + tx.vin[..InputsOf(tx)], Null)
  {
    hide MarkedAs, Mark, Unspend, Spendable, AllUnspent, NumSpent;
    var n := NumSpent(e, tx, pos, 0);
    var m := Mark(e, tx, pos, n);
    var more := outs + tx.vin[..InputsOf(tx)];
    MarkKeepsShape(e, tx, pos, n);
    assert Step(e, tx, pos) - {tx.hash} == m;
    MarkAt(e, tx, pos, n);
    if tx.IsCoinBase() {
      assert more == outs;
      WithoutKey(Step(e, tx, pos), x, outs, Null, tx.hash);
    } else {
      StillExist(e, Step(e, tx, pos), x, tx, outs, m, pos);
      UnspendAt(x, tx, |tx.vin|);
      var u := Unspend(x, tx, |tx.vin|).index;
      assert tx.vin[..|tx.vin|] == tx.vin;
      MarkedBoth(Step(e, tx, pos), x, u, outs, tx.vin, Null);
      WithoutKey(Step(e, tx, pos), u, more, Null, tx.hash);
    }
    assert forall o | o in tx.vin[..n] :: o in more;
    Overmarked(e, m, Disconnected(x, tx).index, tx.vin[..n], more, pos);
  }

  lemma StillExist(e: Index, s: Index, x: Index, tx: Tx, outs: seq<OutPoint>, m: Index, pos: DiskTxPos)
    requires MarkedAs(s, x, outs, Null) && s == m[tx.hash := NewEntry(pos, |tx.vout|)] && tx.hash !in e
    requires m.Keys == e.Keys && forall h | h in e :: |m[h].vSpent| == |e[h].vSpent|
    requires forall i | 0 <= i < |tx.vin| :: Exists(e, tx.vin[i])
    ensures forall i | 0 <= i < |tx.vin| :: Exists(x, tx.vin[i])
  {
    forall i | 0 <= i < |tx.vin| ensures Exists(x, tx.vin[i]) {
      assert Exists(e, tx.vin[i]);
    }
  }

  // -------------------------------------------------------------------------- a block

  /** If the transactions are new, disconnecting succeeds and differs from the
      old index only in that every output the block names is unspent. */
  lemma {:induction false} UndoTolerantFrom(env: Env, index: Index, nFile: nat, nBlockPos: nat, from: nat,
                                            vtx: seq<Tx>, flags: Flags, k: nat)
    requires flags == CONNECT || flags == TOLERATE
    requires k <= |vtx| && IndexOk(env, index) && Written(env, nFile, nBlockPos, from, vtx)
    requires UniqueTx(vtx) && Fresh(index, vtx)
    requires Amounts(env, index, nFile, nBlockPos, from, vtx, flags, |vtx|).Some?
    ensures var u := DisconnectedFrom(Steps(index, nFile, nBlockPos, from, vtx, |vtx|), vtx, k);
      u.ok && MarkedAs(Steps(index, nFile, nBlockPos, from, vtx, k), u.index, InputsFrom(vtx, k), Null)
    decreases |vtx| - k
  {
    hide Amounts, IndexOk, Written, Step, Disconnected, UniqueTx, Fresh, Spendable, MarkedAs, NumSpent, Exists;
    if k == |vtx| {
      NothingMarked(Steps(index, nFile, nBlockPos, from, vtx, k), Null);
    } else {
      UndoTolerantFrom(env, index, nFile, nBlockPos, from, vtx, flags, k + 1);
      StepOf(env, index, nFile, nBlockPos, from, vtx, flags, k);
      InputsExistAt(env, index, nFile, nBlockPos, from, vtx, flags, k);
      NotYetIn(index, nFile, nBlockPos, from, vtx, k);
      UndoTolerant(Steps(index, nFile, nBlockPos, from, vtx, k), vtx[k], TxPos(nFile, nBlockPos, from, vtx, k),
                   DisconnectedFrom(Steps(index, nFile, nBlockPos, from, vtx, |vtx|), vtx, k + 1).index,
                   InputsFrom(vtx, k + 1));
    }
  }

  lemma NotYetIn(index: Index, nFile: nat, nBlockPos: nat, from: nat, vtx: seq<Tx>, k: nat)
    requires k < |vtx| && UniqueTx(vtx) && Fresh(index, vtx)
    ensures vtx[k].hash !in Steps(index, nFile, nBlockPos, from, vtx, k)
  {
    hide Steps;
    StepsKeys(index, nFile, nBlockPos, from, vtx, k, vtx[k].hash);
  }

  /** A disconnected block's transactions are gone. */
  lemma {:induction false} DisconnectedAreGone(x: Index, vtx: seq<Tx>, k: nat, j: nat)
    requires k <= j < |vtx| && DisconnectedFrom(x, vtx, k).ok
    ensures vtx[j].hash !in DisconnectedFrom(x, vtx, k).index
    decreases |vtx| - k
  {
    hide Unspend;
    var u := DisconnectedFrom(x, vtx, k + 1);
    if k < j {
      DisconnectedAreGone(x, vtx, k + 1, j);
      if !vtx[k].IsCoinBase() { UnspendKeys(u.index, vtx[k], |vtx[k].vin|); }
    }
  }

  lemma {:induction false} UnspendKeys(x: Index, tx: Tx, k: nat)
    requires k <= |tx.vin|
    ensures Unspend(x, tx, k).index.Keys == x.Keys
  {
    if k > 0 { UnspendKeys(x, tx, k - 1); }
  }

  lemma FreeIsSame(a: Index, b: Index, outs: seq<OutPoint>)
    requires MarkedAs(a, b, outs, Null)
    ensures b == a <==> AllFree(a, outs)
  {
    if AllFree(a, outs) {
      forall h | h in a ensures b[h] == a[h] {
        forall j | 0 <= j < |a[h].vSpent| ensures b[h].vSpent[j] == a[h].vSpent[j] {
          if OutPoint(h, j) in outs { assert Exists(a, OutPoint(h, j)); }
        }
      }
    }
    if b == a {
      forall o | o in outs && Exists(a, o) ensures IsUnspent(a, o) {
        assert OutPoint(o.hash, o.n) in outs;
      }
    }
  }

  /** With or without tolerance, disconnecting a block right after connecting it
      restores the index exactly if no transaction of the block was in the index
      and every output of the index that the block names was unspent. */
  lemma RestoredIff(env: Env, index: Index, nFile: nat, nBlockPos: nat, header: nat, vtx: seq<Tx>, flags: Flags)
    requires flags == CONNECT || flags == TOLERATE
    requires IndexOk(env, index) && Written(env, nFile, nBlockPos, nBlockPos + header, vtx) && UniqueTx(vtx)
    requires BlockAmounts(env, index, nFile, nBlockPos, header, vtx, flags).Some?
    ensures DisconnectedFrom(index + BlockAmounts(env, index, nFile, nBlockPos, header, vtx, flags).value.pool, vtx, 0) ==
            Undo(true, index) <==>
            Fresh(index, vtx) && AllFree(index, InputsFrom(vtx, 0))
  {
    hide Amounts, IndexOk, Written, UniqueTx, AllFree, MarkedAs, DisconnectedFrom, InputsFrom;
    var from := nBlockPos + header;
    var t := BlockAmounts(env, index, nFile, nBlockPos, header, vtx, flags).value;
    AmountsAreSteps(env, index, nFile, nBlockPos, from, vtx, flags, |vtx|);
    var u := DisconnectedFrom(index + t.pool, vtx, 0);
    if Fresh(index, vtx) {
      UndoTolerantFrom(env, index, nFile, nBlockPos, from, vtx, flags, 0);
      FreeIsSame(index, u.index, InputsFrom(vtx, 0));
    } else if u.ok {
      var j :| 0 <= j < |vtx| && vtx[j].hash in index;
      DisconnectedAreGone(index + t.pool, vtx, 0, j);
    }
  }
}
