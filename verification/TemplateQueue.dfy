// The queue of CreateNewBlock: no transaction is tried before its parents are in.
module TemplateQueue {
  import opened HashType
  import opened Transactions
  import opened TxIndex
  import opened IndexSteps
  import opened TemplatePool
  import opened BlockTemplate

  /** A transaction that waits for others. */
  datatype Orphan = Orphan(setDependsOn: set<Hash>, priority: TxPriority)

  /** For each transaction the positions of the orphans that wait for it. */
  type Dependers = map<Hash, seq<nat>>

  function Of(mapDependers: Dependers, h: Hash): seq<nat> {
    if h in mapDependers then mapDependers[h] else []
  }

  /** Orphan i waits for h. */
  predicate Waits(mapDependers: Dependers, h: Hash, i: nat) { i in Of(mapDependers, h) }

  function DepsOf(m: Miner, index: Index, h: Hash): set<Hash> {
    if h in m.env.mempool then Deps(m, index, m.env.mempool[h]) else {}
  }

  // ------------------------------------------------------------------- the invariant

  /** The entries are different candidates with their own priorities. */
  ghost predicate QueueOk(m: Miner, index: Index, q: seq<TxPriority>, tried: set<Hash>) {
    && (forall i, j | 0 <= i < j < |q| :: q[i].hash != q[j].hash)
    && (forall i | 0 <= i < |q| ::
          && Candidate(m, index, q[i].hash) && q[i].hash !in tried && m.env.mempool[q[i].hash].nSize > 0
          && q[i] == PriorityOf(m, index, m.env.mempool[q[i].hash]))
  }

  ghost predicate Queued(q: seq<TxPriority>, h: Hash) { exists i | 0 <= i < |q| :: q[i].hash == h }

  /** What a transaction need no longer wait for: the chosen ones, with x if it has been told of x. */
  function Allowed(chosen: set<Hash>, x: Hash, told: set<Hash>, h: Hash): set<Hash> {
    if h in told then chosen + {x} else chosen
  }

  /** Exactly the candidates that wait for nothing have come to the queue. */
  ghost predicate AdmittedOk(m: Miner, index: Index, q: seq<TxPriority>, tried: set<Hash>, chosen: set<Hash>,
                             x: Hash, told: set<Hash>)
  {
    forall h :: (h in tried || Queued(q, h)) <==>
      (Candidate(m, index, h) && DepsOf(m, index, h) <= Allowed(chosen, x, told, h))
  }

  ghost predicate OrphansOk(m: Miner, index: Index, vOrphan: seq<Orphan>, chosen: set<Hash>, x: Hash, told: set<Hash>) {
    && (forall i, j | 0 <= i < j < |vOrphan| :: vOrphan[i].priority.hash != vOrphan[j].priority.hash)
    && (forall i | 0 <= i < |vOrphan| :: OrphanOk(m, index, vOrphan[i], Allowed(chosen, x, told, vOrphan[i].priority.hash)))
  }

  ghost predicate OrphanOk(m: Miner, index: Index, orphan: Orphan, allowed: set<Hash>) {
    var h := orphan.priority.hash;
    && Candidate(m, index, h) && m.env.mempool[h].nSize > 0 && orphan.priority == PriorityOf(m, index, m.env.mempool[h])
    && orphan.setDependsOn == DepsOf(m, index, h) - allowed
  }

  ghost predicate IsOrphan(vOrphan: seq<Orphan>, h: Hash) { exists i | 0 <= i < |vOrphan| :: vOrphan[i].priority.hash == h }

  ghost predicate DependersOk(m: Miner, index: Index, vOrphan: seq<Orphan>, mapDependers: Dependers) {
    && (forall h, i: nat | Waits(mapDependers, h, i) :: i < |vOrphan| && h in DepsOf(m, index, vOrphan[i].priority.hash))
    && (forall h, i: nat | i < |vOrphan| && h in DepsOf(m, index, vOrphan[i].priority.hash) :: Waits(mapDependers, h, i))
  }

  ghost predicate Sched(m: Miner, index: Index, q: seq<TxPriority>, vOrphan: seq<Orphan>, tried: set<Hash>,
                        chosen: set<Hash>, x: Hash, told: set<Hash>)
  {
    && QueueOk(m, index, q, tried) && AdmittedOk(m, index, q, tried, chosen, x, told)
    && OrphansOk(m, index, vOrphan, chosen, x, told)
  }

  // ------------------------------------------------------------------- collecting

  /** The pass over the inputs of one memory pool transaction; it ends at a missing one. */
  method Examine(m: Miner, txdb: TxDB, tx: Tx, mapDependers: Dependers, porphan: nat)
    returns (fMissingInputs: bool, setDependsOn: set<Hash>, dependers: Dependers, priority: TxPriority)
    requires Closed(m, txdb.index) && tx.hash in m.env.mempool && m.env.mempool[tx.hash] == tx && tx.nSize > 0
    ensures fMissingInputs <==> !AllPresent(m, txdb.index, tx)
    ensures if fMissingInputs then Adds(mapDependers, dependers, porphan, {})
            else && setDependsOn == Deps(m, txdb.index, tx) && priority == PriorityOf(m, txdb.index, tx)
                 && Adds(mapDependers, dependers, porphan, setDependsOn)
  {
    hide Closed, OnDisk, Deps, Adds;
    AddsNothing(mapDependers, porphan);
    fMissingInputs, setDependsOn, dependers, priority := false, {}, mapDependers, TxPriority(0.0, 0.0, tx.hash);
    var dPriority, nTotalIn := 0.0, 0;
    for k := 0 to |tx.vin|
      invariant forall i | 0 <= i < k :: !Missing(m, txdb.index, tx.vin[i])
      invariant setDependsOn == DepsUpTo(m, txdb.index, tx, k)
      invariant dPriority == Age(m, txdb.index, tx, k) && nTotalIn == TotalIn(m, txdb.index, tx, k)
      invariant Adds(mapDependers, dependers, porphan, setDependsOn)
    {
      var txin := tx.vin[k];
      InputKnown(m, txdb.index, tx, txin);
      if !OnDisk(m, txdb.index, txin) {
        if txin.hash !in m.env.mempool {
          NothingWaits(m, txdb.index, tx, k);
          fMissingInputs := true;
          return;
        }
        var waiting := Of(dependers, txin.hash) + [porphan];
        WaitsToo(dependers, txin.hash, porphan);
        AddsBoth(mapDependers, dependers, dependers[txin.hash := waiting], porphan, setDependsOn, {txin.hash});
        dependers := dependers[txin.hash := waiting];
        setDependsOn := setDependsOn + {txin.hash};
        nTotalIn := nTotalIn + m.env.mempool[txin.hash].vout[txin.n].nValue;
      } else {
        var nValueIn := m.env.read(txdb.index[txin.hash].pos).value.vout[txin.n].nValue;
        nTotalIn := nTotalIn + nValueIn;
        dPriority := dPriority + (nValueIn * m.depth(txin.hash)) as real;
      }
    }
    AllDeps(m, txdb.index, tx);
    dPriority := dPriority / tx.nSize as real;
    var dFeePerKb := (nTotalIn - ValueOut(tx)) as real / (tx.nSize as real / 1000.0);
    priority := TxPriority(dPriority, dFeePerKb, tx.hash);
  }

  /** Up to the first missing input the transaction waits for nothing. */
  lemma NothingWaits(m: Miner, index: Index, tx: Tx, k: nat)
    requires Closed(m, index) && tx.hash in m.env.mempool && m.env.mempool[tx.hash] == tx && k < |tx.vin|
    requires Missing(m, index, tx.vin[k]) && forall i | 0 <= i < k :: !Missing(m, index, tx.vin[i])
    ensures DepsUpTo(m, index, tx, k) == {} && !AllPresent(m, index, tx)
  {
    hide OutputsInRange, OnDisk;
    assert NothingStale(m, index, tx);
    forall i | 0 <= i < k ensures OnDisk(m, index, tx.vin[i]) {
      assert !Missing(m, index, tx.vin[i]);
      assert !FromPool(m, index, tx.vin[i]);
    }
    forall h ensures h !in DepsUpTo(m, index, tx, k) {
      DepUpTo(m, index, tx, k, h);
    }
    var o := tx.vin[k];
    assert o in tx.vin;
  }

  function DepsUpTo(m: Miner, index: Index, tx: Tx, k: nat): set<Hash>
    requires k <= |tx.vin|
  {
    if k == 0 then {} else
      DepsUpTo(m, index, tx, k - 1) + if OnDisk(m, index, tx.vin[k - 1]) then {} else {tx.vin[k - 1].hash}
  }

  lemma {:induction false} DepUpTo(m: Miner, index: Index, tx: Tx, k: nat, h: Hash)
    requires k <= |tx.vin|
    ensures h in DepsUpTo(m, index, tx, k) <==>
            exists i | 0 <= i < k :: !OnDisk(m, index, tx.vin[i]) && tx.vin[i].hash == h
  {
    hide OnDisk;
    if k > 0 { DepUpTo(m, index, tx, k - 1, h); }
  }

  lemma AllDeps(m: Miner, index: Index, tx: Tx)
    ensures DepsUpTo(m, index, tx, |tx.vin|) == Deps(m, index, tx)
  {
    hide OnDisk, DepsUpTo;
    forall h ensures h in DepsUpTo(m, index, tx, |tx.vin|) <==> h in Deps(m, index, tx) {
      DepUpTo(m, index, tx, |tx.vin|, h);
      if i :| 0 <= i < |tx.vin| && !OnDisk(m, index, tx.vin[i]) && tx.vin[i].hash == h {
        var o := tx.vin[i];
        assert o in tx.vin;
      }
      if h in Deps(m, index, tx) {
        var o :| o in tx.vin && !OnDisk(m, index, o) && o.hash == h;
        var i :| 0 <= i < |tx.vin| && tx.vin[i] == o;
      }
    }
  }

  lemma InputKnown(m: Miner, index: Index, tx: Tx, o: OutPoint)
    requires Closed(m, index) && tx.hash in m.env.mempool && m.env.mempool[tx.hash] == tx && o in tx.vin
    ensures if OnDisk(m, index, o)
            then o.hash in index && m.env.read(index[o.hash].pos).Some? &&
                 o.n < |m.env.read(index[o.hash].pos).value.vout|
            else o.hash in m.env.mempool ==> o.n < |m.env.mempool[o.hash].vout|
    ensures OnDisk(m, index, o) ==> OutValue(m, index, o) == m.env.read(index[o.hash].pos).value.vout[o.n].nValue
    ensures FromPool(m, index, o) ==> OutValue(m, index, o) == m.env.mempool[o.hash].vout[o.n].nValue
  {
    hide OutputsInRange, NothingStale;
  }

  lemma AddsNothing(d: Dependers, porphan: nat)
    ensures Adds(d, d, porphan, {})
  {
  }

  lemma WaitsToo(d: Dependers, h: Hash, porphan: nat)
    ensures Adds(d, d[h := Of(d, h) + [porphan]], porphan, {h})
  {
    var d' := d[h := Of(d, h) + [porphan]];
    forall g, i: nat ensures Waits(d', g, i) <==> Waits(d, g, i) || (i == porphan && g in {h}) {
      if g == h {
        assert Of(d', g) == Of(d, g) + [porphan];
        assert i in Of(d, g) + [porphan] <==> i in Of(d, g) || i == porphan;
      } else {
        assert Of(d', g) == Of(d, g);
      }
    }
  }

  /** d' is d with porphan waiting for the hashes hs as well. */
  ghost predicate Adds(d: Dependers, d': Dependers, porphan: nat, hs: set<Hash>) {
    forall g, i: nat :: Waits(d', g, i) <==> Waits(d, g, i) || (i == porphan && g in hs)
  }

  lemma AddsBoth(a: Dependers, b: Dependers, c: Dependers, porphan: nat, hs: set<Hash>, more: set<Hash>)
    requires Adds(a, b, porphan, hs) && Adds(b, c, porphan, more)
    ensures Adds(a, c, porphan, hs + more)
  {
    hide Waits;
    forall g, i: nat ensures Waits(c, g, i) <==> Waits(a, g, i) || (i == porphan && g in hs + more) {
      assert Waits(c, g, i) <==> Waits(b, g, i) || (i == porphan && g in more);
      assert Waits(b, g, i) <==> Waits(a, g, i) || (i == porphan && g in hs);
    }
  }

  /** Everything before the heap is made. */
  method Collect(m: Miner, txdb: TxDB)
    returns (vecPriority: seq<TxPriority>, vOrphan: seq<Orphan>, mapDependers: Dependers)
    requires Closed(m, txdb.index)
    ensures Sched(m, txdb.index, vecPriority, vOrphan, {}, {}, 0, {})
    ensures DependersOk(m, txdb.index, vOrphan, mapDependers)
    ensures AllDepsAreOrphans(m, txdb.index, vOrphan)
  {
    hide Closed, Deps, DepsOf, Candidate, PriorityOf, Queued, IsOrphan, Seen, QueueOk, OrphansOk, DependersOk, Sched, Of,
         Waits;
    StartsEmpty(m, txdb.index);
    vecPriority, vOrphan, mapDependers := [], [], map[];
    var todo := m.env.mempool.Keys;
    NothingSeen(m, txdb.index);
    while todo != {}
      invariant todo <= m.env.mempool.Keys
      invariant QueueOk(m, txdb.index, vecPriority, {}) && OrphansOk(m, txdb.index, vOrphan, {}, 0, {})
      invariant DependersOk(m, txdb.index, vOrphan, mapDependers)
      invariant forall h :: Queued(vecPriority, h) <==> Seen(m, txdb.index, h, todo) && DepsOf(m, txdb.index, h) == {}
      invariant forall h :: IsOrphan(vOrphan, h) <==> Seen(m, txdb.index, h, todo) && DepsOf(m, txdb.index, h) != {}
    {
      assert (forall h :: h !in todo) ==> todo == {};
      var h :| h in todo;
      var tx := m.env.mempool[h];
      ghost var before := todo;
      todo := todo - {h};
      KnownTx(m, txdb.index, h);
      SeenOneMore(m, txdb.index, before, h);
      assert !Queued(vecPriority, h) && !IsOrphan(vOrphan, h);
      if tx.IsCoinBase() || tx.IsCoinStake() || !m.isFinal(tx) { continue; }
      var fMissingInputs, setDependsOn, dependers, priority := Examine(m, txdb, tx, mapDependers, |vOrphan|);
      if fMissingInputs {
        NoNewDepender(m, txdb.index, vOrphan, mapDependers, dependers);
        mapDependers := dependers;
        continue;
      }
      if setDependsOn != {} {
        MakeOrphan(m, txdb.index, h, Orphan(setDependsOn, priority));
        OrphanMore(m, txdb.index, vOrphan, mapDependers, dependers, Orphan(setDependsOn, priority), h);
        mapDependers := dependers;
        vOrphan := vOrphan + [Orphan(setDependsOn, priority)];
      } else {
        QueueMore(m, txdb.index, vecPriority, {}, priority, h);
        NoNewDepender(m, txdb.index, vOrphan, mapDependers, dependers);
        mapDependers := dependers;
        vecPriority := vecPriority + [priority];
      }
    }
    CollectDone(m, txdb.index, vecPriority, vOrphan);
  }

  /** The candidates among the pool transactions no longer to do. */
  ghost predicate Seen(m: Miner, index: Index, h: Hash, todo: set<Hash>) { Candidate(m, index, h) && h !in todo }

  lemma NothingSeen(m: Miner, index: Index)
    ensures forall h :: !Seen(m, index, h, m.env.mempool.Keys)
  {
  }

  lemma StartsEmpty(m: Miner, index: Index)
    ensures QueueOk(m, index, [], {}) && OrphansOk(m, index, [], {}, 0, {}) && DependersOk(m, index, [], map[])
    ensures forall h :: !Queued([], h) && !IsOrphan([], h)
  {
    forall h, i: nat ensures !Waits(map[], h, i) {
    }
  }

  lemma MakeOrphan(m: Miner, index: Index, h: Hash, orphan: Orphan)
    requires Candidate(m, index, h) && m.env.mempool[h].nSize > 0
    requires orphan.priority == PriorityOf(m, index, m.env.mempool[h]) && orphan.priority.hash == h
    requires orphan.setDependsOn == DepsOf(m, index, h)
    ensures OrphanOk(m, index, orphan, {})
  {
    assert orphan.setDependsOn == orphan.setDependsOn - {};
  }

  lemma SeenOneMore(m: Miner, index: Index, todo: set<Hash>, h: Hash)
    requires h in todo
    ensures forall g :: Seen(m, index, g, todo - {h}) <==> Seen(m, index, g, todo) || (g == h && Candidate(m, index, h))
    ensures !Seen(m, index, h, todo)
  {
    hide Candidate;
  }

  lemma KnownTx(m: Miner, index: Index, h: Hash)
    requires Closed(m, index) && h in m.env.mempool
    ensures var tx := m.env.mempool[h];
      && tx.hash == h && tx.nSize > 0 && DepsOf(m, index, h) == Deps(m, index, tx)
      && PriorityOf(m, index, tx).hash == h
      && (Candidate(m, index, h) <==> !(tx.IsCoinBase() || tx.IsCoinStake() || !m.isFinal(tx)) && AllPresent(m, index, tx))
  {
    hide OutputsInRange;
  }

  lemma QueueMore(m: Miner, index: Index, q: seq<TxPriority>, tried: set<Hash>, e: TxPriority, h: Hash)
    requires QueueOk(m, index, q, tried) && !Queued(q, h) && h !in tried && Candidate(m, index, h)
    requires e.hash == h && h in m.env.mempool && m.env.mempool[h].nSize > 0 && e == PriorityOf(m, index, m.env.mempool[h])
    ensures QueueOk(m, index, q + [e], tried)
    ensures forall g :: Queued(q + [e], g) <==> Queued(q, g) || g == h
  {
    hide Candidate, PriorityOf;
    var r := q + [e];
    forall g ensures Queued(r, g) <==> Queued(q, g) || g == h {
      if Queued(q, g) {
        var i :| 0 <= i < |q| && q[i].hash == g;
        assert r[i].hash == g;
      }
      if g == h { assert r[|q|].hash == h; }
    }
  }

  lemma OrphanMore(m: Miner, index: Index, vOrphan: seq<Orphan>, d: Dependers, d': Dependers, orphan: Orphan, h: Hash)
    requires OrphansOk(m, index, vOrphan, {}, 0, {}) && DependersOk(m, index, vOrphan, d)
    requires OrphanOk(m, index, orphan, {}) && orphan.priority.hash == h && !IsOrphan(vOrphan, h)
    requires Adds(d, d', |vOrphan|, orphan.setDependsOn)
    ensures OrphansOk(m, index, vOrphan + [orphan], {}, 0, {}) && DependersOk(m, index, vOrphan + [orphan], d')
    ensures forall g :: IsOrphan(vOrphan + [orphan], g) <==> IsOrphan(vOrphan, g) || g == h
  {
    hide OrphanOk, Waits, DepsOf;
    var w := vOrphan + [orphan];
    DependsOnAll(m, index, orphan);
    DependersMore(m, index, vOrphan, d, d', orphan);
    forall g ensures IsOrphan(w, g) <==> IsOrphan(vOrphan, g) || g == h {
      if IsOrphan(vOrphan, g) {
        var i :| 0 <= i < |vOrphan| && vOrphan[i].priority.hash == g;
        assert w[i].priority.hash == g;
      }
      if g == h { assert w[|vOrphan|].priority.hash == h; }
    }
  }

  lemma DependersMore(m: Miner, index: Index, vOrphan: seq<Orphan>, d: Dependers, d': Dependers, orphan: Orphan)
    requires DependersOk(m, index, vOrphan, d) && orphan.setDependsOn == DepsOf(m, index, orphan.priority.hash)
    requires Adds(d, d', |vOrphan|, orphan.setDependsOn)
    ensures DependersOk(m, index, vOrphan + [orphan], d')
  {
    var w := vOrphan + [orphan];
    forall g, i: nat ensures Waits(d', g, i) <==> i < |w| && g in DepsOf(m, index, w[i].priority.hash) {
      Depender(m, index, vOrphan, d, g, i);
    }
  }

  lemma Depender(m: Miner, index: Index, vOrphan: seq<Orphan>, d: Dependers, g: Hash, i: nat)
    requires DependersOk(m, index, vOrphan, d)
    ensures Waits(d, g, i) <==> i < |vOrphan| && g in DepsOf(m, index, vOrphan[i].priority.hash)
  {
  }

  lemma DependsOnAll(m: Miner, index: Index, orphan: Orphan)
    requires OrphanOk(m, index, orphan, {})
    ensures orphan.setDependsOn == DepsOf(m, index, orphan.priority.hash)
  {
  }

  lemma NoNewDepender(m: Miner, index: Index, vOrphan: seq<Orphan>, d: Dependers, d': Dependers)
    requires DependersOk(m, index, vOrphan, d)
    requires Adds(d, d', |vOrphan|, {})
    ensures DependersOk(m, index, vOrphan, d')
  {
    hide Waits, DepsOf;
  }

  lemma CollectDone(m: Miner, index: Index, q: seq<TxPriority>, vOrphan: seq<Orphan>)
    requires QueueOk(m, index, q, {}) && OrphansOk(m, index, vOrphan, {}, 0, {})
    requires forall h :: Queued(q, h) <==> Seen(m, index, h, {}) && DepsOf(m, index, h) == {}
    requires forall h :: IsOrphan(vOrphan, h) <==> Seen(m, index, h, {}) && DepsOf(m, index, h) != {}
    ensures Sched(m, index, q, vOrphan, {}, {}, 0, {})
    ensures AllDepsAreOrphans(m, index, vOrphan)
  {
    hide QueueOk, OrphansOk, Candidate, DepsOf, Queued, IsOrphan;
    forall h ensures Seen(m, index, h, {}) <==> Candidate(m, index, h) {
    }
  }

  // --------------------------------------------------------------------- the queue

  /** Taking an entry off the queue makes its transaction a tried one. */
  lemma PopKeeps(m: Miner, index: Index, q: seq<TxPriority>, k: nat, vOrphan: seq<Orphan>, tried: set<Hash>,
                 chosen: set<Hash>, x: Hash)
    requires Sched(m, index, q, vOrphan, tried, chosen, x, {}) && k < |q|
    ensures Sched(m, index, q[..k] + q[k + 1..], vOrphan, tried + {q[k].hash}, chosen, x, {})
    ensures Candidate(m, index, q[k].hash) && q[k].hash !in tried
  {
    hide Candidate, DepsOf, PriorityOf, OrphansOk;
    var r := q[..k] + q[k + 1..];
    forall h ensures Queued(q, h) <==> Queued(r, h) || h == q[k].hash {
      QueuedWithout(q, k, h);
    }
    forall i | 0 <= i < |r| ensures r[i] == q[if i < k then i else i + 1] {
    }
    assert !Queued(r, q[k].hash) by {
      forall i | 0 <= i < |r| ensures r[i].hash != q[k].hash {
        assert r[i] == q[if i < k then i else i + 1];
      }
    }
  }

  lemma QueuedWithout(q: seq<TxPriority>, k: nat, h: Hash)
    requires k < |q|
    ensures Queued(q, h) <==> Queued(q[..k] + q[k + 1..], h) || h == q[k].hash
  {
    var r := q[..k] + q[k + 1..];
    if Queued(q, h) {
      var i :| 0 <= i < |q| && q[i].hash == h;
      if i < k { assert r[i].hash == h; }
      if i > k { assert r[i - 1].hash == h; }
    }
    if Queued(r, h) {
      var i :| 0 <= i < |r| && r[i].hash == h;
      assert q[if i < k then i else i + 1].hash == h;
    }
  }

  /** Before anyone is told of x, nothing has changed. */
  lemma NoOneTold(m: Miner, index: Index, q: seq<TxPriority>, vOrphan: seq<Orphan>, tried: set<Hash>,
                  chosen: set<Hash>, x: Hash, y: Hash)
    requires Sched(m, index, q, vOrphan, tried, chosen, x, {})
    ensures Sched(m, index, q, vOrphan, tried, chosen, y, {})
  {
    hide Candidate, DepsOf, QueueOk, OrphanOk, Queued;
    forall h ensures Allowed(chosen, x, {}, h) == Allowed(chosen, y, {}, h) {
    }
  }

  /** One orphan that waits for x is told of it, and comes to the queue if that was the last it waited for. */
  lemma TellOne(m: Miner, index: Index, q: seq<TxPriority>, vOrphan: seq<Orphan>, tried: set<Hash>, chosen: set<Hash>,
                x: Hash, told: set<Hash>, i: nat)
    requires Sched(m, index, q, vOrphan, tried, chosen, x, told) && i < |vOrphan| && x !in chosen
    requires x in DepsOf(m, index, vOrphan[i].priority.hash)
    ensures var o := vOrphan[i];
      var told' := told + {o.priority.hash};
      if o.setDependsOn == {} then told' == told
      else
        var o' := o.(setDependsOn := o.setDependsOn - {x});
        Sched(m, index, if o'.setDependsOn == {} then q + [o.priority] else q, vOrphan[i := o'], tried, chosen, x, told')
  {
    hide Candidate, DepsOf, PriorityOf, QueueOk, Queued;
    var o := vOrphan[i];
    var h := o.priority.hash;
    assert OrphanOk(m, index, o, Allowed(chosen, x, told, h));
    if o.setDependsOn == {} {
      assert x !in DepsOf(m, index, h) - Allowed(chosen, x, told, h);
      assert told + {h} == told;
    } else {
      var told' := told + {h};
      var o' := o.(setDependsOn := o.setDependsOn - {x});
      assert o'.setDependsOn == DepsOf(m, index, h) - Allowed(chosen, x, told', h);
      OrphansTold(m, index, vOrphan, chosen, x, told, i, o');
      assert !(DepsOf(m, index, h) <= Allowed(chosen, x, told, h));
      assert !(h in tried || Queued(q, h));
      if o'.setDependsOn == {} {
        PriorityIsOwn(m, index, o, Allowed(chosen, x, told, h));
        QueueMore(m, index, q, tried, o.priority, h);
      }
      forall g ensures g != h ==> Allowed(chosen, x, told', g) == Allowed(chosen, x, told, g) {
      }
      assert DepsOf(m, index, h) <= Allowed(chosen, x, told', h) <==> o'.setDependsOn == {};
    }
  }

  lemma PriorityIsOwn(m: Miner, index: Index, o: Orphan, allowed: set<Hash>)
    requires OrphanOk(m, index, o, allowed)
    ensures var h := o.priority.hash;
      && Candidate(m, index, h) && h in m.env.mempool && m.env.mempool[h].nSize > 0
      && o.priority == PriorityOf(m, index, m.env.mempool[h])
  {
  }

  lemma OrphansTold(m: Miner, index: Index, vOrphan: seq<Orphan>, chosen: set<Hash>, x: Hash, told: set<Hash>, i: nat,
                    o': Orphan)
    requires OrphansOk(m, index, vOrphan, chosen, x, told) && i < |vOrphan| && o'.priority == vOrphan[i].priority
    requires o'.setDependsOn ==
             DepsOf(m, index, o'.priority.hash) - Allowed(chosen, x, told + {o'.priority.hash}, o'.priority.hash)
    ensures OrphansOk(m, index, vOrphan[i := o'], chosen, x, told + {o'.priority.hash})
  {
    hide Candidate, DepsOf, PriorityOf;
    var w := vOrphan[i := o'];
    var told' := told + {o'.priority.hash};
    assert OrphanOk(m, index, vOrphan[i], Allowed(chosen, x, told, vOrphan[i].priority.hash));
    forall j | 0 <= j < |w| ensures OrphanOk(m, index, w[j], Allowed(chosen, x, told', w[j].priority.hash)) {
      if j != i { assert OrphanOk(m, index, vOrphan[j], Allowed(chosen, x, told, vOrphan[j].priority.hash)); }
    }
  }

  ghost predicate AllDepsAreOrphans(m: Miner, index: Index, vOrphan: seq<Orphan>) {
    forall h | Candidate(m, index, h) && DepsOf(m, index, h) != {} :: IsOrphan(vOrphan, h)
  }

  /** When all that wait for x have been told, x is among the chosen for everyone. */
  lemma AllTold(m: Miner, index: Index, q: seq<TxPriority>, vOrphan: seq<Orphan>, tried: set<Hash>, chosen: set<Hash>,
                x: Hash, told: set<Hash>)
    requires Sched(m, index, q, vOrphan, tried, chosen, x, told) && AllDepsAreOrphans(m, index, vOrphan)
    requires forall i | 0 <= i < |vOrphan| && x in DepsOf(m, index, vOrphan[i].priority.hash) ::
      vOrphan[i].priority.hash in told
    ensures Sched(m, index, q, vOrphan, tried, chosen + {x}, x, {})
  {
    hide Candidate, DepsOf, PriorityOf, QueueOk, Queued;
    forall h | Candidate(m, index, h)
      ensures DepsOf(m, index, h) <= Allowed(chosen, x, told, h) <==> DepsOf(m, index, h) <= chosen + {x}
    {
      if x in DepsOf(m, index, h) {
        assert IsOrphan(vOrphan, h);
        var i :| 0 <= i < |vOrphan| && vOrphan[i].priority.hash == h;
      }
    }
    forall i | 0 <= i < |vOrphan|
      ensures OrphanOk(m, index, vOrphan[i], Allowed(chosen + {x}, x, {}, vOrphan[i].priority.hash))
    {
      var h := vOrphan[i].priority.hash;
      assert OrphanOk(m, index, vOrphan[i], Allowed(chosen, x, told, h));
      assert DepsOf(m, index, h) - Allowed(chosen, x, told, h) == DepsOf(m, index, h) - (chosen + {x});
    }
  }

  predicate SameHashes(a: seq<Orphan>, b: seq<Orphan>) {
    |a| == |b| && forall i | 0 <= i < |a| :: a[i].priority.hash == b[i].priority.hash
  }

  lemma SameDependers(m: Miner, index: Index, a: seq<Orphan>, b: seq<Orphan>, d: Dependers)
    requires SameHashes(a, b)
    ensures DependersOk(m, index, a, d) ==> DependersOk(m, index, b, d)
    ensures AllDepsAreOrphans(m, index, a) ==> AllDepsAreOrphans(m, index, b)
  {
    hide Candidate, DepsOf, Waits;
    forall h | IsOrphan(a, h) ensures IsOrphan(b, h) {
      var i :| 0 <= i < |a| && a[i].priority.hash == h;
      assert b[i].priority.hash == h;
    }
  }

  /** The loop over the dependers of a transaction just chosen; an orphan with
      several inputs from it is met several times. */
  method Notify(m: Miner, ghost index: Index, vecPriority: seq<TxPriority>, vOrphan: seq<Orphan>, mapDependers: Dependers,
                hash: Hash, ghost tried: set<Hash>, ghost chosen: set<Hash>)
    returns (q: seq<TxPriority>, orphans: seq<Orphan>)
    requires Sched(m, index, vecPriority, vOrphan, tried, chosen, hash, {}) && hash !in chosen
    requires DependersOk(m, index, vOrphan, mapDependers) && AllDepsAreOrphans(m, index, vOrphan)
    ensures Sched(m, index, q, orphans, tried, chosen + {hash}, hash, {})
    ensures DependersOk(m, index, orphans, mapDependers) && AllDepsAreOrphans(m, index, orphans)
  {
    hide Sched, Candidate, DepsOf, PriorityOf, DependersOk, AllDepsAreOrphans;
    q, orphans := vecPriority, vOrphan;
    var waiting := Of(mapDependers, hash);
    ghost var told: set<Hash> := {};
    WaitersKnown(m, index, vOrphan, mapDependers, hash);
    for j := 0 to |waiting|
      invariant SameHashes(vOrphan, orphans)
      invariant Sched(m, index, q, orphans, tried, chosen, hash, told)
      invariant forall k | 0 <= k < j :: vOrphan[waiting[k]].priority.hash in told
    {
      var porphan := waiting[j];
      var o := orphans[porphan];
      TellOne(m, index, q, orphans, tried, chosen, hash, told, porphan);
      if o.setDependsOn != {} {
        var left := o.setDependsOn - {hash};
        orphans := orphans[porphan := o.(setDependsOn := left)];
        if left == {} {
          q := q + [o.priority];
        }
      }
      told := told + {o.priority.hash};
    }
    SameDependers(m, index, vOrphan, orphans, mapDependers);
    forall i | 0 <= i < |orphans| && hash in DepsOf(m, index, orphans[i].priority.hash)
      ensures orphans[i].priority.hash in told
    {
      var k := WaiterAt(m, index, vOrphan, mapDependers, hash, i);
      assert vOrphan[waiting[k]].priority.hash in told;
    }
    AllTold(m, index, q, orphans, tried, chosen, hash, told);
  }

  lemma WaitersKnown(m: Miner, index: Index, vOrphan: seq<Orphan>, d: Dependers, h: Hash)
    requires DependersOk(m, index, vOrphan, d)
    ensures forall j | 0 <= j < |Of(d, h)| ::
      Of(d, h)[j] < |vOrphan| && h in DepsOf(m, index, vOrphan[Of(d, h)[j]].priority.hash)
  {
    hide DepsOf;
    forall j | 0 <= j < |Of(d, h)|
      ensures Of(d, h)[j] < |vOrphan| && h in DepsOf(m, index, vOrphan[Of(d, h)[j]].priority.hash)
    {
      var i := Of(d, h)[j];
      assert Waits(d, h, i);
    }
  }

  lemma WaiterAt(m: Miner, index: Index, vOrphan: seq<Orphan>, d: Dependers, h: Hash, i: nat) returns (k: nat)
    requires DependersOk(m, index, vOrphan, d) && i < |vOrphan| && h in DepsOf(m, index, vOrphan[i].priority.hash)
    ensures k < |Of(d, h)| && Of(d, h)[k] == i
  {
    hide DepsOf;
    assert Waits(d, h, i);
    k :| 0 <= k < |Of(d, h)| && Of(d, h)[k] == i;
  }

  // --------------------------------------------------------------------- the whole pass

  /** An entry taken off the queue, with what waited (itself included), the
      order in force, and the template before and after. */
  datatype Try = Try(entry: TxPriority, waiting: seq<TxPriority>, byFee: bool, before: Template, after: Template,
                     added: bool)

  /** What is asked before the inputs are fetched: room, signature operations and
      time, and in the order of fees no free transaction past the minimum size. */
  predicate Passes(m: Miner, t: Template, entry: TxPriority, tx: Tx, byFee: bool) {
    && t.nBlockSize + tx.nSize < ClampMax(m.nBlockMaxSize)
    && t.nBlockSigOps + tx.nSigOps < MAX_BLOCK_SIGOPS
    && tx.nTime <= m.nAdjustedTime && (m.fProofOfStake ==> tx.nTime <= m.nCoinbaseTime)
    && (byFee && t.nBlockSize + tx.nSize >= Min(ClampMax(m.nBlockMaxSize), m.nBlockMinSize) ==>
          entry.dFeePerKb >= m.nMinTxFee as real)
  }

  /** From this entry on, fees decide: it is past the priority size or below the priority bound. */
  predicate Switches(m: Miner, t: Template, entry: TxPriority, tx: Tx) {
    || t.nBlockSize + tx.nSize >= Min(ClampMax(m.nBlockMaxSize), m.nBlockPrioritySize)
    || entry.dPriority < HIGH_PRIORITY
  }

  /** First the greater fee, or first the greater priority; the other decides between equals. */
  predicate Above(byFee: bool, a: TxPriority, b: TxPriority) {
    if byFee then a.dFeePerKb > b.dFeePerKb || (a.dFeePerKb == b.dFeePerKb && a.dPriority > b.dPriority)
    else a.dPriority > b.dPriority || (a.dPriority == b.dPriority && a.dFeePerKb > b.dFeePerKb)
  }

  function TxOf(m: Miner, y: Try): Tx
    requires y.entry.hash in m.env.mempool
  {
    m.env.mempool[y.entry.hash]
  }

  /** A try adds its transaction exactly if that passes and connects, and nothing
      that waits is above it. */
  ghost predicate TryOk(m: Miner, index: Index, y: Try) {
    && y.entry.hash in m.env.mempool && y.entry in y.waiting
    && (forall e | e in y.waiting :: !Above(y.byFee, e, y.entry))
    && (y.added <==> Passes(m, y.before, y.entry, TxOf(m, y), y.byFee) && Connects(m, index, y.before, TxOf(m, y)))
    && (if y.added then Grows(m, index, y.before, TxOf(m, y), y.after) else y.after == y.before)
  }

  /** The transaction is appended and counted. */
  ghost predicate Grows(m: Miner, index: Index, t: Template, tx: Tx, t': Template) {
    && t'.vtx == t.vtx + [tx] && Sound(m, index, t')
    && t'.nBlockSigOps == t.nBlockSigOps + tx.nSigOps +
                          m.env.p2shSigOps(tx, Parents(Fetched(m.env, index, t.pool, false, true, tx)))
  }

  /** The order after a try. */
  predicate ByFeeAfter(m: Miner, y: Try) {
    y.byFee ||
    (y.entry.hash in m.env.mempool && Passes(m, y.before, y.entry, TxOf(m, y), y.byFee)
     && Switches(m, y.before, y.entry, TxOf(m, y)))
  }

  function TriedIn(log: seq<Try>): set<Hash> { set y | y in log :: y.entry.hash }

  /** Exactly the candidates wait that were not tried and whose parents are all in. */
  ghost predicate WaitingOk(m: Miner, index: Index, q: seq<TxPriority>, tried: set<Hash>, chosen: set<Hash>) {
    && (forall h :: Queued(q, h) <==> Candidate(m, index, h) && h !in tried && DepsOf(m, index, h) <= chosen)
    && (forall e | e in q ::
          e.hash in m.env.mempool && m.env.mempool[e.hash].nSize > 0 && e == PriorityOf(m, index, m.env.mempool[e.hash]))
  }

  ghost predicate EntryOk(m: Miner, index: Index, log: seq<Try>, n: nat)
    requires n < |log|
  {
    && TryOk(m, index, log[n])
    && WaitingOk(m, index, log[n].waiting, TriedIn(log[..n]), Hashes(log[n].before.vtx))
    && log[n].before == TemplateAfter(log[..n]) && log[n].byFee == OrderAfter(m, log[..n])
  }

  /** The template that the tries lead to, from the one that holds the coinbase only. */
  function TemplateAfter(log: seq<Try>): Template {
    if log == [] then Template([], map[], 1000, 100, 0) else log[|log| - 1].after
  }

  predicate OrderAfter(m: Miner, log: seq<Try>) {
    if log == [] then Min(ClampMax(m.nBlockMaxSize), m.nBlockPrioritySize) <= 0 else ByFeeAfter(m, log[|log| - 1])
  }

  ghost predicate LogOk(m: Miner, index: Index, log: seq<Try>) {
    forall n | 0 <= n < |log| :: EntryOk(m, index, log, n)
  }

  lemma OneMoreTry(m: Miner, index: Index, log: seq<Try>, y: Try)
    requires LogOk(m, index, log) && TryOk(m, index, y)
    requires WaitingOk(m, index, y.waiting, TriedIn(log), Hashes(y.before.vtx))
    requires y.before == TemplateAfter(log) && y.byFee == OrderAfter(m, log)
    ensures LogOk(m, index, log + [y]) && TriedIn(log + [y]) == TriedIn(log) + {y.entry.hash}
    ensures TemplateAfter(log + [y]) == y.after && OrderAfter(m, log + [y]) == ByFeeAfter(m, y)
  {
    hide TryOk, WaitingOk, TemplateAfter, OrderAfter, ByFeeAfter, TriedIn;
    var more := log + [y];
    forall n | 0 <= n < |more| ensures EntryOk(m, index, more, n) {
      if n < |log| {
        assert more[..n] == log[..n] && more[n] == log[n];
        assert EntryOk(m, index, log, n);
      } else {
        assert more[..n] == log;
      }
    }
    LastTry(m, log, y);
  }

  lemma LastTry(m: Miner, log: seq<Try>, y: Try)
    ensures TriedIn(log + [y]) == TriedIn(log) + {y.entry.hash}
    ensures TemplateAfter(log + [y]) == y.after && OrderAfter(m, log + [y]) == ByFeeAfter(m, y)
  {
    assert forall x :: x in log + [y] <==> x in log || x == y;
  }

  lemma SchedWaits(m: Miner, index: Index, q: seq<TxPriority>, vOrphan: seq<Orphan>, tried: set<Hash>, chosen: set<Hash>,
                   x: Hash)
    requires Sched(m, index, q, vOrphan, tried, chosen, x, {})
    ensures WaitingOk(m, index, q, tried, chosen)
  {
    hide Candidate, DepsOf, PriorityOf, OrphansOk;
    forall h ensures Queued(q, h) <==> Candidate(m, index, h) && h !in tried && DepsOf(m, index, h) <= chosen {
      assert Allowed(chosen, x, {}, h) == chosen;
      if Queued(q, h) { var i :| 0 <= i < |q| && q[i].hash == h; }
    }
    forall e | e in q ensures
      e.hash in m.env.mempool && m.env.mempool[e.hash].nSize > 0 && e == PriorityOf(m, index, m.env.mempool[e.hash])
    {
      var i :| 0 <= i < |q| && q[i] == e;
      CandidateInPool(m, index, q[i].hash);
    }
  }

  lemma CandidateInPool(m: Miner, index: Index, h: Hash)
    requires Candidate(m, index, h)
    ensures h in m.env.mempool
  {
  }

  /** The record of a round. */
  lemma MakeTry(m: Miner, index: Index, y: Try, fByFee: bool)
    requires y.entry.hash in m.env.mempool && y.entry in y.waiting && forall e | e in y.waiting :: !Above(y.byFee, e, y.entry)
    requires var passes := Passes(m, y.before, y.entry, TxOf(m, y), y.byFee);
      && (y.added <==> passes && Connects(m, index, y.before, TxOf(m, y)))
      && (if y.added then Grows(m, index, y.before, TxOf(m, y), y.after) else y.after == y.before)
      && (fByFee <==> y.byFee || (passes && Switches(m, y.before, y.entry, TxOf(m, y))))
    ensures TryOk(m, index, y) && ByFeeAfter(m, y) == fByFee
    ensures Hashes(y.after.vtx) == Hashes(y.before.vtx) + if y.added then {TxOf(m, y).hash} else {}
    ensures y.added ==> y.after.vtx == y.before.vtx + [TxOf(m, y)]
    ensures y.added ==> Sound(m, index, y.after)
  {
    hide Passes, Connects, Switches, Above, Sound;
    if y.added {
      HashesLast(y.after.vtx);
      assert y.after.vtx[..|y.before.vtx|] == y.before.vtx;
    }
  }

  /** One round of the loop, from the entry taken off the queue on. */
  method TryEntry(m: Miner, txdb: TxDB, t: Template, top: TxPriority, fSortedByFee: bool)
    returns (added: bool, t': Template, fByFee: bool)
    requires Closed(m, txdb.index) && IndexOk(m.env, txdb.index) && Sound(m, txdb.index, t)
    requires Candidate(m, txdb.index, top.hash) && top.hash !in Hashes(t.vtx)
    requires top.hash in m.env.mempool && m.env.mempool[top.hash].hash == top.hash
    ensures var tx := m.env.mempool[top.hash];
      var passes := Passes(m, t, top, tx, fSortedByFee);
      && (added <==> passes && Connects(m, txdb.index, t, tx))
      && (if added then Grows(m, txdb.index, t, tx, t') else t' == t)
      && (fByFee <==> fSortedByFee || (passes && Switches(m, t, top, tx)))
  {
    hide Closed, IndexOk, Sound, Candidate, Connects, ClampMax, Fetched, Hashes;
    added, t', fByFee := false, t, fSortedByFee;
    var nBlockMaxSize := ClampMax(m.nBlockMaxSize);
    var nBlockPrioritySize := Min(nBlockMaxSize, m.nBlockPrioritySize);
    var nBlockMinSize := Min(nBlockMaxSize, m.nBlockMinSize);
    var tx := m.env.mempool[top.hash];
    if t.nBlockSize + tx.nSize >= nBlockMaxSize { return; }
    if t.nBlockSigOps + tx.nSigOps >= MAX_BLOCK_SIGOPS { return; }
    if tx.nTime > m.nAdjustedTime || (m.fProofOfStake && tx.nTime > m.nCoinbaseTime) { return; }
    if fSortedByFee && top.dFeePerKb < m.nMinTxFee as real && t.nBlockSize + tx.nSize >= nBlockMinSize { return; }
    if !fSortedByFee && (t.nBlockSize + tx.nSize >= nBlockPrioritySize || top.dPriority < HIGH_PRIORITY) {
      fByFee := true;
    }
    added, t' := Connect(m, txdb, t, tx);
  }

  /** The pool transactions that go into the block behind the coinbase. */
  method CollectTransactions(m: Miner, txdb: TxDB) returns (t: Template, ghost log: seq<Try>)
    requires Closed(m, txdb.index) && IndexOk(m.env, txdb.index)
    ensures Sound(m, txdb.index, t)
    ensures LogOk(m, txdb.index, log) && t == TemplateAfter(log)
    ensures Hashes(t.vtx) <= TriedIn(log)
    ensures forall h :: h in TriedIn(log) <==> Candidate(m, txdb.index, h) && DepsOf(m, txdb.index, h) <= Hashes(t.vtx)
  {
    hide Closed, IndexOk, Sound, Sched, DependersOk, AllDepsAreOrphans, Candidate, DepsOf, PriorityOf, Connects, ClampMax,
         Less, LogOk, WaitingOk, TriedIn, TemplateAfter, OrderAfter, Above, Passes, Switches, Queued, Hashes, TryOk,
         ByFeeAfter, Grows;
    var vecPriority, vOrphan, mapDependers := Collect(m, txdb);
    t := Template([], map[], 1000, 100, 0);
    SoundStart(m, txdb.index);
    log := [];
    ghost var last: Hash := 0;
    var fSortedByFee := Min(ClampMax(m.nBlockMaxSize), m.nBlockPrioritySize) <= 0;
    NothingTried(m, txdb.index);
    while vecPriority != []
      invariant Sound(m, txdb.index, t) && LogOk(m, txdb.index, log)
      invariant t == TemplateAfter(log) && fSortedByFee == OrderAfter(m, log)
      invariant Sched(m, txdb.index, vecPriority, vOrphan, TriedIn(log), Hashes(t.vtx), last, {})
      invariant DependersOk(m, txdb.index, vOrphan, mapDependers) && AllDepsAreOrphans(m, txdb.index, vOrphan)
      invariant Hashes(t.vtx) <= TriedIn(log) <= m.env.mempool.Keys
      decreases |m.env.mempool.Keys - TriedIn(log)|
    {
      ghost var tried, was, waiting, order := TriedIn(log), t, vecPriority, fSortedByFee;
      var top, rest := PopHighest(vecPriority, fSortedByFee);
      ghost var k :| 0 <= k < |vecPriority| && top == vecPriority[k] && rest == vecPriority[..k] + vecPriority[k + 1..];
      SchedWaits(m, txdb.index, vecPriority, vOrphan, tried, Hashes(t.vtx), last);
      PopKeeps(m, txdb.index, vecPriority, k, vOrphan, tried, Hashes(t.vtx), last);
      CandidateKnown(m, txdb.index, top.hash);
      NothingAbove(vecPriority, fSortedByFee, top);
      vecPriority := rest;
      Smaller(m.env.mempool.Keys, tried, top.hash);
      var tx := m.env.mempool[top.hash];
      var added;
      added, t, fSortedByFee := TryEntry(m, txdb, t, top, fSortedByFee);
      ghost var y := Try(top, waiting, order, was, t, added);
      MakeTry(m, txdb.index, y, fSortedByFee);
      OneMoreTry(m, txdb.index, log, y);
      log := log + [y];
      if !added { continue; }
      NoOneTold(m, txdb.index, vecPriority, vOrphan, TriedIn(log), Hashes(was.vtx), last, tx.hash);
      vecPriority, vOrphan :=
        Notify(m, txdb.index, vecPriority, vOrphan, mapDependers, tx.hash, TriedIn(log), Hashes(was.vtx));
      last := tx.hash;
    }
    AllTried(m, txdb.index, vOrphan, TriedIn(log), Hashes(t.vtx), last);
  }

  lemma NothingTried(m: Miner, index: Index)
    ensures LogOk(m, index, []) && TriedIn([]) == {} && Hashes([]) == {}
    ensures TemplateAfter([]) == Template([], map[], 1000, 100, 0)
    ensures OrderAfter(m, []) == (Min(ClampMax(m.nBlockMaxSize), m.nBlockPrioritySize) <= 0)
  {
  }

  lemma NothingAbove(q: seq<TxPriority>, byFee: bool, top: TxPriority)
    requires top in q && forall e | e in q :: !Less(byFee, top, e)
    ensures forall e | e in q :: !Above(byFee, e, top)
  {
    forall e | e in q ensures !Above(byFee, e, top) {
      assert !Less(byFee, top, e);
    }
  }

  lemma CandidateKnown(m: Miner, index: Index, h: Hash)
    requires Candidate(m, index, h) && Closed(m, index)
    ensures h in m.env.mempool && m.env.mempool[h].hash == h
  {
    hide OutputsInRange;
  }

  lemma Smaller(all: set<Hash>, tried: set<Hash>, h: Hash)
    requires h in all && h !in tried
    ensures |all - (tried + {h})| < |all - tried|
  {
    assert all - tried == (all - (tried + {h})) + {h};
  }

  lemma AllTried(m: Miner, index: Index, vOrphan: seq<Orphan>, tried: set<Hash>, chosen: set<Hash>, x: Hash)
    requires Sched(m, index, [], vOrphan, tried, chosen, x, {})
    ensures forall h :: h in tried <==> Candidate(m, index, h) && DepsOf(m, index, h) <= chosen
  {
    hide Candidate, DepsOf, QueueOk, OrphansOk;
  }
}
