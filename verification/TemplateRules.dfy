// The numbers behind a block template, said without the functions that compute them.
module TemplateRules {
  import opened HashType
  import opened Options
  import opened Transactions
  import opened TxIndex
  import opened IndexSteps
  import opened Connecting
  import opened TemplatePool
  import opened BlockTemplate
  import opened TemplateQueue
  import Limbs

  /** The size limit is the option, kept between 1000 bytes and 1000 below the maximum. */
  lemma ClampIs(n: nat)
    ensures 1000 <= ClampMax(n) <= 19_999_000
    ensures 1000 <= n <= 19_999_000 ==> ClampMax(n) == n
    ensures n < 1000 ==> ClampMax(n) == 1000
    ensures n > 19_999_000 ==> ClampMax(n) == 19_999_000
  {
  }

  /** A hundredth of a coin up to half of the generated size, then that times the
      number of times the free room goes into the whole size, and never less for more. */
  lemma MinFeeIs(n: nat)
    ensures n < 5_000_000 ==> BlockMinFee(n) == 1_000_000
    ensures 5_000_000 <= n < 10_000_000 ==>
      exists q: nat :: BlockMinFee(n) == q * 1_000_000 && q * (10_000_000 - n) <= 10_000_000 < (q + 1) * (10_000_000 - n)
    ensures n >= 10_000_000 ==> BlockMinFee(n) == MAX_MONEY
  {
    if 5_000_000 <= n < 10_000_000 {
      var room := 10_000_000 - n;
      var q := 10_000_000 / room;
      Limbs.DivSmaller(10_000_000, room);
      Limbs.Distribute(q, 1, room);
      assert BlockMinFee(n) == q * 1_000_000;
    }
  }

  lemma MinFeeGrows(n: nat, more: nat)
    requires n <= more
    ensures BlockMinFee(n) <= BlockMinFee(more)
  {
    MinFeeIs(n);
    MinFeeIs(more);
    if 5_000_000 <= n && more < 10_000_000 {
      var a, b := 10_000_000 - n, 10_000_000 - more;
      var p, q := 10_000_000 / a, 10_000_000 / b;
      QuotientGrows(10_000_000, a, b);
    }
  }

  lemma QuotientGrows(x: nat, a: nat, b: nat)
    requires 0 < b <= a
    ensures x / a <= x / b
  {
    Limbs.DivSmaller(x, a);
    Limbs.DivSmaller(x, b);
    if x / b < x / a {
      Limbs.MulLe(x / b + 1, x / a, b);
      Limbs.MulLe(b, a, x / a);
      Limbs.Distribute(x / b, 1, b);
    }
  }

  // --------------------------------------------------------------------- priorities

  function Sum(xs: seq<real>): real { if xs == [] then 0.0 else Sum(xs[..|xs| - 1]) + xs[|xs| - 1] }

  function SumInt(xs: seq<int>): int { if xs == [] then 0 else SumInt(xs[..|xs| - 1]) + xs[|xs| - 1] }

  /** What input i is worth, and that times the depth of its transaction if it is in the chain. */
  ghost function Values(m: Miner, index: Index, tx: Tx): (xs: seq<int>)
    ensures |xs| == |tx.vin| && forall i | 0 <= i < |xs| :: xs[i] == OutValue(m, index, tx.vin[i])
  {
    seq(|tx.vin|, i requires 0 <= i < |tx.vin| => OutValue(m, index, tx.vin[i]))
  }

  ghost function Ages(m: Miner, index: Index, tx: Tx): (xs: seq<real>)
    ensures |xs| == |tx.vin|
    ensures forall i | 0 <= i < |xs| ::
      xs[i] == if OnDisk(m, index, tx.vin[i])
               then (OutValue(m, index, tx.vin[i]) * m.depth(tx.vin[i].hash)) as real else 0.0
  {
    seq(|tx.vin|, i requires 0 <= i < |tx.vin| =>
      if OnDisk(m, index, tx.vin[i]) then (OutValue(m, index, tx.vin[i]) * m.depth(tx.vin[i].hash)) as real else 0.0)
  }

  lemma {:induction false} SumsUpTo(m: Miner, index: Index, tx: Tx, k: nat)
    requires k <= |tx.vin|
    ensures TotalIn(m, index, tx, k) == SumInt(Values(m, index, tx)[..k])
    ensures Age(m, index, tx, k) == Sum(Ages(m, index, tx)[..k])
  {
    hide OutValue, OnDisk;
    if k > 0 {
      SumsUpTo(m, index, tx, k - 1);
      assert Values(m, index, tx)[..k][..k - 1] == Values(m, index, tx)[..k - 1];
      assert Ages(m, index, tx)[..k][..k - 1] == Ages(m, index, tx)[..k - 1];
    }
  }

  /** Priority times size is the sum of value times depth, fee per kilobyte times
      size a thousand times what the inputs are worth less the outputs. */
  lemma PriorityIs(m: Miner, index: Index, tx: Tx)
    requires tx.nSize > 0
    ensures var p := PriorityOf(m, index, tx); var size := tx.nSize as real;
      && p.hash == tx.hash
      && p.dPriority * size == Sum(Ages(m, index, tx))
      && p.dFeePerKb * size == 1000.0 * (SumInt(Values(m, index, tx)) - SumOut(tx.vout)) as real
  {
    hide OutValue, OnDisk, Age, TotalIn;
    SumsUpTo(m, index, tx, |tx.vin|);
    assert Values(m, index, tx)[..|tx.vin|] == Values(m, index, tx);
    assert Ages(m, index, tx)[..|tx.vin|] == Ages(m, index, tx);
    Cancels(Age(m, index, tx, |tx.vin|), tx.nSize as real);
    CancelsKb(Fee(m, index, tx) as real, tx.nSize as real);
  }

  lemma Cancels(x: real, size: real)
    requires size > 0.0
    ensures x / size * size == x
  {
  }

  lemma CancelsKb(x: real, size: real)
    requires size > 0.0
    ensures x / (size / 1000.0) * size == 1000.0 * x
  {
    var kb := size / 1000.0;
    Cancels(x, kb);
    assert x / kb * (1000.0 * kb) == 1000.0 * (x / kb * kb);
  }

  // ------------------------------------------------------------------------- tries

  /** The option, kept between 1000 and 19,999,000 bytes. */
  function SizeLimit(option: nat): nat {
    if option > 19_999_000 then 19_999_000 else if option < 1000 then 1000 else option
  }

  /** Fees decide from the start exactly if no room is kept for priority. */
  lemma FirstOrder(m: Miner)
    ensures OrderAfter(m, []) <==> m.nBlockPrioritySize == 0
  {
  }

  /** A logged try adds its transaction exactly if the block stays below the size
      limit and below the signature operations, the transaction is not from the
      future, nor for a block of stake from after its coinbase, it is not free
      beyond the minimum size while fees decide, and it connects; fees decide
      afterwards if they did before or the transaction, not refused so far, is past
      the priority size or has too little priority; nothing that waited has a
      greater fee and priority, compared in the order in force. */
  lemma TryIs(m: Miner, index: Index, y: Try)
    requires TryOk(m, index, y)
    ensures var tx := m.env.mempool[y.entry.hash]; var size := y.before.nBlockSize + tx.nSize;
      var passes :=
        && size < SizeLimit(m.nBlockMaxSize)
        && y.before.nBlockSigOps + tx.nSigOps < 400_000
        && tx.nTime <= m.nAdjustedTime && (!m.fProofOfStake || tx.nTime <= m.nCoinbaseTime)
        && (!y.byFee || size < m.nBlockMinSize || y.entry.dFeePerKb >= m.nMinTxFee as real);
      && (y.added <==> passes && Connects(m, index, y.before, tx))
      && (ByFeeAfter(m, y) <==>
            y.byFee || (passes && (size >= m.nBlockPrioritySize || y.entry.dPriority < 57_600_000.0)))
      && forall e | e in y.waiting ::
           if y.byFee
           then e.dFeePerKb < y.entry.dFeePerKb ||
                (e.dFeePerKb == y.entry.dFeePerKb && e.dPriority <= y.entry.dPriority)
           else e.dPriority < y.entry.dPriority ||
                (e.dPriority == y.entry.dPriority && e.dFeePerKb <= y.entry.dFeePerKb)
  {
    hide Connects, Grows;
    forall e | e in y.waiting ensures !Above(y.byFee, e, y.entry) {
    }
  }

  /** The output is in the chain. */
  predicate InChain(m: Miner, index: Index, o: OutPoint) {
    && o.hash in index
    && m.env.read(index[o.hash].pos).Some? && o.n < |m.env.read(index[o.hash].pos).value.vout|
  }

  /** Before try n, exactly the final pool transactions wait that are neither coinbase
      nor coinstake, were not tried, and find each input in the chain or its
      transaction in the template. */
  lemma WaitsIff(m: Miner, index: Index, log: seq<Try>, n: nat, h: Hash)
    requires LogOk(m, index, log) && n < |log|
    ensures (exists e | e in log[n].waiting :: e.hash == h) <==>
      h in m.env.mempool && var tx := m.env.mempool[h];
      && !tx.IsCoinBase() && !tx.IsCoinStake() && m.isFinal(tx)
      && (forall j | 0 <= j < n :: log[j].entry.hash != h)
      && forall o | o in tx.vin :: InChain(m, index, o) || exists u | u in log[n].before.vtx :: u.hash == o.hash
  {
    hide TryOk, Sound, Candidate, DepsOf, TriedIn;
    var q, vtx := log[n].waiting, log[n].before.vtx;
    assert EntryOk(m, index, log, n);
    SoundThroughout(m, index, log, n);
    SoundIsChosen(m, index, log[n].before);
    CandidateIs(m, index, h);
    SameEntries(q, h);
    assert Queued(q, h) <==> Candidate(m, index, h) && h !in TriedIn(log[..n]) && DepsOf(m, index, h) <= Hashes(vtx);
    TriedBefore(log, n, h);
    if h in m.env.mempool { InputsThere(m, index, m.env.mempool[h], vtx); }
  }

  lemma CandidateIs(m: Miner, index: Index, h: Hash)
    ensures Candidate(m, index, h) <==> h in m.env.mempool && var tx := m.env.mempool[h];
      !tx.IsCoinBase() && !tx.IsCoinStake() && m.isFinal(tx) && AllPresent(m, index, tx)
    ensures h in m.env.mempool ==> DepsOf(m, index, h) == Deps(m, index, m.env.mempool[h])
  {
  }

  lemma SameEntries(q: seq<TxPriority>, h: Hash)
    ensures Queued(q, h) <==> exists e | e in q :: e.hash == h
  {
    if e :| e in q && e.hash == h {
      var i :| 0 <= i < |q| && q[i] == e;
    }
  }

  lemma SoundIsChosen(m: Miner, index: Index, t: Template)
    requires Sound(m, index, t)
    ensures forall tx | tx in t.vtx :: tx.hash in m.env.mempool
  {
    forall tx | tx in t.vtx ensures tx.hash in m.env.mempool {
      var k :| 0 <= k < |t.vtx| && t.vtx[k] == tx;
    }
  }

  /** Every template on the way is sound. */
  lemma {:induction false} SoundThroughout(m: Miner, index: Index, log: seq<Try>, n: nat)
    requires LogOk(m, index, log) && n <= |log|
    ensures Sound(m, index, TemplateAfter(log[..n]))
  {
    hide Sound, WaitingOk;
    if n == 0 {
      SoundStart(m, index);
    } else {
      SoundThroughout(m, index, log, n - 1);
      assert EntryOk(m, index, log, n - 1);
      assert log[..n][n - 1] == log[n - 1];
    }
  }

  lemma TriedBefore(log: seq<Try>, n: nat, h: Hash)
    requires n < |log|
    ensures h in TriedIn(log[..n]) <==> exists j | 0 <= j < n :: log[j].entry.hash == h
  {
    if j :| 0 <= j < n && log[j].entry.hash == h {
      var y := log[j];
      assert log[..n][j] == y && y in log[..n];
    }
  }

  lemma InputsThere(m: Miner, index: Index, tx: Tx, vtx: seq<Tx>)
    requires forall u | u in vtx :: u.hash in m.env.mempool
    ensures AllPresent(m, index, tx) && Deps(m, index, tx) <= Hashes(vtx) <==>
      forall o | o in tx.vin :: InChain(m, index, o) || exists u | u in vtx :: u.hash == o.hash
  {
    forall o | o in tx.vin ensures OnDisk(m, index, o) <==> InChain(m, index, o) {
    }
    if AllPresent(m, index, tx) && Deps(m, index, tx) <= Hashes(vtx) {
      forall o | o in tx.vin && !InChain(m, index, o) ensures exists u | u in vtx :: u.hash == o.hash {
        assert o.hash in Deps(m, index, tx);
      }
    }
  }

  // ------------------------------------------------------------------- connecting

  /** What a candidate needs once it passes: inputs that are there, mature,
      unspent in the chain with the chosen transactions, each named once, and
      signed; a fee in range and no less than the minimum for the present size;
      and few enough signature operations. */
  lemma ConnectsIff(m: Miner, index: Index, t: Template, tx: Tx)
    requires Closed(m, index) && IndexOk(m.env, index) && Sound(m, index, t)
    requires Candidate(m, index, tx.hash) && m.env.mempool[tx.hash] == tx
    ensures var inputs := Fetched(m.env, index, t.pool, false, true, tx);
      Connects(m, index, t, tx) <==>
        && Sensible(m.env, tx, inputs)
        && (forall i | 0 <= i < |tx.vin| :: Free(tx, inputs, i) && Signed(m.env, tx, inputs, false, i))
        && Pays(m.env, tx, inputs)
        && SumInt(Values(m, index, tx)) - SumOut(tx.vout) >= BlockMinFee(t.nBlockSize)
        && t.nBlockSigOps + tx.nSigOps + m.env.p2shSigOps(tx, Parents(inputs)) < MAX_BLOCK_SIGOPS
  {
    hide Closed, IndexOk, Fetched, Connected, Spends, InOrder, Sensible, Pays, Free, Signed, ValueIn, BlockMinFee, OutValue,
         TotalIn, AllInRange;
    var inputs := Fetched(m.env, index, t.pool, false, true, tx);
    ConnectedIff(m.env, tx, inputs, t.pool, MEMPOOL_POS, false, true);
    if Sensible(m.env, tx, inputs) { SensibleIsInRange(m.env, tx, inputs); }
    if AllInRange(tx, inputs) {
      ValueInIs(m, index, t.vtx, t.pool, tx, |tx.vin|);
      SumsUpTo(m, index, tx, |tx.vin|);
      assert Values(m, index, tx)[..|tx.vin|] == Values(m, index, tx);
    }
  }
}
