// Transactions and the checks on them that need no context (main.h, main.cpp).
module Transactions {
  import opened HashType

  const MAX_MONEY: int := 50_000_000_000 * 100_000_000
  const MAX_BLOCK_SIZE: nat := 20_000_000
  const MAX_BLOCK_SIGOPS: nat := 400_000

  predicate MoneyRange(nValue: int) { 0 <= nValue <= MAX_MONEY }

  datatype OutPoint = OutPoint(hash: Hash, n: nat) {
    predicate IsNull() { hash == 0 && n == 0xFFFF_FFFF }
  }

  datatype TxOut = TxOut(nValue: int, noScript: bool) {
    predicate IsEmpty() { nValue == 0 && noScript }
  }

  /** A transaction with its hash, its serialised size, the length of its first
      input's script and the signature operations its scripts hold; vin keeps
      what each input refers to. */
  datatype Tx = Tx(hash: Hash, nTime: nat, vin: seq<OutPoint>, vout: seq<TxOut>, nSize: nat, nScript: nat,
                   nSigOps: nat) {
    predicate IsCoinBase() { |vin| == 1 && vin[0].IsNull() && |vout| >= 1 }

    predicate IsCoinStake() { |vin| > 0 && !vin[0].IsNull() && |vout| >= 2 && vout[0].IsEmpty() }
  }

  function SumOut(vout: seq<TxOut>): int {
    if vout == [] then 0 else SumOut(vout[..|vout| - 1]) + vout[|vout| - 1].nValue
  }

  function ValueOut(tx: Tx): int { SumOut(tx.vout) }

  /** GetValueOut does not throw. */
  ghost predicate OutputsInRange(tx: Tx) {
    (forall i | 0 <= i < |tx.vout| :: MoneyRange(tx.vout[i].nValue)) &&
    (forall k | 0 <= k <= |tx.vout| :: MoneyRange(SumOut(tx.vout[..k])))
  }

  ghost predicate DistinctInputs(tx: Tx) {
    forall i, j | 0 <= i < j < |tx.vin| :: tx.vin[i] != tx.vin[j]
  }

  ghost predicate TransactionOk(tx: Tx) {
    && |tx.vin| > 0 && |tx.vout| > 0 && tx.nSize <= MAX_BLOCK_SIZE
    && EmptyOutputsOk(tx)
    && OutputsInRange(tx)
    && DistinctInputs(tx)
    && (tx.IsCoinBase() ==> 2 <= tx.nScript <= 100)
    && (!tx.IsCoinBase() ==> forall i | 0 <= i < |tx.vin| :: !tx.vin[i].IsNull())
  }

  method CheckTransaction(tx: Tx) returns (ok: bool)
    ensures ok <==> TransactionOk(tx)
  {
    hide OutputsInRange, DistinctInputs;
    if tx.vin == [] || tx.vout == [] { return false; }
    if tx.nSize > MAX_BLOCK_SIZE { return false; }
    var outputsOk := CheckOutputs(tx);
    if !outputsOk { return false; }
    var distinct := HasDistinctInputs(tx);
    if !distinct { return false; }
    if tx.IsCoinBase() {
      if tx.nScript < 2 || tx.nScript > 100 { return false; }
    } else {
      for i := 0 to |tx.vin|
        invariant forall k | 0 <= k < i :: !tx.vin[k].IsNull()
      {
        if tx.vin[i].IsNull() { return false; }
      }
    }
    ok := true;
  }

  ghost predicate EmptyOutputsOk(tx: Tx) {
    forall i | 0 <= i < |tx.vout| :: tx.vout[i].IsEmpty() ==> tx.IsCoinBase() || tx.IsCoinStake()
  }

  lemma SumStart(vout: seq<TxOut>)
    ensures SumOut(vout[..0]) == 0 && MoneyRange(0)
  {
  }

  lemma SumStep(vout: seq<TxOut>, i: nat)
    requires i < |vout|
    ensures SumOut(vout[..i + 1]) == SumOut(vout[..i]) + vout[i].nValue
    ensures MoneyRange(vout[i].nValue) <==> 0 <= vout[i].nValue <= MAX_MONEY
  {
    assert vout[..i + 1][..i] == vout[..i];
  }

  /** The running total is checked after every output, so no sum ever leaves the range. */
  method CheckOutputs(tx: Tx) returns (ok: bool)
    ensures ok <==> EmptyOutputsOk(tx) && OutputsInRange(tx)
  {
    hide MoneyRange, SumOut;
    SumStart(tx.vout);
    var nValueOut := 0;
    for i := 0 to |tx.vout|
      invariant nValueOut == SumOut(tx.vout[..i])
      invariant forall k | 0 <= k < i :: MoneyRange(tx.vout[k].nValue)
      invariant forall k | 0 <= k <= i :: MoneyRange(SumOut(tx.vout[..k]))
      invariant forall k | 0 <= k < i :: tx.vout[k].IsEmpty() ==> tx.IsCoinBase() || tx.IsCoinStake()
    {
      SumStep(tx.vout, i);
      if tx.vout[i].IsEmpty() && !tx.IsCoinBase() && !tx.IsCoinStake() { return false; }
      if tx.vout[i].nValue < 0 || tx.vout[i].nValue > MAX_MONEY { return false; }
      nValueOut := nValueOut + tx.vout[i].nValue;
      if !MoneyRange(nValueOut) { return false; }
    }
    ok := true;
  }

  method HasDistinctInputs(tx: Tx) returns (ok: bool)
    ensures ok <==> DistinctInputs(tx)
  {
    var vInOutPoints: set<OutPoint> := {};
    for i := 0 to |tx.vin|
      invariant forall o :: o in vInOutPoints <==> exists k | 0 <= k < i :: tx.vin[k] == o
      invariant forall j, k | 0 <= j < k < i :: tx.vin[j] != tx.vin[k]
    {
      if tx.vin[i] in vInOutPoints { return false; }
      vInOutPoints := vInOutPoints + {tx.vin[i]};
    }
    ok := true;
  }

  // ---------------------------------------------------------------------- blocks

  datatype Block = Block(vtx: seq<Tx>) {
    predicate IsProofOfStake() { |vtx| > 1 && vtx[1].IsCoinStake() }
  }

  ghost predicate UniqueTx(vtx: seq<Tx>) {
    forall i, j | 0 <= i < j < |vtx| :: vtx[i].hash != vtx[j].hash
  }

  function SigOps(vtx: seq<Tx>): nat {
    if vtx == [] then 0 else SigOps(vtx[..|vtx| - 1]) + vtx[|vtx| - 1].nSigOps
  }

  ghost predicate BlockOk(b: Block) {
    && b.vtx != [] && b.vtx[0].IsCoinBase() && (forall i | 1 <= i < |b.vtx| :: !b.vtx[i].IsCoinBase())
    && (b.IsProofOfStake() ==>
          |b.vtx[0].vout| == 1 && b.vtx[0].vout[0].IsEmpty() && forall i | 2 <= i < |b.vtx| :: !b.vtx[i].IsCoinStake())
    && (forall i | 0 <= i < |b.vtx| :: TransactionOk(b.vtx[i]))
    && UniqueTx(b.vtx) && SigOps(b.vtx) <= MAX_BLOCK_SIGOPS
  }

  /** The transaction hashes are put in a set and the sizes compared. */
  method HasUniqueTx(vtx: seq<Tx>) returns (ok: bool)
    ensures ok <==> UniqueTx(vtx)
  {
    var uniqueTx: set<Hash> := {};
    for i := 0 to |vtx|
      invariant forall k | 0 <= k < i :: vtx[k].hash in uniqueTx
      invariant forall h | h in uniqueTx :: exists k | 0 <= k < i :: vtx[k].hash == h
      invariant |uniqueTx| <= i
      invariant |uniqueTx| == i <==> UniqueTx(vtx[..i])
    {
      assert vtx[..i + 1] == vtx[..i] + [vtx[i]];
      assert UniqueTx(vtx[..i + 1]) <==> UniqueTx(vtx[..i]) && forall k | 0 <= k < i :: vtx[k].hash != vtx[i].hash;
      uniqueTx := uniqueTx + {vtx[i].hash};
    }
    assert vtx[..|vtx|] == vtx;
    ok := |uniqueTx| == |vtx|;
  }

  method CheckBlock(b: Block, otherChecks: bool) returns (ok: bool)
    ensures ok <==> otherChecks && BlockOk(b)
  {
    hide TransactionOk, UniqueTx;
    if b.vtx == [] || !otherChecks || !b.vtx[0].IsCoinBase() { return false; }
    for i := 1 to |b.vtx|
      invariant forall k | 1 <= k < i :: !b.vtx[k].IsCoinBase()
    {
      if b.vtx[i].IsCoinBase() { return false; }
    }
    if b.IsProofOfStake() {
      if |b.vtx[0].vout| != 1 || !b.vtx[0].vout[0].IsEmpty() { return false; }
      for i := 2 to |b.vtx|
        invariant forall k | 2 <= k < i :: !b.vtx[k].IsCoinStake()
      {
        if b.vtx[i].IsCoinStake() { return false; }
      }
    }
    for i := 0 to |b.vtx|
      invariant forall k | 0 <= k < i :: TransactionOk(b.vtx[k])
    {
      var fine := CheckTransaction(b.vtx[i]);
      if !fine { return false; }
    }
    var unique := HasUniqueTx(b.vtx);
    if !unique { return false; }
    var nSigOps := 0;
    for i := 0 to |b.vtx|
      invariant nSigOps == SigOps(b.vtx[..i])
    {
      assert b.vtx[..i + 1][..i] == b.vtx[..i];
      nSigOps := nSigOps + b.vtx[i].nSigOps;
    }
    assert b.vtx[..|b.vtx|] == b.vtx;
    ok := nSigOps <= MAX_BLOCK_SIGOPS;
  }
}
