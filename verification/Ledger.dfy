// Runs of attaching and disconnecting blocks at the tip of a chain.
module Ledger {
  import opened HashType
  import opened Options
  import opened Transactions
  import opened TxIndex
  import opened ConnectBlock
  import opened IndexSteps
  import opened IndexUndo
  import opened IndexTolerance
  import opened IndexChecks
  import opened Supply

  /** How a block is attached: without or with tolerance, or, if it was
      postponed, by a mere check that writes nothing to the index. */
  datatype How = Strict | Tolerant | Checked

  /** A block with the place it is written to, what its surroundings say and how
      it is attached. */
  datatype Placed = Placed(env: Env, b: Block, nFile: nat, nBlockPos: nat, nHeight: int, header: nat, j: Judgement,
                           how: How)
  {
    /** The flags with which ConnectBlock is called. */
    function Mode(): Flags { if how == Strict then CONNECT else if how == Tolerant then TOLERATE else CHECK }

    /** The flags with which the block is, or would be, written. */
    function Writing(): (flags: Flags)
      ensures flags == CONNECT || flags == TOLERATE
    {
      if how == Strict then CONNECT else TOLERATE
    }
  }

  datatype Op = Connect(p: Placed) | Disconnect

  /** The index, and the attached blocks above the start. */
  datatype State = State(index: Index, chain: seq<Placed>)

  /** What ConnectBlock finds for the block. */
  function AmountsOf(index: Index, p: Placed): Option<Totals> {
    BlockAmounts(p.env, index, p.nFile, p.nBlockPos, p.header, p.b.vtx, p.Mode())
  }

  /** What writing the block puts in the index. */
  function PoolOf(index: Index, p: Placed): Option<Totals> {
    BlockAmounts(p.env, index, p.nFile, p.nBlockPos, p.header, p.b.vtx, p.Writing())
  }

  function Put(index: Index, p: Placed): Index {
    match PoolOf(index, p)
    case Some(t) => index + t.pool
    case None => index
  }

  /** The index that writing each of these blocks gives. */
  function Replay(start: Index, chain: seq<Placed>): Index {
    if chain == [] then start else Put(Replay(start, chain[..|chain| - 1]), chain[|chain| - 1])
  }

  /** The index that attaching these blocks, each in its way, gives. */
  function Held(start: Index, chain: seq<Placed>): Index {
    if chain == [] then start else
      var before, p := Held(start, chain[..|chain| - 1]), chain[|chain| - 1];
      if p.how == Checked then before else Put(before, p)
  }

  /** The money supply recorded for the last block. */
  function SupplyAt(start: Index, supply: int, chain: seq<Placed>): int {
    if chain == [] then supply else
      var n := |chain| - 1;
      SupplyAt(start, supply, chain[..n]) + Added(Held(start, chain[..n]), chain[n])
  }

  function Added(index: Index, p: Placed): int {
    match AmountsOf(index, p)
    case Some(t) => t.nValueOut - t.nValueIn
    case None => 0
  }

  ghost predicate Accepted(index: Index, supply: int, p: Placed) {
    Acceptable(p.env, index, p.b, p.nFile, p.nBlockPos, p.nHeight, supply, p.header, p.Mode(), p.j)
  }

  ghost function Apply(start: Index, supply: int, s: State, op: Op): State {
    match op
    case Connect(p) =>
      if Accepted(s.index, SupplyAt(start, supply, s.chain), p)
      then State(if p.how == Checked then s.index else s.index + PoolOf(s.index, p).value.pool, s.chain + [p])
      else s
    case Disconnect =>
      if s.chain == [] then s else
        var u := DisconnectedFrom(s.index, s.chain[|s.chain| - 1].b.vtx, 0);
        if u.ok then State(u.index, s.chain[..|s.chain| - 1]) else s
  }

  /** What the blocks connected with tolerance miss of the unspent value. */
  function GapAt(start: Index, chain: seq<Placed>): int {
    if chain == [] then 0 else
      var n := |chain| - 1;
      var p := chain[n];
      GapAt(start, chain[..n]) +
      if p.how == Tolerant
      then Gap(p.env, Held(start, chain[..n]), p.nFile, p.nBlockPos, p.nBlockPos + p.header, p.b.vtx, |p.b.vtx|)
      else 0
  }

  /** What the blocks that were merely checked add to the money supply alone. */
  function LagAt(start: Index, chain: seq<Placed>): int {
    if chain == [] then 0 else
      var n := |chain| - 1;
      LagAt(start, chain[..n]) + if chain[n].how == Checked then Added(Held(start, chain[..n]), chain[n]) else 0
  }

  /** The transactions are not among those of the blocks that were merely checked. */
  ghost predicate NewTo(chain: seq<Placed>, vtx: seq<Tx>) {
    forall k, i, j | 0 <= k < |chain| && chain[k].how == Checked && 0 <= i < |chain[k].b.vtx| && 0 <= j < |vtx| ::
      chain[k].b.vtx[i].hash != vtx[j].hash
  }

  /** Each block that is attached lies in the block files and its transactions
      are new; unless it is connected without tolerance, the outputs of the index
      that it names are unspent. */
  ghost predicate Legal(disk: Env, s: State, op: Op) {
    op.Connect? ==>
      op.p.env.read == disk.read &&
      Written(disk, op.p.nFile, op.p.nBlockPos, op.p.nBlockPos + op.p.header, op.p.b.vtx) &&
      Fresh(s.index, op.p.b.vtx) && NewTo(s.chain, op.p.b.vtx) &&
      (op.p.how != Strict ==> AllFree(s.index, InputsFrom(op.p.b.vtx, 0)))
  }

  /** The blocks of the chain were accepted in turn, their transactions new. */
  ghost predicate Grown(disk: Env, start: Index, chain: seq<Placed>) {
    chain == [] ||
    var n := |chain| - 1;
    var before := Held(start, chain[..n]);
    && Grown(disk, start, chain[..n])
    && IndexOk(disk, before)
    && AmountsOf(before, chain[n]).Some? && UniqueTx(chain[n].b.vtx) && chain[n].b.vtx != []
    && Legal(disk, State(before, chain[..n]), Connect(chain[n]))
  }

  /** The index is what attaching its chain alone would have produced. */
  ghost predicate Consistent(disk: Env, start: Index, s: State) {
    s.index == Held(start, s.chain) && IndexOk(disk, s.index) && Grown(disk, start, s.chain)
  }

  lemma SameDisk(disk: Env, env: Env, e: Index)
    requires env.read == disk.read
    ensures IndexOk(disk, e) <==> IndexOk(env, e)
  {
  }

  lemma {:induction false} SameUnspent(disk: Env, env: Env, e: Index)
    requires env.read == disk.read
    ensures Unspent(disk, e) == Unspent(env, e)
    decreases |e|
  {
    if e != map[] {
      assert (forall h :: h !in e) ==> e == map[];
      var h :| h in e;
      UnspentWithout(disk, e, h);
      UnspentWithout(env, e, h);
      SameUnspent(disk, env, e - {h});
    }
  }

  lemma ConnectConsistent(disk: Env, start: Index, supply: int, s: State, p: Placed)
    requires Consistent(disk, start, s) && Legal(disk, s, Connect(p))
    ensures Consistent(disk, start, Apply(start, supply, s, Connect(p)))
  {
    hide BlockAmounts, IndexOk, Written, UniqueTx, Acceptable, Fresh, AllFree, NewTo;
    if Accepted(s.index, SupplyAt(start, supply, s.chain), p) {
      var chain := s.chain + [p];
      assert chain[..|chain| - 1] == s.chain;
      AcceptedIs(s.index, SupplyAt(start, supply, s.chain), p);
      if p.how != Checked {
        SameDisk(disk, p.env, s.index);
        WrittenSame(disk, p);
        PoolKeepsIndex(s.index, p);
        SameDisk(disk, p.env, s.index + PoolOf(s.index, p).value.pool);
      }
    }
  }

  lemma AcceptedIs(index: Index, supply: int, p: Placed)
    requires Accepted(index, supply, p)
    ensures AmountsOf(index, p).Some? && UniqueTx(p.b.vtx) && p.b.vtx != []
  {
    hide BlockAmounts, TransactionOk, RewardOk, UniqueTx;
  }

  lemma PoolKeepsIndex(index: Index, p: Placed)
    requires IndexOk(p.env, index) && Written(p.env, p.nFile, p.nBlockPos, p.nBlockPos + p.header, p.b.vtx)
    requires PoolOf(index, p).Some?
    ensures var e := index + PoolOf(index, p).value.pool;
      && IndexOk(p.env, e) && index.Keys <= e.Keys
      && (p.b.vtx != [] ==> p.b.vtx[0].hash in e)
  {
    hide IndexOk, Written, Amounts;
    var from := p.nBlockPos + p.header;
    AmountsAreSteps(p.env, index, p.nFile, p.nBlockPos, from, p.b.vtx, p.Writing(), |p.b.vtx|);
    if p.b.vtx != [] {
      StepsKeys(index, p.nFile, p.nBlockPos, from, p.b.vtx, |p.b.vtx|, p.b.vtx[0].hash);
    }
  }

  lemma WrittenSame(disk: Env, p: Placed)
    requires p.env.read == disk.read
    requires Written(disk, p.nFile, p.nBlockPos, p.nBlockPos + p.header, p.b.vtx)
    ensures Written(p.env, p.nFile, p.nBlockPos, p.nBlockPos + p.header, p.b.vtx)
  {
  }

  /** Whether the tip can be disconnected: a block that was merely checked only
      if every output it names is in the index. */
  ghost predicate Detachable(s: State)
    requires s.chain != []
  {
    var p := s.chain[|s.chain| - 1];
    p.how == Checked ==> AllExist(s.index, InputsFrom(p.b.vtx, 0))
  }

  /** Disconnecting the tip goes back to the index before it, or fails and leaves
      everything as it is. */
  lemma DisconnectConsistent(disk: Env, start: Index, supply: int, s: State)
    requires Consistent(disk, start, s) && s.chain != []
    ensures var before := s.chain[..|s.chain| - 1];
      Apply(start, supply, s, Disconnect) == if Detachable(s) then State(Held(start, before), before) else s
    ensures Consistent(disk, start, Apply(start, supply, s, Disconnect))
  {
    hide BlockAmounts, IndexOk, Written, UniqueTx, DisconnectedFrom, AllFree, NewTo, AllExist, InputsFrom;
    var n := |s.chain| - 1;
    var p := s.chain[n];
    var before := Held(start, s.chain[..n]);
    SameDisk(disk, p.env, before);
    WrittenSame(disk, p);
    match p.how
    case Strict => RestoredIffFresh(p.env, before, p.nFile, p.nBlockPos, p.header, p.b.vtx);
    case Tolerant => RestoredIff(p.env, before, p.nFile, p.nBlockPos, p.header, p.b.vtx, TOLERATE);
    case Checked => UndoOfChecked(before, p.b.vtx, 0);
  }

  ghost function Run(start: Index, supply: int, ops: seq<Op>): State {
    if ops == [] then State(start, [])
    else Apply(start, supply, Run(start, supply, ops[..|ops| - 1]), ops[|ops| - 1])
  }

  ghost predicate LegalRun(disk: Env, start: Index, supply: int, ops: seq<Op>) {
    ops == [] ||
    (LegalRun(disk, start, supply, ops[..|ops| - 1]) &&
     Legal(disk, Run(start, supply, ops[..|ops| - 1]), ops[|ops| - 1]))
  }

  /** Whatever was attached and disconnected on the way, the index is what
      attaching the blocks of the present chain alone gives. */
  lemma {:induction false} HistoryForgotten(disk: Env, start: Index, supply: int, ops: seq<Op>)
    requires IndexOk(disk, start) && LegalRun(disk, start, supply, ops)
    ensures Consistent(disk, start, Run(start, supply, ops))
  {
    hide Consistent, Apply, Legal;
    if ops == [] {
      NothingRun(disk, start);
    } else {
      var s := Run(start, supply, ops[..|ops| - 1]);
      HistoryForgotten(disk, start, supply, ops[..|ops| - 1]);
      match ops[|ops| - 1]
      case Connect(p) => ConnectConsistent(disk, start, supply, s, p);
      case Disconnect =>
        if s.chain == [] { NothingToDisconnect(start, supply, s); } else { DisconnectConsistent(disk, start, supply, s); }
    }
  }

  lemma NothingRun(disk: Env, start: Index)
    requires IndexOk(disk, start)
    ensures Consistent(disk, start, State(start, []))
  {
  }

  lemma NothingToDisconnect(start: Index, supply: int, s: State)
    requires s.chain == []
    ensures Apply(start, supply, s, Disconnect) == s
  {
  }

  // ------------------------------------------------------- blocks that were merely checked

  /** No block that was merely checked could have been written at its time. */
  ghost predicate NothingLost(start: Index, chain: seq<Placed>) {
    chain == [] ||
    var n := |chain| - 1;
    NothingLost(start, chain[..n]) && (chain[n].how == Checked ==> PoolOf(Held(start, chain[..n]), chain[n]).None?)
  }

  /** A transaction of a block that was merely checked never gets into the index. */
  lemma {:induction false} NeverHeld(disk: Env, start: Index, chain: seq<Placed>, k: nat)
    requires Grown(disk, start, chain) && k < |chain| && chain[k].how == Checked
    ensures chain[k].b.vtx != [] && chain[k].b.vtx[0].hash !in Held(start, chain)
  {
    hide BlockAmounts, IndexOk, Written, UniqueTx, AllFree, Put;
    var n := |chain| - 1;
    var before, p := Held(start, chain[..n]), chain[n];
    if k < n {
      NeverHeld(disk, start, chain[..n], k);
      var h := chain[k].b.vtx[0].hash;
      if p.how != Checked {
        assert forall j | 0 <= j < |p.b.vtx| :: p.b.vtx[j].hash != h by { assert chain[..n][k] == chain[k]; }
        SameDisk(disk, p.env, before);
        WrittenSame(disk, p);
        PutKeys(before, p, h);
      }
    }
  }

  lemma PutKeys(index: Index, p: Placed, h: Hash)
    requires IndexOk(p.env, index) && Written(p.env, p.nFile, p.nBlockPos, p.nBlockPos + p.header, p.b.vtx)
    ensures h in Put(index, p) ==> h in index || exists j | 0 <= j < |p.b.vtx| :: p.b.vtx[j].hash == h
  {
    hide IndexOk, Written, Amounts;
    if PoolOf(index, p).Some? {
      var from := p.nBlockPos + p.header;
      AmountsAreSteps(p.env, index, p.nFile, p.nBlockPos, from, p.b.vtx, p.Writing(), |p.b.vtx|);
      StepsKeys(index, p.nFile, p.nBlockPos, from, p.b.vtx, |p.b.vtx|, h);
    }
  }

  /** The replay has a transaction that the block's check left out of the index. */
  ghost predicate Lost(start: Index, chain: seq<Placed>, k: nat) {
    k < |chain| && chain[k].how == Checked && chain[k].b.vtx != [] && chain[k].b.vtx[0].hash in Replay(start, chain)
  }

  lemma {:induction false} SameOrLost(disk: Env, start: Index, chain: seq<Placed>)
    requires Grown(disk, start, chain)
    ensures NothingLost(start, chain) ==> Held(start, chain) == Replay(start, chain)
    ensures !NothingLost(start, chain) ==> exists k: nat :: Lost(start, chain, k)
  {
    hide BlockAmounts, IndexOk, Written, UniqueTx, Fresh, AllFree, NewTo;
    if chain != [] {
      var n := |chain| - 1;
      var p := chain[n];
      SameOrLost(disk, start, chain[..n]);
      if !NothingLost(start, chain[..n]) {
        var k: nat :| Lost(start, chain[..n], k);
        assert Lost(start, chain, k);
      } else if p.how == Checked && PoolOf(Held(start, chain[..n]), p).Some? {
        SameDisk(disk, p.env, Held(start, chain[..n]));
        WrittenSame(disk, p);
        PoolKeepsIndex(Held(start, chain[..n]), p);
        assert Lost(start, chain, n);
      }
    }
  }

  /** After any run the index is the replay of the present chain exactly if no
      block of it was merely checked that could have been written at its time. */
  lemma ReplayedIff(disk: Env, start: Index, supply: int, ops: seq<Op>)
    requires IndexOk(disk, start) && LegalRun(disk, start, supply, ops)
    ensures var s := Run(start, supply, ops); s.index == Replay(start, s.chain) <==> NothingLost(start, s.chain)
  {
    hide Run, LegalRun, IndexOk, Grown, Held, Replay, NothingLost;
    HistoryForgotten(disk, start, supply, ops);
    var s := Run(start, supply, ops);
    SameOrLost(disk, start, s.chain);
    if !NothingLost(start, s.chain) {
      var k: nat :| Lost(start, s.chain, k);
      NeverHeld(disk, start, s.chain, k);
    }
  }

  /** Nothing can be read where the check takes the block's transactions to be. */
  ghost predicate Unreadable(p: Placed) {
    CheckPos(p.nFile, p.nBlockPos) != MEMPOOL_POS && p.env.read(CheckPos(p.nFile, p.nBlockPos)) == None
  }

  lemma {:induction false} CheckedIsLost(disk: Env, start: Index, chain: seq<Placed>)
    requires Grown(disk, start, chain) && forall k | 0 <= k < |chain| && chain[k].how == Checked :: Unreadable(chain[k])
    ensures NothingLost(start, chain) <==> forall k | 0 <= k < |chain| :: chain[k].how != Checked
  {
    hide BlockAmounts, IndexOk, Written, UniqueTx, Fresh, AllFree, NewTo, NoInnerSpending;
    if chain != [] {
      var n := |chain| - 1;
      var p := chain[n];
      CheckedIsLost(disk, start, chain[..n]);
      assert (forall k | 0 <= k < |chain| :: chain[k].how != Checked) <==>
             (forall k | 0 <= k < n :: chain[..n][k].how != Checked) && p.how != Checked;
      if p.how == Checked {
        CheckedIff(p.env, Held(start, chain[..n]), p.nFile, p.nBlockPos, p.header, p.b.vtx);
      }
    }
  }

  /** So, where nothing can be read at the checks' positions, the index is the
      replay of the present chain exactly if no block of it was merely checked. */
  lemma ReplayedIffWritten(disk: Env, start: Index, supply: int, ops: seq<Op>)
    requires IndexOk(disk, start) && LegalRun(disk, start, supply, ops)
    requires var chain := Run(start, supply, ops).chain;
      forall k | 0 <= k < |chain| && chain[k].how == Checked :: Unreadable(chain[k])
    ensures var s := Run(start, supply, ops);
      s.index == Replay(start, s.chain) <==> forall k | 0 <= k < |s.chain| :: s.chain[k].how != Checked
  {
    hide Run, LegalRun, IndexOk, Grown, Held, Replay, NothingLost, Unreadable;
    HistoryForgotten(disk, start, supply, ops);
    ReplayedIff(disk, start, supply, ops);
    CheckedIsLost(disk, start, Run(start, supply, ops).chain);
  }

  // --------------------------------------------------------------------------- money

  lemma {:induction false} ChainSupply(disk: Env, start: Index, supply: int, chain: seq<Placed>)
    requires Grown(disk, start, chain)
    ensures SupplyAt(start, supply, chain) - supply ==
            Unspent(disk, Held(start, chain)) - Unspent(disk, start) - GapAt(start, chain) + LagAt(start, chain)
  {
    hide BlockAmounts, IndexOk, Written, UniqueTx, Unspent, Gap, AllFree, InputsFrom, Fresh, NewTo;
    if chain != [] {
      var n := |chain| - 1;
      var p := chain[n];
      var before := Held(start, chain[..n]);
      ChainSupply(disk, start, supply, chain[..n]);
      SameDisk(disk, p.env, before);
      WrittenSame(disk, p);
      match p.how {
        case Strict => SupplyIsUnspentValue(p.env, before, p.nFile, p.nBlockPos, p.header, p.b.vtx);
        case Tolerant => SupplyMissesByGap(p.env, before, p.nFile, p.nBlockPos, p.header, p.b.vtx);
        case Checked =>
      }
      SameUnspent(disk, p.env, before);
      SameUnspent(disk, p.env, Held(start, chain));
    }
  }

  /** Along every run the money supply of the tip moves with the unspent value,
      except for the gaps of the blocks connected with tolerance and for what the
      blocks that were merely checked add. */
  lemma SupplyFollows(disk: Env, start: Index, supply: int, ops: seq<Op>)
    requires IndexOk(disk, start) && LegalRun(disk, start, supply, ops)
    ensures var s := Run(start, supply, ops);
      && SupplyAt(start, supply, s.chain) - supply ==
         Unspent(disk, s.index) - Unspent(disk, start) - GapAt(start, s.chain) + LagAt(start, s.chain)
      && ((forall k | 0 <= k < |s.chain| :: s.chain[k].how != Tolerant) ==> GapAt(start, s.chain) == 0)
      && ((forall k | 0 <= k < |s.chain| :: s.chain[k].how != Checked) ==> LagAt(start, s.chain) == 0)
  {
    hide Run, Unspent, IndexOk;
    HistoryForgotten(disk, start, supply, ops);
    ChainSupply(disk, start, supply, Run(start, supply, ops).chain);
    NoGap(start, Run(start, supply, ops).chain);
  }

  lemma {:induction false} NoGap(start: Index, chain: seq<Placed>)
    ensures (forall k | 0 <= k < |chain| :: chain[k].how != Tolerant) ==> GapAt(start, chain) == 0
    ensures (forall k | 0 <= k < |chain| :: chain[k].how != Checked) ==> LagAt(start, chain) == 0
  {
    hide Held;
    if chain != [] { NoGap(start, chain[..|chain| - 1]); }
  }
}
