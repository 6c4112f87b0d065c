// Choosing the best chain: main.cpp's Reorganize, SetBestChain and AddToBlockIndex.
module BestChain {
  import opened HashType
  import opened Options
  import opened Sequences
  import opened ChainTree

  /** What the block files, the database and the block checks answer during one call. */
  datatype Oracle = Oracle(
    modifierOk: bool,            // the stake entropy bit and the stake modifier
    stored: bool,                // the new entry's own transaction
    begins: bool,                // SetBestChain's transaction
    disconnects: Hash -> bool,   // read and disconnected in Reorganize
    connects: Hash -> bool,      // read and connected in Reorganize
    commits: bool,               // best-chain hash written, Reorganize's transaction committed
    readsBack: Hash -> bool,         // a postponed block read back
    beginsAgain: Hash -> bool,   // its transaction begun
    attaches: Hash -> bool,      // SetBestChainInner: connected, best-chain hash written
    commitsInner: Hash -> bool)  // SetBestChainInner: committed

  datatype State = State(genesis: Hash, index: BlockMap, best: Hash, hashBest: Hash, nBestHeight: int,
                         nBestTrust: nat, nInvalidTrust: nat)

  /** The invariant of every run. */
  predicate Valid(s: State) {
    && Tree(s.index) && s.best in s.index && s.hashBest in s.index
    && (forall h | h in s.index :: s.index[h].pprev.None? ==> h == s.genesis)
    && s.nBestTrust == s.index[s.best].nChainTrust && s.nBestHeight == s.index[s.best].nHeight
    && IsAncestor(s.index, s.best, s.hashBest)
  }

  // ------------------------------------------------------------------ reorganising

  /** The blocks from just above f up to h. */
  function Above(m: BlockMap, h: Hash, f: Hash): seq<Hash>
    requires Tree(m) && h in m && f in m && 0 <= m[f].nHeight <= m[h].nHeight
  {
    Chain(m, h)[m[f].nHeight + 1..]
  }

  function SetParentNext(m: BlockMap, h: Hash, pnext: Option<Hash>): BlockMap {
    if h in m && m[h].pprev.Some? then SetNext(m, m[h].pprev.value, pnext) else m
  }

  function Unlink(m: BlockMap, hs: seq<Hash>): BlockMap {
    if hs == [] then m else SetParentNext(Unlink(m, hs[..|hs| - 1]), hs[|hs| - 1], None)
  }

  function Link(m: BlockMap, hs: seq<Hash>): BlockMap {
    if hs == [] then m else SetParentNext(Link(m, hs[..|hs| - 1]), hs[|hs| - 1], Some(hs[|hs| - 1]))
  }

  lemma ForkBelow(m: BlockMap, a: Hash, b: Hash)
    requires Tree(m) && a in m && b in m && Fork(m, a, b).Some?
    ensures var f := Fork(m, a, b).value; 0 <= m[f].nHeight <= m[a].nHeight && m[f].nHeight <= m[b].nHeight
    ensures var f := Fork(m, a, b).value; IsAncestor(m, f, a) && IsAncestor(m, f, b)
    ensures var f := Fork(m, a, b).value; Chain(m, a)[m[f].nHeight] == f == Chain(m, b)[m[f].nHeight]
  {
    hide Tree, Chain;
    var f := Fork(m, a, b).value;
    HeightNotNegative(m, f);
    assert f in Chain(m, f) by { assert Chain(m, f)[|Chain(m, f)| - 1] == f; }
    ForkIsHighest(m, a, b, f);
    AncestorHeight(m, f, a);
    AncestorHeight(m, f, b);
  }

  predicate All(p: Hash -> bool, hs: seq<Hash>) { forall h | h in hs :: p(h) }

  /** The relinked index, if the fork is found and all blocks can be moved. */
  function Reorganized(m: BlockMap, best: Hash, pindexNew: Hash, o: Oracle): Option<BlockMap>
    requires Tree(m) && best in m && pindexNew in m
  {
    match Fork(m, best, pindexNew)
    case None => None
    case Some(f) =>
      ForkBelow(m, best, pindexNew);
      var down, up := Reverse(Above(m, best, f)), Above(m, pindexNew, f);
      if All(o.disconnects, down) && All(o.connects, up) && o.commits then Some(Link(Unlink(m, down), up)) else None
  }

  // ---------------------------------------------------------------- the best chain

  /** The blocks whose connection is put off, highest first, and the block below them. */
  function Postponed(m: BlockMap, nBestTrust: nat, h: Hash): (seq<Hash>, Hash)
    requires Tree(m) && h in m
    decreases m[h].nHeight
  {
    Parent(m, h);
    match m[h].pprev
    case Some(p) =>
      if m[p].nChainTrust > nBestTrust then
        HeightNotNegative(m, p);
        var (hs, low) := Postponed(m, nBestTrust, p);
        ([h] + hs, low)
      else ([], h)
    case None => ([], h)
  }

  function Worse(m: BlockMap, nInvalidTrust: nat, h: Hash): nat {
    if h in m && m[h].nChainTrust > nInvalidTrust then m[h].nChainTrust else nInvalidTrust
  }

  datatype Attachment = Attachment(index: BlockMap, best: Hash, nInvalidTrust: nat)

  /** Connects the postponed blocks, lowest first, as far as that works. */
  function Attach(a: Attachment, o: Oracle, todo: seq<Hash>): Attachment
    decreases |todo|
  {
    if todo == [] || !o.readsBack(todo[0]) || !o.beginsAgain(todo[0]) then a
    else
      var h := todo[0];
      var below := if h in a.index && a.index[h].pprev.Some? then a.index[h].pprev.value else h;
      if !o.attaches(h) then Attachment(a.index, below, Worse(a.index, a.nInvalidTrust, h))
      else if !o.commitsInner(h) then a.(best := below)
      else Attach(a.(index := SetParentNext(a.index, h, Some(h))), o, todo[1..])
  }

  function Finish(s: State, index: BlockMap, best: Hash, hash: Hash): State
    requires best in index
  {
    s.(index := SetNext(index, best, None), best := best, hashBest := hash,
       nBestHeight := index[best].nHeight, nBestTrust := index[best].nChainTrust)
  }

  /** SetBestChain for the block pindexNew on top of hashPrev. */
  function SetBest(s: State, o: Oracle, pindexNew: Hash, hashPrev: Hash): (bool, State)
    requires Tree(s.index) && s.best in s.index && pindexNew in s.index
  {
    if !o.begins then (false, s)
    else if hashPrev == s.hashBest then
      if !o.attaches(pindexNew) then (false, s.(nInvalidTrust := Worse(s.index, s.nInvalidTrust, pindexNew)))
      else if !o.commitsInner(pindexNew) then (false, s)
      else (true, Finish(s, SetParentNext(s.index, pindexNew, Some(pindexNew)), pindexNew, pindexNew))
    else
      var (secondary, low) := Postponed(s.index, s.index[s.best].nChainTrust, pindexNew);
      PostponedIsAbove(s.index, s.index[s.best].nChainTrust, pindexNew);
      match Reorganized(s.index, s.best, low, o)
      case None => (false, s.(nInvalidTrust := Worse(s.index, s.nInvalidTrust, pindexNew)))
      case Some(m) =>
        var a := Attach(Attachment(m, pindexNew, s.nInvalidTrust), o, Reverse(secondary));
        if a.best in a.index then (true, Finish(s.(nInvalidTrust := a.nInvalidTrust), a.index, a.best, pindexNew))
        else (false, s)
  }

  /** The postponed blocks are the top of the new chain. */
  lemma {:induction false} PostponedIsAbove(m: BlockMap, nBestTrust: nat, h: Hash)
    requires Tree(m) && h in m
    ensures var (hs, low) := Postponed(m, nBestTrust, h);
      && low in m && Chain(m, h) == Chain(m, low) + Reverse(hs)
      && (forall g | g in hs ::
            g in m && m[g].pprev.Some? && m[g].pprev.value in m && m[m[g].pprev.value].nChainTrust > nBestTrust)
      && (hs == [] ==> low == h)
      && (hs != [] ==> hs[0] == h && m[low].nChainTrust > nBestTrust)
      && (m[low].pprev.Some? ==> m[m[low].pprev.value].nChainTrust <= nBestTrust)
    decreases m[h].nHeight
  {
    Parent(m, h);
    match m[h].pprev
    case None =>
    case Some(p) =>
      if m[p].nChainTrust > nBestTrust {
        HeightNotNegative(m, p);
        PostponedIsAbove(m, nBestTrust, p);
        var (hs, low) := Postponed(m, nBestTrust, p);
        assert ([h] + hs)[1..] == hs;
        assert Chain(m, h) == Chain(m, low) + (Reverse(hs) + [h]);
      }
  }

  /** AddToBlockIndex for a block with the given hash, predecessor and target. */
  function AddBlock(s: State, o: Oracle, hash: Hash, hashPrev: Hash, bnTarget: int): (bool, State)
    requires Tree(s.index) && s.best in s.index && hashPrev in s.index
  {
    if hash in s.index || !o.modifierOk then (false, s)
    else
      AddKeepsTree(s.index, hash, hashPrev, bnTarget);
      var t := s.(index := s.index[hash := Child(s.index, hashPrev, bnTarget)]);
      if !o.stored then (false, t)
      else if t.index[hash].nChainTrust > s.nBestTrust then SetBest(t, o, hash, hashPrev)
      else (true, t)
  }
}
