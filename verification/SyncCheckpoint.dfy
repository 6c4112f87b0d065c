// Synchronised checkpoints: checkpoints.cpp.
module SyncCheckpoint {
  import opened HashType
  import opened Options
  import opened ChainTree

  /** hashPendingCheckpoint is 0 while nothing is pending. */
  datatype State = State(index: BlockMap, hashSync: Hash, hashPending: Hash, hashInvalid: Hash)

  predicate Valid(s: State) { Tree(s.index) && s.hashSync in s.index }

  /** Signature check, and what the chain and the database answer. */
  datatype Oracle = Oracle(signed: bool, inMainChain: bool, readsBack: bool, setsBestChain: bool, writes: bool)

  /** The checkpoint is a strictly higher descendant of the present one. */
  predicate Advances(s: State, hash: Hash)
    requires Valid(s)
  {
    hash in s.index && s.index[hash].nHeight > s.index[s.hashSync].nHeight && IsAncestor(s.index, s.hashSync, hash)
  }

  /** Neither block is an ancestor of the other. */
  predicate Conflicts(s: State, hash: Hash)
    requires Valid(s)
  {
    hash in s.index && !IsAncestor(s.index, s.hashSync, hash) && !IsAncestor(s.index, hash, s.hashSync)
  }

  function Validated(s: State, hash: Hash): State
    requires Valid(s)
  {
    if Conflicts(s, hash) then s.(hashInvalid := hash) else s
  }

  /** The checkpoint is taken over, or the reason why not is recorded. */
  function Moved(s: State, hash: Hash, o: Oracle): (bool, State)
    requires Valid(s)
  {
    if !o.inMainChain && !o.readsBack then (false, s)
    else if !o.inMainChain && !o.setsBestChain then (false, s.(hashInvalid := hash))
    else if !o.writes then (false, s)
    else (true, s.(hashSync := hash, hashPending := 0))
  }

  function Processed(s: State, hash: Hash, o: Oracle): (bool, State)
    requires Valid(s)
  {
    if !o.signed then (false, s)
    else if hash !in s.index then (false, s.(hashPending := hash))
    else if !Advances(s, hash) then (false, Validated(s, hash))
    else Moved(s, hash, o)
  }

  function PendingAccepted(s: State, o: Oracle): (bool, State)
    requires Valid(s)
  {
    if s.hashPending == 0 || s.hashPending !in s.index then (false, s)
    else if !Advances(s, s.hashPending) then (false, Validated(s, s.hashPending).(hashPending := 0))
    else Moved(s, s.hashPending, o)
  }

  /** Whether a block with this hash may follow the block hashPrev. */
  predicate PassesSync(s: State, hash: Hash, hashPrev: Hash)
    requires Valid(s) && hashPrev in s.index
  {
    var nHeight := s.index[hashPrev].nHeight + 1;
    var nSync := s.index[s.hashSync].nHeight;
    if nHeight > nSync then IsAncestor(s.index, s.hashSync, hashPrev)
    else if nHeight == nSync then hash == s.hashSync
    else hash in s.index
  }

  class SyncCheckpoints {
    var mapBlockIndex: BlockMap
    var hashSyncCheckpoint: Hash
    var hashPendingCheckpoint: Hash
    var hashInvalidCheckpoint: Hash

    function S(): State
      reads this
    {
      State(mapBlockIndex, hashSyncCheckpoint, hashPendingCheckpoint, hashInvalidCheckpoint)
    }

    constructor (index: BlockMap, hash: Hash)
      requires Tree(index) && hash in index
      ensures S() == State(index, hash, 0, 0) && Valid(S())
    {
      mapBlockIndex, hashSyncCheckpoint, hashPendingCheckpoint, hashInvalidCheckpoint := index, hash, 0, 0;
    }

    /** The walk back to a height, with its error exit for a missing predecessor. */
    method TraceBack(h: Hash, nHeight: int) returns (pindex: Hash)
      requires Tree(mapBlockIndex) && h in mapBlockIndex && 0 <= nHeight <= mapBlockIndex[h].nHeight
      ensures pindex == Chain(mapBlockIndex, h)[nHeight]
    {
      hide Tree, Chain;
      pindex := h;
      HeightNotNegative(mapBlockIndex, h);
      assert Chain(mapBlockIndex, h)[|Chain(mapBlockIndex, h)| - 1] == h;
      while mapBlockIndex[pindex].nHeight > nHeight
        invariant pindex in mapBlockIndex && nHeight <= mapBlockIndex[pindex].nHeight
        invariant mapBlockIndex[pindex].nHeight <= mapBlockIndex[h].nHeight
        invariant Chain(mapBlockIndex, h)[mapBlockIndex[pindex].nHeight] == pindex
        decreases mapBlockIndex[pindex].nHeight
      {
        Parent(mapBlockIndex, pindex);
        ChainPrefix(mapBlockIndex, h, mapBlockIndex[pindex].nHeight);
        if mapBlockIndex[pindex].pprev.None? { assert false; }
        pindex := mapBlockIndex[pindex].pprev.value;
      }
    }

    method ValidateSyncCheckpoint(hashCheckpoint: Hash) returns (ok: bool)
      requires Valid(S())
      modifies this`hashInvalidCheckpoint
      ensures ok <==> Advances(old(S()), hashCheckpoint)
      ensures S() == Validated(old(S()), hashCheckpoint)
    {
      hide Tree, Chain;
      if hashCheckpoint !in mapBlockIndex { return false; }
      var m := mapBlockIndex;
      HeightNotNegative(m, hashCheckpoint);
      HeightNotNegative(m, hashSyncCheckpoint);
      AncestorAt(m, hashCheckpoint, hashSyncCheckpoint);
      AncestorAt(m, hashSyncCheckpoint, hashCheckpoint);
      if m[hashCheckpoint].nHeight <= m[hashSyncCheckpoint].nHeight {
        var pindex := TraceBack(hashSyncCheckpoint, m[hashCheckpoint].nHeight);
        SameHeight(m, hashCheckpoint, hashSyncCheckpoint);
        if pindex != hashCheckpoint {
          hashInvalidCheckpoint := hashCheckpoint;
        }
        return false;
      }
      var pindex := TraceBack(hashCheckpoint, m[hashSyncCheckpoint].nHeight);
      if pindex != hashSyncCheckpoint {
        hashInvalidCheckpoint := hashCheckpoint;
        return false;
      }
      ok := true;
    }

    /** The part that processing a message and accepting a pending checkpoint share. */
    method MoveTo(hash: Hash, o: Oracle) returns (ok: bool)
      requires Valid(S()) && hash in mapBlockIndex
      modifies this`hashSyncCheckpoint, this`hashPendingCheckpoint, this`hashInvalidCheckpoint
      ensures (ok, S()) == Moved(old(S()), hash, o)
    {
      if !o.inMainChain {
        if !o.readsBack { return false; }
        if !o.setsBestChain {
          hashInvalidCheckpoint := hash;
          return false;
        }
      }
      if !o.writes { return false; }
      hashSyncCheckpoint := hash;
      hashPendingCheckpoint := 0;
      ok := true;
    }

    method ProcessSyncCheckpoint(hashCheckpoint: Hash, o: Oracle) returns (ok: bool)
      requires Valid(S())
      modifies this
      ensures (ok, S()) == Processed(old(S()), hashCheckpoint, o) && Valid(S())
    {
      hide Tree, Advances, Conflicts;
      if !o.signed { return false; }
      if hashCheckpoint !in mapBlockIndex {
        hashPendingCheckpoint := hashCheckpoint;
        return false;
      }
      var advances := ValidateSyncCheckpoint(hashCheckpoint);
      if !advances { return false; }
      AdvanceIsKnown(old(S()), hashCheckpoint);
      ok := MoveTo(hashCheckpoint, o);
    }

    method AcceptPendingSyncCheckpoint(o: Oracle) returns (ok: bool)
      requires Valid(S())
      modifies this
      ensures (ok, S()) == PendingAccepted(old(S()), o) && Valid(S())
    {
      hide Tree, Advances, Conflicts;
      if hashPendingCheckpoint == 0 || hashPendingCheckpoint !in mapBlockIndex { return false; }
      var advances := ValidateSyncCheckpoint(hashPendingCheckpoint);
      if !advances {
        hashPendingCheckpoint := 0;
        return false;
      }
      AdvanceIsKnown(old(S()), hashPendingCheckpoint);
      ok := MoveTo(hashPendingCheckpoint, o);
    }

    method CheckSync(hashBlock: Hash, pindexPrev: Hash) returns (ok: bool)
      requires Valid(S()) && pindexPrev in mapBlockIndex
      ensures ok <==> PassesSync(S(), hashBlock, pindexPrev)
    {
      hide Tree, Chain;
      var nHeight := mapBlockIndex[pindexPrev].nHeight + 1;
      var nSync := mapBlockIndex[hashSyncCheckpoint].nHeight;
      HeightNotNegative(mapBlockIndex, hashSyncCheckpoint);
      HeightNotNegative(mapBlockIndex, pindexPrev);
      if nHeight > nSync {
        AncestorAt(mapBlockIndex, hashSyncCheckpoint, pindexPrev);
        var pindex := TraceBack(pindexPrev, nSync);
        if pindex != hashSyncCheckpoint { return false; }
      }
      if nHeight == nSync && hashBlock != hashSyncCheckpoint { return false; }
      if nHeight < nSync && hashBlock !in mapBlockIndex { return false; }
      ok := true;
    }
  }

  lemma AdvanceIsKnown(s: State, hash: Hash)
    requires Valid(s) && Advances(s, hash)
    ensures hash in s.index && !Conflicts(s, hash)
  {
  }

  /** A block is an ancestor of another exactly if it is at its height in the other's chain. */
  lemma AncestorAt(m: BlockMap, a: Hash, h: Hash)
    requires Tree(m) && a in m && h in m
    ensures IsAncestor(m, a, h) <==> 0 <= m[a].nHeight <= m[h].nHeight && Chain(m, h)[m[a].nHeight] == a
  {
    hide Tree, Chain;
    if IsAncestor(m, a, h) { AncestorHeight(m, a, h); }
  }

  lemma SameHeight(m: BlockMap, a: Hash, h: Hash)
    requires Tree(m) && a in m && h in m && m[a].nHeight <= m[h].nHeight
    ensures IsAncestor(m, h, a) ==> IsAncestor(m, a, h)
  {
    hide Tree, Chain;
    if IsAncestor(m, h, a) { AncestorHeight(m, h, a); }
    HeightNotNegative(m, a);
    assert Chain(m, a)[|Chain(m, a)| - 1] == a;
  }

  /** The checkpoint moves to the message's exactly if the message is signed, names
      a strictly higher descendant, that block can be made part of the best chain,
      and it is written; otherwise it stays.  A message about an unknown block is
      kept, one about a block on another branch is recorded as invalid, like one
      whose block cannot be made part of the best chain. */
  lemma ProcessedIs(s: State, hash: Hash, o: Oracle)
    requires Valid(s)
    ensures var (ok, t) := Processed(s, hash, o);
      var advances := hash in s.index && s.index[hash].nHeight > s.index[s.hashSync].nHeight
                      && s.hashSync in Chain(s.index, hash);
      var reachable := o.inMainChain || (o.readsBack && o.setsBestChain);
      && t.index == s.index
      && (ok <==> o.signed && advances && reachable && o.writes)
      && t.hashSync == (if ok then hash else s.hashSync)
      && t.hashPending == (if ok then 0 else if o.signed && hash !in s.index then hash else s.hashPending)
      && t.hashInvalid ==
         (if o.signed && hash in s.index &&
             (if advances then !o.inMainChain && o.readsBack && !o.setsBestChain
              else s.hashSync !in Chain(s.index, hash) && hash !in Chain(s.index, s.hashSync))
          then hash else s.hashInvalid)
  {
    hide Tree, Chain;
  }

  /** The pending checkpoint is treated the same, and is dropped once it is known not to be an advance. */
  lemma PendingIs(s: State, o: Oracle)
    requires Valid(s)
    ensures var (ok, t) := PendingAccepted(s, o); var hash := s.hashPending;
      var there := hash != 0 && hash in s.index;
      var advances := there && s.index[hash].nHeight > s.index[s.hashSync].nHeight && s.hashSync in Chain(s.index, hash);
      var reachable := o.inMainChain || (o.readsBack && o.setsBestChain);
      && t.index == s.index
      && (ok <==> advances && reachable && o.writes)
      && t.hashSync == (if ok then hash else s.hashSync)
      && t.hashPending == (if ok || (there && !advances) then 0 else hash)
      && t.hashInvalid ==
         (if there && (if advances then !o.inMainChain && o.readsBack && !o.setsBestChain
                       else s.hashSync !in Chain(s.index, hash) && hash !in Chain(s.index, s.hashSync))
          then hash else s.hashInvalid)
  {
    hide Tree, Chain;
  }

  /** A new block passes exactly on top of the checkpoint or one of its descendants;
      a known one exactly if it descends from the checkpoint or is lower. */
  lemma PassesIff(s: State, hash: Hash, hashPrev: Hash)
    requires Valid(s) && hashPrev in s.index
    ensures hash !in s.index ==> (PassesSync(s, hash, hashPrev) <==> IsAncestor(s.index, s.hashSync, hashPrev))
    ensures hash in s.index && s.index[hash].pprev == Some(hashPrev) ==>
      (PassesSync(s, hash, hashPrev) <==>
       IsAncestor(s.index, s.hashSync, hash) || s.index[hash].nHeight < s.index[s.hashSync].nHeight)
  {
    hide Tree, Chain;
    var m := s.index;
    HeightNotNegative(m, s.hashSync);
    HeightNotNegative(m, hashPrev);
    AncestorAt(m, s.hashSync, hashPrev);
    if hash in m && m[hash].pprev == Some(hashPrev) {
      Parent(m, hash);
      AncestorAt(m, s.hashSync, hash);
      AncestorAt(m, hash, hash);
      SelfAncestor(m, hash);
    }
  }

  // ------------------------------------------------------------------------- runs

  /** Blocks arrive, checkpoint messages are processed, and the pending one is tried. */
  datatype Op =
    | Arrive(hash: Hash, hashPrev: Hash, bnTarget: int)
    | Process(hashCheckpoint: Hash, o: Oracle)
    | Accept(o: Oracle)

  function Apply(s: State, op: Op): State
    requires Valid(s)
  {
    match op
    case Arrive(hash, hashPrev, bnTarget) =>
      if hash in s.index || hashPrev !in s.index then s
      else s.(index := s.index[hash := Child(s.index, hashPrev, bnTarget)])
    case Process(hash, o) => Processed(s, hash, o).1
    case Accept(o) => PendingAccepted(s, o).1
  }

  /** Blocks are never lost, and the checkpoint stays or moves to a strictly higher descendant. */
  predicate Advanced(s: State, t: State) {
    && Valid(s) && Valid(t) && SameTree(s.index, t.index) && s.hashSync in t.index
    && IsAncestor(t.index, s.hashSync, t.hashSync)
    && (t.hashSync != s.hashSync ==> t.index[t.hashSync].nHeight > t.index[s.hashSync].nHeight)
  }

  lemma AncestorTransitive(m: BlockMap, a: Hash, b: Hash, c: Hash)
    requires Tree(m) && a in m && b in m && c in m && IsAncestor(m, a, b) && IsAncestor(m, b, c)
    ensures IsAncestor(m, a, c)
  {
    hide Tree, Chain;
    AncestorHeight(m, a, b);
    AncestorHeight(m, b, c);
    assert Chain(m, c)[m[a].nHeight] == a;
  }

  lemma ApplyAdvances(s: State, op: Op)
    requires Valid(s)
    ensures Advanced(s, Apply(s, op))
  {
    hide Tree, Chain, Child;
    SelfAncestor(s.index, s.hashSync);
    if op.Arrive? && op.hash !in s.index && op.hashPrev in s.index {
      AddKeepsTree(s.index, op.hash, op.hashPrev, op.bnTarget);
      SelfAncestor(Apply(s, op).index, s.hashSync);
    }
  }

  lemma AdvancedTwice(s: State, t: State, u: State)
    requires Advanced(s, t) && Advanced(t, u)
    ensures Advanced(s, u)
  {
    hide Tree, Chain;
    SameChain(t.index, u.index, t.hashSync);
    assert t.index[t.hashSync].(pnext := None) == u.index[t.hashSync].(pnext := None);
    assert t.index[s.hashSync].(pnext := None) == u.index[s.hashSync].(pnext := None);
    AncestorTransitive(u.index, s.hashSync, t.hashSync, u.hashSync);
  }

  function Run(s: State, ops: seq<Op>): (t: State)
    requires Valid(s)
    ensures Valid(t)
    decreases |ops|
  {
    if ops == [] then s else
      var t := Run(s, ops[..|ops| - 1]);
      ApplyAdvances(t, ops[|ops| - 1]);
      Apply(t, ops[|ops| - 1])
  }

  /** The checkpoint held at any time of a run is an ancestor of every later one,
      and strictly lower than it if they differ. */
  lemma {:induction false} CheckpointsAdvance(s: State, ops: seq<Op>, i: nat)
    requires Valid(s) && i <= |ops|
    ensures Advanced(Run(s, ops[..i]), Run(s, ops))
    decreases |ops|
  {
    hide Apply, Advanced, Valid;
    if i == |ops| {
      assert ops[..i] == ops;
      AdvancedItself(Run(s, ops));
    } else {
      var k := |ops| - 1;
      assert ops[..k][..i] == ops[..i];
      CheckpointsAdvance(s, ops[..k], i);
      ApplyAdvances(Run(s, ops[..k]), ops[k]);
      AdvancedTwice(Run(s, ops[..i]), Run(s, ops[..k]), Run(s, ops));
    }
  }

  lemma AdvancedItself(s: State)
    requires Valid(s)
    ensures Advanced(s, s)
  {
    SelfAncestor(s.index, s.hashSync);
  }

  /** A block above the checkpoint that passes descends from every checkpoint held so far. */
  lemma PassingDescendsFromAll(s: State, ops: seq<Op>, i: nat, hash: Hash, hashPrev: Hash)
    requires Valid(s) && i <= |ops| && hashPrev in Run(s, ops).index
    requires var t := Run(s, ops); t.index[hashPrev].nHeight + 1 > t.index[t.hashSync].nHeight
    requires PassesSync(Run(s, ops), hash, hashPrev)
    ensures var t := Run(s, ops); var c := Run(s, ops[..i]).hashSync;
      c in t.index && IsAncestor(t.index, c, hashPrev)
  {
    hide Run, Tree, Chain;
    CheckpointsAdvance(s, ops, i);
    var t := Run(s, ops);
    AncestorTransitive(t.index, Run(s, ops[..i]).hashSync, t.hashSync, hashPrev);
  }
}
