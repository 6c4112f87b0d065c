// The global chain state of main.cpp and the operations that update it.
module ChainState {
  import opened HashType
  import opened Options
  import opened Sequences
  import opened ChainTree
  import opened BestChain
  import opened Relinking
  import opened ChainRuns

  class ChainState {
    const hashGenesisBlock: Hash
    var mapBlockIndex: BlockMap
    var pindexBest: Hash
    var hashBestChain: Hash
    var nBestHeight: int
    var nBestChainTrust: nat
    var nBestInvalidTrust: nat

    function S(): State
      reads this
    {
      State(hashGenesisBlock, mapBlockIndex, pindexBest, hashBestChain, nBestHeight, nBestChainTrust, nBestInvalidTrust)
    }

    constructor (genesis: Hash, bnTarget: int)
      ensures S() == Start(genesis, bnTarget) && Valid(S())
    {
      hashGenesisBlock := genesis;
      mapBlockIndex := map[genesis := Root(bnTarget)];
      pindexBest, hashBestChain, nBestHeight := genesis, genesis, 0;
      nBestChainTrust, nBestInvalidTrust := GetBlockTrust(bnTarget), 0;
      new;
      StartIsValid(genesis, bnTarget);
    }

    /** It reads the predecessors of both blocks for its log, so both must exist. */
    method InvalidChainFound(pindexNew: Hash)
      requires Valid(S()) && pindexNew in mapBlockIndex && mapBlockIndex[pindexNew].pprev.Some?
      modifies this`nBestInvalidTrust
      ensures S() == old(S()).(nInvalidTrust := Worse(old(mapBlockIndex), old(nBestInvalidTrust), pindexNew))
    {
      hide Chain;
      if mapBlockIndex[pindexNew].nChainTrust > nBestInvalidTrust {
        nBestInvalidTrust := mapBlockIndex[pindexNew].nChainTrust;
      }
      Parent(mapBlockIndex, pindexNew);
      Parent(mapBlockIndex, pindexBest);
      var nBestInvalidBlockTrust :=
        mapBlockIndex[pindexNew].nChainTrust - mapBlockIndex[mapBlockIndex[pindexNew].pprev.value].nChainTrust;
      var nBestBlockTrust := if mapBlockIndex[pindexBest].nHeight != 0
        then mapBlockIndex[pindexBest].nChainTrust - mapBlockIndex[mapBlockIndex[pindexBest].pprev.value].nChainTrust
        else mapBlockIndex[pindexBest].nChainTrust;
    }

    /** The blocks from a tip down to the fork, in walking order. */
    method Collect(tip: Hash, pfork: Hash) returns (hs: seq<Hash>)
      requires Tree(mapBlockIndex) && tip in mapBlockIndex && pfork in mapBlockIndex
      requires IsAncestor(mapBlockIndex, pfork, tip)
      ensures 0 <= mapBlockIndex[pfork].nHeight <= mapBlockIndex[tip].nHeight
      ensures hs == Reverse(Above(mapBlockIndex, tip, pfork))
    {
      hide Tree, Chain;
      ghost var m := mapBlockIndex;
      AncestorHeight(m, pfork, tip);
      var pindex := tip;
      hs := [];
      while pindex != pfork
        invariant pindex in m && 0 <= m[pfork].nHeight <= m[pindex].nHeight && IsAncestor(m, pfork, pindex)
        invariant Above(m, tip, pfork) == Above(m, pindex, pfork) + Reverse(hs)
        decreases mapBlockIndex[pindex].nHeight
      {
        CollectStep(m, pindex, pfork);
        ReverseConcat(hs, [pindex]);
        ReverseOne(pindex);
        hs := hs + [pindex];
        pindex := mapBlockIndex[pindex].pprev.value;
      }
      assert Above(m, pfork, pfork) == [];
      ReverseTwice(hs);
    }

    /** Both branches are moved, then the links are redone in memory. */
    method Reorganize(o: Oracle, pindexNew: Hash) returns (ok: bool)
      requires Valid(S()) && pindexNew in mapBlockIndex
      modifies this`mapBlockIndex
      ensures var r := Reorganized(old(mapBlockIndex), pindexBest, pindexNew, o);
        (ok <==> r.Some?) && mapBlockIndex == if ok then r.value else old(mapBlockIndex)
    {
      hide Tree, Chain, Unlink, Link, Above, Fork, All, IsAncestor;
      ghost var m := mapBlockIndex;
      var fork := FindFork(mapBlockIndex, pindexBest, pindexNew);
      OneRootHasForks(S(), pindexNew);
      ForkBelow(m, pindexBest, pindexNew);
      var pfork := fork.value;
      var vDisconnect := Collect(pindexBest, pfork);
      var vConnect := Collect(pindexNew, pfork);
      ReverseTwice(Above(m, pindexNew, pfork));
      vConnect := Reverse(vConnect);
      var moved := Check(o.disconnects, vDisconnect);
      if !moved { return false; }
      moved := Check(o.connects, vConnect);
      if !moved || !o.commits { return false; }
      UnlinkAll(vDisconnect);
      LinkAll(vConnect);
      ok := true;
    }

    static method Check(p: Hash -> bool, hs: seq<Hash>) returns (ok: bool)
      ensures ok == All(p, hs)
    {
      for i := 0 to |hs|
        invariant forall k | 0 <= k < i :: p(hs[k])
      {
        if !p(hs[i]) {
          NotAll(p, hs, i);
          return false;
        }
      }
      ok := true;
    }

    method UnlinkAll(hs: seq<Hash>)
      modifies this`mapBlockIndex
      ensures mapBlockIndex == Unlink(old(mapBlockIndex), hs)
    {
      for i := 0 to |hs|
        invariant mapBlockIndex == Unlink(old(mapBlockIndex), hs[..i])
      {
        assert hs[..i + 1][..i] == hs[..i];
        SetNextOfParent(hs[i], None);
      }
      assert hs[..|hs|] == hs;
    }

    method LinkAll(hs: seq<Hash>)
      modifies this`mapBlockIndex
      ensures mapBlockIndex == Link(old(mapBlockIndex), hs)
    {
      for i := 0 to |hs|
        invariant mapBlockIndex == Link(old(mapBlockIndex), hs[..i])
      {
        assert hs[..i + 1][..i] == hs[..i];
        SetNextOfParent(hs[i], Some(hs[i]));
      }
      assert hs[..|hs|] == hs;
    }

    method SetNextOfParent(h: Hash, pnext: Option<Hash>)
      modifies this`mapBlockIndex
      ensures mapBlockIndex == SetParentNext(old(mapBlockIndex), h, pnext)
    {
      if h in mapBlockIndex && mapBlockIndex[h].pprev.Some? && mapBlockIndex[h].pprev.value in mapBlockIndex {
        var pprev := mapBlockIndex[h].pprev.value;
        mapBlockIndex := mapBlockIndex[pprev := mapBlockIndex[pprev].(pnext := pnext)];
      }
    }

    /** Connects one block on top of the chain being built. */
    method SetBestChainInner(o: Oracle, pindexNew: Hash) returns (ok: bool)
      requires Valid(S()) && pindexNew in mapBlockIndex && mapBlockIndex[pindexNew].pprev.Some?
      modifies this`mapBlockIndex, this`nBestInvalidTrust
      ensures ok <==> o.attaches(pindexNew) && o.commitsInner(pindexNew)
      ensures mapBlockIndex ==
              if ok then SetParentNext(old(mapBlockIndex), pindexNew, Some(pindexNew)) else old(mapBlockIndex)
      ensures nBestInvalidTrust == if o.attaches(pindexNew) then old(nBestInvalidTrust)
                                   else Worse(old(mapBlockIndex), old(nBestInvalidTrust), pindexNew)
    {
      hide Tree, Chain, SetParentNext;
      if !o.attaches(pindexNew) {
        InvalidChainFound(pindexNew);
        return false;
      }
      if !o.commitsInner(pindexNew) { return false; }
      SetNextOfParent(pindexNew, Some(pindexNew));
      ok := true;
    }

    /** The loop that puts off what need not be done in one transaction. */
    method Postpone(pindexNew: Hash) returns (vpindexSecondary: seq<Hash>, pindexIntermediate: Hash)
      requires Valid(S()) && pindexNew in mapBlockIndex
      ensures (vpindexSecondary, pindexIntermediate) == Postponed(mapBlockIndex, nBestChainTrust, pindexNew)
    {
      hide Chain, Tree;
      vpindexSecondary, pindexIntermediate := [], pindexNew;
      HeightNotNegative(mapBlockIndex, pindexIntermediate);
      Parent(mapBlockIndex, pindexIntermediate);
      assert [] + Postponed(mapBlockIndex, nBestChainTrust, pindexNew).0 ==
             Postponed(mapBlockIndex, nBestChainTrust, pindexNew).0;
      while mapBlockIndex[pindexIntermediate].pprev.Some? &&
            mapBlockIndex[mapBlockIndex[pindexIntermediate].pprev.value].nChainTrust > mapBlockIndex[pindexBest].nChainTrust
        invariant pindexIntermediate in mapBlockIndex && mapBlockIndex[pindexIntermediate].nHeight >= 0
        invariant mapBlockIndex[pindexIntermediate].pprev.Some? ==>
          mapBlockIndex[pindexIntermediate].pprev.value in mapBlockIndex
        invariant var (hs, low) := Postponed(mapBlockIndex, nBestChainTrust, pindexIntermediate);
          Postponed(mapBlockIndex, nBestChainTrust, pindexNew) == (vpindexSecondary + hs, low)
        decreases mapBlockIndex[pindexIntermediate].nHeight
      {
        ghost var (hs, low) := Postponed(mapBlockIndex, nBestChainTrust, pindexIntermediate);
        Parent(mapBlockIndex, pindexIntermediate);
        ghost var p := mapBlockIndex[pindexIntermediate].pprev.value;
        Parent(mapBlockIndex, p);
        assert vpindexSecondary + ([pindexIntermediate] + Postponed(mapBlockIndex, nBestChainTrust, p).0) ==
               vpindexSecondary + [pindexIntermediate] + Postponed(mapBlockIndex, nBestChainTrust, p).0;
        vpindexSecondary := vpindexSecondary + [pindexIntermediate];
        pindexIntermediate := mapBlockIndex[pindexIntermediate].pprev.value;
      }
      assert vpindexSecondary + [] == vpindexSecondary;
    }

    /** Connects the postponed blocks, lowest first; stops at the first failure. */
    method ConnectFurther(o: Oracle, top: Hash, vpindexSecondary: seq<Hash>) returns (pindexNew: Hash)
      requires Valid(S())
      requires Known(mapBlockIndex, vpindexSecondary)
      modifies this`mapBlockIndex, this`nBestInvalidTrust
      ensures Attachment(mapBlockIndex, pindexNew, nBestInvalidTrust) ==
              Attach(Attachment(old(mapBlockIndex), top, old(nBestInvalidTrust)), o, Reverse(vpindexSecondary))
    {
      hide Tree, Chain, SetParentNext;
      pindexNew := top;
      ghost var todo := Reverse(vpindexSecondary);
      ghost var start := Attachment(mapBlockIndex, top, nBestInvalidTrust);
      var i := |vpindexSecondary|;
      while i > 0
        invariant 0 <= i <= |vpindexSecondary| && pindexNew == top && Valid(S())
        invariant Known(mapBlockIndex, vpindexSecondary)
        invariant Attach(start, o, todo) ==
                  Attach(Attachment(mapBlockIndex, top, nBestInvalidTrust), o, todo[|vpindexSecondary| - i..])
      {
        i := i - 1;
        var pindex := vpindexSecondary[i];
        ghost var rest := todo[|vpindexSecondary| - 1 - i..];
        assert rest[0] == pindex && rest[1..] == todo[|vpindexSecondary| - i..];
        if !o.readsBack(pindex) || !o.beginsAgain(pindex) { break; }
        ghost var before := S();
        var attached := SetBestChainInner(o, pindex);
        if !attached {
          pindexNew := mapBlockIndex[pindex].pprev.value;
          break;
        }
        RelinkedIsValid(before, pindex, nBestInvalidTrust);
        SecondaryKnown(before.index, mapBlockIndex, vpindexSecondary);
      }
    }

    method SetBestChain(o: Oracle, pindexNew: Hash, hashPrevBlock: Hash) returns (ok: bool)
      requires Valid(S()) && pindexNew in mapBlockIndex && mapBlockIndex[pindexNew].pprev == Some(hashPrevBlock)
      modifies this
      ensures (ok, S()) == SetBest(old(S()), o, pindexNew, hashPrevBlock)
    {
      hide Tree, Chain, Postponed, Reorganized, Attach, SetParentNext, Fork, IsAncestor;
      var newBest := pindexNew;
      ghost var s := S();
      if !o.begins { return false; }
      if hashPrevBlock == hashBestChain {
        var attached := SetBestChainInner(o, pindexNew);
        if !attached { return false; }
        SetParentKeeps(s.index, pindexNew, Some(pindexNew));
      } else {
        var vpindexSecondary, pindexIntermediate := Postpone(pindexNew);
        PostponedIsAbove(s.index, s.nBestTrust, pindexNew);
        var switched := Reorganize(o, pindexIntermediate);
        if !switched {
          InvalidChainFound(pindexNew);
          return false;
        }
        ReorganizedKeeps(s.index, s.best, pindexIntermediate, o);
        SameTreeIsValid(s, mapBlockIndex, nBestInvalidTrust);
        PostponedKnown(s.index, s.nBestTrust, pindexNew);
        SecondaryKnown(s.index, mapBlockIndex, vpindexSecondary);
        PostponedReady(s.index, mapBlockIndex, s.nBestTrust, pindexNew, nBestInvalidTrust);
        AttachKeeps(s.index, Attachment(mapBlockIndex, pindexNew, nBestInvalidTrust), o, pindexNew,
                    Reverse(vpindexSecondary), s.index[pindexIntermediate].nHeight, s.nBestTrust);
        newBest := ConnectFurther(o, pindexNew, vpindexSecondary);
      }
      hashBestChain := pindexNew;
      pindexBest := newBest;
      mapBlockIndex := mapBlockIndex[newBest := mapBlockIndex[newBest].(pnext := None)];
      nBestHeight := mapBlockIndex[newBest].nHeight;
      nBestChainTrust := mapBlockIndex[newBest].nChainTrust;
      ok := true;
    }

    method AddToBlockIndex(o: Oracle, hash: Hash, hashPrevBlock: Hash, bnTarget: int) returns (ok: bool)
      requires Valid(S()) && hashPrevBlock in mapBlockIndex
      modifies this
      ensures (ok, S()) == AddBlock(old(S()), o, hash, hashPrevBlock, bnTarget)
      ensures Valid(S()) && Improves(old(S()), S())
    {
      hide Tree, Chain, SetBest, Child, Improves;
      AddImproves(S(), o, hash, hashPrevBlock, bnTarget);
      ImprovesIsValid(S(), AddBlock(S(), o, hash, hashPrevBlock, bnTarget).1);
      if hash in mapBlockIndex { return false; }
      if !o.modifierOk { return false; }
      AddedIsValid(S(), hash, hashPrevBlock, bnTarget);
      ParentOfChild(mapBlockIndex, hashPrevBlock, bnTarget);
      mapBlockIndex := mapBlockIndex[hash := Child(mapBlockIndex, hashPrevBlock, bnTarget)];
      if !o.stored { return false; }
      if mapBlockIndex[hash].nChainTrust > nBestChainTrust {
        ok := SetBestChain(o, hash, hashPrevBlock);
        return;
      }
      ok := true;
    }
  }

  lemma NotAll(p: Hash -> bool, hs: seq<Hash>, i: nat)
    requires i < |hs| && !p(hs[i])
    ensures !All(p, hs)
  {
    var h := hs[i];
    assert h in hs;
  }

  lemma ParentOfChild(m: BlockMap, prev: Hash, bnTarget: int)
    requires prev in m
    ensures Child(m, prev, bnTarget).pprev == Some(prev)
  {
  }

  lemma SameTreeIsValid(s: State, index: BlockMap, nInvalidTrust: nat)
    requires Valid(s) && Tree(index) && SameTree(s.index, index) && index.Keys == s.index.Keys
    ensures Valid(s.(index := index, nInvalidTrust := nInvalidTrust))
  {
    hide Tree, Chain;
    SameChain(s.index, index, s.hashBest);
    forall h | h in index ensures s.index[h].(pnext := None) == index[h].(pnext := None) {
    }
  }

  lemma RelinkedIsValid(s: State, h: Hash, nInvalidTrust: nat)
    requires Valid(s)
    ensures Valid(s.(index := SetParentNext(s.index, h, Some(h)), nInvalidTrust := nInvalidTrust))
    ensures SameTree(s.index, SetParentNext(s.index, h, Some(h)))
  {
    hide Tree, Chain, SetParentNext;
    SetParentKeeps(s.index, h, Some(h));
    SameTreeIsValid(s, SetParentNext(s.index, h, Some(h)), nInvalidTrust);
  }

  /** All of the blocks are in the index and have predecessors. */
  ghost predicate Known(m: BlockMap, hs: seq<Hash>) {
    forall i | 0 <= i < |hs| :: hs[i] in m && m[hs[i]].pprev.Some?
  }

  lemma SecondaryKnown(m: BlockMap, n: BlockMap, hs: seq<Hash>)
    requires SameTree(m, n) && Known(m, hs)
    ensures Known(n, hs)
  {
    forall i | 0 <= i < |hs| ensures hs[i] in n && n[hs[i]].pprev.Some? {
      var h := hs[i];
      assert m[h].(pnext := None) == n[h].(pnext := None);
    }
  }

  lemma PostponedKnown(m: BlockMap, nBestTrust: nat, h: Hash)
    requires Tree(m) && h in m
    ensures Known(m, Postponed(m, nBestTrust, h).0)
  {
    hide Tree, Chain, Postponed;
    PostponedIsAbove(m, nBestTrust, h);
    var hs := Postponed(m, nBestTrust, h).0;
    forall i | 0 <= i < |hs| ensures hs[i] in m && m[hs[i]].pprev.Some? {
      var g := hs[i];
      assert g in hs;
    }
  }

  lemma CollectStep(m: BlockMap, h: Hash, f: Hash)
    requires Tree(m) && h in m && f in m && IsAncestor(m, f, h) && 0 <= m[f].nHeight <= m[h].nHeight && h != f
    ensures m[h].pprev.Some?
    ensures var p := m[h].pprev.value;
      && p in m && m[f].nHeight <= m[p].nHeight == m[h].nHeight - 1 && IsAncestor(m, f, p)
      && Above(m, h, f) == Above(m, p, f) + [h]
  {
    hide Tree, Chain;
    AncestorHeight(m, f, h);
    Parent(m, h);
    assert Chain(m, h)[|Chain(m, h)| - 1] == h;
    if m[h].pprev.Some? {
      var p := m[h].pprev.value;
      assert Chain(m, p)[m[f].nHeight] == f;
    }
  }
}
