// What every run of AddToBlockIndex keeps.
module ChainRuns {
  import opened HashType
  import opened Options
  import opened Sequences
  import opened ChainTree
  import opened BestChain
  import opened Relinking

  // ------------------------------------------------------------------ postponed blocks

  /** The blocks still to attach lie on the chain of top, above position i. */
  ghost predicate Ready(m: BlockMap, a: Attachment, top: Hash, todo: seq<Hash>, i: nat)
    requires Tree(m) && top in m
  {
    && Tree(a.index) && SameTree(m, a.index) && a.index.Keys == m.Keys && a.best == top
    && i + |todo| + 1 == |Chain(m, top)| && todo == Chain(m, top)[i + 1..]
  }

  /** Every postponed block has more trust below it than the old best block. */
  ghost predicate Trusted(m: BlockMap, todo: seq<Hash>, nBestTrust: nat) {
    forall g | g in todo ::
      g in m && m[g].pprev.Some? && m[g].pprev.value in m && m[m[g].pprev.value].nChainTrust > nBestTrust
  }

  lemma ReadyStep(m: BlockMap, a: Attachment, top: Hash, todo: seq<Hash>, i: nat)
    requires Tree(m) && top in m && Ready(m, a, top, todo, i) && todo != []
    ensures var p := Chain(m, top)[i];
      && todo[0] in a.index && a.index[todo[0]].pprev == Some(p) && m[todo[0]].pprev == Some(p) && p in m
      && IsAncestor(m, p, top)
      && Ready(m, a.(index := SetParentNext(a.index, todo[0], Some(todo[0]))), top, todo[1..], i + 1)
      && Chain(m, top)[i + 1] == todo[0]
  {
    hide Tree, Chain, SetParentNext;
    ParentOnChain(m, a.index, top, i + 1);
    ChainPrefix(m, top, i + 1);
    SetParentKeeps(a.index, todo[0], Some(todo[0]));
    SameTreeTwice(m, a.index, SetParentNext(a.index, todo[0], Some(todo[0])));
  }

  /** However far attaching gets, the tree is kept, and the tip is the new block
      or an ancestor of it with more trust than the old best block. */
  lemma {:induction false} AttachKeeps(m: BlockMap, a: Attachment, o: Oracle, top: Hash, todo: seq<Hash>, i: nat,
                                       nBestTrust: nat)
    requires Tree(m) && top in m && Ready(m, a, top, todo, i)
    requires Trusted(m, todo, nBestTrust)
    ensures var b := Attach(a, o, todo);
      && Tree(b.index) && SameTree(m, b.index) && b.index.Keys == m.Keys
      && b.best in m && IsAncestor(m, b.best, top) && (b.best == top || m[b.best].nChainTrust > nBestTrust)
    decreases |todo|
  {
    hide Tree, SetParentNext, Chain;
    SelfAncestor(m, top);
    if todo != [] && o.readsBack(todo[0]) && o.beginsAgain(todo[0]) {
      ReadyStep(m, a, top, todo, i);
      assert todo[0] in todo;
      if o.attaches(todo[0]) && o.commitsInner(todo[0]) {
        AttachKeeps(m, a.(index := SetParentNext(a.index, todo[0], Some(todo[0]))), o, top, todo[1..], i + 1, nBestTrust);
      }
    }
  }

  /** A postponed block could not be read back, or its transaction not begun. */
  predicate Interrupted(o: Oracle, todo: seq<Hash>)
    decreases |todo|
  {
    todo != [] &&
    (!o.readsBack(todo[0]) || !o.beginsAgain(todo[0]) ||
     (o.attaches(todo[0]) && o.commitsInner(todo[0]) && Interrupted(o, todo[1..])))
  }

  /** The links trace the chain of the tip that is returned, unless the loop was interrupted. */
  lemma {:induction false} AttachTraces(m: BlockMap, a: Attachment, o: Oracle, top: Hash, todo: seq<Hash>, i: nat)
    requires Tree(m) && top in m && Ready(m, a, top, todo, i) && Traced(a.index, Chain(m, top)[i])
    ensures var b := Attach(a, o, todo);
      if Interrupted(o, todo)
      then b.best == top && exists p | p in b.index :: p != top && p in Chain(m, top) && b.index[p].pnext == None
      else Traced(b.index, b.best)
    decreases |todo|
  {
    hide Tree, SetParentNext, Chain;
    if todo == [] {
      assert Chain(m, top)[|Chain(m, top)| - 1] == top;
    } else {
      ReadyStep(m, a, top, todo, i);
      var p := Chain(m, top)[i];
      if !o.readsBack(todo[0]) || !o.beginsAgain(todo[0]) {
        TipHasNoNext(a.index, p);
        NotTop(m, top, i);
        assert p in a.index && p != top && p in Chain(m, top) && a.index[p].pnext == None;
      } else if o.attaches(todo[0]) && o.commitsInner(todo[0]) {
        LinkStep(a.index, p, todo[0]);
        AttachTraces(m, a.(index := SetParentNext(a.index, todo[0], Some(todo[0]))), o, top, todo[1..], i + 1);
      }
    }
  }

  lemma TipHasNoNext(m: BlockMap, tip: Hash)
    requires Traced(m, tip)
    ensures tip in m && m[tip].pnext == None
  {
  }

  lemma NotTop(m: BlockMap, top: Hash, i: nat)
    requires Tree(m) && top in m && i < |Chain(m, top)| - 1
    ensures Chain(m, top)[i] != top
  {
    ChainPrefix(m, top, i);
  }

  // ---------------------------------------------------------------------- one call

  /** The tree of blocks and the invariant stay. */
  ghost predicate Keeps(s: State, t: State) {
    Valid(t) && t.genesis == s.genesis && SameTree(s.index, t.index)
  }

  /** Whatever fails, the tree stays and the best block stays or gets strictly more trust. */
  ghost predicate Improves(s: State, t: State) {
    Keeps(s, t) && (t.best == s.best || t.nBestTrust > s.nBestTrust)
  }

  lemma FinishKeeps(s: State, index: BlockMap, best: Hash, hash: Hash)
    requires Valid(s) && Tree(index) && SameTree(s.index, index) && index.Keys == s.index.Keys
    requires best in index && hash in index && IsAncestor(s.index, best, hash)
    ensures Keeps(s, Finish(s, index, best, hash))
    ensures Finish(s, index, best, hash).nBestTrust == s.index[best].nChainTrust
  {
    hide Tree, Chain;
    var t := Finish(s, index, best, hash);
    SetNextKeepsTree(index, best, None);
    SameTreeTwice(s.index, index, t.index);
    SameChain(s.index, t.index, hash);
    assert s.index[best].(pnext := None) == t.index[best].(pnext := None) == index[best].(pnext := None);
    forall h | h in t.index ensures t.index[h].pprev.None? ==> h == t.genesis {
      assert s.index[h].(pnext := None) == t.index[h].(pnext := None);
    }
  }

  lemma PostponedReady(m: BlockMap, n: BlockMap, nBestTrust: nat, h: Hash, nInvalidTrust: nat)
    requires Tree(m) && h in m
    requires Tree(n) && SameTree(m, n) && n.Keys == m.Keys
    ensures var (hs, low) := Postponed(m, nBestTrust, h);
      && low in m && m[low].nHeight >= 0 && Ready(m, Attachment(n, h, nInvalidTrust), h, Reverse(hs), m[low].nHeight)
      && Chain(m, h)[m[low].nHeight] == low && Trusted(m, Reverse(hs), nBestTrust)
  {
    hide Tree, Chain;
    PostponedIsAbove(m, nBestTrust, h);
    var (hs, low) := Postponed(m, nBestTrust, h);
    HeightNotNegative(m, low);
    HeightNotNegative(m, h);
    var cl := Chain(m, low);
    assert cl[|cl| - 1] == low;
    assert Chain(m, h) == cl + Reverse(hs);
    forall g | g in Reverse(hs) ensures g in hs {
      var i :| 0 <= i < |hs| && Reverse(hs)[i] == g;
      assert hs[|hs| - 1 - i] == g;
    }
    forall g | g in hs ensures m[g].pprev.value in m { Parent(m, g); }
  }

  /** Whatever fails and whatever trust the candidate has, the tree stays; the
      tip is the old one, the candidate, or a block of more trust than the old one. */
  lemma SetBestKeeps(s: State, o: Oracle, pindexNew: Hash, hashPrev: Hash)
    requires Valid(s) && pindexNew in s.index
    ensures var (ok, t) := SetBest(s, o, pindexNew, hashPrev);
      && Keeps(s, t)
      && (!ok ==> t == s.(nInvalidTrust := t.nInvalidTrust))
      && (ok ==> t.hashBest == pindexNew && (t.best == pindexNew || t.nBestTrust > s.nBestTrust))
  {
    hide Tree, Chain, Attach, Postponed, Reorganized, SetParentNext;
    SelfAncestor(s.index, pindexNew);
    SameTreeSelf(s.index);
    if !o.begins {
    } else if hashPrev == s.hashBest {
      if o.attaches(pindexNew) && o.commitsInner(pindexNew) {
        SetParentKeeps(s.index, pindexNew, Some(pindexNew));
        FinishKeeps(s, SetParentNext(s.index, pindexNew, Some(pindexNew)), pindexNew, pindexNew);
      }
    } else {
      var (hs, low) := Postponed(s.index, s.nBestTrust, pindexNew);
      PostponedIsAbove(s.index, s.nBestTrust, pindexNew);
      match Reorganized(s.index, s.best, low, o)
      case None =>
      case Some(m) =>
        ReorganizedKeeps(s.index, s.best, low, o);
        PostponedReady(s.index, m, s.nBestTrust, pindexNew, s.nInvalidTrust);
        AttachKeeps(s.index, Attachment(m, pindexNew, s.nInvalidTrust), o, pindexNew, Reverse(hs), s.index[low].nHeight,
                    s.nBestTrust);
        var a := Attach(Attachment(m, pindexNew, s.nInvalidTrust), o, Reverse(hs));
        FinishKeeps(s.(nInvalidTrust := a.nInvalidTrust), a.index, a.best, pindexNew);
    }
  }

  lemma SetBestImproves(s: State, o: Oracle, pindexNew: Hash, hashPrev: Hash)
    requires Valid(s) && pindexNew in s.index && s.index[pindexNew].nChainTrust > s.nBestTrust
    ensures Improves(s, SetBest(s, o, pindexNew, hashPrev).1)
    ensures SetBest(s, o, pindexNew, hashPrev).0 <==> SetBest(s, o, pindexNew, hashPrev).1.best != s.best
  {
    hide Tree, Chain, SetBest;
    SetBestKeeps(s, o, pindexNew, hashPrev);
    var t := SetBest(s, o, pindexNew, hashPrev).1;
    assert t.nBestTrust == t.index[t.best].nChainTrust && s.nBestTrust == s.index[s.best].nChainTrust;
    assert s.index[s.best].(pnext := None) == t.index[s.best].(pnext := None);
    assert s.index[pindexNew].(pnext := None) == t.index[pindexNew].(pnext := None);
  }

  lemma SameTreeSelf(m: BlockMap)
    ensures SameTree(m, m)
  {
  }

  lemma AddedIsValid(s: State, hash: Hash, hashPrev: Hash, bnTarget: int)
    requires Valid(s) && hashPrev in s.index && hash !in s.index
    ensures var t := s.(index := s.index[hash := Child(s.index, hashPrev, bnTarget)]);
      Valid(t) && SameTree(s.index, t.index)
  {
    hide Chain;
    AddKeepsTree(s.index, hash, hashPrev, bnTarget);
    SameChain(s.index, s.index[hash := Child(s.index, hashPrev, bnTarget)], s.hashBest);
  }

  /** AddToBlockIndex never makes the best block worse, even when a postponed
      block fails and the tip falls back to the block below it. */
  lemma AddImproves(s: State, o: Oracle, hash: Hash, hashPrev: Hash, bnTarget: int)
    requires Valid(s) && hashPrev in s.index
    ensures Improves(s, AddBlock(s, o, hash, hashPrev, bnTarget).1)
  {
    hide Tree, Chain, SetBest, Child;
    SameTreeSelf(s.index);
    if hash !in s.index && o.modifierOk {
      AddedIsValid(s, hash, hashPrev, bnTarget);
      var t := s.(index := s.index[hash := Child(s.index, hashPrev, bnTarget)]);
      if o.stored && t.index[hash].nChainTrust > s.nBestTrust {
        SetBestImproves(t, o, hash, hashPrev);
        SameTreeTwice(s.index, t.index, SetBest(t, o, hash, hashPrev).1.index);
      }
    }
  }

  // ---------------------------------------------------------------------- the links

  lemma FinishTraced(s: State, index: BlockMap, best: Hash, hash: Hash)
    requires Traced(index, best)
    ensures Finish(s, index, best, hash).index == index
  {
    TipHasNoNext(index, best);
    assert index[best := index[best].(pnext := None)] == index;
  }

  /** An ancestor of the tip without a forward link breaks the trace. */
  lemma GapBreaksTrace(m: BlockMap, tip: Hash, p: Hash)
    requires Tree(m) && tip in m && p in m && p != tip && IsAncestor(m, p, tip) && m[p].pnext == None
    ensures !Traced(m, tip)
  {
    hide Tree, Chain;
    AncestorHeight(m, p, tip);
    HeightNotNegative(m, tip);
    assert Chain(m, tip)[|Chain(m, tip)| - 1] == tip;
  }

  /** The two ways in which a new best block leaves the links wrong: it was put
      on top of a recorded best-chain hash that is not the best block, or a
      postponed block could not be read back. */
  predicate Breaks(s: State, o: Oracle, pindexNew: Hash, hashPrev: Hash)
    requires Valid(s) && pindexNew in s.index
  {
    o.begins &&
    if hashPrev == s.hashBest then o.attaches(pindexNew) && o.commitsInner(pindexNew) && s.hashBest != s.best
    else
      var (hs, low) := Postponed(s.index, s.nBestTrust, pindexNew);
      PostponedIsAbove(s.index, s.nBestTrust, pindexNew);
      Reorganized(s.index, s.best, low, o).Some? && Interrupted(o, Reverse(hs))
  }

  lemma ChildOnTop(s: State, o: Oracle, pindexNew: Hash)
    requires Valid(s) && Traced(s.index, s.best) && pindexNew in s.index
    requires s.index[pindexNew].pprev == Some(s.hashBest)
    ensures var t := Finish(s, SetParentNext(s.index, pindexNew, Some(pindexNew)), pindexNew, pindexNew);
      Traced(t.index, t.best) <==> s.hashBest == s.best
  {
    hide Tree, Chain, Traced, SetParentNext;
    var m := SetParentNext(s.index, pindexNew, Some(pindexNew));
    SetParentKeeps(s.index, pindexNew, Some(pindexNew));
    NotTheBest(s, pindexNew);
    if s.hashBest == s.best {
      LinkStep(s.index, s.best, pindexNew);
      FinishTraced(s, m, pindexNew, pindexNew);
    } else {
      OffTheTip(s, pindexNew);
    }
  }

  /** The best block is an ancestor of the recorded hash, so it is not a child of it. */
  lemma NotTheBest(s: State, pindexNew: Hash)
    requires Valid(s) && pindexNew in s.index && s.index[pindexNew].pprev == Some(s.hashBest)
    ensures pindexNew != s.best
  {
    hide Tree, Chain;
    Parent(s.index, pindexNew);
    AncestorHeight(s.index, s.best, s.hashBest);
  }

  /** The old best block lies below the new one without a link. */
  lemma OffTheTip(s: State, pindexNew: Hash)
    requires Valid(s) && Traced(s.index, s.best) && pindexNew in s.index && pindexNew != s.best
    requires s.index[pindexNew].pprev == Some(s.hashBest) && s.hashBest != s.best
    ensures !Traced(Finish(s, SetParentNext(s.index, pindexNew, Some(pindexNew)), pindexNew, pindexNew).index, pindexNew)
  {
    hide Tree, Chain, Traced;
    TipHasNoNext(s.index, s.best);
    Parent(s.index, pindexNew);
    var m := SetParentNext(s.index, pindexNew, Some(pindexNew));
    var n := SetNext(m, pindexNew, None);
    SetParentKeeps(s.index, pindexNew, Some(pindexNew));
    SetNextKeepsTree(m, pindexNew, None);
    SameTreeTwice(s.index, m, n);
    SameChain(s.index, n, pindexNew);
    assert Chain(s.index, pindexNew) == Chain(s.index, s.hashBest) + [pindexNew];
    assert n[s.best].pnext == None;
    GapBreaksTrace(n, pindexNew, s.best);
  }

  lemma AfterReorganize(s: State, o: Oracle, pindexNew: Hash, low: Hash, hs: seq<Hash>)
    requires Valid(s) && Traced(s.index, s.best) && pindexNew in s.index
    requires Postponed(s.index, s.nBestTrust, pindexNew) == (hs, low) && low in s.index
    requires Reorganized(s.index, s.best, low, o).Some?
    ensures var m := Reorganized(s.index, s.best, low, o).value;
      var a := Attach(Attachment(m, pindexNew, s.nInvalidTrust), o, Reverse(hs));
      a.best in a.index &&
      (Traced(Finish(s, a.index, a.best, pindexNew).index, a.best) <==> !Interrupted(o, Reverse(hs)))
  {
    hide Tree, Chain, Attach, Postponed, Reorganized, Traced, Interrupted;
    var m := Reorganized(s.index, s.best, low, o).value;
    ReorganizedKeeps(s.index, s.best, low, o);
    ReorganizedTraces(s.index, s.best, low, o);
    PostponedReady(s.index, m, s.nBestTrust, pindexNew, s.nInvalidTrust);
    var a0 := Attachment(m, pindexNew, s.nInvalidTrust);
    AttachKeeps(s.index, a0, o, pindexNew, Reverse(hs), s.index[low].nHeight, s.nBestTrust);
    AttachTraces(s.index, a0, o, pindexNew, Reverse(hs), s.index[low].nHeight);
    var a := Attach(a0, o, Reverse(hs));
    if Interrupted(o, Reverse(hs)) {
      var p :| p in a.index && p != pindexNew && p in Chain(s.index, pindexNew) && a.index[p].pnext == None;
      var n := SetNext(a.index, pindexNew, None);
      SetNextKeepsTree(a.index, pindexNew, None);
      SameTreeTwice(s.index, a.index, n);
      SameChain(s.index, n, pindexNew);
      GapBreaksTrace(n, pindexNew, p);
    } else {
      FinishTraced(s, a.index, a.best, pindexNew);
    }
  }

  lemma SetBestTraces(s: State, o: Oracle, pindexNew: Hash, hashPrev: Hash)
    requires Valid(s) && Traced(s.index, s.best) && pindexNew in s.index
    requires s.index[pindexNew].pprev == Some(hashPrev)
    ensures var t := SetBest(s, o, pindexNew, hashPrev).1;
      Traced(t.index, t.best) <==> !Breaks(s, o, pindexNew, hashPrev)
  {
    hide Tree, Chain, Attach, Postponed, Reorganized, SetParentNext, Traced, Interrupted, Valid;
    ValidBest(s);
    if !o.begins {
    } else if hashPrev == s.hashBest {
      if o.attaches(pindexNew) && o.commitsInner(pindexNew) { ChildOnTop(s, o, pindexNew); }
    } else {
      var (hs, low) := Postponed(s.index, s.nBestTrust, pindexNew);
      PostponedIsAbove(s.index, s.nBestTrust, pindexNew);
      if Reorganized(s.index, s.best, low, o).Some? {
        AfterReorganize(s, o, pindexNew, low, hs);
      }
    }
  }

  lemma ValidBest(s: State)
    requires Valid(s)
    ensures Tree(s.index) && s.best in s.index && s.hashBest in s.index && s.nBestTrust == s.index[s.best].nChainTrust
  {
  }

  lemma AddedTraced(s: State, hash: Hash, hashPrev: Hash, bnTarget: int)
    requires Valid(s) && Traced(s.index, s.best) && hashPrev in s.index && hash !in s.index
    ensures Traced(s.index[hash := Child(s.index, hashPrev, bnTarget)], s.best)
  {
    hide Chain, Tree, NextOn, Child;
    var n := s.index[hash := Child(s.index, hashPrev, bnTarget)];
    AddKeepsTree(s.index, hash, hashPrev, bnTarget);
    NotOnChain(s.index, n, s.best, hash);
    ChildHasNoNext(s.index, hashPrev, bnTarget);
    forall h | h in n ensures n[h].pnext == NextOn(n, s.best, h) {
      if h != hash { NextSame(s.index, n, s.best, h); }
    }
  }

  lemma ChildHasNoNext(m: BlockMap, prev: Hash, bnTarget: int)
    requires prev in m
    ensures Child(m, prev, bnTarget).pnext == None
  {
  }

  lemma NotOnChain(m: BlockMap, n: BlockMap, tip: Hash, h: Hash)
    requires Tree(m) && Tree(n) && SameTree(m, n) && tip in m && h !in m && h in n
    ensures tip in n && NextOn(n, tip, h) == None
  {
    hide Chain, Tree;
    SameChain(m, n, tip);
    HeightNotNegative(m, tip);
  }

  predicate MakesBest(s: State, o: Oracle, hash: Hash, hashPrev: Hash, bnTarget: int)
    requires Tree(s.index) && hashPrev in s.index
  {
    hash !in s.index && o.modifierOk && o.stored && Child(s.index, hashPrev, bnTarget).nChainTrust > s.nBestTrust
  }

  predicate AddBreaks(s: State, o: Oracle, hash: Hash, hashPrev: Hash, bnTarget: int)
    requires Valid(s) && hashPrev in s.index
  {
    AddedIsSound(s, hash, hashPrev, bnTarget);
    MakesBest(s, o, hash, hashPrev, bnTarget) &&
    Breaks(s.(index := s.index[hash := Child(s.index, hashPrev, bnTarget)]), o, hash, hashPrev)
  }

  /** From links that trace the best block's chain, a call leads to such links
      again exactly if it does not end in one of the two broken ways. */
  lemma AddTraces(s: State, o: Oracle, hash: Hash, hashPrev: Hash, bnTarget: int)
    requires Valid(s) && Traced(s.index, s.best) && hashPrev in s.index
    ensures var t := AddBlock(s, o, hash, hashPrev, bnTarget).1;
      Traced(t.index, t.best) <==> !AddBreaks(s, o, hash, hashPrev, bnTarget)
  {
    hide Tree, Chain, SetBest, Traced, Breaks, Valid;
    ValidBest(s);
    if hash !in s.index && o.modifierOk {
      AddedIsSound(s, hash, hashPrev, bnTarget);
      AddedTraced(s, hash, hashPrev, bnTarget);
      var t := s.(index := s.index[hash := Child(s.index, hashPrev, bnTarget)]);
      if MakesBest(s, o, hash, hashPrev, bnTarget) { SetBestTraces(t, o, hash, hashPrev); }
    }
  }

  lemma AddedIsSound(s: State, hash: Hash, hashPrev: Hash, bnTarget: int)
    requires Valid(s) && hashPrev in s.index
    ensures hash !in s.index ==> Valid(s.(index := s.index[hash := Child(s.index, hashPrev, bnTarget)]))
  {
    if hash !in s.index { AddedIsValid(s, hash, hashPrev, bnTarget); }
  }

  // ------------------------------------------------------------------------- runs

  /** A call of AddToBlockIndex, or one of SetBestChain for a known block as the
      checkpoints make it, with the answers of its surroundings. */
  datatype Call =
    | Add(o: Oracle, hash: Hash, hashPrev: Hash, bnTarget: int)
    | Select(o: Oracle, hash: Hash)

  /** Only the genesis block. */
  function Start(genesis: Hash, bnTarget: int): State {
    State(genesis, map[genesis := Root(bnTarget)], genesis, genesis, 0, GetBlockTrust(bnTarget), 0)
  }

  /** A block whose predecessor is not known is rejected before the call; only a
      known block with a predecessor is selected. */
  predicate Allowed(t: State, c: Call) {
    Valid(t) &&
    match c
    case Add(_, _, hashPrev, _) => hashPrev in t.index
    case Select(_, hash) => hash in t.index && t.index[hash].pprev.Some?
  }

  function Apply(t: State, c: Call): State
    requires Allowed(t, c)
  {
    match c
    case Add(o, hash, hashPrev, bnTarget) => AddBlock(t, o, hash, hashPrev, bnTarget).1
    case Select(o, hash) => SetBest(t, o, hash, t.index[hash].pprev.value).1
  }

  function Run(s: State, calls: seq<Call>): State
    decreases |calls|
  {
    if calls == [] then s else
      var t := Run(s, calls[..|calls| - 1]);
      var c := calls[|calls| - 1];
      if Allowed(t, c) then Apply(t, c) else t
  }

  lemma ApplyKeeps(t: State, c: Call)
    requires Allowed(t, c)
    ensures Keeps(t, Apply(t, c))
    ensures c.Add? ==> Improves(t, Apply(t, c))
  {
    hide Valid, AddBlock, SetBest, SameTree;
    match c
    case Add(o, hash, hashPrev, bnTarget) => AddImproves(t, o, hash, hashPrev, bnTarget);
    case Select(o, hash) => SetBestKeeps(t, o, hash, t.index[hash].pprev.value);
  }

  lemma KeepsTwice(s: State, t: State, u: State)
    requires Keeps(s, t) && Keeps(t, u)
    ensures Keeps(s, u)
  {
    hide Tree, Chain;
    SameTreeTwice(s.index, t.index, u.index);
  }

  /** Over any run, whatever fails and whatever is selected, the invariant and the tree stay. */
  lemma {:induction false} RunKeeps(s: State, calls: seq<Call>)
    requires Valid(s)
    ensures Keeps(s, Run(s, calls))
    decreases |calls|
  {
    hide Valid, Apply, Keeps, Improves;
    if calls == [] {
      ImprovesItself(s);
      ImprovesIsValid(s, s);
    } else {
      RunKeeps(s, calls[..|calls| - 1]);
      var t := Run(s, calls[..|calls| - 1]);
      var c := calls[|calls| - 1];
      if Allowed(t, c) {
        ApplyKeeps(t, c);
        KeepsTwice(s, t, Apply(t, c));
      }
    }
  }

  ghost predicate OnlyAdds(calls: seq<Call>) { forall n | 0 <= n < |calls| :: calls[n].Add? }

  lemma StartIsValid(genesis: Hash, bnTarget: int)
    ensures Valid(Start(genesis, bnTarget)) && Traced(Start(genesis, bnTarget).index, genesis)
  {
  }

  lemma ImprovesTwice(s: State, t: State, u: State)
    requires Valid(s) && Improves(s, t) && Improves(t, u)
    ensures Improves(s, u)
  {
    hide Tree, Chain;
    SameTreeTwice(s.index, t.index, u.index);
    if t.best == s.best { assert s.index[s.best].(pnext := None) == t.index[s.best].(pnext := None); }
  }

  /** Over any run of AddToBlockIndex, whatever fails in it, the best block only
      changes to one of strictly greater trust. */
  lemma {:induction false} RunImproves(s: State, calls: seq<Call>)
    requires Valid(s) && OnlyAdds(calls)
    ensures Improves(s, Run(s, calls))
    decreases |calls|
  {
    hide Valid, Apply, Improves;
    if calls == [] {
      ImprovesItself(s);
    } else {
      RunImproves(s, calls[..|calls| - 1]);
      var t := Run(s, calls[..|calls| - 1]);
      var c := calls[|calls| - 1];
      ImprovesIsValid(s, t);
      if Allowed(t, c) {
        ApplyKeeps(t, c);
        ImprovesTwice(s, t, Apply(t, c));
      }
    }
  }

  lemma ImprovesItself(s: State)
    requires Valid(s)
    ensures Improves(s, s)
  {
  }

  lemma ImprovesIsValid(s: State, t: State)
    requires Improves(s, t)
    ensures Valid(t) && Keeps(s, t)
  {
  }

  /** The recorded best trust is the sum of the block trusts from the genesis block to the best block. */
  lemma BestTrustIsSum(genesis: Hash, bnTarget: int, calls: seq<Call>)
    ensures var s := Run(Start(genesis, bnTarget), calls);
      Valid(s) && s.nBestTrust == SumTrust(s.index, Chain(s.index, s.best)) % UINT256
      && Chain(s.index, s.best)[0] == genesis
  {
    hide Run, Tree, Chain, SumTrust;
    StartIsValid(genesis, bnTarget);
    RunKeeps(Start(genesis, bnTarget), calls);
    var s := Run(Start(genesis, bnTarget), calls);
    TrustIsSum(s.index, s.best);
    HeightNotNegative(s.index, s.best);
    RootOf(s.index, s.best);
    assert Chain(s.index, s.best)[0] in s.index;
  }

  predicate Breaking(t: State, c: Call) {
    Allowed(t, c) &&
    match c
    case Add(o, hash, hashPrev, bnTarget) => AddBreaks(t, o, hash, hashPrev, bnTarget)
    case Select(o, hash) => Breaks(t, o, hash, t.index[hash].pprev.value)
  }

  lemma ApplyTraces(t: State, c: Call)
    requires Allowed(t, c) && Traced(t.index, t.best)
    ensures Traced(Apply(t, c).index, Apply(t, c).best) <==> !Breaking(t, c)
  {
    hide Valid, AddBlock, SetBest, Traced, AddBreaks, Breaks;
    match c
    case Add(o, hash, hashPrev, bnTarget) => AddTraces(t, o, hash, hashPrev, bnTarget);
    case Select(o, hash) => SetBestTraces(t, o, hash, t.index[hash].pprev.value);
  }

  /** While no call breaks the links, a block is in the main chain exactly if it
      is the best block or one of its ancestors. */
  lemma {:induction false} RunTraces(s: State, calls: seq<Call>)
    requires Valid(s) && Traced(s.index, s.best)
    requires forall n | 0 <= n < |calls| :: !Breaking(Run(s, calls[..n]), calls[n])
    ensures var t := Run(s, calls);
      Valid(t) && Traced(t.index, t.best) &&
      forall h | h in t.index :: IsInMainChain(t.index, t.best, h) <==> IsAncestor(t.index, h, t.best)
    decreases |calls|
  {
    hide Valid, Apply, Traced, Breaking, Allowed;
    RunKeeps(s, calls);
    if calls != [] {
      var k := |calls| - 1;
      forall n | 0 <= n < k ensures !Breaking(Run(s, calls[..k][..n]), calls[..k][n]) {
        assert calls[..k][..n] == calls[..n];
      }
      RunTraces(s, calls[..k]);
      var t := Run(s, calls[..k]);
      var c := calls[k];
      assert !Breaking(Run(s, calls[..k]), calls[k]);
      if Allowed(t, c) { ApplyTraces(t, c); }
    }
    MainChainOf(Run(s, calls));
  }

  lemma MainChainOf(t: State)
    requires Valid(t) && Traced(t.index, t.best)
    ensures forall h | h in t.index :: IsInMainChain(t.index, t.best, h) <==> IsAncestor(t.index, h, t.best)
  {
    forall h | h in t.index ensures IsInMainChain(t.index, t.best, h) <==> IsAncestor(t.index, h, t.best) {
      MainChainIsAncestors(t.index, t.best, h);
    }
  }

  // ------------------------------------------------------------- when nothing fails

  ghost predicate NothingFails(o: Oracle) {
    && o.modifierOk && o.stored && o.begins && o.commits
    && forall h ::
         o.disconnects(h) && o.connects(h) && o.readsBack(h) && o.beginsAgain(h) && o.attaches(h) && o.commitsInner(h)
  }

  lemma {:induction false} AttachAll(a: Attachment, o: Oracle, todo: seq<Hash>)
    requires NothingFails(o)
    ensures Attach(a, o, todo).best == a.best
    decreases |todo|
  {
    if todo != [] { AttachAll(a.(index := SetParentNext(a.index, todo[0], Some(todo[0]))), o, todo[1..]); }
  }

  lemma NothingFailsBest(s: State, o: Oracle, pindexNew: Hash, hashPrev: Hash)
    requires Valid(s) && pindexNew in s.index && s.index[pindexNew].nChainTrust > s.nBestTrust && NothingFails(o)
    ensures SetBest(s, o, pindexNew, hashPrev).1.best == pindexNew
  {
    hide Tree, Chain, Attach, Fork, Postponed, Link, Unlink;
    if hashPrev != s.hashBest {
      var (hs, low) := Postponed(s.index, s.nBestTrust, pindexNew);
      PostponedIsAbove(s.index, s.nBestTrust, pindexNew);
      OneRootHasForks(s, low);
      ReorganizedKeeps(s.index, s.best, low, o);
      var a := Attachment(Reorganized(s.index, s.best, low, o).value, pindexNew, s.nInvalidTrust);
      AttachAll(a, o, Reverse(hs));
      SetBestImproves(s, o, pindexNew, hashPrev);
      PostponedReady(s.index, a.index, s.nBestTrust, pindexNew, s.nInvalidTrust);
      AttachKeeps(s.index, a, o, pindexNew, Reverse(hs), s.index[low].nHeight, s.nBestTrust);
    }
  }

  ghost predicate Greatest(s: State) { forall h | h in s.index :: s.index[h].nChainTrust <= s.nBestTrust }

  lemma AddGreatest(t: State, o: Oracle, hash: Hash, hashPrev: Hash, bnTarget: int)
    requires Valid(t) && Greatest(t) && hashPrev in t.index && NothingFails(o)
    ensures Greatest(AddBlock(t, o, hash, hashPrev, bnTarget).1)
  {
    hide Tree, Chain, SetBest, Child, NothingFails;
    var u := AddBlock(t, o, hash, hashPrev, bnTarget).1;
    AddImproves(t, o, hash, hashPrev, bnTarget);
    TrivialFacts(o);
    if hash !in t.index {
      AddedIsValid(t, hash, hashPrev, bnTarget);
      var v := t.(index := t.index[hash := Child(t.index, hashPrev, bnTarget)]);
      if v.index[hash].nChainTrust > t.nBestTrust {
        NothingFailsBest(v, o, hash, hashPrev);
        SetBestImproves(v, o, hash, hashPrev);
        SetBestKeys(v, o, hash, hashPrev);
        forall h | h in u.index ensures u.index[h].nChainTrust <= u.nBestTrust {
          assert v.index[h].(pnext := None) == u.index[h].(pnext := None);
          assert v.index[hash].(pnext := None) == u.index[hash].(pnext := None);
        }
      }
    }
  }

  lemma TrivialFacts(o: Oracle)
    requires NothingFails(o)
    ensures o.modifierOk && o.stored
  {
  }

  lemma SetBestKeys(s: State, o: Oracle, pindexNew: Hash, hashPrev: Hash)
    requires Valid(s) && pindexNew in s.index
    ensures SetBest(s, o, pindexNew, hashPrev).1.index.Keys == s.index.Keys
  {
    hide Tree, Chain, Attach, Postponed, Reorganized, SetParentNext, SameTree, IsAncestor, Ready, Trusted;
    if o.begins && hashPrev == s.hashBest {
      SetParentKeeps(s.index, pindexNew, Some(pindexNew));
    } else if o.begins {
      PostponedIsAbove(s.index, s.nBestTrust, pindexNew);
      var low := Postponed(s.index, s.nBestTrust, pindexNew).1;
      if Reorganized(s.index, s.best, low, o).Some? { AttachKeys(s, o, pindexNew); }
    }
  }

  lemma AttachKeys(s: State, o: Oracle, pindexNew: Hash)
    requires Valid(s) && pindexNew in s.index
    requires var (hs, low) := Postponed(s.index, s.nBestTrust, pindexNew);
      low in s.index && Reorganized(s.index, s.best, low, o).Some?
    ensures var (hs, low) := Postponed(s.index, s.nBestTrust, pindexNew);
      var m := Reorganized(s.index, s.best, low, o).value;
      Attach(Attachment(m, pindexNew, s.nInvalidTrust), o, Reverse(hs)).index.Keys == s.index.Keys
  {
    hide Tree, Chain, Attach, Postponed, Reorganized;
    var (hs, low) := Postponed(s.index, s.nBestTrust, pindexNew);
    ReorganizedKeeps(s.index, s.best, low, o);
    var m := Reorganized(s.index, s.best, low, o).value;
    PostponedReady(s.index, m, s.nBestTrust, pindexNew, s.nInvalidTrust);
    AttachKeeps(s.index, Attachment(m, pindexNew, s.nInvalidTrust), o, pindexNew, Reverse(hs), s.index[low].nHeight,
                s.nBestTrust);
  }

  /** If nothing fails, no known block has more trust than the best one. */
  lemma {:induction false} RunFindsGreatest(genesis: Hash, bnTarget: int, calls: seq<Call>)
    requires forall n | 0 <= n < |calls| :: calls[n].Add? && NothingFails(calls[n].o)
    ensures Greatest(Run(Start(genesis, bnTarget), calls))
    decreases |calls|
  {
    hide Valid, Apply, Greatest, NothingFails, Keeps, Allowed;
    var s := Start(genesis, bnTarget);
    StartIsValid(genesis, bnTarget);
    if calls == [] {
      StartIsGreatest(genesis, bnTarget);
    } else {
      var k := |calls| - 1;
      RunFindsGreatest(genesis, bnTarget, calls[..k]);
      var c := calls[k];
      if Allowed(Run(s, calls[..k]), c) { ApplyGreatest(Run(s, calls[..k]), c); }
    }
  }

  lemma ApplyGreatest(t: State, c: Call)
    requires Allowed(t, c) && c.Add? && Greatest(t) && NothingFails(c.o)
    ensures Greatest(Apply(t, c))
  {
    hide Valid, AddBlock, Greatest, NothingFails;
    AddGreatest(t, c.o, c.hash, c.hashPrev, c.bnTarget);
  }

  lemma StartIsGreatest(genesis: Hash, bnTarget: int)
    ensures Greatest(Start(genesis, bnTarget))
  {
  }
}
