// When a new best block is accepted, and up to which block, said of the chains alone.
module ChainSuccess {
  import opened HashType
  import opened Options
  import opened Sequences
  import opened ChainTree
  import opened BestChain
  import opened Relinking
  import opened ChainRuns

  /** The block at which the new chain starts to be worth the change: its
      predecessor has no more than the given trust, and every predecessor
      further up has more. */
  ghost predicate IsTail(m: BlockMap, nBestTrust: nat, h: Hash, low: Hash)
    requires Tree(m) && h in m
  {
    var c := Chain(m, h);
    && low in m && 0 <= m[low].nHeight < |c| && c[m[low].nHeight] == low
    && (m[low].nHeight > 0 ==> m[c[m[low].nHeight - 1]].nChainTrust <= nBestTrust)
    && forall j | m[low].nHeight <= j < |c| - 1 :: m[c[j]].nChainTrust > nBestTrust
  }

  lemma TailIsUnique(m: BlockMap, nBestTrust: nat, h: Hash, low: Hash, other: Hash)
    requires Tree(m) && h in m && IsTail(m, nBestTrust, h, low) && IsTail(m, nBestTrust, h, other)
    ensures low == other
  {
    hide Tree, Chain;
    var c := Chain(m, h);
    var x := if m[low].nHeight > 0 then m[c[m[low].nHeight - 1]].nChainTrust else 0;
    var y := if m[other].nHeight > 0 then m[c[m[other].nHeight - 1]].nChainTrust else 0;
  }

  lemma PostponedTail(m: BlockMap, nBestTrust: nat, h: Hash)
    requires Tree(m) && h in m
    ensures var (hs, low) := Postponed(m, nBestTrust, h);
      && IsTail(m, nBestTrust, h, low) && Reverse(hs) == Chain(m, h)[m[low].nHeight + 1..]
  {
    hide Tree, Chain, Postponed;
    PostponedIsAbove(m, nBestTrust, h);
    var (hs, low) := Postponed(m, nBestTrust, h);
    HeightNotNegative(m, low);
    var c, k := Chain(m, h), m[low].nHeight;
    assert Chain(m, low)[k] == low;
    assert c[k + 1..] == Reverse(hs);
    ChainPrefix(m, h, k);
    forall j | k <= j < |c| - 1 ensures m[c[j]].nChainTrust > nBestTrust {
      ChainPrefix(m, h, j + 1);
      InHigher(c, hs, k, j);
    }
  }

  lemma InHigher(c: seq<Hash>, hs: seq<Hash>, k: nat, j: nat)
    requires k <= j < |c| - 1 && c[k + 1..] == Reverse(hs)
    ensures c[j + 1] in hs
  {
    assert c[j + 1] == Reverse(hs)[j - k] == hs[|hs| - 1 - (j - k)];
  }

  // ------------------------------------------------------------------- reorganising

  /** What has to work for the chain to be moved from best to low. */
  ghost predicate CanMove(m: BlockMap, o: Oracle, best: Hash, low: Hash)
    requires Tree(m) && best in m && low in m
  {
    && (forall h | h in Chain(m, best) && h !in Chain(m, low) :: o.disconnects(h))
    && (forall h | h in Chain(m, low) && h !in Chain(m, best) :: o.connects(h))
    && o.commits
  }

  /** The blocks above the fork are those that the other chain does not have. */
  lemma AboveIsOwn(m: BlockMap, a: Hash, b: Hash, h: Hash)
    requires Tree(m) && a in m && b in m && Fork(m, a, b).Some?
    ensures var f := Fork(m, a, b).value;
      && 0 <= m[f].nHeight <= m[a].nHeight
      && (h in Above(m, a, f) <==> h in Chain(m, a) && h !in Chain(m, b))
  {
    hide Tree, Chain, Fork;
    ForkBelow(m, a, b);
    var f := Fork(m, a, b).value;
    var c, k := Chain(m, a), m[f].nHeight;
    if h in Above(m, a, f) {
      var j :| k + 1 <= j < |c| && c[j] == h;
      assert h in c;
      ChainPrefix(m, a, j);
      if h in Chain(m, b) {
        ForkIsHighest(m, a, b, h);
        AncestorHeight(m, h, f);
      }
    }
    if h in c && h !in Chain(m, b) {
      var j :| 0 <= j < |c| && c[j] == h;
      if j <= k {
        AncestorHeight(m, f, a);
        assert Chain(m, f)[j] == h;
        ForkIsHighest(m, a, b, h);
      }
      assert c[k + 1..][j - k - 1] == h;
    }
  }

  lemma ForkOtherWay(m: BlockMap, a: Hash, b: Hash)
    requires Tree(m) && a in m && b in m && Fork(m, a, b).Some?
    ensures Fork(m, b, a) == Fork(m, a, b)
  {
    hide Tree, Chain, Fork;
    var f := Fork(m, a, b).value;
    ForkBelow(m, a, b);
    ForkIsHighest(m, b, a, f);
    var g := Fork(m, b, a).value;
    ForkBelow(m, b, a);
    ForkIsHighest(m, a, b, g);
    AncestorHeight(m, f, g);
    AncestorHeight(m, g, f);
    HeightNotNegative(m, g);
  }

  lemma ReorganizedIff(s: State, o: Oracle, low: Hash)
    requires Valid(s) && low in s.index
    ensures Reorganized(s.index, s.best, low, o).Some? <==> CanMove(s.index, o, s.best, low)
  {
    hide Tree, Chain, Fork, Above, Unlink, Link;
    OneRootHasForks(s, low);
    ForkOtherWay(s.index, s.best, low);
    ForkBelow(s.index, s.best, low);
    var f := Fork(s.index, s.best, low).value;
    var down, up := Reverse(Above(s.index, s.best, f)), Above(s.index, low, f);
    forall h ensures h in down <==> h in Chain(s.index, s.best) && h !in Chain(s.index, low) {
      AboveIsOwn(s.index, s.best, low, h);
      InReverse(Above(s.index, s.best, f), h);
    }
    forall h ensures h in up <==> h in Chain(s.index, low) && h !in Chain(s.index, s.best) {
      AboveIsOwn(s.index, low, s.best, h);
    }
  }

  lemma InReverse(hs: seq<Hash>, h: Hash)
    ensures h in Reverse(hs) <==> h in hs
  {
    if h in hs {
      var i :| 0 <= i < |hs| && hs[i] == h;
      assert Reverse(hs)[|hs| - 1 - i] == h;
    }
    if h in Reverse(hs) {
      var i :| 0 <= i < |hs| && Reverse(hs)[i] == h;
      assert hs[|hs| - 1 - i] == h;
    }
  }

  /** A new best block is accepted exactly if its transaction begins and either,
      on top of the recorded hash, it attaches and is committed, or every block
      that only the old chain has can be disconnected, every block that only the
      new chain has up to its tail can be connected, and that is committed. */
  lemma SetBestSucceeds(s: State, o: Oracle, pindexNew: Hash, hashPrev: Hash, low: Hash)
    requires Valid(s) && pindexNew in s.index && IsTail(s.index, s.nBestTrust, pindexNew, low)
    ensures SetBest(s, o, pindexNew, hashPrev).0 <==>
      o.begins &&
      if hashPrev == s.hashBest then o.attaches(pindexNew) && o.commitsInner(pindexNew)
      else CanMove(s.index, o, s.best, low)
  {
    hide Tree, Chain, Attach, Postponed, Reorganized, SetParentNext, CanMove, IsTail, Link, Unlink;
    if o.begins && hashPrev != s.hashBest {
      PostponedTail(s.index, s.nBestTrust, pindexNew);
      TailIsUnique(s.index, s.nBestTrust, pindexNew, low, Postponed(s.index, s.nBestTrust, pindexNew).1);
      PostponedIsAbove(s.index, s.nBestTrust, pindexNew);
      ReorganizedIff(s, o, low);
      if Reorganized(s.index, s.best, low, o).Some? { AttachKnown(s, o, pindexNew, low); }
    }
  }

  lemma AttachKnown(s: State, o: Oracle, pindexNew: Hash, low: Hash)
    requires Valid(s) && pindexNew in s.index && low in s.index
    requires low == Postponed(s.index, s.nBestTrust, pindexNew).1 && Reorganized(s.index, s.best, low, o).Some?
    ensures var m := Reorganized(s.index, s.best, low, o).value;
      var a := Attach(Attachment(m, pindexNew, s.nInvalidTrust), o, Reverse(Postponed(s.index, s.nBestTrust, pindexNew).0));
      Tree(a.index) && SameTree(s.index, a.index) && a.index.Keys == s.index.Keys && a.best in a.index
  {
    hide Tree, Chain, Attach, Postponed, Reorganized;
    ReorganizedKeeps(s.index, s.best, low, o);
    var m := Reorganized(s.index, s.best, low, o).value;
    PostponedReady(s.index, m, s.nBestTrust, pindexNew, s.nInvalidTrust);
    var hs := Postponed(s.index, s.nBestTrust, pindexNew).0;
    AttachKeeps(s.index, Attachment(m, pindexNew, s.nInvalidTrust), o, pindexNew, Reverse(hs), s.index[low].nHeight,
                s.nBestTrust);
  }

  // --------------------------------------------------------------- postponed blocks

  /** All that attaching a postponed block takes. */
  predicate Works(o: Oracle, h: Hash) { o.readsBack(h) && o.beginsAgain(h) && o.attaches(h) && o.commitsInner(h) }

  /** The position from k on of the first block with which that does not work. */
  function FirstStop(o: Oracle, c: seq<Hash>, k: nat): (j: nat)
    requires k <= |c|
    ensures k <= j <= |c| && (forall x | k <= x < j :: Works(o, c[x])) && (j < |c| ==> !Works(o, c[j]))
    decreases |c| - k
  {
    if k == |c| || !Works(o, c[k]) then k else FirstStop(o, c, k + 1)
  }

  /** The block cannot be read back or its transaction not begun: the loop ends
      without a word about the tip. */
  predicate Interrupts(o: Oracle, h: Hash) { !o.readsBack(h) || !o.beginsAgain(h) }

  function Greater(a: nat, b: nat): nat { if a > b then a else b }

  /** The postponed blocks up to the first failure are attached; the tip is the
      block before it, or the new block if nothing failed or the loop was interrupted. */
  lemma {:induction false} AttachUpTo(m: BlockMap, a: Attachment, o: Oracle, top: Hash, todo: seq<Hash>, i: nat)
    requires Tree(m) && top in m && Ready(m, a, top, todo, i)
    ensures var c := Chain(m, top); var j := FirstStop(o, c, i + 1); var b := Attach(a, o, todo);
      && b.best == (if j == |c| || Interrupts(o, c[j]) then top else c[j - 1])
      && b.nInvalidTrust ==
         if j < |c| && !Interrupts(o, c[j]) && !o.attaches(c[j]) then Greater(a.nInvalidTrust, m[c[j]].nChainTrust)
         else a.nInvalidTrust
    decreases |todo|
  {
    hide Tree, SetParentNext, Chain;
    var c := Chain(m, top);
    if todo != [] {
      ReadyStep(m, a, top, todo, i);
      assert c[i + 1] == todo[0] && c[i + 1] in m;
      assert m[todo[0]].(pnext := None) == a.index[todo[0]].(pnext := None);
      if Works(o, todo[0]) {
        AttachUpTo(m, a.(index := SetParentNext(a.index, todo[0], Some(todo[0]))), o, top, todo[1..], i + 1);
      }
    }
  }

  /** The tip, the recorded hash and the greatest invalid trust after a success. */
  lemma SetBestReaches(s: State, o: Oracle, pindexNew: Hash, hashPrev: Hash, low: Hash)
    requires Valid(s) && pindexNew in s.index && IsTail(s.index, s.nBestTrust, pindexNew, low)
    requires SetBest(s, o, pindexNew, hashPrev).0
    ensures var t := SetBest(s, o, pindexNew, hashPrev).1; var c := Chain(s.index, pindexNew);
      var j := FirstStop(o, c, s.index[low].nHeight + 1);
      var all := hashPrev == s.hashBest || j == |c|;
      && t.hashBest == pindexNew
      && t.best == (if all || Interrupts(o, c[j]) then pindexNew else c[j - 1])
      && t.nInvalidTrust == if !all && !Interrupts(o, c[j]) && !o.attaches(c[j])
                            then Greater(s.nInvalidTrust, s.index[c[j]].nChainTrust) else s.nInvalidTrust
  {
    hide Tree, Chain, SetBest, FirstStop, IsTail, Valid;
    ValidTree(s);
    SetBestSucceeds(s, o, pindexNew, hashPrev, low);
    if hashPrev == s.hashBest {
      DirectReaches(s, o, pindexNew, hashPrev);
    } else {
      MovedReaches(s, o, pindexNew, hashPrev, low);
    }
  }

  lemma DirectReaches(s: State, o: Oracle, pindexNew: Hash, hashPrev: Hash)
    requires Valid(s) && pindexNew in s.index && hashPrev == s.hashBest && SetBest(s, o, pindexNew, hashPrev).0
    ensures var t := SetBest(s, o, pindexNew, hashPrev).1;
      t.hashBest == t.best == pindexNew && t.nInvalidTrust == s.nInvalidTrust
  {
    hide Tree, Chain, Attach, Postponed, Reorganized, SetParentNext;
  }

  lemma MovedReaches(s: State, o: Oracle, pindexNew: Hash, hashPrev: Hash, low: Hash)
    requires Valid(s) && pindexNew in s.index && IsTail(s.index, s.nBestTrust, pindexNew, low)
    requires o.begins && hashPrev != s.hashBest && CanMove(s.index, o, s.best, low)
    ensures var t := SetBest(s, o, pindexNew, hashPrev).1; var c := Chain(s.index, pindexNew);
      var j := FirstStop(o, c, s.index[low].nHeight + 1);
      && t.hashBest == pindexNew
      && t.best == (if j == |c| || Interrupts(o, c[j]) then pindexNew else c[j - 1])
      && t.nInvalidTrust == if j < |c| && !Interrupts(o, c[j]) && !o.attaches(c[j])
                            then Greater(s.nInvalidTrust, s.index[c[j]].nChainTrust) else s.nInvalidTrust
  {
    hide Tree, Chain, Attach, Postponed, Reorganized, SetBest, FirstStop, CanMove, Ready, SameTree, Trusted, IsAncestor,
         Valid, IsTail;
    ValidTree(s);
    TailKnown(s.index, s.nBestTrust, pindexNew, low);
    ReorganizedIff(s, o, low);
    PostponedTail(s.index, s.nBestTrust, pindexNew);
    TailIsUnique(s.index, s.nBestTrust, pindexNew, low, Postponed(s.index, s.nBestTrust, pindexNew).1);
    var m := Reorganized(s.index, s.best, low, o).value;
    ReorganizedKeeps(s.index, s.best, low, o);
    SetBestMoved(s, o, pindexNew, hashPrev, low);
    PostponedReady(s.index, m, s.nBestTrust, pindexNew, s.nInvalidTrust);
    AttachUpTo(s.index, Attachment(m, pindexNew, s.nInvalidTrust), o, pindexNew,
               Reverse(Postponed(s.index, s.nBestTrust, pindexNew).0), s.index[low].nHeight);
  }

  lemma SetBestMoved(s: State, o: Oracle, pindexNew: Hash, hashPrev: Hash, low: Hash)
    requires Valid(s) && pindexNew in s.index && low in s.index && o.begins && hashPrev != s.hashBest
    requires low == Postponed(s.index, s.nBestTrust, pindexNew).1 && Reorganized(s.index, s.best, low, o).Some?
    ensures var m := Reorganized(s.index, s.best, low, o).value;
      var a := Attach(Attachment(m, pindexNew, s.nInvalidTrust), o, Reverse(Postponed(s.index, s.nBestTrust, pindexNew).0));
      a.best in a.index &&
      SetBest(s, o, pindexNew, hashPrev) == (true, Finish(s.(nInvalidTrust := a.nInvalidTrust), a.index, a.best, pindexNew))
  {
    hide Tree, Chain, Attach, Postponed, Reorganized, Finish, SameTree;
    AttachKnown(s, o, pindexNew, low);
  }

  /** A failure changes nothing but the greatest invalid trust, which is raised if
      the block could not be attached or the chain not be moved. */
  lemma SetBestFails(s: State, o: Oracle, pindexNew: Hash, hashPrev: Hash, low: Hash)
    requires Valid(s) && pindexNew in s.index && IsTail(s.index, s.nBestTrust, pindexNew, low)
    requires !SetBest(s, o, pindexNew, hashPrev).0
    ensures var blamed := o.begins && (hashPrev == s.hashBest ==> !o.attaches(pindexNew));
      SetBest(s, o, pindexNew, hashPrev).1 ==
      s.(nInvalidTrust := if blamed then Greater(s.nInvalidTrust, s.index[pindexNew].nChainTrust) else s.nInvalidTrust)
  {
    hide Tree, Chain, Attach, Postponed, Reorganized, SetParentNext, Link, Unlink;
    if o.begins && hashPrev != s.hashBest {
      PostponedTail(s.index, s.nBestTrust, pindexNew);
      TailIsUnique(s.index, s.nBestTrust, pindexNew, low, Postponed(s.index, s.nBestTrust, pindexNew).1);
      PostponedIsAbove(s.index, s.nBestTrust, pindexNew);
      if Reorganized(s.index, s.best, low, o).Some? { AttachKnown(s, o, pindexNew, low); }
    }
  }

  /** A new block is accepted exactly if it is new, its stake modifier is found,
      it is stored, and, should it have more trust than the best block, it is
      accepted as the best one. */
  lemma AddBlockSucceeds(s: State, o: Oracle, hash: Hash, hashPrev: Hash, bnTarget: int)
    requires Valid(s) && hashPrev in s.index
    ensures var trust := (s.index[hashPrev].nChainTrust + GetBlockTrust(bnTarget)) % UINT256;
      var t := s.(index := s.index[hash := BlockIndex(Some(hashPrev), None, s.index[hashPrev].nHeight + 1, bnTarget, trust)]);
      && (hash !in s.index ==> Valid(t))
      && (AddBlock(s, o, hash, hashPrev, bnTarget).0 <==>
            hash !in s.index && o.modifierOk && o.stored &&
            (trust > s.nBestTrust ==> SetBest(t, o, hash, hashPrev).0))
      && AddBlock(s, o, hash, hashPrev, bnTarget).1 ==
         if hash in s.index || !o.modifierOk then s
         else if !o.stored || trust <= s.nBestTrust then t
         else SetBest(t, o, hash, hashPrev).1
  {
    hide Tree, Chain, SetBest, GetBlockTrust, Valid;
    ValidTree(s);
    AddedIsSound(s, hash, hashPrev, bnTarget);
    if hash !in s.index { ValidTree(s.(index := s.index[hash := Child(s.index, hashPrev, bnTarget)])); }
  }

  // ------------------------------------------------------------------------- a run

  /** A call in which a tip is taken over that its blocks have not all been
      connected for: on top of a recorded hash that is not the best block, or
      after an interruption. */
  ghost predicate Unsound(s: State, o: Oracle, pindexNew: Hash, hashPrev: Hash)
    requires Valid(s) && pindexNew in s.index
  {
    o.begins &&
    if hashPrev == s.hashBest then o.attaches(pindexNew) && o.commitsInner(pindexNew) && s.hashBest != s.best
    else
      var c := Chain(s.index, pindexNew);
      exists low ::
        && IsTail(s.index, s.nBestTrust, pindexNew, low) && CanMove(s.index, o, s.best, low)
        && var j := FirstStop(o, c, s.index[low].nHeight + 1); j < |c| && Interrupts(o, c[j])
  }

  predicate ConnectedIn(o: Oracle, h: Hash) { (o.connects(h) && o.commits) || (o.attaches(h) && o.commitsInner(h)) }

  /** After a sound call every block of the best chain was in the old one or was
      connected in the call. */
  lemma SetBestConnects(s: State, o: Oracle, pindexNew: Hash, hashPrev: Hash)
    requires Valid(s) && pindexNew in s.index && s.index[pindexNew].pprev == Some(hashPrev)
    requires !Unsound(s, o, pindexNew, hashPrev)
    ensures var t := SetBest(s, o, pindexNew, hashPrev).1;
      Valid(t) && forall h | h in Chain(t.index, t.best) :: h in Chain(s.index, s.best) || ConnectedIn(o, h)
  {
    hide Tree, Chain, SetBest, CanMove, FirstStop, IsTail, Postponed, ConnectedIn, Valid, SameTree;
    ValidTree(s);
    PostponedTail(s.index, s.nBestTrust, pindexNew);
    var low := Postponed(s.index, s.nBestTrust, pindexNew).1;
    TailKnown(s.index, s.nBestTrust, pindexNew, low);
    SetBestKeeps(s, o, pindexNew, hashPrev);
    var (ok, t) := SetBest(s, o, pindexNew, hashPrev);
    ValidTree(t);
    if ok {
      SetBestSucceeds(s, o, pindexNew, hashPrev, low);
      SetBestReaches(s, o, pindexNew, hashPrev, low);
      if hashPrev == s.hashBest {
        DirectConnects(s, t, o, pindexNew);
      } else {
        MovedConnects(s, o, pindexNew, low, t.best);
        SameChain(s.index, t.index, t.best);
      }
    }
  }

  lemma TailKnown(m: BlockMap, nBestTrust: nat, h: Hash, low: Hash)
    requires Tree(m) && h in m && IsTail(m, nBestTrust, h, low)
    ensures low in m && 0 <= m[low].nHeight < |Chain(m, h)| && Chain(m, h)[m[low].nHeight] == low
  {
    hide Tree, Chain;
  }

  lemma DirectConnects(s: State, t: State, o: Oracle, pindexNew: Hash)
    requires Tree(s.index) && Tree(t.index) && SameTree(s.index, t.index) && s.best in s.index && t.best == pindexNew
    requires pindexNew in s.index && s.index[pindexNew].pprev == Some(s.best)
    requires o.attaches(pindexNew) && o.commitsInner(pindexNew)
    ensures pindexNew in t.index
    ensures forall h | h in Chain(t.index, pindexNew) :: h in Chain(s.index, s.best) || ConnectedIn(o, h)
  {
    hide Tree, Chain;
    Parent(s.index, pindexNew);
    SameChain(s.index, t.index, pindexNew);
  }

  lemma MovedConnects(s: State, o: Oracle, pindexNew: Hash, low: Hash, best: Hash)
    requires Tree(s.index) && s.best in s.index && pindexNew in s.index && low in s.index
    requires 0 <= s.index[low].nHeight < |Chain(s.index, pindexNew)|
    requires Chain(s.index, pindexNew)[s.index[low].nHeight] == low && CanMove(s.index, o, s.best, low)
    requires var c := Chain(s.index, pindexNew);
      var j := FirstStop(o, c, s.index[low].nHeight + 1);
      best == if j == |c| then pindexNew else c[j - 1]
    ensures best in s.index
    ensures forall h | h in Chain(s.index, best) :: h in Chain(s.index, s.best) || ConnectedIn(o, h)
  {
    hide Tree, Chain, FirstStop, ConnectedIn, CanMove;
    CanMoveUp(s.index, o, s.best, low, Chain(s.index, s.best), Chain(s.index, low));
    var c, k := Chain(s.index, pindexNew), s.index[low].nHeight;
    var j := FirstStop(o, c, k + 1);
    assert c[|c| - 1] == pindexNew;
    assert best == c[j - 1];
    ChainPrefix(s.index, pindexNew, j - 1);
    ChainPrefix(s.index, pindexNew, k);
    assert Chain(s.index, low) == c[..k + 1] && Chain(s.index, best) == c[..j];
    UpToStop(o, Chain(s.index, s.best), c, k, j);
  }

  lemma CanMoveUp(m: BlockMap, o: Oracle, best: Hash, low: Hash, was: seq<Hash>, up: seq<Hash>)
    requires Tree(m) && best in m && low in m && CanMove(m, o, best, low)
    requires was == Chain(m, best) && up == Chain(m, low)
    ensures o.commits && forall h | h in up && h !in was :: o.connects(h)
  {
    hide Tree, Chain;
  }

  lemma UpToStop(o: Oracle, was: seq<Hash>, c: seq<Hash>, k: nat, j: nat)
    requires k < |c| && j == FirstStop(o, c, k + 1) && o.commits
    requires forall h | h in c[..k + 1] && h !in was :: o.connects(h)
    ensures forall h | h in c[..j] :: h in was || ConnectedIn(o, h)
  {
    hide FirstStop;
    forall h | h in c[..j] ensures h in was || ConnectedIn(o, h) {
      var i :| 0 <= i < j && c[i] == h;
      if i <= k {
        assert c[..k + 1][i] == h;
      } else {
        assert Works(o, c[i]);
      }
    }
  }

  /** The state in which a call chooses, its candidate and the predecessor. */
  ghost predicate UnsoundCall(t: State, c: Call) {
    Allowed(t, c) &&
    match c
    case Add(o, hash, hashPrev, bnTarget) =>
      (AddedIsSound(t, hash, hashPrev, bnTarget);
       MakesBest(t, o, hash, hashPrev, bnTarget) &&
       Unsound(t.(index := t.index[hash := Child(t.index, hashPrev, bnTarget)]), o, hash, hashPrev))
    case Select(o, hash) => Unsound(t, o, hash, t.index[hash].pprev.value)
  }

  lemma ApplyConnects(t: State, c: Call)
    requires Allowed(t, c) && !UnsoundCall(t, c)
    ensures var u := Apply(t, c);
      Valid(u) && forall h | h in Chain(u.index, u.best) :: h in Chain(t.index, t.best) || ConnectedIn(c.o, h)
  {
    hide Tree, Chain, SetBest, Unsound, ConnectedIn, Child;
    match c
    case Select(o, hash) => SetBestConnects(t, o, hash, t.index[hash].pprev.value);
    case Add(o, hash, hashPrev, bnTarget) =>
      AddImproves(t, o, hash, hashPrev, bnTarget);
      if hash !in t.index && o.modifierOk {
        AddedIsValid(t, hash, hashPrev, bnTarget);
        ParentIs(t.index, hashPrev, bnTarget);
        var v := t.(index := t.index[hash := Child(t.index, hashPrev, bnTarget)]);
        SameChain(t.index, v.index, t.best);
        if MakesBest(t, o, hash, hashPrev, bnTarget) { SetBestConnects(v, o, hash, hashPrev); }
      }
  }

  lemma ParentIs(m: BlockMap, prev: Hash, bnTarget: int)
    requires prev in m
    ensures Child(m, prev, bnTarget).pprev == Some(prev)
  {
  }

  /** Unless a call was unsound, every block of the best chain above the genesis
      block was connected in some call of the run. */
  lemma {:induction false} RunConnects(genesis: Hash, bnTarget: int, calls: seq<Call>)
    requires forall n | 0 <= n < |calls| :: !UnsoundCall(Run(Start(genesis, bnTarget), calls[..n]), calls[n])
    ensures var s := Run(Start(genesis, bnTarget), calls);
      Valid(s) && forall h | h in Chain(s.index, s.best) ::
        h == genesis || exists n | 0 <= n < |calls| :: ConnectedIn(calls[n].o, h)
    decreases |calls|
  {
    hide Valid, Apply, Allowed, UnsoundCall, ConnectedIn;
    var start := Start(genesis, bnTarget);
    StartIsValid(genesis, bnTarget);
    RunKeeps(start, calls);
    if calls == [] {
      OnlyGenesis(genesis, bnTarget);
    } else {
      var k := |calls| - 1;
      forall n | 0 <= n < k ensures !UnsoundCall(Run(start, calls[..k][..n]), calls[..k][n]) {
        assert calls[..k][..n] == calls[..n];
      }
      RunConnects(genesis, bnTarget, calls[..k]);
      var t := Run(start, calls[..k]);
      assert !UnsoundCall(Run(start, calls[..k]), calls[k]);
      if Allowed(t, calls[k]) { ApplyConnects(t, calls[k]); }
      ValidTree(Run(start, calls));
      ValidTree(t);
      var u := Run(start, calls);
      forall h | h in Chain(u.index, u.best)
        ensures h == genesis || exists n | 0 <= n < |calls| :: ConnectedIn(calls[n].o, h)
      {
        if h in Chain(t.index, t.best) && h != genesis {
          var n :| 0 <= n < k && ConnectedIn(calls[..k][n].o, h);
          assert ConnectedIn(calls[n].o, h);
        }
      }
    }
  }

  lemma ValidTree(s: State)
    requires Valid(s)
    ensures Tree(s.index) && s.best in s.index
  {
  }

  lemma OnlyGenesis(genesis: Hash, bnTarget: int)
    ensures var s := Start(genesis, bnTarget); Valid(s) && Chain(s.index, s.best) == [genesis]
  {
    StartIsValid(genesis, bnTarget);
  }
}
