// The forward links: from the root they trace the chain of the best block.
module Relinking {
  import opened HashType
  import opened Options
  import opened Sequences
  import opened ChainTree
  import opened BestChain

  /** The successor of h on the way to tip. */
  function NextOn(m: BlockMap, tip: Hash, h: Hash): Option<Hash>
    requires Tree(m) && tip in m && h in m
  {
    var c := Chain(m, tip);
    if 0 <= m[h].nHeight < |c| - 1 && c[m[h].nHeight] == h then Some(c[m[h].nHeight + 1]) else None
  }

  /** Exactly the ancestors of tip have a forward link, each to the next on the way. */
  ghost predicate Traced(m: BlockMap, tip: Hash) {
    Tree(m) && tip in m && forall h | h in m :: m[h].pnext == NextOn(m, tip, h)
  }

  /** A block with a forward link is taken to be in the main chain; such links make that exact. */
  predicate IsInMainChain(m: BlockMap, best: Hash, h: Hash)
    requires h in m
  {
    m[h].pnext.Some? || h == best
  }

  lemma MainChainIsAncestors(m: BlockMap, best: Hash, h: Hash)
    requires Traced(m, best) && h in m
    ensures IsInMainChain(m, best, h) <==> IsAncestor(m, h, best)
  {
    if IsAncestor(m, h, best) { AncestorHeight(m, h, best); }
  }

  lemma SetParentKeeps(m: BlockMap, h: Hash, pnext: Option<Hash>)
    requires Tree(m)
    ensures var n := SetParentNext(m, h, pnext); Tree(n) && SameTree(m, n) && n.Keys == m.Keys
  {
    hide Tree, SetNext;
    if h in m && m[h].pprev.Some? { SetNextKeepsTree(m, m[h].pprev.value, pnext); }
  }

  lemma SameTreeTwice(a: BlockMap, b: BlockMap, c: BlockMap)
    requires SameTree(a, b) && SameTree(b, c)
    ensures SameTree(a, c)
  {
  }

  lemma {:induction false} UnlinkKeeps(m: BlockMap, hs: seq<Hash>)
    requires Tree(m)
    ensures var n := Unlink(m, hs); Tree(n) && SameTree(m, n) && n.Keys == m.Keys
  {
    hide Tree, SetParentNext;
    if hs != [] {
      UnlinkKeeps(m, hs[..|hs| - 1]);
      SetParentKeeps(Unlink(m, hs[..|hs| - 1]), hs[|hs| - 1], None);
    }
  }

  lemma {:induction false} LinkKeeps(m: BlockMap, hs: seq<Hash>)
    requires Tree(m)
    ensures var n := Link(m, hs); Tree(n) && SameTree(m, n) && n.Keys == m.Keys
  {
    hide Tree, SetParentNext;
    if hs != [] {
      LinkKeeps(m, hs[..|hs| - 1]);
      SetParentKeeps(Link(m, hs[..|hs| - 1]), hs[|hs| - 1], Some(hs[|hs| - 1]));
    }
  }

  // --------------------------------------------------------------- one link at a time

  lemma NextInChild(m: BlockMap, p: Hash, q: Hash, h: Hash)
    requires Tree(m) && q in m && m[q].pprev == Some(p) && h in m
    ensures p in m && (h != p ==> NextOn(m, q, h) == NextOn(m, p, h))
    ensures p in m && NextOn(m, q, p) == Some(q) && NextOn(m, p, p) == None
  {
    hide Tree, Chain;
    Parent(m, q);
    HeightNotNegative(m, p);
    assert Chain(m, q) == Chain(m, p) + [q];
    assert Chain(m, p)[|Chain(m, p)| - 1] == p;
  }

  lemma NextSame(m: BlockMap, n: BlockMap, tip: Hash, h: Hash)
    requires Tree(m) && Tree(n) && SameTree(m, n) && tip in m && h in m
    ensures NextOn(n, tip, h) == NextOn(m, tip, h)
  {
    hide Tree, Chain;
    SameChain(m, n, tip);
    assert m[h].(pnext := None) == n[h].(pnext := None);
  }

  lemma LinkStep(m: BlockMap, p: Hash, q: Hash)
    requires Traced(m, p) && q in m && m[q].pprev == Some(p)
    ensures Traced(SetParentNext(m, q, Some(q)), q)
  {
    hide Tree, NextOn;
    var n := SetParentNext(m, q, Some(q));
    SetParentKeeps(m, q, Some(q));
    forall h | h in n ensures n[h].pnext == NextOn(n, q, h) {
      NextSame(m, n, q, h);
      NextInChild(m, p, q, h);
    }
  }

  lemma UnlinkStep(m: BlockMap, p: Hash, q: Hash)
    requires Traced(m, q) && m[q].pprev == Some(p)
    ensures Traced(SetParentNext(m, q, None), p)
  {
    hide Tree, NextOn;
    var n := SetParentNext(m, q, None);
    SetParentKeeps(m, q, None);
    Parent(m, q);
    NextInChild(m, p, q, p);
    forall h | h in n ensures n[h].pnext == NextOn(n, p, h) {
      NextSame(m, n, p, h);
      NextInChild(m, p, q, h);
    }
  }

  // -------------------------------------------------------------------- reorganising

  lemma {:induction false} UnlinkTraced(m: BlockMap, tip: Hash, hs: seq<Hash>, k: nat)
    requires Traced(m, tip) && k <= |hs| < |Chain(m, tip)|
    requires forall i | 0 <= i < |hs| :: hs[i] == Chain(m, tip)[|Chain(m, tip)| - 1 - i]
    ensures Traced(Unlink(m, hs[..k]), Chain(m, tip)[|Chain(m, tip)| - 1 - k])
  {
    hide Tree, Traced, SetParentNext, Chain;
    TracedTree(m, tip);
    var c := Chain(m, tip);
    if k == 0 {
      assert hs[..0] == [];
    } else {
      UnlinkTraced(m, tip, hs, k - 1);
      assert hs[..k][..k - 1] == hs[..k - 1];
      var n := Unlink(m, hs[..k - 1]);
      UnlinkKeeps(m, hs[..k - 1]);
      ParentOnChain(m, n, tip, |c| - k);
      UnlinkStep(n, c[|c| - 1 - k], hs[k - 1]);
    }
  }

  lemma ParentOnChain(m: BlockMap, n: BlockMap, tip: Hash, i: nat)
    requires Tree(m) && SameTree(m, n) && tip in m && 0 < i < |Chain(m, tip)|
    ensures var c := Chain(m, tip); c[i] in n && n[c[i]].pprev == Some(c[i - 1])
  {
    hide Tree, Chain;
    var c := Chain(m, tip);
    ChainPrefix(m, tip, i);
    assert m[c[i]].(pnext := None) == n[c[i]].(pnext := None);
  }

  lemma {:induction false} LinkTraced(m: BlockMap, n: BlockMap, tip: Hash, from: nat, hs: seq<Hash>, k: nat)
    requires Tree(m) && SameTree(m, n) && tip in m && from + |hs| < |Chain(m, tip)| && k <= |hs|
    requires forall i | 0 <= i < |hs| :: hs[i] == Chain(m, tip)[from + 1 + i]
    requires Traced(n, Chain(m, tip)[from])
    ensures Traced(Link(n, hs[..k]), Chain(m, tip)[from + k])
  {
    hide Tree, Traced, SetParentNext, Chain;
    var c := Chain(m, tip);
    if k == 0 {
      assert hs[..0] == [];
    } else {
      LinkTraced(m, n, tip, from, hs, k - 1);
      assert hs[..k][..k - 1] == hs[..k - 1];
      TracedTree(n, c[from]);
      LinkKeeps(n, hs[..k - 1]);
      SameTreeTwice(m, n, Link(n, hs[..k - 1]));
      ParentOnChain(m, Link(n, hs[..k - 1]), tip, from + k);
      LinkStep(Link(n, hs[..k - 1]), c[from + k - 1], hs[k - 1]);
    }
  }

  lemma TracedTree(m: BlockMap, tip: Hash)
    requires Traced(m, tip)
    ensures Tree(m) && tip in m
  {
  }

  lemma DownTraced(m: BlockMap, tip: Hash, f: Hash)
    requires Traced(m, tip) && f in m && 0 <= m[f].nHeight <= m[tip].nHeight && Chain(m, tip)[m[f].nHeight] == f
    ensures Traced(Unlink(m, Reverse(Above(m, tip, f))), f)
  {
    hide Traced, Unlink, Reverse, Tree, Chain;
    TracedTree(m, tip);
    var down := Reverse(Above(m, tip, f));
    UnlinkTraced(m, tip, down, |down|);
    assert down[..|down|] == down;
  }

  lemma LastIsTip(m: BlockMap, tip: Hash)
    requires Tree(m) && tip in m
    ensures |Chain(m, tip)| == m[tip].nHeight + 1 && Chain(m, tip)[m[tip].nHeight] == tip
  {
    HeightNotNegative(m, tip);
  }

  lemma UpTraced(m: BlockMap, n: BlockMap, tip: Hash, f: Hash)
    requires Tree(m) && SameTree(m, n) && Traced(n, f) && tip in m
    requires f in m && 0 <= m[f].nHeight <= m[tip].nHeight && Chain(m, tip)[m[f].nHeight] == f
    ensures Traced(Link(n, Above(m, tip, f)), tip)
  {
    hide Tree, Traced, Link, Chain, SameTree;
    var up := Above(m, tip, f);
    LastIsTip(m, tip);
    LinkTraced(m, n, tip, m[f].nHeight, up, |up|);
    assert up[..|up|] == up;
  }

  /** A completed reorganisation takes links that trace the old tip's chain to
      links that trace the new tip's, whatever the fork. */
  lemma ReorganizedTraces(m: BlockMap, best: Hash, pindexNew: Hash, o: Oracle)
    requires Traced(m, best) && pindexNew in m && Reorganized(m, best, pindexNew, o).Some?
    ensures Traced(Reorganized(m, best, pindexNew, o).value, pindexNew)
  {
    hide Tree, Traced, Chain, Fork, Above, SameTree, All, Reverse;
    TracedTree(m, best);
    var f := Fork(m, best, pindexNew).value;
    ForkBelow(m, best, pindexNew);
    DownTraced(m, best, f);
    UnlinkKeeps(m, Reverse(Above(m, best, f)));
    UpTraced(m, Unlink(m, Reverse(Above(m, best, f))), pindexNew, f);
  }

  lemma ReorganizedKeeps(m: BlockMap, best: Hash, pindexNew: Hash, o: Oracle)
    requires Tree(m) && best in m && pindexNew in m && Reorganized(m, best, pindexNew, o).Some?
    ensures var n := Reorganized(m, best, pindexNew, o).value; Tree(n) && SameTree(m, n) && n.Keys == m.Keys
  {
    hide Tree, Chain, Fork;
    var f := Fork(m, best, pindexNew).value;
    ForkBelow(m, best, pindexNew);
    var down, up := Reverse(Above(m, best, f)), Above(m, pindexNew, f);
    UnlinkKeeps(m, down);
    LinkKeeps(Unlink(m, down), up);
    SameTreeTwice(m, Unlink(m, down), Link(Unlink(m, down), up));
  }

  /** Under one genesis block the fork is always found: neither error exit is taken. */
  lemma OneRootHasForks(s: State, h: Hash)
    requires Valid(s) && h in s.index
    ensures Fork(s.index, s.best, h).Some?
  {
    hide Tree, Chain;
    RootOf(s.index, s.best);
    RootOf(s.index, h);
    HeightNotNegative(s.index, s.best);
    HeightNotNegative(s.index, h);
    assert Chain(s.index, s.best)[0] in s.index && Chain(s.index, h)[0] in s.index;
    assert Chain(s.index, s.best)[0] == s.genesis && Chain(s.index, h)[0] == s.genesis;
    ForkExists(s.index, s.best, h);
  }
}
