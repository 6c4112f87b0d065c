// The tree of block headers and the paths in it (main.h).
module ChainTree {
  import opened HashType
  import opened Options
  import Limbs

  const UINT256: nat := 0x1_0000_0000_0000_0000_0000_0000_0000_0000_0000_0000_0000_0000_0000_0000_0000_0000

  /** A block index entry; pointers to other entries are their hashes. */
  datatype BlockIndex = BlockIndex(pprev: Option<Hash>, pnext: Option<Hash>, nHeight: int, bnTarget: int,
                                   nChainTrust: nat)

  type BlockMap = map<Hash, BlockIndex>

  function GetBlockTrust(bnTarget: int): (trust: nat)
    ensures trust < UINT256
  {
    if bnTarget <= 0 then 0 else UINT256 / (bnTarget + 1)
  }

  /** The entry of a block on top of prev, and its trust modulo 2^256. */
  function Child(m: BlockMap, prev: Hash, bnTarget: int): BlockIndex
    requires prev in m
  {
    BlockIndex(Some(prev), None, m[prev].nHeight + 1, bnTarget,
               (m[prev].nChainTrust + GetBlockTrust(bnTarget)) % UINT256)
  }

  function Root(bnTarget: int): BlockIndex { BlockIndex(None, None, 0, bnTarget, GetBlockTrust(bnTarget)) }

  /** The entry is a root or sits on its predecessor. */
  predicate Placed(m: BlockMap, h: Hash)
    requires h in m
  {
    match m[h].pprev
    case None => m[h].(pnext := None) == Root(m[h].bnTarget)
    case Some(p) => p in m && m[h].(pnext := None) == Child(m, p, m[h].bnTarget) && m[p].nHeight >= 0
  }

  predicate Tree(m: BlockMap) {
    forall h {:trigger Placed(m, h)} | h in m :: Placed(m, h)
  }

  /** The blocks from the root to h. */
  function Chain(m: BlockMap, h: Hash): (c: seq<Hash>)
    requires Tree(m) && h in m
    ensures |c| == m[h].nHeight + 1 && |c| > 0 && c[|c| - 1] == h
    ensures forall i | 0 <= i < |c| :: c[i] in m
    decreases m[h].nHeight
  {
    assert Placed(m, h);
    match m[h].pprev
    case None => [h]
    case Some(p) => Chain(m, p) + [h]
  }

  lemma HeightNotNegative(m: BlockMap, h: Hash)
    requires Tree(m) && h in m
    ensures m[h].nHeight >= 0
  {
    assert |Chain(m, h)| == m[h].nHeight + 1;
  }

  lemma Parent(m: BlockMap, h: Hash)
    requires Tree(m) && h in m
    ensures m[h].nHeight >= 0 && (m[h].pprev.None? <==> m[h].nHeight == 0)
    ensures m[h].pprev.Some? ==>
      var p := m[h].pprev.value;
      p in m && m[p].nHeight == m[h].nHeight - 1 && Chain(m, h) == Chain(m, p) + [h]
  {
    assert Placed(m, h);
    HeightNotNegative(m, h);
    if m[h].pprev.Some? { HeightNotNegative(m, m[h].pprev.value); }
  }

  predicate IsAncestor(m: BlockMap, a: Hash, h: Hash)
    requires Tree(m) && a in m && h in m
  {
    a in Chain(m, h)
  }

  /** Every block of a chain has the chain up to it as its own. */
  lemma {:induction false} ChainPrefix(m: BlockMap, h: Hash, i: nat)
    requires Tree(m) && h in m && i < |Chain(m, h)|
    ensures Chain(m, Chain(m, h)[i]) == Chain(m, h)[..i + 1]
    ensures m[Chain(m, h)[i]].nHeight == i
    ensures m[Chain(m, h)[i]].pprev == if i == 0 then None else Some(Chain(m, h)[i - 1])
    decreases m[h].nHeight
  {
    var c := Chain(m, h);
    if i < |c| - 1 {
      var p := m[h].pprev.value;
      assert c == Chain(m, p) + [h];
      ChainPrefix(m, p, i);
    } else {
      assert c[..i + 1] == c;
      if i > 0 { assert c[i - 1] == Chain(m, m[h].pprev.value)[i - 1]; }
    }
  }

  lemma SelfAncestor(m: BlockMap, h: Hash)
    requires Tree(m) && h in m
    ensures IsAncestor(m, h, h)
  {
    HeightNotNegative(m, h);
    assert Chain(m, h)[|Chain(m, h)| - 1] == h;
  }

  lemma AncestorHeight(m: BlockMap, a: Hash, h: Hash)
    requires Tree(m) && a in m && h in m && IsAncestor(m, a, h)
    ensures 0 <= m[a].nHeight <= m[h].nHeight && Chain(m, h)[m[a].nHeight] == a
    ensures Chain(m, a) == Chain(m, h)[..m[a].nHeight + 1]
  {
    var i :| 0 <= i < |Chain(m, h)| && Chain(m, h)[i] == a;
    ChainPrefix(m, h, i);
  }

  /** The path depends on the predecessors only. */
  predicate SameTree(m: BlockMap, n: BlockMap) {
    m.Keys <= n.Keys && forall h | h in m :: m[h].(pnext := None) == n[h].(pnext := None)
  }

  lemma {:induction false} SameChain(m: BlockMap, n: BlockMap, h: Hash)
    requires Tree(m) && Tree(n) && SameTree(m, n) && h in m
    ensures Chain(n, h) == Chain(m, h)
    decreases m[h].nHeight
  {
    assert m[h].(pnext := None) == n[h].(pnext := None);
    Parent(m, h);
    match m[h].pprev
    case None =>
    case Some(p) =>
      Parent(m, p);
      SameChain(m, n, p);
  }

  function SetNext(m: BlockMap, h: Hash, pnext: Option<Hash>): BlockMap {
    if h in m then m[h := m[h].(pnext := pnext)] else m
  }

  /** Placement depends on everything but the forward links. */
  lemma PlacedSame(m: BlockMap, n: BlockMap, h: Hash)
    requires SameTree(m, n) && h in m && Placed(m, h)
    ensures h in n && Placed(n, h)
  {
    assert m[h].(pnext := None) == n[h].(pnext := None);
    if m[h].pprev.Some? && m[h].pprev.value in m {
      var p := m[h].pprev.value;
      assert m[p].(pnext := None) == n[p].(pnext := None);
    }
  }

  lemma SetNextKeepsTree(m: BlockMap, h: Hash, pnext: Option<Hash>)
    requires Tree(m)
    ensures Tree(SetNext(m, h, pnext)) && SameTree(m, SetNext(m, h, pnext)) && SetNext(m, h, pnext).Keys == m.Keys
  {
    var n := SetNext(m, h, pnext);
    forall g | g in n ensures Placed(n, g) {
      PlacedSame(m, n, g);
    }
  }

  lemma AddKeepsTree(m: BlockMap, h: Hash, prev: Hash, bnTarget: int)
    requires Tree(m) && prev in m && h !in m
    ensures Tree(m[h := Child(m, prev, bnTarget)]) && SameTree(m, m[h := Child(m, prev, bnTarget)])
  {
    hide GetBlockTrust;
    HeightNotNegative(m, prev);
    var n := m[h := Child(m, prev, bnTarget)];
    forall g | g in n ensures Placed(n, g) {
      if g != h {
        assert Placed(m, g);
        PlacedSame(m, n, g);
      }
    }
  }

  // ------------------------------------------------------------------------ trust

  function SumTrust(m: BlockMap, hs: seq<Hash>): nat
    requires forall i | 0 <= i < |hs| :: hs[i] in m
  {
    if hs == [] then 0 else SumTrust(m, hs[..|hs| - 1]) + GetBlockTrust(m[hs[|hs| - 1]].bnTarget)
  }

  lemma AddModulo(a: nat, b: nat, m: nat)
    requires m > 0
    ensures (a % m + b) % m == (a + b) % m
  {
    var q, r := a / m, a % m + b;
    assert (q + r / m) * m == q * m + r / m * m;
    Limbs.ModUnique(r % m, q + r / m, m, a + b);
  }

  /** The chain trust of a block is the sum of the block trusts up to it, modulo 2^256. */
  lemma {:induction false} TrustIsSum(m: BlockMap, h: Hash)
    requires Tree(m) && h in m
    ensures m[h].nChainTrust == SumTrust(m, Chain(m, h)) % UINT256
    decreases m[h].nHeight
  {
    hide Tree, Chain, GetBlockTrust;
    Parent(m, h);
    TrustOf(m, h);
    var c := Chain(m, h);
    match m[h].pprev
    case None =>
      assert c[..0] == [];
      assert SumTrust(m, c) == SumTrust(m, []) + GetBlockTrust(m[h].bnTarget);
    case Some(p) =>
      HeightNotNegative(m, p);
      TrustIsSum(m, p);
      assert c[..|c| - 1] == Chain(m, p);
      AddModulo(SumTrust(m, Chain(m, p)), GetBlockTrust(m[h].bnTarget), UINT256);
  }

  lemma TrustOf(m: BlockMap, h: Hash)
    requires Tree(m) && h in m
    ensures var own := GetBlockTrust(m[h].bnTarget);
      match m[h].pprev
      case None => m[h].nChainTrust == own % UINT256 && Chain(m, h) == [h]
      case Some(p) => p in m && m[h].nChainTrust == (m[p].nChainTrust + own) % UINT256
  {
    hide GetBlockTrust;
    assert Placed(m, h);
    Limbs.ModUnique(GetBlockTrust(m[h].bnTarget), 0, UINT256, GetBlockTrust(m[h].bnTarget));
  }

  /** A block's trust is 2^256 over one more than its target, rounded down: the
      lower the target, the more trust. */
  lemma BlockTrustIs(bnTarget: int)
    ensures var trust := GetBlockTrust(bnTarget);
      if bnTarget <= 0 then trust == 0
      else trust * (bnTarget + 1) <= UINT256 < (trust + 1) * (bnTarget + 1)
  {
    if bnTarget > 0 {
      Limbs.DivSmaller(UINT256, bnTarget + 1);
      Limbs.Distribute(UINT256 / (bnTarget + 1), 1, bnTarget + 1);
    }
  }

  lemma LowerTargetMoreTrust(a: int, b: int)
    requires 0 < a <= b
    ensures GetBlockTrust(a) >= GetBlockTrust(b)
  {
    hide GetBlockTrust;
    BlockTrustIs(a);
    BlockTrustIs(b);
    var x, y := GetBlockTrust(a), GetBlockTrust(b);
    if x < y {
      Limbs.MulLe(x + 1, y, a + 1);
      Limbs.MulLe(a + 1, b + 1, y);
    }
  }

  // ------------------------------------------------------------------------- fork

  /** Length of the longest common prefix. */
  function Common(a: seq<Hash>, b: seq<Hash>): (k: nat)
    ensures k <= |a| && k <= |b| && a[..k] == b[..k] && (k < |a| && k < |b| ==> a[k] != b[k])
  {
    if a == [] || b == [] || a[0] != b[0] then 0 else
      assert a[..1 + Common(a[1..], b[1..])] == [a[0]] + a[1..][..Common(a[1..], b[1..])];
      assert b[..1 + Common(a[1..], b[1..])] == [b[0]] + b[1..][..Common(a[1..], b[1..])];
      1 + Common(a[1..], b[1..])
  }

  lemma SameAt(a: seq<Hash>, b: seq<Hash>, k: nat)
    requires k <= |a| && k <= |b| && a[..k] == b[..k]
    ensures Common(a, b) >= k
    ensures forall i | 0 <= i < k :: a[i] == b[i]
  {
    forall i | 0 <= i < k ensures a[i] == b[i] {
      assert a[i] == a[..k][i];
    }
  }

  /** The highest block that two chains share. */
  function Fork(m: BlockMap, a: Hash, b: Hash): (f: Option<Hash>)
    requires Tree(m) && a in m && b in m
    ensures f.Some? ==> f.value in m
  {
    var k := Common(Chain(m, a), Chain(m, b));
    if k == 0 then None else Some(Chain(m, a)[k - 1])
  }

  lemma InPrefix(c: seq<Hash>, k: nat, x: Hash)
    requires k <= |c|
    ensures x in c[..k] ==> x in c
  {
  }

  /** It is an ancestor of both, and every common ancestor is one of its ancestors. */
  lemma ForkIsHighest(m: BlockMap, a: Hash, b: Hash, x: Hash)
    requires Tree(m) && a in m && b in m && x in m
    ensures Fork(m, a, b).Some? ==>
      (IsAncestor(m, x, a) && IsAncestor(m, x, b) <==> IsAncestor(m, x, Fork(m, a, b).value))
    ensures Fork(m, a, b).None? ==> !(IsAncestor(m, x, a) && IsAncestor(m, x, b))
  {
    hide Tree, Chain;
    var ca, cb := Chain(m, a), Chain(m, b);
    var k := Common(ca, cb);
    if k > 0 {
      ChainPrefix(m, a, k - 1);
      InPrefix(ca, k, x);
      InPrefix(cb, k, x);
    }
    if IsAncestor(m, x, a) && IsAncestor(m, x, b) {
      AncestorHeight(m, x, a);
      AncestorHeight(m, x, b);
      var i := m[x].nHeight;
      SameAt(ca, cb, i + 1);
      assert k > i && ca[..k][i] == x;
    }
  }

  lemma {:induction false} RootOf(m: BlockMap, h: Hash)
    requires Tree(m) && h in m
    ensures m[Chain(m, h)[0]].pprev.None?
    decreases m[h].nHeight
  {
    Parent(m, h);
    match m[h].pprev
    case None =>
    case Some(p) =>
      Parent(m, p);
      RootOf(m, p);
  }

  /** There is no fork exactly if the chains start from different roots. */
  lemma ForkExists(m: BlockMap, a: Hash, b: Hash)
    requires Tree(m) && a in m && b in m
    ensures Fork(m, a, b).None? <==> Chain(m, a)[0] != Chain(m, b)[0]
  {
    var ca, cb := Chain(m, a), Chain(m, b);
    var k := Common(ca, cb);
    if k > 0 { assert ca[..k][0] == cb[..k][0]; }
  }

  /** pindex is on the way down from top and not yet below the fork at height k - 1. */
  ghost predicate Walking(m: BlockMap, pindex: Hash, top: Hash, k: nat)
    requires Tree(m) && top in m
  {
    && pindex in m && IsAncestor(m, pindex, top) && k <= |Chain(m, pindex)| && 0 <= m[pindex].nHeight
    && Chain(m, pindex) <= Chain(m, top)
  }

  /** The walk that finds the fork, with both of its error exits. */
  method FindFork(m: BlockMap, pindexBest: Hash, pindexNew: Hash) returns (fork: Option<Hash>)
    requires Tree(m) && pindexBest in m && pindexNew in m
    ensures fork == Fork(m, pindexBest, pindexNew)
  {
    hide Chain, Fork, Tree;
    ghost var k := Common(Chain(m, pindexBest), Chain(m, pindexNew));
    var pfork, plonger := pindexBest, pindexNew;
    WalkStart(m, pindexBest, k);
    WalkStart(m, pindexNew, k);
    while pfork != plonger
      invariant Walking(m, pfork, pindexBest, k) && Walking(m, plonger, pindexNew, k)
      invariant pfork in m && plonger in m && m[pfork].nHeight >= 0
      decreases m[pfork].nHeight
    {
      while m[plonger].nHeight > m[pfork].nHeight
        invariant Walking(m, pfork, pindexBest, k) && Walking(m, plonger, pindexNew, k)
        invariant pfork in m && plonger in m && m[pfork].nHeight >= 0
        decreases m[plonger].nHeight
      {
        WalkLonger(m, pfork, plonger, pindexBest, pindexNew, k);
        plonger := m[plonger].pprev.value;
      }
      if pfork == plonger { break; }
      WalkFork(m, pfork, plonger, pindexBest, pindexNew, k);
      if m[pfork].pprev.None? {
        return None;
      }
      pfork := m[pfork].pprev.value;
    }
    WalkEnd(m, pfork, pindexBest, pindexNew, k);
    fork := Some(pfork);
  }

  lemma WalkStart(m: BlockMap, top: Hash, k: nat)
    requires Tree(m) && top in m && k <= |Chain(m, top)|
    ensures Walking(m, top, top, k) && m[top].nHeight >= 0
  {
    hide Tree;
    HeightNotNegative(m, top);
    assert Chain(m, top)[|Chain(m, top)| - 1] == top;
  }

  lemma WalkDown(m: BlockMap, h: Hash, top: Hash, k: nat)
    requires Tree(m) && top in m && Walking(m, h, top, k) && k < |Chain(m, h)| && m[h].pprev.Some?
    ensures Walking(m, m[h].pprev.value, top, k) && m[m[h].pprev.value].nHeight == m[h].nHeight - 1 >= 0
  {
    hide Tree, Chain;
    Parent(m, h);
    var p := m[h].pprev.value;
    HeightNotNegative(m, p);
    assert Chain(m, h) == Chain(m, p) + [h];
    assert Chain(m, p) <= Chain(m, top);
    assert p == Chain(m, p)[|Chain(m, p)| - 1] == Chain(m, top)[|Chain(m, p)| - 1];
  }

  /** The longer side always has a predecessor: its height is above another height. */
  lemma WalkLonger(m: BlockMap, f: Hash, l: Hash, a: Hash, b: Hash, k: nat)
    requires Tree(m) && a in m && b in m && Walking(m, f, a, k) && Walking(m, l, b, k)
    requires m[l].nHeight > m[f].nHeight
    ensures m[l].pprev.Some? && Walking(m, m[l].pprev.value, b, k)
    ensures m[m[l].pprev.value].nHeight == m[l].nHeight - 1 >= 0
  {
    hide Tree, Chain;
    Parent(m, l);
    WalkDown(m, l, b, k);
  }

  lemma WalkFork(m: BlockMap, f: Hash, l: Hash, a: Hash, b: Hash, k: nat)
    requires Tree(m) && a in m && b in m && Walking(m, f, a, k) && Walking(m, l, b, k)
    requires k == Common(Chain(m, a), Chain(m, b))
    requires m[l].nHeight <= m[f].nHeight && f != l
    ensures m[f].pprev.Some? ==>
      Walking(m, m[f].pprev.value, a, k) && m[m[f].pprev.value].nHeight == m[f].nHeight - 1 >= 0
    ensures m[f].pprev.None? ==> Fork(m, a, b) == None
  {
    hide Tree, Chain;
    Parent(m, f);
    var cf, cl := Chain(m, f), Chain(m, l);
    SameLast(cf, cl, Chain(m, a), Chain(m, b), k);
    if m[f].pprev.Some? { WalkDown(m, f, a, k); }
  }

  lemma SameLast(cf: seq<Hash>, cl: seq<Hash>, ca: seq<Hash>, cb: seq<Hash>, k: nat)
    requires k <= |cl| <= |cf| && cf <= ca && cl <= cb && ca[..k] == cb[..k] && cf != []
    ensures k == |cf| ==> cl != [] && cf[|cf| - 1] == cl[|cl| - 1]
  {
    SameAt(ca, cb, k);
  }

  lemma WalkEnd(m: BlockMap, f: Hash, a: Hash, b: Hash, k: nat)
    requires Tree(m) && a in m && b in m && Walking(m, f, a, k) && Walking(m, f, b, k)
    requires k == Common(Chain(m, a), Chain(m, b))
    ensures Fork(m, a, b) == Some(f)
  {
    hide Tree, Chain;
    var ca, cb, n := Chain(m, a), Chain(m, b), |Chain(m, f)|;
    assert ca[..n] == cb[..n] == Chain(m, f);
    SameAt(ca, cb, n);
  }
}
