// The hash tree over a block's transactions: building it, the branch that
// belongs to a transaction, and what checking a branch proves.
module Merkle {

  /** Half the width of a level, rounded up. */
  function Half(n: nat): nat { (n + 1) / 2 }

  function Partner(i: nat, n: nat): (p: nat)
    requires i < n
    ensures p < n
  {
    var x := if i % 2 == 0 then i + 1 else i - 1;
    if x < n - 1 then x else n - 1
  }

  /** Number of levels above the leaves. */
  function Depth(n: nat): nat {
    if n <= 1 then 0 else 1 + Depth(Half(n))
  }

  /** The level above: neighbours are hashed together, an odd one with itself. */
  function Above<Hash>(h: (Hash, Hash) -> Hash, level: seq<Hash>): (up: seq<Hash>)
    ensures |up| == Half(|level|)
  {
    seq(Half(|level|), i requires 0 <= i < Half(|level|) =>
      h(level[2 * i], level[if 2 * i + 1 < |level| then 2 * i + 1 else |level| - 1]))
  }

  function Root<Hash>(h: (Hash, Hash) -> Hash, level: seq<Hash>): Hash
    requires level != []
    decreases |level|
  {
    if |level| == 1 then level[0] else Root(h, Above(h, level))
  }

  /** All levels, leaves first, as the block stores them. */
  function Tree<Hash>(h: (Hash, Hash) -> Hash, level: seq<Hash>): seq<Hash>
    decreases |level|
  {
    if |level| <= 1 then level else level + Tree(h, Above(h, level))
  }

  lemma TreeUp<Hash>(h: (Hash, Hash) -> Hash, level: seq<Hash>)
    ensures if |level| <= 1 then Tree(h, level) == level && (level != [] ==> Root(h, level) == level[0])
            else Tree(h, level) == level + Tree(h, Above(h, level)) && Root(h, level) == Root(h, Above(h, level))
  {
  }

  function TwoTo(d: nat): (n: nat)
    ensures n > 0
  {
    if d == 0 then 1 else 2 * TwoTo(d - 1)
  }

  /** The root of two halves of 2^d leaves each is the hash of their roots, the left one first. */
  lemma {:induction false} RootOfHalves<Hash>(h: (Hash, Hash) -> Hash, a: seq<Hash>, b: seq<Hash>, d: nat)
    requires |a| == |b| == TwoTo(d)
    ensures Root(h, a + b) == h(Root(h, a), Root(h, b))
    decreases d
  {
    if d == 0 {
      assert Above(h, a + b) == [h(a[0], b[0])];
      assert Root(h, Above(h, a + b)) == h(a[0], b[0]);
    } else {
      var x, y := Above(h, a), Above(h, b);
      assert |x| == TwoTo(d - 1) && |y| == TwoTo(d - 1);
      assert Above(h, a + b) == x + y;
      RootOfHalves(h, x, y, d - 1);
    }
  }

  /** The last hash of an odd level counts twice, in any level above the leaves as well. */
  lemma OddCountsTwice<Hash>(h: (Hash, Hash) -> Hash, level: seq<Hash>)
    requires |level| > 1 && |level| % 2 == 1
    ensures Root(h, level) == Root(h, level + [level[|level| - 1]])
  {
    hide Root, Tree;
    var even := level + [level[|level| - 1]];
    assert Above(h, level) == Above(h, even);
    TreeUp(h, level);
    TreeUp(h, even);
  }

  /** A root is that of the level above, which pairs the hashes from the left. */
  lemma RootOfPairs<Hash>(h: (Hash, Hash) -> Hash, level: seq<Hash>, up: seq<Hash>)
    requires |level| > 0 && |level| % 2 == 0 && |up| == |level| / 2
    requires forall i | 0 <= i < |up| :: up[i] == h(level[2 * i], level[2 * i + 1])
    ensures Root(h, level) == Root(h, up)
  {
    hide Root, Tree;
    TreeUp(h, level);
    assert Above(h, level) == up;
  }

  /** The hashes that lead from leaf i to the root. */
  function Branch<Hash>(h: (Hash, Hash) -> Hash, level: seq<Hash>, i: nat): (b: seq<Hash>)
    requires i < |level|
    ensures |b| == Depth(|level|)
    decreases |level|
  {
    if |level| == 1 then [] else [level[Partner(i, |level|)]] + Branch(h, Above(h, level), i / 2)
  }

  /** What a branch leads to from a given hash at a given place. */
  function Climb<Hash>(h: (Hash, Hash) -> Hash, leaf: Hash, branch: seq<Hash>, i: int): Hash
    decreases |branch|
  {
    if branch == [] then leaf
    else Climb(h, if i % 2 == 1 then h(branch[0], leaf) else h(leaf, branch[0]), branch[1..], i / 2)
  }

  lemma TopLevel<Hash>(h: (Hash, Hash) -> Hash, level: seq<Hash>, i: nat)
    requires i < |level|
    ensures [] + Tree(h, level) == Tree(h, level) && [] + Branch(h, level, i) == Branch(h, level, i)
    ensures Tree(h, level) != []
  {
  }

  lemma BranchTop<Hash>(h: (Hash, Hash) -> Hash, level: seq<Hash>, i: nat)
    requires i < |level| == 1
    ensures forall b: seq<Hash> :: b + Branch(h, level, i) == b
  {
  }

  /** Reading one level of the stored tree. */
  lemma LevelUp<Hash>(
    h: (Hash, Hash) -> Hash, tree: seq<Hash>, done: seq<Hash>, level: seq<Hash>, branch: seq<Hash>, n: nat)
    requires n < |level| && |level| > 1 && tree == done + Tree(h, level)
    ensures n / 2 < |Above(h, level)| && |Above(h, level)| >= 1
    ensures tree == (done + level) + Tree(h, Above(h, level)) && |done| + |level| <= |tree|
    ensures branch + Branch(h, level, n)
         == (branch + [tree[|done| + Partner(n, |level|)]]) + Branch(h, Above(h, level), n / 2)
  {
    assert tree == done + (level + Tree(h, Above(h, level)));
    assert tree[|done| + Partner(n, |level|)] == level[Partner(n, |level|)];
  }

  // ------------------------------------------------------------------ the block

  /** A block as far as its hash tree goes: the transaction hashes and the cache. */
  class Block<Hash(0)> {
    const h: (Hash, Hash) -> Hash
    var vtx: seq<Hash>
    var vMerkleTree: seq<Hash>

    constructor (h: (Hash, Hash) -> Hash, vtx: seq<Hash>)
      ensures this.h == h && this.vtx == vtx && vMerkleTree == []
    {
      this.h, this.vtx, vMerkleTree := h, vtx, [];
    }

    method BuildMerkleTree(zero: Hash) returns (root: Hash)
      modifies this`vMerkleTree
      ensures vMerkleTree == Tree(h, vtx)
      ensures root == if vtx == [] then zero else Root(h, vtx)
    {
      hide Above, Tree, Root;
      vMerkleTree := vtx;
      var j := 0;
      var nSize := |vtx|;
      ghost var level := vtx;
      ghost var done: seq<Hash> := [];
      while nSize > 1
        invariant nSize == |level| && j == |done| && vMerkleTree == done + level
        invariant Tree(h, vtx) == done + Tree(h, level)
        invariant vtx != [] ==> level != [] && Root(h, vtx) == Root(h, level)
      {
        ghost var up := Above(h, level);
        TreeUp(h, level);
        assert done + (level + Tree(h, up)) == (done + level) + Tree(h, up);
        HashLevel(j, nSize, level);
        done := done + level;
        level := up;
        j := j + nSize;
        nSize := (nSize + 1) / 2;
      }
      TreeUp(h, level);
      return if |vMerkleTree| == 0 then zero else vMerkleTree[|vMerkleTree| - 1];
    }

    /** Append the level above the one that starts at j. */
    method HashLevel(j: nat, nSize: nat, ghost level: seq<Hash>)
      requires nSize > 1 && nSize == |level| && j + nSize == |vMerkleTree| && vMerkleTree[j..] == level
      modifies this`vMerkleTree
      ensures vMerkleTree == old(vMerkleTree) + Above(h, level)
    {
      var i := 0;
      ghost var up := Above(h, level);
      ghost var before := vMerkleTree;
      while i < nSize
        invariant i % 2 == 0 && 0 <= i <= nSize + 1
        invariant vMerkleTree == before + up[..i / 2]
      {
        var i2 := if i + 1 < nSize - 1 then i + 1 else nSize - 1;
        assert vMerkleTree[j + i] == level[i] && vMerkleTree[j + i2] == level[i2];
        assert up[i / 2] == h(level[i], level[i2]);
        vMerkleTree := vMerkleTree + [h(vMerkleTree[j + i], vMerkleTree[j + i2])];
        assert up[..i / 2 + 1] == up[..i / 2] + [up[i / 2]];
        i := i + 2;
      }
      assert up[..i / 2] == up;
    }

    /** The branch of leaf nIndex.  A cached tree is used as it is. */
    method GetMerkleBranch(nIndex: nat, zero: Hash) returns (vMerkleBranch: seq<Hash>)
      requires nIndex < |vtx|
      requires vMerkleTree == [] || vMerkleTree == Tree(h, vtx)
      modifies this`vMerkleTree
      ensures vMerkleBranch == Branch(h, vtx, nIndex) && vMerkleTree == Tree(h, vtx)
    {
      hide Above, Tree, Branch;
      if vMerkleTree == [] { var _ := BuildMerkleTree(zero); }
      assert vMerkleTree == Tree(h, vtx);
      vMerkleBranch := [];
      TopLevel(h, vtx, nIndex);
      var j, n := 0, nIndex;
      var nSize := |vtx|;
      ghost var level := vtx;
      ghost var done: seq<Hash> := [];
      while nSize > 1
        invariant nSize == |level| >= 1 && j == |done| && 0 <= n < nSize
        invariant vMerkleTree == done + Tree(h, level) == Tree(h, vtx)
        invariant Branch(h, vtx, nIndex) == vMerkleBranch + Branch(h, level, n)
      {
        var x := if n % 2 == 0 then n + 1 else n - 1;
        var i := if x < nSize - 1 then x else nSize - 1;
        LevelUp(h, vMerkleTree, done, level, vMerkleBranch, n);
        vMerkleBranch := vMerkleBranch + [vMerkleTree[j + i]];
        done := done + level;
        level := Above(h, level);
        n := n / 2;
        j := j + nSize;
        nSize := (nSize + 1) / 2;
      }
      BranchTop(h, level, n);
    }

    static method CheckMerkleBranch(h: (Hash, Hash) -> Hash, leaf: Hash, vMerkleBranch: seq<Hash>, nIndex: int, zero: Hash)
      returns (hash: Hash)
      ensures hash == if nIndex == -1 then zero else Climb(h, leaf, vMerkleBranch, nIndex)
    {
      if nIndex == -1 { return zero; }
      hash := leaf;
      var n := nIndex;
      var k := 0;
      while k < |vMerkleBranch|
        invariant 0 <= k <= |vMerkleBranch|
        invariant Climb(h, leaf, vMerkleBranch, nIndex) == Climb(h, hash, vMerkleBranch[k..], n)
      {
        var otherside := vMerkleBranch[k];
        assert vMerkleBranch[k..][1..] == vMerkleBranch[k + 1..];
        if n % 2 == 1 { hash := h(otherside, hash); } else { hash := h(hash, otherside); }
        n := n / 2;
        k := k + 1;
      }
    }
  }

  // ------------------------------------------------------------------- theorems

  function Step<Hash>(h: (Hash, Hash) -> Hash, hash: Hash, other: Hash, i: int): Hash {
    if i % 2 == 1 then h(other, hash) else h(hash, other)
  }

  /** Climbing one level from leaf i with its partner is at place i / 2 above. */
  lemma OneStep<Hash>(h: (Hash, Hash) -> Hash, level: seq<Hash>, i: nat)
    requires i < |level| && |level| > 1
    ensures i / 2 < Half(|level|)
    ensures Step(h, level[i], level[Partner(i, |level|)], i) == Above(h, level)[i / 2]
    ensures forall leaf, other :: Step(h, leaf, other, i) == if i % 2 == 1 then h(other, leaf) else h(leaf, other)
  {
    assert i == 2 * (i / 2) + i % 2;
  }

  /** The branch of every leaf leads to the root. */
  lemma {:induction false} BranchChecks<Hash>(h: (Hash, Hash) -> Hash, level: seq<Hash>, i: nat)
    requires i < |level|
    ensures Climb(h, level[i], Branch(h, level, i), i) == Root(h, level)
    decreases |level|
  {
    hide Above, Partner;
    if |level| > 1 {
      OneStep(h, level, i);
      BranchChecks(h, Above(h, level), i / 2);
      assert Branch(h, level, i)[1..] == Branch(h, Above(h, level), i / 2);
    }
  }

  ghost predicate Injective<Hash(!new)>(h: (Hash, Hash) -> Hash) {
    forall a, b, c, d :: h(a, b) == h(c, d) ==> a == c && b == d
  }

  /** Conversely, where hashing two hashes together loses nothing, a branch of
      the right length that leads to the root starts at the leaf it claims, and
      is that leaf's branch. */
  lemma {:induction false} CheckedBranchIsGenuine<Hash(!new)>(
    h: (Hash, Hash) -> Hash, level: seq<Hash>, leaf: Hash, branch: seq<Hash>, i: nat)
    requires Injective(h) && i < |level| && |branch| == Depth(|level|)
    requires Climb(h, leaf, branch, i) == Root(h, level)
    ensures leaf == level[i] && branch == Branch(h, level, i)
    decreases |level|
  {
    hide Above, Partner;
    if |level| > 1 {
      OneStep(h, level, i);
      var next := Step(h, leaf, branch[0], i);
      CheckedBranchIsGenuine(h, Above(h, level), next, branch[1..], i / 2);
      assert branch == [branch[0]] + branch[1..];
    }
  }

  /** Both directions at once. */
  lemma BranchProvesLeaf<Hash(!new)>(h: (Hash, Hash) -> Hash, level: seq<Hash>, leaf: Hash, branch: seq<Hash>, i: nat)
    requires Injective(h) && i < |level| && |branch| == Depth(|level|)
    ensures Climb(h, leaf, branch, i) == Root(h, level) <==> leaf == level[i] && branch == Branch(h, level, i)
  {
    if Climb(h, leaf, branch, i) == Root(h, level) { CheckedBranchIsGenuine(h, level, leaf, branch, i); }
    else { BranchChecks(h, level, i); }
  }
}
