// Choosing the blocks whose entropy bits make the next stake modifier: kernel.cpp.
module StakeModifier {
  import opened HashType
  import opened Options
  import opened Sequences
  import opened FiniteSets
  import Limbs

  const MODIFIER_INTERVAL: int := 600
  const MODIFIER_INTERVAL_RATIO: int := 3

  /** What selection reads from a block index entry. */
  datatype Block = Block(nTime: nat, hashProof: nat, isProofOfStake: bool, entropyBit: nat, nStakeModifier: nat,
                         generatedModifier: bool)

  type BlockMap = map<Hash, Block>

  type Candidate = (nat, Hash)

  /** Hash of a proof hash together with a modifier. */
  type Hasher = (nat, nat) -> nat

  // ---------------------------------------------------------------------- intervals

  function Section(nSection: nat): (s: int)
    requires nSection < 64
    ensures s > 0
  {
    MODIFIER_INTERVAL * 63 / (63 + (63 - nSection) * (MODIFIER_INTERVAL_RATIO - 1))
  }

  /** Length of the first n sections. */
  function Sections(n: nat): int
    requires n <= 64
  {
    if n == 0 then 0 else Sections(n - 1) + Section(n - 1)
  }

  method GetSelectionInterval() returns (nSelectionInterval: int)
    ensures nSelectionInterval == Sections(64)
  {
    nSelectionInterval := 0;
    for nSection := 0 to 64
      invariant nSelectionInterval == Sections(nSection)
    {
      nSelectionInterval := nSelectionInterval + Section(nSection);
    }
  }

  // ------------------------------------------------------------------------ sorting

  /** The order of pairs: by time, then by hash. */
  predicate Before(a: Candidate, b: Candidate) { a.0 < b.0 || (a.0 == b.0 && a.1 <= b.1) }

  predicate IsSorted(s: seq<Candidate>) { forall i, j | 0 <= i < j < |s| :: Before(s[i], s[j]) }

  function Insert(c: Candidate, s: seq<Candidate>): (r: seq<Candidate>)
    requires IsSorted(s)
    ensures IsSorted(r) && multiset(r) == multiset(s) + multiset{c}
  {
    if s == [] || Before(c, s[0]) then
      [c] + s
    else
      var rest := Insert(c, s[1..]);
      FirstStays(s, c, rest);
      FirstAgain(s, c, rest);
      [s[0]] + rest
  }

  lemma FirstAgain(s: seq<Candidate>, c: Candidate, rest: seq<Candidate>)
    requires s != [] && multiset(rest) == multiset(s[1..]) + multiset{c}
    ensures multiset([s[0]] + rest) == multiset(s) + multiset{c}
  {
    assert s == [s[0]] + s[1..];
  }

  lemma FirstStays(s: seq<Candidate>, c: Candidate, rest: seq<Candidate>)
    requires s != [] && IsSorted(s) && !Before(c, s[0])
    requires multiset(rest) == multiset(s[1..]) + multiset{c}
    ensures forall i | 0 <= i < |rest| :: Before(s[0], rest[i])
  {
    forall i | 0 <= i < |rest| ensures Before(s[0], rest[i]) {
      assert rest[i] in multiset(rest);
      if rest[i] != c {
        assert rest[i] in multiset(s[1..]);
        var j :| 0 <= j < |s[1..]| && s[1..][j] == rest[i];
        assert s[j + 1] == rest[i];
      }
    }
  }

  function Sorted(s: seq<Candidate>): (r: seq<Candidate>)
    ensures IsSorted(r) && multiset(r) == multiset(s)
  {
    if s == [] then [] else
      assert s == [s[0]] + s[1..];
      Insert(s[0], Sorted(s[1..]))
  }

  // ---------------------------------------------------------------------- selection

  /** The selection hash; a proof-of-stake block's is shifted down by 32 bits. */
  function SelectionHash(hash: Hasher, b: Block, nStakeModifierPrev: nat): nat {
    var h := hash(b.hashProof, nStakeModifierPrev);
    if b.isProofOfStake then h / 0x1_0000_0000 else h
  }

  datatype Choice = Missing | Choice(best: Option<Hash>)

  /** The pass over the candidates from k on, with the best one so far. */
  function Scan(index: BlockMap, hash: Hasher, cands: seq<Candidate>, selected: set<Hash>, nStop: int, nPrev: nat,
                k: nat, best: Option<Hash>): Choice
    requires k <= |cands| && (best.Some? ==> best.value in index)
    decreases |cands| - k
  {
    if k == |cands| then Choice(best)
    else if cands[k].1 !in index then Missing
    else
      var h := cands[k].1;
      if best.Some? && index[h].nTime > nStop then Choice(best)
      else if h in selected then Scan(index, hash, cands, selected, nStop, nPrev, k + 1, best)
      else if best.None? ||
              SelectionHash(hash, index[h], nPrev) < SelectionHash(hash, index[best.value], nPrev)
      then Scan(index, hash, cands, selected, nStop, nPrev, k + 1, Some(h))
      else Scan(index, hash, cands, selected, nStop, nPrev, k + 1, best)
  }

  method SelectBlockFromCandidates(index: BlockMap, hash: Hasher, vSortedByTimestamp: seq<Candidate>,
                                   mapSelectedBlocks: set<Hash>, nSelectionIntervalStop: int, nStakeModifierPrev: nat)
    returns (fSelected: bool, pindexSelected: Hash)
    ensures var c := Scan(index, hash, vSortedByTimestamp, mapSelectedBlocks, nSelectionIntervalStop,
                          nStakeModifierPrev, 0, None);
      && (fSelected <==> c.Choice? && c.best.Some?)
      && (fSelected ==> pindexSelected == c.best.value)
  {
    fSelected, pindexSelected := false, 0;
    var hashBest := 0;
    ghost var c := Scan(index, hash, vSortedByTimestamp, mapSelectedBlocks, nSelectionIntervalStop,
                        nStakeModifierPrev, 0, None);
    for k := 0 to |vSortedByTimestamp|
      invariant fSelected ==> pindexSelected in index &&
                              hashBest == SelectionHash(hash, index[pindexSelected], nStakeModifierPrev)
      invariant c == Scan(index, hash, vSortedByTimestamp, mapSelectedBlocks, nSelectionIntervalStop,
                          nStakeModifierPrev, k, if fSelected then Some(pindexSelected) else None)
    {
      var item := vSortedByTimestamp[k].1;
      if item !in index { return false, 0; }
      var pindex := index[item];
      if fSelected && pindex.nTime > nSelectionIntervalStop { return; }
      if item in mapSelectedBlocks { continue; }
      var hashSelection := hash(pindex.hashProof, nStakeModifierPrev);
      if pindex.isProofOfStake { hashSelection := hashSelection / 0x1_0000_0000; }
      if fSelected && hashSelection < hashBest {
        hashBest := hashSelection;
        pindexSelected := item;
      } else if !fSelected {
        fSelected := true;
        hashBest := hashSelection;
        pindexSelected := item;
      }
    }
  }

  /** The candidates are known blocks with their times, in order of time. */
  ghost predicate Indexed(index: BlockMap, cands: seq<Candidate>) {
    forall i | 0 <= i < |cands| :: cands[i].1 in index && index[cands[i].1].nTime == cands[i].0
  }

  ghost predicate DistinctHashes(cands: seq<Candidate>) {
    forall i, j | 0 <= i < j < |cands| :: cands[i].1 != cands[j].1
  }

  predicate Free(cands: seq<Candidate>, selected: set<Hash>, e: nat)
    requires e < |cands|
  {
    cands[e].1 !in selected
  }

  /** Not selected before, and not later than the stop unless nothing before it is left. */
  ghost predicate Eligible(cands: seq<Candidate>, selected: set<Hash>, nStop: int, e: nat)
    requires e < |cands|
  {
    Free(cands, selected, e) && (cands[e].0 <= nStop || forall j | 0 <= j < e :: !Free(cands, selected, j))
  }

  function HashAt(index: BlockMap, hash: Hasher, cands: seq<Candidate>, nPrev: nat, e: nat): nat
    requires e < |cands|
  {
    if cands[e].1 in index then SelectionHash(hash, index[cands[e].1], nPrev) else 0
  }

  /** Of the first n candidates p is the eligible one of least selection hash, the earliest of equals. */
  ghost predicate IsLeast(index: BlockMap, hash: Hasher, cands: seq<Candidate>, selected: set<Hash>, nStop: int,
                          nPrev: nat, n: nat, p: nat)
    requires n <= |cands|
  {
    && p < n && Eligible(cands, selected, nStop, p)
    && (forall e | 0 <= e < n && Eligible(cands, selected, nStop, e) ::
          HashAt(index, hash, cands, nPrev, p) <= HashAt(index, hash, cands, nPrev, e) &&
          (e < p ==> HashAt(index, hash, cands, nPrev, p) < HashAt(index, hash, cands, nPrev, e)))
  }

  ghost predicate IsChosen(index: BlockMap, hash: Hasher, cands: seq<Candidate>, selected: set<Hash>, nStop: int,
                           nPrev: nat, h: Hash)
  {
    exists q: nat :: q < |cands| && IsLeast(index, hash, cands, selected, nStop, nPrev, |cands|, q) && h == cands[q].1
  }

  lemma {:induction false} ScanIsLeast(index: BlockMap, hash: Hasher, cands: seq<Candidate>, selected: set<Hash>,
                                       nStop: int, nPrev: nat, k: nat, best: Option<Hash>, p: nat)
    requires Indexed(index, cands) && IsSorted(cands) && k <= |cands|
    requires best.None? ==> forall j | 0 <= j < k :: !Free(cands, selected, j)
    requires best.Some? ==> IsLeast(index, hash, cands, selected, nStop, nPrev, k, p) && best.value == cands[p].1
    ensures var c := Scan(index, hash, cands, selected, nStop, nPrev, k, best);
      && c.Choice?
      && (c.best.None? ==> forall j | 0 <= j < |cands| :: !Free(cands, selected, j))
      && (c.best.Some? ==>
            IsChosen(index, hash, cands, selected, nStop, nPrev, c.best.value))
    decreases |cands| - k
  {
    hide IsSorted, Eligible, IsLeast, IsChosen, HashAt;
    if best.Some? { LeastIsFree(index, hash, cands, selected, nStop, nPrev, k, p); }
    if k < |cands| {
      var h := cands[k].1;
      if best.Some? && index[h].nTime > nStop {
        EndsEarly(index, hash, cands, selected, nStop, nPrev, k, p);
      } else if h in selected {
        if best.Some? { Passes(index, hash, cands, selected, nStop, nPrev, k, p); }
        ScanIsLeast(index, hash, cands, selected, nStop, nPrev, k + 1, best, p);
      } else if best.None? {
        FirstFree(index, hash, cands, selected, nStop, nPrev, k);
        ScanIsLeast(index, hash, cands, selected, nStop, nPrev, k + 1, Some(h), k);
      } else {
        HashesAre(index, hash, cands, nPrev, k, p);
        if HashAt(index, hash, cands, nPrev, k) < HashAt(index, hash, cands, nPrev, p) {
          TakesOver(index, hash, cands, selected, nStop, nPrev, k, p);
          ScanIsLeast(index, hash, cands, selected, nStop, nPrev, k + 1, Some(h), k);
        } else {
          Passes(index, hash, cands, selected, nStop, nPrev, k, p);
          ScanIsLeast(index, hash, cands, selected, nStop, nPrev, k + 1, best, p);
        }
      }
    } else if best.Some? {
      IsTheChosen(index, hash, cands, selected, nStop, nPrev, p);
    }
  }

  lemma LeastIsFree(index: BlockMap, hash: Hasher, cands: seq<Candidate>, selected: set<Hash>, nStop: int, nPrev: nat,
                    k: nat, p: nat)
    requires k <= |cands| && IsLeast(index, hash, cands, selected, nStop, nPrev, k, p)
    ensures p < k && Free(cands, selected, p)
  {
  }

  lemma HashesAre(index: BlockMap, hash: Hasher, cands: seq<Candidate>, nPrev: nat, k: nat, p: nat)
    requires Indexed(index, cands) && p < |cands| && k < |cands|
    ensures HashAt(index, hash, cands, nPrev, k) == SelectionHash(hash, index[cands[k].1], nPrev)
    ensures HashAt(index, hash, cands, nPrev, p) == SelectionHash(hash, index[cands[p].1], nPrev)
  {
  }

  lemma IsTheChosen(index: BlockMap, hash: Hasher, cands: seq<Candidate>, selected: set<Hash>, nStop: int, nPrev: nat,
                    p: nat)
    requires p < |cands| && IsLeast(index, hash, cands, selected, nStop, nPrev, |cands|, p)
    ensures IsChosen(index, hash, cands, selected, nStop, nPrev, cands[p].1)
  {
  }

  /** Everything from k on is too late. */
  lemma EndsEarly(index: BlockMap, hash: Hasher, cands: seq<Candidate>, selected: set<Hash>, nStop: int, nPrev: nat,
                  k: nat, p: nat)
    requires k < |cands| && IsLeast(index, hash, cands, selected, nStop, nPrev, k, p) && IsSorted(cands)
    requires cands[k].0 > nStop
    ensures IsChosen(index, hash, cands, selected, nStop, nPrev, cands[p].1)
  {
    hide IsSorted, HashAt;
    LaterAreNot(cands, selected, nStop, k, p);
    assert IsLeast(index, hash, cands, selected, nStop, nPrev, |cands|, p);
  }

  lemma Passes(index: BlockMap, hash: Hasher, cands: seq<Candidate>, selected: set<Hash>, nStop: int, nPrev: nat,
               k: nat, p: nat)
    requires k < |cands| && IsLeast(index, hash, cands, selected, nStop, nPrev, k, p)
    requires Free(cands, selected, k) ==> HashAt(index, hash, cands, nPrev, p) <= HashAt(index, hash, cands, nPrev, k)
    ensures IsLeast(index, hash, cands, selected, nStop, nPrev, k + 1, p)
  {
    hide HashAt;
  }

  lemma FirstFree(index: BlockMap, hash: Hasher, cands: seq<Candidate>, selected: set<Hash>, nStop: int, nPrev: nat,
                  k: nat)
    requires k < |cands| && Free(cands, selected, k) && forall j | 0 <= j < k :: !Free(cands, selected, j)
    ensures IsLeast(index, hash, cands, selected, nStop, nPrev, k + 1, k)
  {
    hide HashAt;
  }

  lemma TakesOver(index: BlockMap, hash: Hasher, cands: seq<Candidate>, selected: set<Hash>, nStop: int, nPrev: nat,
                  k: nat, p: nat)
    requires k < |cands| && IsLeast(index, hash, cands, selected, nStop, nPrev, k, p)
    requires Free(cands, selected, k) && cands[k].0 <= nStop
    requires HashAt(index, hash, cands, nPrev, k) < HashAt(index, hash, cands, nPrev, p)
    ensures IsLeast(index, hash, cands, selected, nStop, nPrev, k + 1, k)
  {
    hide HashAt;
  }

  lemma LaterAreNot(cands: seq<Candidate>, selected: set<Hash>, nStop: int, k: nat, p: nat)
    requires p < k < |cands| && IsSorted(cands) && Free(cands, selected, p) && cands[k].0 > nStop
    ensures forall e | k <= e < |cands| :: !Eligible(cands, selected, nStop, e)
  {
  }

  /** A choice is made exactly if a candidate is left, and it is the least eligible one. */
  lemma ChoiceIsLeast(index: BlockMap, hash: Hasher, cands: seq<Candidate>, selected: set<Hash>, nStop: int, nPrev: nat)
    requires Indexed(index, cands) && IsSorted(cands)
    ensures var c := Scan(index, hash, cands, selected, nStop, nPrev, 0, None);
      && c.Choice?
      && (c.best.Some? <==> exists e | 0 <= e < |cands| :: Free(cands, selected, e))
      && (c.best.Some? ==>
            IsChosen(index, hash, cands, selected, nStop, nPrev, c.best.value))
  {
    ScanIsLeast(index, hash, cands, selected, nStop, nPrev, 0, None, 0);
    var c := Scan(index, hash, cands, selected, nStop, nPrev, 0, None);
    if c.best.Some? {
      var q: nat :|
        q < |cands| && IsLeast(index, hash, cands, selected, nStop, nPrev, |cands|, q) && c.best.value == cands[q].1;
      assert Free(cands, selected, q);
    }
  }

  // -------------------------------------------------------------------------- rounds

  datatype Rounds = Rounds(nStakeModifierNew: nat, nStop: int, picks: seq<Hash>)

  function SetOf(hs: seq<Hash>): set<Hash> { set h | h in hs }

  /** The first n rounds, if each finds a block. */
  function RunRounds(index: BlockMap, hash: Hasher, cands: seq<Candidate>, nStart: int, nPrev: nat, n: nat): Option<Rounds>
    requires n <= 64
  {
    if n == 0 then Some(Rounds(0, nStart, [])) else
      match RunRounds(index, hash, cands, nStart, nPrev, n - 1)
      case None => None
      case Some(r) =>
        var nStop := r.nStop + Section(n - 1);
        var c := Scan(index, hash, cands, SetOf(r.picks), nStop, nPrev, 0, None);
        if c.Missing? || c.best.None? || c.best.value !in index then None
        else
          var bit := index[c.best.value].entropyBit;
          Some(Rounds(Limbs.Or(r.nStakeModifierNew, bit * Limbs.Pow2(n - 1)), nStop, r.picks + [c.best.value]))
  }

  lemma {:induction false} RoundsStop(index: BlockMap, hash: Hasher, cands: seq<Candidate>, nStart: int, nPrev: nat,
                                      i: nat, n: nat)
    requires i <= n <= 64 && RunRounds(index, hash, cands, nStart, nPrev, i).None?
    ensures RunRounds(index, hash, cands, nStart, nPrev, n).None?
    decreases n
  {
    if i < n { RoundsStop(index, hash, cands, nStart, nPrev, i, n - 1); }
  }

  /** Number of rounds for a list of candidates. */
  function RoundCount(cands: seq<Candidate>): nat { if |cands| < 64 then |cands| else 64 }

  method SelectRounds(index: BlockMap, hash: Hasher, vSortedByTimestamp: seq<Candidate>, nSelectionIntervalStart: int,
                      nStakeModifier: nat)
    returns (ok: bool, nStakeModifierNew: nat, nSelectionIntervalStop: int)
    ensures var r := RunRounds(index, hash, vSortedByTimestamp, nSelectionIntervalStart, nStakeModifier,
                               RoundCount(vSortedByTimestamp));
      && (ok <==> r.Some?)
      && (ok ==> nStakeModifierNew == r.value.nStakeModifierNew && nSelectionIntervalStop == r.value.nStop)
  {
    hide Scan, Section, Limbs.Or, Limbs.Pow2;
    nStakeModifierNew, nSelectionIntervalStop := 0, nSelectionIntervalStart;
    var mapSelectedBlocks: set<Hash> := {};
    ghost var picks: seq<Hash> := [];
    for nRound := 0 to RoundCount(vSortedByTimestamp)
      invariant mapSelectedBlocks == SetOf(picks)
      invariant RunRounds(index, hash, vSortedByTimestamp, nSelectionIntervalStart, nStakeModifier, nRound) ==
                Some(Rounds(nStakeModifierNew, nSelectionIntervalStop, picks))
    {
      nSelectionIntervalStop := nSelectionIntervalStop + Section(nRound);
      var fSelected, pindex := SelectBlockFromCandidates(index, hash, vSortedByTimestamp, mapSelectedBlocks,
                                                         nSelectionIntervalStop, nStakeModifier);
      if !fSelected || pindex !in index {
        RoundsStop(index, hash, vSortedByTimestamp, nSelectionIntervalStart, nStakeModifier, nRound + 1,
                   RoundCount(vSortedByTimestamp));
        return false, 0, 0;
      }
      nStakeModifierNew := Limbs.Or(nStakeModifierNew, index[pindex].entropyBit * Limbs.Pow2(nRound));
      mapSelectedBlocks := mapSelectedBlocks + {pindex};
      assert SetOf(picks + [pindex]) == SetOf(picks) + {pindex};
      picks := picks + [pindex];
    }
    ok := true;
  }

  function BitOf(n: nat, r: nat): nat { n / Limbs.Pow2(r) % 2 }

  predicate DistinctPicks(picks: seq<Hash>) { forall i, j | 0 <= i < j < |picks| :: picks[i] != picks[j] }

  /** Fewer picks than candidates leave one that is free. */
  lemma SomeFree(cands: seq<Candidate>, picks: seq<Hash>)
    requires DistinctHashes(cands) && |picks| < |cands|
    ensures exists e | 0 <= e < |cands| :: Free(cands, SetOf(picks), e)
  {
    var hs := HashesOf(cands, |cands|);
    SizeOfSet(picks);
    if hs <= SetOf(picks) { CardinalityMonotone(hs, SetOf(picks)); }
    var h :| h in hs && h !in SetOf(picks);
    var e :| 0 <= e < |cands| && cands[e].1 == h;
    assert Free(cands, SetOf(picks), e);
  }

  ghost function HashesOf(cands: seq<Candidate>, n: nat): (hs: set<Hash>)
    requires n <= |cands| && DistinctHashes(cands)
    ensures |hs| == n && forall h | h in hs :: exists e | 0 <= e < n :: cands[e].1 == h
  {
    if n == 0 then {} else
      var rest := HashesOf(cands, n - 1);
      assert cands[n - 1].1 !in rest;
      rest + {cands[n - 1].1}
  }

  lemma {:induction false} SizeOfSet(picks: seq<Hash>)
    ensures |SetOf(picks)| <= |picks|
  {
    if picks != [] {
      var n := |picks| - 1;
      SizeOfSet(picks[..n]);
      assert picks == picks[..n] + [picks[n]];
      assert SetOf(picks) == SetOf(picks[..n]) + {picks[n]};
    }
  }

  lemma NewBit(x: nat, bit: nat, n: nat)
    requires x < Limbs.Pow2(n) && bit <= 1
    ensures var y := Limbs.Or(x, bit * Limbs.Pow2(n));
      && y < Limbs.Pow2(n + 1) && BitOf(y, n) == bit && forall r | 0 <= r < n :: BitOf(y, r) == BitOf(x, r)
  {
    var p := Limbs.Pow2(n);
    Limbs.OrDisjoint(x, bit, n);
    var y := x + bit * p;
    Limbs.DivUnique(y, p, bit, x);
    forall r | 0 <= r < n ensures BitOf(y, r) == BitOf(x, r) { LowBit(x, bit, n, r); }
  }

  /** Adding a multiple of a higher power of two leaves the lower bits. */
  lemma LowBit(x: nat, bit: nat, n: nat, r: nat)
    requires r < n
    ensures BitOf(x + bit * Limbs.Pow2(n), r) == BitOf(x, r)
  {
    var p, q := Limbs.Pow2(r), Limbs.Pow2(n - r - 1);
    Limbs.Pow2Add(r, 1 + (n - r - 1));
    Limbs.Pow2Add(1, n - r - 1);
    Scaled(bit, p, q, x);
  }

  lemma Scaled(bit: nat, p: nat, q: nat, x: nat)
    requires p > 0
    ensures (x + bit * (p * (2 * q))) / p % 2 == x / p % 2
  {
    var z, w := x / p, bit * q;
    Doubled(bit, p, q);
    Limbs.Distribute(z, 2 * w, p);
    Limbs.DivSmaller(x, p);
    Limbs.DivUnique(x + bit * (p * (2 * q)), p, z + 2 * w, x % p);
  }

  lemma Doubled(bit: nat, p: nat, q: nat)
    ensures bit * (p * (2 * q)) == (2 * (bit * q)) * p
  {
  }

  /** Pick i is what round i is to choose, given the picks before it. */
  ghost predicate PickOk(index: BlockMap, hash: Hasher, cands: seq<Candidate>, nStart: int, nPrev: nat,
                         picks: seq<Hash>, i: nat)
    requires i < |picks| && i < 64
  {
    picks[i] in index && IsChosen(index, hash, cands, SetOf(picks[..i]), nStart + Sections(i + 1), nPrev, picks[i])
  }

  ghost predicate RoundsOk(index: BlockMap, hash: Hasher, cands: seq<Candidate>, nStart: int, nPrev: nat, n: nat, r: Rounds)
    requires n <= 64
  {
    && |r.picks| == n && DistinctPicks(r.picks)
    && r.nStop == nStart + Sections(n) && r.nStakeModifierNew < Limbs.Pow2(n)
    && (forall i | 0 <= i < n :: PickOk(index, hash, cands, nStart, nPrev, r.picks, i))
    && (forall i | 0 <= i < n :: r.picks[i] in index && BitOf(r.nStakeModifierNew, i) == index[r.picks[i]].entropyBit)
  }

  ghost predicate EntropyBits(index: BlockMap) { forall h | h in index :: index[h].entropyBit <= 1 }

  lemma PicksExtend(index: BlockMap, hash: Hasher, cands: seq<Candidate>, nStart: int, nPrev: nat, picks: seq<Hash>,
                    h: Hash, i: nat)
    requires i < |picks| && i < 64
    ensures PickOk(index, hash, cands, nStart, nPrev, picks + [h], i) <==>
            PickOk(index, hash, cands, nStart, nPrev, picks, i)
  {
    assert (picks + [h])[..i] == picks[..i];
  }

  /** Every round finds a block: the error exit is not taken. */
  lemma {:induction false} RoundsSucceed(index: BlockMap, hash: Hasher, cands: seq<Candidate>, nStart: int, nPrev: nat,
                                         n: nat)
    requires Indexed(index, cands) && IsSorted(cands) && DistinctHashes(cands) && EntropyBits(index)
    requires n <= RoundCount(cands)
    ensures RunRounds(index, hash, cands, nStart, nPrev, n).Some?
    ensures RoundsOk(index, hash, cands, nStart, nPrev, n, RunRounds(index, hash, cands, nStart, nPrev, n).value)
    decreases n
  {
    hide Scan, Section, Limbs.Or, Limbs.Pow2, IsLeast, Indexed, IsSorted, DistinctHashes, RoundsOk, SetOf;
    if n == 0 {
      NoRounds(index, hash, cands, nStart, nPrev);
    } else {
      RoundsSucceed(index, hash, cands, nStart, nPrev, n - 1);
      var r := RunRounds(index, hash, cands, nStart, nPrev, n - 1).value;
      PicksSoFar(index, hash, cands, nStart, nPrev, n - 1, r);
      var nStop := r.nStop + Section(n - 1);
      ChoiceIsLeast(index, hash, cands, SetOf(r.picks), nStop, nPrev);
      SomeFree(cands, r.picks);
      var h := Scan(index, hash, cands, SetOf(r.picks), nStop, nPrev, 0, None).best.value;
      var q: nat :| IsLeast(index, hash, cands, SetOf(r.picks), nStop, nPrev, |cands|, q) && q < |cands| && h == cands[q].1;
      LeastIsNew(index, hash, cands, r.picks, nStop, nPrev, q);
      NewBit(r.nStakeModifierNew, index[h].entropyBit, n - 1);
      OneMoreRound(index, hash, cands, nStart, nPrev, n - 1, r, q);
    }
  }

  lemma NoRounds(index: BlockMap, hash: Hasher, cands: seq<Candidate>, nStart: int, nPrev: nat)
    ensures RoundsOk(index, hash, cands, nStart, nPrev, 0, Rounds(0, nStart, []))
  {
    assert Limbs.Pow2(0) == 1;
  }

  lemma PicksSoFar(index: BlockMap, hash: Hasher, cands: seq<Candidate>, nStart: int, nPrev: nat, n: nat, r: Rounds)
    requires n <= 64 && RoundsOk(index, hash, cands, nStart, nPrev, n, r)
    ensures |r.picks| == n && r.nStakeModifierNew < Limbs.Pow2(n)
  {
  }

  lemma LeastIsNew(index: BlockMap, hash: Hasher, cands: seq<Candidate>, picks: seq<Hash>, nStop: int, nPrev: nat, q: nat)
    requires IsLeast(index, hash, cands, SetOf(picks), nStop, nPrev, |cands|, q) && Indexed(index, cands)
    ensures q < |cands| && cands[q].1 in index && forall i | 0 <= i < |picks| :: picks[i] != cands[q].1
  {
    forall i | 0 <= i < |picks| ensures picks[i] != cands[q].1 {
      var h := picks[i];
      assert h in SetOf(picks);
    }
  }

  lemma OneMoreRound(index: BlockMap, hash: Hasher, cands: seq<Candidate>, nStart: int, nPrev: nat, n: nat, r: Rounds,
                     q: nat)
    requires n < 64 && RoundsOk(index, hash, cands, nStart, nPrev, n, r) && q < |cands| && cands[q].1 in index
    requires IsLeast(index, hash, cands, SetOf(r.picks), r.nStop + Section(n), nPrev, |cands|, q)
    requires forall i | 0 <= i < |r.picks| :: r.picks[i] != cands[q].1
    requires index[cands[q].1].entropyBit <= 1
    ensures var h := cands[q].1;
      RoundsOk(index, hash, cands, nStart, nPrev, n + 1,
               Rounds(Limbs.Or(r.nStakeModifierNew, index[h].entropyBit * Limbs.Pow2(n)), r.nStop + Section(n),
                      r.picks + [h]))
  {
    hide Section, Limbs.Or, Limbs.Pow2, IsLeast, BitOf;
    var h := cands[q].1;
    var picks := r.picks + [h];
    NewBit(r.nStakeModifierNew, index[h].entropyBit, n);
    forall i | 0 <= i < n + 1 ensures PickOk(index, hash, cands, nStart, nPrev, picks, i) {
      if i < n {
        PicksExtend(index, hash, cands, nStart, nPrev, r.picks, h, i);
      } else {
        assert picks[..n] == r.picks;
        assert IsChosen(index, hash, cands, SetOf(r.picks), r.nStop + Section(n), nPrev, h);
      }
    }
  }

  // ---------------------------------------------------------------- the next modifier

  /** The youngest block of the chain that generated a modifier, else the oldest block. */
  function LastGenerated(index: BlockMap, chain: seq<Hash>): (h: Hash)
    requires chain != [] && forall i | 0 <= i < |chain| :: chain[i] in index
    ensures h in index
  {
    if |chain| == 1 || index[chain[0]].generatedModifier then chain[0] else LastGenerated(index, chain[1..])
  }

  /** The youngest blocks down to the first that is too old. */
  function Recent(index: BlockMap, chain: seq<Hash>, nStart: int): (cands: seq<Candidate>)
    requires forall i | 0 <= i < |chain| :: chain[i] in index
    ensures |cands| <= |chain| && forall i | 0 <= i < |cands| :: cands[i] == (index[chain[i]].nTime, chain[i])
  {
    if chain == [] || index[chain[0]].nTime < nStart then []
    else [(index[chain[0]].nTime, chain[0])] + Recent(index, chain[1..], nStart)
  }

  function Floored(nTime: nat): int { nTime / MODIFIER_INTERVAL * MODIFIER_INTERVAL }

  function SelectionStart(nTime: nat): int { Floored(nTime) - Sections(64) }

  function SortedCandidates(index: BlockMap, chain: seq<Hash>): seq<Candidate>
    requires chain != [] && forall i | 0 <= i < |chain| :: chain[i] in index
  {
    Sorted(Reverse(Recent(index, chain, SelectionStart(index[chain[0]].nTime))))
  }

  /** The modifier for the block after the chain, and whether it is a new one. */
  function NextModifier(index: BlockMap, hash: Hasher, chain: seq<Hash>): Option<(nat, bool)>
    requires forall i | 0 <= i < |chain| :: chain[i] in index
  {
    if chain == [] then Some((0, true)) else
      var last := index[LastGenerated(index, chain)];
      var nTime := index[chain[0]].nTime;
      if !last.generatedModifier then None
      else if last.nTime / MODIFIER_INTERVAL >= nTime / MODIFIER_INTERVAL then Some((last.nStakeModifier, false))
      else
        var cands := SortedCandidates(index, chain);
        match RunRounds(index, hash, cands, SelectionStart(nTime), last.nStakeModifier, RoundCount(cands))
        case None => None
        case Some(r) => Some((r.nStakeModifierNew, true))
  }

  method GetLastStakeModifier(index: BlockMap, chain: seq<Hash>) returns (ok: bool, nStakeModifier: nat, nModifierTime: nat)
    requires chain != [] && forall i | 0 <= i < |chain| :: chain[i] in index
    ensures var last := index[LastGenerated(index, chain)];
      (ok <==> last.generatedModifier) && (ok ==> nStakeModifier == last.nStakeModifier && nModifierTime == last.nTime)
  {
    var pindex := chain;
    while |pindex| > 1 && !index[pindex[0]].generatedModifier
      invariant pindex != [] && forall i | 0 <= i < |pindex| :: pindex[i] in index
      invariant LastGenerated(index, pindex) == LastGenerated(index, chain)
      decreases |pindex|
    {
      pindex := pindex[1..];
    }
    var b := index[pindex[0]];
    ok, nStakeModifier, nModifierTime := b.generatedModifier, b.nStakeModifier, b.nTime;
  }

  method ComputeNextStakeModifier(index: BlockMap, hash: Hasher, chain: seq<Hash>)
    returns (ok: bool, nStakeModifier: nat, fGeneratedStakeModifier: bool)
    requires forall i | 0 <= i < |chain| :: chain[i] in index
    ensures var m := NextModifier(index, hash, chain);
      (ok <==> m.Some?) && (ok ==> (nStakeModifier, fGeneratedStakeModifier) == m.value)
  {
    hide RunRounds, Sorted, LastGenerated, Sections, Recent;
    nStakeModifier, fGeneratedStakeModifier := 0, false;
    if chain == [] { return true, 0, true; }
    var found, nModifier, nModifierTime := GetLastStakeModifier(index, chain);
    if !found { return false, 0, false; }
    var nPrevTime := index[chain[0]].nTime;
    if nModifierTime / MODIFIER_INTERVAL >= nPrevTime / MODIFIER_INTERVAL { return true, nModifier, false; }
    var nSelectionInterval := GetSelectionInterval();
    var nSelectionIntervalStart := nPrevTime / MODIFIER_INTERVAL * MODIFIER_INTERVAL - nSelectionInterval;
    var vSortedByTimestamp := CollectRecent(index, chain, nSelectionIntervalStart);
    vSortedByTimestamp := Sorted(Reverse(vSortedByTimestamp));
    var nSelectionIntervalStop;
    ok, nStakeModifier, nSelectionIntervalStop :=
      SelectRounds(index, hash, vSortedByTimestamp, nSelectionIntervalStart, nModifier);
    fGeneratedStakeModifier := ok;
  }

  method CollectRecent(index: BlockMap, chain: seq<Hash>, nStart: int) returns (cands: seq<Candidate>)
    requires forall i | 0 <= i < |chain| :: chain[i] in index
    ensures cands == Recent(index, chain, nStart)
  {
    hide Recent;
    cands := [];
    var pindex := chain;
    assert [] + Recent(index, chain, nStart) == Recent(index, chain, nStart);
    while pindex != [] && index[pindex[0]].nTime >= nStart
      invariant forall i | 0 <= i < |pindex| :: pindex[i] in index
      invariant Recent(index, chain, nStart) == cands + Recent(index, pindex, nStart)
      decreases |pindex|
    {
      ghost var rest := Recent(index, pindex[1..], nStart);
      var item := (index[pindex[0]].nTime, pindex[0]);
      RecentStep(index, pindex, nStart);
      assert cands + ([item] + rest) == cands + [item] + rest;
      cands := cands + [item];
      pindex := pindex[1..];
    }
    RecentStep(index, pindex, nStart);
    assert cands + [] == cands;
  }

  lemma RecentStep(index: BlockMap, chain: seq<Hash>, nStart: int)
    requires forall i | 0 <= i < |chain| :: chain[i] in index
    ensures Recent(index, chain, nStart) ==
            if chain == [] || index[chain[0]].nTime < nStart then []
            else [(index[chain[0]].nTime, chain[0])] + Recent(index, chain[1..], nStart)
  {
  }

  // ------------------------------------------------------------------------ the claim

  lemma {:induction false} InsertDistinct(c: Candidate, s: seq<Candidate>)
    requires IsSorted(s) && DistinctHashes(s) && forall i | 0 <= i < |s| :: s[i].1 != c.1
    ensures DistinctHashes(Insert(c, s))
  {
    if s != [] && !Before(c, s[0]) {
      InsertDistinct(c, s[1..]);
      var rest := Insert(c, s[1..]);
      forall i | 0 <= i < |rest| ensures rest[i].1 != s[0].1 {
        assert rest[i] in multiset(rest);
        if rest[i] != c {
          assert rest[i] in multiset(s[1..]);
          var j :| 0 <= j < |s[1..]| && s[1..][j] == rest[i];
          assert s[j + 1] == rest[i];
        }
      }
    }
  }

  lemma {:induction false} SortedDistinct(s: seq<Candidate>)
    requires DistinctHashes(s)
    ensures DistinctHashes(Sorted(s))
  {
    if s != [] {
      SortedDistinct(s[1..]);
      var rest := Sorted(s[1..]);
      forall i | 0 <= i < |rest| ensures rest[i].1 != s[0].1 {
        assert rest[i] in multiset(rest);
        assert rest[i] in multiset(s[1..]);
        var j :| 0 <= j < |s[1..]| && s[1..][j] == rest[i];
        assert s[j + 1] == rest[i];
      }
      InsertDistinct(s[0], rest);
    }
  }

  predicate DistinctChain(chain: seq<Hash>) { forall i, j | 0 <= i < j < |chain| :: chain[i] != chain[j] }

  lemma CandidatesFit(index: BlockMap, chain: seq<Hash>)
    requires chain != [] && (forall i | 0 <= i < |chain| :: chain[i] in index) && DistinctChain(chain)
    ensures var cands := SortedCandidates(index, chain);
      Indexed(index, cands) && IsSorted(cands) && DistinctHashes(cands)
  {
    hide Sections, Sorted, Reverse, Recent;
    var recent := Recent(index, chain, SelectionStart(index[chain[0]].nTime));
    assert Indexed(index, recent) && DistinctHashes(recent);
    var back := Reverse(recent);
    assert Indexed(index, back) && DistinctHashes(back);
    SortedDistinct(back);
    SameIndexed(index, back, Sorted(back));
  }

  lemma SameIndexed(index: BlockMap, s: seq<Candidate>, r: seq<Candidate>)
    requires Indexed(index, s) && multiset(r) == multiset(s)
    ensures Indexed(index, r)
  {
    forall i | 0 <= i < |r| ensures r[i].1 in index && index[r[i].1].nTime == r[i].0 {
      assert r[i] in multiset(r) && r[i] in multiset(s);
      var j :| 0 <= j < |s| && s[j] == r[i];
    }
  }

  /** Computing the modifier fails only if no block of the chain ever generated one. */
  lemma ModifierExists(index: BlockMap, hash: Hasher, chain: seq<Hash>)
    requires (forall i | 0 <= i < |chain| :: chain[i] in index) && DistinctChain(chain) && EntropyBits(index)
    ensures NextModifier(index, hash, chain).Some? <==>
            chain == [] || exists i | 0 <= i < |chain| :: index[chain[i]].generatedModifier
  {
    hide RunRounds, LastGenerated, SortedCandidates;
    if chain != [] {
      LastIsGenerated(index, chain);
      CandidatesFit(index, chain);
      var cands := SortedCandidates(index, chain);
      var nPrev := index[LastGenerated(index, chain)].nStakeModifier;
      RoundsSucceed(index, hash, cands, SelectionStart(index[chain[0]].nTime), nPrev, RoundCount(cands));
    }
  }

  lemma {:induction false} LastIsGenerated(index: BlockMap, chain: seq<Hash>)
    requires chain != [] && forall i | 0 <= i < |chain| :: chain[i] in index
    ensures index[LastGenerated(index, chain)].generatedModifier <==>
            exists i | 0 <= i < |chain| :: index[chain[i]].generatedModifier
    decreases |chain|
  {
    if |chain| > 1 && !index[chain[0]].generatedModifier {
      LastIsGenerated(index, chain[1..]);
      if i :| 0 <= i < |chain[1..]| && index[chain[1..][i]].generatedModifier {
        assert index[chain[i + 1]].generatedModifier;
      }
      if i :| 0 <= i < |chain| && index[chain[i]].generatedModifier {
        assert chain[1..][i - 1] == chain[i];
      }
    }
  }

  /** A new modifier has one bit from each of the chosen blocks; after all 64
      rounds the selection has reached the start of the interval of the previous block. */
  lemma NewModifier(index: BlockMap, hash: Hasher, chain: seq<Hash>)
    requires (forall i | 0 <= i < |chain| :: chain[i] in index) && DistinctChain(chain) && EntropyBits(index)
    requires chain != [] && NextModifier(index, hash, chain).Some? && NextModifier(index, hash, chain).value.1
    ensures var cands := SortedCandidates(index, chain);
      var nPrev := index[LastGenerated(index, chain)].nStakeModifier;
      var nStart := SelectionStart(index[chain[0]].nTime);
      var n := RoundCount(cands);
      exists r: Rounds :: RoundsOk(index, hash, cands, nStart, nPrev, n, r) &&
        NextModifier(index, hash, chain).value.0 == r.nStakeModifierNew < Limbs.Pow2(64) &&
        (n == 64 ==> r.nStop == Floored(index[chain[0]].nTime))
  {
    hide RunRounds, LastGenerated, SortedCandidates, RoundsOk, Sections;
    CandidatesFit(index, chain);
    var cands := SortedCandidates(index, chain);
    var nPrev := index[LastGenerated(index, chain)].nStakeModifier;
    var nStart := SelectionStart(index[chain[0]].nTime);
    var n := RoundCount(cands);
    RoundsSucceed(index, hash, cands, nStart, nPrev, n);
    var r := RunRounds(index, hash, cands, nStart, nPrev, n).value;
    RoundsFacts(index, hash, cands, nStart, nPrev, n, r);
    Limbs.Pow2Monotone(n, 64);
    assert RoundsOk(index, hash, cands, nStart, nPrev, n, r);
  }

  lemma RoundsFacts(index: BlockMap, hash: Hasher, cands: seq<Candidate>, nStart: int, nPrev: nat, n: nat, r: Rounds)
    requires n <= 64 && RoundsOk(index, hash, cands, nStart, nPrev, n, r)
    ensures r.nStop == nStart + Sections(n) && r.nStakeModifierNew < Limbs.Pow2(n)
  {
  }
}
