// What is chosen for a stake modifier, said with the hashes themselves.
module StakeChoice {
  import opened HashType
  import opened Options
  import opened StakeModifier
  import Sequences
  import Limbs

  const SHIFT: nat := 0x1_0000_0000

  function ProofHash(index: BlockMap, hash: Hasher, cands: seq<Candidate>, nPrev: nat, e: nat): nat
    requires e < |cands| && cands[e].1 in index
  {
    hash(index[cands[e].1].hashProof, nPrev)
  }

  predicate IsStake(index: BlockMap, cands: seq<Candidate>, e: nat)
    requires e < |cands| && cands[e].1 in index
  {
    index[cands[e].1].isProofOfStake
  }

  /** Candidate p goes before e: of two of work the lesser hash, of two of stake the
      lesser without the last 32 bits, and one of work before one of stake only if
      its hash is 2^32 times smaller; the earlier of equals. */
  predicate Prefers(index: BlockMap, hash: Hasher, cands: seq<Candidate>, nPrev: nat, p: nat, e: nat)
    requires p < |cands| && e < |cands| && cands[p].1 in index && cands[e].1 in index
  {
    var a, b := ProofHash(index, hash, cands, nPrev, p), ProofHash(index, hash, cands, nPrev, e);
    match (IsStake(index, cands, p), IsStake(index, cands, e))
    case (false, false) => a < b || (a == b && p <= e)
    case (true, true) => a / SHIFT < b / SHIFT || (a / SHIFT == b / SHIFT && p <= e)
    case (false, true) => if p <= e then a * SHIFT <= b else (a + 1) * SHIFT <= b
    case (true, false) => if p <= e then a < (b + 1) * SHIFT else a < b * SHIFT
  }

  lemma DividedBelow(a: nat, b: nat)
    ensures a <= b / SHIFT <==> a * SHIFT <= b
    ensures a < b / SHIFT <==> (a + 1) * SHIFT <= b
    ensures a / SHIFT <= b <==> a < (b + 1) * SHIFT
    ensures a / SHIFT < b <==> a < b * SHIFT
  {
  }

  lemma PrefersIff(index: BlockMap, hash: Hasher, cands: seq<Candidate>, nPrev: nat, p: nat, e: nat)
    requires p < |cands| && e < |cands| && cands[p].1 in index && cands[e].1 in index
    ensures Prefers(index, hash, cands, nPrev, p, e) <==>
      var a, b := HashAt(index, hash, cands, nPrev, p), HashAt(index, hash, cands, nPrev, e);
      a <= b && (e < p ==> a < b)
  {
    DividedBelow(ProofHash(index, hash, cands, nPrev, p), ProofHash(index, hash, cands, nPrev, e));
  }

  /** Not selected before; in time, or the first that is not selected. */
  ghost predicate InTime(cands: seq<Candidate>, selected: set<Hash>, nStop: int, e: nat)
    requires e < |cands|
  {
    cands[e].1 !in selected && (cands[e].0 <= nStop || forall j | 0 <= j < e :: cands[j].1 in selected)
  }

  ghost predicate Preferred(index: BlockMap, hash: Hasher, cands: seq<Candidate>, selected: set<Hash>, nStop: int,
                            nPrev: nat, p: nat)
    requires Indexed(index, cands)
  {
    && p < |cands| && InTime(cands, selected, nStop, p)
    && forall e | 0 <= e < |cands| && InTime(cands, selected, nStop, e) :: Prefers(index, hash, cands, nPrev, p, e)
  }

  lemma PreferredIsLeast(index: BlockMap, hash: Hasher, cands: seq<Candidate>, selected: set<Hash>, nStop: int,
                         nPrev: nat, p: nat)
    requires Indexed(index, cands)
    ensures Preferred(index, hash, cands, selected, nStop, nPrev, p) <==>
            IsLeast(index, hash, cands, selected, nStop, nPrev, |cands|, p)
  {
    hide Prefers, HashAt;
    forall e | 0 <= e < |cands|
      ensures InTime(cands, selected, nStop, e) <==> Eligible(cands, selected, nStop, e)
      ensures p < |cands| ==>
        (Prefers(index, hash, cands, nPrev, p, e) <==>
         HashAt(index, hash, cands, nPrev, p) <= HashAt(index, hash, cands, nPrev, e) &&
         (e < p ==> HashAt(index, hash, cands, nPrev, p) < HashAt(index, hash, cands, nPrev, e)))
    {
      SameEligible(cands, selected, nStop, e);
      if p < |cands| { PrefersIff(index, hash, cands, nPrev, p, e); }
    }
    hide InTime, Eligible;
  }

  lemma SameEligible(cands: seq<Candidate>, selected: set<Hash>, nStop: int, e: nat)
    requires e < |cands|
    ensures InTime(cands, selected, nStop, e) <==> Eligible(cands, selected, nStop, e)
  {
    forall j | 0 <= j < e ensures Free(cands, selected, j) <==> cands[j].1 !in selected {
    }
  }

  /** The block that is chosen is the preferred one, and there is a preferred one
      exactly if not all are selected. */
  lemma ChosenIff(index: BlockMap, hash: Hasher, cands: seq<Candidate>, selected: set<Hash>, nStop: int, nPrev: nat,
                  h: Hash)
    requires Indexed(index, cands) && IsSorted(cands)
    ensures var c := Scan(index, hash, cands, selected, nStop, nPrev, 0, None);
      && c.Choice?
      && (c.best.None? <==> forall e | 0 <= e < |cands| :: cands[e].1 in selected)
      && (c.best == Some(h) <==>
            exists p: nat :: Preferred(index, hash, cands, selected, nStop, nPrev, p) && h == cands[p].1)
  {
    hide Scan, Preferred, IsLeast, IsSorted, Indexed;
    ChoiceIsLeast(index, hash, cands, selected, nStop, nPrev);
    forall p: nat { PreferredIsLeast(index, hash, cands, selected, nStop, nPrev, p); }
    var c := Scan(index, hash, cands, selected, nStop, nPrev, 0, None);
    forall e | 0 <= e < |cands| ensures Free(cands, selected, e) <==> cands[e].1 !in selected {
    }
    if c.best.Some? {
      var q: nat :|
        q < |cands| && IsLeast(index, hash, cands, selected, nStop, nPrev, |cands|, q) && c.best.value == cands[q].1;
      assert Preferred(index, hash, cands, selected, nStop, nPrev, q);
      forall p: nat | Preferred(index, hash, cands, selected, nStop, nPrev, p) ensures p == q {
        OneLeast(index, hash, cands, selected, nStop, nPrev, p, q);
      }
    } else {
      forall p: nat ensures !Preferred(index, hash, cands, selected, nStop, nPrev, p) {
        LeastFree(index, hash, cands, selected, nStop, nPrev, p);
      }
    }
  }

  lemma OneLeast(index: BlockMap, hash: Hasher, cands: seq<Candidate>, selected: set<Hash>, nStop: int, nPrev: nat,
                 p: nat, q: nat)
    requires IsLeast(index, hash, cands, selected, nStop, nPrev, |cands|, p)
    requires IsLeast(index, hash, cands, selected, nStop, nPrev, |cands|, q)
    ensures p == q
  {
    hide HashAt, Eligible;
  }

  lemma LeastFree(index: BlockMap, hash: Hasher, cands: seq<Candidate>, selected: set<Hash>, nStop: int, nPrev: nat,
                  p: nat)
    ensures IsLeast(index, hash, cands, selected, nStop, nPrev, |cands|, p) ==> p < |cands| && Free(cands, selected, p)
  {
  }

  const BITS_224: nat := 0x1_0000_0000_0000_0000_0000_0000_0000_0000_0000_0000_0000_0000_0000_0000

  /** Stake is favoured: if the hashes have 256 bits, a block of stake is in time and
      no block of work in time has a hash below 2^224, then the choice is one of stake. */
  lemma StakeIsFavoured(index: BlockMap, hash: Hasher, cands: seq<Candidate>, selected: set<Hash>, nStop: int,
                        nPrev: nat, p: nat, e: nat)
    requires Indexed(index, cands) && Preferred(index, hash, cands, selected, nStop, nPrev, p)
    requires e < |cands| && InTime(cands, selected, nStop, e) && IsStake(index, cands, e)
    requires ProofHash(index, hash, cands, nPrev, e) < BITS_224 * SHIFT
    requires forall w | 0 <= w < |cands| && InTime(cands, selected, nStop, w) && !IsStake(index, cands, w) ::
      ProofHash(index, hash, cands, nPrev, w) >= BITS_224
    ensures IsStake(index, cands, p)
  {
    hide InTime;
    assert Prefers(index, hash, cands, nPrev, p, e);
    var a, b := ProofHash(index, hash, cands, nPrev, p), ProofHash(index, hash, cands, nPrev, e);
    DividedBelow(a, b);
  }

  // ------------------------------------------------------------------- the chain's part

  /** The youngest block that generated a modifier, or the oldest if none did. */
  lemma {:induction false} LastIs(index: BlockMap, chain: seq<Hash>, i: nat)
    requires i < |chain| && forall j | 0 <= j < |chain| :: chain[j] in index
    requires forall j | 0 <= j < i :: !index[chain[j]].generatedModifier
    requires index[chain[i]].generatedModifier || i == |chain| - 1
    ensures LastGenerated(index, chain) == chain[i]
    decreases |chain|
  {
    if i > 0 {
      assert chain[1..][i - 1] == chain[i];
      forall j | 0 <= j < i - 1 ensures !index[chain[1..][j]].generatedModifier { assert chain[1..][j] == chain[j + 1]; }
      LastIs(index, chain[1..], i - 1);
    }
  }

  /** The candidates are the youngest blocks of the chain, each with its time, back
      to the first that is before the start. */
  lemma {:induction false} RecentIs(index: BlockMap, chain: seq<Hash>, nStart: int, k: nat)
    requires k <= |chain| && forall j | 0 <= j < |chain| :: chain[j] in index
    requires forall j | 0 <= j < k :: index[chain[j]].nTime >= nStart
    requires k < |chain| ==> index[chain[k]].nTime < nStart
    ensures |Recent(index, chain, nStart)| == k
    ensures forall j | 0 <= j < k :: Recent(index, chain, nStart)[j] == (index[chain[j]].nTime, chain[j])
    decreases |chain|
  {
    if k > 0 {
      forall j | 0 <= j < |chain| - 1 ensures chain[1..][j] == chain[j + 1] {
      }
      RecentIs(index, chain[1..], nStart, k - 1);
    }
  }

  /** A candidate is a block of the chain that, like every younger one, is not before the start;
      they are sorted by time, those of one second by hash. */
  lemma CandidatesAre(index: BlockMap, chain: seq<Hash>, k: nat)
    requires chain != [] && k <= |chain| && forall j | 0 <= j < |chain| :: chain[j] in index
    requires var nStart := index[chain[0]].nTime / 600 * 600 - 21135;
      && (forall j | 0 <= j < k :: index[chain[j]].nTime >= nStart)
      && (k < |chain| ==> index[chain[k]].nTime < nStart)
    ensures var cands := SortedCandidates(index, chain);
      && (forall i, j | 0 <= i < j < |cands| ::
            cands[i].0 < cands[j].0 || (cands[i].0 == cands[j].0 && cands[i].1 <= cands[j].1))
      && multiset(cands) == multiset(seq(k, j requires 0 <= j < k => (index[chain[j]].nTime, chain[j])))
  {
    hide Sorted, Sections, Recent, Section;
    IntervalIs();
    var nStart := SelectionStart(index[chain[0]].nTime);
    RecentIs(index, chain, nStart, k);
    var recent := Recent(index, chain, nStart);
    assert recent == seq(k, j requires 0 <= j < k => (index[chain[j]].nTime, chain[j]));
    ReverseMultiset(recent);
  }

  lemma {:induction false} ReverseMultiset<T>(s: seq<T>)
    ensures multiset(Sequences.Reverse(s)) == multiset(s)
    decreases |s|
  {
    if s != [] {
      ReverseMultiset(s[1..]);
      assert s == [s[0]] + s[1..];
      assert Sequences.Reverse(s) == Sequences.Reverse(s[1..]) + [s[0]];
    }
  }

  /** Section n is 37800 / (189 - 2n) seconds: the later, the longer, from 200 to 600. */
  lemma SectionIs(n: nat)
    requires n < 64
    ensures Section(n) * (189 - 2 * n) <= 37800 < (Section(n) + 1) * (189 - 2 * n)
    ensures Section(0) == 200 && Section(63) == 600
  {
    var d := 189 - 2 * n;
    Limbs.DivSmaller(37800, d);
    Limbs.Distribute(37800 / d, 1, d);
    assert Section(n) == 37800 / d;
  }

  lemma OneSection(n: nat, s: nat)
    requires n < 64 && s * (189 - 2 * n) <= 37800 < (s + 1) * (189 - 2 * n)
    ensures Sections(n + 1) == Sections(n) + s
  {
    SectionIs(n);
    hide Section;
    var d, t := 189 - 2 * n, Section(n);
    if s < t { Limbs.MulLe(s + 1, t, d); }
    if t < s { Limbs.MulLe(t + 1, s, d); }
  }

  /** All sections together last 21135 seconds. */
  lemma IntervalIs()
    ensures Sections(64) == 21135
  {
    assert Sections(0) == 0;
    FirstQuarter();
    SecondQuarter();
    ThirdQuarter();
    LastQuarter();
  }

  lemma FirstQuarter()
    requires Sections(0) == 0
    ensures Sections(16) == 3479
  {
    hide Sections, Section;
    OneSection(0, 200); OneSection(1, 202); OneSection(2, 204); OneSection(3, 206);
    OneSection(4, 208); OneSection(5, 211); OneSection(6, 213); OneSection(7, 216);
    OneSection(8, 218); OneSection(9, 221); OneSection(10, 223); OneSection(11, 226);
    OneSection(12, 229); OneSection(13, 231); OneSection(14, 234); OneSection(15, 237);
  }

  lemma SecondQuarter()
    requires Sections(16) == 3479
    ensures Sections(32) == 7749
  {
    hide Sections, Section;
    OneSection(16, 240); OneSection(17, 243); OneSection(18, 247); OneSection(19, 250);
    OneSection(20, 253); OneSection(21, 257); OneSection(22, 260); OneSection(23, 264);
    OneSection(24, 268); OneSection(25, 271); OneSection(26, 275); OneSection(27, 280);
    OneSection(28, 284); OneSection(29, 288); OneSection(30, 293); OneSection(31, 297);
  }

  lemma ThirdQuarter()
    requires Sections(32) == 7749
    ensures Sections(48) == 13278
  {
    hide Sections, Section;
    OneSection(32, 302); OneSection(33, 307); OneSection(34, 312); OneSection(35, 317);
    OneSection(36, 323); OneSection(37, 328); OneSection(38, 334); OneSection(39, 340);
    OneSection(40, 346); OneSection(41, 353); OneSection(42, 360); OneSection(43, 366);
    OneSection(44, 374); OneSection(45, 381); OneSection(46, 389); OneSection(47, 397);
  }

  lemma LastQuarter()
    requires Sections(48) == 13278
    ensures Sections(64) == 21135
  {
    hide Sections, Section;
    OneSection(48, 406); OneSection(49, 415); OneSection(50, 424); OneSection(51, 434);
    OneSection(52, 444); OneSection(53, 455); OneSection(54, 466); OneSection(55, 478);
    OneSection(56, 490); OneSection(57, 504); OneSection(58, 517); OneSection(59, 532);
    OneSection(60, 547); OneSection(61, 564); OneSection(62, 581); OneSection(63, 600);
  }

  /** The old modifier stays while its block and the previous one are in the same
      interval of ten minutes, or it is in a later one. */
  lemma KeepsModifier(index: BlockMap, hash: Hasher, chain: seq<Hash>, i: nat)
    requires i < |chain| && (forall j | 0 <= j < |chain| :: chain[j] in index) && index[chain[i]].generatedModifier
    requires forall j | 0 <= j < i :: !index[chain[j]].generatedModifier
    requires forall a, b | 0 <= a < b < |chain| :: chain[a] != chain[b]
    requires EntropyBits(index)
    ensures var next := NextModifier(index, hash, chain);
      && next.Some?
      && (next.value.1 <==> exists t: nat :: index[chain[i]].nTime < 600 * t <= index[chain[0]].nTime)
      && (!next.value.1 ==> next.value.0 == index[chain[i]].nStakeModifier)
  {
    hide RunRounds, LastGenerated, SortedCandidates, Sections;
    LastIs(index, chain, i);
    ModifierExists(index, hash, chain);
    var a, b := index[chain[i]].nTime, index[chain[0]].nTime;
    if a / 600 < b / 600 { assert a < 600 * (b / 600) <= b; }
    if t: nat :| a < 600 * t <= b { assert a / 600 < t <= b / 600; }
  }
}
