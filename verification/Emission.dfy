// What a proof-of-stake block may create: main.cpp's subsidy schedule.
module Emission {
  const COIN: int := 100_000_000
  const REWARD_HALVING_PERIOD: int := 1_000_000
  const INT64_MAX: int := 0x7FFF_FFFF_FFFF_FFFF
  const LAST_FIXED_HEIGHT: nat := 13500

  function Halved(n: nat, times: nat): (h: nat)
    ensures h <= n
  {
    if times == 0 then n else Halved(n / 2, times - 1)
  }

  /** The subsidy before fees; for the last range, halved and then reduced
      towards the next halving. */
  function Subsidy(nHeight: int): int {
    if nHeight < 5000 then 30 * COIN
    else if nHeight < 7000 then 45 * COIN
    else if nHeight < 7250 then 190 * COIN
    else if nHeight < 8500 then 80 * COIN
    else if nHeight < 10000 then 15 * COIN
    else if nHeight < LAST_FIXED_HEIGHT then 30 * COIN
    else
      var halvings := nHeight / REWARD_HALVING_PERIOD;
      var nSubsidy := if halvings >= 64 then 0 else Halved(40 * COIN, halvings);
      nSubsidy - nSubsidy * (nHeight % REWARD_HALVING_PERIOD) / (2 * REWARD_HALVING_PERIOD)
  }

  function GetProofOfStakeReward(nCoinAge: int, nFees: int, nHeight: int): int {
    Subsidy(nHeight) + nFees
  }

  function GetProofOfWorkReward(nFees: int, nHeight: int): int {
    (if nHeight < 120 then 0
     else if nHeight < 950 then 750 * COIN
     else if nHeight < 1400 then 550 * COIN
     else if nHeight < 1900 then 425 * COIN
     else if nHeight < 2400 then 325 * COIN
     else if nHeight < 2850 then 251 * COIN
     else if nHeight < 3500 then 190 * COIN
     else if nHeight < 4000 then 105 * COIN
     else 0) + nFees
  }

  /** The subsidy of the period k before its linear reduction. */
  function Base(k: nat): nat { if k >= 64 then 0 else Halved(40 * COIN, k) }

  function At(k: nat, r: nat): int {
    Base(k) - Base(k) * r / (2 * REWARD_HALVING_PERIOD)
  }

  lemma SubsidyAt(h: nat)
    requires h >= LAST_FIXED_HEIGHT
    ensures Subsidy(h) == At(h / REWARD_HALVING_PERIOD, h % REWARD_HALVING_PERIOD)
  {
  }

  lemma {:induction false} HalvedOnce(n: nat, k: nat)
    ensures Halved(n, k + 1) == Halved(n, k) / 2
  {
    if k > 0 { HalvedOnce(n / 2, k - 1); }
  }

  lemma BaseHalves(k: nat)
    ensures Base(k + 1) == Base(k) / 2 <= 20 * COIN && Base(k) <= 40 * COIN
  {
    HalvedOnce(40 * COIN, k);
    if k == 63 { HalvedAway(63); }
  }

  /** After 32 halvings nothing of 40 coins is left. */
  lemma {:induction false} HalvedAway(k: nat)
    requires k >= 32
    ensures Halved(40 * COIN, k) == 0
  {
    if k == 32 {
      assert Halved(40 * COIN, 32) == Halved(40 * COIN / 256, 24) by { Eight(40 * COIN, 24); }
      Eight(40 * COIN / 256, 16);
      Eight(40 * COIN / 256 / 256, 8);
      Eight(40 * COIN / 256 / 256 / 256, 0);
    } else {
      HalvedOnce(40 * COIN, k - 1);
      HalvedAway(k - 1);
    }
  }

  lemma Eight(n: nat, k: nat)
    ensures Halved(n, k + 8) == Halved(n / 256, k)
  {
    assert Halved(n, k + 8) == Halved(n / 2 / 2, k + 6) == Halved(n / 4, k + 6);
    assert Halved(n / 4, k + 6) == Halved(n / 4 / 2 / 2, k + 4) == Halved(n / 16, k + 4);
    assert Halved(n / 16, k + 4) == Halved(n / 16 / 2 / 2, k + 2) == Halved(n / 64, k + 2);
    assert Halved(n / 64, k + 2) == Halved(n / 64 / 2 / 2, k) == Halved(n / 256, k);
  }

  lemma MulMonotone(b: nat, r: nat, q: nat)
    requires r <= q
    ensures 0 <= b * r <= b * q
  {
  }

  lemma Within(b: nat, r: nat)
    requires r <= REWARD_HALVING_PERIOD
    ensures 0 <= b * r / (2 * REWARD_HALVING_PERIOD) <= b / 2
  {
    MulMonotone(b, r, REWARD_HALVING_PERIOD);
  }

  /** One block later: the next offset, or the start of the next period. */
  lemma NextHeight(h: nat)
    ensures var (k, r) := (h / REWARD_HALVING_PERIOD, h % REWARD_HALVING_PERIOD);
      if r + 1 < REWARD_HALVING_PERIOD
      then (h + 1) / REWARD_HALVING_PERIOD == k && (h + 1) % REWARD_HALVING_PERIOD == r + 1
      else (h + 1) / REWARD_HALVING_PERIOD == k + 1 && (h + 1) % REWARD_HALVING_PERIOD == 0
  {
  }

  /** The subsidy never grows from one block to the next, halvings included. */
  lemma NonIncreasing(h: nat)
    requires h >= LAST_FIXED_HEIGHT
    ensures 0 <= Subsidy(h + 1) <= Subsidy(h)
  {
    var k, r := h / REWARD_HALVING_PERIOD, h % REWARD_HALVING_PERIOD;
    SubsidyAt(h);
    SubsidyAt(h + 1);
    NextHeight(h);
    BaseHalves(k);
    Within(Base(k), r);
    if r + 1 < REWARD_HALVING_PERIOD {
      MulMonotone(Base(k), r, r + 1);
      Within(Base(k), r + 1);
    } else {
      Within(Base(k + 1), 0);
    }
  }

  lemma {:induction false} SubsidyMonotone(h: nat, h': nat)
    requires LAST_FIXED_HEIGHT <= h <= h'
    ensures 0 <= Subsidy(h') <= Subsidy(h) <= 40 * COIN
    decreases h' - h
  {
    hide Subsidy;
    if h < h' {
      SubsidyMonotone(h, h' - 1);
      NonIncreasing(h' - 1);
    } else {
      SubsidyRange(h);
    }
  }

  lemma SubsidyRange(h: nat)
    requires h >= LAST_FIXED_HEIGHT
    ensures 0 <= Subsidy(h) <= 40 * COIN
  {
    SubsidyAt(h);
    BaseHalves(h / REWARD_HALVING_PERIOD);
    Within(Base(h / REWARD_HALVING_PERIOD), h % REWARD_HALVING_PERIOD);
  }

  lemma SubsidyEnds(h: nat)
    requires h >= 32 * REWARD_HALVING_PERIOD
    ensures Subsidy(h) == 0
  {
    var k := h / REWARD_HALVING_PERIOD;
    if k < 64 { HalvedAway(k); }
    SubsidyAt(h);
    assert Base(k) == 0;
  }

  /** Every intermediate value of the reward fits in 64 bits. */
  lemma NoOverflow(h: nat, nFees: int)
    requires 0 <= nFees <= 50_000_000_000 * COIN && h <= 0x7FFF_FFFF
    ensures var k, r := h / REWARD_HALVING_PERIOD, h % REWARD_HALVING_PERIOD;
      0 <= Base(k) * r <= INT64_MAX && 0 <= Subsidy(h) && 0 <= GetProofOfStakeReward(0, nFees, h) <= INT64_MAX
  {
    var k, r := h / REWARD_HALVING_PERIOD, h % REWARD_HALVING_PERIOD;
    BaseHalves(k);
    MulMonotone(Base(k), r, REWARD_HALVING_PERIOD);
    if h >= LAST_FIXED_HEIGHT { SubsidyRange(h); }
  }

  // -------------------------------------------------------------- the whole supply

  function Total(from: nat, to: nat): int
    decreases to - from
  {
    if from >= to then 0 else Subsidy(from) + Total(from + 1, to)
  }

  /** Four million times an upper bound of everything created from offset r of
      period k on: what the period still gives, and the geometric tail. */
  function Potential(k: nat, r: nat): int {
    var p := REWARD_HALVING_PERIOD;
    4 * p * (p - r) * (Base(k) + 1) - Base(k) * (p * (p - 1) - r * (r - 1)) + Tail(k)
  }

  function Tail(k: nat): int {
    var p := REWARD_HALVING_PERIOD;
    p * ((3 * p + 1) * 2 * Base(k + 1) + 4 * p * (31 - k))
  }

  lemma Spread(u: int, m: int, v: int)
    ensures u * (m - 1) == u * m - u && v * (m + 1) == v * m + v && v * (m - 1) == v * m - v
  {
  }

  lemma Square(b: int, r: int, c: int)
    ensures b * (c - r * (r - 1)) == b * c - b * r * (r - 1)
    ensures b * (c - (r + 1) * r) == b * c - b * r * (r + 1)
  {
    assert b * (r * (r - 1)) == b * r * (r - 1);
    assert b * ((r + 1) * r) == b * r * (r + 1);
    Distribute(b, c, r * (r - 1));
    Distribute(b, c, (r + 1) * r);
  }

  lemma Distribute(a: int, b: int, c: int)
    ensures a * (b - c) == a * b - a * c
  {
  }

  /** One block of a period uses up no more than it takes off the potential. */
  lemma PotentialStep(k: nat, r: nat)
    requires r < REWARD_HALVING_PERIOD
    ensures Potential(k, r) >= 4 * REWARD_HALVING_PERIOD * At(k, r) + Potential(k, r + 1)
  {
    hide Base;
    var p, b := REWARD_HALVING_PERIOD, Base(k);
    var u, v := 4 * p * (b + 1), b * r;
    Spread(u, p - r, 0);
    assert u * (p - (r + 1)) == u * (p - r) - u;
    Square(b, r, p * (p - 1));
    Spread(0, r, v);
    assert (r + 1) * (r + 1 - 1) == (r + 1) * r;
  }

  lemma PeriodEnd(k: nat)
    requires k < 32
    ensures Potential(k, REWARD_HALVING_PERIOD) == Tail(k)
    ensures Tail(k) >= if k < 31 then Potential(k + 1, 0) else 0
  {
    BaseHalves(k + 1);
    if k == 31 { HalvedAway(32); }
  }

  ghost function PotentialAt(h: nat): int {
    if h < 32 * REWARD_HALVING_PERIOD then Potential(h / REWARD_HALVING_PERIOD, h % REWARD_HALVING_PERIOD) else 0
  }

  lemma StepAt(h: nat)
    requires h >= LAST_FIXED_HEIGHT
    ensures PotentialAt(h) >= 4 * REWARD_HALVING_PERIOD * Subsidy(h) + PotentialAt(h + 1)
  {
    hide Potential, Tail, At;
    if h < 32 * REWARD_HALVING_PERIOD {
      var k, r := h / REWARD_HALVING_PERIOD, h % REWARD_HALVING_PERIOD;
      SubsidyAt(h);
      NextHeight(h);
      PotentialStep(k, r);
      if r + 1 == REWARD_HALVING_PERIOD { PeriodEnd(k); }
    } else {
      SubsidyEnds(h);
    }
  }

  lemma {:induction false} TotalBelowPotential(from: nat, n: nat)
    requires LAST_FIXED_HEIGHT <= from
    ensures 4 * REWARD_HALVING_PERIOD * Total(from, from + n) <= PotentialAt(from) - PotentialAt(from + n)
    decreases n
  {
    hide PotentialAt, Subsidy;
    if n > 0 {
      StepAt(from);
      TotalBelowPotential(from + 1, n - 1);
    }
  }

  lemma {:induction false} PotentialPositive(h: nat, end: nat)
    requires LAST_FIXED_HEIGHT <= h && end == 32 * REWARD_HALVING_PERIOD
    ensures PotentialAt(h) >= 0
    decreases end - h
  {
    hide Subsidy;
    if h < end {
      PotentialPositive(h + 1, end);
      StepAt(h);
      SubsidyRange(h);
    }
  }

  lemma {:induction false} LaterIsLess(from: nat, from': nat, to: nat)
    requires LAST_FIXED_HEIGHT <= from <= from'
    ensures Total(from', to) <= Total(from, to)
    decreases from' - from
  {
    if from < from' {
      LaterIsLess(from + 1, from', to);
      SubsidyRange(from);
    }
  }

  /** However long the chain grows, proof of stake from height 13500 on creates
      at most 60,000,000 coins, without fees. */
  lemma EmissionBound(from: nat, to: nat)
    requires LAST_FIXED_HEIGHT <= from
    ensures Total(from, to) <= 60_000_000 * COIN
  {
    hide Subsidy;
    LaterIsLess(LAST_FIXED_HEIGHT, from, to);
    if to >= LAST_FIXED_HEIGHT {
      TotalBelowPotential(LAST_FIXED_HEIGHT, to - LAST_FIXED_HEIGHT);
      PotentialPositive(to, 32 * REWARD_HALVING_PERIOD);
      FirstPotential();
    }
  }

  lemma FirstPotential()
    ensures PotentialAt(LAST_FIXED_HEIGHT) <= 4 * REWARD_HALVING_PERIOD * 60_000_000 * COIN
  {
    assert Base(0) == 40 * COIN && Base(1) == 20 * COIN;
  }

  // ------------------------------------------------------------- the first heights

  lemma {:induction false} TotalOfEqual(from: nat, n: nat, value: int)
    requires forall h | from <= h < from + n :: Subsidy(h) == value
    ensures Total(from, from + n) == n * value
    decreases n
  {
    hide Subsidy;
    if n > 0 { TotalOfEqual(from + 1, n - 1, value); }
  }

  lemma {:induction false} TotalSplits(from: nat, mid: nat, to: nat)
    requires from <= mid <= to
    ensures Total(from, to) == Total(from, mid) + Total(mid, to)
    decreases mid - from
  {
    hide Subsidy;
    if from < mid { TotalSplits(from + 1, mid, to); }
  }

  lemma FixedRanges()
    ensures forall h | 0 <= h < 5000 :: Subsidy(h) == 30 * COIN
    ensures forall h | 5000 <= h < 7000 :: Subsidy(h) == 45 * COIN
    ensures forall h | 7000 <= h < 7250 :: Subsidy(h) == 190 * COIN
    ensures forall h | 7250 <= h < 8500 :: Subsidy(h) == 80 * COIN
    ensures forall h | 8500 <= h < 10000 :: Subsidy(h) == 15 * COIN
    ensures forall h | 10000 <= h < 13500 :: Subsidy(h) == 30 * COIN
  {
  }

  /** Before the halving schedule starts, blocks of stake may create 515,000 coins in all. */
  lemma FixedTotal()
    ensures Total(0, LAST_FIXED_HEIGHT) == 515_000 * COIN
  {
    hide Subsidy, Total;
    FixedRanges();
    TotalOfEqual(0, 5000, 30 * COIN);
    TotalOfEqual(5000, 2000, 45 * COIN);
    TotalOfEqual(7000, 250, 190 * COIN);
    TotalOfEqual(7250, 1250, 80 * COIN);
    TotalOfEqual(8500, 1500, 15 * COIN);
    TotalOfEqual(10000, 3500, 30 * COIN);
    TotalSplits(0, 5000, 13500);
    TotalSplits(5000, 7000, 13500);
    TotalSplits(7000, 7250, 13500);
    TotalSplits(7250, 8500, 13500);
    TotalSplits(8500, 10000, 13500);
  }

  /** So blocks of stake never create more than 60,515,000 coins, from the first height on. */
  lemma AllStake(to: nat)
    ensures Total(0, to) <= 60_515_000 * COIN
  {
    FixedTotal();
    if to >= LAST_FIXED_HEIGHT {
      TotalSplits(0, LAST_FIXED_HEIGHT, to);
      EmissionBound(LAST_FIXED_HEIGHT, to);
    } else {
      TotalSplits(0, to, LAST_FIXED_HEIGHT);
      TotalPositive(to, LAST_FIXED_HEIGHT - to);
    }
  }

  lemma {:induction false} TotalPositive(from: nat, n: nat)
    requires from + n <= LAST_FIXED_HEIGHT
    ensures Total(from, from + n) >= 0
    decreases n
  {
    if n > 0 { TotalPositive(from + 1, n - 1); }
  }

  function WorkTotal(from: nat, to: nat): int
    decreases to - from
  {
    if from >= to then 0 else GetProofOfWorkReward(0, from) + WorkTotal(from + 1, to)
  }

  lemma {:induction false} WorkOfEqual(from: nat, n: nat, value: int, to: nat)
    requires from + n <= to && forall h | from <= h < from + n :: GetProofOfWorkReward(0, h) == value
    ensures WorkTotal(from, to) == n * value + WorkTotal(from + n, to)
    decreases n
  {
    hide GetProofOfWorkReward;
    if n > 0 { WorkOfEqual(from + 1, n - 1, value, to); }
  }

  lemma WorkRanges()
    ensures forall h | 0 <= h < 120 || h >= 4000 :: GetProofOfWorkReward(0, h) == 0
    ensures forall h | 120 <= h < 950 :: GetProofOfWorkReward(0, h) == 750 * COIN
    ensures forall h | 950 <= h < 1400 :: GetProofOfWorkReward(0, h) == 550 * COIN
    ensures forall h | 1400 <= h < 1900 :: GetProofOfWorkReward(0, h) == 425 * COIN
    ensures forall h | 1900 <= h < 2400 :: GetProofOfWorkReward(0, h) == 325 * COIN
    ensures forall h | 2400 <= h < 2850 :: GetProofOfWorkReward(0, h) == 251 * COIN
    ensures forall h | 2850 <= h < 3500 :: GetProofOfWorkReward(0, h) == 190 * COIN
    ensures forall h | 3500 <= h < 4000 :: GetProofOfWorkReward(0, h) == 105 * COIN
    ensures forall nFees, h :: GetProofOfWorkReward(nFees, h) == GetProofOfWorkReward(0, h) + nFees
  {
  }

  lemma NoWork(to: nat)
    ensures WorkTotal(to, to) == 0
  {
  }

  /** Blocks of work create 1,533,950 coins in all, none of them from height 4000 on;
      besides that each may pay the fees. */
  lemma AllWork(to: nat, nFees: int, h: nat)
    requires to >= 4000
    ensures WorkTotal(0, to) == 1_533_950 * COIN
    ensures GetProofOfWorkReward(nFees, h) == GetProofOfWorkReward(0, h) + nFees
    ensures h >= 4000 ==> GetProofOfWorkReward(nFees, h) == nFees
  {
    hide GetProofOfWorkReward, WorkTotal;
    WorkRanges();
    NoWork(to);
    WorkOfEqual(0, 120, 0, to);
    WorkOfEqual(120, 830, 750 * COIN, to);
    WorkOfEqual(950, 450, 550 * COIN, to);
    WorkOfEqual(1400, 500, 425 * COIN, to);
    WorkOfEqual(1900, 500, 325 * COIN, to);
    WorkOfEqual(2400, 450, 251 * COIN, to);
    WorkOfEqual(2850, 650, 190 * COIN, to);
    WorkOfEqual(3500, 500, 105 * COIN, to);
    WorkOfEqual(4000, to - 4000, 0, to);
  }
}
