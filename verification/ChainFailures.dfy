// A concrete run in which the forward links go wrong.
module ChainFailures {
  import opened HashType
  import opened Options
  import opened Sequences
  import opened ChainTree
  import opened BestChain
  import opened Relinking
  import opened ChainRuns

  /** Every block of the example has this target and the sixteenth part of 2^256 as its trust. */
  const TARGET: int := 15
  const STEP: nat := 0x1000_0000_0000_0000_0000_0000_0000_0000_0000_0000_0000_0000_0000_0000_0000_0000

  /** Everything works but what is said otherwise. */
  function Working(begins: bool, readsBack: bool, attaches: Hash -> bool): Oracle {
    Oracle(true, true, begins, h => true, h => true, true, h => readsBack, h => true, attaches, h => true)
  }

  /** Block 1 on the genesis block 0: its database transaction does not begin. */
  function First(): Call { Add(Working(false, true, h => true), 1, 0, TARGET) }

  /** Block 2 on block 1 is postponed, and attaching it fails. */
  function Second(): Call { Add(Working(true, true, h => h != 2), 2, 1, TARGET) }

  /** Or it cannot be read back. */
  function SecondUnread(): Call { Add(Working(true, false, h => true), 2, 1, TARGET) }

  /** Block 3 on block 2, whose hash is the recorded best one, goes well. */
  function Third(): Call { Add(Working(true, true, h => true), 3, 2, TARGET) }

  function Genesis(next: Option<Hash>): BlockIndex { BlockIndex(None, next, 0, TARGET, STEP) }

  function Above0(next: Option<Hash>): BlockIndex { BlockIndex(Some(0), next, 1, TARGET, 2 * STEP) }

  function Above1(next: Option<Hash>): BlockIndex { BlockIndex(Some(1), next, 2, TARGET, 3 * STEP) }

  function One(): State { State(0, map[0 := Genesis(None), 1 := Above0(None)], 0, 0, 0, STEP, 0) }

  /** The index when block 2 has just been added. */
  function Three(next: Option<Hash>): BlockMap { map[0 := Genesis(next), 1 := Above0(None), 2 := Above1(None)] }

  lemma Trusts()
    ensures GetBlockTrust(TARGET) == STEP && 3 * STEP < UINT256
  {
  }

  lemma AfterFirst()
    ensures Valid(Start(0, TARGET)) && Traced(Start(0, TARGET).index, 0)
    ensures AddBlock(Start(0, TARGET), First().o, 1, 0, TARGET) == (false, One())
    ensures Valid(One()) && Traced(One().index, 0)
  {
    hide Tree, Valid, Traced, GetBlockTrust, SetBest;
    Trusts();
    StartIsValid(0, TARGET);
    var s, o := Start(0, TARGET), First().o;
    ValidBest(s);
    AddedIsSound(s, 1, 0, TARGET);
    AddedTraced(s, 1, 0, TARGET);
    assert Child(s.index, 0, TARGET) == Above0(None);
    assert s.index[1 := Above0(None)] == One().index;
    assert s.(index := s.index[1 := Above0(None)]) == One();
    ValidBest(One());
    NotBegun(One(), o, 1, 0);
  }

  lemma NotBegun(s: State, o: Oracle, h: Hash, prev: Hash)
    requires Tree(s.index) && s.best in s.index && h in s.index && !o.begins
    ensures SetBest(s, o, h, prev) == (false, s)
  {
  }

  lemma TreeOfThree(next: Option<Hash>)
    ensures Tree(Three(next))
    ensures Chain(Three(next), 0) == [0] && Chain(Three(next), 1) == [0, 1] && Chain(Three(next), 2) == [0, 1, 2]
  {
    Trusts();
    var m := Three(next);
    forall h | h in m ensures Placed(m, h) {
      assert h == 0 || h == 1 || h == 2;
    }
    assert Chain(m, 0) == [0];
    assert Chain(m, 1) == Chain(m, 0) + [1];
    assert Chain(m, 2) == Chain(m, 1) + [2];
  }

  lemma Switch(o: Oracle)
    requires (forall h :: o.disconnects(h)) && (forall h :: o.connects(h)) && o.commits
    ensures Tree(Three(None)) && Reorganized(Three(None), 0, 1, o) == Some(Three(Some(1)))
    ensures Postponed(Three(None), STEP, 2) == ([2], 1)
  {
    hide Tree, Chain;
    TreeOfThree(None);
    var m := Three(None);
    assert Common([0], [0, 1]) == 1 by { assert [0][1..] == []; }
    assert Fork(m, 0, 1) == Some(0);
    ForkBelow(m, 0, 1);
    assert Above(m, 0, 0) == [] && Above(m, 1, 0) == [1];
    assert Reverse(Above(m, 0, 0)) == [];
    assert Link(m, [1]) == Three(Some(1)) by { assert [1][..0] == []; }
    assert Unlink(m, []) == m;
    assert All(o.disconnects, []) && All(o.connects, [1]);
    assert Reorganized(m, 0, 1, o) == Some(Three(Some(1)));
    Parent(m, 1);
    Parent(m, 2);
    assert Postponed(m, STEP, 1) == ([], 1);
    assert [2] + [] == [2];
  }

  /** The state after the second call: the tip is block 1, the recorded hash that of block 2. */
  function Split(): State { State(0, Three(Some(1)), 1, 2, 1, 2 * STEP, 3 * STEP) }

  /** The state if block 2 could not be read back: the tip is block 2 without a link to it. */
  function Unread(): State { State(0, Three(Some(1)), 2, 2, 2, 3 * STEP, 0) }

  lemma Added()
    ensures Valid(One()) && Valid(One().(index := Three(None)))
    ensures 1 in One().index && Child(One().index, 1, TARGET) == Above1(None)
    ensures One().index[2 := Above1(None)] == Three(None)
  {
    hide Tree, Valid, GetBlockTrust;
    Trusts();
    AfterFirst();
    ValidBest(One());
    AddedIsSound(One(), 2, 1, TARGET);
  }

  lemma AfterSecond(o: Oracle)
    requires o == Second().o || o == SecondUnread().o
    ensures Valid(One()) && 1 in One().index
    ensures AddBlock(One(), o, 2, 1, TARGET) == (true, if o.readsBack(2) then Split() else Unread())
  {
    hide Tree, Valid, GetBlockTrust, Chain, Reorganized, Postponed, Child;
    Added();
    var t := One().(index := Three(None));
    ValidBest(One());
    ValidBest(t);
    Switch(o);
    PostponedIsAbove(t.index, STEP, 2);
    var a := Attachment(Three(Some(1)), 2, 0);
    assert Reverse([2]) == [2] by { ReverseOne(2); }
    if o.readsBack(2) {
      assert Attach(a, o, [2]) == Attachment(Three(Some(1)), 1, 3 * STEP);
      assert SetNext(Three(Some(1)), 1, None) == Three(Some(1));
      assert Finish(t.(nInvalidTrust := 3 * STEP), Three(Some(1)), 1, 2) == Split();
    } else {
      assert Attach(a, o, [2]) == a;
      assert SetNext(Three(Some(1)), 2, None) == Three(Some(1));
      assert Finish(t, Three(Some(1)), 2, 2) == Unread();
    }
    assert SetBest(t, o, 2, 1) == (true, if o.readsBack(2) then Split() else Unread());
  }

  lemma RunOne(c: Call)
    requires c == Second() || c == SecondUnread()
    ensures Run(Start(0, TARGET), [First()]) == One()
    ensures Run(Start(0, TARGET), [First(), c]) == if c == Second() then Split() else Unread()
    ensures Valid(Run(Start(0, TARGET), [First(), c]))
  {
    hide Valid, AddBlock, Improves;
    var s := Start(0, TARGET);
    AfterFirst();
    AfterSecond(c.o);
    assert Run(s, []) == s;
    assert [First()][..0] == [];
    assert 0 in s.index;
    assert Run(s, [First()]) == One();
    assert [First(), c][..1] == [First()];
    assert c.o.readsBack(2) <==> c == Second();
    RunImproves(s, [First(), c]);
    ImprovesIsValid(s, Run(s, [First(), c]));
  }

  /** A failed postponed block leaves a tip that is not the recorded best hash;
      the next block on that hash becomes the best one, and its ancestor, block
      1, is no longer in the main chain. */
  lemma LinksBreakOnMismatch()
    ensures var s := Run(Start(0, TARGET), [First(), Second()]);
      && Valid(s) && Traced(s.index, s.best) && s.hashBest != s.best
      && Breaking(s, Third())
    ensures var t := Run(Start(0, TARGET), [First(), Second(), Third()]);
      Valid(t) && t.best == 3 && !Traced(t.index, t.best)
  {
    hide Valid, AddBlock, Improves, Traced, Tree, Chain;
    RunOne(Second());
    SplitTraced();
    ThirdBreaks();
    var calls := [First(), Second(), Third()];
    assert calls[..2] == [First(), Second()];
    RunImproves(Start(0, TARGET), calls);
    ImprovesIsValid(Start(0, TARGET), Run(Start(0, TARGET), calls));
    AddTraces(Split(), Third().o, 3, 2, TARGET);
  }

  lemma SplitTraced()
    requires Valid(Split())
    ensures Traced(Split().index, Split().best)
  {
    hide Valid, Chain;
    TreeOfThree(Some(1));
    var m := Three(Some(1));
    forall h | h in m ensures m[h].pnext == NextOn(m, 1, h) {
      assert h == 0 || h == 1 || h == 2;
    }
  }

  lemma ThirdBreaks()
    requires Valid(Split())
    ensures 2 in Split().index && AddBreaks(Split(), Third().o, 3, 2, TARGET)
    ensures AddBlock(Split(), Third().o, 3, 2, TARGET).1.best == 3
  {
    hide Valid, Tree, GetBlockTrust, SetParentNext;
    Trusts();
    ValidBest(Split());
    AddedIsSound(Split(), 3, 2, TARGET);
    var c := Child(Split().index, 2, TARGET);
    assert c.nChainTrust == (3 * STEP + STEP) % UINT256 > 2 * STEP;
    var t := Split().(index := Split().index[3 := c]);
    ValidBest(t);
    SetParentKeeps(t.index, 3, Some(3));
  }

  /** A postponed block that cannot be read back becomes the tip without a link to it. */
  lemma LinksBreakOnUnread()
    ensures Breaking(One(), SecondUnread()) && Traced(One().index, One().best)
    ensures var t := Run(Start(0, TARGET), [First(), SecondUnread()]);
      Valid(t) && t.best == 2 && !Traced(t.index, t.best)
  {
    hide Valid, AddBlock, Improves, Traced, Tree, Chain;
    AfterFirst();
    RunOne(SecondUnread());
    AfterSecond(SecondUnread().o);
    UnreadIsGap();
    AddTraces(One(), SecondUnread().o, 2, 1, TARGET);
  }

  lemma UnreadIsGap()
    ensures !Traced(Unread().index, 2)
  {
    hide Tree, Chain, Traced;
    TreeOfThree(Some(1));
    GapBreaksTrace(Three(Some(1)), 2, 1);
  }
}
