// Which entry of a full tried bucket is to make room: the draws of SelectTried.
module TriedChoice {
  import opened AddrTables

  /** The bucket after round i has exchanged places i and positions[i], for every i. */
  function Drawn(bucket: seq<int>, positions: seq<nat>): (r: seq<int>)
    ensures |r| == |bucket|
  {
    if positions == [] then bucket else
      var n := |positions| - 1;
      var s := Drawn(bucket, positions[..n]);
      if n < |s| && positions[n] < |s| then s[positions[n] := s[n]][n := s[positions[n]]] else s
  }

  /** Round i draws a place from i on. */
  ghost predicate LegalDraws(bucket: seq<int>, positions: seq<nat>) {
    |positions| <= |bucket| && forall i | 0 <= i < |positions| :: i <= positions[i] < |bucket|
  }

  lemma SwapKeeps(s: seq<int>, i: nat, j: nat)
    requires i < |s| && j < |s|
    ensures multiset(s[j := s[i]][i := s[j]]) == multiset(s)
    ensures Distinct(s) ==> Distinct(s[j := s[i]][i := s[j]])
  {
  }

  lemma {:induction false} DrawnKeeps(bucket: seq<int>, positions: seq<nat>)
    requires LegalDraws(bucket, positions)
    ensures multiset(Drawn(bucket, positions)) == multiset(bucket)
    ensures Distinct(bucket) ==> Distinct(Drawn(bucket, positions))
  {
    hide Distinct;
    if positions != [] {
      var n := |positions| - 1;
      DrawnKeeps(bucket, positions[..n]);
      SwapKeeps(Drawn(bucket, positions[..n]), n, positions[n]);
    }
  }

  /** Later rounds leave the places of earlier ones alone. */
  lemma {:induction false} DrawnStays(bucket: seq<int>, positions: seq<nat>, k: nat, i: nat)
    requires LegalDraws(bucket, positions) && i < k <= |positions|
    ensures LegalDraws(bucket, positions[..k])
    ensures Drawn(bucket, positions)[i] == Drawn(bucket, positions[..k])[i]
  {
    var n := |positions| - 1;
    if k <= n {
      DrawnStays(bucket, positions[..n], k, i);
      assert positions[..n][..k] == positions[..k];
    } else {
      assert positions[..k] == positions;
    }
  }

  function StampOf(m: map<int, AddrInfo>, id: int): int { if id in m then m[id].nLastSuccess else 0 }

  /** Of the first n places, the first with the least time of last success. */
  function OldestRound(m: map<int, AddrInfo>, s: seq<int>, n: nat): (w: nat)
    requires 0 < n <= |s|
    ensures w < n
    ensures forall i | 0 <= i < n :: StampOf(m, s[w]) <= StampOf(m, s[i]) && (i < w ==> StampOf(m, s[w]) < StampOf(m, s[i]))
  {
    if n == 1 then 0 else
      var w := OldestRound(m, s, n - 1);
      if StampOf(m, s[n - 1]) < StampOf(m, s[w]) then n - 1 else w
  }

  lemma {:induction false} OldestRoundOf(m: map<int, AddrInfo>, s: seq<int>, t: seq<int>, n: nat)
    requires 0 < n <= |s| && n <= |t| && forall i | 0 <= i < n :: s[i] == t[i]
    ensures OldestRound(m, s, n) == OldestRound(m, t, n)
  {
    if n > 1 { OldestRoundOf(m, s, t, n - 1); }
  }

  function Inspected(bucket: seq<int>): nat {
    if |bucket| < TRIED_ENTRIES_INSPECT_ON_EVICT then |bucket| else TRIED_ENTRIES_INSPECT_ON_EVICT
  }

  /** The position that is returned: the place from which the winning round drew. */
  function Answer(m: map<int, AddrInfo>, bucket: seq<int>, positions: seq<nat>): int
    requires LegalDraws(bucket, positions)
  {
    if positions == [] then -1 else positions[OldestRound(m, Drawn(bucket, positions), |positions|)]
  }

  /** The answer names the winning round's entry, the first of least time,
      exactly if that round drew its own place: an entry drawn from further back
      has been moved to the front.  If no two times agree, nothing else named has
      the least time. */
  lemma NamesOldestIff(m: map<int, AddrInfo>, bucket: seq<int>, positions: seq<nat>)
    requires LegalDraws(bucket, positions) && positions != [] && Distinct(bucket)
    ensures var s := Drawn(bucket, positions); var w := OldestRound(m, s, |positions|);
      && 0 <= Answer(m, bucket, positions) < |s|
      && (s[Answer(m, bucket, positions)] == s[w] <==> positions[w] == w)
      && (DistinctStamps(m, bucket) ==>
            (StampOf(m, s[Answer(m, bucket, positions)]) == StampOf(m, s[w]) <==> positions[w] == w))
  {
    hide Drawn;
    DrawnKeeps(bucket, positions);
    var w := OldestRound(m, Drawn(bucket, positions), |positions|);
    DrawnMember(bucket, positions, w);
    DrawnMember(bucket, positions, positions[w]);
  }

  ghost predicate DistinctStamps(m: map<int, AddrInfo>, bucket: seq<int>) {
    forall x, y | x in bucket && y in bucket && x != y :: StampOf(m, x) != StampOf(m, y)
  }

  /** In a bucket of two, when the first round draws the second place, the newer entry is named. */
  lemma NamesAnother(older: AddrInfo, newer: AddrInfo)
    requires older.nLastSuccess < newer.nLastSuccess
    ensures var m := map[1 := older, 2 := newer];
      && LegalDraws([2, 1], [1, 1]) && Inspected([2, 1]) == 2
      && Drawn([2, 1], [1, 1]) == [1, 2] && OldestRound(m, [1, 2], 2) == 0
      && Answer(m, [2, 1], [1, 1]) == 1 && StampOf(m, [1, 2][1]) > StampOf(m, [1, 2][0])
  {
    assert [1, 1][..1] == [1] && [1][..0] == [];
    assert Drawn([2, 1], []) == [2, 1];
    assert Drawn([2, 1], [1]) == [1, 2];
    assert Drawn([2, 1], [1, 1]) == [1, 2];
    var m := map[1 := older, 2 := newer];
    assert OldestRound(m, [1, 2], 1) == 0;
  }

  lemma NothingDrawn(bucket: seq<int>)
    ensures Drawn(bucket, []) == bucket
  {
  }

  lemma DrawnMember(bucket: seq<int>, positions: seq<nat>, i: nat)
    requires LegalDraws(bucket, positions) && i < |bucket|
    ensures Drawn(bucket, positions)[i] in bucket
  {
    hide Drawn;
    DrawnKeeps(bucket, positions);
    assert Drawn(bucket, positions)[i] in multiset(Drawn(bucket, positions));
  }

  lemma AnswerIsMember(m: map<int, AddrInfo>, bucket: seq<int>, positions: seq<nat>)
    requires LegalDraws(bucket, positions) && positions != []
    ensures multiset(Drawn(bucket, positions)) == multiset(bucket)
    ensures 0 <= Answer(m, bucket, positions) < |Drawn(bucket, positions)|
    ensures Drawn(bucket, positions)[Answer(m, bucket, positions)] in bucket
  {
    hide Drawn;
    DrawnKeeps(bucket, positions);
    DrawnMember(bucket, positions, Answer(m, bucket, positions));
  }

  /** One more round: its entry takes the lead if it is older. */
  lemma OneMoreDraw(m: map<int, AddrInfo>, bucket: seq<int>, positions: seq<nat>, nPos: nat)
    requires LegalDraws(bucket, positions) && |positions| <= nPos < |bucket|
    ensures var n := |positions|; var s := Drawn(bucket, positions); var more := positions + [nPos];
      && LegalDraws(bucket, more) && Drawn(bucket, more) == s[nPos := s[n]][n := s[nPos]]
      && var t := Drawn(bucket, more);
         if n == 0 then OldestRound(m, t, 1) == 0
         else
           var w := OldestRound(m, s, n);
           s[w] == t[w] && OldestRound(m, t, n + 1) == if StampOf(m, s[nPos]) < StampOf(m, s[w]) then n else w
  {
    var n, more := |positions|, positions + [nPos];
    assert more[..n] == positions;
    var s, t := Drawn(bucket, positions), Drawn(bucket, more);
    if n > 0 { OldestRoundOf(m, s, t, n); }
  }
}
