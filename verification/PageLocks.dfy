// Reference counts of locked memory pages: LockedPageManagerBase in allocators.h.
module PageLocks {
  import Limbs

  /** One past the largest address: size_t has 64 bits. */
  const ADDRESSES: nat := 0x1_0000_0000_0000_0000

  datatype Range = Range(base: nat, size: nat)

  // ------------------------------------------------------------------- page addresses

  /** The bitwise and of two words. */
  function And(x: nat, y: nat): nat {
    if x == 0 || y == 0 then 0 else 2 * And(x / 2, y / 2) + if x % 2 == 1 && y % 2 == 1 then 1 else 0
  }

  /** Masking with ~(2^k - 1) rounds down to a multiple of 2^k. */
  lemma {:induction false} MaskRounds(x: nat, w: nat, k: nat)
    requires k <= w && x < Limbs.Pow2(w)
    ensures Limbs.Pow2(k) <= Limbs.Pow2(w)
    ensures And(x, Limbs.Pow2(w) - Limbs.Pow2(k)) == x / Limbs.Pow2(k) * Limbs.Pow2(k)
    decreases w
  {
    if w == 0 {
    } else if k == 0 {
      AllOnes(x, w);
    } else {
      var p, q := Limbs.Pow2(w - 1), Limbs.Pow2(k - 1);
      MaskRounds(x / 2, w - 1, k - 1);
      Limbs.Pow2Monotone(k - 1, w - 1);
      assert Limbs.Pow2(w) - Limbs.Pow2(k) == 2 * (p - q);
      HalfQuotient(x, q);
      if x > 0 && p > q { assert And(x, 2 * (p - q)) == 2 * And(x / 2, p - q); }
      if p == q { assert x / 2 / q == 0 by { Limbs.DivUnique(x / 2, q, 0, x / 2); } }
    }
  }

  lemma {:induction false} AllOnes(x: nat, w: nat)
    requires x < Limbs.Pow2(w)
    ensures And(x, Limbs.Pow2(w) - 1) == x
    decreases w
  {
    if w > 0 { AllOnes(x / 2, w - 1); }
  }

  lemma HalfQuotient(x: nat, q: nat)
    requires q > 0
    ensures x / (2 * q) == x / 2 / q && x / (2 * q) * (2 * q) == 2 * (x / 2 / q * q)
  {
    var y := x / 2;
    var a, b := y / q, y % q;
    assert y == a * q + b && x == 2 * y + x % 2;
    assert a * (2 * q) == 2 * (a * q);
    Limbs.DivUnique(x, 2 * q, a, 2 * b + x % 2);
  }

  function Down(pageSize: nat, x: nat): nat
    requires pageSize > 0
  {
    x / pageSize * pageSize
  }

  // ------------------------------------------------------------------ counting ranges

  /** The page at this address holds a byte of the range. */
  predicate Touches(pageSize: nat, r: Range, page: nat)
    requires pageSize > 0
  {
    r.size > 0 && page % pageSize == 0 && Down(pageSize, r.base) <= page <= Down(pageSize, r.base + r.size - 1)
  }

  predicate HasByte(r: Range, x: nat) { r.base <= x < r.base + r.size }

  predicate OnPage(pageSize: nat, page: nat, x: nat) { page <= x < page + pageSize }

  /** Touching a page is having a byte in it. */
  lemma TouchesIsOverlap(pageSize: nat, r: Range, page: nat)
    requires pageSize > 0 && page % pageSize == 0
    ensures Touches(pageSize, r, page) <==> exists x: nat :: HasByte(r, x) && OnPage(pageSize, page, x)
  {
    hide Down;
    if r.size > 0 {
      var first, last := r.base, r.base + r.size - 1;
      DownBounds(pageSize, first);
      DownBounds(pageSize, last);
      NextMultiple(pageSize, Down(pageSize, first), page);
      NextMultiple(pageSize, page, Down(pageSize, first));
      NextMultiple(pageSize, Down(pageSize, last), page);
      if Touches(pageSize, r, page) {
        var x := if first < page then page else first;
        assert HasByte(r, x) && OnPage(pageSize, page, x);
      }
    }
  }

  lemma DownBounds(pageSize: nat, x: nat)
    requires pageSize > 0
    ensures Down(pageSize, x) <= x < Down(pageSize, x) + pageSize && Down(pageSize, x) % pageSize == 0
  {
    Limbs.DivUnique(Down(pageSize, x), pageSize, x / pageSize, 0);
  }

  /** Between two multiples lies at least the page size. */
  lemma NextMultiple(pageSize: nat, a: nat, b: nat)
    requires pageSize > 0 && a % pageSize == 0 && b % pageSize == 0
    ensures a < b ==> a + pageSize <= b
    ensures (a + pageSize) % pageSize == 0
  {
    var i, j := a / pageSize, b / pageSize;
    Multiple(pageSize, a);
    Multiple(pageSize, b);
    OneFurther(pageSize, i);
    if a < b { MultiplesApart(pageSize, i, j); }
    Limbs.DivUnique(a + pageSize, pageSize, i + 1, 0);
  }

  lemma Multiple(pageSize: nat, a: nat)
    requires pageSize > 0 && a % pageSize == 0
    ensures a == (a / pageSize) * pageSize
  {
    Limbs.DivSmaller(a, pageSize);
  }

  lemma OneFurther(pageSize: nat, i: nat)
    ensures (i + 1) * pageSize == i * pageSize + pageSize
  {
    Limbs.Distribute(i, 1, pageSize);
  }

  lemma MultiplesApart(pageSize: nat, i: nat, j: nat)
    requires i * pageSize < j * pageSize
    ensures i * pageSize + pageSize <= j * pageSize
  {
    if j <= i { Limbs.MulLe(j, i, pageSize); }
    OneFurther(pageSize, i);
    Limbs.MulLe(i + 1, j, pageSize);
  }

  /** How many of the ranges touch the page. */
  function Count(pageSize: nat, rs: seq<Range>, page: nat): nat
    requires pageSize > 0
  {
    if rs == [] then 0
    else Count(pageSize, rs[..|rs| - 1], page) + if Touches(pageSize, rs[|rs| - 1], page) then 1 else 0
  }

  lemma {:induction false} CountWithout(pageSize: nat, rs: seq<Range>, i: nat, page: nat)
    requires pageSize > 0 && i < |rs|
    ensures Count(pageSize, rs, page) ==
            Count(pageSize, rs[..i] + rs[i + 1..], page) + if Touches(pageSize, rs[i], page) then 1 else 0
    decreases |rs|
  {
    var n := |rs| - 1;
    var less := rs[..i] + rs[i + 1..];
    if i < n {
      hide Touches;
      CountWithout(pageSize, rs[..n], i, page);
      assert less[n - 1] == rs[n];
      assert rs[..n][i] == rs[i];
      assert rs[..n][..i] == rs[..i];
      assert rs[..n][i + 1..] == rs[i + 1..n];
      assert less[..n - 1] == rs[..i] + rs[i + 1..n];
    } else {
      assert less == rs[..n];
    }
  }

  function Get(histogram: map<nat, nat>, page: nat): nat { if page in histogram then histogram[page] else 0 }

  /** The histogram counts exactly the given ranges, without empty counters. */
  ghost predicate Counts(pageSize: nat, histogram: map<nat, nat>, rs: seq<Range>)
    requires pageSize > 0
  {
    (forall page | page in histogram :: histogram[page] > 0) &&
    (forall page: nat :: Get(histogram, page) == Count(pageSize, rs, page))
  }

  /** With no range outstanding, no page is counted. */
  lemma NoneLeft(pageSize: nat, histogram: map<nat, nat>)
    requires pageSize > 0 && Counts(pageSize, histogram, [])
    ensures histogram == map[]
  {
    forall page ensures page !in histogram {
      if page in histogram { assert Get(histogram, page) == Count(pageSize, [], page); }
    }
  }

  /** The part of a range that a loop has passed when it reaches page. */
  predicate Passed(pageSize: nat, start: nat, page: nat, q: nat)
    requires pageSize > 0
  {
    q % pageSize == 0 && start <= q < page
  }

  lemma PassedStep(pageSize: nat, start: nat, page: nat, q: nat)
    requires pageSize > 0 && start <= page && page % pageSize == 0
    ensures Passed(pageSize, start, page + pageSize, q) <==> Passed(pageSize, start, page, q) || q == page
  {
    if q % pageSize == 0 { NextMultiple(pageSize, page, q); }
  }

  lemma PassedAll(pageSize: nat, r: Range, page: nat, q: nat)
    requires pageSize > 0 && r.size > 0 && page % pageSize == 0
    requires Down(pageSize, r.base + r.size - 1) < page <= Down(pageSize, r.base + r.size - 1) + pageSize
    ensures Passed(pageSize, Down(pageSize, r.base), page, q) <==> Touches(pageSize, r, q)
  {
    var end := Down(pageSize, r.base + r.size - 1);
    DownBounds(pageSize, r.base + r.size - 1);
    if q % pageSize == 0 { NextMultiple(pageSize, end, q); }
  }

  lemma StartBelowEnd(pageSize: nat, r: Range)
    requires pageSize > 0 && r.size > 0
    ensures Down(pageSize, r.base) <= Down(pageSize, r.base + r.size - 1)
  {
    DownBounds(pageSize, r.base);
    DownBounds(pageSize, r.base + r.size - 1);
    NextMultiple(pageSize, Down(pageSize, r.base + r.size - 1), Down(pageSize, r.base));
  }

  // ------------------------------------------------------------------------- the class

  /** The Locker: locking a page twice or unlocking one that is not locked is an error. */
  class Locker {
    ghost var locked: set<nat>

    constructor ()
      ensures locked == {}
    {
      locked := {};
    }

    ghost method Lock(page: nat)
      requires page !in locked
      modifies this
      ensures locked == old(locked) + {page}
    {
      locked := locked + {page};
    }

    ghost method Unlock(page: nat)
      requires page in locked
      modifies this
      ensures locked == old(locked) - {page}
    {
      locked := locked - {page};
    }
  }

  class LockedPageManager {
    const pageBits: nat
    const pageSize: nat
    const locker: Locker
    var histogram: map<nat, nat>
    ghost var outstanding: seq<Range>

    ghost predicate Valid()
      reads this, locker
    {
      && pageBits < 64 && pageSize == Limbs.Pow2(pageBits)
      && Counts(pageSize, histogram, outstanding)
      && locker.locked == histogram.Keys
    }

    constructor (bits: nat)
      requires bits < 64
      ensures Valid() && outstanding == [] && pageSize == Limbs.Pow2(bits) && fresh(locker)
    {
      pageBits, pageSize, histogram := bits, Limbs.Pow2(bits), map[];
      locker := new Locker();
      outstanding := [];
    }

    /** The last page of the range is not the last of the address space. */
    predicate HasHeadroom(r: Range)
      requires pageSize > 0
    {
      r.size > 0 ==> r.base + r.size <= ADDRESSES && Down(pageSize, r.base + r.size - 1) + pageSize < ADDRESSES
    }

    method PageOf(x: nat) returns (page: nat)
      requires pageBits < 64 && pageSize == Limbs.Pow2(pageBits) && x < ADDRESSES
      ensures page == Down(pageSize, x)
    {
      Words(pageBits);
      MaskRounds(x, 64, pageBits);
      var page_mask := ADDRESSES - pageSize;
      page := And(x, page_mask);
    }

    method LockRange(r: Range)
      requires Valid() && HasHeadroom(r)
      modifies this`histogram, this`outstanding, locker
      ensures Valid() && outstanding == old(outstanding) + [r]
    {
      hide Limbs.Pow2, Down;
      outstanding := outstanding + [r];
      if r.size == 0 {
        Untouched(pageSize, histogram, old(outstanding), r);
        return;
      }
      var start_page := PageOf(r.base);
      var end_page := PageOf(r.base + r.size - 1);
      DownBounds(pageSize, r.base);
      DownBounds(pageSize, r.base + r.size - 1);
      StartBelowEnd(pageSize, r);
      var page := start_page;
      while page <= end_page
        invariant start_page <= page <= end_page + pageSize && page % pageSize == 0
        invariant forall q | q in histogram :: histogram[q] > 0
        invariant forall q: nat ::
          Get(histogram, q) == Get(old(histogram), q) + if Passed(pageSize, start_page, page, q) then 1 else 0
        invariant locker.locked == histogram.Keys
        invariant outstanding == old(outstanding) + [r]
        decreases end_page + pageSize - page
      {
        forall q: nat { PassedStep(pageSize, start_page, page, q); }
        NextMultiple(pageSize, page, page);
        if page !in histogram {
          locker.Lock(page);
          histogram := histogram[page := 1];
        } else {
          histogram := histogram[page := histogram[page] + 1];
        }
        assert page + pageSize < ADDRESSES;
        page := page + pageSize;
      }
      Locked(pageSize, old(histogram), histogram, old(outstanding), r, page);
    }

    /** Unlocks a range that is outstanding, at position i of the ghost list. */
    method UnlockRange(r: Range, ghost i: nat)
      requires Valid() && HasHeadroom(r) && i < |outstanding| && outstanding[i] == r
      modifies this`histogram, this`outstanding, locker
      ensures Valid() && outstanding == old(outstanding)[..i] + old(outstanding)[i + 1..]
    {
      hide Limbs.Pow2, Down;
      outstanding := outstanding[..i] + outstanding[i + 1..];
      if r.size == 0 {
        NeverTouched(pageSize, histogram, old(outstanding), i);
        return;
      }
      var start_page := PageOf(r.base);
      var end_page := PageOf(r.base + r.size - 1);
      DownBounds(pageSize, r.base);
      DownBounds(pageSize, r.base + r.size - 1);
      StartBelowEnd(pageSize, r);
      var page := start_page;
      while page <= end_page
        invariant start_page <= page <= end_page + pageSize && page % pageSize == 0
        invariant forall q | q in histogram :: histogram[q] > 0
        invariant forall q: nat ::
          Get(old(histogram), q) == Get(histogram, q) + if Passed(pageSize, start_page, page, q) then 1 else 0
        invariant locker.locked == histogram.Keys
        invariant outstanding == old(outstanding)[..i] + old(outstanding)[i + 1..]
        decreases end_page + pageSize - page
      {
        forall q: nat { PassedStep(pageSize, start_page, page, q); }
        NextMultiple(pageSize, page, page);
        assert Touches(pageSize, r, page);
        CountWithout(pageSize, old(outstanding), i, page);
        assert Get(old(histogram), page) == Count(pageSize, old(outstanding), page) > 0;
        // a page of an outstanding range has a counter
        assert page in histogram;
        if histogram[page] == 1 {
          locker.Unlock(page);
          histogram := histogram - {page};
        } else {
          histogram := histogram[page := histogram[page] - 1];
        }
        assert page + pageSize < ADDRESSES;
        page := page + pageSize;
      }
      Unlocked(pageSize, old(histogram), histogram, old(outstanding), i, page);
    }

    method GetLockedPageCount() returns (n: nat)
      requires Valid()
      ensures n == |locker.locked|
    {
      n := |histogram|;
    }
  }

  lemma Words(bits: nat)
    requires bits < 64
    ensures Limbs.Pow2(64) == ADDRESSES && 0 < Limbs.Pow2(bits) <= ADDRESSES
  {
    Limbs.Pow2Of32();
    Limbs.Pow2Add(32, 32);
    Limbs.Pow2Monotone(bits, 64);
  }

  lemma Untouched(pageSize: nat, histogram: map<nat, nat>, rs: seq<Range>, r: Range)
    requires pageSize > 0 && Counts(pageSize, histogram, rs) && r.size == 0
    ensures Counts(pageSize, histogram, rs + [r])
  {
    forall q: nat ensures Get(histogram, q) == Count(pageSize, rs + [r], q) {
      assert (rs + [r])[..|rs|] == rs;
    }
  }

  lemma NeverTouched(pageSize: nat, histogram: map<nat, nat>, rs: seq<Range>, i: nat)
    requires pageSize > 0 && Counts(pageSize, histogram, rs) && i < |rs| && rs[i].size == 0
    ensures Counts(pageSize, histogram, rs[..i] + rs[i + 1..])
  {
    forall q: nat ensures Get(histogram, q) == Count(pageSize, rs[..i] + rs[i + 1..], q) {
      CountWithout(pageSize, rs, i, q);
    }
  }

  lemma Locked(pageSize: nat, before: map<nat, nat>, after: map<nat, nat>, rs: seq<Range>, r: Range, page: nat)
    requires pageSize > 0 && Counts(pageSize, before, rs) && r.size > 0 && page % pageSize == 0
    requires Down(pageSize, r.base + r.size - 1) < page <= Down(pageSize, r.base + r.size - 1) + pageSize
    requires forall q | q in after :: after[q] > 0
    requires forall q: nat ::
      Get(after, q) == Get(before, q) + if Passed(pageSize, Down(pageSize, r.base), page, q) then 1 else 0
    ensures Counts(pageSize, after, rs + [r])
  {
    hide Down, Passed;
    forall q: nat ensures Get(after, q) == Count(pageSize, rs + [r], q) {
      PassedAll(pageSize, r, page, q);
      assert (rs + [r])[..|rs|] == rs;
    }
  }

  lemma Unlocked(pageSize: nat, before: map<nat, nat>, after: map<nat, nat>, rs: seq<Range>, i: nat, page: nat)
    requires pageSize > 0 && Counts(pageSize, before, rs) && i < |rs| && rs[i].size > 0 && page % pageSize == 0
    requires Down(pageSize, rs[i].base + rs[i].size - 1) < page <= Down(pageSize, rs[i].base + rs[i].size - 1) + pageSize
    requires forall q | q in after :: after[q] > 0
    requires forall q: nat ::
      Get(before, q) == Get(after, q) + if Passed(pageSize, Down(pageSize, rs[i].base), page, q) then 1 else 0
    ensures Counts(pageSize, after, rs[..i] + rs[i + 1..])
  {
    hide Down, Passed;
    forall q: nat ensures Get(after, q) == Count(pageSize, rs[..i] + rs[i + 1..], q) {
      PassedAll(pageSize, rs[i], page, q);
      CountWithout(pageSize, rs, i, q);
    }
  }
}
