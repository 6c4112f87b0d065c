// Numbers as sequences of 32-bit digits, least significant first, and what the
// machine operations on single digits do to the number.
module Limbs {

  const BASE: nat := 0x1_0000_0000

  /** uint32_t and uint64_t: a value that leaves the range is a proof obligation. */
  type Limb = x: nat | x < BASE
  type U64 = x: nat | x < 0x1_0000_0000_0000_0000

  function Pow2(n: nat): (p: nat)
    ensures p > 0
  {
    if n == 0 then 1 else 2 * Pow2(n - 1)
  }

  lemma {:induction false} Pow2Add(m: nat, n: nat)
    ensures Pow2(m + n) == Pow2(m) * Pow2(n)
  {
    if m > 0 { Pow2Add(m - 1, n); }
  }

  lemma Pow2Of32()
    ensures Pow2(32) == BASE
  {
    assert Pow2(8) == 256;
    Pow2Add(8, 8);
    Pow2Add(16, 16);
  }

  lemma {:induction false} Pow2Monotone(m: nat, n: nat)
    requires m <= n
    ensures Pow2(m) <= Pow2(n)
  {
    if m < n { Pow2Monotone(m, n - 1); }
  }

  // ------------------------------------------------------------ multiplication

  lemma MulLe(a: nat, b: nat, c: nat)
    requires a <= b
    ensures a * c <= b * c
  {
  }

  lemma MulLt(a: nat, b: nat, c: nat)
    requires a < b && c > 0
    ensures a * c < b * c
  {
  }

  lemma Distribute(a: int, b: int, c: int)
    ensures (a + b) * c == a * c + b * c
  {
  }

  lemma Regroup(a: int, b: int, c: int)
    ensures (a * b) * c == a * (b * c) == (a * c) * b
  {
  }

  lemma QuotientBelow(q: int, q': int, r: int, r': int, d: int)
    requires q * d + r == q' * d + r' && 0 <= r < d && 0 <= r' < d
    ensures q <= q'
  {
    Distribute(q, -q', d);
    if q > q' { MulLe(1, q - q', d); }
  }

  lemma DivUnique(x: nat, d: nat, q: nat, r: nat)
    requires d > 0 && x == q * d + r && r < d
    ensures x / d == q && x % d == r
  {
    QuotientBelow(q, x / d, r, x % d, d);
    QuotientBelow(x / d, q, x % d, r, d);
  }

  lemma ModUnique(x: nat, q: nat, m: nat, y: nat)
    requires 0 < m && x < m && x + q * m == y
    ensures y % m == x
  {
    DivUnique(y, m, q, x);
  }

  lemma DivSmaller(x: nat, d: nat)
    requires d > 0
    ensures 0 <= x / d <= x && x == (x / d) * d + x % d && x % d < d
  {
    MulLe(1, d, x / d);
  }

  // ------------------------------------------------------- operations on words

  /** The bitwise or of two words. */
  function Or(x: nat, y: nat): nat
    decreases x + y
  {
    if x == 0 then y else if y == 0 then x
    else 2 * Or(x / 2, y / 2) + if x % 2 == 1 || y % 2 == 1 then 1 else 0
  }

  /** Words without a bit in common: or is addition. */
  lemma {:induction false} OrDisjoint(x: nat, k: nat, s: nat)
    requires x < Pow2(s)
    ensures Or(x, k * Pow2(s)) == x + k * Pow2(s) == Or(k * Pow2(s), x)
    decreases s
  {
    if s > 0 {
      var y := k * Pow2(s - 1);
      assert k * Pow2(s) == 2 * y;
      OrDisjoint(x / 2, k, s - 1);
    }
  }

  /** x << s and x >> s on 32 bits. */
  function Shl32(x: nat, s: nat): (r: nat)
    ensures r < BASE
  {
    (x * Pow2(s)) % BASE
  }

  function Shr32(x: nat, s: nat): (r: nat)
    ensures r <= x
  {
    DivSmaller(x, Pow2(s));
    x / Pow2(s)
  }

  /** What the two halves of a shifted digit are. */
  lemma ShiftSplits(x: nat, s: nat)
    requires s <= 32 && x < BASE
    ensures x * Pow2(s) == Shl32(x, s) + BASE * Shr32(x, 32 - s)
    ensures Shl32(x, s) == (x % Pow2(32 - s)) * Pow2(s)
    ensures Shr32(x, 32 - s) < Pow2(s)
  {
    hide Pow2;
    Pow2Of32();
    Pow2Add(s, 32 - s);
    var p, d := Pow2(s), Pow2(32 - s);
    DivSmaller(x, d);
    var q, r := x / d, x % d;
    Distribute(q * d, r, p);
    Regroup(q, d, p);
    MulLt(r, d, p);
    assert x * p == q * BASE + r * p;
    DivUnique(x * p, BASE, q, r * p);
    if q >= p { MulLe(p, q, d); }
  }

  // ----------------------------------------------------------------- the value

  function B(n: nat): (p: nat)
    ensures p > 0
  {
    Pow2(32 * n)
  }

  lemma BStep(n: nat)
    ensures B(n + 1) == B(n) * BASE
  {
    hide Pow2;
    Pow2Of32();
    Pow2Add(32 * n, 32);
    assert 32 * (n + 1) == 32 * n + 32;
  }

  lemma BAdd(m: nat, n: nat)
    ensures B(m + n) == B(m) * B(n)
  {
    hide Pow2;
    Pow2Add(32 * m, 32 * n);
    assert 32 * (m + n) == 32 * m + 32 * n;
  }

  lemma Pow2OfShift(shift: nat)
    ensures Pow2(shift) == Pow2(shift % 32) * B(shift / 32)
  {
    hide Pow2;
    Pow2Add(shift % 32, 32 * (shift / 32));
  }

  /** The number whose digits are s. */
  function Val(s: seq<nat>): nat {
    if s == [] then 0 else Val(s[..|s| - 1]) + Times(s[|s| - 1], B(|s| - 1))
  }

  function Times(a: nat, b: nat): nat { a * b }

  ghost predicate Small(s: seq<nat>) {
    forall i | 0 <= i < |s| :: s[i] < BASE
  }

  lemma ValPrefix(s: seq<nat>, i: nat)
    requires i < |s|
    ensures Val(s[..i + 1]) == Val(s[..i]) + s[i] * B(i)
  {
    hide B;
    assert s[..i + 1][..i] == s[..i];
  }

  lemma {:induction false} ValBound(s: seq<nat>)
    requires Small(s)
    ensures Val(s) < B(|s|)
  {
    hide B, Pow2;
    if s != [] {
      var n := |s| - 1;
      ValBound(s[..n]);
      BStep(n);
      Distribute(s[n], 1, B(n));
      MulLe(s[n] + 1, BASE, B(n));
    } else {
      BPositive(0);
    }
  }

  lemma BPositive(n: nat)
    ensures B(n) > 0 && B(0) == 1
  {
  }

  lemma {:induction false} ValSplit(s: seq<nat>, i: nat)
    requires i <= |s|
    ensures Val(s) == Val(s[..i]) + Val(s[i..]) * B(i)
    decreases |s|
  {
    hide B, Pow2;
    if i == |s| {
      assert s[..i] == s && s[i..] == [];
    } else {
      var n := |s| - 1;
      ValSplit(s[..n], i);
      var t := s[i..];
      assert s[..n][..i] == s[..i] && s[..n][i..] == t[..n - i] && t[n - i] == s[n];
      BAdd(n - i, i);
      Distribute(Val(t[..n - i]), s[n] * B(n - i), B(i));
      Regroup(s[n], B(n - i), B(i));
    }
  }

  /** Numbers that agree from digit i on differ as their low parts do. */
  lemma SameTail(s: seq<nat>, t: seq<nat>, i: nat)
    requires |s| == |t| && i <= |s| && s[i..] == t[i..]
    ensures Val(s) - Val(s[..i]) == Val(t) - Val(t[..i])
  {
    ValSplit(s, i);
    ValSplit(t, i);
  }

  lemma {:induction false} ValZero(s: seq<nat>)
    requires forall i | 0 <= i < |s| :: s[i] == 0
    ensures Val(s) == 0
  {
    hide B;
    if s != [] { ValZero(s[..|s| - 1]); }
  }

  /** Digits that add up to all ones add up to one less than the modulus. */
  lemma {:induction false} ValComplement(s: seq<nat>, t: seq<nat>)
    requires |s| == |t| && forall i | 0 <= i < |s| :: s[i] + t[i] == BASE - 1
    ensures Val(s) + Val(t) == B(|s|) - 1
  {
    hide B, Pow2;
    if s != [] {
      var n := |s| - 1;
      ValComplement(s[..n], t[..n]);
      BStep(n);
      Distribute(s[n], t[n], B(n));
      Distribute(BASE, -1, B(n));
    } else {
      BPositive(0);
    }
  }

  /** The top digit in which two numbers differ decides their order. */
  lemma TopDigitDecides(s: seq<nat>, t: seq<nat>, i: nat)
    requires |s| == |t| && i < |s| && s[i + 1..] == t[i + 1..] && s[i] < t[i] && Small(s)
    ensures Val(s) < Val(t)
  {
    hide B, Val;
    SameTail(s, t, i + 1);
    ValPrefix(s, i);
    ValPrefix(t, i);
    ValBound(s[..i]);
    Distribute(s[i], 1, B(i));
    MulLe(s[i] + 1, t[i], B(i));
  }

  // -------------------------------------------------------------------- shifts

  /** What moves out of the top of digit m when everything moves up. */
  function ShlCarry(a: seq<nat>, k: nat, s: nat, m: nat): nat
    requires s < 32 && m <= |a|
  {
    if m > k then Shr32(a[m - k - 1], 32 - s) else 0
  }

  /** Digit m of the number with digits a moved up by k digits and s bits. */
  function ShlDigit(a: seq<nat>, k: nat, s: nat, m: nat): nat
    requires s < 32 && m < |a|
  {
    if m < k then 0 else Shl32(a[m - k], s) + ShlCarry(a, k, s, m)
  }

  lemma ShlAlgebra(v: nat, c: nat, bm: nat, a: nat, p: nat, k: nat, r: nat, c': nat, x: nat, bmk: nat, bn: nat)
    requires v + c * bm == (a * p) * k && r + BASE * c' == x * p + c && bm == bmk * k && bn == bm * BASE
    ensures v + r * bm + c' * bn == ((a + x * bmk) * p) * k
  {
    Distribute(r, BASE * c', bm);
    Distribute(x * p, c, bm);
    Regroup(c', bm, BASE);
    Distribute(a, x * bmk, p);
    Distribute(a * p, (x * bmk) * p, k);
    Regroup(x, bmk, p);
    Regroup(x * p, bmk, k);
  }

  lemma {:induction false} ShlPrefix(a: seq<nat>, r: seq<nat>, k: nat, s: nat, n: nat)
    requires s < 32 && |r| == |a| && k <= n <= |a| && Small(a)
    requires forall m | 0 <= m < |a| :: r[m] == ShlDigit(a, k, s, m)
    ensures Val(r[..n]) + ShlCarry(a, k, s, n) * B(n) == (Val(a[..n - k]) * Pow2(s)) * B(k)
    decreases n
  {
    hide Val, B, Pow2, Shl32, Shr32;
    if n == k {
      ValZero(r[..n]);
      ValZero(a[..n - k]);
    } else {
      var m := n - 1;
      ShlPrefix(a, r, k, s, m);
      ValPrefix(r, m);
      ValPrefix(a, m - k);
      ShiftSplits(a[m - k], s);
      BStep(m);
      BAdd(m - k, k);
      ShlAlgebra(Val(r[..m]), ShlCarry(a, k, s, m), B(m), Val(a[..m - k]), Pow2(s), B(k), r[m],
                 ShlCarry(a, k, s, n), a[m - k], B(m - k), B(n));
    }
  }

  lemma ShlValue(a: seq<nat>, r: seq<nat>, shift: nat)
    requires |r| == |a| && Small(a) && Small(r)
    requires forall m | 0 <= m < |a| :: r[m] == ShlDigit(a, shift / 32, shift % 32, m)
    ensures Val(r) == (Val(a) * Pow2(shift)) % B(|a|)
  {
    hide Val, Pow2, ShlDigit, ShlCarry, B;
    var k, s, w := shift / 32, shift % 32, |a|;
    Pow2OfShift(shift);
    var p := Pow2(s);
    ValBound(r);
    if k > w {
      ShlToZero(a, r, k, s);
      BAdd(k - w, w);
      ShlAway(Val(a), p, B(k - w), B(w), B(k));
    } else {
      ShlPrefix(a, r, k, s, w);
      assert r[..w] == r;
      ValSplit(a, w - k);
      BAdd(w - k, k);
      ShlConclude(Val(a), Val(a[..w - k]), Val(a[w - k..]), B(w - k), p, B(k), ShlCarry(a, k, s, w), Val(r), B(w));
    }
  }

  lemma ShlAway(v: nat, p: nat, x: nat, bw: nat, bk: nat)
    requires bk == x * bw && bw > 0
    ensures (v * (p * bk)) % bw == 0
  {
    Regroup(p, x, bw);
    Regroup(v, p * x, bw);
    ModUnique(0, v * (p * x), bw, v * (p * bk));
  }

  lemma ShlConclude(v: nat, low: nat, high: nat, bwk: nat, p: nat, bk: nat, c: nat, r: nat, bw: nat)
    requires v == low + high * bwk && r + c * bw == (low * p) * bk && bw == bwk * bk && r < bw
    ensures (v * (p * bk)) % bw == r
  {
    ShlRemainder(low, high, bwk, p, bk, c, r, bw);
    ModUnique(r, c + high * p, bw, v * (p * bk));
  }

  lemma ShlToZero(a: seq<nat>, r: seq<nat>, k: nat, s: nat)
    requires s < 32 && |r| == |a| <= k && forall m | 0 <= m < |a| :: r[m] == ShlDigit(a, k, s, m)
    ensures Val(r) == 0
  {
    ValZero(r);
  }

  lemma ShlRemainder(low: nat, high: nat, bwk: nat, p: nat, bk: nat, c: nat, r: nat, bw: nat)
    requires r + c * bw == (low * p) * bk && bw == bwk * bk
    ensures r + (c + high * p) * bw == (low + high * bwk) * (p * bk)
  {
    Distribute(c, high * p, bw);
    Distribute(low, high * bwk, p * bk);
    Regroup(low, p, bk);
    Regroup(high, bwk, p * bk);
    Regroup(p, bk, bwk);
    Regroup(high, p, bw);
  }

  /** Digit m of the number with digits a moved down by k digits and s bits. */
  function ShrDigit(a: seq<nat>, k: nat, s: nat, m: nat): nat
    requires s < 32
  {
    if m + k >= |a| then 0
    else Shr32(a[m + k], s) + if m + k + 1 < |a| then Shl32(a[m + k + 1], 32 - s) else 0
  }

  /** The s low bits of digit n, which a shift down moves to the digit below. */
  function LowBits(c: seq<nat>, s: nat, n: nat): nat {
    if n < |c| then c[n] % Pow2(s) else 0
  }

  lemma ShrStep(c: seq<nat>, s: nat, m: nat)
    requires s < 32 && m < |c| && Small(c)
    ensures ShrDigit(c, 0, s, m) * Pow2(s) + LowBits(c, s, m) == c[m] + LowBits(c, s, m + 1) * BASE
  {
    hide Pow2, Shl32, Shr32;
    var p := Pow2(s);
    DivSmaller(c[m], p);
    assert Shr32(c[m], s) == c[m] / p by { ShrIsDiv(c[m], s); }
    var up := if m + 1 < |c| then Shl32(c[m + 1], 32 - s) else 0;
    assert up * p == LowBits(c, s, m + 1) * BASE by {
      if m + 1 < |c| {
        Pow2Of32();
        Pow2Add(32 - s, s);
        ShiftSplits(c[m + 1], 32 - s);
        Regroup(c[m + 1] % p, Pow2(32 - s), p);
      }
    }
    Distribute(c[m] / p, up, p);
  }

  lemma ShrIsDiv(x: nat, s: nat)
    ensures Shr32(x, s) == x / Pow2(s)
  {
  }

  lemma ShrAlgebra(v: nat, p: nat, low: nat, a: nat, l: nat, bm: nat, r: nat, x: nat, l': nat, bn: nat)
    requires v * p + low == a + l * bm && r * p + l == x + l' * BASE && bn == bm * BASE
    ensures (v + r * bm) * p + low == a + x * bm + l' * bn
  {
    Distribute(v, r * bm, p);
    Regroup(r, bm, p);
    Distribute(r * p, l, bm);
    Distribute(x, l' * BASE, bm);
    Regroup(l', BASE, bm);
  }

  lemma {:induction false} ShrPrefix(c: seq<nat>, r: seq<nat>, s: nat, n: nat)
    requires s < 32 && |c| <= |r| && n <= |c| && Small(c)
    requires forall m | 0 <= m < |c| :: r[m] == ShrDigit(c, 0, s, m)
    ensures Val(r[..n]) * Pow2(s) + LowBits(c, s, 0) == Val(c[..n]) + LowBits(c, s, n) * B(n)
    decreases n
  {
    hide Val, B, Pow2, ShrDigit, LowBits;
    if n == 0 {
      ValZero(r[..0]);
      ValZero(c[..0]);
      BPositive(0);
    } else {
      var m := n - 1;
      ShrPrefix(c, r, s, m);
      ValPrefix(r, m);
      ValPrefix(c, m);
      BStep(m);
      ShrStep(c, s, m);
      ShrAlgebra(Val(r[..m]), Pow2(s), LowBits(c, s, 0), Val(c[..m]), LowBits(c, s, m), B(m), r[m], c[m],
                 LowBits(c, s, n), B(n));
    }
  }

  lemma ShrValue(a: seq<nat>, r: seq<nat>, shift: nat)
    requires |r| == |a| && Small(a)
    requires forall m | 0 <= m < |a| :: r[m] == ShrDigit(a, shift / 32, shift % 32, m)
    ensures Val(r) == Val(a) / Pow2(shift)
  {
    hide Val, Pow2, ShrDigit, LowBits, B;
    var k, s, w := shift / 32, shift % 32, |a|;
    var p := Pow2(s);
    Pow2OfShift(shift);
    if k >= w {
      ShrToZero(a, r, k, s);
      ValBound(a);
      BAdd(w, k - w);
      ShrAway(Val(a), p, B(w), B(k - w), B(k));
    } else {
      ShrTail(a, r, k, s);
      ValSplit(a, k);
      ValBound(a[..k]);
      ShrConclude(Val(a), Val(a[..k]), Val(a[k..]), Val(r), p, LowBits(a[k..], s, 0), B(k));
    }
  }

  lemma ShrAway(v: nat, p: nat, bw: nat, x: nat, bk: nat)
    requires v < bw && bk == bw * x && p > 0 && x > 0
    ensures p * bk > 0 && v / (p * bk) == 0
  {
    Regroup(p, bw, x);
    MulLe(1, p * x, bw);
    assert p * bk >= bw;
    DivUnique(v, p * bk, 0, v);
  }

  lemma ShrConclude(v: nat, under: nat, c: nat, r: nat, p: nat, low: nat, bk: nat)
    requires v == under + c * bk && r * p + low == c && low < p && under < bk
    ensures p * bk > 0 && v / (p * bk) == r
  {
    Distribute(r * p, low, bk);
    Regroup(r, p, bk);
    Distribute(low, 1, bk);
    MulLe(low + 1, p, bk);
    DivUnique(v, p * bk, r, low * bk + under);
  }

  lemma ShrToZero(a: seq<nat>, r: seq<nat>, k: nat, s: nat)
    requires s < 32 && |r| == |a| <= k && forall m | 0 <= m < |a| :: r[m] == ShrDigit(a, k, s, m)
    ensures Val(r) == 0
  {
    ValZero(r);
  }

  lemma ShrTail(a: seq<nat>, r: seq<nat>, k: nat, s: nat)
    requires s < 32 && |r| == |a| && k < |a| && Small(a) && forall m | 0 <= m < |a| :: r[m] == ShrDigit(a, k, s, m)
    ensures var low := LowBits(a[k..], s, 0); Val(r) * Pow2(s) + low == Val(a[k..]) && low < Pow2(s)
  {
    hide Val, Pow2, Shl32, Shr32, B;
    var c, n := a[k..], |a| - k;
    forall m | 0 <= m < |c| ensures r[m] == ShrDigit(c, 0, s, m) {
      assert c[m] == a[m + k] && (m + 1 < |c| ==> c[m + 1] == a[m + k + 1]);
    }
    ShrPrefix(c, r, s, n);
    assert c[..n] == c;
    ValZero(r[n..]);
    ValSplit(r, n);
    assert Val(r[n..]) * B(n) == 0;
    DivSmaller(c[0], Pow2(s));
  }
}
