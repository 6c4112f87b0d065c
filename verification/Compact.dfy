// The compact form of a 256-bit number: a byte count and a 23-bit mantissa.
module Compact {
  import opened Limbs
  import opened BaseUint

  const WIDTH256 := 8
  const SIGN_BIT := 0x0080_0000
  const MAX256: nat := Pow2(256)

  /** 256^n */
  function P(n: nat): (p: nat)
    ensures p > 0
  {
    Pow2(8 * n)
  }

  // ------------------------------------------------------------- specification

  function Quotient(x: nat, d: nat): nat
    requires d > 0
  {
    x / d
  }

  /** mantissa * 256^(size - 3), rounded down. */
  function Scaled(size: nat, mantissa: nat): nat {
    if size <= 3 then Quotient(mantissa, P(3 - size)) else Times(mantissa, P(size - 3))
  }

  function SizeOf(c: nat): nat { c / 0x100_0000 }

  function MantissaOf(c: nat): nat { c % 0x80_0000 }

  predicate SignOf(c: nat) { (c / 0x80_0000) % 2 == 1 }

  /** Number of bytes of v. */
  ghost predicate HasBytes(v: nat, n: nat) {
    v < P(n) && (n > 0 ==> P(n - 1) <= v)
  }

  /** Byte count and mantissa of v > 0 before and after making room for the sign. */
  function Leading(v: nat, n: nat): nat {
    if n <= 3 then Times(v, P(3 - n)) else Quotient(v, P(n - 3))
  }

  function SizeFor(v: nat, n: nat): nat {
    if Leading(v, n) >= SIGN_BIT then n + 1 else n
  }

  function MantissaFor(v: nat, n: nat): nat {
    if Leading(v, n) >= SIGN_BIT then Leading(v, n) / 256 else Leading(v, n)
  }

  function Packed(size: nat, mantissa: nat, negative: bool): nat {
    size * 0x100_0000 + mantissa + if negative && mantissa != 0 then SIGN_BIT else 0
  }

  /** Number of bytes needed for v. */
  function ByteCount(v: nat): nat {
    if v == 0 then 0 else 1 + ByteCount(v / 256)
  }

  /** The code of v. */
  function Encode(v: nat, negative: bool): nat {
    Packed(SizeFor(v, ByteCount(v)), MantissaFor(v, ByteCount(v)), negative)
  }

  /** The number a code stands for, sign apart, and whether it leaves 256 bits. */
  function FullValue(c: nat): nat { Scaled(SizeOf(c), MantissaOf(c)) }

  function Decode(c: nat): nat { FullValue(c) % MAX256 }

  predicate Negative(c: nat) { FullValue(c) != 0 && SignOf(c) }

  predicate Overflows(c: nat) { FullValue(c) >= MAX256 }

  /** size and mantissa are a normalised, truncated reading of v. */
  ghost predicate Reads(v: nat, size: nat, mantissa: nat) {
    if v == 0 then size == 0 && mantissa == 0
    else
      && size >= 1 && 0x8000 <= mantissa < SIGN_BIT
      && mantissa == if size <= 3 then v * P(3 - size) else v / P(size - 3)
  }

  // ------------------------------------------------------------------ the code

  method SetCompact(a: BaseUint, nCompact: Limb) returns (negative: bool, overflow: bool)
    requires a.Valid() && a.Width() == WIDTH256
    modifies a.pn
    ensures a.Value() == Decode(nCompact)
    ensures negative <==> Negative(nCompact)
    ensures overflow <==> Overflows(nCompact)
  {
    hide Pow2, P, Val, B;
    var nSize := nCompact / 0x100_0000;
    var nWord := nCompact % 0x80_0000;
    if nSize <= 3 {
      SmallScaled(nSize, nWord);
      nWord := nWord / Pow2(8 * (3 - nSize));
      Assign64(a, nWord);
    } else {
      Assign64(a, nWord);
      a.ShiftLeft(8 * (nSize - 3));
      BIs256();
      ScaledOverflow(nSize, nWord);
    }
    negative := nWord != 0 && (nCompact / 0x80_0000) % 2 == 1;
    overflow := nWord != 0 && (nSize > 34 || (nWord > 0xff && nSize > 33) || (nWord > 0xffff && nSize > 32));
  }

  method GetCompact(a: BaseUint, negative: bool) returns (nCompact: nat)
    requires a.Valid() && a.Width() == WIDTH256
    ensures nCompact == Encode(a.Value(), negative) < BASE
  {
    hide Pow2, P, Val, B, Or, Leading, Reads, Packed;
    ghost var v := a.Value();
    var bits := a.Bits();
    var nSize := (bits + 7) / 8;
    ghost var bytes := nSize;
    BytesOfBits(v, bits);
    ByteCountIs(v, nSize);
    var nWord := LeadingWord(a, nSize);
    LeadingReads(v, nSize);
    if (nWord / SIGN_BIT) % 2 == 1 {
      nWord := nWord / 256;
      nSize := nSize + 1;
    }
    assert nSize == SizeFor(v, bytes) && nWord == MantissaFor(v, bytes);
    nCompact := Pack(nSize, nWord, negative);
  }

  method LeadingWord(a: BaseUint, nSize: nat) returns (nWord: nat)
    requires a.Valid() && a.Width() == WIDTH256 && HasBytes(a.Value(), nSize)
    ensures nWord == Leading(a.Value(), nSize)
  {
    hide Pow2, P, Val, B, Leading;
    ghost var v := a.Value();
    LeadingIsSmall(v, nSize);
    LeadingIs(v, nSize);
    SmallMod(Leading(v, nSize), BASE);
    SmallMod(Leading(v, nSize), BASE * BASE);
    if nSize <= 3 {
      var low := GetLow64(a);
      LowIsAll(v, nSize);
      nWord := (low * Pow2(8 * (3 - nSize))) % BASE;
    } else {
      var bn := new BaseUint.Copy(a);
      bn.ShiftRight(8 * (nSize - 3));
      var low := GetLow64(bn);
      nWord := low % BASE;
    }
  }

  method Pack(nSize: nat, nWord: nat, negative: bool) returns (nCompact: nat)
    requires nWord < SIGN_BIT && nSize < 256
    ensures nCompact == Packed(nSize, nWord, negative) < BASE
  {
    hide Pow2, P, Or;
    PackBits(nSize, nWord);
    nCompact := Or(nWord, nSize * 0x100_0000);
    if negative && nCompact % 0x80_0000 != 0 {
      nCompact := Or(nCompact, SIGN_BIT);
    }
  }

  method Assign64(a: BaseUint, x: nat)
    requires a.Valid() && a.Width() >= 2 && x < BASE * BASE
    modifies a.pn
    ensures a.Value() == x
  {
    hide Val, B, Pow2;
    a.SetZero();
    ghost var z: seq<nat> := a.pn[..];
    DivSmaller(x, BASE);
    QuotientBounds(x, BASE, 0, BASE);
    a.pn[0] := x % BASE;
    a.pn[1] := x / BASE;
    TwoDigits(z, x % BASE, x / BASE);
    assert a.pn[..] == z[0 := x % BASE][1 := x / BASE];
  }

  method GetLow64(a: BaseUint) returns (low: nat)
    requires a.Valid() && a.Width() >= 2
    ensures low == a.Value() % (BASE * BASE)
  {
    hide Val, B, Pow2, Or;
    Pow2Of32();
    OrDisjoint(a.pn[0], a.pn[1], 32);
    low := Or(a.pn[0], a.pn[1] * BASE);
    LowDigits(a.pn[..]);
  }

  // --------------------------------------------------------------- the pieces

  lemma TwoDigits(z: seq<nat>, x: nat, y: nat)
    requires |z| >= 2 && forall i | 0 <= i < |z| :: z[i] == 0
    ensures Val(z[0 := x][1 := y]) == x + y * BASE
  {
    hide Val;
    var t := z[0 := x][1 := y];
    ValSplit(t, 2);
    ValZero(t[2..]);
    ValPrefix(t, 1);
    ValPrefix(t, 0);
    EmptyPrefix(t, t, t);
    BStep(0);
    BPositive(0);
  }

  lemma LowDigits(s: seq<nat>)
    requires |s| >= 2 && Small(s)
    ensures Val(s) % (BASE * BASE) == s[0] + s[1] * BASE
  {
    hide Val, B;
    ValSplit(s, 2);
    ValPrefix(s, 1);
    ValPrefix(s, 0);
    EmptyPrefix(s, s, s);
    BStep(0);
    BStep(1);
    BPositive(0);
    assert B(2) == BASE * BASE && B(1) == BASE;
    ModUnique(s[0] + s[1] * BASE, Val(s[2..]), BASE * BASE, Val(s));
  }

  lemma SmallMod(x: nat, m: nat)
    ensures x < m ==> x % m == x
  {
    if x < m { ModUnique(x, 0, m, x); }
  }

  lemma BIs256()
    ensures B(WIDTH256) == MAX256
  {
  }

  lemma PAdd(m: nat, n: nat)
    ensures P(m + n) == P(m) * P(n)
  {
    hide Pow2;
    Pow2Add(8 * m, 8 * n);
    assert 8 * (m + n) == 8 * m + 8 * n;
  }

  lemma PFirst()
    ensures P(0) == 1 && P(1) == 0x100
  {
    assert Pow2(8) == 0x100;
  }

  lemma PTop()
    ensures P(32) == MAX256
  {
    hide Pow2;
  }

  lemma PSmall()
    ensures P(0) == 1 && P(1) == 0x100 && P(2) == 0x1_0000 && P(3) == 0x100_0000 && P(32) == MAX256
    ensures P(30) == MAX256 / 0x1_0000 && P(31) == MAX256 / 0x100 && P(29) * 0x100_0000 == MAX256
  {
    PFirst();
    hide P, Pow2;
    PTop();
    PAdd(1, 1);
    PAdd(2, 1);
    PAdd(30, 2);
    PAdd(31, 1);
    PAdd(29, 3);
  }

  lemma {:induction false} PMonotone(m: nat, n: nat)
    requires m <= n
    ensures P(m) <= P(n)
  {
    Pow2Monotone(8 * m, 8 * n);
  }

  lemma SmallScaled(size: nat, m: nat)
    requires size <= 3 && m < SIGN_BIT
    ensures m / Pow2(8 * (3 - size)) == Scaled(size, m) <= m < MAX256
    ensures Scaled(size, m) % MAX256 == Scaled(size, m)
  {
    hide Pow2;
    DivSmaller(m, P(3 - size));
    PSmall();
    PMonotone(3, 32);
    SmallMod(Scaled(size, m), MAX256);
    assert P(3 - size) == Pow2(8 * (3 - size));
  }

  /** The three comparisons find exactly the mantissas that do not fit. */
  lemma ScaledOverflow(size: nat, m: nat)
    requires size > 3 && m < SIGN_BIT
    ensures (m != 0 && (size > 34 || (m > 0xff && size > 33) || (m > 0xffff && size > 32))) <==> Scaled(size, m) >= MAX256
    ensures Scaled(size, m) == m * Pow2(8 * (size - 3))
    ensures m == 0 <==> Scaled(size, m) == 0
  {
    ScaledIs(size, m);
    hide P, Pow2, Scaled;
    if m != 0 {
      MulLe(1, m, P(size - 3));
      if size > 34 { LargeSize(size, m); }
      else if size == 34 { Size34(m); }
      else if size == 33 { Size33(m); }
      else { SmallSizeFits(size, m); }
    }
  }

  lemma LargeSize(size: nat, m: nat)
    requires size > 34 && m > 0
    ensures m * P(size - 3) >= MAX256
  {
    hide P, Pow2;
    PSmall();
    PMonotone(32, size - 3);
    MulLe(1, m, P(size - 3));
  }

  lemma Size34(m: nat)
    ensures m * P(31) >= MAX256 <==> m > 0xff
  {
    hide P, Pow2;
    PSmall();
    Threshold(m, P(31), 0x100);
  }

  lemma Size33(m: nat)
    ensures m * P(30) >= MAX256 <==> m > 0xffff
  {
    hide P, Pow2;
    PSmall();
    Threshold(m, P(30), 0x1_0000);
  }

  lemma ScaledIs(size: nat, m: nat)
    requires size > 3
    ensures Scaled(size, m) == m * P(size - 3) == m * Pow2(8 * (size - 3))
  {
  }

  lemma SmallSizeFits(size: nat, m: nat)
    requires 3 < size <= 32 && m < SIGN_BIT
    ensures m * P(size - 3) < MAX256
  {
    hide P, Pow2;
    PSmall();
    PMonotone(size - 3, 29);
    MulLe(P(size - 3), P(29), m);
    MulLt(m, 0x100_0000, P(29));
  }

  lemma Threshold(m: nat, p: nat, t: nat)
    requires p > 0 && t > 0 && p == MAX256 / t && MAX256 % t == 0 && t * p == MAX256
    ensures m * p >= MAX256 <==> m >= t
  {
    hide Pow2;
    if m >= t { MulLe(t, m, p); } else { MulLt(m, t, p); }
  }

  lemma BytesOfBits(v: nat, bits: nat)
    requires (bits == 0 <==> v == 0) && (bits > 0 ==> Pow2(bits - 1) <= v < Pow2(bits)) && bits <= 256
    ensures HasBytes(v, (bits + 7) / 8) && (bits + 7) / 8 <= 32
  {
    var n := (bits + 7) / 8;
    hide Pow2;
    if bits > 0 {
      Pow2Monotone(bits, 8 * n);
      Pow2Monotone(8 * (n - 1), bits - 1);
    }
  }

  lemma LeadingIsSmall(v: nat, n: nat)
    requires HasBytes(v, n)
    ensures Leading(v, n) < 0x100_0000 && (v > 0 ==> 0x1_0000 <= Leading(v, n))
    ensures v == 0 <==> n == 0
  {
    hide Pow2, P;
    PSmall();
    if n > 0 {
      if n <= 3 {
        PAdd(n, 3 - n);
        PAdd(n - 1, 3 - n);
        MulLt(v, P(n), P(3 - n));
        MulLe(P(n - 1), v, P(3 - n));
      } else {
        var d := P(n - 3);
        PAdd(3, n - 3);
        PAdd(2, n - 3);
        DivSmaller(v, d);
        QuotientBounds(v, d, 0x1_0000, 0x100_0000);
      }
    }
  }

  lemma QuotientBounds(v: nat, d: nat, lo: nat, hi: nat)
    requires d > 0 && lo * d <= v < hi * d
    ensures lo <= v / d < hi
  {
    DivSmaller(v, d);
    if v / d >= hi { MulLe(hi, v / d, d); }
    if v / d < lo { MulLe(v / d + 1, lo, d); Distribute(v / d, 1, d); }
  }

  lemma LowIsAll(v: nat, n: nat)
    requires HasBytes(v, n) && n <= 3
    ensures v % (BASE * BASE) == v
  {
    hide Pow2, P;
    PSmall();
    PMonotone(n, 3);
    SmallMod(v, BASE * BASE);
  }

  lemma LeadingIs(v: nat, n: nat)
    ensures n <= 3 ==> Leading(v, n) == v * Pow2(8 * (3 - n))
    ensures n > 3 ==> Leading(v, n) == v / Pow2(8 * (n - 3))
  {
  }

  lemma LeadingReads(v: nat, n: nat)
    requires HasBytes(v, n) && n <= 32
    ensures Reads(v, SizeFor(v, n), MantissaFor(v, n)) && SizeFor(v, n) <= 33 && MantissaFor(v, n) < SIGN_BIT
    ensures (Leading(v, n) / SIGN_BIT) % 2 == 1 <==> Leading(v, n) >= SIGN_BIT
  {
    hide Pow2, P;
    LeadingIsSmall(v, n);
    PSmall();
    if v > 0 && Leading(v, n) >= SIGN_BIT {
      if n < 3 {
        PAdd(1, 2 - n);
        Regroup(v, P(2 - n), 0x100);
        DivUnique(Leading(v, n), 256, v * P(2 - n), 0);
      } else if n == 3 {
        assert Leading(v, n) == v;
      } else {
        PAdd(n - 3, 1);
        DivTwice(v, P(n - 3), 256);
      }
    }
  }

  lemma DivTwice(v: nat, d: nat, e: nat)
    requires d > 0 && e > 0
    ensures d * e > 0 && (v / d) / e == v / (d * e)
  {
    DivSmaller(v, d);
    var q, r := v / d, v % d;
    DivSmaller(q, e);
    var q', r' := q / e, q % e;
    MulLe(1, d, e);
    Distribute(q' * e, r', d);
    Regroup(q', e, d);
    MulLe(r' + 1, e, d);
    Distribute(r', 1, d);
    DivUnique(v, d * e, q', r' * d + r);
  }

  /** Writing size and sign beside a 23-bit mantissa is addition. */
  lemma PackBits(size: nat, m: nat)
    requires m < SIGN_BIT && size < 256
    ensures Or(m, size * 0x100_0000) == size * 0x100_0000 + m < BASE
    ensures (size * 0x100_0000 + m) % 0x80_0000 == m
    ensures Or(size * 0x100_0000 + m, SIGN_BIT) == size * 0x100_0000 + m + SIGN_BIT < BASE
  {
    hide Pow2, P;
    PSmall();
    assert Pow2(24) == 0x100_0000 by { PIs24(); }
    OrDisjoint(m, size, 24);
    ModUnique(m, 2 * size, 0x80_0000, size * 0x100_0000 + m);
    assert Pow2(23) == 0x80_0000 by { PIs24(); }
    OrHigh(2 * size, m, 1, 0, 23);
    assert Pow2(1) == 2 by { PIs24(); }
    OrDisjoint(1, size, 1);
    OrNothing(m);
  }

  lemma PIs24()
    ensures Pow2(24) == 0x100_0000 && Pow2(23) == 0x80_0000 && Pow2(1) == 2
  {
    PSmall();
    Pow2Double(23);
  }

  lemma OrNothing(x: nat)
    ensures Or(x, 0) == x
  {
  }

  /** Or works on the high and the low parts separately. */
  lemma {:induction false} OrHigh(a: nat, b: nat, c: nat, d: nat, s: nat)
    requires b < Pow2(s) && d < Pow2(s)
    ensures Or(a * Pow2(s) + b, c * Pow2(s) + d) == Or(a, c) * Pow2(s) + Or(b, d)
    decreases s
  {
    hide Or;
    if s == 0 {
      OrNothing(0);
    } else {
      var p := Pow2(s - 1);
      Pow2Double(s - 1);
      hide Pow2;
      OrHigh(a, b / 2, c, d / 2, s - 1);
      Regroup(a, 2, p);
      Regroup(c, 2, p);
      Regroup(Or(a, c), 2, p);
      HalveSum(a * p, b);
      HalveSum(c * p, d);
      OrHalves(2 * (a * p) + b, 2 * (c * p) + d);
      OrHalves(b, d);
    }
  }

  lemma HalveSum(x: nat, b: nat)
    ensures (2 * x + b) / 2 == x + b / 2 && (2 * x + b) % 2 == b % 2
  {
  }

  lemma OrHalves(x: nat, y: nat)
    ensures Or(x, y) == 2 * Or(x / 2, y / 2) + if x % 2 == 1 || y % 2 == 1 then 1 else 0
  {
    OrNothing(x / 2);
  }

  // ----------------------------------------------------------------- properties

  /** The reading of a number pins down its magnitude to one power of 256. */
  lemma ReadingBounds(v: nat, size: nat, m: nat)
    requires Reads(v, size, m) && v > 0
    ensures m * P(size) <= v * P(3) < (m + 1) * P(size)
    ensures 0x8000 * P(size) <= v * P(3) < 0x8000 * P(size + 1)
  {
    hide Pow2, P;
    PSmall();
    PAdd(size, 1);
    if size <= 3 {
      PAdd(3 - size, size);
      Regroup(v, P(3 - size), P(size));
      Distribute(m, 1, P(size));
    } else {
      var d := P(size - 3);
      PAdd(size - 3, 3);
      DivSmaller(v, d);
      Regroup(m, d, P(3));
      Distribute(m * d, v % d, P(3));
      MulLt(v % d, d, P(3));
      Distribute(m, 1, P(size));
    }
    MulLe(0x8000, m, P(size));
    MulLe(m + 1, 0x80_0000, P(size));
  }

  lemma ReadingSizeMonotone(v: nat, w: nat, size: nat, m: nat, size': nat, m': nat)
    requires Reads(v, size, m) && Reads(w, size', m') && v <= w
    ensures size <= size' && (size == size' ==> m <= m')
  {
    hide Pow2, P;
    if v > 0 {
      if size > size' {
        PMonotone(size' + 1, size);
        MulLe(P(size' + 1), P(size), 0x8000);
      } else if size == size' && m > m' {
        MulLe(m' + 1, m, P(size));
      }
      ReadingBounds(v, size, m);
      ReadingBounds(w, size', m');
      MulLe(v, w, P(3));
    }
  }

  /** There is one reading. */
  lemma ReadingUnique(v: nat, size: nat, m: nat, size': nat, m': nat)
    requires Reads(v, size, m) && Reads(v, size', m')
    ensures size == size' && m == m'
  {
    ReadingSizeMonotone(v, v, size, m, size', m');
    ReadingSizeMonotone(v, v, size', m', size, m);
  }

  /** Decoding a reading truncates by less than one part in 2^15, and the
      truncated number has the same reading. */
  lemma ReadingTruncates(v: nat, size: nat, m: nat)
    requires Reads(v, size, m)
    ensures Scaled(size, m) <= v && (v > 0 ==> (v - Scaled(size, m)) * 0x8000 < v)
    ensures Reads(Scaled(size, m), size, m)
  {
    hide Pow2, P;
    PSmall();
    if v > 0 {
      if size <= 3 {
        DivUnique(m, P(3 - size), v, 0);
      } else {
        var d := P(size - 3);
        DivSmaller(v, d);
        DivUnique(m * d, d, m, 0);
        MulLe(0x8000, m, d);
        MulLe(1, m, d);
      }
    }
  }

  lemma ScaledMonotone(v: nat, w: nat, size: nat, m: nat, size': nat, m': nat)
    requires Reads(v, size, m) && Reads(w, size', m') && v <= w
    ensures Scaled(size, m) <= Scaled(size', m')
  {
    hide Pow2, P, Scaled;
    ReadingSizeMonotone(v, w, size, m, size', m');
    ReadingTruncates(v, size, m);
    ReadingTruncates(w, size', m');
    var d, e := Scaled(size, m), Scaled(size', m');
    if d > e { ReadingSizeMonotone(e, d, size', m', size, m); }
  }

  /** Codes that name a number in its one normal form. */
  ghost predicate Canonical(c: nat) {
    var size, m := SizeOf(c), MantissaOf(c);
    || c == 0
    || (&& size >= 1 && m >= 0x8000 && (size <= 3 ==> m % P(3 - size) == 0)
        && Scaled(size, m) < MAX256)
  }

  lemma PackedParts(size: nat, m: nat, negative: bool)
    requires m < SIGN_BIT
    ensures var c := Packed(size, m, negative);
      SizeOf(c) == size && MantissaOf(c) == m && (SignOf(c) <==> negative && m != 0)
  {
    var s := if negative && m != 0 then 1 else 0;
    var c := Packed(size, m, negative);
    assert c == (2 * size + s) * 0x80_0000 + m;
    DivUnique(c, 0x80_0000, 2 * size + s, m);
    DivUnique(c, 0x100_0000, size, s * 0x80_0000 + m);
    DivUnique(2 * size + s, 2, size, s);
  }

  lemma CodeParts(c: nat)
    ensures c == SizeOf(c) * 0x100_0000 + (if SignOf(c) then SIGN_BIT else 0) + MantissaOf(c)
    ensures MantissaOf(c) < SIGN_BIT
  {
    DivTwice(c, 0x80_0000, 2);
  }

  lemma {:induction false} ByteCountIs(v: nat, n: nat)
    requires HasBytes(v, n)
    ensures ByteCount(v) == n
    decreases n
  {
    PFirst();
    if n > 0 {
      var p := P(n - 1);
      PAdd(n - 1, 1);
      hide Pow2, P;
      QuotientBounds(v, 256, 0, p);
      if n > 1 {
        PAdd(n - 2, 1);
        QuotientBounds(v, 256, P(n - 2), p);
      }
      ByteCountIs(v / 256, n - 1);
    }
  }

  lemma {:induction false} HasByteCount(v: nat)
    ensures HasBytes(v, ByteCount(v))
    decreases v
  {
    PFirst();
    if v > 0 {
      HasByteCount(v / 256);
      var n := ByteCount(v / 256);
      PAdd(n, 1);
      hide Pow2, P;
      DivSmaller(v, 256);
      MulLe(v / 256 + 1, P(n), 256);
      if n > 0 {
        PAdd(n - 1, 1);
        MulLe(P(n - 1), v / 256, 256);
      }
    }
  }

  lemma EncodeReads(v: nat, negative: bool)
    requires v < MAX256
    ensures var c := Encode(v, negative);
      && Reads(v, SizeOf(c), MantissaOf(c)) && MantissaOf(c) < SIGN_BIT && SizeOf(c) <= 33
      && (SignOf(c) <==> negative && MantissaOf(c) != 0)
      && c == Packed(SizeOf(c), MantissaOf(c), negative)
  {
    hide Pow2, P, Leading, Reads, Packed, SizeOf, MantissaOf, SignOf;
    var n := ByteCount(v);
    HasByteCount(v);
    if n > 32 {
      PSmall();
      PMonotone(32, n - 1);
    }
    LeadingReads(v, n);
    PackedParts(SizeFor(v, n), MantissaFor(v, n), negative);
  }

  /** Decoding the code of v gives a number of at most v, off by less than one
      part in 2^15, that needs no more than 256 bits and has the same code. */
  lemma EncodeTruncates(v: nat)
    requires v < MAX256
    ensures var d := Decode(Encode(v, false));
      && d <= v && (v > 0 ==> (v - d) * 0x8000 < v)
      && !Overflows(Encode(v, false)) && !Negative(Encode(v, false))
      && Encode(d, false) == Encode(v, false)
  {
    hide Pow2, P, Reads, Packed, Scaled, Encode, SizeOf, MantissaOf;
    var c := Encode(v, false);
    var size, m := SizeOf(c), MantissaOf(c);
    EncodeReads(v, false);
    ReadingTruncates(v, size, m);
    SmallMod(Scaled(size, m), MAX256);
    var d := Decode(c);
    EncodeReads(d, false);
    ReadingUnique(d, SizeOf(Encode(d, false)), MantissaOf(Encode(d, false)), size, m);
  }

  /** Larger numbers have larger codes, and decode to larger numbers. */
  lemma EncodeMonotone(v: nat, w: nat)
    requires v <= w < MAX256
    ensures Encode(v, false) <= Encode(w, false)
    ensures Decode(Encode(v, false)) <= Decode(Encode(w, false))
  {
    hide Pow2, P, Reads, Scaled, Encode, SizeOf, MantissaOf;
    var c, e := Encode(v, false), Encode(w, false);
    EncodeReads(v, false);
    EncodeReads(w, false);
    ReadingSizeMonotone(v, w, SizeOf(c), MantissaOf(c), SizeOf(e), MantissaOf(e));
    ScaledMonotone(v, w, SizeOf(c), MantissaOf(c), SizeOf(e), MantissaOf(e));
    ReadingTruncates(v, SizeOf(c), MantissaOf(c));
    ReadingTruncates(w, SizeOf(e), MantissaOf(e));
    SmallMod(FullValue(c), MAX256);
    SmallMod(FullValue(e), MAX256);
  }

  /** Encoding what a code decodes to gives the code back exactly for the canonical codes. */
  lemma CanonicalRoundTrip(c: nat)
    requires c < BASE
    ensures Encode(Decode(c), Negative(c)) == c <==> Canonical(c)
  {
    hide P, Pow2, Encode, Packed, Scaled, Reads, SignOf;
    var v, negative := Decode(c), Negative(c);
    var e := Encode(v, negative);
    EncodeReads(v, negative);
    CodeParts(c);
    if c == 0 {
      ZeroReads(SizeOf(e), MantissaOf(e));
      PackedZero(negative);
    } else if Canonical(c) {
      SmallMod(FullValue(c), MAX256);
      CanonicalReads(SizeOf(c), MantissaOf(c));
      ReadingUnique(v, SizeOf(e), MantissaOf(e), SizeOf(c), MantissaOf(c));
      PackedIs(SizeOf(c), MantissaOf(c), negative);
    } else if e == c {
      NoReadingOfZero(v, SizeOf(c), MantissaOf(c), negative, c);
      PackedIsCanonical(v, SizeOf(c), MantissaOf(c), c);
    }
  }

  lemma PackedZero(negative: bool)
    ensures Packed(0, 0, negative) == 0
  {
  }

  lemma PackedIs(size: nat, m: nat, negative: bool)
    ensures Packed(size, m, negative) == size * 0x100_0000 + m + if negative && m != 0 then SIGN_BIT else 0
  {
  }

  lemma NoReadingOfZero(v: nat, size: nat, m: nat, negative: bool, c: nat)
    requires Reads(v, size, m) && c == Packed(size, m, negative)
    ensures v == 0 ==> c == 0
  {
  }

  lemma ZeroReads(size: nat, m: nat)
    requires Reads(Decode(0), size, m)
    ensures size == 0 && m == 0
  {
    hide Pow2;
    DivSmaller(0, P(3));
    assert Scaled(0, 0) == 0;
    SmallMod(0, MAX256);
  }

  lemma CanonicalReads(size: nat, m: nat)
    requires size >= 1 && 0x8000 <= m < SIGN_BIT && (size <= 3 ==> m % P(3 - size) == 0)
    ensures Scaled(size, m) > 0 && Reads(Scaled(size, m), size, m)
  {
    hide P, Pow2;
    if size <= 3 {
      DivSmaller(m, P(3 - size));
    } else {
      var d := P(size - 3);
      MulLe(1, m, d);
      DivUnique(m * d, d, m, 0);
    }
  }

  lemma PackedIsCanonical(v: nat, size: nat, m: nat, c: nat)
    requires Reads(v, size, m) && v < MAX256 && SizeOf(c) == size && MantissaOf(c) == m && c < BASE
    requires v == 0 ==> c == 0
    ensures Canonical(c)
  {
    hide P, Pow2;
    if v > 0 {
      ReadingTruncates(v, size, m);
      if size <= 3 { DivUnique(m, P(3 - size), v, 0); }
    }
  }
}
