// Multi-digit unsigned integers of any width: the operators that rewrite the
// digits in place compute the integer operation modulo 2^(32 * width).
module BaseUint {
  import opened Limbs

  class BaseUint {
    const pn: array<Limb>

    ghost predicate Valid() { pn.Length > 0 }

    function Width(): nat { pn.Length }

    /** The number the digits stand for. */
    function Value(): nat
      reads pn
    {
      Val(pn[..])
    }

    constructor (width: nat)
      requires width > 0
      ensures Valid() && Width() == width && fresh(pn) && Value() == 0
    {
      pn := new Limb[width](_ => 0);
      new;
      ValZero(pn[..]);
    }

    constructor Copy(b: BaseUint)
      requires b.Valid()
      ensures Valid() && Width() == b.Width() && fresh(pn) && pn[..] == b.pn[..]
    {
      pn := new Limb[b.pn.Length](i requires 0 <= i < b.pn.Length reads b.pn => b.pn[i]);
    }

    method SetZero()
      modifies pn
      ensures forall i | 0 <= i < pn.Length :: pn[i] == 0
      ensures Value() == 0
    {
      var i := 0;
      while i < pn.Length
        invariant 0 <= i <= pn.Length && forall k | 0 <= k < i :: pn[k] == 0
      {
        pn[i] := 0;
        i := i + 1;
      }
      ValZero(pn[..]);
    }

    method ShiftLeft(shift: nat)
      requires Valid()
      modifies pn
      ensures Value() == (old(Value()) * Pow2(shift)) % B(Width())
    {
      hide Val, B, Pow2, Shl32, Shr32, Or, ShlDigit, ShlCarry;
      ghost var a0 := pn[..];
      var a := new BaseUint.Copy(this);
      SetZero();
      var k, s := shift / 32, shift % 32;
      var i := 0;
      ShlStart(a0, k, s);
      while i < pn.Length
        invariant 0 <= i <= pn.Length && a.pn[..] == a0
        invariant forall m | 0 <= m < pn.Length ::
          pn[m] == if m < i + k then ShlDigit(a0, k, s, m) else if m == i + k then ShlCarry(a0, k, s, m) else 0
      {
        ShlCarryIs(a0, k, s, i);
        OrZero(Shr32(a.pn[i], 32 - s));
        if i + k + 1 < pn.Length && s != 0 {
          pn[i + k + 1] := Or(pn[i + k + 1], Shr32(a.pn[i], 32 - s));
        }
        if i + k < pn.Length {
          OrCarry(a0, k, s, i);
          pn[i + k] := Or(pn[i + k], Shl32(a.pn[i], s));
        }
        i := i + 1;
      }
      ShlValue(a0, pn[..], shift);
    }

    method ShiftRight(shift: nat)
      requires Valid()
      modifies pn
      ensures Value() == old(Value()) / Pow2(shift)
    {
      hide Val, B, Pow2, Shl32, Shr32, Or, ShrDigit, ShrUpTo;
      ghost var a0 := pn[..];
      var a := new BaseUint.Copy(this);
      SetZero();
      var k, s := shift / 32, shift % 32;
      var i := 0;
      ShrStart(pn[..], a0, k, s);
      while i < pn.Length
        invariant 0 <= i <= pn.Length && a.pn[..] == a0
        invariant ShrUpTo(pn[..], a0, k, s, i)
      {
        ShrRound(pn[..], a0, k, s, i);
        ghost var p := pn[..];
        if i - k - 1 >= 0 && s != 0 {
          pn[i - k - 1] := Or(pn[i - k - 1], Shl32(a.pn[i], 32 - s));
        }
        assert pn[..] == ShrPulled(p, a0, k, s, i);
        if i - k >= 0 {
          pn[i - k] := Or(pn[i - k], Shr32(a.pn[i], s));
        }
        assert pn[..] == ShrMoved(p, a0, k, s, i);
        i := i + 1;
      }
      ShrDone(pn[..], a0, k, s);
      ShrValue(a0, pn[..], shift);
    }

    method AddAssign(b: BaseUint)
      requires Valid() && b.Width() == Width()
      modifies pn
      ensures Value() == (old(Value()) + old(b.Value())) % B(Width())
    {
      hide Val, B;
      ghost var a0, b0 := pn[..], b.pn[..];
      var carry: U64 := 0;
      var i := 0;
      EmptyPrefix(pn[..], a0, b0);
      while i < pn.Length
        invariant 0 <= i <= pn.Length && carry <= 1
        invariant forall k | i <= k < pn.Length :: pn[k] == a0[k] && b.pn[k] == b0[k]
        invariant Val(pn[..i]) + carry * B(i) == Val(a0[..i]) + Val(b0[..i])
      {
        ghost var before := pn[..i];
        var n: U64 := carry + pn[i] + b.pn[i];
        AddStep(a0, b0, before, carry, n, i);
        pn[i] := n % BASE;
        carry := n / BASE;
        assert pn[..i + 1] == before + [n % BASE];
        i := i + 1;
      }
      assert pn[..i] == pn[..] && a0[..i] == a0 && b0[..i] == b0;
      ValBound(pn[..]);
      ModUnique(Value(), carry, B(pn.Length), Val(a0) + Val(b0));
    }

    method Increment()
      requires Valid()
      modifies pn
      ensures Value() == (old(Value()) + 1) % B(Width())
    {
      hide Val, B;
      ghost var a0 := pn[..];
      var i := 0;
      pn[i] := (pn[i] + 1) % BASE;
      while pn[i] == 0 && i < pn.Length - 1
        invariant 0 <= i < pn.Length
        invariant forall k | 0 <= k < i :: pn[k] == 0 && a0[k] == BASE - 1
        invariant pn[i] == (a0[i] + 1) % BASE && forall k | i < k < pn.Length :: pn[k] == a0[k]
      {
        i := i + 1;
        pn[i] := (pn[i] + 1) % BASE;
      }
      IncrementValue(a0, pn[..], i);
    }

    method Decrement()
      requires Valid()
      modifies pn
      ensures Value() == (old(Value()) + B(Width()) - 1) % B(Width())
    {
      hide Val, B;
      ghost var a0 := pn[..];
      var i := 0;
      pn[i] := (pn[i] + BASE - 1) % BASE;
      while pn[i] == BASE - 1 && i < pn.Length - 1
        invariant 0 <= i < pn.Length
        invariant forall k | 0 <= k < i :: pn[k] == BASE - 1 && a0[k] == 0
        invariant pn[i] == (a0[i] + BASE - 1) % BASE && forall k | i < k < pn.Length :: pn[k] == a0[k]
      {
        i := i + 1;
        pn[i] := (pn[i] + BASE - 1) % BASE;
      }
      DecrementValue(a0, pn[..], i);
    }

    /** Two's complement. */
    method Negate() returns (ret: BaseUint)
      requires Valid()
      ensures fresh(ret) && fresh(ret.pn) && ret.Valid() && ret.Width() == Width()
      ensures ret.Value() == (B(Width()) - Value()) % B(Width())
    {
      hide Val, B;
      ret := new BaseUint(pn.Length);
      var i := 0;
      while i < pn.Length
        invariant 0 <= i <= pn.Length && forall k | 0 <= k < i :: ret.pn[k] == BASE - 1 - pn[k]
      {
        ret.pn[i] := BASE - 1 - pn[i];
        i := i + 1;
      }
      ValComplement(pn[..], ret.pn[..]);
      ret.Increment();
    }

    method SubAssign(b: BaseUint)
      requires Valid() && b.Width() == Width()
      modifies pn
      ensures Value() == (old(Value()) - old(b.Value())) % B(Width())
      ensures old(b.Value()) <= old(Value()) ==> Value() == old(Value()) - old(b.Value())
    {
      hide Val;
      ghost var x, y, m := Value(), b.Value(), B(Width());
      ValBound(pn[..]);
      ValBound(b.pn[..]);
      var minus := b.Negate();
      AddAssign(minus);
      SubtractByNegation(x, y, m);
    }

    /** Multiplication by a single digit: no 64-bit intermediate overflows. */
    method MulAssignSmall(b32: Limb)
      requires Valid()
      modifies pn
      ensures Value() == (old(Value()) * b32) % B(Width())
    {
      hide Val, B;
      ghost var a0 := pn[..];
      var carry: U64 := 0;
      var i := 0;
      EmptyPrefix(pn[..], a0, a0);
      while i < pn.Length
        invariant 0 <= i <= pn.Length && carry < BASE
        invariant forall k | i <= k < pn.Length :: pn[k] == a0[k]
        invariant Val(pn[..i]) + carry * B(i) == Val(a0[..i]) * b32
      {
        ghost var before := pn[..i];
        ProductFits(carry, 0, b32, pn[i]);
        var n: U64 := carry + (b32 as nat) * pn[i];
        MulStep(before, n, i, Val(a0[..i]) * b32, carry, 0, b32 * a0[i]);
        ValPrefix(a0, i);
        MulDistributes(Val(a0[..i]), a0[i], B(i), b32);
        pn[i] := n % BASE;
        carry := n / BASE;
        assert pn[..i + 1] == before + [n % BASE];
        i := i + 1;
      }
      assert pn[..i] == pn[..] && a0[..i] == a0;
      ValBound(pn[..]);
      ModUnique(Value(), carry, B(pn.Length), Val(a0) * b32);
    }

    /** Multiplication; an operand that shares the digits is cleared before it is read. */
    method MulAssign(b: BaseUint)
      requires Valid() && b.Width() == Width()
      modifies pn
      ensures b.pn != pn ==> Value() == (old(Value()) * b.Value()) % B(Width())
      ensures b.pn == pn ==> Value() == 0
    {
      hide Val, B;
      ghost var a0, b0 := pn[..], b.pn[..];
      var a := new BaseUint.Copy(this);
      SetZero();
      if b.pn == pn { b0 := pn[..]; }
      ghost var q: nat := 0;
      ghost var w := pn.Length;
      var j := 0;
      EmptyPrefix(pn[..], a0, b0);
      while j < pn.Length
        invariant 0 <= j <= pn.Length && a.pn[..] == a0
        invariant b.pn == pn ==> forall k | 0 <= k < w :: pn[k] == 0
        invariant b.pn[..] == b0
        invariant Val(pn[..]) + q * B(w) == Val(a0[..j]) * Val(b0)
      {
        ghost var p := Val(pn[..]);
        ghost var carry := AddRow(a, b, j);
        q := RowEffect(a0, b0, j, q, carry, p, Val(pn[..]));
        j := j + 1;
      }
      assert a0[..j] == a0;
      if b.pn == pn { ValZero(pn[..]); }
      ValBound(pn[..]);
      ModUnique(Value(), q, B(w), Val(a0) * Val(b0));
    }

    /** One row of the schoolbook product: add a[j] * b, moved up by j digits. */
    method AddRow(a: BaseUint, b: BaseUint, j: nat) returns (ghost out: nat)
      requires Valid() && b.Width() == a.Width() == Width() && j < Width() && a.pn != pn
      requires b.pn == pn ==> forall k | 0 <= k < Width() :: pn[k] == 0
      modifies pn
      ensures Val(pn[..]) + out * B(Width()) == old(Val(pn[..])) + (a.pn[j] * B(j)) * old(Val(b.pn[..Width() - j]))
      ensures b.pn == pn ==> forall k | 0 <= k < Width() :: pn[k] == 0
    {
      hide Val, B, RowSum;
      ghost var p0, b0, w := pn[..], b.pn[..], pn.Length;
      ghost var aj: nat := a.pn[j];
      var carry: U64 := 0;
      var i := 0;
      RowStart(p0, b0, j, aj);
      assert pn[..j] == p0[..j];
      while i + j < pn.Length
        invariant 0 <= i <= pn.Length - j && carry < BASE
        invariant forall k | 0 <= k < j || i + j <= k < w :: pn[k] == p0[k]
        invariant b.pn == pn ==> carry == 0 && forall k | 0 <= k < w :: pn[k] == 0
        invariant b.pn[..] == b0 && a.pn[j] == aj
        invariant RowSum(p0, b0, pn[..i + j], i, j, aj, carry)
      {
        ghost var before := pn[..i + j];
        ProductFits(carry, pn[i + j], a.pn[j], b.pn[i]);
        var n: U64 := carry + pn[i + j] + (a.pn[j] as nat) * b.pn[i];
        RowStep(p0, b0, before, i, j, aj, carry, n);
        if b.pn == pn { assert b.pn[i] == 0 && n == 0 by { assert a.pn[j] * 0 == 0; } }
        pn[i + j] := n % BASE;
        carry := n / BASE;
        assert pn[..i + j + 1] == before + [n % BASE];
        i := i + 1;
      }
      assert pn[..i + j] == pn[..];
      RowEnd(p0, b0, pn[..], i, j, aj, carry);
      assert b0[..w - j] == old(b.pn[..w - j]);
      out := carry;
    }

    method CompareTo(b: BaseUint) returns (c: int)
      requires Valid() && b.Width() == Width()
      ensures c == if Value() < b.Value() then -1 else if Value() > b.Value() then 1 else 0
    {
      hide Val;
      ghost var s, t := pn[..], b.pn[..];
      var i := pn.Length - 1;
      while i >= 0
        invariant -1 <= i < pn.Length && forall k | i < k < pn.Length :: s[k] == t[k]
      {
        if pn[i] < b.pn[i] {
          assert s[i + 1..] == t[i + 1..];
          TopDigitDecides(s, t, i);
          return -1;
        }
        if pn[i] > b.pn[i] {
          assert s[i + 1..] == t[i + 1..];
          TopDigitDecides(t, s, i);
          return 1;
        }
        i := i - 1;
      }
      assert s == t;
      return 0;
    }

    /** Position of the highest set bit plus one, or zero. */
    method Bits() returns (r: nat)
      requires Valid()
      ensures r == 0 <==> Value() == 0
      ensures r > 0 ==> Pow2(r - 1) <= Value() < Pow2(r)
      ensures r <= 32 * Width()
    {
      hide Val, B, Pow2;
      var pos := pn.Length - 1;
      while pos >= 0
        invariant -1 <= pos < pn.Length && forall k | pos < k < pn.Length :: pn[k] == 0
      {
        if pn[pos] != 0 {
          var bits := 31;
          Pow2Of32();
          while bits > 0
            invariant 0 <= bits <= 31 && pn[pos] < Pow2(bits + 1)
          {
            if (pn[pos] / Pow2(bits)) % 2 == 1 {
              SetBitBound(pn[pos], bits);
              TopDigitBits(pn[..], pos, bits);
              return 32 * pos + bits + 1;
            }
            ClearBitBound(pn[pos], bits);
            bits := bits - 1;
          }
          Pow2Small();
          TopDigitBits(pn[..], pos, 0);
          return 32 * pos + 1;
        }
        pos := pos - 1;
      }
      ValZero(pn[..]);
      return 0;
    }

    /** Long division: the quotient, or failure on a zero divisor. */
    method DivAssign(b: BaseUint) returns (ok: bool)
      requires Valid() && b.Width() == Width()
      modifies pn
      ensures ok <==> old(b.Value()) != 0
      ensures ok ==> Value() == old(Value()) / old(b.Value())
      ensures !ok ==> Value() == 0
    {
      hide Val, B, Pow2;
      ghost var x, y := Value(), b.Value();
      ValBound(pn[..]);
      var div := new BaseUint.Copy(b);
      var num := new BaseUint.Copy(this);
      SetZero();
      var num_bits := num.Bits();
      var div_bits := div.Bits();
      if div_bits == 0 { return false; }
      if div_bits > num_bits {
        FewerBitsIsSmaller(x, y, num_bits, div_bits);
        return true;
      }
      var shift: int := num_bits - div_bits;
      AlignedFits(x, y, num_bits, div_bits, Width());
      div.ShiftLeft(shift);
      SubtractAndShift(num, div, shift, x, y);
      return true;
    }

    /** The rounds of long division, from the aligned divisor downwards. */
    method SubtractAndShift(num: BaseUint, div: BaseUint, top: nat, ghost x: nat, ghost y: nat)
      requires Valid() && num.Width() == div.Width() == Width() && top < 32 * Width()
      requires num.pn != pn && div.pn != pn && num.pn != div.pn
      requires Value() == 0 && num.Value() == x && div.Value() == y * Pow2(top) && x < y * Pow2(top + 1) && y > 0
      modifies pn, num.pn, div.pn
      ensures Value() == x / y && num.Value() == x % y
    {
      hide Val, B, Pow2;
      var shift: int := top;
      ghost var q: nat := 0;
      while shift >= 0
        invariant -1 <= shift < 32 * Width()
        invariant shift >= 0 ==> div.Value() == y * Pow2(shift)
        invariant Value() == q * Pow2(shift + 1)
        invariant x == (q * Pow2(shift + 1)) * y + num.Value() && num.Value() < y * Pow2(shift + 1)
      {
        ghost var r := num.Value();
        var c := num.CompareTo(div);
        if c >= 0 {
          num.SubAssign(div);
          SetBit(shift, q);
        }
        QuotientStep(x, y, q, shift, r, c >= 0);
        q := 2 * q + if c >= 0 then 1 else 0;
        div.ShiftRight(1);
        ShiftedBack(y, shift);
        shift := shift - 1;
      }
      Pow2Small();
      DivUnique(x, y, q, num.Value());
    }

    /** Set a bit below which, and at which, all bits are clear. */
    method SetBit(shift: nat, ghost q: nat)
      requires Valid() && shift < 32 * Width() && Value() == q * Pow2(shift + 1)
      modifies pn
      ensures Value() == old(Value()) + Pow2(shift)
    {
      ClearBit(pn[..], q, shift);
      ghost var s := pn[..];
      pn[shift / 32] := Or(pn[shift / 32], Pow2(shift % 32));
      assert pn[..] == s[shift / 32 := s[shift / 32] + Pow2(shift % 32)];
    }
  }

  // ---------------------------------------------------------------- the steps

  lemma EmptyPrefix(p: seq<nat>, a: seq<nat>, b: seq<nat>)
    ensures Val(p[..0]) == Val(a[..0]) == Val(b[..0]) == 0
  {
  }

  lemma OrZero(y: nat)
    ensures Or(0, y) == y
  {
  }

  lemma ShlParts(x: Limb, s: nat)
    requires s < 32
    ensures Shr32(x, 32 - s) < Pow2(s) && Shl32(x, s) % Pow2(s) == 0
    ensures s == 0 ==> Shr32(x, 32) == 0 && Shl32(x, 32) == 0
  {
    hide Pow2;
    ShiftSplits(x, s);
    ModUnique(0, x % Pow2(32 - s), Pow2(s), Shl32(x, s));
    if s == 0 {
      Pow2Small();
      Pow2Of32();
      DivUnique(x, BASE, 0, x);
      ModUnique(0, x, BASE, x * BASE);
    }
  }

  lemma Pow2Small()
    ensures Pow2(0) == 1 && Pow2(1) == 2
  {
  }

  lemma ShlStart(a: seq<nat>, k: nat, s: nat)
    requires s < 32
    ensures forall m | 0 <= m < k && m < |a| :: ShlDigit(a, k, s, m) == 0
    ensures k <= |a| ==> ShlCarry(a, k, s, k) == 0
  {
  }

  lemma ShlCarryIs(a: seq<nat>, k: nat, s: nat, i: nat)
    requires s < 32 && i < |a| && Small(a)
    ensures i + k + 1 <= |a| ==> ShlCarry(a, k, s, i + k + 1) == Shr32(a[i], 32 - s)
    ensures s == 0 ==> Shr32(a[i], 32) == 0
  {
    ShlParts(a[i], s);
  }

  /** The carry below and the digit above it have no bit in common. */
  lemma OrCarry(a: seq<nat>, k: nat, s: nat, i: nat)
    requires s < 32 && i + k < |a| && Small(a)
    ensures Or(ShlCarry(a, k, s, i + k), Shl32(a[i], s)) == ShlDigit(a, k, s, i + k) < BASE
  {
    hide Pow2;
    ShiftSplits(a[i], s);
    if i > 0 { ShiftSplits(a[i - 1], s); }
    var high := a[i] % Pow2(32 - s);
    OrDisjoint(ShlCarry(a, k, s, i + k), high, s);
    assert ShlCarry(a, k, s, i + k) + Shl32(a[i], s) < BASE by {
      Pow2Of32();
      Pow2Add(32 - s, s);
      DivSmaller(a[i], Pow2(32 - s));
      MulLe(high + 1, Pow2(32 - s), Pow2(s));
      Distribute(high, 1, Pow2(s));
    }
  }

  lemma OrFromAbove(a: seq<nat>, k: nat, s: nat, i: nat)
    requires s < 32 && i < |a| && Small(a)
    ensures k + 1 <= i && s != 0 ==>
      Or(Shr32(a[i - 1], s), Shl32(a[i], 32 - s)) == ShrDigit(a, k, s, i - k - 1) < BASE
    ensures k + 1 <= i && s == 0 ==> Shr32(a[i - 1], s) == ShrDigit(a, k, s, i - k - 1)
  {
    hide Pow2;
    if k + 1 <= i && s != 0 {
      ShiftSplits(a[i - 1], 32 - s);
      ShiftSplits(a[i], 32 - s);
      var high := a[i] % Pow2(s);
      OrDisjoint(Shr32(a[i - 1], s), high, 32 - s);
      Pow2Of32();
      Pow2Add(s, 32 - s);
      DivSmaller(a[i], Pow2(s));
      MulLe(high + 1, Pow2(s), Pow2(32 - s));
      Distribute(high, 1, Pow2(32 - s));
    }
    ShlParts(a[i], s);
  }

  /** The digits before round i of the loop. */
  ghost predicate ShrUpTo(p: seq<nat>, a: seq<nat>, k: nat, s: nat, i: nat)
    requires s < 32
  {
    && |p| == |a|
    && forall m | 0 <= m < |p| ::
         p[m] == if m + k + 1 < i then ShrDigit(a, k, s, m)
                 else if m + k + 1 == i && m + k < |a| then Shr32(a[m + k], s) else 0
  }

  function ShrPulled(p: seq<nat>, a: seq<nat>, k: nat, s: nat, i: nat): seq<nat>
    requires i < |a| == |p| && s < 32
  {
    if i - k - 1 >= 0 && s != 0 then p[i - k - 1 := Or(p[i - k - 1], Shl32(a[i], 32 - s))] else p
  }

  function ShrMoved(p: seq<nat>, a: seq<nat>, k: nat, s: nat, i: nat): seq<nat>
    requires i < |a| == |p| && s < 32
  {
    var q := ShrPulled(p, a, k, s, i);
    if i - k >= 0 then q[i - k := Or(q[i - k], Shr32(a[i], s))] else q
  }

  lemma ShrRound(p: seq<nat>, a: seq<nat>, k: nat, s: nat, i: nat)
    requires i < |a| == |p| && s < 32 && Small(a) && ShrUpTo(p, a, k, s, i)
    ensures ShrUpTo(ShrMoved(p, a, k, s, i), a, k, s, i + 1)
    ensures i - k - 1 >= 0 && s != 0 ==> Or(p[i - k - 1], Shl32(a[i], 32 - s)) < BASE
    ensures i - k >= 0 ==> p[i - k] == 0 && Or(0, Shr32(a[i], s)) < BASE
  {
    hide Shl32, Shr32, ShrDigit, Or, Small;
    SmallAt(a, i);
    OrZero(Shr32(a[i], s));
    OrFromAbove(a, k, s, i);
  }

  lemma SmallAt(a: seq<nat>, i: nat)
    requires Small(a) && i < |a|
    ensures a[i] < BASE
  {
  }

  lemma ShrStart(p: seq<nat>, a: seq<nat>, k: nat, s: nat)
    requires s < 32 && |p| == |a| && forall m | 0 <= m < |p| :: p[m] == 0
    ensures ShrUpTo(p, a, k, s, 0)
  {
  }

  lemma ShrDone(p: seq<nat>, a: seq<nat>, k: nat, s: nat)
    requires s < 32 && ShrUpTo(p, a, k, s, |a|)
    ensures |p| == |a| && forall m | 0 <= m < |p| :: p[m] == ShrDigit(a, k, s, m)
  {
    hide Shr32, ShrDigit;
    ShrTop(a, k, s);
  }

  /** The top digit gets nothing from above. */
  lemma ShrTop(a: seq<nat>, k: nat, s: nat)
    requires s < 32
    ensures forall m: nat | m + k + 1 == |a| :: ShrDigit(a, k, s, m) == Shr32(a[m + k], s)
    ensures forall m: nat | m + k >= |a| :: ShrDigit(a, k, s, m) == 0
  {
  }

  /** Adding a digit with its carry. */
  lemma AddStep(a: seq<nat>, b: seq<nat>, p: seq<nat>, carry: nat, n: nat, i: nat)
    requires |p| == i < |a| == |b| && n == carry + a[i] + b[i]
    requires Val(p) + carry * B(i) == Val(a[..i]) + Val(b[..i])
    ensures Val(p + [n % BASE]) + (n / BASE) * B(i + 1) == Val(a[..i + 1]) + Val(b[..i + 1])
  {
    hide Val, B;
    MulStep(p, n, i, Val(a[..i]) + Val(b[..i]), carry, a[i], b[i]);
    ValPrefix(a, i);
    ValPrefix(b, i);
  }

  /** Storing a 64-bit sum n = carry + x + y as a digit and a carry. */
  lemma MulStep(p: seq<nat>, n: nat, i: nat, total: nat, carry: nat, x: nat, y: nat)
    requires |p| == i && n == carry + x + y && Val(p) + carry * B(i) == total
    ensures Val(p + [n % BASE]) + (n / BASE) * B(i + 1) == total + x * B(i) + y * B(i)
  {
    hide B;
    BStep(i);
    DivSmaller(n, BASE);
    assert (p + [n % BASE])[..i] == p;
    Distribute((n / BASE) * BASE, n % BASE, B(i));
    Regroup(n / BASE, BASE, B(i));
    Distribute(carry + x, y, B(i));
    Distribute(carry, x, B(i));
  }

  lemma ProductFits(carry: nat, p: nat, a: nat, b: nat)
    requires carry < BASE && p < BASE && a < BASE && b < BASE
    ensures carry + p + a * b < 0x1_0000_0000_0000_0000
    ensures (carry + p + a * b) / BASE < BASE
  {
    MulLe(a, BASE - 1, b);
    MulLe(b, BASE - 1, BASE - 1);
  }

  lemma MulDistributes(v: nat, x: nat, b: nat, f: nat)
    ensures (v + x * b) * f == v * f + (f * x) * b
  {
    Distribute(v, x * b, f);
    Regroup(x, b, f);
  }

  /** The row is added up to digit i: what is written and carried against what came in. */
  ghost predicate RowSum(p0: seq<nat>, b0: seq<nat>, written: seq<nat>, i: nat, j: nat, aj: nat, carry: nat) {
    && i + j <= |p0| && i <= |b0| && |written| == i + j
    && Val(written) + carry * B(i + j) == Val(p0[..i + j]) + (aj * B(j)) * Val(b0[..i])
  }

  lemma RowStart(p0: seq<nat>, b0: seq<nat>, j: nat, aj: nat)
    requires j <= |p0|
    ensures RowSum(p0, b0, p0[..j], 0, j, aj, 0)
  {
    hide B;
    assert Val(b0[..0]) == 0;
  }

  lemma RowEnd(p0: seq<nat>, b0: seq<nat>, p: seq<nat>, i: nat, j: nat, aj: nat, carry: nat)
    requires RowSum(p0, b0, p, i, j, aj, carry) && i + j == |p0|
    ensures Val(p) + carry * B(|p0|) == Val(p0) + (aj * B(j)) * Val(b0[..|p0| - j])
  {
    hide Val, B;
    assert p0[..i + j] == p0;
  }

  /** One more digit keeps the sum. */
  lemma RowStep(p0: seq<nat>, b0: seq<nat>, before: seq<nat>, i: nat, j: nat, aj: nat, carry: nat, n: nat)
    requires RowSum(p0, b0, before, i, j, aj, carry) && i + j < |p0| && i < |b0|
    requires n == carry + p0[i + j] + aj * b0[i]
    ensures RowSum(p0, b0, before + [n % BASE], i + 1, j, aj, n / BASE)
  {
    hide Val, B;
    MulStep(before, n, i + j, Val(p0[..i + j]) + (aj * B(j)) * Val(b0[..i]), carry, p0[i + j], aj * b0[i]);
    ValPrefix(p0, i + j);
    ValPrefix(b0, i);
    BAdd(j, i);
    RowDigit(aj * B(j), aj, B(j), Val(b0[..i]), b0[i], B(i), B(i + j));
  }

  lemma RowDigit(row: nat, a: nat, bj: nat, v: nat, x: nat, bi: nat, bij: nat)
    requires row == a * bj && bij == bj * bi
    ensures row * (v + x * bi) == row * v + (a * x) * bij
  {
    Distribute(v, x * bi, row);
    Regroup(x, bi, a * bj);
    Regroup(a, bj, bi);
    Regroup(a, x, bj * bi);
  }

  lemma RowEffect(a: seq<nat>, b: seq<nat>, j: nat, q: nat, c: nat, p: nat, p': nat) returns (q': nat)
    requires j < |a| == |b|
    requires p + q * B(|a|) == Val(a[..j]) * Val(b) && p' + c * B(|a|) == p + (a[j] * B(j)) * Val(b[..|a| - j])
    ensures p' + q' * B(|a|) == Val(a[..j + 1]) * Val(b)
  {
    hide Val, B;
    var w := |a|;
    ValSplit(b, w - j);
    ValPrefix(a, j);
    BAdd(j, w - j);
    q' := q + c + a[j] * Val(b[w - j..]);
    RowAlgebra(Val(a[..j]), a[j], B(j), Val(b[..w - j]), Val(b[w - j..]), B(w - j), B(w), q, c, p, p');
  }

  lemma RowAlgebra(v: nat, a: nat, bj: nat, low: nat, high: nat, bwj: nat, bw: nat, q: nat, c: nat, p: nat, p': nat)
    requires bw == bj * bwj
    requires p + q * bw == v * (low + high * bwj) && p' + c * bw == p + (a * bj) * low
    ensures p' + (q + c + a * high) * bw == (v + a * bj) * (low + high * bwj)
  {
    Distribute(v, a * bj, low + high * bwj);
    Distribute(low, high * bwj, a * bj);
    Regroup(high, bwj, a * bj);
    Regroup(a, bj, bwj);
    Regroup(a, high, bw);
    Distribute(q + c, a * high, bw);
    Distribute(q, c, bw);
  }

  lemma SubtractByNegation(x: nat, y: nat, m: nat)
    requires x < m && y < m
    ensures (x + (m - y) % m) % m == (x - y) % m
    ensures y <= x ==> (x - y) % m == x - y
  {
    if y == 0 { ModUnique(0, 1, m, m); ModUnique(x, 0, m, x); }
    else {
      ModUnique(m - y, 0, m, m - y);
      if y <= x { ModUnique(x - y, 1, m, x + m - y); ModUnique(x - y, 0, m, x - y); }
      else { ModUnique(x + m - y, 0, m, x + m - y); NegativeMod(x - y, m); }
    }
  }

  lemma NegativeMod(x: int, m: int)
    requires -m < x < 0
    ensures x % m == x + m
  {
    QuotientBelow(x / m, -1, x % m, x + m, m);
    QuotientBelow(-1, x / m, x + m, x % m, m);
  }

  /** Below digit i all ones turn to zeros, digit i goes up by one. */
  lemma Rises(a: seq<nat>, r: seq<nat>, i: nat)
    requires |a| == |r| && i < |a| && Val(a[..i]) == B(i) - 1 && Val(r[..i]) == 0
    requires r[i] == a[i] + 1 && forall k | i < k < |a| :: r[k] == a[k]
    ensures Val(r) == Val(a) + 1
  {
    hide Val, B;
    SameTail(a, r, i + 1);
    ValPrefix(a, i);
    ValPrefix(r, i);
    Distribute(a[i], 1, B(i));
  }

  lemma IncrementValue(a: seq<nat>, r: seq<nat>, i: nat)
    requires |a| == |r| && i < |a| && Small(a) && Small(r)
    requires forall k | 0 <= k < i :: r[k] == 0 && a[k] == BASE - 1
    requires r[i] == (a[i] + 1) % BASE && (r[i] == 0 ==> i == |a| - 1)
    requires forall k | i < k < |a| :: r[k] == a[k]
    ensures Val(r) == (Val(a) + 1) % B(|a|)
  {
    hide Val, B;
    if r[i] == 0 {
      ValZero(r);
      ValComplement(a, r);
      ModUnique(0, 1, B(|a|), Val(a) + 1);
    } else {
      ValZero(r[..i]);
      ValComplement(a[..i], r[..i]);
      Rises(a, r, i);
      ValBound(r);
      ModUnique(Val(r), 0, B(|a|), Val(a) + 1);
    }
  }

  lemma DecrementValue(a: seq<nat>, r: seq<nat>, i: nat)
    requires |a| == |r| && i < |a| && Small(a) && Small(r)
    requires forall k | 0 <= k < i :: r[k] == BASE - 1 && a[k] == 0
    requires r[i] == (a[i] + BASE - 1) % BASE && (r[i] == BASE - 1 ==> i == |a| - 1)
    requires forall k | i < k < |a| :: r[k] == a[k]
    ensures Val(r) == (Val(a) + B(|a|) - 1) % B(|a|)
  {
    hide Val, B;
    ValBound(r);
    if a[i] == 0 {
      ValZero(a);
      ValComplement(a, r);
      ModUnique(Val(r), 0, B(|a|), Val(a) + B(|a|) - 1);
    } else {
      ValZero(a[..i]);
      ValComplement(a[..i], r[..i]);
      Rises(r, a, i);
      ModUnique(Val(r), 1, B(|a|), Val(a) + B(|a|) - 1);
    }
  }

  lemma SetBitBound(x: nat, bits: nat)
    requires (x / Pow2(bits)) % 2 == 1
    ensures Pow2(bits) <= x
  {
    hide Pow2;
    DivSmaller(x, Pow2(bits));
    MulLe(1, x / Pow2(bits), Pow2(bits));
  }

  lemma ClearBitBound(x: nat, bits: nat)
    requires bits > 0 && x < Pow2(bits + 1) && (x / Pow2(bits)) % 2 == 0
    ensures x < Pow2(bits)
  {
    var p, q := Pow2(bits), x / Pow2(bits);
    hide Pow2;
    DivSmaller(x, p);
    assert Pow2(bits + 1) == 2 * p by { Pow2Double(bits); }
    if q >= 2 { MulLe(2, q, p); }
  }

  lemma Pow2Double(n: nat)
    ensures Pow2(n + 1) == 2 * Pow2(n)
  {
  }

  /** With nothing above digit pos, the number has as many bits as that digit adds. */
  lemma TopDigitBits(s: seq<nat>, pos: nat, bits: nat)
    requires pos < |s| && Small(s) && (forall k | pos < k < |s| :: s[k] == 0)
    requires Pow2(bits) <= s[pos] < Pow2(bits + 1)
    ensures Pow2(32 * pos + bits) <= Val(s) < Pow2(32 * pos + bits + 1)
  {
    hide Val, B, Pow2;
    ValSplit(s, pos + 1);
    ValZero(s[pos + 1..]);
    ValPrefix(s, pos);
    ValBound(s[..pos]);
    BIsPow2(pos);
    Pow2Add(bits, 32 * pos);
    Pow2Add(bits + 1, 32 * pos);
    MulLe(Pow2(bits), s[pos], B(pos));
    MulLe(s[pos] + 1, Pow2(bits + 1), B(pos));
    Distribute(s[pos], 1, B(pos));
  }

  lemma BIsPow2(n: nat)
    ensures B(n) == Pow2(32 * n)
  {
  }

  // -------------------------------------------------------------- long division

  lemma FewerBitsIsSmaller(x: nat, y: nat, n: nat, m: nat)
    requires n < m && (n == 0 ==> x == 0) && (n > 0 ==> x < Pow2(n)) && Pow2(m - 1) <= y
    ensures y > 0 && x / y == 0
  {
    hide Pow2;
    Pow2Monotone(n, m - 1);
    DivUnique(x, y, 0, x);
  }

  /** Aligning the divisor with the dividend loses no bit. */
  lemma AlignedFits(x: nat, y: nat, n: nat, m: nat, w: nat)
    requires 0 < m <= n <= 32 * w && Pow2(m - 1) <= y < Pow2(m) && Pow2(n - 1) <= x < Pow2(n)
    ensures (y * Pow2(n - m)) % B(w) == y * Pow2(n - m)
    ensures x < y * Pow2(n - m + 1)
  {
    hide Pow2;
    var s := n - m;
    Pow2Add(m, s);
    Pow2Add(m - 1, s + 1);
    MulLt(y, Pow2(m), Pow2(s));
    MulLe(Pow2(m - 1), y, Pow2(s + 1));
    Pow2Monotone(n, 32 * w);
    ModUnique(y * Pow2(s), 0, B(w), y * Pow2(s));
  }

  lemma ClearBit(s: seq<nat>, q: nat, shift: nat)
    requires Small(s) && shift < 32 * |s| && Val(s) == q * Pow2(shift + 1)
    ensures var k, b := shift / 32, shift % 32;
      && Or(s[k], Pow2(b)) == s[k] + Pow2(b) < BASE
      && Val(s[k := s[k] + Pow2(b)]) == Val(s) + Pow2(shift)
  {
    hide Val, B, Pow2, Or;
    var k, b := shift / 32, shift % 32;
    var m := DigitAbove(s, q, k, b);
    Pow2Double(b);
    OrDisjoint(Pow2(b), m, b + 1);
    Pow2Of32();
    Pow2Add(b + 1, 31 - b);
    RoomForBit(m, Pow2(b + 1), Pow2(31 - b));
    Distribute(m, 1, Pow2(b + 1));
    RaiseDigit(s, k, Pow2(b));
    Pow2Add(b, 32 * k);
    BIsPow2(k);
  }

  /** If the number is a multiple of 2^(32k+b+1), digit k is one of 2^(b+1). */
  lemma DigitAbove(s: seq<nat>, q: nat, k: nat, b: nat) returns (m: nat)
    requires Small(s) && k < |s| && b < 32 && Val(s) == q * Pow2(32 * k + b + 1)
    ensures s[k] == m * Pow2(b + 1)
  {
    hide Val, B, Pow2;
    var high := Val(s[k + 1..]);
    ValSplit(s, k + 1);
    ValPrefix(s, k);
    ValBound(s[..k]);
    BStep(k);
    Pow2Add(b + 1, 32 * k);
    BIsPow2(k);
    DigitIsMultiple(Val(s[..k]), s[k], B(k), high, q, Pow2(b + 1));
    Pow2Of32();
    Pow2Add(b + 1, 31 - b);
    var n := q - high * Pow2(31 - b);
    Regroup(high, Pow2(31 - b), Pow2(b + 1));
    Distribute(q, -(high * Pow2(31 - b)), Pow2(b + 1));
    MultipleIsNatural(n, Pow2(b + 1));
    m := n;
  }

  lemma RaiseDigit(s: seq<nat>, k: nat, x: nat)
    requires k < |s|
    ensures Val(s[k := s[k] + x]) == Val(s) + x * B(k)
  {
    hide Val, B;
    var t := s[k := s[k] + x];
    SameTail(s, t, k + 1);
    ValPrefix(s, k);
    ValPrefix(t, k);
    assert t[..k] == s[..k];
    Distribute(s[k], x, B(k));
  }

  lemma MultipleIsNatural(m: int, p: nat)
    requires m * p >= 0 && p > 0
    ensures m >= 0
  {
    if m < 0 { MulLe(1, -m, p); }
  }

  lemma RoomForBit(m: nat, p: nat, d: nat)
    requires m * p < BASE == p * d && p > 0
    ensures (m + 1) * p <= BASE
  {
    if m >= d { MulLe(d, m, p); }
    MulLe(m + 1, d, p);
  }

  lemma DigitIsMultiple(low: nat, digit: nat, b: nat, high: nat, q: nat, p: nat)
    requires low < b && low + digit * b + high * (b * BASE) == q * (p * b)
    ensures low == 0 && digit == q * p - high * BASE
  {
    Regroup(q, p, b);
    Regroup(high, b, BASE);
    Distribute(digit, high * BASE, b);
    QuotientBelow(digit + high * BASE, q * p, low, 0, b);
    QuotientBelow(q * p, digit + high * BASE, 0, low, b);
  }

  /** One round of long division: the remainder halves its bound, the quotient
      gains the bit at `shift`. */
  lemma QuotientStep(x: nat, y: nat, q: nat, shift: nat, r: nat, fits: bool)
    requires x == (q * Pow2(shift + 1)) * y + r && r < y * Pow2(shift + 1)
    requires fits <==> r >= y * Pow2(shift)
    ensures var q' := 2 * q + if fits then 1 else 0; var r' := if fits then r - y * Pow2(shift) else r;
      && q' * Pow2(shift) == q * Pow2(shift + 1) + (if fits then Pow2(shift) else 0)
      && x == (q' * Pow2(shift)) * y + r' && r' < y * Pow2(shift)
  {
    var t := Pow2(shift);
    assert Pow2(shift + 1) == 2 * t;
    hide Pow2;
    Regroup(q, 2, t);
    Regroup(y, 2, t);
    Distribute(2 * q, 1, t);
    Distribute((2 * q) * t, t, y);
  }

  lemma ShiftedBack(y: nat, shift: nat)
    ensures shift > 0 ==> (y * Pow2(shift)) / Pow2(1) == y * Pow2(shift - 1)
  {
    if shift > 0 {
      Pow2Double(shift - 1);
      assert y * Pow2(shift) == 2 * (y * Pow2(shift - 1));
    }
  }
}
