// Base 58 text for byte strings, by way of arbitrary-precision integers.
module Base58 {
  import opened Limbs
  import opened Options
  import opened Sequences

  type Byte = x: nat | x < 256

  const DIGITS: string := "123456789"
  const UPPER_A: string := "ABCDEFGH"
  const UPPER_J: string := "JKLMN"
  const UPPER_P: string := "PQRSTUVWXYZ"
  const LOWER_A: string := "abcdefghijk"
  const LOWER_M: string := "mnopqrstuvwxyz"
  const ALPHABET: string := DIGITS + UPPER_A + UPPER_J + UPPER_P + LOWER_A + LOWER_M

  // -------------------------------------------------------------------- digits

  /** The number with the given digits, most significant first. */
  function FromDigits(base: nat, digits: seq<nat>): nat {
    if digits == [] then 0 else FromDigits(base, digits[..|digits| - 1]) * base + digits[|digits| - 1]
  }

  /** Its digits without leading zeros. */
  function ToDigits(base: nat, n: nat): (digits: seq<nat>)
    requires base >= 2
    ensures forall i | 0 <= i < |digits| :: digits[i] < base
    decreases n
  {
    if n == 0 then [] else
      Shrinks(n, base);
      ToDigits(base, n / base) + [n % base]
  }

  function LeadingZeros(s: seq<nat>): (k: nat)
    ensures k <= |s|
  {
    if s == [] || s[0] != 0 then 0 else 1 + LeadingZeros(s[1..])
  }

  function Zeros(k: nat): (z: seq<nat>)
    ensures |z| == k && forall i | 0 <= i < k :: z[i] == 0
  {
    if k == 0 then [] else [0] + Zeros(k - 1)
  }

  ghost predicate DigitsOf(base: nat, s: seq<nat>) {
    forall i | 0 <= i < |s| :: s[i] < base
  }

  /** Digits without a leading zero are determined by their number. */
  lemma {:induction false} ToFromDigits(base: nat, s: seq<nat>)
    requires base >= 2 && DigitsOf(base, s) && (s != [] ==> s[0] != 0)
    ensures ToDigits(base, FromDigits(base, s)) == s
    ensures s != [] ==> FromDigits(base, s) > 0
    decreases |s|
  {
    if s != [] {
      var n := |s| - 1;
      ToFromDigits(base, s[..n]);
      var q := FromDigits(base, s[..n]);
      assert FromDigits(base, s) == q * base + s[n];
      hide FromDigits;
      DivUnique(q * base + s[n], base, q, s[n]);
      if n > 0 { MulLe(1, q, base); }
      assert s == s[..n] + [s[n]];
    }
  }

  lemma {:induction false} FromToDigits(base: nat, n: nat)
    requires base >= 2
    ensures FromDigits(base, ToDigits(base, n)) == n
    ensures n > 0 ==> ToDigits(base, n) != [] && ToDigits(base, n)[0] != 0
    ensures n == 0 ==> ToDigits(base, n) == []
    decreases n
  {
    if n > 0 {
      Shrinks(n, base);
      FromToDigits(base, n / base);
      DivSmaller(n, base);
      var d := ToDigits(base, n);
      assert d[..|d| - 1] == ToDigits(base, n / base);
      if n / base == 0 { assert d == [n % base]; }
    }
  }

  lemma Shrinks(n: nat, base: nat)
    requires n > 0 && base >= 2
    ensures 0 <= n / base < n
  {
    DivSmaller(n, base);
    MulLe(2, base, n / base);
  }

  lemma {:induction false} FromZeros(base: nat, k: nat, s: seq<nat>)
    ensures FromDigits(base, Zeros(k) + s) == FromDigits(base, s)
    decreases k + |s|
  {
    if s != [] {
      FromZeros(base, k, s[..|s| - 1]);
      assert (Zeros(k) + s)[..k + |s| - 1] == Zeros(k) + s[..|s| - 1];
    } else if k > 0 {
      ZerosEnd(k);
      FromZeros(base, k - 1, []);
      assert Zeros(k) + [] == Zeros(k - 1) + [0] && Zeros(k - 1) + [] == Zeros(k - 1);
      assert (Zeros(k) + [])[..k - 1] == Zeros(k - 1);
    }
  }

  lemma ZerosEnd(k: nat)
    requires k > 0
    ensures Zeros(k) == Zeros(k - 1) + [0]
  {
  }

  /** A string of digits is its leading zeros followed by its number. */
  lemma Normalised(base: nat, s: seq<nat>)
    requires base >= 2 && DigitsOf(base, s)
    ensures s == Zeros(LeadingZeros(s)) + ToDigits(base, FromDigits(base, s))
  {
    var k := LeadingZeros(s);
    SplitZeros(s);
    FromZeros(base, k, s[k..]);
    ToFromDigits(base, s[k..]);
  }

  lemma {:induction false} SplitZeros(s: seq<nat>)
    ensures var k := LeadingZeros(s); s == Zeros(k) + s[k..] && (k < |s| ==> s[k] != 0)
  {
    if s != [] && s[0] == 0 {
      SplitZeros(s[1..]);
      PutZero(s, LeadingZeros(s[1..]));
    } else {
      assert s == [] + s[0..];
    }
  }

  lemma PutZero(s: seq<nat>, k: nat)
    requires s != [] && s[0] == 0 && k < |s| && s[1..] == Zeros(k) + s[1..][k..]
    ensures s == Zeros(k + 1) + s[k + 1..]
  {
    assert s[1..][k..] == s[k + 1..];
    assert s == [0] + s[1..] == [0] + (Zeros(k) + s[k + 1..]) == [0] + Zeros(k) + s[k + 1..];
    assert Zeros(k + 1) == [0] + Zeros(k);
  }

  lemma {:induction false} LeadingZerosOf(k: nat, s: seq<nat>)
    requires s != [] ==> s[0] != 0
    ensures LeadingZeros(Zeros(k) + s) == k
  {
    if k > 0 {
      LeadingZerosOf(k - 1, s);
      assert (Zeros(k) + s)[1..] == Zeros(k - 1) + s;
    } else {
      assert Zeros(0) + s == s;
    }
  }

  // ------------------------------------------- the big-number library's bytes

  /** OpenSSL's MPI form without its length, as read from and written to a
      number: little endian here, with the top bit of the last byte as sign. */
  function SetVch(vch: seq<nat>): int {
    var big := Reverse(vch);
    if big == [] then 0
    else if big[0] >= 0x80 then 0 - (FromDigits(256, big[0 := big[0] - 0x80]) as int) else FromDigits(256, big)
  }

  function GetVch(n: nat): seq<nat> {
    var big := ToDigits(256, n);
    Reverse(if big != [] && big[0] >= 0x80 then [0] + big else big)
  }

  // ------------------------------------------------------------------- the code

  method EncodeBase58(bytes: seq<Byte>) returns (str: string)
    ensures str == Encode(bytes)
  {
    hide FromDigits, SetVch, LeadingZeros, Digits58, ToDigits;
    var vchTmp := Reverse<nat>(bytes) + [0];
    PaddedIsPositive(bytes);
    var number := ReversedNumber(SetVch(vchTmp));
    str := AppendOnes(bytes, number);
    str := Reverse(str);
    Digits58Concat(Zeros(LeadingZeros(bytes)), ToDigits(58, FromDigits(256, bytes)));
  }

  /** The division loop: least significant digit first. */
  method ReversedNumber(n: nat) returns (str: string)
    ensures Reverse(str) == Digits58(ToDigits(58, n))
  {
    var bn := n;
    str := "";
    while bn > 0
      invariant Digits58(ToDigits(58, n)) == Digits58(ToDigits(58, bn)) + Reverse(str)
    {
      Shrinks(bn, 58);
      DigitStep(bn);
      var rem := bn % 58;
      bn := bn / 58;
      ReverseConcat(str, [ALPHABET[rem]]);
      ReverseOne(ALPHABET[rem]);
      str := str + [ALPHABET[rem]];
    }
  }

  lemma DigitStep(n: nat)
    requires n > 0
    ensures |ALPHABET| == 58 && 0 <= n / 58
    ensures Digits58(ToDigits(58, n)) == Digits58(ToDigits(58, n / 58)) + [ALPHABET[n % 58]]
  {
    CodeOfDigit(0);
    Shrinks(n, 58);
    Digits58Concat(ToDigits(58, n / 58), [n % 58]);
  }

  lemma OneForZero()
    ensures |ALPHABET| == 58 && Digits58([0]) == [ALPHABET[0]] && Digits58([]) == []
  {
    CodeOfDigit(0);
  }

  method AppendOnes(bytes: seq<nat>, number: string) returns (str: string)
    ensures Reverse(str) == Digits58(Zeros(LeadingZeros(bytes))) + Reverse(number)
  {
    hide Digits58, Reverse;
    OneForZero();
    str := number;
    var p := 0;
    while p < |bytes| && bytes[p] == 0
      invariant 0 <= p <= |bytes| && LeadingZeros(bytes) == p + LeadingZeros(bytes[p..])
      invariant Reverse(str) == Digits58(Zeros(p)) + Reverse(number)
    {
      ReverseConcat(str, [ALPHABET[0]]);
      ReverseOne(ALPHABET[0]);
      str := str + [ALPHABET[0]];
      Digits58Concat([0], Zeros(p));
      assert Zeros(p + 1) == [0] + Zeros(p);
      assert bytes[p..][1..] == bytes[p + 1..];
      p := p + 1;
    }
    if p < |bytes| { assert bytes[p..][0] != 0; }
  }

  /** The text for base-58 digits. */
  function Digits58(digits: seq<nat>): (s: string)
    ensures |s| == |digits|
  {
    seq(|digits|, i requires 0 <= i < |digits| => if digits[i] < 58 then ALPHABET[digits[i]] else ' ')
  }

  function Encode(bytes: seq<nat>): string {
    Digits58(Zeros(LeadingZeros(bytes)) + ToDigits(58, FromDigits(256, bytes)))
  }

  /** What decoding is to return for base-58 digits. */
  function Bytes(digits: seq<nat>): seq<nat> {
    Zeros(LeadingZeros(digits)) + ToDigits(256, FromDigits(58, digits))
  }

  const SPACES: string := " \t\n\U{000B}\U{000C}\r"

  /** Position of a character in a string, or the string's length. */
  function IndexIn(s: string, c: char): (i: nat)
    ensures i <= |s| && (i < |s| ==> s[i] == c) && forall k | 0 <= k < i :: s[k] != c
  {
    if s == "" || s[0] == c then 0 else 1 + IndexIn(s[1..], c)
  }

  function Values(s: string): (digits: seq<nat>)
    ensures |digits| == |s|
  {
    seq(|s|, i requires 0 <= i < |s| => IndexIn(ALPHABET, s[i]))
  }

  /** The part of a string a C function sees. */
  function CString(s: string): (r: string)
    ensures forall i | 0 <= i < |r| :: r[i] != '\0'
  {
    if s == "" || s[0] == '\0' then "" else [s[0]] + CString(s[1..])
  }

  /** Length of the longest prefix made of the given characters. */
  function Span(chars: string, s: string): (k: nat)
    ensures k <= |s| && (forall i | 0 <= i < k :: s[i] in chars) && (k < |s| ==> s[k] !in chars)
  {
    if s == "" || s[0] !in chars then 0 else 1 + Span(chars, s[1..])
  }

  /** What is left of a text without the spaces around it, if that is only digits. */
  function Strip(spaces: string, digits: string, text: string): Option<string> {
    var t := text[Span(spaces, text)..];
    var k := Span(digits, t);
    if Span(spaces, t[k..]) == |t[k..]| then Some(t[..k]) else None
  }

  function Core(str: string): Option<string> { Strip(SPACES, ALPHABET, CString(str)) }

  function Decode(str: string): Option<seq<nat>> {
    match Core(str)
    case Some(t) => Some(Bytes(Values(t)))
    case None => None
  }

  method SkipSpaces(s: string) returns (rest: string)
    ensures rest == s[Span(SPACES, s)..]
  {
    rest := s;
    while rest != "" && rest[0] in SPACES
      invariant s[Span(SPACES, s)..] == rest[Span(SPACES, rest)..]
      decreases |rest|
    {
      rest := rest[1..];
    }
  }

  /** The digit loop: the number they stand for and how many there are. */
  method ReadDigits(psz: string) returns (ok: bool, bn: nat, p: nat)
    ensures p == Span(ALPHABET, psz) && bn == FromDigits(58, Values(psz[..p]))
    ensures ok <==> Span(SPACES, psz[p..]) == |psz[p..]|
  {
    hide Span;
    SpanSteps(psz, 0);
    bn, p := 0, 0;
    while p < |psz|
      invariant 0 <= p <= |psz| && bn == FromDigits(58, Values(psz[..p]))
      invariant Span(ALPHABET, psz) == p + Span(ALPHABET, psz[p..])
    {
      SpanSteps(psz, p);
      var p1 := IndexIn(ALPHABET, psz[p]);
      if p1 == |ALPHABET| {
        var rest := SkipSpaces(psz[p..]);
        ok := rest == "";
        return;
      }
      assert Values(psz[..p + 1])[..p] == Values(psz[..p]);
      bn := bn * 58 + p1;
      p := p + 1;
    }
    ok := true;
  }

  lemma SpanSteps(s: string, p: nat)
    requires p <= |s|
    ensures s[0..] == s
    ensures p < |s| ==> Span(ALPHABET, s[p..]) == if s[p] in ALPHABET then 1 + Span(ALPHABET, s[p + 1..]) else 0
    ensures p == |s| ==> Span(ALPHABET, s[p..]) == 0
    ensures Span(SPACES, "") == 0
  {
    if p < |s| { assert s[p..][1..] == s[p + 1..]; }
  }

  method CountOnes(psz: string) returns (n: nat)
    ensures n == LeadingZeros(Values(psz[..Span(ALPHABET, psz)]))
  {
    ghost var digits := Values(psz[..Span(ALPHABET, psz)]);
    n := 0;
    while n < |psz| && psz[n] == ALPHABET[0]
      invariant 0 <= n <= |digits|
      invariant LeadingZeros(digits) == n + LeadingZeros(digits[n..])
    {
      OneIsZero();
      assert digits[n..][1..] == digits[n + 1..];
      n := n + 1;
    }
    if n < |digits| { assert digits[n..][0] == digits[n] != 0; }
  }

  method DecodeBase58(str: string) returns (ok: bool, vchRet: seq<nat>)
    ensures ok <==> Decode(str).Some?
    ensures vchRet == if ok then Decode(str).value else []
  {
    hide Decode, Span, CString, FromDigits, ToDigits, Values, LeadingZeros, Zeros;
    var psz := SkipSpaces(CString(str));
    var bn, p;
    ok, bn, p := ReadDigits(psz);
    DecodeOf(str, psz, p);
    if !ok { return false, []; }
    var vch := BigEndian(bn);
    var nLeadingZeros := CountOnes(psz);
    vchRet := Zeros(nLeadingZeros) + vch;
  }

  /** The number's bytes, without the one the library adds for the sign. */
  method BigEndian(bn: nat) returns (vch: seq<nat>)
    ensures vch == ToDigits(256, bn)
  {
    hide ToDigits, Reverse, GetVch;
    var vchTmp := Trimmed(GetVch(bn));
    SignByteTrimmed(bn);
    ReverseTwice(ToDigits(256, bn));
    vch := Reverse(vchTmp);
  }

  method Trimmed(vchTmp: seq<nat>) returns (vch: seq<nat>)
    ensures vch == Trim(vchTmp)
  {
    vch := vchTmp;
    if |vch| >= 2 && vch[|vch| - 1] == 0 && vch[|vch| - 2] >= 0x80 {
      vch := vch[..|vch| - 1];
    }
  }

  function Trim(v: seq<nat>): seq<nat> {
    if |v| >= 2 && v[|v| - 1] == 0 && v[|v| - 2] >= 0x80 then v[..|v| - 1] else v
  }

  lemma DecodeOf(str: string, psz: string, p: nat)
    requires psz == CString(str)[Span(SPACES, CString(str))..] && p == Span(ALPHABET, psz)
    ensures Decode(str) ==
      if Span(SPACES, psz[p..]) == |psz[p..]| then Some(Bytes(Values(psz[..p]))) else None
  {
    hide Span, CString, Values, Bytes;
  }

  // ------------------------------------------------------------------ the pieces

  /** The extra zero makes the library read the bytes as a positive number. */
  lemma PaddedIsPositive(bytes: seq<nat>)
    ensures SetVch(Reverse(bytes) + [0]) == FromDigits(256, bytes)
  {
    hide FromDigits, Reverse;
    ReverseConcat(Reverse(bytes), [0]);
    ReverseTwice(bytes);
    ReverseOne(0);
    var big := Zeros(1) + bytes;
    assert Zeros(1) == [0];
    assert Reverse(Reverse(bytes) + [0]) == big;
    FromZeros(256, 1, bytes);
  }

  /** Without the byte added for the sign, the library's bytes are the plain digits. */
  lemma SignByteTrimmed(n: nat)
    ensures Trim(GetVch(n)) == Reverse(ToDigits(256, n))
  {
    hide ToDigits;
    FromToDigits(256, n);
    var big := ToDigits(256, n);
    if big != [] && big[0] >= 0x80 {
      ReverseConcat([0], big);
      ReverseOne(0);
    }
  }

  lemma Digits58Concat(a: seq<nat>, b: seq<nat>)
    ensures Digits58(a + b) == Digits58(a) + Digits58(b)
  {
  }

  /** Character codes of the alphabet: six runs in ascending order. */
  function Code(i: nat): int {
    if i < 9 then 49 + i else if i < 17 then 65 + i - 9 else if i < 22 then 74 + i - 17
    else if i < 33 then 80 + i - 22 else if i < 44 then 97 + i - 33 else 109 + i - 44
  }

  ghost predicate RunFrom(s: string, c: char) {
    forall i | 0 <= i < |s| :: s[i] as int == c as int + i
  }

  lemma Runs()
    ensures RunFrom(DIGITS, '1') && RunFrom(UPPER_A, 'A') && RunFrom(UPPER_J, 'J')
    ensures RunFrom(UPPER_P, 'P') && RunFrom(LOWER_A, 'a') && RunFrom(LOWER_M, 'm')
  {
  }

  lemma CodeOfDigit(i: nat)
    requires i < 58
    ensures |ALPHABET| == 58 && ALPHABET[i] as int == Code(i)
  {
    Runs();
    var a := DIGITS + UPPER_A;
    var b := a + UPPER_J;
    var c := b + UPPER_P;
    var d := c + LOWER_A;
    assert ALPHABET == d + LOWER_M;
  }

  lemma AlphabetDistinct(i: nat, j: nat)
    requires i < j < 58
    ensures ALPHABET[i] != ALPHABET[j]
  {
    CodeOfDigit(i);
    CodeOfDigit(j);
  }

  lemma IndexOfDigit(d: nat)
    requires d < 58
    ensures IndexIn(ALPHABET, ALPHABET[d]) == d
  {
    var i := IndexIn(ALPHABET, ALPHABET[d]);
    if i < d { AlphabetDistinct(i, d); }
  }

  lemma OneIsZero()
    ensures IndexIn(ALPHABET, ALPHABET[0]) == 0
  {
    IndexOfDigit(0);
  }

  lemma ValuesOfDigits(digits: seq<nat>)
    requires DigitsOf(58, digits)
    ensures Values(Digits58(digits)) == digits
    ensures InAlphabet(Digits58(digits))
  {
    forall i | 0 <= i < |digits| ensures IndexIn(ALPHABET, Digits58(digits)[i]) == digits[i] {
      IndexOfDigit(digits[i]);
    }
    CodeOfDigit(0);
  }

  /** The characters that are neither digits nor the end of a C string. */
  lemma AboveSpace(d: nat)
    requires d < 58
    ensures ALPHABET[d] !in SPACES && ALPHABET[d] != '\0'
  {
    CodeOfDigit(d);
    assert forall c | c in SPACES :: c as int <= 32;
  }

  lemma NoDigitIsSpace()
    ensures forall c | c in ALPHABET :: c !in SPACES && c != '\0'
  {
    CodeOfDigit(0);
    forall c | c in ALPHABET ensures c !in SPACES && c != '\0' {
      var i :| 0 <= i < |ALPHABET| && ALPHABET[i] == c;
      AboveSpace(i);
    }
  }

  lemma DigitsOfValues(t: string)
    requires InAlphabet(t)
    ensures DigitsOf(58, Values(t)) && Digits58(Values(t)) == t
  {
    CodeOfDigit(0);
  }

  ghost predicate OnlyOf(chars: string, s: string) { forall i | 0 <= i < |s| :: s[i] in chars }

  ghost predicate InAlphabet(t: string) { OnlyOf(ALPHABET, t) }

  // ------------------------------------------------------------------- theorems

  lemma EncodeIsDigits(b: seq<nat>)
    ensures var d := Zeros(LeadingZeros(b)) + ToDigits(58, FromDigits(256, b));
      DigitsOf(58, d) && Encode(b) == Digits58(d)
  {
  }

  /** On digits, encoding and decoding are inverse to each other. */
  lemma ChangeOfBase(b: seq<nat>, base: nat, base': nat)
    requires base >= 2 && base' >= 2 && DigitsOf(base, b)
    ensures var d := Zeros(LeadingZeros(b)) + ToDigits(base', FromDigits(base, b));
      Zeros(LeadingZeros(d)) + ToDigits(base, FromDigits(base', d)) == b
  {
    var n, k := FromDigits(base, b), LeadingZeros(b);
    FromToDigits(base', n);
    LeadingZerosOf(k, ToDigits(base', n));
    FromZeros(base', k, ToDigits(base', n));
    Normalised(base, b);
  }

  lemma {:induction false} SpanOf(chars: string, s: string, t: string)
    requires OnlyOf(chars, s) && (t != "" ==> t[0] !in chars)
    ensures Span(chars, s + t) == |s|
  {
    if s != "" {
      assert (s + t)[1..] == s[1..] + t;
      SpanOf(chars, s[1..], t);
    } else {
      assert s + t == t;
    }
  }

  lemma {:induction false} CStringWhole(s: string)
    requires forall i | 0 <= i < |s| :: s[i] != '\0'
    ensures CString(s) == s
  {
    if s != "" { CStringWhole(s[1..]); }
  }

  ghost predicate Blank(s: string) { OnlyOf(SPACES, s) }

  lemma StripPadded(spaces: string, digits: string, before: string, t: string, after: string)
    requires forall c | c in digits :: c !in spaces
    requires OnlyOf(spaces, before) && OnlyOf(spaces, after) && OnlyOf(digits, t)
    ensures Strip(spaces, digits, before + t + after) == Some(t)
  {
    hide Span;
    var text := before + t + after;
    if t != "" {
      assert text == before + (t + after);
      SpanOf(spaces, before, t + after);
      assert text[|before|..] == t + after;
      SpanOf(digits, t, after);
      assert (t + after)[|t|..] == after && (t + after)[..|t|] == t;
      SpanOf(spaces, after, "");
      assert after + "" == after;
    } else {
      SpanOf(spaces, text, "");
      assert text + "" == text;
      assert text[|text|..] == "";
      assert Span(digits, "") == 0 == Span(spaces, "");
    }
  }

  /** Decoding the text of a byte string, white space around it or not, gives it back. */
  lemma DecodeEncode(b: seq<nat>, before: string, after: string)
    requires DigitsOf(256, b) && Blank(before) && Blank(after)
    ensures Decode(before + Encode(b) + after) == Some(b)
  {
    hide Strip, Values, Digits58, CString, LeadingZeros, ToDigits, FromDigits;
    var d := Zeros(LeadingZeros(b)) + ToDigits(58, FromDigits(256, b));
    EncodeIsDigits(b);
    ValuesOfDigits(d);
    NoDigitIsSpace();
    var str := before + Encode(b) + after;
    assert forall c | c in SPACES :: c != '\0';
    CStringWhole(str);
    StripPadded(SPACES, ALPHABET, before, Encode(b), after);
    ChangeOfBase(b, 256, 58);
  }

  /** Whatever decodes is digits with spaces around them, and encoding the
      result gives those digits back. */
  lemma EncodeDecode(str: string)
    requires Decode(str).Some?
    ensures Core(str).Some? && Encode(Decode(str).value) == Core(str).value
  {
    hide Values, Digits58, CString, LeadingZeros, ToDigits, FromDigits;
    var t := Core(str).value;
    DigitsOfValues(t);
    ChangeOfBase(Values(t), 58, 256);
  }

  ghost predicate IsPadded(spaces: string, digits: string, c: string, before: string, t: string, after: string) {
    && c == before + t + after
    && OnlyOf(spaces, before) && OnlyOf(spaces, after) && OnlyOf(digits, t)
  }

  ghost predicate Padded(spaces: string, digits: string, c: string) {
    exists before, t, after :: IsPadded(spaces, digits, c, before, t, after)
  }

  /** A text decodes exactly if it is digits with white space around them. */
  lemma DecodesIffPadded(str: string)
    ensures Decode(str).Some? <==> Padded(SPACES, ALPHABET, CString(str))
  {
    hide Padded, Strip, Values, CString, Bytes;
    NoDigitIsSpace();
    StripIffPadded(SPACES, ALPHABET, CString(str));
  }

  lemma StripIffPadded(spaces: string, digits: string, c: string)
    requires forall d | d in digits :: d !in spaces
    ensures Strip(spaces, digits, c).Some? <==> Padded(spaces, digits, c)
  {
    if Strip(spaces, digits, c).Some? {
      StrippedIsPadded(spaces, digits, c);
    }
    if Padded(spaces, digits, c) {
      var before, t, after :| IsPadded(spaces, digits, c, before, t, after);
      StripPadded(spaces, digits, before, t, after);
    }
  }

  lemma SpanOnly(chars: string, s: string)
    ensures OnlyOf(chars, s[..Span(chars, s)])
    ensures s[..Span(chars, s)] + s[Span(chars, s)..] == s
    ensures Span(chars, s) == |s| ==> OnlyOf(chars, s)
  {
    hide Span;
  }

  lemma StrippedIsPadded(spaces: string, digits: string, c: string)
    requires Strip(spaces, digits, c).Some?
    ensures Padded(spaces, digits, c)
  {
    hide Span, OnlyOf;
    var k := Span(spaces, c);
    var rest := c[k..];
    var m := Span(digits, rest);
    SpanOnly(spaces, c);
    SpanOnly(digits, rest);
    SpanOnly(spaces, rest[m..]);
    var before, t, after := c[..k], rest[..m], rest[m..];
    assert before + t + after == before + rest == c;
    assert IsPadded(spaces, digits, c, before, t, after);
  }
}
