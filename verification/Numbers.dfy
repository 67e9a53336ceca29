/**
  Number printing in student-distrib/lib.c and student-distrib/file_system.c: digits are
  written in place from the lowest upwards and the buffer is then reversed.
 */
module Numbers {
  import opened KernelBase

  const LOOKUP: string := "0123456789ABCDEFGHIJKLMNOPQRSTUVWXYZ"

  type Radix = r: nat | 2 <= r <= 36 witness 10

  function DigitChar(d: nat): (c: char)
    requires d < 36
    ensures c != NUL
  {
    LOOKUP[d]
  }

  /** The value of a digit character, or 36 for any other. */
  function DigitValue(c: char): (d: nat) {
    if '0' <= c <= '9' then (c as int) - ('0' as int)
    else if 'A' <= c <= 'Z' then (c as int) - ('A' as int) + 10
    else 36
  }

  lemma DigitRoundTrip(d: nat)
    requires d < 36
    ensures DigitValue(DigitChar(d)) == d
  {
  }

  // ---- quotient and remainder ----

  /** v / r and v % r by repeated subtraction, which keeps products of variables out of the proofs below. */
  function Quot(v: nat, r: Radix): (q: nat)
    ensures q <= v && (v > 0 ==> q < v) && (q == 0 <==> v < r)
  {
    if v < r then 0 else 1 + Quot(v - r, r)
  }

  function Rem(v: nat, r: Radix): (d: nat)
    ensures d < r && (v < r ==> d == v)
  {
    if v < r then v else Rem(v - r, r)
  }

  lemma {:induction false} QuotRem(v: nat, r: Radix)
    ensures v == Quot(v, r) * r + Rem(v, r)
  {
    if v >= r {
      QuotRem(v - r, r);
      MulPred(Quot(v, r), r);
    }
  }

  lemma {:induction false} QuotRemOf(q: nat, d: nat, r: Radix)
    requires d < r
    ensures Quot(q * r + d, r) == q && Rem(q * r + d, r) == d
  {
    if q > 0 {
      MulPred(q, r);
      QuotRemOf(q - 1, d, r);
    }
  }

  lemma MulPred(q: nat, r: nat)
    requires q > 0
    ensures q * r == (q - 1) * r + r && (q - 1) * r >= 0
  {
  }

  lemma QuotRemUnique(v: nat, q: nat, d: nat, r: Radix)
    requires v == q * r + d && d < r
    ensures Quot(v, r) == q && Rem(v, r) == d
  {
    QuotRemOf(q, d, r);
  }

  /** The machine's division by the radix. */
  method Divide(v: nat, r: Radix) returns (q: nat, d: nat)
    ensures q == Quot(v, r) && d == Rem(v, r)
  {
    q, d := v / r, v % r;
    QuotRemUnique(v, q, d, r);
  }

  // ---- numerals ----

  function Digits(v: nat, r: Radix): (s: string)
    ensures |s| > 0 && NUL !in s
  {
    if v < r then [DigitChar(v)] else Digits(Quot(v, r), r) + [DigitChar(Rem(v, r))]
  }

  predicate IsNumeral(s: string, r: Radix) {
    forall i :: 0 <= i < |s| ==> DigitValue(s[i]) < r
  }

  function Parse(s: string, r: Radix): (v: nat) {
    if s == [] then 0 else Parse(s[..|s| - 1], r) * r + DigitValue(s[|s| - 1])
  }

  /** The digits are the decimal ones and then the capital letters. */
  lemma DigitCharIs(d: nat)
    requires d < 36
    ensures DigitChar(d) as int == if d < 10 then '0' as int + d else 'A' as int + d - 10
  {
    assert |LOOKUP| == 36;
  }

  lemma {:induction false} ParseDigits(v: nat, r: Radix)
    ensures Parse(Digits(v, r), r) == v && IsNumeral(Digits(v, r), r)
    ensures v > 0 ==> Digits(v, r)[0] != '0'
    decreases v
  {
    if v < r {
      DigitRoundTrip(v);
      assert [DigitChar(v)][..0] == [];
    } else {
      var s := Digits(v, r);
      assert s[..|s| - 1] == Digits(Quot(v, r), r);
      DigitRoundTrip(Rem(v, r));
      QuotRem(v, r);
      ParseDigits(Quot(v, r), r);
    }
  }

  lemma DigitsSnoc(q: nat, d: nat, r: Radix, v: nat)
    requires q > 0 && d < r && v == q * r + d
    ensures Digits(v, r) == Digits(q, r) + [DigitChar(d)]
  {
    QuotRemOf(q, d, r);
    AtLeastRadix(q, r);
  }

  lemma OneDigit(c: char, r: Radix, s: string)
    requires DigitValue(c) < r && s == [c]
    ensures s == Digits(Parse(s, r), r)
  {
    CharRoundTrip(c);
    assert s[..0] == [] && Parse(s[..0], r) == 0 && Parse(s, r) == DigitValue(c);
  }

  /** A numeral without a leading zero is the one the value prints as. */
  lemma {:induction false} DigitsUnique(s: string, r: Radix)
    requires IsNumeral(s, r) && |s| > 0 && (s[0] == '0' ==> |s| == 1)
    ensures s == Digits(Parse(s, r), r)
  {
    var init, last := s[..|s| - 1], s[|s| - 1];
    CharRoundTrip(last);
    if |s| == 1 {
      OneDigit(last, r, s);
    } else {
      DigitsUnique(init, r);
      ParsePositive(init, r);
      DigitsSnoc(Parse(init, r), DigitValue(last), r, Parse(s, r));
    }
  }

  lemma CharRoundTrip(c: char)
    requires DigitValue(c) < 36
    ensures DigitChar(DigitValue(c)) == c
  {
  }

  lemma {:induction false} ParsePositive(s: string, r: Radix)
    requires |s| > 0 && s[0] != '0'
    ensures Parse(s, r) > 0
  {
    if |s| == 1 {
      assert s[..0] == [];
    } else {
      ParsePositive(s[..|s| - 1], r);
    }
  }

  lemma AtLeastRadix(q: nat, r: Radix)
    requires q > 0
    ensures q * r >= r
  {
  }

  // ---- printing in place ----

  function Reversed(s: string): (t: string)
    ensures |t| == |s|
  {
    seq(|s|, i requires 0 <= i < |s| => s[|s| - 1 - i])
  }

  /** `s` with the `len` characters from `at` on in reverse order. */
  function ReversedPart(s: string, at: nat, len: nat): (t: string)
    requires at + len <= |s|
    ensures |t| == |s|
    ensures forall k :: 0 <= k < |s| ==> t[k] == if at <= k < at + len then s[at + at + len - 1 - k] else s[k]
  {
    seq(|s|, k requires 0 <= k < |s| => if at <= k < at + len then s[at + at + len - 1 - k] else s[k])
  }

  lemma ReversedPartIs(s: string, at: nat, len: nat)
    requires at + len <= |s|
    ensures var t := ReversedPart(s, at, len);
            t[at..at + len] == Reversed(s[at..at + len]) && t[..at] == s[..at] && t[at + len..] == s[at + len..]
  {
    var t := ReversedPart(s, at, len);
    assert t[at..at + len] == Reversed(s[at..at + len]);
    assert t[..at] == s[..at];
    assert t[at + len..] == s[at + len..];
  }

  /** Swaps the characters from both ends inwards. */
  method ReverseInPlace(buf: array<char>, at: nat, len: nat)
    requires at + len <= buf.Length
    modifies buf
    ensures buf[..] == ReversedPart(old(buf[..]), at, len)
  {
    var beg, end := at, at + len;
    while beg + 1 < end
      invariant at <= beg && beg - at == at + len - end && beg <= end + 1
      invariant forall k :: 0 <= k < buf.Length ==>
                  buf[k] == if (at <= k < beg || end <= k < at + len) then old(buf[at + at + len - 1 - k]) else old(buf[k])
    {
      buf[beg], buf[end - 1] := buf[end - 1], buf[beg];
      beg, end := beg + 1, end - 1;
    }
    assert beg + 1 == end ==> at + at + len - 1 - beg == beg;
  }

  /** The digits of a positive number from the lowest upwards. */
  function LowDigits(v: nat, r: Radix): (s: string)
    ensures NUL !in s
  {
    if v == 0 then [] else [DigitChar(Rem(v, r))] + LowDigits(Quot(v, r), r)
  }

  lemma ReversedCons(c: char, s: string)
    ensures Reversed([c] + s) == Reversed(s) + [c]
  {
  }

  lemma {:induction false} LowDigitsReversed(v: nat, r: Radix)
    requires v > 0
    ensures Reversed(LowDigits(v, r)) == Digits(v, r)
    decreases v
  {
    ReversedCons(DigitChar(Rem(v, r)), LowDigits(Quot(v, r), r));
    if v < r {
      assert LowDigits(0, r) == [];
    } else {
      LowDigitsReversed(Quot(v, r), r);
    }
  }

  method WriteLowDigits(value: nat, buf: array<char>, at: nat, r: Radix) returns (len: nat)
    requires at + |LowDigits(value, r)| <= buf.Length
    modifies buf
    ensures len == |LowDigits(value, r)|
    ensures forall k :: 0 <= k < buf.Length ==>
              buf[k] == if at <= k < at + len then LowDigits(value, r)[k - at] else old(buf[k])
  {
    ghost var all := LowDigits(value, r);
    len := 0;
    var newval: nat := value;
    while newval > 0
      invariant len <= |all| && all[len..] == LowDigits(newval, r)
      invariant forall k :: 0 <= k < buf.Length ==> buf[k] == if at <= k < at + len then all[k - at] else old(buf[k])
      decreases newval
    {
      var q, d := Divide(newval, r);
      assert all[len..] == [DigitChar(d)] + LowDigits(q, r);
      assert all[len] == DigitChar(d) && all[len + 1..] == all[len..][1..];
      buf[at + len] := DigitChar(d);
      len := len + 1;
      newval := q;
    }
  }

  lemma ReversedLength(s: string)
    ensures |Reversed(s)| == |s|
  {
  }

  lemma PrintedReversed(before: string, at: nat, len: nat, low: string, after: string)
    requires at + len < |before| && before[at..at + len] == low && before[at + len] == NUL
    requires after == ReversedPart(before, at, len)
    ensures after[at..at + len] == Reversed(low) && after[at + len] == NUL && after[..at] == before[..at]
  {
    ReversedPartIs(before, at, len);
  }

  /** itoa into buf[at..]; the returned length is what strlen finds. */
  method Itoa(value: Word, buf: array<char>, at: nat, r: Radix) returns (len: nat)
    requires at + |Digits(value, r)| < buf.Length
    modifies buf
    ensures len == |Digits(value, r)| && buf[at..at + len] == Digits(value, r) && buf[at + len] == NUL
    ensures buf[..at] == old(buf[..at])
  {
    if value == 0 {
      buf[at], buf[at + 1] := '0', NUL;
      return 1;
    }
    ghost var low := LowDigits(value, r);
    LowDigitsReversed(value, r);
    ReversedLength(low);
    len := WriteLowDigits(value, buf, at, r);
    buf[at + len] := NUL;
    ghost var before := buf[..];
    assert before[at..at + len] == low && before[..at] == old(buf[..at]) && before[at + len] == NUL;
    ReverseInPlace(buf, at, len);
    PrintedReversed(before, at, len, low, buf[..]);
    assert buf[at..at + len] == buf[..][at..at + len] && buf[..at] == buf[..][..at] && buf[at + len] == buf[..][at + len];
  }

  // ---- eight hexadecimal digits ----

  function Pow16(e: nat): (p: nat) {
    if e == 0 then 1 else 16 * Pow16(e - 1)
  }

  lemma {:induction false} HexLength(v: nat, k: nat)
    requires k > 0 && v < Pow16(k)
    ensures |Digits(v, 16)| <= k
  {
    if v >= 16 {
      assert Pow16(1) == 16;
      QuotRem(v, 16);
      HexLength(Quot(v, 16), k - 1);
    }
  }

  lemma {:induction false} ParseZeros(zeros: string, s: string, r: Radix)
    requires forall i :: 0 <= i < |zeros| ==> zeros[i] == '0'
    ensures Parse(zeros + s, r) == Parse(s, r)
  {
    var t := zeros + s;
    if s != [] {
      assert t[..|t| - 1] == zeros + s[..|s| - 1];
      ParseZeros(zeros, s[..|s| - 1], r);
    } else if zeros != [] {
      assert t[..|t| - 1] == zeros[..|zeros| - 1] + s;
      ParseZeros(zeros[..|zeros| - 1], s, r);
    }
  }

  lemma HexDigitsFit(value: Word)
    ensures |Digits(value, 16)| <= 8
  {
    assert Pow16(2) == 256 && Pow16(4) == 256 * Pow16(2) && Pow16(6) == 256 * Pow16(4);
    assert Pow16(8) == 256 * Pow16(6) == 0x1_0000_0000;
    HexLength(value, 8);
  }

  /** puts: the characters from `at` up to the terminator. */
  method Puts(buf: array<char>, at: nat, ghost end: nat) returns (out: string)
    requires at <= end < buf.Length && buf[end] == NUL && NUL !in buf[at..end]
    ensures out == buf[at..end]
  {
    out := "";
    var i := at;
    while buf[i] != NUL
      invariant at <= i <= end && out == buf[at..i]
      decreases end - i
    {
      out := out + [buf[i]];
      i := i + 1;
    }
  }

  method FillZeros(buf: array<char>, start: nat, end: nat)
    requires start <= end <= buf.Length
    modifies buf
    ensures forall k :: 0 <= k < buf.Length ==> buf[k] == if start <= k < end then '0' else old(buf[k])
  {
    for i := start to end
      invariant forall k :: 0 <= k < buf.Length ==> buf[k] == if start <= k < i then '0' else old(buf[k])
    {
      buf[i] := '0';
    }
  }

  lemma ZeroPadded(value: nat, zeros: string, r: Radix)
    requires forall i :: 0 <= i < |zeros| ==> zeros[i] == '0'
    ensures var s := zeros + Digits(value, r); IsNumeral(s, r) && Parse(s, r) == value && NUL !in s
  {
    ParseDigits(value, r);
    ParseZeros(zeros, Digits(value, r), r);
  }

  /** The %#x case of printf. */
  method PrintHex8(value: Word) returns (out: string)
    ensures |out| == 8 && IsNumeral(out, 16) && Parse(out, 16) == value
  {
    HexDigitsFit(value);
    var buf := new char[64](_ => NUL);
    var start := Itoa(value, buf, 8, 16);
    ghost var digits := buf[8..8 + start];
    FillZeros(buf, start, 8);
    assert buf[start..8 + start] == buf[start..8] + digits;
    ZeroPadded(value, buf[start..8], 16);
    out := Puts(buf, start, 8 + start);
  }

  // ---- signed decimal ----

  function TruncDiv10(n: int): (q: int) {
    if n >= 0 then n / 10 else -((-n) / 10)
  }

  function TruncMod10(n: int): (d: int)
    ensures -10 < d < 10 && n == 10 * TruncDiv10(n) + d && (n > 0 ==> d >= 0) && (n < 0 ==> d <= 0)
  {
    n - 10 * TruncDiv10(n)
  }

  function DecLow(n: int): (s: string)
    decreases if n < 0 then -n else n
  {
    if n == 0 then [] else [(48 + TruncMod10(n)) as char] + DecLow(TruncDiv10(n))
  }

  /** What write_dec_to_char writes. */
  function DecText(n: int): (s: string) {
    if n == 0 then "0" else Reversed(DecLow(n))
  }

  lemma DecLowStep(n: int)
    requires n != 0
    ensures DecLow(n) == [(48 + TruncMod10(n)) as char] + DecLow(TruncDiv10(n))
    ensures if n > 0 then 0 <= TruncDiv10(n) < n else n < TruncDiv10(n) <= 0
  {
  }

  method WriteDecLow(n: int, buf: array<char>) returns (ret: nat)
    requires |DecLow(n)| <= buf.Length
    modifies buf
    ensures ret == |DecLow(n)| && buf[..ret] == DecLow(n) && buf[ret..] == old(buf[ret..])
  {
    ret := 0;
    var num := n;
    while num != 0
      invariant ret <= buf.Length && DecLow(n) == buf[..ret] + DecLow(num) && buf[ret..] == old(buf[..])[ret..]
      decreases if num < 0 then -num else num
    {
      DecLowStep(num);
      ghost var done := buf[..ret];
      var c, q := (48 + TruncMod10(num)) as char, TruncDiv10(num);
      buf[ret] := c;
      ret := ret + 1;
      assert buf[..ret] == done + [c];
      num := q;
    }
  }

  method WriteDecToChar(n: int, buf: array<char>) returns (ret: nat)
    requires |DecText(n)| <= buf.Length
    modifies buf
    ensures ret == |DecText(n)| && buf[..ret] == DecText(n) && buf[ret..] == old(buf[ret..])
  {
    if n == 0 {
      buf[0] := '0';
      return 1;
    }
    ret := WriteDecLow(n, buf);
    ReversedPartIs(buf[..], 0, ret);
    ReverseInPlace(buf, 0, ret);
    assert buf[0..ret] == buf[..ret];
  }

  lemma {:induction false} DecLowAgrees(n: nat)
    ensures DecLow(n) == LowDigits(n, 10)
  {
    if n > 0 {
      DecLowStep(n);
      QuotRemUnique(n, n / 10, n % 10, 10);
      DecLowAgrees(n / 10);
    }
  }

  lemma {:induction false} NegativeEndsBelowZero(n: int)
    requires n < 0
    ensures DecLow(n) != [] && DecLow(n)[|DecLow(n)| - 1] < '0'
    decreases -n
  {
    if TruncDiv10(n) != 0 { NegativeEndsBelowZero(TruncDiv10(n)); }
  }

  /** On non-negative numbers the text is the one itoa prints, and only then is it a decimal numeral at all. */
  /** A negative number comes out as its absolute value does, each digit mirrored below the character 0. */
  lemma {:induction false} DecLowMirrored(n: int, i: nat)
    requires n >= 0 && i < |DecLow(n)|
    ensures |DecLow(-n)| == |DecLow(n)| && DecLow(-n)[i] as int + DecLow(n)[i] as int == 96
    decreases n
  {
    DecLowStep(n);
    DecLowStep(-n);
    assert TruncDiv10(-n) == -TruncDiv10(n) && TruncMod10(-n) == -TruncMod10(n);
    if |DecLow(TruncDiv10(n))| > 0 {
      DecLowMirrored(TruncDiv10(n), if i > 0 then i - 1 else 0);
    } else {
      assert TruncDiv10(n) == 0;
    }
  }

  lemma DecTextIsDecimal(n: int)
    ensures n >= 0 ==> DecText(n) == Digits(n, 10)
    ensures IsNumeral(DecText(n), 10) <==> n >= 0
  {
    if n > 0 {
      DecLowAgrees(n);
      LowDigitsReversed(n, 10);
    }
    if n >= 0 { ParseDigits(n, 10); } else {
      NegativeEndsBelowZero(n);
      assert DigitValue(DecText(n)[0]) == 36;
    }
  }
}
