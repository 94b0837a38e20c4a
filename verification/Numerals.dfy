/** Numerals in a base up to sixteen, and fixed-width big-endian digit groups. */
module Numerals {

  predicate IsDigit(c: char) { '0' <= c <= '9' }

  predicate IsHexDigit(c: char) { IsDigit(c) || 'a' <= c <= 'f' || 'A' <= c <= 'F' }

  function DigitValue(c: char): (d: nat)
    requires IsHexDigit(c)
    ensures d < 16 && (IsDigit(c) ==> d < 10)
  {
    if IsDigit(c) then (c - '0') as nat
    else if 'a' <= c <= 'f' then 10 + (c - 'a') as nat
    else 10 + (c - 'A') as nat
  }

  function DigitChar(d: nat): (c: char)
    requires d < 16
    ensures IsHexDigit(c) && DigitValue(c) == d && !('A' <= c <= 'Z') && (IsDigit(c) <==> d < 10)
    ensures c == '0' <==> d == 0
  {
    if d < 10 then '0' + d as char else 'a' + (d - 10) as char
  }

  /** The digits in order: the value of each is its place, in either case. */
  lemma DigitsInOrder(c: char)
    requires IsHexDigit(c)
    ensures "0123456789abcdef"[DigitValue(c)] == c || "0123456789ABCDEF"[DigitValue(c)] == c
    ensures "0123456789abcdef"[DigitValue(c)] == DigitChar(DigitValue(c))
  {
  }

  predicate AllDigits(s: string) { forall i :: 0 <= i < |s| ==> IsDigit(s[i]) }

  predicate AllHex(s: string) { forall i :: 0 <= i < |s| ==> IsHexDigit(s[i]) }

  // ---------- Quotient, remainder and their inverse ----------

  function Quotient(n: nat, base: nat): (q: nat)
    requires base > 0
    ensures base >= 2 && n > 0 ==> q < n
    ensures n >= base <==> q > 0
  {
    n / base
  }

  function Remainder(n: nat, base: nat): (r: nat)
    requires base > 0
    ensures r < base
  {
    n % base
  }

  /** The number whose quotient is `q` and whose remainder is `r`. */
  function Extend(q: nat, r: nat, base: nat): nat { q * base + r }

  lemma MulLe(a: nat, b: nat, k: nat)
    requires a <= b
    ensures a * k <= b * k
  {
  }

  lemma DivideBack(q: nat, r: nat, base: nat)
    requires r < base
    ensures Quotient(Extend(q, r, base), base) == q && Remainder(Extend(q, r, base), base) == r
  {
    var x := Extend(q, r, base);
    ExtendBack(x, base);
    UniqueQuotient(q, r, Quotient(x, base), Remainder(x, base), base);
  }

  lemma UniqueQuotient(q: nat, r: nat, p: nat, m: nat, base: nat)
    requires r < base && m < base && Extend(q, r, base) == Extend(p, m, base)
    ensures q == p && r == m
  {
    if p < q {
      MulLe(p + 1, q, base);
    } else if q < p {
      MulLe(q + 1, p, base);
    }
  }

  lemma ExtendBack(n: nat, base: nat)
    requires base > 0
    ensures Extend(Quotient(n, base), Remainder(n, base), base) == n
  {
  }

  // ---------- Numerals ----------

  function Numeral(s: string, base: nat): (n: nat)
    requires AllHex(s)
  {
    if s == "" then 0 else Extend(Numeral(s[..|s| - 1], base), DigitValue(s[|s| - 1]), base)
  }

  /** The shortest numeral, in lower case. */
  function Print(n: nat, base: nat): (s: string)
    requires 2 <= base <= 16
    ensures |s| >= 1 && AllHex(s)
    ensures base <= 10 ==> AllDigits(s)
    ensures forall i :: 0 <= i < |s| ==> !('A' <= s[i] <= 'Z')
    ensures s[0] == '0' <==> n == 0
    ensures n == 0 ==> |s| == 1
  {
    if n < base then [DigitChar(n)] else Print(Quotient(n, base), base) + [DigitChar(Remainder(n, base))]
  }

  lemma {:induction false} NumeralOfPrint(n: nat, base: nat)
    requires 2 <= base <= 16
    ensures Numeral(Print(n, base), base) == n
  {
    hide Quotient, Remainder;
    var s := Print(n, base);
    if n < base {
      assert s[..0] == "";
      assert Extend(0, n, base) == n;
    } else {
      NumeralOfPrint(Quotient(n, base), base);
      assert s[..|s| - 1] == Print(Quotient(n, base), base);
      hide Extend;
      ExtendBack(n, base);
    }
  }

  /** Printing undoes reading for numerals in shortest form. */
  lemma {:induction false} PrintOfNumeral(s: string)
    requires s != "" && AllDigits(s) && (|s| > 1 ==> s[0] != '0')
    ensures Print(Numeral(s, 10), 10) == s
    ensures s[0] != '0' ==> Numeral(s, 10) > 0
  {
    hide Quotient, Remainder, Extend;
    var front, d := s[..|s| - 1], DigitValue(s[|s| - 1]);
    assert DigitChar(d) == s[|s| - 1];
    DivideBack(Numeral(front, 10), d, 10);
    ExtendTen(Numeral(front, 10), d);
    if |s| > 1 {
      PrintOfNumeral(front);
      assert s == front + [s[|s| - 1]];
    } else {
      assert Numeral(front, 10) == 0;
    }
  }

  lemma ExtendTen(q: nat, r: nat)
    ensures q > 0 ==> Extend(q, r, 10) >= 10
    ensures q == 0 ==> Extend(q, r, 10) == r
  {
  }

  lemma {:induction false} NumeralInRange(s: string, base: nat)
    requires AllHex(s) && |s| <= 4 && base == 16
    ensures Numeral(s, base) < 65536
    ensures |s| <= 3 ==> Numeral(s, base) < 4096
    ensures |s| <= 2 ==> Numeral(s, base) < 256
    ensures |s| <= 1 ==> Numeral(s, base) < 16
    ensures |s| == 0 ==> Numeral(s, base) == 0
  {
    if s != "" {
      NumeralInRange(s[..|s| - 1], base);
    }
  }

  lemma {:induction false} PrintLength(n: nat, base: nat, k: nat)
    requires 2 <= base <= 16 && k > 0
    ensures n < Pow(base, k) ==> |Print(n, base)| <= k
  {
    hide Quotient, Remainder;
    assert Pow(base, 0) == 1;
    if base <= n < Pow(base, k) {
      DivideInRange(n, base, k);
      if k == 1 {
        assert false;
      } else {
        PrintLength(Quotient(n, base), base, k - 1);
      }
    }
  }

  lemma PrintIsShort(n: nat)
    ensures n < 65536 ==> |Print(n, 16)| <= 4
    ensures n < 256 ==> |Print(n, 10)| <= 3
  {
    PrintLength(n, 16, 4);
    PrintLength(n, 10, 3);
    assert Pow(16, 4) == 65536 && Pow(10, 3) == 1000;
  }

  // ---------- Digit groups ----------

  /** Reads groups as the digits of one number, most significant first. */
  function Fold(groups: seq<nat>, base: nat): nat {
    if groups == [] then 0 else Extend(Fold(groups[..|groups| - 1], base), groups[|groups| - 1], base)
  }

  function Groups(value: nat, count: nat, base: nat): (groups: seq<nat>)
    requires base > 0
    ensures |groups| == count && forall i :: 0 <= i < count ==> groups[i] < base
  {
    if count == 0 then [] else Groups(Quotient(value, base), count - 1, base) + [Remainder(value, base)]
  }

  function Pow(base: nat, e: nat): nat {
    if e == 0 then 1 else base * Pow(base, e - 1)
  }

  lemma PowIsPositive(base: nat, e: nat)
    requires base > 0
    ensures Pow(base, e) > 0
  {
  }

  lemma {:induction false} GroupsOfFold(groups: seq<nat>, base: nat)
    requires base > 0 && forall i :: 0 <= i < |groups| ==> groups[i] < base
    ensures Groups(Fold(groups, base), |groups|, base) == groups
    ensures Fold(groups, base) < Pow(base, |groups|)
  {
    if groups != [] {
      hide Quotient, Remainder, Extend;
      var front, last := groups[..|groups| - 1], groups[|groups| - 1];
      GroupsOfFold(front, base);
      DivideBack(Fold(front, base), last, base);
      assert groups == front + [last];
      ExtendInRange(Fold(front, base), last, base, Pow(base, |front|));
    }
  }

  lemma ExtendInRange(q: nat, r: nat, base: nat, bound: nat)
    requires r < base && q < bound
    ensures Extend(q, r, base) < base * bound
  {
    MulLe(q + 1, bound, base);
  }

  lemma PowZero(base: nat)
    ensures Pow(base, 0) == 1
  {
  }

  lemma {:induction false} FoldOfGroups(value: nat, count: nat, base: nat)
    requires base > 0 && value < Pow(base, count)
    ensures Fold(Groups(value, count, base), base) == value
    decreases count
  {
    hide Quotient, Remainder, Extend, Pow;
    if count == 0 {
      assert Pow(base, 0) == 1 by { PowZero(base); }
    } else {
      var groups := Groups(value, count, base);
      assert groups[..count - 1] == Groups(Quotient(value, base), count - 1, base);
      DivideInRange(value, base, count);
      FoldOfGroups(Quotient(value, base), count - 1, base);
      ExtendBack(value, base);
    }
  }

  lemma DivideInRange(value: nat, base: nat, k: nat)
    requires base > 0 && k > 0 && value < Pow(base, k)
    ensures Quotient(value, base) < Pow(base, k - 1)
  {
    var bound := Pow(base, k - 1);
    if bound <= Quotient(value, base) {
      MulLe(bound, Quotient(value, base), base);
      ExtendBack(value, base);
    }
  }

  // ---------- Places ----------

  /** Groups in front count for a power of the base more with each group behind them. */
  lemma {:induction false} FoldOfSum(a: seq<nat>, b: seq<nat>, base: nat)
    ensures Fold(a + b, base) == Fold(a, base) * Pow(base, |b|) + Fold(b, base)
    decreases |b|
  {
    if b == [] {
      assert a + b == a;
    } else {
      var front, last := b[..|b| - 1], b[|b| - 1];
      FoldOfSum(a, front, base);
      assert (a + b)[..|a + b| - 1] == a + front;
      Shifted(Fold(a, base), Pow(base, |front|), Fold(front, base), last, base);
      hide Extend, Pow;
      assert Pow(base, |b|) == base * Pow(base, |front|) by { PowOneMore(base, |front|); }
    }
  }

  lemma PowOneMore(base: nat, e: nat)
    ensures Pow(base, e + 1) == base * Pow(base, e)
  {
  }

  lemma Shifted(x: nat, p: nat, y: nat, r: nat, base: nat)
    ensures Extend(x * p + y, r, base) == x * (base * p) + Extend(y, r, base)
  {
  }

  lemma {:induction false} FoldOfZeros(n: nat, base: nat)
    ensures Fold(seq(n, i => 0), base) == 0
  {
    if n > 0 {
      assert seq(n, i => 0)[..n - 1] == seq(n - 1, i => 0);
      FoldOfZeros(n - 1, base);
    }
  }
}
