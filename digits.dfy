/**
 * Superscript and subscript numerals (src/lib/helpers.ts): a number is floored and
 * written one glyph per decimal digit, most significant first, by a loop that takes
 * the last digit off and prepends its glyph; a number below 1 gives the empty string.
 */
module Digits {

  /** The glyphs for 0..9 in superscript. */
  const SUPERSCRIPTS: string := ['⁰', '¹', '²', '³', '⁴', '⁵', '⁶', '⁷', '⁸', '⁹']

  /** The glyphs for 0..9 in subscript. */
  const SUBSCRIPTS: string := ['₀', '₁', '₂', '₃', '₄', '₅', '₆', '₇', '₈', '₉']

  /** A table of ten distinct glyphs, one per digit. */
  predicate GlyphTable(table: string) {
    |table| == 10 && forall i, j :: 0 <= i < j < 10 ==> table[i] != table[j]
  }

  /** The decimal digits of `n`, most significant first; none when `n <= 0`. */
  function DecimalDigits(n: int): (ds: seq<nat>)
    ensures forall k :: 0 <= k < |ds| ==> ds[k] < 10
    ensures n <= 0 <==> ds == []
  {
    if n <= 0 then [] else DecimalDigits(n / 10) + [n % 10]
  }

  /** The number a digit string denotes. */
  function Value(ds: seq<nat>): nat {
    if ds == [] then 0 else Value(ds[..|ds| - 1]) * 10 + ds[|ds| - 1]
  }

  /** 10^k. */
  function Pow10(k: nat): nat {
    if k == 0 then 1 else 10 * Pow10(k - 1)
  }

  /** The digits denote the number back, and there is no leading zero. */
  lemma {:induction false} DigitsRoundTrip(n: nat)
    ensures Value(DecimalDigits(n)) == n
    ensures 0 < n ==> DecimalDigits(n)[0] != 0
  {
    if 0 < n {
      DigitsRoundTrip(n / 10);
      var ds := DecimalDigits(n);
      assert ds[..|ds| - 1] == DecimalDigits(n / 10);
    }
  }

  /** A digit string with no leading zero is what `DecimalDigits` gives for its value. */
  lemma {:induction false} ValueRoundTrip(ds: seq<nat>)
    requires forall k :: 0 <= k < |ds| ==> ds[k] < 10
    requires ds != [] ==> ds[0] != 0
    ensures DecimalDigits(Value(ds)) == ds
  {
    if ds != [] {
      var init := ds[..|ds| - 1];
      ValueRoundTrip(init);
      ValuePositive(ds);
      assert Value(ds) / 10 == Value(init);
      assert Value(ds) % 10 == ds[|ds| - 1];
      assert ds == init + [ds[|ds| - 1]];
    }
  }

  /** A digit string that does not start with zero denotes a positive number. */
  lemma {:induction false} ValuePositive(ds: seq<nat>)
    requires ds != [] && ds[0] != 0
    ensures Value(ds) > 0
  {
    if |ds| > 1 {
      ValuePositive(ds[..|ds| - 1]);
    }
  }

  /** A positive number with k digits lies in [10^(k-1), 10^k). */
  lemma {:induction false} DigitCount(n: nat)
    requires 0 < n
    ensures Pow10(|DecimalDigits(n)| - 1) <= n < Pow10(|DecimalDigits(n)|)
  {
    if n >= 10 {
      DigitCount(n / 10);
    }
  }

  /** Glyph `ds[k]` of `table` for every digit, in order. */
  function Glyphs(table: string, ds: seq<nat>): (r: string)
    requires |table| == 10
    requires forall k :: 0 <= k < |ds| ==> ds[k] < 10
    ensures |r| == |ds|
    ensures forall k :: 0 <= k < |ds| ==> r[k] == table[ds[k]]
  {
    seq(|ds|, k requires 0 <= k < |ds| => table[ds[k]])
  }

  /** What the conversion of a number whose floor is `n` returns. */
  function Numeral(table: string, n: int): string
    requires |table| == 10
  {
    Glyphs(table, DecimalDigits(n))
  }

  /**
   * The shared loop of `numberToSuper` and `numberToSub`, with the glyph table as a
   * parameter; `n` is `Math.floor(num)`.
   */
  method ToNumeral(table: string, n: int) returns (result: string)
    requires |table| == 10
    ensures result == Numeral(table, n)
  {
    result := "";
    var num := n;
    while num > 0
      invariant Numeral(table, num) + result == Numeral(table, n)
      decreases num
    {
      var digit := num % 10;
      ghost var ds := DecimalDigits(num);
      assert ds == DecimalDigits(num / 10) + [digit];
      assert Glyphs(table, ds) == Glyphs(table, DecimalDigits(num / 10)) + [table[digit]];
      result := [table[digit]] + result;
      num := num / 10;
    }
  }

  /** `numberToSuper(num)`. */
  method NumberToSuper(num: real) returns (result: string)
    ensures result == Numeral(SUPERSCRIPTS, num.Floor)
  {
    result := ToNumeral(SUPERSCRIPTS, num.Floor);
  }

  /** `numberToSub(num)`. */
  method NumberToSub(num: real) returns (result: string)
    ensures result == Numeral(SUBSCRIPTS, num.Floor)
  {
    result := ToNumeral(SUBSCRIPTS, num.Floor);
  }

  /** Numbers below 1 give the empty string; otherwise one glyph per decimal digit. */
  lemma {:induction false} NumeralLength(table: string, n: int)
    requires |table| == 10
    ensures n <= 0 ==> Numeral(table, n) == []
    ensures 0 < n ==> Pow10(|Numeral(table, n)| - 1) <= n < Pow10(|Numeral(table, n)|)
  {
    if 0 < n {
      DigitCount(n);
    }
  }

  /** Superscript and subscript numerals of the same number have the same length. */
  lemma SameLength(num: real)
    ensures |Numeral(SUPERSCRIPTS, num.Floor)| == |Numeral(SUBSCRIPTS, num.Floor)|
  {
  }

  /** Reading the glyphs back through the table recovers the floored number. */
  lemma {:induction false} NumeralDecodes(table: string, n: nat, m: nat)
    requires GlyphTable(table)
    requires Numeral(table, n) == Numeral(table, m)
    ensures n == m
  {
    var a, b := DecimalDigits(n), DecimalDigits(m);
    assert |a| == |b|;
    forall k | 0 <= k < |a|
      ensures a[k] == b[k]
    {
      assert table[a[k]] == Numeral(table, n)[k] == table[b[k]];
    }
    assert a == b;
    DigitsRoundTrip(n);
    DigitsRoundTrip(m);
  }

  lemma TablesHaveTenGlyphs()
    ensures GlyphTable(SUPERSCRIPTS) && GlyphTable(SUBSCRIPTS)
  {
  }
}
