/**
 * Display formatting of numbers and categories: the compact number format
 * of the statistics and project cards, and the category badge that shows
 * only the last segment of a `/`-separated category path.
 */
module Format {

  const Thousand: int := 1000
  const Million: int := 1000000

  predicate IsDigit(c: char) { '0' <= c <= '9' }

  predicate AllDigits(s: string) { forall i :: 0 <= i < |s| ==> IsDigit(s[i]) }

  function DigitChar(d: nat): (c: char)
    requires d < 10
    ensures IsDigit(c)
  {
    ('0' as int + d) as char
  }

  /** The decimal text of a non-negative integer, as `String(n)` writes it. */
  function Decimal(n: nat): (r: string)
    ensures |r| >= 1 && AllDigits(r)
    decreases n
  {
    if n < 10 then [DigitChar(n)] else Decimal(n / 10) + [DigitChar(n % 10)]
  }

  /** The value of a string of decimal digits. */
  function DigitsValue(s: string): nat
    requires AllDigits(s)
    decreases |s|
  {
    if s == [] then 0
    else DigitsValue(s[..|s| - 1]) * 10 + (s[|s| - 1] as int - '0' as int)
  }

  /**
   * `Decimal` is read back by `DigitsValue`, has no leading zero, and has at
   * most three digits below one thousand.
   */
  lemma {:induction false} DecimalRoundTrip(n: nat)
    ensures DigitsValue(Decimal(n)) == n
    ensures n > 0 ==> Decimal(n)[0] != '0'
    ensures n < 1000 ==> |Decimal(n)| <= 3
    decreases n
  {
    var r := Decimal(n);
    if n >= 10 {
      DecimalRoundTrip(n / 10);
      assert r[..|r| - 1] == Decimal(n / 10);
    }
  }

  /**
   * `formatNumber`. The text of the million band comes from `toFixed(1)`
   * and the text below one thousand from `toLocaleString()`; both are
   * floating-point and locale services outside this model, so the texts
   * they produce are parameters.
   */
  function FormatNumber(n: int, fixedOneDecimal: string, localized: string): string
  {
    if n >= Million then fixedOneDecimal + "M"
    else if n >= Thousand then Decimal(n / Thousand) + "K"
    else localized
  }

  /**
   * The bands of `FormatNumber`, tested in order: at least a million ends in
   * "M"; from a thousand up to a million the number of thousands is
   * truncated, written with one to three digits and no leading zero, then
   * "K"; below a thousand the localized text is returned unchanged.
   */
  lemma FormatNumberBands(n: int, fixedOneDecimal: string, localized: string)
    ensures var r := FormatNumber(n, fixedOneDecimal, localized);
      && (n >= Million ==> r == fixedOneDecimal + "M")
      && (Thousand <= n < Million ==>
            && 2 <= |r| <= 4 && r[|r| - 1] == 'K' && r[0] != '0'
            && AllDigits(r[..|r| - 1])
            && DigitsValue(r[..|r| - 1]) * Thousand <= n < (DigitsValue(r[..|r| - 1]) + 1) * Thousand)
      && (n < Thousand ==> r == localized)
  {
    var r := FormatNumber(n, fixedOneDecimal, localized);
    if Thousand <= n < Million {
      DecimalRoundTrip(n / Thousand);
      assert r[..|r| - 1] == Decimal(n / Thousand);
    }
  }

  /** The thousands band truncates: 1500 is shown as "1K", 999999 as "999K". */
  lemma FormatNumberTruncates(f: string, l: string)
    ensures FormatNumber(1500, f, l) == "1K"
    ensures FormatNumber(1000, f, l) == "1K"
    ensures FormatNumber(999999, f, l) == "999K"
    ensures FormatNumber(999, f, l) == l
  {
    assert Decimal(999) == Decimal(99) + ['9'];
    assert Decimal(99) == Decimal(9) + ['9'];
  }

  /**
   * `category.split('/').pop()`: the text after the last '/', or the whole
   * string when it has none.
   */
  function LastSegment(s: string): (r: string)
    ensures |r| <= |s| && s[|s| - |r|..] == r
    ensures '/' !in r
    ensures |r| == |s| || s[|s| - |r| - 1] == '/'
    decreases |s|
  {
    if s == [] then []
    else if s[|s| - 1] == '/' then []
    else LastSegment(s[..|s| - 1]) + [s[|s| - 1]]
  }

  /** Text without '/' appended to a category stays in its last segment. */
  lemma {:induction false} LastSegmentAppend(s: string, t: string)
    requires '/' !in t
    ensures LastSegment(s + t) == LastSegment(s) + t
    decreases |t|
  {
    if t != [] {
      var u := t[..|t| - 1];
      assert s + t == (s + u) + [t[|t| - 1]];
      assert (s + t)[..|s + t| - 1] == s + u;
      LastSegmentAppend(s, u);
    } else {
      assert s + t == s;
    }
  }

  /**
   * The badge of `parent/leaf` is `leaf` whatever the parent path, and a
   * category without '/' is its own badge: filtering compares full paths
   * while the badge shows only the leaf.
   */
  lemma LastSegmentOfPath(parent: string, leaf: string)
    requires '/' !in leaf
    ensures LastSegment(parent + "/" + leaf) == leaf
    ensures LastSegment(leaf) == leaf
  {
    LastSegmentAppend(parent + "/", leaf);
    LastSegmentAppend([], leaf);
    assert [] + leaf == leaf;
  }
}
