/** Progress extraction from the downloader's output lines: the leftmost
    match of the pattern `(\d+(?:\.\d+)?)%`, read as a number and divided
    by 100. Values are kept exact, as a decimal fraction. */
module Progress {
  import opened Wrappers
  import opened Text

  /** The exact number `mantissa / 10^scale`. */
  datatype Fraction = Fraction(mantissa: nat, scale: nat)

  function ToReal(f: Fraction): real
  {
    f.mantissa as real / Pow10(f.scale) as real
  }

  /** The captured group: digits, then optionally `.` and more digits. */
  datatype Numeral = Numeral(whole: string, frac: Option<string>)

  function FracDigits(n: Numeral): string
  {
    n.frac.GetOr("")
  }

  function NumeralText(n: Numeral): string
  {
    n.whole + (if n.frac.Some? then "." + n.frac.value else "")
  }

  predicate ValidNumeral(n: Numeral)
  {
    && n.whole != [] && AllDigits(n.whole)
    && (n.frac.Some? ==> n.frac.value != [] && AllDigits(n.frac.value))
  }

  /** The pattern matches `line` at position `i` with group `n`: the text of
      `n` starts at `i` and is followed by `%`. */
  ghost predicate Matches(line: string, i: nat, n: Numeral)
  {
    && ValidNumeral(n)
    && i + |NumeralText(n)| < |line|
    && line[i..i + |NumeralText(n)|] == NumeralText(n)
    && line[i + |NumeralText(n)|] == '%'
  }

  // ---------------------------------------------------------------------
  // Matching at one position

  /** Length of the maximal run of digits starting at `i`. */
  function DigitRun(s: string, i: nat): (k: nat)
    requires i <= |s|
    ensures i + k <= |s|
    ensures forall j :: i <= j < i + k ==> IsDigit(s[j])
    ensures i + k == |s| || !IsDigit(s[i + k])
    decreases |s| - i
  {
    if i < |s| && IsDigit(s[i]) then 1 + DigitRun(s, i + 1) else 0
  }

  /** A digit run that ends at a non-digit is the maximal one. */
  lemma DigitRunUnique(s: string, i: nat, k: nat)
    requires i + k <= |s|
    requires forall j :: i <= j < i + k ==> IsDigit(s[j])
    requires i + k == |s| || !IsDigit(s[i + k])
    ensures DigitRun(s, i) == k
  {
  }

  /** Character `k` of a text found at position `i`. */
  lemma CharAt(line: string, i: nat, t: string, k: nat)
    requires i + |t| <= |line| && line[i..i + |t|] == t && k < |t|
    ensures line[i + k] == t[k]
  {
    assert line[i..i + |t|][k] == t[k];
  }

  /** What the regex engine finds at position `i`: the greedy digit run,
      then `.` with digits if present, then `%`. Giving back digits never
      helps, since a digit is neither `.` nor `%`. */
  function MatchAt(line: string, i: nat): (r: Option<Numeral>)
    ensures r.Some? ==> Matches(line, i, r.value)
  {
    if i >= |line| then None
    else
      var w := DigitRun(line, i);
      var j := i + w;
      if w == 0 then None
      else if j + 1 < |line| && line[j] == '.' && IsDigit(line[j + 1]) then
        var k := j + 1 + DigitRun(line, j + 1);
        if k < |line| && line[k] == '%' then
          assert line[i..k] == line[i..j] + "." + line[j + 1..k];
          Some(Numeral(line[i..j], Some(line[j + 1..k])))
        else None
      else if j < |line| && line[j] == '%' then Some(Numeral(line[i..j], None))
      else None
  }

  /** In a match, the whole part is the maximal digit run and is
      followed by `.` or `%`. */
  lemma WholeRun(line: string, i: nat, n: Numeral)
    requires Matches(line, i, n)
    ensures i + |n.whole| < |line|
    ensures DigitRun(line, i) == |n.whole|
    ensures line[i..i + |n.whole|] == n.whole
    ensures line[i + |n.whole|] == if n.frac.Some? then '.' else '%'
  {
    var t := NumeralText(n);
    var w := |n.whole|;
    assert t[..w] == n.whole;
    assert line[i..i + w] == t[..w];
    forall j | i <= j < i + w ensures IsDigit(line[j]) {
      CharAt(line, i, t, j - i);
    }
    if n.frac.Some? {
      CharAt(line, i, t, w);
    }
    DigitRunUnique(line, i, w);
  }

  /** In a match with a fraction, the fraction digits are the maximal run
      after the point and are followed by `%`. */
  lemma FracRun(line: string, i: nat, n: Numeral)
    requires Matches(line, i, n) && n.frac.Some?
    ensures var j := i + |n.whole|;
      && j + 1 + |n.frac.value| < |line|
      && IsDigit(line[j + 1])
      && DigitRun(line, j + 1) == |n.frac.value|
      && line[j + 1..j + 1 + |n.frac.value|] == n.frac.value
      && line[j + 1 + |n.frac.value|] == '%'
  {
    var t := NumeralText(n);
    var f := n.frac.value;
    var w := |n.whole|;
    var j := i + w;
    forall m | 0 <= m < |f| ensures line[j + 1 + m] == f[m] {
      CharAt(line, i, t, w + 1 + m);
    }
    assert line[j + 1..j + 1 + |f|] == f;
    forall m | j + 1 <= m < j + 1 + |f| ensures IsDigit(line[m]) {
      assert line[m] == f[m - j - 1];
    }
    DigitRunUnique(line, j + 1, |f|);
  }

  lemma MatchAtComplete(line: string, i: nat, n: Numeral)
    requires Matches(line, i, n)
    ensures MatchAt(line, i) == Some(n)
  {
    WholeRun(line, i, n);
    if n.frac.Some? {
      FracRun(line, i, n);
    }
  }

  /** A match starts with a digit. */
  lemma MatchStartsDigit(line: string, j: nat, m: Numeral)
    ensures Matches(line, j, m) ==> j < |line| && IsDigit(line[j])
  {
    if Matches(line, j, m) {
      CharAt(line, j, NumeralText(m), 0);
    }
  }

  /** Where `MatchAt` finds nothing, the pattern does not match. */
  lemma NoMatchWhereMatchAtNone(line: string, i: nat)
    requires MatchAt(line, i).None?
    ensures forall n :: !Matches(line, i, n)
  {
    forall n | Matches(line, i, n) ensures false {
      MatchAtComplete(line, i, n);
    }
  }

  /** The group matched at a position is unique. */
  lemma MatchUnique(line: string, i: nat, n1: Numeral, n2: Numeral)
    requires Matches(line, i, n1) && Matches(line, i, n2)
    ensures n1 == n2
  {
    MatchAtComplete(line, i, n1);
    MatchAtComplete(line, i, n2);
  }

  // ---------------------------------------------------------------------
  // Leftmost search

  /** `re.search`: the first position at or after `from` where the pattern
      matches, with its group. */
  function Search(line: string, from: nat): (r: Option<(nat, Numeral)>)
    ensures r.Some? ==> from <= r.value.0 && Matches(line, r.value.0, r.value.1)
    ensures r.Some? ==> forall j, n :: from <= j < r.value.0 ==> !Matches(line, j, n)
    ensures r.None? ==> forall j, n :: from <= j ==> !Matches(line, j, n)
    decreases |line| - from
  {
    if from >= |line| then None
    else
      match MatchAt(line, from)
      case Some(n) => Some((from, n))
      case None =>
        NoMatchWhereMatchAtNone(line, from);
        Search(line, from + 1)
  }

  /** `float(group) / 100.0`, exactly: the digits without the point over
      `10^(fraction digits + 2)`. */
  function NumeralValue(n: Numeral): Fraction
    requires ValidNumeral(n)
  {
    AllDigitsConcat(n.whole, FracDigits(n));
    Fraction(DigitsValue(n.whole + FracDigits(n)), |FracDigits(n)| + 2)
  }

  /** The progress value a line reports, if any. */
  function ParseProgress(line: string): (p: Option<Fraction>)
    ensures p.None? <==> forall j, n :: !Matches(line, j, n)
  {
    match Search(line, 0)
    case None => None
    case Some((_, n)) => Some(NumeralValue(n))
  }

  // ---------------------------------------------------------------------
  // Properties

  /** A line reports progress exactly when the pattern matches somewhere,
      and then with the value of the leftmost match. */
  lemma ParseProgressLeftmost(line: string, i: nat, n: Numeral)
    requires Matches(line, i, n)
    requires forall j: nat, m :: j < i ==> !Matches(line, j, m)
    ensures ParseProgress(line) == Some(NumeralValue(n))
  {
    var r := Search(line, 0);
    MatchUnique(line, i, n, r.value.1);
  }

  /** The value read is the number the group denotes, divided by 100:
      whole part times `10^f` plus fraction digits, over `10^(f + 2)`. */
  lemma NumeralValueMeaning(n: Numeral)
    requires ValidNumeral(n)
    ensures NumeralValue(n).scale == |FracDigits(n)| + 2
    ensures NumeralValue(n).mantissa ==
      DigitsValue(n.whole) * Pow10(|FracDigits(n)|) + DigitsValue(FracDigits(n))
  {
    DigitsValueConcat(n.whole, FracDigits(n));
  }

  /** A whole number of percent `p` reads as `p / 100`. */
  lemma WholePercent(n: Numeral)
    requires ValidNumeral(n) && n.frac.None?
    ensures ToReal(NumeralValue(n)) == DigitsValue(n.whole) as real / 100.0
  {
    NumeralValueMeaning(n);
    assert Pow10(0) == 1;
    assert Pow10(2) == 100;
  }

  /** The text of a number followed by `%`, with nothing before it that
      could match, reports that number. */
  lemma PercentAfterPlainText(prefix: string, n: Numeral, suffix: string)
    requires ValidNumeral(n)
    requires forall j :: 0 <= j < |prefix| ==> !IsDigit(prefix[j])
    ensures ParseProgress(prefix + NumeralText(n) + "%" + suffix) == Some(NumeralValue(n))
  {
    var line := prefix + NumeralText(n) + "%" + suffix;
    var t := NumeralText(n);
    assert line[|prefix|..|prefix| + |t|] == t;
    assert line[|prefix| + |t|] == '%';
    assert Matches(line, |prefix|, n);
    forall j: nat, m | j < |prefix| ensures !Matches(line, j, m) {
      assert line[j] == prefix[j];
      MatchStartsDigit(line, j, m);
    }
    ParseProgressLeftmost(line, |prefix|, n);
  }

  // ---------------------------------------------------------------------
  // Examples
  //
  // The example lines are parameters fixed by a `requires` rather than
  // literals written into the call: applied to a literal, the recursive
  // definitions (`DigitRun`, `Search`) would be unfolded by the verifier
  // without bound.

  /** The group `37.2` is worth 372 / 1000, that is 37.2 / 100. */
  lemma ExampleValue()
    ensures NumeralValue(Numeral("37", Some("2"))) == Fraction(372, 3)
  {
    var n := Numeral("37", Some("2"));
    NumeralValueMeaning(n);
    assert DigitsValue("37") == 37 by {
      assert "37"[..1] == "3";
      assert DigitsValue("3") == 3 by { assert "3"[..0] == ""; }
    }
    assert DigitsValue("2") == 2 by { assert "2"[..0] == ""; }
  }

  /** `[download]  37.2% of 10.00MiB` reports 0.372. */
  lemma ExampleDownloadLine(line: string)
    requires line == "[download]  37.2% of 10.00MiB"
    ensures ParseProgress(line) == Some(Fraction(372, 3))
  {
    var n := Numeral("37", Some("2"));
    assert NumeralText(n) == "37.2";
    assert line == "[download]  " + NumeralText(n) + "%" + " of 10.00MiB";
    PercentAfterPlainText("[download]  ", n, " of 10.00MiB");
    ExampleValue();
  }

  /** A whole number of percent is worth its digits over 100. */
  lemma WholeValue(n: Numeral)
    requires ValidNumeral(n) && n.frac.None?
    ensures NumeralValue(n) == Fraction(DigitsValue(n.whole), 2)
  {
    NumeralValueMeaning(n);
  }

  /** Three digits `abc` are worth `100a + 10b + c`. */
  lemma ThreeDigits(a: char, b: char, c: char)
    requires IsDigit(a) && IsDigit(b) && IsDigit(c)
    ensures DigitsValue([a, b, c]) == DigitValue(a) * 100 + DigitValue(b) * 10 + DigitValue(c)
  {
    assert [a, b, c][..2] == [a, b];
    assert [a, b][..1] == [a];
    assert [a][..0] == [];
    assert DigitsValue([a]) == DigitValue(a);
    assert DigitsValue([a, b]) == DigitValue(a) * 10 + DigitValue(b);
  }

  /** `100% done` reports exactly 1. */
  lemma ExampleComplete(line: string)
    requires line == "100% done"
    ensures ParseProgress(line) == Some(Fraction(100, 2))
    ensures ToReal(Fraction(100, 2)) == 1.0
  {
    assert Pow10(2) == 100;
    var n := Numeral("100", None);
    assert NumeralValue(n) == Fraction(100, 2) by {
      WholeValue(n);
      ThreeDigits('1', '0', '0');
    }
    assert NumeralText(n) == "100";
    assert line == "" + "100" + "%" + " done";
    PercentAfterPlainText("", n, " done");
  }

  /** `250%` reports 2.5: values above 100 percent are passed on unchanged. */
  lemma ExampleOverHundred(line: string)
    requires line == "250%"
    ensures ParseProgress(line) == Some(Fraction(250, 2))
    ensures ToReal(Fraction(250, 2)) == 2.5
  {
    var n := Numeral("250", None);
    assert NumeralText(n) == "250";
    assert line == "" + "250" + "%" + "";
    PercentAfterPlainText("", n, "");
    WholeValue(n);
    ThreeDigits('2', '5', '0');
    assert Pow10(2) == 100;
  }

  /** A line without `%` reports no progress. */
  lemma NoPercentNoProgress(line: string)
    requires forall k :: 0 <= k < |line| ==> line[k] != '%'
    ensures ParseProgress(line).None?
  {
  }

  /** The number `d.f` with a single digit on each side is worth `df / 1000`. */
  lemma OneDigitEachSide(d: char, f: char)
    requires IsDigit(d) && IsDigit(f)
    ensures NumeralValue(Numeral([d], Some([f]))) == Fraction(DigitValue(d) * 10 + DigitValue(f), 3)
  {
    var n := Numeral([d], Some([f]));
    NumeralValueMeaning(n);
    assert [d][..0] == [] && [f][..0] == [];
  }

  /** In `v1.5.3%` the digits `1.5` are not followed by `%`, and nothing
      else before position 3 can start a match. */
  lemma BacktrackNoEarlier(line: string)
    requires line == "v1.5.3%"
    ensures forall j: nat, m :: j < 3 ==> !Matches(line, j, m)
  {
    DigitRunUnique(line, 1, 1);
    DigitRunUnique(line, 3, 1);
    assert MatchAt(line, 1).None?;
    NoMatchWhereMatchAtNone(line, 1);
    forall j: nat, m | j < 3 ensures !Matches(line, j, m) {
      MatchStartsDigit(line, j, m);
    }
  }

  /** In `v1.5.3%` the search moves past `1.5` and reports the later `5.3`. */
  lemma ExampleBacktrack(line: string)
    requires line == "v1.5.3%"
    ensures ParseProgress(line) == Some(Fraction(53, 3))
  {
    var n := Numeral("5", Some("3"));
    assert line[3..6] == NumeralText(n);
    BacktrackNoEarlier(line);
    ParseProgressLeftmost(line, 3, n);
    OneDigitEachSide('5', '3');
  }
}
