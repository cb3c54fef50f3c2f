/** The pieces of Python's `str` behaviour the downloader relies on:
    whitespace, `strip()`, `split()`, `sep.join(...)`, decimal digits,
    `str(int)` and the ASCII part of `lower()`. */
module Text {

  /** Whitespace as Python's `str.isspace()` defines it. `str.strip()`,
      `str.split()` and the regular-expression class `\s` all use this set. */
  predicate IsSpace(c: char)
  {
    || c == ' '
    || ('\t' <= c <= '\r')
    || ('\U{1C}' <= c <= '\U{1F}')
    || c == '\U{85}'
    || c == '\U{A0}'
    || c == '\U{1680}'
    || ('\U{2000}' <= c <= '\U{200A}')
    || c == '\U{2028}'
    || c == '\U{2029}'
    || c == '\U{202F}'
    || c == '\U{205F}'
    || c == '\U{3000}'
  }

  predicate AllSpace(s: string)
  {
    forall i :: 0 <= i < |s| ==> IsSpace(s[i])
  }

  /** Neither end of `s` is whitespace. */
  predicate IsTrimmed(s: string)
  {
    s == [] || (!IsSpace(s[0]) && !IsSpace(s[|s| - 1]))
  }

  // ---------------------------------------------------------------------
  // Whitespace runs and stripping

  /** Length of the whitespace run of `s` that starts at `i`. */
  function SpaceRun(s: string, i: nat): (k: nat)
    requires i <= |s|
    ensures i + k <= |s|
    ensures forall j :: i <= j < i + k ==> IsSpace(s[j])
    ensures i + k < |s| ==> !IsSpace(s[i + k])
    decreases |s| - i
  {
    if i < |s| && IsSpace(s[i]) then 1 + SpaceRun(s, i + 1) else 0
  }

  /** `SpaceRun` is determined by its contract. */
  lemma SpaceRunUnique(s: string, i: nat, k: nat)
    requires i + k <= |s|
    requires forall j :: i <= j < i + k ==> IsSpace(s[j])
    requires i + k < |s| ==> !IsSpace(s[i + k])
    ensures SpaceRun(s, i) == k
  {
  }

  /** Where the whitespace run that ends at `e` starts. */
  function SpaceStart(s: string, e: nat): (k: nat)
    requires e <= |s|
    ensures k <= e
    ensures forall j :: k <= j < e ==> IsSpace(s[j])
    ensures k > 0 ==> !IsSpace(s[k - 1])
  {
    if e > 0 && IsSpace(s[e - 1]) then SpaceStart(s, e - 1) else e
  }

  /** `SpaceStart` is determined by its contract. */
  lemma SpaceStartUnique(s: string, e: nat, k: nat)
    requires k <= e <= |s|
    requires forall j :: k <= j < e ==> IsSpace(s[j])
    requires k > 0 ==> !IsSpace(s[k - 1])
    ensures SpaceStart(s, e) == k
  {
  }

  /** Number of leading whitespace characters of `s`. */
  function LeadLen(s: string): nat
  {
    SpaceRun(s, 0)
  }

  /** `s.lstrip()`. */
  function TrimLeft(s: string): string
  {
    s[LeadLen(s)..]
  }

  /** `s.rstrip()`. */
  function TrimRight(s: string): string
  {
    s[..SpaceStart(s, |s|)]
  }

  /** `s.strip()`: what lies between the leading and the trailing whitespace. */
  function Strip(s: string): (r: string)
    ensures IsTrimmed(r)
    ensures LeadLen(s) + |r| <= |s| && r == s[LeadLen(s)..LeadLen(s) + |r|]
    ensures forall j :: 0 <= j < LeadLen(s) ==> IsSpace(s[j])
    ensures forall j :: LeadLen(s) + |r| <= j < |s| ==> IsSpace(s[j])
  {
    var k := LeadLen(s);
    if k == |s| then []
    else
      var e := SpaceStart(s, |s|);
      assert k < e by {
        assert !IsSpace(s[k]);
      }
      s[k..e]
  }

  /** `s` is its leading whitespace, its stripped text and its trailing whitespace. */
  lemma StripParts(s: string)
    ensures var k, m := LeadLen(s), Strip(s);
      && s == s[..k] + m + s[k + |m|..]
      && AllSpace(s[..k]) && AllSpace(s[k + |m|..])
  {
    var k, m := LeadLen(s), Strip(s);
    var a, b := s[..k], s[k + |m|..];
    assert s == a + s[k..k + |m|] + b;
    forall j | 0 <= j < |a| ensures IsSpace(a[j]) {
      assert a[j] == s[j];
    }
    forall j | 0 <= j < |b| ensures IsSpace(b[j]) {
      assert b[j] == s[k + |m| + j];
    }
  }

  /** Whatever lies between leading and trailing whitespace is what `strip()` keeps. */
  lemma StripUnique(a: string, m: string, b: string)
    requires AllSpace(a) && AllSpace(b) && IsTrimmed(m)
    ensures Strip(a + m + b) == m
  {
    var s := a + m + b;
    assert forall j :: 0 <= j < |a| ==> s[j] == a[j];
    assert forall j :: 0 <= j < |m| ==> s[|a| + j] == m[j];
    assert forall j :: 0 <= j < |b| ==> s[|a| + |m| + j] == b[j];
    if m == [] {
      SpaceRunUnique(s, 0, |s|);
    } else {
      SpaceRunUnique(s, 0, |a|);
      SpaceStartUnique(s, |s|, |a| + |m|);
      assert s[|a|..|a| + |m|] == m;
    }
  }

  lemma AllSpaceConcat(a: string, b: string)
    requires AllSpace(a) && AllSpace(b)
    ensures AllSpace(a + b)
  {
    forall i | 0 <= i < |a + b| ensures IsSpace((a + b)[i]) {
      if i < |a| { assert (a + b)[i] == a[i]; } else { assert (a + b)[i] == b[i - |a|]; }
    }
  }

  /** Concatenation is associative. */
  lemma AppendAssoc<T>(a: seq<T>, b: seq<T>, c: seq<T>)
    ensures (a + b) + c == a + (b + c)
  {
  }

  lemma Regroup5(a: string, p: string, m: string, q: string, b: string)
    ensures a + (p + m + q) + b == (a + p) + m + (q + b)
  {
  }

  /** Whitespace added on either side does not change what `strip()` keeps. */
  lemma StripPadded(a: string, x: string, b: string)
    requires AllSpace(a) && AllSpace(b)
    ensures Strip(a + x + b) == Strip(x)
  {
    var k, m := LeadLen(x), Strip(x);
    var pre, post := x[..k], x[k + |m|..];
    StripParts(x);
    Regroup5(a, pre, m, post, b);
    AllSpaceConcat(a, pre);
    AllSpaceConcat(post, b);
    StripUnique(a + pre, m, post + b);
  }

  /** `strip()` yields the empty string exactly for all-whitespace input. */
  lemma StripEmptyIffSpace(s: string)
    ensures Strip(s) == [] <==> AllSpace(s)
  {
    if AllSpace(s) {
      SpaceRunUnique(s, 0, |s|);
    }
  }

  // ---------------------------------------------------------------------
  // Words

  /** A run of characters none of which is whitespace. */
  predicate IsWord(w: string)
  {
    |w| > 0 && forall i :: 0 <= i < |w| ==> !IsSpace(w[i])
  }

  /** Length of the whitespace-free run of `s` that starts at `i`. */
  function WordRun(s: string, i: nat): (k: nat)
    requires i <= |s|
    ensures i + k <= |s|
    ensures forall j :: i <= j < i + k ==> !IsSpace(s[j])
    ensures i + k < |s| ==> IsSpace(s[i + k])
    decreases |s| - i
  {
    if i < |s| && !IsSpace(s[i]) then 1 + WordRun(s, i + 1) else 0
  }

  /** `WordRun` is determined by its contract. */
  lemma WordRunUnique(s: string, i: nat, k: nat)
    requires i + k <= |s|
    requires forall j :: i <= j < i + k ==> !IsSpace(s[j])
    requires i + k < |s| ==> IsSpace(s[i + k])
    ensures WordRun(s, i) == k
  {
  }

  /** The words of `s` from position `i` on: whitespace is skipped one
      character at a time, and a word is the run up to the next whitespace. */
  function WordsFrom(s: string, i: nat): seq<string>
    requires i <= |s|
    decreases |s| - i
  {
    if i == |s| then []
    else if IsSpace(s[i]) then WordsFrom(s, i + 1)
    else
      var e := i + WordRun(s, i);
      [s[i..e]] + WordsFrom(s, e)
  }

  /** `s.split()` with no separator: the maximal whitespace-free runs, in order. */
  function Words(s: string): seq<string>
  {
    WordsFrom(s, 0)
  }

  /** `sep.join(parts)`. */
  function Join(parts: seq<string>, sep: string): string
  {
    if |parts| == 0 then ""
    else if |parts| == 1 then parts[0]
    else parts[0] + sep + Join(parts[1..], sep)
  }

  /** Where part `k` starts in `Join(parts, sep)` when the separator has length `sepLen`. */
  function JoinOffset(parts: seq<string>, sepLen: nat, k: nat): nat
    requires k <= |parts|
  {
    if k == 0 then 0 else |parts[0]| + sepLen + JoinOffset(parts[1..], sepLen, k - 1)
  }

  /**
   * `part` occupies `j` from offset `o`; unless it is the `last` part, a
   * separator follows it, and if it is, it ends `j`.
   */
  predicate PartAt(j: string, sep: string, o: nat, part: string, last: bool)
  {
    && o + |part| <= |j|
    && j[o..o + |part|] == part
    && (!last ==> o + |part| + |sep| <= |j| && j[o + |part|..o + |part| + |sep|] == sep)
    && (last ==> o + |part| == |j|)
  }

  /**
   * Layout of a join, whatever the parts contain: part `k` sits at its
   * offset, a separator follows every part but the last, and the last ends
   * the text.
   */
  lemma {:induction false} JoinLayout(parts: seq<string>, sep: string, k: nat)
    requires k < |parts|
    ensures PartAt(Join(parts, sep), sep, JoinOffset(parts, |sep|, k), parts[k], k + 1 == |parts|)
    decreases k
  {
    if |parts| > 1 {
      var rest := Join(parts[1..], sep);
      assert Join(parts, sep) == (parts[0] + sep) + rest;
      if k == 0 {
        PartAtFront(parts[0], sep, rest);
      } else {
        JoinLayout(parts[1..], sep, k - 1);
        assert parts[1..][k - 1] == parts[k];
        PartAtShift(parts[0] + sep, rest, sep, JoinOffset(parts[1..], |sep|, k - 1), parts[k], k + 1 == |parts|);
      }
    }
  }

  /** The first of several parts sits at the front, followed by the separator. */
  lemma PartAtFront(a: string, sep: string, rest: string)
    ensures PartAt((a + sep) + rest, sep, 0, a, false)
  {
    var j := (a + sep) + rest;
    assert j[..|a|] == a;
    assert j[|a|..|a| + |sep|] == sep;
  }

  /** A part found in `rest` is found, shifted, in `head + rest`. */
  lemma PartAtShift(head: string, rest: string, sep: string, o: nat, part: string, last: bool)
    requires PartAt(rest, sep, o, part, last)
    ensures PartAt(head + rest, sep, |head| + o, part, last)
  {
    SliceOfConcat(head, rest, o, o + |part|);
    if !last {
      SliceOfConcat(head, rest, o + |part|, o + |part| + |sep|);
    }
  }

  /** Every element of `WordsFrom` is a word. */
  lemma {:induction false} WordsFromAreWords(s: string, i: nat)
    requires i <= |s|
    ensures forall w :: 0 <= w < |WordsFrom(s, i)| ==> IsWord(WordsFrom(s, i)[w])
    decreases |s| - i
  {
    if i < |s| {
      if IsSpace(s[i]) {
        WordsFromAreWords(s, i + 1);
      } else {
        var e := i + WordRun(s, i);
        assert forall j :: 0 <= j < e - i ==> s[i..e][j] == s[i + j];
        WordsFromAreWords(s, e);
      }
    }
  }

  lemma WordsAreWords(s: string)
    ensures forall w :: 0 <= w < |Words(s)| ==> IsWord(Words(s)[w])
  {
    WordsFromAreWords(s, 0);
  }

  /** Whitespace at the current position is skipped. */
  lemma {:induction false} WordsFromSpace(s: string, i: nat, j: nat)
    requires i <= j <= |s|
    requires forall k :: i <= k < j ==> IsSpace(s[k])
    ensures WordsFrom(s, i) == WordsFrom(s, j)
    decreases j - i
  {
    if i < j {
      WordsFromSpace(s, i + 1, j);
    }
  }

  /** One step of `WordsFrom` at a word start. */
  lemma WordsFromWord(s: string, i: nat, e: nat)
    requires i < |s| && !IsSpace(s[i]) && e == i + WordRun(s, i)
    ensures WordsFrom(s, i) == [s[i..e]] + WordsFrom(s, e)
  {
  }

  /** A slice of the second part of a concatenation. */
  lemma SliceOfConcat(p: string, s: string, i: nat, e: nat)
    requires i <= e <= |s|
    ensures (p + s)[|p| + i..|p| + e] == s[i..e]
  {
    assert (p + s)[|p|..] == s;
  }

  /** The word run at `|p| + i` in `p + s` is the word run at `i` in `s`. */
  lemma WordRunShift(p: string, s: string, i: nat)
    requires i < |s|
    ensures WordRun(p + s, |p| + i) == WordRun(s, i)
  {
    var ps := p + s;
    var e := i + WordRun(s, i);
    forall j | |p| + i <= j < |p| + e ensures !IsSpace(ps[j]) {
      assert ps[j] == s[j - |p|];
    }
    if e < |s| {
      assert ps[|p| + e] == s[e];
    }
    WordRunUnique(ps, |p| + i, e - i);
  }

  /** The words of a suffix do not depend on what precedes it. */
  lemma {:induction false} WordsFromShift(p: string, s: string, i: nat)
    requires i <= |s|
    ensures WordsFrom(p + s, |p| + i) == WordsFrom(s, i)
    decreases |s| - i, 1
  {
    if i < |s| {
      if IsSpace(s[i]) {
        WordsFromShiftSpace(p, s, i);
      } else {
        WordsFromShiftWord(p, s, i);
      }
    }
  }

  lemma {:induction false} WordsFromShiftSpace(p: string, s: string, i: nat)
    requires i < |s| && IsSpace(s[i])
    ensures WordsFrom(p + s, |p| + i) == WordsFrom(s, i)
    decreases |s| - i, 0
  {
    assert (p + s)[|p| + i] == s[i];
    WordsFromShift(p, s, i + 1);
  }

  lemma {:induction false} WordsFromShiftWord(p: string, s: string, i: nat)
    requires i < |s| && !IsSpace(s[i])
    ensures WordsFrom(p + s, |p| + i) == WordsFrom(s, i)
    decreases |s| - i, 0
  {
    var ps := p + s;
    assert ps[|p| + i] == s[i];
    var e := i + WordRun(s, i);
    WordRunShift(p, s, i);
    SliceOfConcat(p, s, i, e);
    WordsFromShift(p, s, e);
    calc {
      WordsFrom(ps, |p| + i);
      { WordsFromWord(ps, |p| + i, |p| + e); }
      [ps[|p| + i..|p| + e]] + WordsFrom(ps, |p| + e);
      [s[i..e]] + WordsFrom(s, e);
      { WordsFromWord(s, i, e); }
      WordsFrom(s, i);
    }
  }

  /** Whitespace appended after position `i` adds no words. */
  lemma {:induction false} WordsFromTrailingSpace(s: string, b: string, i: nat)
    requires AllSpace(b) && i <= |s|
    ensures WordsFrom(s + b, i) == WordsFrom(s, i)
    decreases |s| - i, 1
  {
    if i == |s| {
      var sb := s + b;
      assert forall j :: |s| <= j < |sb| ==> sb[j] == b[j - |s|];
      WordsFromSpace(sb, i, |sb|);
    } else if IsSpace(s[i]) {
      TrailingSpaceAtSpace(s, b, i);
    } else {
      TrailingSpaceAtWord(s, b, i);
    }
  }

  lemma {:induction false} TrailingSpaceAtSpace(s: string, b: string, i: nat)
    requires AllSpace(b) && i < |s| && IsSpace(s[i])
    ensures WordsFrom(s + b, i) == WordsFrom(s, i)
    decreases |s| - i, 0
  {
    assert (s + b)[i] == s[i];
    WordsFromTrailingSpace(s, b, i + 1);
  }

  /** The word run at `i < |s|` is not extended by appended whitespace. */
  lemma WordRunTrailingSpace(s: string, b: string, i: nat)
    requires AllSpace(b) && i < |s|
    ensures WordRun(s + b, i) == WordRun(s, i)
  {
    var sb := s + b;
    var e := i + WordRun(s, i);
    forall j | i <= j < e ensures !IsSpace(sb[j]) {
      assert sb[j] == s[j];
    }
    if e < |s| {
      assert sb[e] == s[e];
    } else if e < |sb| {
      assert sb[e] == b[0];
    }
    WordRunUnique(sb, i, e - i);
  }

  /** A slice of the first part of a concatenation. */
  lemma SliceOfPrefix(s: string, b: string, i: nat, e: nat)
    requires i <= e <= |s|
    ensures (s + b)[i..e] == s[i..e]
  {
    assert (s + b)[..|s|] == s;
  }

  lemma {:induction false} TrailingSpaceAtWord(s: string, b: string, i: nat)
    requires AllSpace(b) && i < |s| && !IsSpace(s[i])
    ensures WordsFrom(s + b, i) == WordsFrom(s, i)
    decreases |s| - i, 0
  {
    var sb := s + b;
    assert sb[i] == s[i];
    var e := i + WordRun(s, i);
    WordRunTrailingSpace(s, b, i);
    SliceOfPrefix(s, b, i, e);
    WordsFromTrailingSpace(s, b, e);
    calc {
      WordsFrom(sb, i);
      { WordsFromWord(sb, i, e); }
      [sb[i..e]] + WordsFrom(sb, e);
      [s[i..e]] + WordsFrom(s, e);
      { WordsFromWord(s, i, e); }
      WordsFrom(s, i);
    }
  }

  /** Whitespace around a text adds no words. */
  lemma WordsPadded(a: string, m: string, b: string)
    requires AllSpace(a) && AllSpace(b)
    ensures Words(a + (m + b)) == Words(m)
  {
    var s := a + (m + b);
    forall j | 0 <= j < |a| ensures IsSpace(s[j]) {
      assert s[j] == a[j];
    }
    WordsFromSpace(s, 0, |a|);
    WordsFromShift(a, m + b, 0);
    WordsFromTrailingSpace(m, b, 0);
  }

  /** Splitting `s` and splitting `s.strip()` give the same words. */
  lemma WordsOfStrip(s: string)
    ensures Words(Strip(s)) == Words(s)
  {
    var k, m := LeadLen(s), Strip(s);
    var a, b := s[..k], s[k + |m|..];
    StripParts(s);
    AppendAssoc(a, m, b);
    WordsPadded(a, m, b);
  }

  /** The words of `s` are empty exactly when `s` is all whitespace. */
  lemma WordsEmptyIffSpace(s: string)
    ensures Words(s) == [] <==> AllSpace(s)
  {
    var k := LeadLen(s);
    WordsFromSpace(s, 0, k);
    if k < |s| {
      WordsFromWord(s, k, k + WordRun(s, k));
    }
  }

  /** A word followed by any non-empty run of whitespace and more text is the first word; the run itself yields nothing. */
  lemma WordsSepJoin(w: string, sep: string, j: string)
    requires IsWord(w) && sep != [] && AllSpace(sep)
    ensures Words(w + sep + j) == [w] + Words(j)
  {
    var p := w + sep;
    var s := p + j;
    forall k | 0 <= k < |w| ensures !IsSpace(s[k]) {
      assert s[k] == w[k];
    }
    forall k | |w| <= k < |p| ensures IsSpace(s[k]) {
      assert s[k] == sep[k - |w|];
    }
    WordRunUnique(s, 0, |w|);
    assert s[0..|w|] == w;
    WordsFromSpace(s, |w|, |p|);
    WordsFromShift(p, j, 0);
    calc {
      Words(s);
      { WordsFromWord(s, 0, |w|); }
      [w] + WordsFrom(s, |w|);
      [w] + WordsFrom(p + j, |p| + 0);
    }
  }

  /** A single word splits to itself. */
  lemma WordsSingle(w: string)
    requires IsWord(w)
    ensures Words(w) == [w]
  {
    WordRunUnique(w, 0, |w|);
    WordsFromWord(w, 0, |w|);
    assert w[0..|w|] == w;
  }

  /** `" ".join(ws).split() == ws` for any list of whitespace-free, non-empty words. */
  lemma {:induction false} WordsOfJoin(ws: seq<string>)
    requires forall i :: 0 <= i < |ws| ==> IsWord(ws[i])
    ensures Words(Join(ws, " ")) == ws
  {
    if |ws| == 1 {
      WordsSingle(ws[0]);
    } else if |ws| > 1 {
      WordsSepJoin(ws[0], " ", Join(ws[1..], " "));
      WordsOfJoin(ws[1..]);
      assert ws == [ws[0]] + ws[1..];
    }
  }

  // ---------------------------------------------------------------------
  // Decimal digits

  predicate IsDigit(c: char)
  {
    '0' <= c <= '9'
  }

  predicate AllDigits(s: string)
  {
    forall i :: 0 <= i < |s| ==> IsDigit(s[i])
  }

  function DigitValue(c: char): nat
    requires IsDigit(c)
  {
    c as int - '0' as int
  }

  function DigitChar(d: nat): char
    requires d < 10
  {
    ('0' as int + d) as char
  }

  function Pow10(e: nat): (p: nat)
    ensures p >= 1
  {
    if e == 0 then 1 else 10 * Pow10(e - 1)
  }

  /** The number a string of decimal digits denotes (`int(s)`; 0 for the empty string). */
  function DigitsValue(s: string): nat
    requires AllDigits(s)
  {
    if s == [] then 0 else DigitsValue(s[..|s| - 1]) * 10 + DigitValue(s[|s| - 1])
  }

  lemma AllDigitsConcat(a: string, b: string)
    requires AllDigits(a) && AllDigits(b)
    ensures AllDigits(a + b)
  {
    forall i | 0 <= i < |a + b| ensures IsDigit((a + b)[i]) {
      if i < |a| { assert (a + b)[i] == a[i]; } else { assert (a + b)[i] == b[i - |a|]; }
    }
  }

  lemma ShiftArith(x: int, p: int, y: int, d: int)
    ensures (x * p + y) * 10 + d == x * (p * 10) + (y * 10 + d)
  {
  }

  /** Reading `a + b` as one numeral shifts `a` left by the length of `b`. */
  lemma {:induction false} DigitsValueConcat(a: string, b: string)
    requires AllDigits(a) && AllDigits(b)
    ensures AllDigits(a + b)
    ensures DigitsValue(a + b) == DigitsValue(a) * Pow10(|b|) + DigitsValue(b)
    decreases |b|
  {
    AllDigitsConcat(a, b);
    if b == [] {
      assert a + b == a;
    } else {
      var b' := b[..|b| - 1];
      var d := DigitValue(b[|b| - 1]);
      assert (a + b)[..|a + b| - 1] == a + b';
      assert (a + b)[|a + b| - 1] == b[|b| - 1];
      DigitsValueConcat(a, b');
      var x, y, p := DigitsValue(a), DigitsValue(b'), Pow10(|b'|);
      assert DigitsValue(a + b) == DigitsValue(a + b') * 10 + d;
      assert DigitsValue(b) == y * 10 + d;
      assert Pow10(|b|) == p * 10;
      ShiftArith(x, p, y, d);
    }
  }

  /** `str(n)` for a natural number: canonical decimal digits that read back as `n`. */
  function NatToString(n: nat): (s: string)
    ensures |s| > 0 && AllDigits(s)
    ensures DigitsValue(s) == n
    ensures s[0] != '0' || s == "0"
  {
    if n < 10 then [DigitChar(n)]
    else
      var p := NatToString(n / 10);
      var s := p + [DigitChar(n % 10)];
      assert s[..|s| - 1] == p;
      s
  }

  /** `str(i)` for a Python `int`, with a leading minus sign when negative. */
  function IntToString(i: int): (s: string)
    ensures i >= 0 ==> AllDigits(s) && DigitsValue(s) == i
    ensures i < 0 ==> |s| > 1 && s[0] == '-' && AllDigits(s[1..]) && DigitsValue(s[1..]) == -i
    ensures i >= 0 ==> |s| > 0 && (s[0] != '0' || s == "0")
    ensures i < 0 ==> s[1] != '0'
  {
    if i >= 0 then NatToString(i)
    else
      var s := "-" + NatToString(-i);
      assert s[1..] == NatToString(-i);
      assert DigitsValue("0") == 0;
      s
  }

  // ---------------------------------------------------------------------
  // Case and prefixes

  /** `c.lower()` on ASCII letters; every other character is returned unchanged. */
  function LowerChar(c: char): char
  {
    if 'A' <= c <= 'Z' then (c as int + 32) as char else c
  }

  function Lower(s: string): string
  {
    seq(|s|, i requires 0 <= i < |s| => LowerChar(s[i]))
  }

  predicate StartsWith(s: string, prefix: string)
  {
    |prefix| <= |s| && s[..|prefix|] == prefix
  }
}
