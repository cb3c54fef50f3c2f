/** Reading the URL list file (`load_urls_from_file`, vidar.py lines
    172-195): each line becomes a job, is skipped silently when blank, or is
    reported as an invalid entry. The file itself is given as the sequence of
    its lines. */
module UrlList {
  import opened Wrappers
  import opened Text
  import opened Jobs

  /** The characters of the class `[|,;]`. */
  predicate IsDelimiter(c: char)
  {
    c == '|' || c == ',' || c == ';'
  }

  predicate NoDelimiter(s: string)
  {
    forall i :: 0 <= i < |s| ==> !IsDelimiter(s[i])
  }

  /** Position of the first delimiter of `s` at or after `i`, if any. */
  function DelimiterFrom(s: string, i: nat): (r: Option<nat>)
    requires i <= |s|
    ensures r.None? ==> forall j :: i <= j < |s| ==> !IsDelimiter(s[j])
    ensures r.Some? ==> i <= r.value < |s| && IsDelimiter(s[r.value])
    ensures r.Some? ==> forall j :: i <= j < r.value ==> !IsDelimiter(s[j])
    decreases |s| - i
  {
    if i == |s| then None
    else if IsDelimiter(s[i]) then Some(i)
    else DelimiterFrom(s, i + 1)
  }

  /** Position of the first delimiter of `s`, if any. */
  function FirstDelimiter(s: string): (r: Option<nat>)
    ensures r.None? ==> NoDelimiter(s)
    ensures r.Some? ==> r.value < |s| && IsDelimiter(s[r.value])
    ensures r.Some? ==> forall j :: 0 <= j < r.value ==> !IsDelimiter(s[j])
  {
    DelimiterFrom(s, 0)
  }

  /** The text before the first delimiter (all of `s` when there is none). */
  function FirstField(s: string): string
  {
    match FirstDelimiter(s)
    case None => s
    case Some(d) => s[..d]
  }

  /** The text between the first and the second delimiter (or the end of
      `s`); absent when `s` has no delimiter. */
  function SecondField(s: string): Option<string>
  {
    match FirstDelimiter(s)
    case None => None
    case Some(d) => Some(FirstField(s[d + 1..]))
  }

  /** `re.split(r'\s*[|,;]\s*', s)`. The leftmost match of the pattern starts
      at the whitespace run just before the first delimiter, and since its
      trailing `\s*` is greedy it ends after all whitespace that follows the
      delimiter; splitting then continues on the rest. */
  function RegexSplit(s: string): (parts: seq<string>)
    ensures |parts| >= 1
    ensures forall i :: 0 <= i < |parts| ==> NoDelimiter(parts[i])
    decreases |s|
  {
    match FirstDelimiter(s)
    case None => [s]
    case Some(d) =>
      var first := TrimRight(s[..d]);
      assert NoDelimiter(first) by {
        forall j | 0 <= j < |first| ensures !IsDelimiter(first[j]) {
          assert first[j] == s[j];
        }
      }
      [first] + RegexSplit(TrimLeft(s[d + 1..]))
  }

  /** `url.lower().startswith("http")`. Only ASCII letters are lowered: no
      other character lowers to `h`, `t` or `p`, so the test is unaffected. */
  predicate HasHttpPrefix(url: string)
  {
    StartsWith(Lower(url), "http")
  }

  /** The result of one line of the file. */
  datatype LineResult = Blank | Accepted(job: Job) | Skipped(line: string)

  /** The per-line body of `load_urls_from_file`: a blank line is passed
      over, a line whose first field starts with "http" becomes a job, and
      any other line is reported with its surrounding whitespace removed. */
  function ParseLine(raw: string): (r: LineResult)
    ensures r.Blank? <==> AllSpace(raw)
    ensures r.Skipped? ==> r.line == Strip(raw) && r.line != ""
    ensures r.Accepted? ==> r.job.url != "" && IsTrimmed(r.job.url) && HasHttpPrefix(r.job.url)
    ensures r.Accepted? && r.job.password.Some? ==>
      r.job.password.value != "" && IsTrimmed(r.job.password.value)
  {
    StripEmptyIffSpace(raw);
    var line := Strip(raw);
    if line == "" then Blank
    else
      var parts := RegexSplit(line);
      var url := Strip(parts[0]);
      var password := if |parts| > 1 && Strip(parts[1]) != "" then Some(Strip(parts[1])) else None;
      if HasHttpPrefix(url) then Accepted(Job(url, password)) else Skipped(line)
  }

  /** The log line for a rejected entry (the stripped line). */
  function SkipMessage(line: string): string
  {
    "Skipped invalid URL entry: " + line + "\n"
  }

  /** The summary logged after the whole file was read. */
  function LoadedMessage(count: nat): (r: string)
    ensures |r| > 7 && r[..7] == "Loaded " && r[|r| - 1] == '\n'
    ensures var d := |NatToString(count)|;
      && |r| > 11 + d
      && AllDigits(r[7..7 + d]) && DigitsValue(r[7..7 + d]) == count && r[7 + d] == ' '
      && (r[11 + d] == 's' <==> count != 1)
    ensures var d, p := |NatToString(count)|, if count != 1 then 1 else 0;
      && |r| == 23 + d + p
      && r[8 + d..11 + d] == "URL"
      && r[11 + d + p..] == " from file.\n"
  {
    var n := NatToString(count);
    var plural := if count != 1 then "s" else "";
    MessageLayout(n, plural);
    "Loaded " + n + " URL" + plural + " from file.\n"
  }

  /** Where each piece of the loaded-count message sits, for any count text and suffix. */
  lemma MessageLayout(n: string, plural: string)
    ensures var r := "Loaded " + n + " URL" + plural + " from file.\n";
      && |r| == 23 + |n| + |plural|
      && r[..7] == "Loaded " && r[7..7 + |n|] == n && r[7 + |n|] == ' '
      && r[8 + |n|..11 + |n|] == "URL" && r[11 + |n|..11 + |n| + |plural|] == plural
      && r[11 + |n| + |plural|..] == " from file.\n"
  {
    var r := "Loaded " + n + " URL" + plural + " from file.\n";
    assert r == "Loaded " + (n + (" URL" + (plural + " from file.\n")));
  }

  /** The jobs read from a file and the skip messages logged while reading it. */
  datatype LoadResult = LoadResult(jobs: seq<Job>, log: seq<string>)

  /** The shape of every job the file loader produces. */
  predicate WellFormedJob(job: Job)
  {
    && HasHttpPrefix(job.url)
    && IsTrimmed(job.url)
    && NoDelimiter(job.url)
    && (job.password.Some? ==>
          job.password.value != "" && IsTrimmed(job.password.value) && NoDelimiter(job.password.value))
  }

  /** One iteration of the loader: the line's job or skip message is appended. */
  function LoadStep(prev: LoadResult, result: LineResult): (r: LoadResult)
    ensures |prev.jobs| <= |r.jobs| && r.jobs[..|prev.jobs|] == prev.jobs
    ensures |prev.log| <= |r.log| && r.log[..|prev.log|] == prev.log
    ensures |r.jobs| + |r.log| == |prev.jobs| + |prev.log| + (if result.Blank? then 0 else 1)
    ensures result.Accepted? ==> |r.jobs| == |prev.jobs| + 1 && r.jobs[|prev.jobs|] == result.job
    ensures result.Skipped? ==> |r.log| == |prev.log| + 1 && r.log[|prev.log|] == SkipMessage(result.line)
  {
    match result
    case Blank => prev
    case Accepted(job) => LoadResult(prev.jobs + [job], prev.log)
    case Skipped(line) => LoadResult(prev.jobs, prev.log + [SkipMessage(line)])
  }

  /** All jobs in `jobs` are well formed. */
  predicate AllWellFormed(jobs: seq<Job>)
  {
    forall i :: 0 <= i < |jobs| ==> WellFormedJob(jobs[i])
  }

  /** The loop of `load_urls_from_file` over the lines, in file order. */
  function ParseLines(lines: seq<string>): (r: LoadResult)
    ensures |r.jobs| + |r.log| <= |lines|
    ensures AllWellFormed(r.jobs)
  {
    if lines == [] then LoadResult([], [])
    else
      var prev := ParseLines(lines[..|lines| - 1]);
      var result := ParseLine(lines[|lines| - 1]);
      LoadStepWellFormed(prev, lines[|lines| - 1]);
      LoadStep(prev, result)
  }

  /** A loader step keeps every job well formed and adds at most one entry. */
  lemma LoadStepWellFormed(prev: LoadResult, raw: string)
    requires AllWellFormed(prev.jobs)
    ensures AllWellFormed(LoadStep(prev, ParseLine(raw)).jobs)
    ensures |LoadStep(prev, ParseLine(raw)).jobs| + |LoadStep(prev, ParseLine(raw)).log|
         <= |prev.jobs| + |prev.log| + 1
  {
    var result := ParseLine(raw);
    if result.Accepted? {
      ParseLineWellFormed(raw);
      var jobs := prev.jobs + [result.job];
      forall i | 0 <= i < |jobs| ensures WellFormedJob(jobs[i]) {
        if i < |prev.jobs| { assert jobs[i] == prev.jobs[i]; }
      }
    }
  }

  // ---------------------------------------------------------------------
  // Delimiter search

  lemma NoDelimiterSlice(s: string, i: nat, j: nat)
    requires NoDelimiter(s) && i <= j <= |s|
    ensures NoDelimiter(s[i..j])
  {
    assert forall k :: 0 <= k < j - i ==> s[i..j][k] == s[i + k];
  }

  lemma SpaceIsNoDelimiter(s: string)
    requires AllSpace(s)
    ensures NoDelimiter(s)
  {
  }

  /** `DelimiterFrom` is determined by its contract. */
  lemma {:induction false} DelimiterFromAt(s: string, i: nat, d: nat)
    requires i <= d < |s| && IsDelimiter(s[d])
    requires forall j :: i <= j < d ==> !IsDelimiter(s[j])
    ensures DelimiterFrom(s, i) == Some(d)
    decreases d - i
  {
    if i < d {
      DelimiterFromAt(s, i + 1, d);
    }
  }

  /** `FirstDelimiter` is determined by its contract. */
  lemma FirstDelimiterAt(s: string, d: nat)
    requires d < |s| && IsDelimiter(s[d])
    requires forall j :: 0 <= j < d ==> !IsDelimiter(s[j])
    ensures FirstDelimiter(s) == Some(d)
  {
    DelimiterFromAt(s, 0, d);
  }

  /** A delimiter-free prefix shifts the first delimiter and nothing else. */
  lemma FirstDelimiterShift(p: string, t: string)
    requires NoDelimiter(p)
    ensures FirstDelimiter(p + t) ==
      match FirstDelimiter(t) case None => None case Some(e) => Some(|p| + e)
    ensures FirstField(p + t) == p + FirstField(t)
  {
    var s := p + t;
    match FirstDelimiter(t)
    case None =>
      assert NoDelimiter(s) by {
        forall i | 0 <= i < |s| ensures !IsDelimiter(s[i]) {
          if i < |p| { assert s[i] == p[i]; } else { assert s[i] == t[i - |p|]; }
        }
      }
      assert s == p + t;
    case Some(e) =>
      forall j | 0 <= j < |p| + e ensures !IsDelimiter(s[j]) {
        if j < |p| { assert s[j] == p[j]; } else { assert s[j] == t[j - |p|]; }
      }
      assert s[|p| + e] == t[e];
      FirstDelimiterAt(s, |p| + e);
      assert s[..|p| + e] == p + t[..e];
  }

  // ---------------------------------------------------------------------
  // The split, field by field

  /** `strip()` after `rstrip()` is just `strip()`. */
  lemma StripTrimRight(x: string)
    ensures Strip(TrimRight(x)) == Strip(x)
  {
    var e := SpaceStart(x, |x|);
    var r, t := x[..e], x[e..];
    forall j | 0 <= j < |t| ensures IsSpace(t[j]) {
      assert t[j] == x[e + j];
    }
    assert x == [] + r + t;
    StripPadded([], r, t);
  }

  /** The first piece of the split, stripped, is the stripped text before the
      first delimiter. */
  lemma RegexSplitFirst(s: string)
    ensures Strip(RegexSplit(s)[0]) == Strip(FirstField(s))
  {
    match FirstDelimiter(s)
    case None =>
    case Some(d) =>
      StripTrimRight(s[..d]);
  }

  /** Leading whitespace does not change the stripped first field. */
  lemma FirstFieldSkipSpace(y: string)
    ensures Strip(FirstField(TrimLeft(y))) == Strip(FirstField(y))
  {
    var k := LeadLen(y);
    var sp, t := y[..k], y[k..];
    forall j | 0 <= j < |sp| ensures IsSpace(sp[j]) {
      assert sp[j] == y[j];
    }
    assert y == sp + t;
    SpaceIsNoDelimiter(sp);
    FirstDelimiterShift(sp, t);
    assert sp + FirstField(t) + [] == sp + FirstField(t);
    StripPadded(sp, FirstField(t), []);
  }

  /** One step of the split at the first delimiter. */
  lemma RegexSplitStep(s: string, d: nat)
    requires FirstDelimiter(s) == Some(d)
    ensures RegexSplit(s) == [TrimRight(s[..d])] + RegexSplit(TrimLeft(s[d + 1..]))
  {
  }

  /** The split has a second piece exactly when the line has a delimiter, and
      that piece, stripped, is the stripped text between the first delimiter
      and the next one (or the end of the line). */
  lemma RegexSplitSecond(s: string)
    ensures |RegexSplit(s)| > 1 <==> FirstDelimiter(s).Some?
    ensures |RegexSplit(s)| > 1 ==> Strip(RegexSplit(s)[1]) == Strip(SecondField(s).value)
  {
    match FirstDelimiter(s)
    case None =>
    case Some(d) =>
      var y := s[d + 1..];
      RegexSplitStep(s, d);
      RegexSplitFirst(TrimLeft(y));
      FirstFieldSkipSpace(y);
  }

  // ---------------------------------------------------------------------
  // Properties of one line

  /** `url.lower().startswith("http")` spelled out: the first four characters
      are h, t, t, p in either case. */
  lemma HttpPrefixCaseInsensitive(url: string)
    ensures HasHttpPrefix(url) <==>
      && |url| >= 4
      && (url[0] == 'h' || url[0] == 'H')
      && (url[1] == 't' || url[1] == 'T')
      && (url[2] == 't' || url[2] == 'T')
      && (url[3] == 'p' || url[3] == 'P')
  {
    if |url| >= 4 {
      var l := Lower(url);
      assert l[..4] == [l[0], l[1], l[2], l[3]];
    }
  }

  /** The password a second field yields: stripped, and absent when empty. */
  function PasswordOf(field: Option<string>): Option<string>
  {
    match field
    case None => None
    case Some(f) => if Strip(f) == "" then None else Some(Strip(f))
  }

  /** One line of the file, stated field by field: blank lines are dropped;
      the URL is the stripped text before the first delimiter; the password
      is the stripped text after it up to the next delimiter, absent when
      empty or when there is no delimiter; the line is accepted exactly when
      the URL starts with "http" in any case, and otherwise reported once. */
  lemma ParseLineFields(raw: string)
    ensures ParseLine(raw).Blank? <==> AllSpace(raw)
    ensures !AllSpace(raw) ==>
      var line := Strip(raw);
      var url := Strip(FirstField(line));
      && (ParseLine(raw).Accepted? <==> HasHttpPrefix(url))
      && (ParseLine(raw).Accepted? ==> ParseLine(raw).job == Job(url, PasswordOf(SecondField(line))))
      && (ParseLine(raw).Skipped? ==> ParseLine(raw).line == line)
  {
    StripEmptyIffSpace(raw);
    var line := Strip(raw);
    if line != "" {
      RegexSplitFirst(line);
      RegexSplitSecond(line);
    }
  }

  /** `strip()` keeps a slice of its input, so it adds no delimiter. */
  lemma StripNoDelimiter(x: string)
    requires NoDelimiter(x)
    ensures NoDelimiter(Strip(x))
  {
    NoDelimiterSlice(x, LeadLen(x), LeadLen(x) + |Strip(x)|);
  }

  /** Every accepted line yields a well-formed job. */
  lemma ParseLineWellFormed(raw: string)
    requires ParseLine(raw).Accepted?
    ensures WellFormedJob(ParseLine(raw).job)
  {
    var parts := RegexSplit(Strip(raw));
    StripNoDelimiter(parts[0]);
    if |parts| > 1 {
      StripNoDelimiter(parts[1]);
    }
  }

  // ---------------------------------------------------------------------
  // Properties of the whole file

  /** Appending to the jobs and messages read so far commutes with reading one more line. */
  lemma LoadStepAppend(x: LoadResult, y: LoadResult, result: LineResult)
    ensures LoadStep(LoadResult(x.jobs + y.jobs, x.log + y.log), result)
         == LoadResult(x.jobs + LoadStep(y, result).jobs, x.log + LoadStep(y, result).log)
  {
    match result
    case Blank =>
    case Accepted(job) =>
      assert x.jobs + y.jobs + [job] == x.jobs + (y.jobs + [job]);
    case Skipped(line) =>
      assert x.log + y.log + [SkipMessage(line)] == x.log + (y.log + [SkipMessage(line)]);
  }

  /** Reading `a + b` is reading `a`, then `b`: jobs and messages keep file order. */
  lemma {:induction false} ParseLinesAppend(a: seq<string>, b: seq<string>)
    ensures ParseLines(a + b) ==
      LoadResult(ParseLines(a).jobs + ParseLines(b).jobs, ParseLines(a).log + ParseLines(b).log)
    decreases |b|
  {
    if b == [] {
      assert a + b == a;
    } else {
      var b' := b[..|b| - 1];
      var raw := b[|b| - 1];
      var lr := ParseLine(raw);
      assert (a + b)[..|a + b| - 1] == a + b';
      assert (a + b)[|a + b| - 1] == raw;
      ParseLinesAppend(a, b');
      var x, y := ParseLines(a), ParseLines(b');
      LoadStepAppend(x, y, lr);
      calc {
        ParseLines(a + b);
        LoadStep(ParseLines(a + b'), lr);
        LoadStep(LoadResult(x.jobs + y.jobs, x.log + y.log), lr);
        LoadResult(x.jobs + LoadStep(y, lr).jobs, x.log + LoadStep(y, lr).log);
      }
    }
  }

  /** A line with no whitespace at its ends strips to itself. */
  lemma StripTrimmed(s: string)
    requires IsTrimmed(s)
    ensures Strip(s) == s
  {
    assert [] + s + [] == s;
    StripUnique([], s, []);
  }

  /** A trimmed line with no delimiter is a job with no password when it
      starts with "http" and a skipped entry otherwise. */
  lemma ParseBareLine(raw: string)
    requires raw != [] && IsTrimmed(raw) && NoDelimiter(raw)
    ensures ParseLine(raw) == if HasHttpPrefix(raw) then Accepted(Job(raw, None)) else Skipped(raw)
  {
    StripTrimmed(raw);
    ParseLineFields(raw);
  }

  lemma FirstDelimiterNone(s: string)
    requires NoDelimiter(s)
    ensures FirstDelimiter(s) == None && FirstField(s) == s
  {
  }

  /** A trimmed line is accepted with the job its fields describe. */
  lemma AcceptedFromFields(raw: string, url: string, password: Option<string>)
    requires raw != [] && Strip(raw) == raw
    requires Strip(FirstField(raw)) == url && HasHttpPrefix(url)
    requires PasswordOf(SecondField(raw)) == password
    ensures ParseLine(raw) == Accepted(Job(url, password))
  {
    ParseLineFields(raw);
  }

  lemma PasswordLineFields(url: string, pw: string)
    requires url != [] && IsTrimmed(url) && NoDelimiter(url)
    requires pw != [] && IsTrimmed(pw) && NoDelimiter(pw)
    ensures Strip(url + "|" + pw) == url + "|" + pw
    ensures FirstField(url + "|" + pw) == url
    ensures SecondField(url + "|" + pw) == Some(pw)
  {
    var raw := url + "|" + pw;
    assert Strip(raw) == raw by {
      assert raw[0] == url[0] && raw[|raw| - 1] == pw[|pw| - 1];
      StripTrimmed(raw);
    }
    assert FirstDelimiter(raw) == Some(|url|) by {
      assert raw[..|url|] == url && raw[|url|] == '|';
      FirstDelimiterAt(raw, |url|);
    }
    assert raw[..|url|] == url;
    assert raw[|url| + 1..] == pw;
    FirstDelimiterNone(pw);
  }

  /** A trimmed `url|password` line with trimmed, delimiter-free parts. */
  lemma ParsePasswordLine(url: string, pw: string)
    requires url != [] && IsTrimmed(url) && NoDelimiter(url) && HasHttpPrefix(url)
    requires pw != [] && IsTrimmed(pw) && NoDelimiter(pw)
    ensures ParseLine(url + "|" + pw) == Accepted(Job(url, Some(pw)))
  {
    PasswordLineFields(url, pw);
    StripTrimmed(url);
    StripTrimmed(pw);
    AcceptedFromFields(url + "|" + pw, url, Some(pw));
  }

  /** Reading a single line is one loader step. */
  lemma ParseOneLine(raw: string)
    ensures ParseLines([raw]) == LoadStep(LoadResult([], []), ParseLine(raw))
  {
    assert [raw][..0] == [];
  }

  /** A file of one accepted line holds its job. */
  lemma AcceptedOne(raw: string, job: Job)
    requires ParseLine(raw) == Accepted(job)
    ensures ParseLines([raw]) == LoadResult([job], [])
  {
    ParseOneLine(raw);
    assert [] + [job] == [job];
  }

  /** A file of one skipped line holds its skip message. */
  lemma SkippedOne(raw: string, line: string)
    requires ParseLine(raw) == Skipped(line)
    ensures ParseLines([raw]) == LoadResult([], [SkipMessage(line)])
  {
    ParseOneLine(raw);
    assert [] + [SkipMessage(line)] == [SkipMessage(line)];
  }

  /** A three-element sequence as three one-element pieces. */
  lemma SplitThree<T>(s: seq<T>)
    requires |s| == 3
    ensures s[..1] == [s[0]] && s[1..2] == [s[1]] && s[2..] == [s[2]]
    ensures s == s[..1] + s[1..2] + s[2..]
  {
    assert s[..1] + s[1..2] == s[..2];
  }

  /** Reading three lines concatenates what each line gives on its own. */
  lemma ParseThreeLines(lines: seq<string>)
    requires |lines| == 3
    ensures var x, y, z := ParseLines([lines[0]]), ParseLines([lines[1]]), ParseLines([lines[2]]);
      ParseLines(lines) == LoadResult(x.jobs + y.jobs + z.jobs, x.log + y.log + z.log)
  {
    SplitThree(lines);
    ParseLinesAppend([lines[0]], [lines[1]]);
    ParseLinesAppend([lines[0]] + [lines[1]], [lines[2]]);
  }

  /** What two jobs and one skip message add up to. */
  lemma TwoJobsOneSkipSum(x: LoadResult, y: LoadResult, z: LoadResult, j1: Job, j2: Job, message: string)
    requires x == LoadResult([j1], []) && y == LoadResult([j2], []) && z == LoadResult([], [message])
    ensures LoadResult(x.jobs + y.jobs + z.jobs, x.log + y.log + z.log) == LoadResult([j1, j2], [message])
  {
    assert x.jobs + y.jobs + z.jobs == [j1, j2];
    assert x.log + y.log + z.log == [message];
  }

  /** Two accepted lines and a skipped one: two jobs in order and one
      skip message. */
  lemma TwoJobsOneSkip(lines: seq<string>, j1: Job, j2: Job, skipped: string)
    requires |lines| == 3
    requires ParseLine(lines[0]) == Accepted(j1) && ParseLine(lines[1]) == Accepted(j2)
    requires ParseLine(lines[2]) == Skipped(skipped)
    ensures ParseLines(lines) == LoadResult([j1, j2], [SkipMessage(skipped)])
  {
    ParseThreeLines(lines);
    AcceptedOne(lines[0], j1);
    AcceptedOne(lines[1], j2);
    SkippedOne(lines[2], skipped);
    TwoJobsOneSkipSum(ParseLines([lines[0]]), ParseLines([lines[1]]), ParseLines([lines[2]]),
                      j1, j2, SkipMessage(skipped));
  }

  // The examples below take their input as a parameter fixed by a
  // `requires` rather than writing the literal into the call: applied to a
  // literal, the recursive definitions (`Strip`, `RegexSplit`, `Lower`)
  // would be unfolded by the verifier without bound.

  /** A line with a password field. */
  lemma ExampleLineA(raw: string)
    requires raw == "http://a.com|pw1"
    ensures ParseLine(raw) == Accepted(Job("http://a.com", Some("pw1")))
  {
    HttpPrefixCaseInsensitive("http://a.com");
    assert raw == "http://a.com" + "|" + "pw1";
    ParsePasswordLine("http://a.com", "pw1");
  }

  /** A line with a URL only. */
  lemma ExampleLineB(raw: string)
    requires raw == "http://b.com"
    ensures ParseLine(raw) == Accepted(Job("http://b.com", None))
  {
    HttpPrefixCaseInsensitive(raw);
    ParseBareLine(raw);
  }

  /** A line whose URL does not start with "http" is reported, not queued. */
  lemma ExampleLineC(raw: string)
    requires raw == "ftp://bad.com"
    ensures ParseLine(raw) == Skipped("ftp://bad.com")
  {
    HttpPrefixCaseInsensitive(raw);
    ParseBareLine(raw);
  }

  /** A file with a password line, a bare URL line and a line that is not a
      web address: two jobs in file order and one skip message. */
  lemma ExampleFile(lines: seq<string>)
    requires lines == ["http://a.com|pw1", "http://b.com", "ftp://bad.com"]
    ensures ParseLines(lines) ==
      LoadResult([Job("http://a.com", Some("pw1")), Job("http://b.com", None)],
                 [SkipMessage("ftp://bad.com")])
  {
    ExampleLineA(lines[0]);
    ExampleLineB(lines[1]);
    ExampleLineC(lines[2]);
    TwoJobsOneSkip(lines, Job("http://a.com", Some("pw1")), Job("http://b.com", None), "ftp://bad.com");
  }
}
