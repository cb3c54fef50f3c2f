/** The yt-dlp argument list that `process_download` assembles for one job
    (vidar.py lines 277-305), and the quality table it consults. */
module Command {
  import opened Wrappers
  import opened Text
  import opened Jobs

  /** The selector used when the quality key is not in the table. */
  const DefaultSelector: string := "bestvideo+bestaudio/best"

  /** `quality_mapping`: quality key to yt-dlp format selector. */
  const QualityMapping: map<string, string> := map[
    "best" := "bestvideo+bestaudio/best",
    "1080p" := "bestvideo[height<=1080]+bestaudio/best",
    "720p" := "bestvideo[height<=720]+bestaudio/best",
    "480p" := "bestvideo[height<=480]+bestaudio/best",
    "360p" := "bestvideo[height<=360]+bestaudio/best",
    "240p" := "bestvideo[height<=240]+bestaudio/best",
    "144p" := "bestvideo[height<=144]+bestaudio/best"
  ]

  /** The filename pattern joined onto the output directory. */
  const OutputPattern: string := "%(title)s.%(ext)s"

  /** The four turbo-mode arguments. */
  const TurboFlags: seq<string> := ["--concurrent-fragments", "10", "--buffer-size", "16K"]

  /** The settings `process_download` reads when it starts a job. `quality`
      is the combo-box text, so it may be any string; `cookiesFile` and the
      job password count only when non-empty, as Python truthiness has it;
      `aria2Args` is the raw text of the aria2c argument entry. */
  datatype DownloadOptions = DownloadOptions(
    quality: string,
    format: string,
    noCheckCertificate: bool,
    cookiesFile: Option<string>,
    useAria2: bool,
    aria2Args: string,
    turbo: bool,
    outputDir: string)

  /** `quality_mapping.get(key, DefaultSelector)`. */
  function Selector(key: string): (r: string)
    ensures r == DefaultSelector <==> key == "best" || key !in QualityMapping
  {
    assert QualityMapping["best"] == DefaultSelector;
    if key in QualityMapping then QualityMapping[key] else DefaultSelector
  }

  function CertificateArgs(noCheckCertificate: bool): seq<string>
  {
    if noCheckCertificate then ["--no-check-certificate"] else []
  }

  function CookieArgs(cookiesFile: Option<string>): seq<string>
  {
    if Present(cookiesFile) then ["--cookies", cookiesFile.value] else []
  }

  function PasswordArgs(password: Option<string>): seq<string>
  {
    if Present(password) then ["--video-password", password.value] else []
  }

  /** The extra aria2c arguments: the entry text is stripped and, when
      anything is left, split on whitespace. */
  function Aria2Extras(entry: string): seq<string>
  {
    var a := Strip(entry);
    if a != "" then Words(a) else []
  }

  function Aria2Args(useAria2: bool, entry: string): seq<string>
  {
    if useAria2 then ["--external-downloader", "aria2c"] + Aria2Extras(entry) else []
  }

  function TurboArgs(turbo: bool): seq<string>
  {
    if turbo then TurboFlags else []
  }

  /** The toggle-dependent middle of the command, in source order. */
  function OptionalArgs(o: DownloadOptions, password: Option<string>): seq<string>
  {
    CertificateArgs(o.noCheckCertificate)
    + (CookieArgs(o.cookiesFile) + (PasswordArgs(password) + (Aria2Args(o.useAria2, o.aria2Args) + TurboArgs(o.turbo))))
  }

  /** The seven arguments every command ends with. */
  function FixedTail(selector: string, format: string, template: string, url: string): seq<string>
  {
    ["-f", selector, "--merge-output-format", format, "--output", template, url]
  }

  /** The argument list for `job`; `join` stands for `os.path.join`. The
      command starts with the executable and `--newline` and always ends
      with the format selector, the merge format, the output template and,
      last of all, the URL. */
  function BuildCommand(exec: string, o: DownloadOptions, job: Job, join: (string, string) -> string): (cmd: seq<string>)
    ensures |cmd| >= 9
    ensures cmd[0] == exec && cmd[1] == "--newline"
    ensures cmd[|cmd| - 7..] ==
      ["-f", Selector(o.quality), "--merge-output-format", o.format, "--output", join(o.outputDir, OutputPattern), job.url]
  {
    [exec, "--newline"]
    + OptionalArgs(o, job.password)
    + FixedTail(Selector(o.quality), o.format, join(o.outputDir, OutputPattern), job.url)
  }

  /** The line logged before the subprocess starts: the arguments joined by
      spaces. When no argument is empty or holds whitespace, splitting the
      logged text on whitespace gives the arguments back. */
  function ExecutingLine(cmd: seq<string>): (r: string)
    ensures |r| >= 12 && r[..11] == "Executing: " && r[|r| - 1] == '\n'
    ensures (forall k :: 0 <= k < |cmd| ==> IsWord(cmd[k])) ==> Words(r[11..|r| - 1]) == cmd
  {
    var r := "Executing: " + Join(cmd, " ") + "\n";
    assert r[11..|r| - 1] == Join(cmd, " ");
    assert (forall k :: 0 <= k < |cmd| ==> IsWord(cmd[k])) ==> Words(Join(cmd, " ")) == cmd by {
      if forall k :: 0 <= k < |cmd| ==> IsWord(cmd[k]) {
        WordsOfJoin(cmd);
      }
    }
    r
  }

  /**
   * Whatever the arguments contain, each sits in the logged line at its
   * offset after `Executing: `, consecutive arguments are separated by one
   * space, and the last is followed only by the newline.
   */
  lemma ExecutingLineLayout(cmd: seq<string>, k: nat)
    requires k < |cmd|
    ensures var r := ExecutingLine(cmd);
      PartAt(r[11..|r| - 1], " ", JoinOffset(cmd, 1, k), cmd[k], k + 1 == |cmd|)
  {
    var r := ExecutingLine(cmd);
    assert r[11..|r| - 1] == Join(cmd, " ");
    JoinLayout(cmd, " ", k);
  }

  // ---------------------------------------------------------------------
  // Properties of the table

  /** The seven known keys select their table entries: "best" the unrestricted
      selector, "<h>p" the selector capped at height h. */
  lemma SelectorTable()
    ensures Selector("best") == "bestvideo+bestaudio/best"
    ensures Selector("1080p") == "bestvideo[height<=1080]+bestaudio/best"
    ensures Selector("720p") == "bestvideo[height<=720]+bestaudio/best"
    ensures Selector("480p") == "bestvideo[height<=480]+bestaudio/best"
    ensures Selector("360p") == "bestvideo[height<=360]+bestaudio/best"
    ensures Selector("240p") == "bestvideo[height<=240]+bestaudio/best"
    ensures Selector("144p") == "bestvideo[height<=144]+bestaudio/best"
  {
  }

  /** Whatever the key, the selector is one of the table's entries. */
  lemma SelectorInTable(key: string)
    ensures Selector(key) in QualityMapping.Values
  {
    assert QualityMapping["best"] == DefaultSelector;
  }

  /** Any key outside the table falls back to the default selector, which is
      also what "best" selects. */
  lemma SelectorFallback(key: string)
    requires key !in {"best", "1080p", "720p", "480p", "360p", "240p", "144p"}
    ensures Selector(key) == DefaultSelector
    ensures Selector(key) == Selector("best")
  {
  }

  // ---------------------------------------------------------------------
  // Properties of the argument list

  /** Inserting `x` at position `|h| + |p|` of the command `h + (p + q) + f`. */
  lemma Splice(h: seq<string>, p: seq<string>, x: seq<string>, q: seq<string>, f: seq<string>)
    ensures var off := h + (p + q) + f;
            h + (p + (x + q)) + f == off[..|h| + |p|] + x + off[|h| + |p|..]
  {
    var off := h + (p + q) + f;
    assert off[..|h| + |p|] == h + p;
    assert off[|h| + |p|..] == q + f;
  }

  /** With every toggle off the command is exactly nine arguments. */
  lemma PlainCommand(exec: string, o: DownloadOptions, job: Job, join: (string, string) -> string)
    requires !o.noCheckCertificate && !Present(o.cookiesFile) && !Present(job.password)
    requires !o.useAria2 && !o.turbo
    ensures BuildCommand(exec, o, job, join) ==
      [exec, "--newline", "-f", Selector(o.quality), "--merge-output-format", o.format,
       "--output", join(o.outputDir, OutputPattern), job.url]
  {
  }

  /** The command split into its fixed head, its optional middle and its fixed tail. */
  lemma CommandParts(exec: string, o: DownloadOptions, job: Job, join: (string, string) -> string)
    ensures BuildCommand(exec, o, job, join) ==
      [exec, "--newline"] + OptionalArgs(o, job.password)
      + FixedTail(Selector(o.quality), o.format, join(o.outputDir, OutputPattern), job.url)
  {
  }

  /** If the middle grows by `x` at position `|p|`, so does the whole command,
      at position `2 + |p|`. */
  lemma SpanInserted(exec: string, on: DownloadOptions, off: DownloadOptions, jobOn: Job, jobOff: Job,
                     join: (string, string) -> string, p: seq<string>, x: seq<string>, q: seq<string>)
    requires jobOn.url == jobOff.url
    requires on.quality == off.quality && on.format == off.format && on.outputDir == off.outputDir
    requires OptionalArgs(on, jobOn.password) == p + (x + q)
    requires OptionalArgs(off, jobOff.password) == p + q
    ensures var c := BuildCommand(exec, off, jobOff, join);
            BuildCommand(exec, on, jobOn, join) == c[..2 + |p|] + x + c[2 + |p|..]
  {
    var h := [exec, "--newline"];
    var f := FixedTail(Selector(on.quality), on.format, join(on.outputDir, OutputPattern), jobOn.url);
    var c := BuildCommand(exec, off, jobOff, join);
    assert c == h + (p + q) + f by {
      CommandParts(exec, off, jobOff, join);
    }
    assert BuildCommand(exec, on, jobOn, join) == h + (p + (x + q)) + f by {
      CommandParts(exec, on, jobOn, join);
    }
    Splice(h, p, x, q, f);
  }

  /** Turning certificate checking off inserts exactly `--no-check-certificate`
      right after `--newline` and changes nothing else. */
  lemma CertificateSpan(exec: string, o: DownloadOptions, job: Job, join: (string, string) -> string)
    ensures var on := BuildCommand(exec, o.(noCheckCertificate := true), job, join);
            var off := BuildCommand(exec, o.(noCheckCertificate := false), job, join);
            on == off[..2] + ["--no-check-certificate"] + off[2..]
  {
    var on, off := o.(noCheckCertificate := true), o.(noCheckCertificate := false);
    var r := CookieArgs(o.cookiesFile) + (PasswordArgs(job.password) + (Aria2Args(o.useAria2, o.aria2Args) + TurboArgs(o.turbo)));
    var x := ["--no-check-certificate"];
    var e: seq<string> := [];
    assert OptionalArgs(on, job.password) == e + (x + r) by {
      assert e + (x + r) == x + r;
    }
    assert OptionalArgs(off, job.password) == e + r by {
      assert e + r == r;
    }
    SpanInserted(exec, on, off, job, job, join, e, x, r);
    assert 2 + |e| == 2;
  }

  /** A non-empty cookie file inserts exactly `--cookies <file>` after the
      certificate span and changes nothing else. */
  lemma CookieSpan(exec: string, o: DownloadOptions, job: Job, join: (string, string) -> string, file: string)
    requires file != ""
    ensures var on := BuildCommand(exec, o.(cookiesFile := Some(file)), job, join);
            var off := BuildCommand(exec, o.(cookiesFile := None), job, join);
            var k := 2 + (if o.noCheckCertificate then 1 else 0);
            on == off[..k] + ["--cookies", file] + off[k..]
  {
    var on, off := o.(cookiesFile := Some(file)), o.(cookiesFile := None);
    var c := CertificateArgs(o.noCheckCertificate);
    var r := PasswordArgs(job.password) + (Aria2Args(o.useAria2, o.aria2Args) + TurboArgs(o.turbo));
    assert OptionalArgs(on, job.password) == c + (["--cookies", file] + r);
    assert OptionalArgs(off, job.password) == c + ([] + r);
    assert [] + r == r;
    SpanInserted(exec, on, off, job, job, join, c, ["--cookies", file], r);
  }

  /** A non-empty password inserts exactly `--video-password <p>` after the
      certificate and cookie spans and changes nothing else. */
  lemma PasswordSpan(exec: string, o: DownloadOptions, url: string, join: (string, string) -> string, pw: string)
    requires pw != ""
    ensures var on := BuildCommand(exec, o, Job(url, Some(pw)), join);
            var off := BuildCommand(exec, o, Job(url, None), join);
            var k := 2 + (if o.noCheckCertificate then 1 else 0) + (if Present(o.cookiesFile) then 2 else 0);
            on == off[..k] + ["--video-password", pw] + off[k..]
  {
    var c, kk := CertificateArgs(o.noCheckCertificate), CookieArgs(o.cookiesFile);
    var a, t := Aria2Args(o.useAria2, o.aria2Args), TurboArgs(o.turbo);
    var x := ["--video-password", pw];
    var p, q := c + kk, a + t;
    assert OptionalArgs(o, Some(pw)) == p + (x + q) by {
      assert OptionalArgs(o, Some(pw)) == c + (kk + (x + q));
      AppendAssoc(c, kk, x + q);
    }
    assert OptionalArgs(o, None) == p + q by {
      assert OptionalArgs(o, None) == c + (kk + ([] + q));
      assert [] + q == q;
      AppendAssoc(c, kk, q);
    }
    assert |p| == (if o.noCheckCertificate then 1 else 0) + (if Present(o.cookiesFile) then 2 else 0);
    SpanInserted(exec, o, o, Job(url, Some(pw)), Job(url, None), join, p, x, q);
  }

  /** The stripped-then-split aria2c entry is exactly `entry.split()`: the
      strip and the emptiness test add nothing, and a blank entry adds no
      arguments. */
  lemma Aria2ExtrasAreWords(entry: string)
    ensures Aria2Extras(entry) == Words(entry)
    ensures AllSpace(entry) ==> Aria2Extras(entry) == []
  {
    StripEmptyIffSpace(entry);
    WordsEmptyIffSpace(entry);
    if Strip(entry) != "" {
      WordsOfStrip(entry);
    }
  }

  /** The optional middle with aria2c on and off, regrouped around the aria2c span. */
  lemma Aria2Middle(o: DownloadOptions, password: Option<string>)
    ensures var p := CertificateArgs(o.noCheckCertificate) + CookieArgs(o.cookiesFile) + PasswordArgs(password);
            var x := ["--external-downloader", "aria2c"] + Aria2Extras(o.aria2Args);
            && OptionalArgs(o.(useAria2 := true), password) == p + (x + TurboArgs(o.turbo))
            && OptionalArgs(o.(useAria2 := false), password) == p + TurboArgs(o.turbo)
  {
    var c, kk, w := CertificateArgs(o.noCheckCertificate), CookieArgs(o.cookiesFile), PasswordArgs(password);
    var t := TurboArgs(o.turbo);
    var x := ["--external-downloader", "aria2c"] + Aria2Extras(o.aria2Args);
    assert OptionalArgs(o.(useAria2 := true), password) == c + (kk + (w + (x + t)));
    assert OptionalArgs(o.(useAria2 := false), password) == c + (kk + (w + ([] + t)));
    assert [] + t == t;
    AppendAssoc(kk, w, x + t);
    AppendAssoc(c, kk + w, x + t);
    AppendAssoc(kk, w, t);
    AppendAssoc(c, kk + w, t);
    AppendAssoc(c, kk, w);
  }

  /** Turning aria2c on inserts `--external-downloader aria2c` followed by the
      whitespace-split extra arguments after the certificate, cookie and
      password spans, and changes nothing else. */
  lemma Aria2Span(exec: string, o: DownloadOptions, job: Job, join: (string, string) -> string)
    ensures var on := BuildCommand(exec, o.(useAria2 := true), job, join);
            var off := BuildCommand(exec, o.(useAria2 := false), job, join);
            var k := 2 + (if o.noCheckCertificate then 1 else 0) + (if Present(o.cookiesFile) then 2 else 0)
                       + (if Present(job.password) then 2 else 0);
            on == off[..k] + (["--external-downloader", "aria2c"] + Words(o.aria2Args)) + off[k..]
  {
    var p := CertificateArgs(o.noCheckCertificate) + CookieArgs(o.cookiesFile) + PasswordArgs(job.password);
    var x := ["--external-downloader", "aria2c"] + Aria2Extras(o.aria2Args);
    assert x == ["--external-downloader", "aria2c"] + Words(o.aria2Args) by {
      Aria2ExtrasAreWords(o.aria2Args);
    }
    assert |p| == (if o.noCheckCertificate then 1 else 0) + (if Present(o.cookiesFile) then 2 else 0)
                 + (if Present(job.password) then 2 else 0);
    Aria2Middle(o, job.password);
    SpanInserted(exec, o.(useAria2 := true), o.(useAria2 := false), job, job, join, p, x, TurboArgs(o.turbo));
  }

  /** A blank aria2c entry contributes only the two fixed aria2c arguments. */
  lemma Aria2BlankEntry(exec: string, o: DownloadOptions, job: Job, join: (string, string) -> string)
    requires AllSpace(o.aria2Args)
    ensures var on := BuildCommand(exec, o.(useAria2 := true), job, join);
            var off := BuildCommand(exec, o.(useAria2 := false), job, join);
            var k := 2 + (if o.noCheckCertificate then 1 else 0) + (if Present(o.cookiesFile) then 2 else 0)
                       + (if Present(job.password) then 2 else 0);
            on == off[..k] + ["--external-downloader", "aria2c"] + off[k..]
  {
    Aria2Span(exec, o, job, join);
    WordsEmptyIffSpace(o.aria2Args);
    assert ["--external-downloader", "aria2c"] + Words(o.aria2Args) == ["--external-downloader", "aria2c"];
  }

  /** Turbo mode inserts exactly the four turbo arguments immediately before
      the fixed seven-argument tail, and changes nothing else. */
  lemma TurboSpan(exec: string, o: DownloadOptions, job: Job, join: (string, string) -> string)
    ensures var on := BuildCommand(exec, o.(turbo := true), job, join);
            var off := BuildCommand(exec, o.(turbo := false), job, join);
            on == off[..|off| - 7] + ["--concurrent-fragments", "10", "--buffer-size", "16K"] + off[|off| - 7..]
  {
    var on, off := o.(turbo := true), o.(turbo := false);
    var c, kk, w := CertificateArgs(o.noCheckCertificate), CookieArgs(o.cookiesFile), PasswordArgs(job.password);
    var a := Aria2Args(o.useAria2, o.aria2Args);
    var p := c + kk + w + a;
    assert OptionalArgs(on, job.password) == p + (TurboFlags + []) by {
      assert OptionalArgs(on, job.password) == c + (kk + (w + (a + TurboFlags)));
      assert TurboFlags + [] == TurboFlags;
      AppendAssoc(w, a, TurboFlags);
      AppendAssoc(kk, w + a, TurboFlags);
      AppendAssoc(c, kk + w + a, TurboFlags);
      AppendAssoc(kk, w, a);
      AppendAssoc(c, kk + w, a);
      AppendAssoc(c, kk, w);
    }
    assert OptionalArgs(off, job.password) == p + [] by {
      assert OptionalArgs(off, job.password) == c + (kk + (w + (a + [])));
      assert a + [] == a;
      assert p + [] == p;
      AppendAssoc(kk, w, a);
      AppendAssoc(c, kk + w, a);
      AppendAssoc(c, kk, w);
    }
    SpanInserted(exec, on, off, job, job, join, p, TurboFlags, []);
    var cmd := BuildCommand(exec, off, job, join);
    assert |cmd| == 2 + |p| + 7 by {
      CommandParts(exec, off, job, join);
    }
  }

  /** Empty strings behave as absent values: an empty cookie path or an empty
      password adds no arguments. */
  lemma EmptyMeansAbsent(exec: string, o: DownloadOptions, url: string, join: (string, string) -> string)
    ensures BuildCommand(exec, o.(cookiesFile := Some("")), Job(url, None), join)
         == BuildCommand(exec, o.(cookiesFile := None), Job(url, None), join)
    ensures BuildCommand(exec, o, Job(url, Some("")), join) == BuildCommand(exec, o, Job(url, None), join)
  {
  }
}
