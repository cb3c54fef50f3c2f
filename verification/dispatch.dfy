/** Job intake and dispatch: the button handler that enqueues jobs, the URL
    file loader, the worker that takes jobs from the queue one at a time,
    and the log and progress messages they post. The UI widgets, threads
    and the subprocess are inputs: a click carries the entry texts, a file
    pick carries the lines read, a worker step carries what the subprocess
    printed and how it ended. */
module Dispatch {
  import opened Wrappers
  import opened Text
  import opened Jobs
  import opened Command
  import opened UrlList
  import opened Progress

  /** The state the core touches: the download queue (front first), the
      jobs loaded from a file, the log messages in order, and the progress
      values posted to the progress queue. */
  datatype App = App(queue: seq<Job>, loaded: seq<Job>, logs: seq<string>, progress: seq<Fraction>)

  /** The log message `show_error` posts (the message box is not modelled). */
  function ErrorLine(message: string): string
  {
    "ERROR: " + message + "\n"
  }

  function ShowError(app: App, message: string): App
  {
    app.(logs := app.logs + [ErrorLine(message)])
  }

  // ---------------------------------------------------------------------
  // Intake

  function EnqueuedLine(url: string): string
  {
    "Enqueued: " + url + "\n"
  }

  /** The log lines for enqueuing `jobs`, one per job. */
  function EnqueuedLines(jobs: seq<Job>): (lines: seq<string>)
    ensures |lines| == |jobs|
    ensures forall i :: 0 <= i < |jobs| ==> lines[i] == EnqueuedLine(jobs[i].url)
  {
    seq(|jobs|, i requires 0 <= i < |jobs| => EnqueuedLine(jobs[i].url))
  }

  /** `enqueue_download`: the job goes to the back of the queue and is logged. */
  function Enqueue(app: App, job: Job): (r: App)
    ensures r.queue == app.queue + [job]
    ensures r.logs == app.logs + [EnqueuedLine(job.url)]
    ensures r.loaded == app.loaded && r.progress == app.progress
  {
    app.(queue := app.queue + [job], logs := app.logs + [EnqueuedLine(job.url)])
  }

  /** The loop over the loaded list in `download_videos`. */
  function EnqueueAll(app: App, jobs: seq<Job>): (r: App)
    ensures r.queue == app.queue + jobs
    ensures r.logs == app.logs + EnqueuedLines(jobs)
    ensures r.loaded == app.loaded && r.progress == app.progress
  {
    if jobs == [] then app
    else
      var prev := EnqueueAll(app, jobs[..|jobs| - 1]);
      var last := jobs[|jobs| - 1];
      assert jobs == jobs[..|jobs| - 1] + [last];
      assert EnqueuedLines(jobs) == EnqueuedLines(jobs[..|jobs| - 1]) + [EnqueuedLine(last.url)];
      Enqueue(prev, last)
  }

  /** The password entry: stripped, and no password when nothing is left. */
  function PasswordEntry(entry: string): (p: Option<string>)
    ensures p.None? <==> AllSpace(entry)
    ensures p.Some? ==> p.value == Strip(entry) && IsTrimmed(p.value)
  {
    StripEmptyIffSpace(entry);
    var p := Strip(entry);
    if p != "" then Some(p) else None
  }

  /** `download_videos`: a loaded list is enqueued in order and cleared;
      otherwise the URL entry is stripped and enqueued with the password
      entry, or an error is logged when the URL is blank. */
  function DownloadVideos(app: App, urlEntry: string, passwordEntry: string): (r: App)
    ensures r.progress == app.progress
    ensures app.loaded != [] ==>
      && r.queue == app.queue + app.loaded
      && r.loaded == []
      && r.logs == app.logs + EnqueuedLines(app.loaded)
    ensures app.loaded == [] && AllSpace(urlEntry) ==>
      && r.queue == app.queue
      && r.loaded == []
      && r.logs == app.logs + [ErrorLine("URL is required!")]
    ensures app.loaded == [] && !AllSpace(urlEntry) ==>
      var job := Job(Strip(urlEntry), PasswordEntry(passwordEntry));
      && r.queue == app.queue + [job]
      && r.loaded == []
      && r.logs == app.logs + [EnqueuedLine(job.url)]
      && IsTrimmed(job.url) && job.url != ""
  {
    if app.loaded != [] then
      EnqueueAll(app, app.loaded).(loaded := [])
    else
      StripEmptyIffSpace(urlEntry);
      var url := Strip(urlEntry);
      var password := PasswordEntry(passwordEntry);
      if url == "" then ShowError(app, "URL is required!")
      else Enqueue(app, Job(url, password))
  }

  // ---------------------------------------------------------------------
  // Loading a URL file

  /** What the file dialog and the read produce: no file chosen, every line
      of the file, or the lines read before reading raised an error (none
      when the file could not be opened) with the error's text. */
  datatype FilePick = Cancelled | Read(lines: seq<string>) | ReadFailed(linesBefore: seq<string>, message: string)

  /** `load_urls_from_file`. The loaded list is cleared before reading, so a
      failed read leaves the jobs from the lines before the failure. */
  function LoadUrlsFromFile(app: App, pick: FilePick): (r: App)
    ensures pick.Cancelled? ==> r == app
    ensures r.queue == app.queue && r.progress == app.progress
    ensures pick.Read? ==>
      var p := ParseLines(pick.lines);
      && r.loaded == p.jobs
      && r.logs == app.logs + p.log + [LoadedMessage(|p.jobs|)]
    ensures pick.ReadFailed? ==>
      var p := ParseLines(pick.linesBefore);
      && r.loaded == p.jobs
      && r.logs == app.logs + p.log + [ErrorLine("Failed to load URLs: " + pick.message)]
  {
    match pick
    case Cancelled => app
    case Read(lines) =>
      var p := ParseLines(lines);
      app.(loaded := p.jobs, logs := app.logs + p.log + [LoadedMessage(|p.jobs|)])
    case ReadFailed(lines, message) =>
      var p := ParseLines(lines);
      ShowError(app.(loaded := p.jobs, logs := app.logs + p.log), "Failed to load URLs: " + message)
  }

  // ---------------------------------------------------------------------
  // Processing one job

  /** What running yt-dlp produced: the output lines, then either the exit
      code or the text of the exception that ended the run. */
  datatype ProcessResult = Exited(output: seq<string>, code: int) | Raised(output: seq<string>, message: string)

  /** The progress values of `lines`, in order: one per line whose text
      contains a match. */
  function ProgressOf(lines: seq<string>): (ps: seq<Fraction>)
    ensures |ps| <= |lines|
    ensures ps == [] <==> forall i :: 0 <= i < |lines| ==> ParseProgress(lines[i]).None?
  {
    if lines == [] then []
    else
      var init := lines[..|lines| - 1];
      assert forall i :: 0 <= i < |init| ==> init[i] == lines[i];
      var rest := ProgressOf(init);
      match ParseProgress(lines[|lines| - 1])
      case None => rest
      case Some(v) => rest + [v]
  }

  /** One line of output: logged as it is, and its progress value posted
      when it has one. */
  function PostLine(app: App, line: string): (r: App)
    ensures r.queue == app.queue && r.loaded == app.loaded
    ensures r.logs == app.logs + [line]
    ensures r.progress == app.progress + ProgressOf([line])
  {
    assert [line][..0] == [];
    match ParseProgress(line)
    case None => app.(logs := app.logs + [line])
    case Some(v) => app.(logs := app.logs + [line], progress := app.progress + [v])
  }

  /** The loop over the subprocess output, first line first. */
  function StreamOutput(app: App, lines: seq<string>): (r: App)
    ensures r.queue == app.queue && r.loaded == app.loaded
    ensures r.logs == app.logs + lines
    ensures r.progress == app.progress + ProgressOf(lines)
    decreases |lines|
  {
    if lines == [] then app
    else
      var next := PostLine(app, lines[0]);
      var r := StreamOutput(next, lines[1..]);
      assert lines == [lines[0]] + lines[1..];
      ProgressOfAppend([lines[0]], lines[1..]);
      AppendAssoc(app.logs, [lines[0]], lines[1..]);
      AppendAssoc(app.progress, ProgressOf([lines[0]]), ProgressOf(lines[1..]));
      r
  }

  const NotConfiguredLine: string := ErrorLine("yt-dlp executable not configured!")

  function SucceededLine(url: string): string
  {
    "\U{2705} Download succeeded: " + url + "\n"
  }

  function FailedLine(url: string, code: int): string
  {
    "\U{274C} Download failed: " + url + " (Code: " + IntToString(code) + ")\n"
  }

  /** The last message of a run that got as far as starting the command: a
      check mark for exit code 0, a cross for any other code, an error line
      when the run raised. */
  function FinalLine(url: string, result: ProcessResult): (r: string)
    ensures |r| > 0 && r[|r| - 1] == '\n'
    ensures r[0] == '\U{2705}' <==> result.Exited? && result.code == 0
    ensures r[0] == '\U{274C}' <==> result.Exited? && result.code != 0
    ensures r[0] == 'E' <==> result.Raised?
    ensures result.Raised? ==>
      |r| >= 7 && r[..7] == "ERROR: " && r == ErrorLine("Download error: " + result.message)
  {
    match result
    case Exited(_, code) => if code == 0 then SucceededLine(url) else FailedLine(url, code)
    case Raised(_, message) => ErrorLine("Download error: " + message)
  }

  /** `process_download`: without an executable only an error is logged;
      otherwise the command line, every output line, and the outcome. */
  function ProcessDownload(app: App, exec: Option<string>, o: DownloadOptions, job: Job,
                           join: (string, string) -> string, result: ProcessResult): (r: App)
    ensures r.queue == app.queue && r.loaded == app.loaded
    ensures !Present(exec) ==> r.logs == app.logs + [NotConfiguredLine] && r.progress == app.progress
    ensures Present(exec) ==>
      && r.logs == app.logs + [ExecutingLine(BuildCommand(exec.value, o, job, join))]
                            + result.output + [FinalLine(job.url, result)]
      && r.progress == app.progress + ProgressOf(result.output)
  {
    if !Present(exec) then ShowError(app, "yt-dlp executable not configured!")
    else
      var started := app.(logs := app.logs + [ExecutingLine(BuildCommand(exec.value, o, job, join))]);
      var streamed := StreamOutput(started, result.output);
      streamed.(logs := streamed.logs + [FinalLine(job.url, result)])
  }

  /** One turn of `process_queue`: an empty queue is waited on and nothing
      changes; otherwise the front job is taken and processed. */
  function WorkerStep(app: App, exec: Option<string>, o: DownloadOptions,
                      join: (string, string) -> string, result: ProcessResult): (r: (App, Option<Job>))
    ensures r.1.None? <==> app.queue == []
    ensures r.1.None? ==> r.0 == app
    ensures r.1.Some? ==> app.queue == [r.1.value] + r.0.queue && r.0.loaded == app.loaded
    ensures r.1.Some? && !Present(exec) ==>
      r.0.logs == app.logs + [NotConfiguredLine] && r.0.progress == app.progress
    ensures r.1.Some? && Present(exec) ==>
      && r.0.logs == app.logs + [ExecutingLine(BuildCommand(exec.value, o, r.1.value, join))]
                              + result.output + [FinalLine(r.1.value.url, result)]
      && r.0.progress == app.progress + ProgressOf(result.output)
  {
    if app.queue == [] then (app, None)
    else
      var job := app.queue[0];
      assert app.queue == [job] + app.queue[1..];
      (ProcessDownload(app.(queue := app.queue[1..]), exec, o, job, join, result), Some(job))
  }

  // ---------------------------------------------------------------------
  // Runs of events

  /** The events the core reacts to, with their inputs. */
  datatype Action =
    | Click(urlEntry: string, passwordEntry: string)
    | Load(pick: FilePick)
    | Work(exec: Option<string>, options: DownloadOptions, result: ProcessResult)

  /** The jobs a click enqueues. */
  function ClickJobs(app: App, urlEntry: string, passwordEntry: string): seq<Job>
  {
    if app.loaded != [] then app.loaded
    else if AllSpace(urlEntry) then []
    else [Job(Strip(urlEntry), PasswordEntry(passwordEntry))]
  }

  /** One event: the new state, the jobs it put on the queue and the jobs
      it took off. */
  function Step(app: App, act: Action, join: (string, string) -> string): (r: (App, seq<Job>, seq<Job>))
    ensures app.queue + r.1 == r.2 + r.0.queue
    ensures |r.2| <= 1
  {
    match act
    case Click(u, p) => (DownloadVideos(app, u, p), ClickJobs(app, u, p), [])
    case Load(pick) => (LoadUrlsFromFile(app, pick), [], [])
    case Work(exec, o, result) =>
      var (next, taken) := WorkerStep(app, exec, o, join, result);
      if taken.None? then (next, [], []) else (next, [], [taken.value])
  }

  /** A sequence of events, first to last: the final state, every job
      enqueued and every job taken, each in order. The queue is first in,
      first out: the jobs taken followed by the jobs still waiting are the
      jobs that were waiting followed by the jobs enqueued. */
  function Run(app: App, acts: seq<Action>, join: (string, string) -> string): (r: (App, seq<Job>, seq<Job>))
    ensures app.queue + r.1 == r.2 + r.0.queue
    decreases |acts|
  {
    if acts == [] then (app, [], [])
    else
      var first := Step(app, acts[0], join);
      var rest := Run(first.0, acts[1..], join);
      QueueCompose(app.queue, first.1, first.2, first.0.queue, rest.1, rest.2, rest.0.queue);
      (rest.0, first.1 + rest.1, first.2 + rest.2)
  }

  /** Two FIFO stretches make one. */
  lemma QueueCompose(q: seq<Job>, e1: seq<Job>, t1: seq<Job>, m: seq<Job>, e2: seq<Job>, t2: seq<Job>, f: seq<Job>)
    requires q + e1 == t1 + m
    requires m + e2 == t2 + f
    ensures q + (e1 + e2) == (t1 + t2) + f
  {
    calc {
      q + (e1 + e2);
      (q + e1) + e2;
      (t1 + m) + e2;
      t1 + (m + e2);
      t1 + (t2 + f);
      (t1 + t2) + f;
    }
  }

  // ---------------------------------------------------------------------
  // Properties

  lemma {:induction false} ProgressOfAppend(a: seq<string>, b: seq<string>)
    ensures ProgressOf(a + b) == ProgressOf(a) + ProgressOf(b)
    decreases |b|
  {
    if b == [] {
      assert a + b == a;
    } else {
      var b' := b[..|b| - 1];
      assert (a + b)[..|a + b| - 1] == a + b';
      assert (a + b)[|a + b| - 1] == b[|b| - 1];
      ProgressOfAppend(a, b');
    }
  }

  /** Output without `%` posts no progress. */
  lemma ProgressOfNoPercent(lines: seq<string>)
    requires forall i, k :: 0 <= i < |lines| && 0 <= k < |lines[i]| ==> lines[i][k] != '%'
    ensures ProgressOf(lines) == []
  {
    forall i | 0 <= i < |lines| ensures ParseProgress(lines[i]).None? {
      NoPercentNoProgress(lines[i]);
    }
  }

  /** The queue is first in, first out over any run: the jobs taken are a
      prefix of the waiting jobs followed by the enqueued ones, and what
      remains is the rest. */
  lemma RunFifo(app: App, acts: seq<Action>, join: (string, string) -> string)
    ensures var (last, enqueued, taken) := Run(app, acts, join);
      && |taken| <= |app.queue + enqueued|
      && taken == (app.queue + enqueued)[..|taken|]
      && last.queue == (app.queue + enqueued)[|taken|..]
  {
    var (last, enqueued, taken) := Run(app, acts, join);
    assert app.queue + enqueued == taken + last.queue;
  }

  /** A job loaded from a file reaches the queue with the next click, in
      file order and with nothing else; the loaded list is then empty, so
      the click after that reads the entries again. */
  lemma LoadThenClick(app: App, lines: seq<string>, urlEntry: string, passwordEntry: string)
    requires ParseLines(lines).jobs != []
    ensures var r := DownloadVideos(LoadUrlsFromFile(app, Read(lines)), urlEntry, passwordEntry);
      && r.queue == app.queue + ParseLines(lines).jobs
      && r.loaded == []
  {
  }

  /** A file with no valid URL leaves nothing loaded, so the click that
      follows uses the URL entry. */
  lemma LoadNothingThenClick(app: App, lines: seq<string>, urlEntry: string, passwordEntry: string)
    requires ParseLines(lines).jobs == []
    requires !AllSpace(urlEntry)
    ensures DownloadVideos(LoadUrlsFromFile(app, Read(lines)), urlEntry, passwordEntry).queue
      == app.queue + [Job(Strip(urlEntry), PasswordEntry(passwordEntry))]
  {
  }

  /** The last log line of a started run reports success exactly when the
      process exited with code 0, an error exactly when it raised, and
      otherwise the failure with the exit code in decimal. */
  lemma OutcomeReported(app: App, exec: Option<string>, o: DownloadOptions, job: Job,
                        join: (string, string) -> string, result: ProcessResult)
    requires Present(exec)
    ensures var logs := ProcessDownload(app, exec, o, job, join, result).logs;
      && |logs| > 0
      && (logs[|logs| - 1] == SucceededLine(job.url) <==> result.Exited? && result.code == 0)
      && (logs[|logs| - 1][0] == 'E' <==> result.Raised?)
      && (result.Exited? && result.code != 0 ==> logs[|logs| - 1] == FailedLine(job.url, result.code))
      && (result.Raised? ==> logs[|logs| - 1] == ErrorLine("Download error: " + result.message))
  {
    var logs := ProcessDownload(app, exec, o, job, join, result).logs;
    var last := FinalLine(job.url, result);
    assert logs[|logs| - 1] == last;
    assert SucceededLine(job.url)[0] == '\U{2705}';
    assert FailedLine(job.url, 0)[0] == '\U{274C}';
    match result
    case Exited(_, code) =>
      if code != 0 {
        assert last[0] == '\U{274C}';
      }
    case Raised(_, message) =>
      assert last[0] == 'E';
  }

  /** A worker with no executable configured logs one error, starts
      nothing and posts no progress, whatever the job. */
  lemma NotConfiguredStartsNothing(app: App, o: DownloadOptions, join: (string, string) -> string,
                                   result: ProcessResult)
    requires app.queue != []
    ensures var (r, taken) := WorkerStep(app, None, o, join, result);
      && taken == Some(app.queue[0])
      && r.logs == app.logs + [NotConfiguredLine]
      && r.progress == app.progress
  {
  }
}
