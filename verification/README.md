# A Dafny model of the vidar downloader core

vidar is a desktop front end for yt-dlp. Around its widgets and threads sit
four pieces of plain logic, and this project models those four and proves
properties about them:

- **Command assembly** (`Command`). `process_download` turns an options
  snapshot and a job into the yt-dlp argument list. The list is the
  executable and `--newline`, then the optional spans, then a fixed tail:
  - the optional spans, in order: certificate, cookies, video password,
    aria2c with its whitespace-split extras, turbo;
  - the fixed tail: format selector, merge format, output template and
    URL.
  The format selector comes from the seven-entry quality table, with a
  default for unknown keys.
- **URL list parsing** (`UrlList`). `load_urls_from_file` strips each
  line and drops blank ones. It splits the line with
  `re.split(r'\s*[|,;]\s*', line)` and keeps the stripped first piece as
  the URL and the stripped second piece (if non-empty) as the password. A
  line whose URL does not start with `http` in any case is reported as
  skipped. The comment at vidar.py:182 also lists whitespace as a
  delimiter, but the pattern splits only at `|`, `,` and `;`; the model
  follows the pattern.
- **Progress extraction** (`Progress`). `re.search(r'(\d+(?:\.\d+)?)%',
  line)` finds the leftmost number followed by `%`, and that number is
  divided by 100. Values are exact decimal fractions `mantissa / 10^scale`
  instead of floats, and no upper bound applies.
- **Intake and dispatch** (`Dispatch`). `download_videos` enqueues the
  loaded list in file order and clears it, or else enqueues the stripped
  URL entry with the stripped password entry. A blank URL is an error.
  The worker takes jobs first in, first out. Processing a job logs:
  - nothing but an error when no executable is configured;
  - otherwise the command line, every output line (posting any progress
    value found on it) and then a success line, a failure line with the
    exit code, or the exception text.

Python's string behaviour that these rely on lives in `Text`:
- `str.isspace()`, `strip()`, `lstrip()`, `rstrip()`, `split()` and
  `" ".join`;
- decimal digits, `str(int)` and ASCII lowering.

`Wrappers` holds `Option`, and `Jobs` holds the `(url, password)` job.

Inputs that come from outside the core are parameters:
- the text of the entries;
- the lines of the chosen file, or the lines read before a read error
  and the error's text;
- the options snapshot;
- the configured executable (absent when not found);
- `os.path.join`, as a function;
- for each processed job, the subprocess's output lines and either its
  exit code or the text of the exception that ended it.

The state is a record of the download queue, the loaded list, the log
messages in order and the progress values posted.

## Model

| member | source | states |
|---|---|---|
| Command.BuildCommand | vidar.py:277-305 | The command has at least nine arguments. It starts with the executable and `--newline`. Its last seven are `-f`, the selector for the quality key, `--merge-output-format`, the format, `--output`, the joined output template, and the URL last. |
| Command.Selector | vidar.py:277 | The selector is the default `bestvideo+bestaudio/best` exactly when the key is `best` or is not in the table. |
| Command.SelectorInTable | vidar.py:41-49 | Whatever the key, the selector is one of the table's values. |
| Command.SelectorTable | vidar.py:41-49 | Each of the seven known quality keys selects its table entry: `best` the unrestricted selector, `<h>p` the selector capped at height h. |
| Command.SelectorFallback | vidar.py:277 | A key outside the table selects `bestvideo+bestaudio/best`, the same selector as `best`. |
| Command.PlainCommand | vidar.py:280-305 | With every toggle off, and no cookie file or password, the command is exactly the nine fixed arguments. |
| Command.ExecutingLine | vidar.py:306 | The line starts with `Executing: ` and ends with a newline. When every argument is non-empty and free of whitespace, splitting the text between them on whitespace gives back the argument list. |
| Command.ExecutingLineLayout | vidar.py:306 | For any arguments, whitespace included, each argument appears after `Executing: ` at its offset (the lengths of the earlier arguments plus one space each). Each is followed by a single space, and the last one by the newline. |
| Command.SpanInserted | vidar.py:284-305 | Two settings whose optional middles differ by an inserted run give commands that differ by that run, at the same offset after the head. |
| Command.CertificateSpan | vidar.py:284-285 | Turning certificate checking off inserts exactly `--no-check-certificate` right after `--newline` and changes nothing else. |
| Command.CookieSpan | vidar.py:286-287 | A non-empty cookie file inserts exactly `--cookies <file>` after the certificate span and changes nothing else. |
| Command.PasswordSpan | vidar.py:288-289 | A non-empty password inserts exactly `--video-password <pw>` after the certificate and cookie spans and changes nothing else. |
| Command.EmptyMeansAbsent | vidar.py:286-289 | An empty cookie path and an empty password are falsy, so they add no arguments. |
| Command.Aria2ExtrasAreWords | vidar.py:292-294 | Stripping the aria2c entry, testing it and splitting it yields exactly `entry.split()`. An all-whitespace entry yields no arguments. |
| Command.Aria2Span | vidar.py:290-294 | Turning aria2c on inserts `--external-downloader aria2c` followed by the words of the entry, after the certificate, cookie and password spans, and changes nothing else. |
| Command.Aria2BlankEntry | vidar.py:290-294 | With a blank aria2c entry, turning aria2c on inserts only the two fixed aria2c arguments. |
| Command.TurboSpan | vidar.py:296-298 | Turbo mode inserts exactly `--concurrent-fragments 10 --buffer-size 16K` immediately before the seven-argument tail and changes nothing else. |
| Text.Strip | vidar.py:179 | The result has no whitespace at either end. It is a contiguous slice of the input, and everything cut away on either side is whitespace. |
| Text.StripUnique | vidar.py:179 | Whatever lies between whitespace padding is exactly what `strip()` keeps, if it has no whitespace at its ends. |
| Text.StripPadded | vidar.py:184 | Adding whitespace on either side does not change the result of `strip()`. |
| Text.StripEmptyIffSpace | vidar.py:179-181 | A stripped line is empty exactly when the line is all whitespace. |
| Text.WordsAreWords | vidar.py:294 | Every piece of `split()` is non-empty and free of whitespace. |
| Text.WordsOfStrip | vidar.py:292-294 | Splitting the stripped text gives the same words as splitting the raw text. |
| Text.WordsEmptyIffSpace | vidar.py:293-294 | `split()` yields no words exactly when the text is all whitespace. |
| Text.WordsOfJoin | vidar.py:294 | Joining whitespace-free, non-empty words with spaces and splitting again gives back the words. |
| Text.WordsSepJoin | vidar.py:294 | For any non-empty all-whitespace separator, `split()` of a word, the separator and further text is the word followed by the split of the text: runs of whitespace of any length and kind separate exactly like one space. |
| Text.JoinLayout | vidar.py:306 | In `sep.join(parts)`, part `k` starts at the summed lengths of the earlier parts and separators. A separator follows each part but the last, and the last part ends the text. |
| Text.NatToString | vidar.py:191-193 | The count is written as canonical decimal digits (no leading zero) that read back as the count. |
| Text.IntToString | vidar.py:324 | The exit code is written in decimal, with a leading `-` when it is negative, and its digits read back as its magnitude. The digits are canonical: no leading zero except for `0` itself, and a negative code never shows `-0`. |
| Text.DigitsValueConcat | vidar.py:316 | Reading two digit strings as one numeral shifts the first left by the length of the second. |
| UrlList.FirstDelimiter | vidar.py:183 | Gives the position of the leftmost `\|`, `,` or `;`, with none before it. When absent, the line has none. |
| UrlList.FirstDelimiterAt | vidar.py:183 | A delimiter with no delimiter before it is the first delimiter. |
| UrlList.RegexSplit | vidar.py:183 | The split has at least one piece, and no piece contains a delimiter. |
| UrlList.RegexSplitFirst | vidar.py:183-184 | The stripped first piece is the stripped text before the first delimiter. |
| UrlList.RegexSplitSecond | vidar.py:183-185 | There is a second piece exactly when the line has a delimiter. Stripped, it is the stripped text between the first delimiter and the next one (or the end of the line). |
| UrlList.HttpPrefixCaseInsensitive | vidar.py:187 | `url.lower().startswith("http")` holds exactly when the first four characters are h, t, t, p in either case. |
| UrlList.ParseLine | vidar.py:179-190 | A line is dropped exactly when it is all whitespace. A skipped line is reported as the non-empty stripped line. An accepted job's URL is non-empty, trimmed and starts with `http` in any case; its password, when present, is non-empty and trimmed. |
| UrlList.ParseLineFields | vidar.py:179-190 | A line is dropped exactly when it is all whitespace. Otherwise it is accepted exactly when its URL (the stripped text before the first delimiter) starts with `http` in any case. The accepted job's password is the stripped second field, absent when missing or empty. A rejected line is reported with its stripped text. |
| UrlList.ParseLineWellFormed | vidar.py:183-188 | An accepted job's URL starts with `http`, has no whitespace at its ends and holds no delimiter. A password, when present, is non-empty, trimmed and free of delimiters. |
| UrlList.LoadStep | vidar.py:180-190 | One line extends the jobs and the log without changing what was there. A blank line adds nothing. Any other line adds exactly one entry: an accepted line its job at the end of the jobs, a skipped line its skip message at the end of the log. |
| UrlList.LoadedMessage | vidar.py:191-193 | The whole summary is pinned. It starts with `Loaded `, then the count's decimal digits (read back as the count), a space and `URL`. A plural `s` follows exactly when the count is not 1, then ` from file.` and a newline. Its length is 23 plus the number of digits plus the plural letter, so nothing else is in it. |
| UrlList.ParseLines | vidar.py:178-190 | Each line gives at most one job or one skip message, and every job read is well formed. |
| UrlList.ParseLinesAppend | vidar.py:178-190 | Reading `a + b` is reading `a`, then `b`: jobs and skip messages keep file order. |
| UrlList.ParseBareLine | vidar.py:183-190 | A trimmed line without delimiter is a job with no password when it starts with `http`, and is skipped otherwise. |
| UrlList.ParsePasswordLine | vidar.py:183-188 | A trimmed `url\|pw` line gives the job `(url, pw)`. |
| UrlList.ExampleLineA | vidar.py:183-188 | `http://a.com\|pw1` gives the job `(http://a.com, pw1)`. |
| UrlList.ExampleLineB | vidar.py:183-188 | `http://b.com` gives a job with no password. |
| UrlList.ExampleLineC | vidar.py:187-190 | `ftp://bad.com` is skipped with its text. |
| UrlList.ExampleFile | vidar.py:178-190 | The file `http://a.com\|pw1`, `http://b.com`, `ftp://bad.com` gives the jobs `(http://a.com, pw1)` and `(http://b.com, none)` in that order, and one skip message for `ftp://bad.com`. |
| Progress.MatchAt | vidar.py:313 | What the matcher returns at a position is a match of the pattern there. |
| Progress.MatchAtComplete | vidar.py:313 | Every match of the pattern at a position is what the matcher returns there. |
| Progress.MatchUnique | vidar.py:313 | At most one group matches at a position, so backtracking order cannot change the result. |
| Progress.Search | vidar.py:313 | The result is a match, with no match at any earlier position. When there is no result, nothing matches from the start position on. |
| Progress.ParseProgressLeftmost | vidar.py:313-317 | The reported value is that of the leftmost match. |
| Progress.ParseProgress | vidar.py:313-316 | A line reports no progress exactly when the pattern matches nowhere in it. |
| Progress.NoPercentNoProgress | vidar.py:313-314 | A line without `%` reports no progress. |
| Progress.NumeralValueMeaning | vidar.py:316 | The value is (whole part times `10^f` plus the f fraction digits) over `10^(f+2)`, that is the number divided by 100. |
| Progress.WholePercent | vidar.py:316 | A whole number `p` of percent is worth `p / 100`. |
| Progress.PercentAfterPlainText | vidar.py:313-317 | A number followed by `%`, with no digit before it, reports that number over 100. |
| Progress.ExampleValue | vidar.py:316 | The group `37.2` is worth 372/1000. |
| Progress.ExampleDownloadLine | vidar.py:313-317 | `[download]  37.2% of 10.00MiB` reports 372/1000. |
| Progress.ExampleComplete | vidar.py:313-317 | `100% done` reports exactly 1. |
| Progress.ExampleOverHundred | vidar.py:313-317 | `250%` reports 2.5: no upper bound is applied. |
| Progress.ExampleBacktrack | vidar.py:313-317 | In `v1.5.3%` the search passes over `1.5` and reports `5.3%`, that is 53/1000. |
| Dispatch.Enqueue | vidar.py:256-258 | The job goes to the back of the queue and one `Enqueued:` line is logged. Nothing else changes. |
| Dispatch.EnqueueAll | vidar.py:244-245 | The jobs are appended to the queue in order, with one `Enqueued:` line each, in the same order. |
| Dispatch.PasswordEntry | vidar.py:250 | The password is absent exactly when the entry is all whitespace. Otherwise it is the stripped entry. |
| Dispatch.DownloadVideos | vidar.py:241-254 | A loaded list is enqueued in file order, logged and cleared. Otherwise a blank URL entry logs `ERROR: URL is required!` and enqueues nothing. A non-blank one enqueues the stripped URL with the entered password. |
| Dispatch.LoadUrlsFromFile | vidar.py:172-195 | A cancelled pick changes nothing. A read file replaces the loaded list with its jobs and logs the skip messages, then the count. A failed read keeps the jobs from the lines before the failure and logs the error. The queue is never touched. |
| Dispatch.LoadThenClick | vidar.py:241-247 | The click after a successful load puts the file's jobs on the queue, in file order, and empties the loaded list. |
| Dispatch.LoadNothingThenClick | vidar.py:243-254 | After a load that yields no job, the click enqueues the URL entry. |
| Dispatch.PostLine | vidar.py:311-317 | An output line is logged as is, and its progress value, if any, is posted. |
| Dispatch.StreamOutput | vidar.py:311-319 | All output lines are logged in order, and the progress values of those that have one are posted in order. |
| Dispatch.ProgressOf | vidar.py:311-317 | At most one progress value per output line. Nothing is posted exactly when no output line contains a progress match (a number followed by `%`). |
| Dispatch.ProgressOfAppend | vidar.py:311-317 | The progress posted for `a + b` is that posted for `a`, then for `b`. |
| Dispatch.ProgressOfNoPercent | vidar.py:311-317 | Output with no `%` posts no progress. |
| Dispatch.ProcessDownload | vidar.py:272-326 | Without an executable, only the not-configured error is logged and no progress is posted. Otherwise the log gets the `Executing:` line for the built command, every output line, then the outcome line. The progress of the output is posted. |
| Dispatch.FinalLine | vidar.py:320-326 | The outcome line ends with a newline. It starts with a check mark exactly for exit code 0, with a cross exactly for any other exit code, and with `E` exactly when an exception was raised. A raised exception gives `ERROR: Download error: ` followed by the exception's message. |
| Dispatch.OutcomeReported | vidar.py:320-326 | The last line reports success exactly for exit code 0, and is an error line exactly when an exception was raised. Any other exit code gives the failure line carrying that code. A raised exception gives the error line `ERROR: Download error: ` followed by its message. |
| Dispatch.NotConfiguredStartsNothing | vidar.py:272-275 | With no executable, the front job is taken, one error is logged and no progress is posted. |
| Dispatch.WorkerStep | vidar.py:263-275 | An empty queue changes nothing. Otherwise the front job is taken, the rest of the queue is kept in order, and the taken job is processed. Without an executable only the not-configured error is logged. With one, the log gets the `Executing:` line for that job's command, the output lines and the outcome line, and the output's progress is posted. |
| Dispatch.Step | vidar.py:241-268 | For one event, the queue before it plus the jobs it enqueued equals the jobs it took plus the queue after it. At most one job is taken. |
| Dispatch.Run | vidar.py:256-268 | The same balance holds over any sequence of events. |
| Dispatch.RunFifo | vidar.py:256-268 | Over any run, the jobs taken are a prefix of the waiting jobs followed by the enqueued ones, in order, and the final queue is the rest. |

## Left out

- The widgets, tabs, `messagebox` and `filedialog` are left out because they are user interface. `show_error` is modelled by the `ERROR:` log line it posts. The loaded-count label text is not modelled.
- Threads, `queue.Queue` blocking and time-outs, the `running` flag and the 100 ms `process_queues` polling loop are left out because they are concurrency. Events are applied one at a time, and the log is the sequence of messages in the order they were posted.
- The progress bar and its `int(prog * 100)` label are display formatting, so they are not modelled.
- Starting yt-dlp and reading its output are I/O. The output lines and the exit code, or the exception text, are inputs.
- The start-up version check and `get_executable` are OS lookups. The configured executable is an input, absent when none was found.
- Opening the file and decoding it as UTF-8 are I/O. The model takes the lines read, or the lines read before a read error together with that error's text.
- `os.path.join` is an abstract function parameter.
- The option handlers are left out; the model takes the options in force when a job starts as a snapshot. The handlers would add these effects, none of which the core reads back:
  - `toggle_ssl` flips a flag.
  - `toggle_turbo` flips a flag and logs `Turbo Mode enabled.` or `Turbo Mode disabled.` (vidar.py:161-164).
  - `select_cookie_file` sets the cookie path and logs `Cookie file selected: <path>` (vidar.py:166-170).
  - `toggle_aria2` turns aria2c off again, with an `aria2c executable not found!` error, when aria2c cannot be found (vidar.py:197-201). That is an OS lookup.
  - `browse_output_directory` sets the directory and creates it on disk (vidar.py:206-211). That is I/O.
- `process_download` stores the stripped aria2c entry in `self.aria2_args` (vidar.py:292). Nothing in the core reads it back, so only the arguments built from it are modelled.
- The `ValueError` branch around `float(...)` (vidar.py:318-319) is not modelled because a matched group always converts.
- Progress.Search: `\d` is taken to be the ASCII digits 0-9. Python's `re` also accepts other Unicode decimal digits, which the model does not read.
- UrlList.HasHttpPrefix: only ASCII letters are lowered. No other character lowers to `h`, `t` or `p`, so the test gives the same answer.
