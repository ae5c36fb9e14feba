# Just Download backend: a Dafny model

This project models the sequential core of the Just Download download
backend (`backend/main.py`), a FastAPI service that runs yt-dlp for its
users. The model covers four parts:

- **The task registry.** A `Manager` class holds the tasks by id and
  remembers the dictionary's insertion order. Its methods are the state
  changes the REST endpoints make:
  - start, with its limit of 20 pending or downloading tasks;
  - status lookup;
  - pause, cancel and resume;
  - clearing completed or canceled tasks.
- **The yt-dlp command line.** The sanitised output template, the
  resolution sort key and the format selection.
- **Reading yt-dlp's output.** The progress, speed and ETA of `[download]`
  lines; the file name from `Destination:` and `Merging formats into`
  lines; the pause and cancel checks after every line; the glob fallback;
  and the final completed-or-error decision.
- **The no-cache middleware.** It marks responses to `/api/` paths as not
  cacheable.

Modules, one per part, plus two helpers:

| file | module | contents |
|---|---|---|
| `wrappers.dfy` | `Wrappers` | `Option`, `Result` |
| `strings.dfy` | `Strings` | the Python `str` operations used: `find`, `split`, `strip`, `os.path.basename`, `lower`, `int`, `str`, `float` |
| `tasks.dfy` | `Tasks` | the task record, its status and control flag, the status view, the invariant `Sound` |
| `registry.dfy` | `Registry` | the `Manager` class and the endpoint state changes |
| `command.dfy` | `Command` | the yt-dlp command line |
| `ytdlp_output.dfy` | `YtdlpOutput` | output-line interpretation, the run loop, finalisation |
| `api_headers.dfy` | `ApiHeaders` | the `/api/` no-cache rule |

How the model represents things:

- A task is a datatype record. The registry stores it in a map, and every
  change the source makes under `task.lock` overwrites the stored record.
- The `YtdlpOutput` functions say what one output line, the line loop and
  the final block do to a record. The `Manager` methods `BeginRun`,
  `ReadLine`, `FailRun` and `SettleRun` apply those steps to the task
  stored in the registry, and `RunWorker` chains them into one whole
  uninterrupted run.
- The line loop and the whole run therefore appear twice, on purpose.
  `YtdlpOutput.FollowOutput` and `YtdlpOutput.RunYtdlp` are the worker
  seen on its own task record, as the source's `run_ytdlp` is written.
  `Registry.Manager.FollowLines` and `Registry.Manager.RunWorker` are the
  same steps written into the shared registry one at a time, where the
  endpoints can see them. Both pairs are proved equal to the same
  functions, `Consume` and `RunOutcome`, so they cannot drift apart.
- Each endpoint and each worker step is one atomic step.
- The invariant `Tasks.Sound` says three things about a task. Its progress
  lies in [0, 1]. Its file name is a bare name with no `/`. Its download
  url is always `/downloads/` followed by that name. The registry keeps
  `Sound` as part of `Manager.Valid`, and `YtdlpOutput.RunSettles` shows
  that a yt-dlp run keeps it too.

Inputs from the outside world become parameters:

- The fresh id of a new task (uuid4 in the source).
- The page title yt-dlp reports for the url.
- The resolved yt-dlp executable (`base`) and the download directory.
- The exception message when the subprocess fails to start.
- The subprocess's output lines.
- The sorted glob matches.
- The current time as a string.

Some behaviour follows directly from the code and is stated by the
contracts:

- Resume does not check the admission limit. `Registry.Manager.Resume`
  states the active count afterwards, and it can exceed 20.
- Resuming a task whose category is neither video, audio nor image sets it
  to `downloading` and starts no worker (`Registry.RunnerFor`). Such a
  task keeps its admission slot until it is paused or canceled.
- When a run ends without a file name, the final block still sets
  `progress = 1.0` and `downloaded_at`. It then sets the status to
  `error`, because the outer block of the two nested blocks runs first.
  `YtdlpOutput.Finalise` states this.
- The final block reads the clock twice (lines 322 and 330). The model
  passes one time string `now` for both reads.
- The ETA pattern `ETA\s*(\d+):(\d+)` reads only the first two numbers.
  An ETA printed as `h:mm:ss` is therefore stored as h*60+mm seconds.
  `YtdlpOutput.EtaAt` reads it the same way. This follows from the
  pattern alone; nothing was executed.

## Model

| member | source | states |
|---|---|---|
| `Tasks.NewTask` | backend/main.py:50-66 | a new task copies id, url, category, fmt and quality from the request and starts `pending`, with progress 0, no control flag, every optional field unset, and `Sound` |
| `Tasks.ToStatus` | backend/main.py:70-86 | the status view copies every field of the task: id, url, format, quality, progress, title, file name, download url, message, speed, ETA and download time; the status is reported by its API name |
| `Tasks.StatusNameInjective` | backend/main.py:29 | two statuses report the same API string exactly when they are the same status |
| `Registry.ActiveCount` | backend/main.py:427 | the number of pending or downloading tasks never exceeds the number of tasks listed |
| `Registry.ActiveCountCountsIds` | backend/main.py:427 | over a list of distinct ids the count is the size of the set of listed ids whose task is pending or downloading |
| `Registry.ActiveCountCountsActive` | backend/main.py:427 | the count the admission check uses equals the number of pending or downloading tasks in the registry, as the source's list comprehension over `tasks.values()` counts them |
| `Registry.ActiveCountInsert` | backend/main.py:430-432 | adding a task under a new id raises the active count by exactly that task's own slot |
| `Registry.ActiveCountUpdate` | backend/main.py:475-502 | overwriting one task changes the active count by the change in that task's slot alone, so paused and canceled tasks hold no slot |
| `Registry.IdsWithStatus` | backend/main.py:103 | the ids collected for deletion are exactly the listed ids whose task has the given status, without repetition |
| `Registry.Without` | backend/main.py:104-105 | removing a set of ids keeps exactly the other ids, without repetition |
| `Registry.WithoutKeepsOrder` | backend/main.py:104-105 | the ids that remain keep their relative order: any two of them appear in the result in the order they had before |
| `Registry.ClearKeepsActiveCount` | backend/main.py:102-110 | clearing completed or canceled tasks leaves the active count unchanged |
| `Registry.WithTitle` | backend/main.py:435-438 | the fetched title is recorded only when it is present and non-empty, and nothing else changes |
| `Registry.RunnerFor` | backend/main.py:440-448 | video and audio get yt-dlp and image the HTTP worker, whether starting or resuming; any other category gets the failing runner when starting and no runner at all when resuming (lines 504-508) |
| `Registry.Manager.Get` | backend/main.py:93-96 | the lookup succeeds exactly for a known id and returns the task stored under it, whose id is that id; otherwise it is the KeyError |
| `Registry.Manager.All` | backend/main.py:98-99 | one status per task, in insertion order, the i-th carrying the i-th id |
| `Registry.Manager.constructor` | backend/main.py:89-91 | a new registry is empty and valid |
| `Registry.Manager.GetStatus` | backend/main.py:461-466 | 404 exactly for an unknown id, otherwise the status view of that task |
| `Registry.Manager.Start` | backend/main.py:423-438 | with 20 or more pending or downloading tasks: 429 and the registry unchanged. Otherwise: exactly one new `pending` task under the fresh id, appended last, with the request's fields and the fetched title; the active count rises by one and the bound of 20 is kept |
| `Registry.Manager.SetControl` | backend/main.py:471-477 | an unknown id gives 404 and leaves the registry unchanged; a known id gets the new control flag and status; no other field and no other task changes |
| `Registry.Manager.Pause` | backend/main.py:469-478 | unknown id: 404, registry unchanged; known id: control `pause`, status `paused`, whatever the prior status, nothing else changed, and its admission slot freed |
| `Registry.Manager.Cancel` | backend/main.py:481-490 | unknown id: 404, registry unchanged; known id: control `cancel`, status `canceled`, nothing else changed, and its admission slot freed |
| `Registry.Manager.Resume` | backend/main.py:493-502 | unknown id: 404, registry unchanged; known id: control cleared, status `downloading`, nothing else changed; the task takes a slot without any limit check |
| `Registry.Manager.Put` | backend/main.py:475-477 | a write under the task's lock replaces the stored record of that one task; the order and every other task are unchanged, and the active count moves by the change of that task's slot |
| `Registry.Manager.Dispatch` | backend/main.py:440-448 | the thread's runner is the one `RunnerFor` picks for the stored task's category; for the failing runner the task becomes `error` with "Unsupported category" and frees its slot; every other runner leaves the registry unchanged |
| `Registry.Manager.BeginRun` | backend/main.py:233-236 | the stored task becomes `downloading` with progress 0, nothing else changes, and it takes a slot |
| `Registry.Manager.FailRun` | backend/main.py:336-339 | the stored task becomes `error` with the exception's message, nothing else changes, and it frees its slot |
| `Registry.Manager.ReadLine` | backend/main.py:251-305 | the stored task is updated as `ApplyLine` says for the line; the worker stops exactly when a control flag is set afterwards, and then the task is `paused` or `canceled` as `ControlStop` says |
| `Registry.Manager.FollowLines` | backend/main.py:251-305 | reading the lines one by one into the registry leaves the stored task and the stop flag that `Consume` describes; no other task changes |
| `Registry.Manager.SettleRun` | backend/main.py:307-334 | the stored task gets the glob fallback and then the final block, as `Fallback` and `Finalise` say, and it frees its slot |
| `Registry.Manager.RunWorker` | backend/main.py:196-339 | an uninterrupted run of the worker leaves in the registry exactly the task `RunOutcome` describes, every other task unchanged, and the task's slot freed |
| `Registry.Manager.ClearStatus` | backend/main.py:102-110 | exactly the tasks with the given status are deleted; every other id stays with its task unchanged and in its place in the order |
| `Registry.Manager.DeleteAll` | backend/main.py:104-105 | the deletion loop removes exactly the listed ids from the map and from the order |
| `Registry.Manager.ClearCompleted` | backend/main.py:102-105 | exactly the `completed` tasks are removed, the others stay unchanged and in order, and the active count is unchanged |
| `Registry.Manager.ClearCanceled` | backend/main.py:107-110 | exactly the `canceled` tasks are removed, the others stay unchanged and in order, and the active count is unchanged |
| `Strings.LastWord` | backend/main.py:257 | the result is `split()[-1]`: a non-empty, blank-free word that ends the string once its trailing blanks are dropped, and that is preceded by a blank or by the start of the string, so it is the whole last word; none exactly when the string is all blanks (the IndexError) |
| `Strings.Basename` | backend/main.py:281 | the base name has no `/` and is the part of the path after its last `/` |
| `Strings.Lower` | backend/main.py:220 | lower-casing keeps the length and maps each character on its own: `A`-`Z` to `a`-`z`, the Kelvin sign to `k`, every other character to itself |
| `Strings.NatToStringRoundTrip` | backend/main.py:212-213 | `str(n)` is a numeral without a leading zero that reads back as `n` |
| `Strings.ParseDecimal` | backend/main.py:258 | an accepted number is non-negative, and a plain numeral reads as its integer value; which words are accepted is stated by `ParseDecimalAccepts` |
| `Strings.ParseDecimalAccepts` | backend/main.py:258 | a word of digits and dots is accepted exactly when it is a numeral or digits, one dot and digits with at least one digit in all (`DottedDigits`) |
| `Strings.AcceptedDotted` | backend/main.py:258 | an accepted word that is not a numeral splits at its first dot into digits before and digits after |
| `Strings.SecondDotRejected` | backend/main.py:258 | a word with two dots is rejected (the `ValueError`) |
| `Strings.DecimalValue` | backend/main.py:258 | the value of the digits `w.f` is non-negative |
| `Strings.DecimalWithDot` | backend/main.py:258 | a word `w.f` of digits with one dot, not both sides empty, reads as w + f / 10^\|f\| |
| `Strings.Strip` | backend/main.py:252 | `strip()` cuts blanks, and only blanks, off both ends; the result neither starts nor ends with a blank |
| `Strings.BeforeFirst` | backend/main.py:257 | the text before the first separator is a prefix of the string that holds no separator: the whole string when there is none, else as long as the index of the first one |
| `Strings.AfterFirst` | backend/main.py:279 | for a string that holds the separator, the text after an occurrence of it, up to the end; with `AfterHead`, it is the text after the first occurrence |
| `Strings.AfterHead` | backend/main.py:279-285 | when the separator first occurs right after `head`, the string contains it and `split(sep, 1)[1]` is the `rest` that follows that occurrence |
| `Strings.StripChar` | backend/main.py:279 | `strip('"')` cuts runs of `"`, and only those, off both ends; the result neither starts nor ends with `"` |
| `Strings.RStripChar` | backend/main.py:285 | `rstrip('"')` keeps a prefix that does not end with `"` and drops only `"` characters after it |
| `Command.Sanitize` | backend/main.py:200 | same length as the title; each forbidden character becomes `_` and every other character stays in place |
| `Command.SafeTitle` | backend/main.py:200 | an absent or empty title yields the task id; otherwise the result has the title's length, contains none of `\ / * ? : " < > \|`, and keeps every other character in place |
| `Command.Join` | backend/main.py:201 | an absolute second part replaces the first; otherwise the result starts with the directory and ends with the name |
| `Command.OutputTemplate` | backend/main.py:200-201 | the template ends with the safe title (or the id) and `.%(ext)s`, and starts with the download directory whenever that name does not start with `/` |
| `Command.TemplateInDownloadDir` | backend/main.py:201 | for a task whose id has no `/`, the output template is the download directory, `/`, a stem with no `/` (the safe title, or the id when there is no title) and `.%(ext)s` |
| `Command.QualityHeight` | backend/main.py:210-212 | a height exists exactly when the quality is a numeral followed by `p`, and it is that numeral's value |
| `Command.SortArgs` | backend/main.py:209-215 | `-S res:N` is present exactly for a video task with a quality `<numeral>p`; N is written without leading zeros and reads back as the height |
| `Command.FormatArgs` | backend/main.py:217-229 | the words are exactly `-f bestaudio/best -x` for audio and `-f bv*+ba/best` otherwise, then optionally one flag and the lower-cased fmt, so the flag is second to last and the length is 3 or 2, plus 2 with a flag; `--audio-format` exactly when the lower-cased fmt is mp3, m4a or aac, `--merge-output-format` exactly when it is mp4, mkv or webm |
| `Command.CommandFor` | backend/main.py:207-231 | the command begins with the executable's words and ends with the url, and holds between 6 and 10 words besides the executable's |
| `Command.CommandShape` | backend/main.py:207-231 | the command starts with the executable, `--newline`, `-o` and the template, ends with the url, and carries `-S`, `--audio-format` and `--merge-output-format` exactly under the conditions above |
| `Command.AddSortKey` | backend/main.py:209-215 | the quality block appends exactly the sort-key words `SortArgs` describes |
| `Command.AddFormat` | backend/main.py:217-229 | the format-selection block appends exactly the words `FormatArgs` describes |
| `Command.BuildCommand` | backend/main.py:207-231 | the word list built step by step equals the whole command described by `CommandFor` |
| `YtdlpOutput.SpeedAt` | backend/main.py:248 | a speed match at one position is a non-empty run of digits and dots with unit KiB, MiB or GiB; which text matches is stated by `SpeedAtWords` |
| `YtdlpOutput.EtaAt` | backend/main.py:249 | an ETA match at one position yields two numerals |
| `YtdlpOutput.SpeedSearch` | backend/main.py:248 | a speed match is a non-empty run of digits and dots with unit KiB, MiB or GiB; which match is found is stated by `SpeedSearchLeftmost` and `SpeedAfterText` |
| `YtdlpOutput.FirstMatchLeftmost` | backend/main.py:262 | `search` finds nothing exactly when no position matches, and otherwise the match at the first position that matches |
| `YtdlpOutput.SpeedSearchLeftmost` | backend/main.py:262 | the speed search finds nothing exactly when no speed match starts anywhere in the line, and otherwise the leftmost one |
| `YtdlpOutput.NoSpeedWithoutB` | backend/main.py:262-263 | a line without a `B` has no speed match |
| `YtdlpOutput.SpeedAtWords` | backend/main.py:248 | where a non-empty word `n` of digits and dots, then blanks, then `KiB/s`, `MiB/s` or `GiB/s` is written, the pattern matches at the start of `n` and yields `n` and the unit |
| `YtdlpOutput.SpeedAtEnds` | backend/main.py:248 | once the digit-and-dot run and the blank run after it are known to end at `j` and `k`, the match yields the run and the first of `KiB/s`, `MiB/s`, `GiB/s` written at `k` |
| `YtdlpOutput.SpeedRuns` | backend/main.py:248 | the `[0-9.]+` run starting at `n` ends right after `n`, and the `\s*` run after it ends right after the blanks, when a character of neither kind follows |
| `YtdlpOutput.NoSpeedInHead` | backend/main.py:262 | no speed match starts inside a text that holds no `/` and does not end in a digit or dot |
| `YtdlpOutput.SpeedSearchAt` | backend/main.py:262 | a match at position `j` with no match before it is exactly what the search finds |
| `YtdlpOutput.SpeedAfterText` | backend/main.py:248-264 | in `head + n + blanks + u + "/s" + tail`, with `n` a non-empty word of digits and dots, `u` one of KiB, MiB, GiB, and a `head` without `/` that does not end in a digit or dot, the search finds exactly `n` and `u` |
| `YtdlpOutput.EtaSearch` | backend/main.py:249 | an ETA match yields two numerals |
| `YtdlpOutput.EtaSearchLeftmost` | backend/main.py:269 | the ETA search finds nothing exactly when no ETA match starts anywhere in the line, and otherwise the leftmost one |
| `YtdlpOutput.EtaAfterText` | backend/main.py:269-273 | when the text before `ETA <m>:<s>` holds no `E`, the search finds exactly m and s and the ETA is m*60+s seconds |
| `YtdlpOutput.EtaOfNumerals` | backend/main.py:249 | the text `ETA <m>:<s>` for two numerals m and s, after any text, is a match of the ETA pattern at that position whose two groups are the strings m and s |
| `YtdlpOutput.UnitMultiplier` | backend/main.py:265 | 1024 for KiB, 1024² for MiB, 1024³ otherwise |
| `YtdlpOutput.PercentWord` | backend/main.py:257 | the percentage word is the last word before the first `%`: non-empty, blank-free and ending that text once trailing blanks are dropped, and preceded there by a blank or the start, so it is the whole last word; none exactly when that text is all blanks |
| `YtdlpOutput.Percent` | backend/main.py:257-258 | no percentage without a percentage word; otherwise `float()` of that word, which is non-negative unless the word starts with `-` |
| `YtdlpOutput.SpeedValue` | backend/main.py:262-267 | none exactly when the speed search finds nothing; a match whose number does not parse gives the `ValueError` case, and only such a match |
| `YtdlpOutput.SpeedValueInBytes` | backend/main.py:264-267 | a parsed speed is the match's number times its unit's multiplier, a non-negative number of bytes per second |
| `Strings.ParseFloat` | backend/main.py:258 | `float()` of a word: a leading `-` negates and a leading `+` is dropped; otherwise it reads the word as a decimal; the empty word fails; a numeral reads as its integer value |
| `YtdlpOutput.EtaSeconds` | backend/main.py:269-273 | the ETA exists exactly when the ETA search matches, and is then minutes * 60 + seconds of the match |
| `YtdlpOutput.WithEta` | backend/main.py:269-273 | the ETA is stored when the line carries one; otherwise, and for every other field, the task is unchanged |
| `YtdlpOutput.Clamp` | backend/main.py:260 | the progress fraction always lies in [0, 1] and equals the value when the value is already in range |
| `YtdlpOutput.ProgressUpdate` | backend/main.py:255-275 | a percentage that does not parse changes nothing. Otherwise the progress becomes the percentage / 100 clamped to [0, 1]. A speed match whose number parses stores that number times its unit multiplier, and a speed number that does not parse ends the block with speed and ETA unchanged. Without that failure, an ETA match stores minutes * 60 + seconds and its absence keeps the ETA. Only progress, speed and ETA change |
| `YtdlpOutput.SpeedAndEta` | backend/main.py:262-275 | after the progress is stored: a speed match whose number parses stores that number times its unit, and then an ETA match stores minutes * 60 + seconds while its absence keeps the ETA; without a speed match only the ETA step runs; a speed number that does not parse changes nothing; only speed and ETA change |
| `YtdlpOutput.ProgressLineTest` | backend/main.py:255 | a line is a progress line exactly when it starts with `[download]` and holds a `%` somewhere |
| `Strings.ContainsChar` | backend/main.py:255 | a one-character text occurs in a string exactly when that character is in it |
| `YtdlpOutput.ProgressLineShape` | backend/main.py:252-257 | a line `[download] <p>%<rest>`, with `p` of digits and dots and `rest` ending in a non-blank, is already stripped, starts with `[download]`, holds a `%`, and its text before the first `%` is `[download] <p>` |
| `YtdlpOutput.ProgressLinePercent` | backend/main.py:255-258 | such a line is a progress line whose percentage is `p` read as a decimal |
| `YtdlpOutput.ProgressLineRead` | backend/main.py:255-275 | after that line, with `p` of digits and dots and m, s numerals, the progress is `p`/100 clamped to [0, 1] and the ETA is m*60+s; when `p` does not parse the `try` block changes nothing; speed, file name and url are unchanged |
| `YtdlpOutput.QuietProgressLine` | backend/main.py:255-275 | a stripped progress line with no speed match and no file marker changes only the progress and the ETA, as its percentage and its ETA say |
| `YtdlpOutput.SpeedLineRead` | backend/main.py:255-275 | after the line `[download] <p>% of <size> at <n><u>/s ETA <m>:<s>`, with `p` and `n` of digits and dots, a size holding none of `/ E D "`, `u` one of KiB, MiB, GiB and m, s numerals (`ReadsWithSpeed`): when `p` does not parse nothing changes; otherwise the progress is `p`/100 clamped to [0, 1]; when `n` parses as `v` the speed is `v` times `UnitMultiplier(u)` and the ETA m*60+s, and when it does not the speed and the ETA are unchanged; file name and url are unchanged |
| `YtdlpOutput.SpeedLinePercent` | backend/main.py:252-258 | that line is already stripped, is a progress line, and its percentage is `p` read as a decimal |
| `YtdlpOutput.SpeedLineSpeed` | backend/main.py:262-264 | the speed search on that line finds exactly `n` and `u` |
| `YtdlpOutput.SpeedLineEta` | backend/main.py:269-273 | the ETA of that line is m*60+s |
| `YtdlpOutput.SpeedLineLetters` | backend/main.py:262-284 | that line holds no `/` before its speed, no `E` before its `ETA`, and no `D` or `"` at all, so neither file marker occurs in it |
| `YtdlpOutput.SpeedProgressLine` | backend/main.py:255-288 | a stripped progress line whose speed match is `n` and `u` and that holds no file marker changes the task as `ReadsWithSpeed` says for its percentage, `n` parsed, `u` and its ETA |
| `YtdlpOutput.ProgressOnlyLine` | backend/main.py:251-288 | a stripped progress line with no file marker changes the task exactly as the progress block does |
| `YtdlpOutput.SpeedValueOf` | backend/main.py:262-267 | for a speed match `n`, `u`: the `ValueError` case when `n` does not parse, else `n` in bytes per second |
| `YtdlpOutput.SpeedUpdate` | backend/main.py:256-275 | the progress block stores what `ReadsWithSpeed` says for the percentage, the speed number and unit, and the ETA |
| `YtdlpOutput.PercentNoSpeed` | backend/main.py:258-267 | a parsed percentage followed by a speed number that does not parse stores only the progress |
| `YtdlpOutput.PercentAndSpeed` | backend/main.py:258-273 | a parsed percentage, a parsed speed and an ETA store exactly the clamped progress, the speed and the ETA |
| `YtdlpOutput.NumeralWords` | backend/main.py:271-273 | whole numbers pc, mm and ss printed as numerals are words of a progress line and read back as pc, and mm*60+ss seconds |
| `YtdlpOutput.WithFile` | backend/main.py:278-288 | the file name becomes the base name of the reported path and the download url `/downloads/` plus that name; nothing else changes |
| `YtdlpOutput.DestinationPath` | backend/main.py:279 | the path is the text after the first `Destination:`, stripped of blanks and then of every `"` at both ends |
| `YtdlpOutput.MergePath` | backend/main.py:285 | the path is the text after the first `Merging formats into "` with every trailing `"` removed |
| `YtdlpOutput.ApplyLine` | backend/main.py:251-288 | one stripped line changes only progress, speed, ETA, file name and url. A progress line updates the first three as `ProgressUpdate` says; other lines leave them alone. A Merging line records the base name of its merge path; a Destination line without a Merging marker records the base name of its destination path. The url is then `/downloads/` plus the name, and other lines leave both fields alone. `Sound` is kept |
| `YtdlpOutput.DestinationLineShape` | backend/main.py:278-279 | the line `[download] Destination: <path>`, for a path with no blank at its ends and no `"`, is already stripped, has no merge marker, and yields `path` |
| `YtdlpOutput.DestinationLineNamesFile` | backend/main.py:278-282 | after that line the file name is the base name of `path` and the url `/downloads/` plus that name |
| `YtdlpOutput.MergeLineShape` | backend/main.py:284-285 | the line `[Merger] Merging formats into "<path>"`, for such a path, is already stripped and yields `path` |
| `YtdlpOutput.MergePathOfLine` | backend/main.py:285 | that line holds the merge marker, and its merge path is `path`: only the closing `"` is dropped |
| `YtdlpOutput.MergeLineNamesFile` | backend/main.py:284-288 | after that line the file name is the base name of `path` and the url `/downloads/` plus that name |
| `YtdlpOutput.ControlStop` | backend/main.py:290-305 | the run stops exactly when a control flag is set: pause gives `paused`, cancel gives `canceled` |
| `YtdlpOutput.FollowOutput` | backend/main.py:251-305 | the loop over the output lines yields the task and stop flag described by `Consume` |
| `YtdlpOutput.Consume` | backend/main.py:251-305 | the line loop reports a stop only after some line, and then the task is `paused` or `canceled`; id, url, category and control flag are kept |
| `YtdlpOutput.ConsumeOutcome` | backend/main.py:251-305 | the line loop stops exactly when there is a line and a control flag is set, then with the matching status; otherwise the status is untouched; only line-derived fields change and `Sound` is kept |
| `YtdlpOutput.Begin` | backend/main.py:233-236 | the run starts `downloading` with progress 0 and nothing else changed; `Sound` is kept |
| `YtdlpOutput.Fallback` | backend/main.py:310-316 | without a known file name, the first candidate names the file; otherwise nothing changes; `Sound` is kept |
| `YtdlpOutput.Finalise` | backend/main.py:318-334 | paused or canceled: untouched. Known file: `completed`, progress 1, url `/downloads/` plus the file name. No file: `error` with "Download finished but file not found", progress still 1 and `downloaded_at` set |
| `YtdlpOutput.RunYtdlp` | backend/main.py:196-339 | the run builds the command of `CommandFor` and leaves the task described by `RunOutcome` |
| `YtdlpOutput.RunOutcome` | backend/main.py:196-339 | a run never ends pending or downloading, and it keeps the id, url and category |
| `YtdlpOutput.RunSettles` | backend/main.py:233-339 | every run ends `paused`, `canceled`, `completed` or `error`. It is `paused` or `canceled` exactly when a control request stopped it. It is `completed` only with a known file, its url and full progress. `error` always carries a message. `Sound`, the id, the url and the control flag are kept |
| `ApiHeaders.SetHeader` | backend/main.py:133-135 | setting a header replaces any header of that name and leaves the others unchanged |
| `ApiHeaders.NoCacheForApi` | backend/main.py:128-136 | for a path starting with `/api/` the headers gain `cache-control: no-store`, `pragma: no-cache` and `expires: 0` and all other headers stay; for any other path the headers are unchanged |
| `ApiHeaders.NoCacheIdempotent` | backend/main.py:128-136 | passing a response through the middleware twice is the same as once |
| `ApiHeaders.ApiPrefixNeedsSlash` | backend/main.py:131 | a path that starts with `/api` not followed by `/` (`/api` itself, `/apis...`, `/api-x`) is not an API path: its headers pass through unchanged |

## Left out

- The front end's offline-caching service worker: its code is not part of this model.
- Subprocesses are not modelled: `get_video_title`, `_ytdlp_cmd`, `_ytdlp_version`, `_ffmpeg_version`, `health`, and `Popen`, `terminate` and `wait`. They run foreign programs. Their results are parameters: the fetched title, `base`, the start-up error message and the output lines.
- `run_image` is not modelled, because it streams over HTTP, writes files and reads the clock. `Registry.RunnerFor` and `Registry.Manager.Dispatch` only state when it is chosen.
- `cleanup_worker` is not modelled. It is an endless daemon loop over file modification times and `time.time()`.
- The glob search for a file named after the task id is filesystem access. The sorted matches are a parameter of `YtdlpOutput.Fallback`.
- Threads and locks are not modelled. Each endpoint and each worker step is one atomic `Manager` method. An endpoint may run between two `ReadLine` calls, so a pause or cancel between output lines is expressible; `RunWorker` covers only a run that nothing interrupts.
- The worker steps require the task to be in the registry. In the source, a worker whose task was cleared keeps writing to a `Task` object the registry no longer holds; those writes are not visible through the API and are not modelled.
- The shared `Task` object and its aliasing are not modelled: the registry holds records by value, and each write under the lock is an overwrite of the stored record.
- Floating point is not modelled. Progress and speed are exact reals, with no rounding.
- `Strings.ParseFloat`: does not accept exponents, `inf`, `nan`, underscores, surrounding blanks or non-ASCII decimal digits (`float("٤٥")` is 45.0), which Python's `float()` accepts. The percentage word is the only input where this matters; speed numbers are made only of digits and dots, and for those the model is exact.
- `Command.QualityHeight`: accepts only ASCII numerals. Python's `int()` also accepts a sign, surrounding blanks, underscores and non-ASCII decimal digits.
- `YtdlpOutput.EtaOfNumerals`: the ETA pattern's `\d` only matches ASCII digits here. Python's `\d` in a `str` pattern also matches other Unicode decimal digits.
- `Strings.Lower`: maps only `A`-`Z` and the Kelvin sign; Python's `str.lower()` maps all of Unicode, and some characters lower-case to two characters (`İ` becomes `i` followed by U+0307). The result is only compared against the six format names mp3, m4a, aac, mp4, mkv and webm. Every other non-ASCII character lower-cases to text that holds a non-ASCII character, so it cannot equal one of those names, and the comparisons come out the same.
- `Command.Join` and `Strings.Basename` follow POSIX `os.path`. On Windows, `ntpath` also splits on `\` and knows drive letters; that is not modelled.
- `Registry.Manager.Start`: requires that the id is not already in use. This stands in for the uniqueness of `uuid4`.
- The time `downloaded_at` is a string parameter. `datetime` formatting is not modelled. The two reads of the clock in the final block (lines 322 and 330) are one parameter `now`, so a run that crosses a second boundary between them is not modelled.
- FastAPI routing, CORS, the `StaticFiles` mounts, `_no_cache_file_response` and the detail texts of HTTP errors are framework wrappers. The errors are modelled by their codes, 404 and 429.
- Response headers are a map keyed by lower-cased name, so repeated headers of one name are not modelled.
- `YtdlpOutput.RunYtdlp`: covers only failure to start the subprocess. No exception from reading its output is modelled.
