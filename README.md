# TUDM host-dump parsers, modelled in Dafny

TUDM turns forensic dumps of Unix hosts into JSON events. This project models its core and
proves what that core does:

- the two per-host line parsers:
  - `StatLogParser` in `body.py` parses `bodyfile.txt`;
  - `PsAxoLogParser` in `ps_-axo_pid_user_etime_args.py` parses `ps` listings;
- their `to_iso` epoch renderer;
- the tracker bookkeeping and the job list of the two parser scripts;
- the evidence catalog kept by `main.py`.

Modules, one concept each:

| file | module | models |
|---|---|---|
| `wrappers.dfy` | `Wrappers` | `Option`: `None` for an exception the source catches, or for a missing file |
| `text.dfy` | `Text` | the `str` operations the code relies on: `strip`, `split`, `join`, `in`, line iteration with universal newlines, `int()`, the grok `NUMBER` token |
| `timestamp.dfy` | `Timestamp` | `to_iso`: proleptic Gregorian calendar arithmetic from epoch seconds to `YYYY-MM-DDThh:mm:ss` in UTC |
| `storage.dfy` | `Storage` | the disk (class `FileSystem`) and a `Manager().Queue()` (class `Channel`); CSV tables as header plus row maps; draining a queue up to `"DONE"`; `DictWriter.writerow` |
| `ingest.dfy` | `Ingest` | what both parsers share: the line scan and its counters, the JSON-array framing, the outcome record and `success_rate`, the upload-manifest choice, publishing a finished job |
| `statlog.dfy` | `StatLog` | the four bodyfile grok grammars, the event a line becomes, `StatLogParser.process` |
| `psaxo.dfy` | `PsAxo` | the `ps` grok grammar, its event, `PsAxoLogParser.process` |
| `tracker.dfy` | `Tracker` | `load_tracker` and `update_tracker` (identical in both scripts) |
| `coordinator.dfy` | `Coordinator` | `main` of both scripts: catalog rows to jobs, the output-name loop, the run, the tracker update |
| `evidence.dfy` | `Evidence` | `main.py`: hostname extraction, the catalog, per-dump evidence lists, the catalog update from the queue, the core-count clamp, `process` |

## How the source is modelled

- **Grammars.** A grok grammar is modelled as an explicit field split.
  - The bodyfile grammars (body.py:10-13) cut the trimmed line at every `|`. The model assumes that no `DATA` field holds a `|`: not the path, not the permissions, not either side of a link.
  - The `ps` grammar (ps_-axo_pid_user_etime_args.py:11) reads four whitespace-separated words, then the rest of the line. `NUMBER`, `USER` and `TIME` cannot contain whitespace and each is followed by `\s+`, so this reading is exact.
- **Stateful code.** Loops that update counters or lists become methods with loop invariants. Each method is proved against a specification function, and the properties are proved about those functions. Disk and queues are objects whose methods update them in place.
- **Exceptions.** An exception caught by the source becomes a value:
  - `Raised` for a line;
  - `None` for `to_iso`, `load_tracker` and the job list;
  - "nothing changes" for a host job.
- **Inputs.** `os.walk` results are an input (`Walks`, a map from each existing directory to the files found below it, in walk order). So are the found `uac.log` files, the answer to the core-count prompt, and the `json.dump` rendering of one event.
- **Jobs run one at a time.** Each job runs whole before the next one starts, as a pool with one worker runs them. With more workers, jobs run at the same time and their steps on shared files can interleave; that is not modelled (see "## Left out").
- **Job outcomes** are ghost results of `Coordinator.RunJob`, `Coordinator.RunJobs` and `Coordinator.Run`. `Coordinator.RunAll` ties each one to its job and to the disk the earlier jobs left.
- **`main.py`** is modelled through its sequential branch (main.py:141-144). With one core or one dump, that branch is taken.
- **Lines** are taken without their trailing newline. Every consumer strips them anyway.

Code behaviour the model reproduces:

- **The symlink grammars are unreachable.** A line that a symlink grammar (body.py:11, 13) accepts is also accepted by the plain grammar of the same arity, which is tried just before it.
  - So `full_path` is always the whole second field, `A -> B` included.
  - `additional` never holds `symlink`.
  - The branch at body.py:53-55 is dead.
  - See `StatLog.CascadeChoice` and `StatLog.ParsedLineShape`.
- **The `ps` grammar never matches real listings.** It expects `pid ppid user time command`. The artifact it is applied to is `ps -axo pid,user,etime,args`, which has no ppid column, and its third word is an elapsed time containing `:`. So every line of such a listing is a failure (`PsAxo.ColumnsWithoutParentUnmatched`). Elapsed times under an hour (`mm:ss`) and over a day (`dd-hh:mm:ss`) are not grok `TIME`s either (`PsAxo.ElapsedForms`).
- **A non-integer `size` aborts the whole host.** If a matched bodyfile line has a fractional `size` (`int("1.5")` raises), no output is written, nothing is appended to the manifest and no outcome is queued. The same happens for a `ps` line with a fractional pid or ppid, because pygrok's `:int` conversion raises.
- **The default manifest becomes a redirect file.** When `Evidence/uploader.txt` does not exist, the first job creates it, holding its own output path. A job that runs after it, in a later run or in the same run with one worker, then reads that line as a redirect and appends its path to the first job's JSON output (`Ingest.ManifestBecomesRedirect`).
- **Jobs of one host share an output file.** `main` names every job from the files on disk before any job runs, so two jobs of the same host get the same name, and when they run in turn the second job's output replaces the first's. `Coordinator.Run` reproduces this naming. `Coordinator.RunApart` is the corrected run (see Findings).
- **The tracker does not filter jobs.** `load_tracker` is called and its result is never used (body.py:212, ps_-axo_pid_user_etime_args.py:171), so every artifact is processed whatever the tracker holds.
- **The tracker only grows.** `update_tracker` appends every outcome after the old rows, under a header that is always the seven outcome keys (body.py:183-185). An old row with any other column makes `writerow` raise.
- **Every artifact file becomes a job.** Every file with the artifact's name below a catalogued log's directory is a job, not only the first (body.py:227-238).

## Model

| member | source | states |
|---|---|---|
| Text.StripLeft | body.py:50 | the result is a suffix of the text, everything removed is whitespace, and it does not start with whitespace |
| Text.StripRight | body.py:50 | the result is a prefix of the text, everything removed is whitespace, and it does not end with whitespace |
| Text.Strip | body.py:50 | `strip()` leaves no whitespace at either end and never lengthens the text; what it removes is stated by `Text.StripMeaning` |
| Text.StripMeaning | body.py:50 | `strip()` gives a stretch of the text with only whitespace before and after it: nothing but leading and trailing whitespace is removed |
| Text.StripBetween | body.py:50 | removing leading, then trailing whitespace leaves a stretch of the text with only whitespace around it |
| Text.StripKeeps | main.py:22 | text with no whitespace at either end is unchanged by `strip()` |
| Text.StripEmpty | body.py:50 | `strip()` gives the empty text exactly when every character is whitespace |
| Text.FindFrom | main.py:21 | the index returned is the first occurrence of the pattern at or after the start; `None` means there is no occurrence from there on |
| Text.FindChar | main.py:21 | a one-character pattern is found exactly when the character occurs, at its first position |
| Text.Split | main.py:22 | `s.split(sep)` always has at least one piece |
| Text.JoinOfSplit | main.py:22 | joining the pieces of `s.split(sep)` with `sep` gives `s` back |
| Text.SplitPiecesFree | main.py:22 | no piece of a split holds the separator |
| Text.SplitOfJoin | body.py:108-111 | splitting a join gives the parts back when the separator's last character occurs nowhere else |
| Text.NoSeparator | main.py:21 | text without the separator's last character holds no separator |
| Text.FirstSeparator | body.py:110-111 | a separator after a part without its last character is the first one found |
| Text.Newlines | body.py:45-46 | universal-newline reading leaves no `\r` in the text |
| Text.NewlinesKeeps | body.py:45-46 | text without `\r` reads unchanged |
| Text.LinesFree | body.py:46 | no line holds a newline, and an empty file has no lines |
| Text.SplitCons | body.py:46 | a line followed by a newline and more text splits into that line, then the pieces of the rest |
| Text.LinesCons | body.py:46 | the lines of `line + "\n" + rest` are that line, then the lines of the rest |
| Text.LinesAppendLine | body.py:124-125 | appending one newline-terminated line to a text that ends a line adds exactly that line |
| Text.FirstLineSplit | body.py:120 | a nonempty text that ends a line is its first line, a newline, and a rest that ends a line too |
| Text.Digit | body.py:135-137 | the digit character of a value below ten denotes that value |
| Text.NatToString | body.py:135-137 | `str(n)`: nonempty decimal digits that spell `n`, with no leading zero |
| Text.Pad | body.py:35 | `%0Nd`: exactly `width` digits, which spell `n` when `n` fits |
| Text.DropUnderscores | body.py:74 | removing the underscores `int()` allows leaves only digits, and changes plain digits not at all |
| Text.UnsignedOfDigits | body.py:74 | plain decimal digits are a literal whose value they spell |
| Text.PyIntDigits | body.py:74 | `int()` of plain decimal digits is their value |
| Text.PyIntOfString | body.py:35 | `int(str(i)) == i` for every integer |
| Text.GrokNumberInt | body.py:74 | a grok `NUMBER` converts with `int()` exactly when it has no decimal point |
| Text.UnsignedChars | body.py:74 | a character other than a sign occurs in a text exactly when it occurs after its sign |
| Text.PyIntRejectsFraction | body.py:74 | `int("1.5")` raises |
| Text.PyIntUnsigned | body.py:74 | trimmed text converts exactly when what follows its sign is a decimal literal |
| Text.IntStringIsGrokNumber | body.py:10 | `str(i)` is a grok `NUMBER` without a fraction |
| Text.IntStringChars | body.py:50 | `str(i)` has digits only, except perhaps a leading minus, and no whitespace at either end |
| Text.JoinEnds | body.py:50 | a join begins with the first part's first character and ends with the last part's last character |
| Text.JoinTrimmed | body.py:50 | a join that starts and ends outside whitespace is left whole by `strip()` |
| Timestamp.YearCycles | body.py:35 | the days before year `400a+100b+4c+e+1` are whole 400-, 100-, 4- and 1-year cycles; that year is leap exactly at the fourth year of a 4-year cycle that is not a century, or at the fourth century |
| Timestamp.MonthOf | body.py:35 | the month found holds the given day of the year |
| Timestamp.CycleBounds | body.py:35 | every day of years 1 to 9999 splits into cycle counts within the bounds the calendar allows |
| Timestamp.MonthDay | body.py:35 | day `r` of year `y` is a valid date whose ordinal is the days before `y` plus `r + 1` |
| Timestamp.LastDayOfLeapYear | body.py:35 | December 31 of a leap year is its 366th day |
| Timestamp.DateOfCyclesCorrect | body.py:35 | every in-range cycle decomposition denotes a valid date with the matching ordinal |
| Timestamp.DateOfCorrect | body.py:35 | `DateOf` inverts the reference day numbering on all of years 1 to 9999 |
| Timestamp.Civil | body.py:35 | every epoch second within years 1 to 9999 has a valid UTC date and clock time |
| Timestamp.ToIsoOfDecimal | body.py:35 | `to_iso(str(t))` renders `t` when it falls in years 1 to 9999, and is `None` otherwise |
| Timestamp.FormatLayout | body.py:35 | a rendered instant is 19 characters, separators at fixed places, each field zero-padded at its place |
| Timestamp.IsoTextLayout | body.py:35 | fields of widths 4, 2, 2, 2, 2, 2 land at fixed places between the separators |
| Timestamp.ParseFormat | body.py:35 | reading a rendered date-time back gives exactly its fields, hence its epoch second |
| Timestamp.IsoTextFields | body.py:35 | digit fields of the right widths have the `YYYY-MM-DDThh:mm:ss` shape and read back as their values |
| Timestamp.CivilEpoch | body.py:35 | counting the calendar fields of an instant back gives that instant |
| Timestamp.CivilFields | body.py:35 | `Civil` reads an instant as a day after the epoch (floor division) and a second of that day |
| Timestamp.EpochOfParts | body.py:35 | a date-time on day `days` at second `secs` is epoch second `days * 86400 + secs` |
| Timestamp.ClockSplit | body.py:35 | hours, minutes and seconds of a second of the day add back up to it |
| Timestamp.CivilOf | body.py:35 | an instant with known day and clock fields is that date-time |
| Timestamp.ToIsoDenotes | body.py:32-37 | `to_iso` answers exactly for integer text in years 1 to 9999, and its 19-character answer reads back as that same epoch second; any other text gives `None` |
| Timestamp.ToIsoInjective | body.py:32-37 | two texts that `to_iso` renders the same name the same second |
| Timestamp.PadTwo | body.py:35 | a two-digit field prints its tens digit, then its units digit |
| Timestamp.ToIsoOfEpoch | body.py:32-35 | `to_iso("0")` is `1970-01-01T00:00:00` |
| Timestamp.EpochCivil | body.py:35 | second 0 is 1970-01-01 00:00:00 |
| Timestamp.EpochDate | body.py:35 | the epoch's own day is 1970-01-01 |
| Timestamp.EpochFormat | body.py:35 | 1970-01-01 00:00:00 prints as `1970-01-01T00:00:00` |
| Timestamp.ExampleDigits | body.py:35 | the text `1699990000` is the number 1699990000 |
| Timestamp.ExampleCivil | body.py:35 | second 1699990000 is 2023-11-14 19:26:40 |
| Timestamp.ExampleDate | body.py:35 | day 19675 after the epoch is 2023-11-14 |
| Timestamp.ExampleFormat | body.py:35 | 2023-11-14 19:26:40 prints as `2023-11-14T19:26:40` |
| Timestamp.ToIsoOfExample | body.py:32-35 | `to_iso("1699990000")` is `2023-11-14T19:26:40` |
| Timestamp.LaterDigits | body.py:35 | the text `1700000000` is the number 1700000000 |
| Timestamp.LaterCivil | body.py:35 | second 1700000000 is 2023-11-14 22:13:20 |
| Timestamp.LaterFormat | body.py:35 | 2023-11-14 22:13:20 prints as `2023-11-14T22:13:20` |
| Timestamp.ToIsoOfLater | body.py:32-35 | `to_iso("1700000000")` is `2023-11-14T22:13:20` |
| Timestamp.ToIsoRejectsFraction | body.py:33-37 | `to_iso("1.5")` is `None` |
| Timestamp.ToIsoRejectsEmpty | body.py:33-37 | `to_iso("")` is `None` |
| Storage.LastIndexOf | body.py:115 | the index returned holds the last occurrence of the character; `None` means it does not occur |
| Storage.ParentOfChild | body.py:222 | the parent of `dir / name` is `dir` |
| Storage.Project | body.py:184-185 | a row written under a header reads back with exactly the header's columns: its own values, and empty cells for the missing ones |
| Storage.FileSystem.constructor | body.py:164 | the disk starts with the given files |
| Storage.TextIn | body.py:45-46 | a path has text exactly when a text file is there, and the text is that file's content |
| Storage.FileSystem.ReadText | body.py:119-120 | a text file is readable exactly when it exists as text |
| Storage.FileSystem.ReadTable | body.py:164-167 | a CSV table is readable exactly when it exists as a table |
| Storage.FileSystem.WriteText | body.py:106-112 | writing replaces that one file and leaves the rest of the disk alone |
| Storage.FileSystem.AppendText | body.py:124-125 | appending adds the text after what the file held, creating it when missing; nothing else changes |
| Storage.FileSystem.WriteTable | body.py:180-185 | writing a table replaces that one file and nothing else |
| Storage.AppendedAfter | body.py:124-125 | appending a text adds it after the file's previous content |
| Storage.Channel.constructor | body.py:216 | a new queue is empty |
| Storage.Channel.Put | body.py:131 | `put` adds the message at the back |
| Storage.Channel.Get | body.py:158 | `get` takes the front message off the queue |
| Storage.Drained | body.py:156-161 | the drain keeps at most `total` values |
| Storage.DrainedLeads | body.py:156-161 | the drained values are the queue's leading items, and there are fewer than `total` only when a `"DONE"` comes next |
| Storage.Consumed | body.py:156-161 | the drain takes no more messages than the queue holds |
| Storage.Drain | body.py:156-161 | the loop returns exactly the drained values and leaves the queue after the messages it consumed |
| Storage.Items | body.py:131 | each value put becomes one message, in order |
| Storage.DrainStopsAtDone | body.py:156-161 | with at most `total` values and then `"DONE"`, the drain keeps exactly those values, ignores what follows, and takes the `"DONE"` only when fewer than `total` values came first |
| Storage.DrainTakesAll | main.py:142-144 | exactly `total` values and no `"DONE"` (the sequential branch queues none) are all taken and the queue is emptied |
| Storage.WriteRows | body.py:184-185 | the file receives the rows read back under the header, up to the first row with a key outside it, and the call succeeds exactly when every row fits |
| Storage.WrittenWhole | body.py:184-185 | rows with exactly the header's columns read back unchanged |
| Storage.WrittenAllFit | main.py:113-114 | when every row fits, every row is written, each read back under the header |
| Ingest.CountsAddUp | ps_-axo_pid_user_etime_args.py:39-69 | without a raising line, every line is an event or a failure |
| Ingest.EventsSnoc | body.py:98 | one more line adds its event, if any, at the end |
| Ingest.MissesSnoc | body.py:102-103 | one more line adds a failure exactly when it is unmatched |
| Ingest.AbortsSnoc | body.py:140-141 | a prefix aborts exactly when an earlier line or the next one raises |
| Ingest.Scan | body.py:46-103 | a completed scan counts `total_lines == success_count + fail_count` |
| Ingest.ScanMeaning | body.py:46-141 | the scan fails exactly when some line raises; otherwise the events are the parsed lines in order, `success_count == len(results)`, `fail_count` is the unmatched lines and `total_lines` every line |
| Ingest.ParseEach | body.py:46 | one result per line |
| Ingest.ParseEachAt | body.py:46-50 | the result for line `k` is the parse of line `k` |
| Ingest.ParseEachSnoc | body.py:46 | the results of one more line end with that line's parse |
| Ingest.ParseEachAborts | body.py:140-141 | one raising line anywhere makes the whole scan fail |
| Ingest.ScanStep | body.py:47-103 | one pass of the loop: a raise fails the file, a miss adds a line and a failure, a parse adds a line, an event and a success |
| Ingest.ScanSnoc | body.py:47-103 | scanning one more line changes the counters as that line's result says |
| Ingest.ScanLines | body.py:46-103 | the loop's counters and event list are the scan of the parsed lines |
| Ingest.JoinSnoc | body.py:108-111 | joining one more part adds the separator and that part |
| Ingest.Frame | body.py:106-112 | the writing loop produces `[`, newline, the events separated by `,` and a newline, newline, `]` |
| Ingest.UnframeFramed | ps_-axo_pid_user_etime_args.py:72-78 | one-line event texts are recovered, in order, from the framed file; no events give `[\n\n]` |
| Ingest.Rendered | body.py:109 | one `json.dump` text per event, in order |
| Ingest.OutcomeRow | body.py:131-139 | the outcome row has exactly the seven outcome keys |
| Ingest.RateHundredths | body.py:138 | the rate in hundredths is at most 10000 and within half a hundredth of `success/total*100` |
| Ingest.RoundingBounds | body.py:138 | the floor of the scaled ratio is at most 10000, and its distance to the ratio is the remainder |
| Ingest.RateTextMeaning | ps_-axo_pid_user_etime_args.py:104 | no lines give `"0.00"`; otherwise the text is the whole percent, a point and two digits, which together read back as the rounded rate |
| Ingest.RateExtremes | ps_-axo_pid_user_etime_args.py:104 | all lines matched give 100.00 and none matched gives 0.00 |
| Ingest.ManifestTarget | body.py:115-122 | the target is `uploader.txt`, or the path on its trimmed first line, which is used only when `uploader.txt` exists |
| Ingest.Published | body.py:105-125 | a completed job changes exactly the output file and the manifest target; the output holds the framed events unless it is the target itself |
| Ingest.PublishedTarget | body.py:124-125 | the manifest target holds what it held, then the output path and a newline |
| Ingest.PublishedManifestLine | body.py:124-125 | a manifest that ended a line gains exactly one line, the output path |
| Ingest.FirstPublish | body.py:115-125 | without `uploader.txt`, a job writes its output and creates `uploader.txt` holding its path |
| Ingest.RedirectLine | body.py:120 | a path written as the only line of a file is read back as that path |
| Ingest.ManifestBecomesRedirect | body.py:115-125 | after a first job creates `uploader.txt`, a job of the same `Evidence` directory run after it targets the first job's output and appends its path there |
| Ingest.Publish | body.py:105-139 | the disk becomes the published state, and exactly one outcome record is queued |
| StatLog.GrokMatch | body.py:10-13 | a grammar matches exactly when the `|`-pieces of the line fit its fields one for one |
| StatLog.FirstMatchWins | body.py:49-101 | the chosen grammar matches with the returned captures, every earlier grammar fails, and there is no choice exactly when none matches |
| StatLog.DropNoneKeeps | body.py:97 | the filter keeps exactly the entries whose value is not `None` |
| StatLog.BuildEvent | body.py:53-95 | a matched line gives an event or raises; it is never unmatched |
| StatLog.MatchFirst | body.py:49-101 | the inner loop stops at the first grammar that matches |
| StatLog.ParseOne | body.py:47-103 | one pass of the outer loop is the parse of the trimmed line |
| StatLog.Process | body.py:39-141 | a missing input or a raising line changes nothing; otherwise the framed events are written, the path appended to the manifest and the outcome queued |
| StatLog.CapturesOfPlain | body.py:12 | the plain grammar binds each of the ten pieces under its field's name |
| StatLog.CapturesOfPlainWithBirth | body.py:10 | the eleven-field grammar binds the ten plain captures and `btime` |
| StatLog.LinkNarrows | body.py:11-13 | a link field accepts only what a `DATA` field in its place accepts |
| StatLog.CascadeChoice | body.py:9-101 | a line is taken by the eleven-field plain grammar when it fits, else by the ten-field plain grammar, else by none; no symlink grammar is ever chosen |
| StatLog.GrokNumberNonEmpty | body.py:77 | a captured number is never empty, so a captured birth time is truthy |
| StatLog.BuildWithBirth | body.py:61-77 | with eleven fields the event is built from the ten plain fields and the birth time |
| StatLog.EventWithBirth | body.py:63-95 | with a birth time the event literal is the plain event of the eleven fields |
| StatLog.BuildWithoutBirth | body.py:61-77 | with ten fields the event has no birth time |
| StatLog.EventWithoutBirth | body.py:63-95 | without a birth time the event literal is the plain event of the ten fields |
| StatLog.SymlinkEntryDropped | body.py:88-97 | the `None` symlink entry is filtered out of `additional` |
| StatLog.ParseLinePlain | body.py:49-101 | a trimmed line becomes the plain event of its `|`-pieces when a plain grammar accepts them, and is unmatched otherwise |
| StatLog.PlainEntriesFiltered | body.py:87-97 | `additional` holds block count, permissions, uid and gid, then the change time only when it renders |
| StatLog.ParsedLineShape | body.py:53-97 | a parsed line has ten or eleven fields; `full_path` is the whole second field; there is no `symlink` entry; `create_time` is `None` exactly when there is no eleventh field or it does not render |
| StatLog.PlainEventShape | body.py:53-97 | the same facts for the event built from the fields |
| StatLog.LineRaisesOnFraction | body.py:74 | a line raises exactly when a plain grammar accepts it and its `size` has a fraction |
| StatLog.PlainEventRaises | body.py:74 | a plain match raises exactly when `int(size)` fails |
| StatLog.BlankLineUnmatched | body.py:50-103 | a blank line matches nothing |
| StatLog.RaisingLineAbortsHost | body.py:140-141 | one raising line anywhere in the file aborts the host: the scan yields nothing |
| StatLog.NumeralsAccepted | body.py:10-13 | decimal renderings in number places and `|`-free text elsewhere fit a grammar |
| StatLog.RecordAccepted | body.py:10-12 | a printable record's line splits back into its fields, which the plain grammar of its arity accepts |
| StatLog.RecordEventOf | body.py:63-95 | built from a record's fields, the event carries the record's values |
| StatLog.RecordPlainEvent | body.py:63-97 | the plain event of a record's fields is the record's event |
| StatLog.RecordLineTrimmed | body.py:50 | a record line is left whole by `strip()` |
| StatLog.RecordRoundTrip | body.py:46-97 | writing a record as a bodyfile line and parsing it back gives that record's event: nothing lost, shifted or reinterpreted |
| PsAxo.Word | ps_-axo_pid_user_etime_args.py:11 | the word is no longer than the text |
| PsAxo.WordFacts | ps_-axo_pid_user_etime_args.py:11 | the word is a whitespace-free prefix, followed by whitespace or the end |
| PsAxo.SkipGap | ps_-axo_pid_user_etime_args.py:11 | skipping `\s+` never lengthens the text |
| PsAxo.SkipGapSuffix | ps_-axo_pid_user_etime_args.py:11 | what follows the whitespace is the end of the text |
| PsAxo.Next | ps_-axo_pid_user_etime_args.py:11 | reading a word and its whitespace always consumes text |
| PsAxo.LeadWords | ps_-axo_pid_user_etime_args.py:11 | reading `n` words yields exactly `n` words |
| PsAxo.BuildEvent | ps_-axo_pid_user_etime_args.py:11-63 | a matched line gives an event or raises; it is never unmatched |
| PsAxo.Process | ps_-axo_pid_user_etime_args.py:32-107 | a missing input or a raising line changes nothing; otherwise the framed events are written, the path appended to the manifest and the outcome queued |
| PsAxo.WordOf | ps_-axo_pid_user_etime_args.py:11 | a word followed by whitespace or the end is read back whole |
| PsAxo.SkipGapOf | ps_-axo_pid_user_etime_args.py:11 | whitespace before non-whitespace is skipped entirely |
| PsAxo.LeadWordsStep | ps_-axo_pid_user_etime_args.py:11 | a word and whitespace in front of `n` readable words give `n + 1` words |
| PsAxo.NextOf | ps_-axo_pid_user_etime_args.py:11 | a word and whitespace in front of text are read as that word, then that text |
| PsAxo.ClockChars | ps_-axo_pid_user_etime_args.py:11 | a grok `TIME` holds only digits and `:`, `.`, `,` |
| PsAxo.SpacedReadBack | ps_-axo_pid_user_etime_args.py:11 | whitespace-separated words are read back as written, with the rest after them |
| PsAxo.SpacedEnd | ps_-axo_pid_user_etime_args.py:11 | a spaced line ends with its rest |
| PsAxo.SpacedStart | ps_-axo_pid_user_etime_args.py:43 | a spaced line does not start with whitespace |
| PsAxo.RecordWords | ps_-axo_pid_user_etime_args.py:11 | a record line's four leading words are its columns, and the command is the rest |
| PsAxo.RecordLineTrimmed | ps_-axo_pid_user_etime_args.py:43 | a record line is left whole by `strip()` |
| PsAxo.RecordRoundTrip | ps_-axo_pid_user_etime_args.py:11-63 | writing a process as a listing line and parsing it back gives its pid, parent pid, user and whole command line, whatever whitespace separates the columns; the elapsed time is dropped |
| PsAxo.RecordMatch | ps_-axo_pid_user_etime_args.py:11 | the grammar accepts a record line and captures its columns |
| PsAxo.LeadWordsRest | ps_-axo_pid_user_etime_args.py:11 | what follows the words is the end of the text |
| PsAxo.NextRest | ps_-axo_pid_user_etime_args.py:11 | what follows the next word is the end of the text |
| PsAxo.LeadWordsMore | ps_-axo_pid_user_etime_args.py:11 | reading more words reads the same first ones |
| PsAxo.PsMatchFields | ps_-axo_pid_user_etime_args.py:11 | a match captures the four leading words, which are number, number, user and time, and the end of the line as the command |
| PsAxo.ParsedLineEvent | ps_-axo_pid_user_etime_args.py:43-63 | a parsed line's event has pid and parent pid equal to `int()` of the first two words (neither has a fraction), the third word as user, and the rest as command line |
| PsAxo.BuildEventFields | ps_-axo_pid_user_etime_args.py:45-63 | the same facts for the event built from the captures |
| PsAxo.LineRaisesOnFraction | ps_-axo_pid_user_etime_args.py:11 | a line raises exactly when it matches and its pid or ppid has a fraction |
| PsAxo.RaisingLineAbortsHost | ps_-axo_pid_user_etime_args.py:106-107 | one raising line anywhere aborts the host |
| PsAxo.NonNumericLeadUnmatched | ps_-axo_pid_user_etime_args.py:11 | a line whose first word is not a number is a failure |
| PsAxo.PsMatchLead | ps_-axo_pid_user_etime_args.py:11 | a matched line starts with a number and has a user name as its third word |
| PsAxo.HeaderUnmatched | ps_-axo_pid_user_etime_args.py:43-69 | the `PID USER ELAPSED COMMAND` header is a failure |
| PsAxo.HeaderLead | ps_-axo_pid_user_etime_args.py:43 | the header is trimmed and its first word is not a number |
| PsAxo.HeaderWord | ps_-axo_pid_user_etime_args.py:11 | the header's first word is `PID` |
| PsAxo.PidNotNumber | ps_-axo_pid_user_etime_args.py:11 | `PID` is not a grok `NUMBER` |
| PsAxo.BlankLineUnmatched | ps_-axo_pid_user_etime_args.py:43-69 | a blank line is a failure |
| PsAxo.ColumnsWithoutParentUnmatched | ps_-axo_pid_user_etime_args.py:11 | a line in the order `pid user elapsed command` is never parsed |
| PsAxo.SpacedLineTrimmed | ps_-axo_pid_user_etime_args.py:43 | a spaced line that starts with a word and ends outside whitespace is already trimmed |
| PsAxo.ElapsedForms | ps_-axo_pid_user_etime_args.py:11 | `hh:mm:ss` is a grok `TIME`; `mm:ss`, `dd-hh:mm:ss` and hour 24 are not |
| Tracker.LoadRowsMeaning | body.py:148-151 | loading fails exactly when a row lacks a key column, and otherwise yields exactly the (hostname, uac_log_path) pairs of the rows |
| Tracker.FieldNames | body.py:170-176 | the header is exactly the seven outcome keys, whatever the queue held |
| Tracker.Rows | body.py:183 | one row per outcome, in queue order |
| Tracker.UpdateTracker | body.py:154-185 | drains the queue, then rewrites the tracker with the old rows followed by the new outcomes, under the seven-key header; it reports failure exactly when an old row has another column |
| Tracker.RowsFit | body.py:184-185 | outcome rows always fit the header, so only an old row can stop the write |
| Tracker.OutcomeFits | body.py:131-139 | an outcome row fits the header |
| Tracker.TrackerAppends | body.py:183-185 | over a tracker this code wrote, the new file is every old row in order, then one row per outcome in queue order; nothing is replaced or merged |
| Tracker.LoadRowsAppend | body.py:148-151 | loading two row lists in a row gives the union of their pairs |
| Tracker.PairsMeaning | body.py:149 | the pairs of outcomes are exactly the pairs of some outcome |
| Tracker.LoadOutcomeRows | body.py:148-151 | loading the outcome rows gives exactly the outcomes' pairs |
| Tracker.ReloadedTracker | body.py:144-185 | loading after an update gives the old pairs together with the new outcomes' pairs |
| Tracker.KeyedRows | body.py:148-151 | rows this code wrote always load |
| Coordinator.ChildInjective | body.py:236 | two names in the same directory give the same path only when they are equal |
| Coordinator.CandidateInjective | body.py:232-236 | different attempts give different output names |
| Coordinator.ChooseOutputName | body.py:232-237 | the name chosen is free, every earlier candidate exists, and it is candidate `n` |
| Coordinator.TriedStep | body.py:235-237 | one more taken attempt keeps the loop invariant and shrinks the untried files |
| Coordinator.NotTried | body.py:235-237 | a later attempt's name is none of the earlier ones |
| Coordinator.FirstFreeUnique | body.py:232-237 | the loop's answer depends only on the files present and the host |
| Coordinator.SourcesDefined | body.py:218-220 | the job list is defined exactly when every catalog row has both key columns |
| Coordinator.AfterAfter | body.py:238 | appending job lists in two steps is appending them in one |
| Coordinator.FindArtifacts | body.py:227-230 | the walk loop adds, in walk order, every file with the artifact's name |
| Coordinator.FindRowSources | body.py:219-238 | one row adds no job when its log path is empty or the log's directory is missing, else one job per artifact file below it |
| Coordinator.SourcesStep | body.py:218-238 | one catalog row seen from the loop that walks it |
| Coordinator.CollectSources | body.py:218-238 | the loops build exactly the job list of the catalog, in catalog order, and fail on a row without a key column |
| Coordinator.NameJobs | body.py:232-238 | as written: each job gets the first free name for its host among the files on disk |
| Coordinator.SameHostSameOutput | body.py:232-238 | as written: two jobs of one host get the same output path |
| Coordinator.TwoListingsOneHost | ps_-axo_pid_user_etime_args.py:186-197 | one catalog row whose directory holds the artifact twice yields two jobs of one host |
| Coordinator.OutputsHas | body.py:238 | every job's output is among the outputs |
| Coordinator.NameJobsApart | body.py:232-238 | corrected: each job takes the first name neither on disk nor already given; no output is on disk and no two are equal |
| Coordinator.ApartSnoc | body.py:232-238 | naming one more job this way keeps the outputs apart |
| Coordinator.OutputsSnoc | body.py:238 | one more job adds its output |
| Coordinator.SnocNamed | body.py:232-238 | one more job named in turn keeps every job named in turn and off the disk |
| Coordinator.SnocDistinct | body.py:232-238 | a job whose output no earlier job has keeps outputs distinct |
| Coordinator.RunJob | body.py:195-197 | a job's outcome is the tally of its input as the parser reads it, or none when the input is missing or a line raises; the disk becomes what the parser leaves, and the queue gains that outcome and nothing else |
| Coordinator.RunAll | body.py:246-247 | running the jobs in turn gives one outcome per job |
| Coordinator.RunAllAt | body.py:246-247 | job `k`'s outcome is what it finds on the disk the jobs before it left |
| Coordinator.RunAllSnoc | body.py:246-247 | one more job runs on the disk the earlier jobs left and adds its outcome at the end |
| Coordinator.Completed | ps_-axo_pid_user_etime_args.py:106-107 | the queued outcomes are those of the jobs that completed, in job order; there are as many as jobs exactly when every job completed |
| Coordinator.QueuedSnoc | body.py:131 | one more job adds to the queue exactly what it queued |
| Coordinator.RunJobs | body.py:246-247 | the disk and the outcomes are those of the jobs run in turn, and the queue holds, in order, the outcomes of the jobs that completed and never a `"DONE"` |
| Coordinator.RunAndTrack | body.py:244-251 | after the jobs ran in turn and `"DONE"` was queued, the tracker is rewritten with the outcomes of the completed jobs appended, on the disk the jobs left |
| Coordinator.Run | body.py:200-251 | without a catalog, with a tracker that does not load, or with no jobs, nothing changes; otherwise every catalogued artifact is a job whatever the tracker holds, each job is named with the first name free on the disk as it was (so jobs of one host share a name), the jobs run in turn, and the tracker is rewritten with the completed jobs' outcomes appended |
| Coordinator.RunApart | body.py:200-251 | corrected `main`: the same run with outputs named apart, none on disk and no two equal |
| Evidence.TextAfterMeaning | main.py:22 | the text after the tag is a stretch of the line holding no further tag |
| Evidence.SecondPiece | main.py:22 | `line.split(tag)[1]` is the text after the first tag, up to the next one |
| Evidence.HostnameAt | main.py:20-22 | the first line holding `Hostname:` decides, whatever later lines say |
| Evidence.NoHostname | main.py:20-25 | with no line holding `Hostname:`, there is no host name |
| Evidence.HostnameCell | main.py:63 | the cell is never empty: the extracted name, or `UNKNOWN` when there is none or it is empty |
| Evidence.CatalogRow | main.py:58-64 | a catalog row has exactly the three columns, with the log, its directory and the host cell |
| Evidence.CatalogRows | main.py:58-64 | one row per found log, in discovery order |
| Evidence.WriteEvidenceCsv | main.py:53-64 | the catalog is rewritten with its header and one row per log; nothing else changes |
| Evidence.CatalogFeedsParsers | main.py:55-64 | every catalog row has both key columns and a nonempty host, so the parsers' job list is always defined over it |
| Evidence.Files | main.py:75-79 | one file per walked entry, with `os.path.join(root, fname)` as its full path |
| Evidence.UnseenFrom | main.py:78-80 | each kept file is a listed one not seen before |
| Evidence.UnseenDistinct | main.py:78-80 | no two kept files share a full path |
| Evidence.UnseenPaths | main.py:78-80 | every listed path not seen before is kept |
| Evidence.UnseenAppend | main.py:69-80 | first-seen order: the files kept from a longer listing begin with those kept from its prefix |
| Evidence.AddFolder | main.py:75-80 | one folder's walk adds its unseen files in order and marks their paths seen |
| Evidence.ListedStep | main.py:72-75 | the files below the folders from `f` on are those of folder `f`, then those of the rest |
| Evidence.FolderStep | main.py:72-80 | one folder's files kept on top of those kept so far are those kept from the longer listing |
| Evidence.CollectEvidence | main.py:69-80 | the folder loop keeps each full path once, in first-seen order, visiting `bodyfile`, `hash_executables`, `live_response` |
| Evidence.CollectFrom | main.py:72-80 | the folder loop over any list of folders keeps the first file seen under each path |
| Evidence.EvidenceRows | main.py:85-86 | one row per evidence file, in order |
| Evidence.ProcessSingleUac | main.py:66-88 | the dump's evidence list is written beside it and exactly one message, the log and that list's path, is queued |
| Evidence.UpdatedHeader | main.py:94-98 | the header read, or the catalog's own for an empty file, kept whole as its prefix; it has `evidence_path`, is unchanged when `evidence_path` was there and gains exactly `evidence_path` at the end when it was not |
| Evidence.HeaderOnce | main.py:97-98 | `evidence_path` ends up in the header exactly once, and a second update changes nothing more |
| Evidence.AssignHit | main.py:105-108 | the first row naming the log gets the path; every other row is unchanged |
| Evidence.AssignMiss | main.py:105-109 | a message naming no row changes nothing |
| Evidence.AssignAbort | main.py:106 | a row without the log column reached before any match raises `KeyError` |
| Evidence.AssignNote | main.py:105-108 | the row loop stops at the first row naming the log |
| Evidence.AssignShape | main.py:105-108 | over rows that have the log column, a message never raises and changes at most the evidence path of one row |
| Evidence.ApplyAllShape | main.py:99-109 | over rows that have the log column, the update never raises and keeps the row count, the order and every other column |
| Evidence.HeaderWidens | main.py:97-98 | the new header keeps every old column and has `evidence_path` |
| Evidence.SameButFits | main.py:113-114 | a row changed only in `evidence_path` fits the widened header |
| Evidence.UpdateKeepsRows | main.py:99-114 | over a well-formed catalog, the rewritten catalog has every row in place with every old column as it was |
| Evidence.ApplyQueue | main.py:99-109 | at most `total` messages are taken, up to a `"DONE"`, each applied in turn; one that names no row still counts |
| Evidence.UpdateEvidenceCsv | main.py:90-115 | a missing catalog changes nothing; a `KeyError` writes nothing; otherwise the catalog is rewritten under the updated header with the messages applied |
| Evidence.ClampCores | main.py:129-135 | the core count is within `1..max_cores`; empty, non-integer or missing input gives `max_cores`; an integer is clamped |
| Evidence.ChildEnds | main.py:81 | a path made with a file name ends with that name |
| Evidence.CatalogApart | main.py:14-81 | the catalog is never one of the evidence lists |
| Evidence.Notes | main.py:88 | one message per dump, in dump order |
| Evidence.SameEvidenceCsv | main.py:73-81 | two dumps whose evidence lists share a path have the same evidence files |
| Evidence.ListedSameDir | main.py:73 | the same directory gives the same listing |
| Evidence.WithEvidenceHas | main.py:81-86 | every dump's evidence list is on disk with its files |
| Evidence.WithEvidenceOver | main.py:81-86 | writing a file that is no evidence list commutes with writing the lists |
| Evidence.ProcessAll | main.py:142-143 | the sequential loop writes every dump's list and queues one message per dump, in order |
| Evidence.Process | main.py:117-144 | the catalog is written; with no dump, that is all; otherwise the core count is clamped, the evidence lists are written and the catalog is updated from the queue |
| Evidence.CatalogApartAll | main.py:14-81 | the catalog is no dump's evidence list |
| Evidence.RewriteOver | main.py:110-114 | writing the catalog, the lists, then the catalog again is the same as writing only the last catalog |
| Evidence.ProcessDumps | main.py:142-144 | the dumps processed in turn, then the catalog updated from their messages |
| Evidence.Partly | main.py:105-108 | after the first `i` messages, exactly the first `i` rows carry their evidence path |
| Evidence.StampedKeys | main.py:97-107 | a stamped row has the catalog columns and `evidence_path` |
| Evidence.StampFrom | main.py:99-109 | with distinct logs, the remaining messages stamp the remaining rows |
| Evidence.EveryDumpStamped | main.py:90-144 | with distinct logs, the run leaves every catalog row in place with its evidence list's path added, under the catalog header followed by `evidence_path` |

## Left out

- Directory walks, zip extraction and the search for `uac.log` files are inputs. This covers `os.walk`, `unzip_all_in_dir` (main.py:27-41), `find_uac_logs` (main.py:43-51) and `exists` on directories. They are I/O.
- `mkdir` is left out: directories are not modelled.
- `Path.resolve()` is left out: output paths are taken as already absolute.
- Worker pools, `Manager` queues and the listener process are not modelled (body.py:246-247; main.py:145-151). The model covers only runs in which each job runs whole before the next starts, as with one worker. With several workers, jobs run at the same time and their steps interleave. Two jobs can both find `Evidence/uploader.txt` missing (body.py:118) and both append to it, leaving two lines, which no sequential order gives. Two jobs that share an output name can write that file at the same time. These interleavings are not modelled.
- The parallel branch of `main.py`'s `process` is left out. Its dumps run in a pool while a listener drains the queue, and a `"DONE"` ends the drain. The sequential branch is modelled.
- `json.dump` of an event is the `render` parameter. The bytes of an event are not modelled.
- CSV quoting and escaping are not modelled. A table is its header and row maps. Rows of a malformed file (`DictReader` filling `None` or a `None` key) are not modelled.
- UTF-8 decoding with `errors="ignore"` is not modelled. Files are already-decoded text.
- `print` diagnostics are left out.
- The `input()` prompts are left out. The core-count answer is a parameter, `None` when `input` raises at end of input.
- The `collected_timestamp` of a `ps` event (`datetime.utcnow()`, ps_-axo_pid_user_etime_args.py:60) is left out. It is the wall clock.
- Ingest.RateHundredths: models `:.2f` as exact rounding of the rational ratio to hundredths, ties to even. The binary floating-point value of `success/total*100` can round differently in the last digit.
- Timestamp.Format: the year is always padded to four digits. Some platforms' `strftime('%Y')` print years below 1000 without padding.
- The pygrok regex engine is replaced by the field-split grammars, which assume no `|` inside a `DATA` field.
- Text.IsSpace: lists the characters Python's `str.isspace()` accepts, and uses them for grok's `\s` as well.
- Storage.Parent: covers normalised paths only. `pathlib` normalisation (`..`, repeated slashes) is not modelled.
- Storage.Channel.Get: requires a nonempty queue. A `get` that would block forever is excluded by `Settles`, which the drains require.
- Storage.FileSystem.AppendText: a path holds either a text file or a table, never both. Appending text to a path that holds a table starts from empty text and drops the table's rows, and a table is not readable as text. In Python a CSV file is text: appending adds a line after its rows, and either reader reads it. This only matters when the first line of `uploader.txt` names the tracker or the catalog.
- Evidence.ClampCores: requires `max_cores >= 1`, as `cpu_count()` always is.
- Evidence.ClampCores: `int()` is modelled on ASCII digits only. Python's `int()` also accepts other Unicode decimal digits (`int("２") == 2`); in the model such an answer gives `max_cores`. Grok-captured numbers are ASCII digits, so the parsers are unaffected.
- Evidence.Process: models the sequential branch only, as above.

## Findings

| source | as written | input that shows it | evidently intended | confidence | as-written member | corrected member |
|---|---|---|---|---|---|---|
| body.py:232-238 | each job's output name avoids only the files already on disk, not the names given to earlier jobs of the same run (ps_-axo_pid_user_etime_args.py has the same loop) | a catalog row `web01` whose directory holds the artifact twice (or two rows with hostname `UNKNOWN`): both jobs are named `ps_axo_output_web01.json` and the second overwrites the first | every job of a run writes its own file, so the name also avoids names already chosen | not executed | Coordinator.NameJobs, Coordinator.SameHostSameOutput, Coordinator.TwoListingsOneHost, Coordinator.Run | Coordinator.NameJobsApart, Coordinator.RunApart |
