/**
 * The process-list parser (ps_-axo_pid_user_etime_args.py): every trimmed line of the `ps`
 * listing is matched against one grok grammar, `pid ppid user elapsed command...`, and becomes
 * a `PROCESS_ENUMERATION` event.
 *
 * The grammar is modelled on whitespace-separated words. NUMBER, USER and TIME never match a
 * whitespace character, and each is followed by `\s+`; so in a match each of them is exactly
 * one maximal run of non-space characters, and GREEDYDATA takes what follows the whitespace
 * after the fourth word.
 */
module PsAxo {
  import opened Wrappers
  import opened Text
  import opened Storage
  import opened Ingest

  // ---------------------------------------------------------------- words

  /** The longest prefix of `s` without a whitespace character. */
  function Word(s: string): (w: string)
    ensures |w| <= |s|
  {
    if s == [] || IsSpace(s[0]) then [] else [s[0]] + Word(s[1..])
  }

  /** The word is a prefix of `s` without whitespace, and whitespace or the end follows it. */
  lemma {:induction false} WordFacts(s: string)
    ensures var w := Word(s);
            && w == s[..|w|] && (forall i :: 0 <= i < |w| ==> !IsSpace(w[i]))
            && (|w| < |s| ==> IsSpace(s[|w|]))
  {
    if s != [] && !IsSpace(s[0]) {
      WordFacts(s[1..]);
    }
  }

  /** What follows the run of whitespace at the start of `s`: the `\s+` between two fields. */
  function SkipGap(s: string): (r: string)
    ensures |r| <= |s|
  {
    if s != [] && IsSpace(s[0]) then SkipGap(s[1..]) else s
  }

  lemma {:induction false} SkipGapSuffix(s: string)
    ensures IsSuffix(SkipGap(s), s)
  {
    if s != [] && IsSpace(s[0]) {
      SkipGapSuffix(s[1..]);
      SuffixTrans(SkipGap(s[1..]), s[1..], s);
    }
  }

  /** The first word of `s` and what follows the whitespace after it; `None` when no whitespace follows a word. */
  function Next(s: string): (r: Option<(string, string)>)
    ensures r.Some? ==> |r.value.1| < |s|
  {
    var w := Word(s);
    if w == [] || |w| == |s| then None else Some((w, SkipGap(s[|w|..])))
  }

  /**
   * `n` words, each followed by at least one whitespace character, from the start of `s`:
   * the words and what follows the whitespace after the last of them.
   */
  function LeadWords(s: string, n: nat): (r: Option<(seq<string>, string)>)
    ensures r.Some? ==> |r.value.0| == n
    decreases n
  {
    if n == 0 then Some(([], s))
    else if Next(s).None? then None
    else
      var more := LeadWords(Next(s).value.1, n - 1);
      if more.None? then None else Some(([Next(s).value.0] + more.value.0, more.value.1))
  }

  // ---------------------------------------------------------------- the grok grammar

  /** A character of grok's USERNAME, `[a-zA-Z0-9._-]`. */
  predicate IsUserChar(c: char) {
    ('a' <= c <= 'z') || ('A' <= c <= 'Z') || IsDigit(c) || c == '.' || c == '_' || c == '-'
  }

  /** grok's USER: one or more USERNAME characters. */
  predicate IsUserName(s: string) {
    s != [] && forall i :: 0 <= i < |s| ==> IsUserChar(s[i])
  }

  /** grok's HOUR, `2[0123]|[01]?[0-9]`. */
  predicate IsHour(h: string) {
    || (|h| == 1 && IsDigit(h[0]))
    || (|h| == 2 && IsDigit(h[1]) && (h[0] == '0' || h[0] == '1' || (h[0] == '2' && h[1] <= '3')))
  }

  /** grok's MINUTE, `[0-5][0-9]`. */
  predicate IsMinute(m: string) {
    |m| == 2 && '0' <= m[0] <= '5' && IsDigit(m[1])
  }

  /** The whole-second part of grok's SECOND, `[0-5]?[0-9]|60`. */
  predicate IsWholeSecond(s: string) {
    || (|s| == 1 && IsDigit(s[0]))
    || (|s| == 2 && '0' <= s[0] <= '5' && IsDigit(s[1]))
    || s == "60"
  }

  /** The optional fraction of grok's SECOND, `([:.,][0-9]+)?`. */
  predicate IsFraction(f: string) {
    f == [] || (|f| >= 2 && (f[0] == ':' || f[0] == '.' || f[0] == ',') && AllDigits(f[1..]))
  }

  /** grok's SECOND: a whole second of one or two characters, then the fraction. */
  predicate IsSecond(s: string) {
    || (|s| >= 1 && IsWholeSecond(s[..1]) && IsFraction(s[1..]))
    || (|s| >= 2 && IsWholeSecond(s[..2]) && IsFraction(s[2..]))
  }

  /** grok's TIME, `HOUR:MINUTE:SECOND`, with an hour of `h` characters. */
  predicate ClockWithHour(w: string, h: nat) {
    && |w| >= h + 4
    && IsHour(w[..h]) && w[h] == ':' && IsMinute(w[h + 1..h + 3]) && w[h + 3] == ':'
    && IsSecond(w[h + 4..])
  }

  /** grok's TIME: the seconds are not optional, so `mm:ss` and `dd-hh:mm:ss` are not times. */
  predicate IsClock(w: string) {
    ClockWithHour(w, 1) || ClockWithHour(w, 2)
  }

  /** The five captures of the grammar of ps_-axo_pid_user_etime_args.py:11, as text. */
  datatype PsCapture = PsCapture(pid: string, ppid: string, user: string, elapsed: string, commandLine: string)

  /** `grok.match` on a whole trimmed line: the captures, or `None` when the line does not fit. */
  function PsMatch(line: string): Option<PsCapture> {
    match LeadWords(line, 4)
    case None => None
    case Some((w, rest)) =>
      if IsGrokNumber(w[0]) && IsGrokNumber(w[1]) && IsUserName(w[2]) && IsClock(w[3]) && '\n' !in rest
      then Some(PsCapture(w[0], w[1], w[2], w[3], rest))
      else None
  }

  // ---------------------------------------------------------------- the event

  datatype PsProcess = PsProcess(pid: int, parentPid: int, commandLine: string)
  datatype PsPrincipal = PsPrincipal(process: PsProcess, userId: string, hostname: string)
  datatype PsMetadata = PsMetadata(eventType: string, productName: string)

  /** The event a matching line becomes (ps_-axo_pid_user_etime_args.py:45-63). */
  datatype PsEvent = PsEvent(principal: PsPrincipal, metadata: PsMetadata, namespace: string)

  const Enumeration := PsMetadata("PROCESS_ENUMERATION", "Linux")
  const Namespace := "UnixArtifactCollector"

  /**
   * The `:int` conversions of `pid` and `ppid` that pygrok applies while matching: a number
   * with a fraction makes `int()` raise, and that exception leaves `grok.match` and ends the job.
   */
  function BuildEvent(c: PsCapture, host: string): (r: LineResult<PsEvent>)
    ensures !r.Unmatched?
  {
    match (PyInt(c.pid), PyInt(c.ppid))
    case (Some(pid), Some(ppid)) =>
      Parsed(PsEvent(PsPrincipal(PsProcess(pid, ppid, c.commandLine), c.user, host), Enumeration, Namespace))
    case _ => Raised
  }

  /** One line of the loop of ps_-axo_pid_user_etime_args.py:40-69. */
  function ParseLine(line: string, host: string): LineResult<PsEvent> {
    match PsMatch(Strip(line))
    case None => Unmatched
    case Some(c) => BuildEvent(c, host)
  }

  function ParseLineOf(host: string): string -> LineResult<PsEvent> {
    line => ParseLine(line, host)
  }

  /** The scan of a process listing read line by line with universal newlines. */
  function PsTally(content: string, host: string): Option<Tally<PsEvent>> {
    Scan(ParseEach(Lines(Newlines(content)), ParseLineOf(host)))
  }

  /**
   * `PsAxoLogParser.process` (ps_-axo_pid_user_etime_args.py:32-107): a missing input or an
   * exception in the scan changes nothing; otherwise the framed events are written, the output
   * path is appended to the manifest and the outcome record is queued. `render` stands for
   * `json.dump` of one event.
   */
  method Process(fs: FileSystem, queue: Channel<Message<Outcome>>, job: Job, render: PsEvent -> string)
    modifies fs, queue
    ensures var input := old(fs.ReadText(job.inputPath));
            if input.None? || PsTally(input.value, job.hostname).None? then
              fs.files == old(fs.files) && queue.items == old(queue.items)
            else
              var t := PsTally(input.value, job.hostname).value;
              && fs.files == Published(old(fs.files), job.outputPath, Framed(Rendered(t.events, render)))
              && queue.items == old(queue.items) + [Item(OutcomeOf(job, t))]
  {
    var input := fs.ReadText(job.inputPath);
    if input.None? {
      return;
    }
    var scanned := ScanLines(Lines(Newlines(input.value)), ParseLineOf(job.hostname));
    if scanned.None? {
      return;
    }
    Publish(fs, queue, job, Rendered(scanned.value.events, render), scanned.value);
  }

  // ---------------------------------------------------------------- reading words back

  /** A word followed by whitespace, or by nothing, is read back whole. */
  lemma {:induction false} WordOf(w: string, t: string)
    requires forall i :: 0 <= i < |w| ==> !IsSpace(w[i])
    requires t == [] || IsSpace(t[0])
    ensures Word(w + t) == w
    decreases |w|
  {
    if w != [] {
      assert (w + t)[0] == w[0] && (w + t)[1..] == w[1..] + t;
      WordOf(w[1..], t);
    }
  }

  /** Whitespace before text that does not start with whitespace is skipped entirely. */
  lemma {:induction false} SkipGapOf(gap: string, s: string)
    requires forall i :: 0 <= i < |gap| ==> IsSpace(gap[i])
    requires s == [] || !IsSpace(s[0])
    ensures SkipGap(gap + s) == s
    decreases |gap|
  {
    if gap == [] {
      assert gap + s == s;
    } else {
      assert (gap + s)[0] == gap[0] && (gap + s)[1..] == gap[1..] + s;
      SkipGapOf(gap[1..], s);
    }
  }

  /** A run of non-whitespace characters. */
  predicate IsWord(w: string) {
    w != [] && forall i :: 0 <= i < |w| ==> !IsSpace(w[i])
  }

  /** Whitespace-separated: at least one whitespace character and nothing else. */
  predicate IsGap(gap: string) {
    gap != [] && forall i :: 0 <= i < |gap| ==> IsSpace(gap[i])
  }

  /** Reading one word and the whitespace after it. */
  lemma LeadWordsStep(line: string, w: string, gap: string, s: string, n: nat, ws: seq<string>, rest: string)
    requires line == w + gap + s
    requires IsWord(w) && IsGap(gap)
    requires s == [] || !IsSpace(s[0])
    requires LeadWords(s, n) == Some((ws, rest))
    ensures LeadWords(line, n + 1) == Some(([w] + ws, rest))
  {
    NextOf(line, w, gap, s);
  }

  /** A word and whitespace in front of `s` are read as the next word, and `s` follows. */
  lemma NextOf(line: string, w: string, gap: string, s: string)
    requires line == w + gap + s
    requires IsWord(w) && IsGap(gap)
    requires s == [] || !IsSpace(s[0])
    ensures Next(line) == Some((w, s))
  {
    assert line == w + (gap + s);
    WordOf(w, gap + s);
    assert line[|w|..] == gap + s;
    SkipGapOf(gap, s);
  }

  /** A clock time is made of digits and the separators `:`, `.` and `,`, so it has no whitespace. */
  lemma ClockChars(w: string)
    requires IsClock(w)
    ensures forall i :: 0 <= i < |w| ==> IsDigit(w[i]) || w[i] == ':' || w[i] == '.' || w[i] == ','
  {
    var h := if ClockWithHour(w, 1) then 1 else 2;
    var sec := w[h + 4..];
    var b := if |sec| >= 1 && IsWholeSecond(sec[..1]) && IsFraction(sec[1..]) then 1 else 2;
    forall i | 0 <= i < |w| ensures IsDigit(w[i]) || w[i] == ':' || w[i] == '.' || w[i] == ',' {
      if i < h {
        assert w[i] == w[..h][i];
      } else if h < i < h + 3 {
        assert w[i] == w[h + 1..h + 3][i - h - 1];
      } else if i > h + 3 {
        var j := i - h - 4;
        assert w[i] == sec[j];
        if j < b {
          assert sec[j] == sec[..b][j];
        } else if j > b {
          assert sec[j] == sec[b..][1..][j - b - 1];
        }
      }
    }
  }

  // ---------------------------------------------------------------- lines of a listing

  /** One process as `ps` prints it in the column order the grammar expects. */
  datatype PsRecord = PsRecord(pid: int, ppid: int, user: string, elapsed: string, command: string)

  /** A record whose columns the grammar can read: the command has no line break and no outer whitespace. */
  predicate Printable(r: PsRecord) {
    && IsUserName(r.user) && IsClock(r.elapsed)
    && r.command != [] && '\n' !in r.command
    && !IsSpace(r.command[0]) && !IsSpace(r.command[|r.command| - 1])
  }

  /** Words each followed by `gap`, then `rest`. */
  function Spaced(words: seq<string>, gap: string, rest: string): string {
    if words == [] then rest else words[0] + gap + Spaced(words[1..], gap, rest)
  }

  /** Words separated by whitespace are read back as they were written, and the rest after them. */
  lemma {:induction false} SpacedReadBack(words: seq<string>, gap: string, rest: string)
    requires forall k :: 0 <= k < |words| ==> IsWord(words[k])
    requires IsGap(gap) && (rest == [] || !IsSpace(rest[0]))
    ensures LeadWords(Spaced(words, gap, rest), |words|) == Some((words, rest))
  {
    if words != [] {
      WordsTail(words);
      SpacedReadBack(words[1..], gap, rest);
      SpacedStart(words[1..], gap, rest);
      SpacedReadBackStep(words[0], words[1..], gap, rest);
    }
  }

  /** A spaced line ends with its rest. */
  lemma {:induction false} SpacedEnd(words: seq<string>, gap: string, rest: string)
    requires rest != []
    ensures var line := Spaced(words, gap, rest); line != [] && line[|line| - 1] == rest[|rest| - 1]
  {
    if words != [] {
      SpacedEnd(words[1..], gap, rest);
    }
  }

  /** The words after the first are words, and with the first they make up the whole sequence. */
  lemma WordsTail(words: seq<string>)
    requires words != [] && forall k :: 0 <= k < |words| ==> IsWord(words[k])
    ensures forall k :: 0 <= k < |words| - 1 ==> IsWord(words[1..][k])
    ensures [words[0]] + words[1..] == words
  {
  }

  /** The inductive step of `SpacedReadBack`: one more word in front. */
  lemma SpacedReadBackStep(w: string, ws: seq<string>, gap: string, rest: string)
    requires IsWord(w) && IsGap(gap)
    requires var tail := Spaced(ws, gap, rest); tail == [] || !IsSpace(tail[0])
    requires LeadWords(Spaced(ws, gap, rest), |ws|) == Some((ws, rest))
    ensures LeadWords(Spaced([w] + ws, gap, rest), |ws| + 1) == Some(([w] + ws, rest))
  {
    assert ([w] + ws)[1..] == ws;
    LeadWordsStep(Spaced([w] + ws, gap, rest), w, gap, Spaced(ws, gap, rest), |ws|, ws, rest);
  }

  /** A spaced line starts with its first word, or with the rest when there are no words. */
  lemma SpacedStart(words: seq<string>, gap: string, rest: string)
    requires forall k :: 0 <= k < |words| ==> IsWord(words[k])
    requires rest == [] || !IsSpace(rest[0])
    ensures var line := Spaced(words, gap, rest); line == [] || !IsSpace(line[0])
  {
    if words != [] {
      assert Spaced(words, gap, rest)[0] == words[0][0];
    }
  }

  /** The record's line: the four leading columns each followed by `gap`, then the command. */
  function RecordLine(r: PsRecord, gap: string): string {
    Spaced([IntToString(r.pid), IntToString(r.ppid), r.user, r.elapsed], gap, r.command)
  }

  /** The event the record denotes; its elapsed time plays no part. */
  function RecordEvent(r: PsRecord, host: string): PsEvent {
    PsEvent(PsPrincipal(PsProcess(r.pid, r.ppid, r.command), r.user, host), Enumeration, Namespace)
  }

  /** The four leading columns of a record line are read back as its words, and the command as the rest. */
  lemma RecordWords(r: PsRecord, gap: string)
    requires Printable(r) && IsGap(gap)
    ensures LeadWords(RecordLine(r, gap), 4) ==
              Some(([IntToString(r.pid), IntToString(r.ppid), r.user, r.elapsed], r.command))
  {
    IntStringChars(r.pid);
    IntStringChars(r.ppid);
    ClockChars(r.elapsed);
    SpacedReadBack([IntToString(r.pid), IntToString(r.ppid), r.user, r.elapsed], gap, r.command);
  }

  /** A record line has no whitespace at either end, so trimming keeps it. */
  lemma RecordLineTrimmed(r: PsRecord, gap: string)
    requires Printable(r)
    ensures Strip(RecordLine(r, gap)) == RecordLine(r, gap)
  {
    var line := RecordLine(r, gap);
    var a := IntToString(r.pid);
    IntStringChars(r.pid);
    assert line[0] == a[0];
    SpacedEnd([a, IntToString(r.ppid), r.user, r.elapsed], gap, r.command);
    StripKeeps(line);
  }

  /**
   * Writing a process as a listing line and parsing it back gives the event of that process:
   * pid, parent pid, user and the whole command line survive, whatever whitespace separates
   * the columns, and the elapsed time is dropped (ps_-axo_pid_user_etime_args.py:11, 43-63).
   */
  lemma RecordRoundTrip(r: PsRecord, gap: string, host: string)
    requires Printable(r) && IsGap(gap)
    ensures ParseLine(RecordLine(r, gap), host) == Parsed(RecordEvent(r, host))
  {
    var line := RecordLine(r, gap);
    var c := PsCapture(IntToString(r.pid), IntToString(r.ppid), r.user, r.elapsed, r.command);
    RecordLineTrimmed(r, gap);
    RecordMatch(r, gap);
    assert PsMatch(Strip(line)) == Some(c);
    PyIntOfString(r.pid);
    PyIntOfString(r.ppid);
    assert BuildEvent(c, host) == Parsed(RecordEvent(r, host));
  }

  /** The grammar accepts a record line and captures its columns. */
  lemma RecordMatch(r: PsRecord, gap: string)
    requires Printable(r) && IsGap(gap)
    ensures PsMatch(RecordLine(r, gap)) ==
              Some(PsCapture(IntToString(r.pid), IntToString(r.ppid), r.user, r.elapsed, r.command))
  {
    RecordWords(r, gap);
    IntStringIsGrokNumber(r.pid);
    IntStringIsGrokNumber(r.ppid);
  }

  // ---------------------------------------------------------------- what a line becomes

  /** `x` is the end of `y`. */
  predicate IsSuffix(x: string, y: string) {
    |x| <= |y| && x == y[|y| - |x|..]
  }

  lemma SuffixTrans(x: string, y: string, z: string)
    requires IsSuffix(x, y) && IsSuffix(y, z)
    ensures IsSuffix(x, z)
  {
    assert z[|z| - |y|..][|y| - |x|..] == z[|z| - |x|..];
  }

  /** What follows the words is the end of the text they were read from. */
  lemma {:induction false} LeadWordsRest(s: string, n: nat)
    requires LeadWords(s, n).Some?
    ensures IsSuffix(LeadWords(s, n).value.1, s)
    decreases n
  {
    if n > 0 {
      var t := Next(s).value.1;
      LeadWordsRest(t, n - 1);
      NextRest(s);
      SuffixTrans(LeadWords(t, n - 1).value.1, t, s);
    } else {
      assert s[|s| - |s|..] == s;
    }
  }

  /** What follows the next word is the end of the text. */
  lemma NextRest(s: string)
    requires Next(s).Some?
    ensures IsSuffix(Next(s).value.1, s)
  {
    var w := Word(s);
    SkipGapSuffix(s[|w|..]);
    SuffixTrans(SkipGap(s[|w|..]), s[|w|..], s);
  }

  /** Reading more words reads the same first ones. */
  lemma {:induction false} LeadWordsMore(s: string, n: nat)
    requires LeadWords(s, n + 1).Some?
    ensures LeadWords(s, n).Some? && LeadWords(s, n).value.0 == LeadWords(s, n + 1).value.0[..n]
    decreases n
  {
    if n > 0 {
      var t := Next(s).value.1;
      LeadWordsMore(t, n - 1);
      var longer := LeadWords(t, n).value.0;
      assert ([Next(s).value.0] + longer)[..n] == [Next(s).value.0] + longer[..n - 1];
    }
  }

  /** What the grammar captures: the four leading words and, as the command line, the end of the line after them. */
  lemma PsMatchFields(s: string)
    requires PsMatch(s).Some?
    ensures var c := PsMatch(s).value;
            && LeadWords(s, 4) == Some(([c.pid, c.ppid, c.user, c.elapsed], c.commandLine))
            && IsGrokNumber(c.pid) && IsGrokNumber(c.ppid) && IsUserName(c.user) && IsClock(c.elapsed)
            && IsSuffix(c.commandLine, s)
  {
    LeadWordsRest(s, 4);
    var w := LeadWords(s, 4).value.0;
    assert w == [w[0], w[1], w[2], w[3]];
  }

  /**
   * The event of a parsed line is read off the captures: pid and parent pid are the values
   * `int()` gives for the first two words, which have no fraction, the user is the third word,
   * the command line is the capture after the fourth, and the elapsed time is not kept
   * (ps_-axo_pid_user_etime_args.py:45-63). With `PsMatchFields`, only a line of the form
   * `pid ppid user elapsed command...` is parsed.
   */
  lemma ParsedLineEvent(line: string, host: string)
    requires ParseLine(line, host).Parsed?
    ensures PsMatch(Strip(line)).Some?
    ensures var c := PsMatch(Strip(line)).value;
            var e := ParseLine(line, host).event;
            && '.' !in c.pid && '.' !in c.ppid
            && PyInt(c.pid) == Some(e.principal.process.pid) && PyInt(c.ppid) == Some(e.principal.process.parentPid)
            && e == RecordEvent(PsRecord(e.principal.process.pid, e.principal.process.parentPid, c.user, c.elapsed, c.commandLine), host)
  {
    var c := PsMatch(Strip(line)).value;
    PsMatchFields(Strip(line));
    BuildEventFields(c, host);
  }

  lemma BuildEventFields(c: PsCapture, host: string)
    requires BuildEvent(c, host).Parsed? && IsGrokNumber(c.pid) && IsGrokNumber(c.ppid)
    ensures var e := BuildEvent(c, host).event;
            && '.' !in c.pid && '.' !in c.ppid
            && PyInt(c.pid) == Some(e.principal.process.pid) && PyInt(c.ppid) == Some(e.principal.process.parentPid)
            && e == RecordEvent(PsRecord(e.principal.process.pid, e.principal.process.parentPid, c.user, c.elapsed, c.commandLine), host)
  {
    GrokNumberInt(c.pid);
    GrokNumberInt(c.ppid);
  }

  /**
   * A line raises exactly when the grammar matches it and its pid or ppid is a number with a
   * fraction, which the `:int` conversion refuses.
   */
  lemma LineRaisesOnFraction(line: string, host: string)
    ensures ParseLine(line, host).Raised? <==>
              PsMatch(Strip(line)).Some? && ('.' in PsMatch(Strip(line)).value.pid || '.' in PsMatch(Strip(line)).value.ppid)
  {
    var m := PsMatch(Strip(line));
    if m.Some? {
      GrokNumberInt(m.value.pid);
      GrokNumberInt(m.value.ppid);
    }
  }

  /** One raising line anywhere in the listing aborts the whole host (ps_-axo_pid_user_etime_args.py:106-107). */
  lemma RaisingLineAbortsHost(content: string, host: string, i: nat)
    requires i < |Lines(Newlines(content))| && ParseLine(Lines(Newlines(content))[i], host).Raised?
    ensures PsTally(content, host).None?
  {
    ParseEachAborts(Lines(Newlines(content)), i, ParseLineOf(host));
  }

  /** A line whose first word is not a number, such as the `PID ...` header of the listing, is not parsed. */
  lemma NonNumericLeadUnmatched(line: string, host: string)
    requires !IsGrokNumber(Word(Strip(line)))
    ensures ParseLine(line, host) == Unmatched
  {
    PsMatchLead(Strip(line));
  }

  /** A matched line starts with a number and has a user name as its third word. */
  lemma PsMatchLead(s: string)
    ensures PsMatch(s).Some? ==> IsGrokNumber(Word(s))
    ensures PsMatch(s).Some? ==> LeadWords(s, 3).Some? && IsUserName(LeadWords(s, 3).value.0[2])
  {
    if PsMatch(s).Some? {
      PsMatchFields(s);
      LeadWordsMore(s, 3);
      assert LeadWords(s, 4).value.0[0] == Next(s).value.0 == Word(s);
    }
  }

  /** The header `ps` prints above the listing counts as a failed line. */
  lemma HeaderUnmatched(host: string)
    ensures ParseLine("PID USER ELAPSED COMMAND", host) == Unmatched
  {
    HeaderLead();
    NonNumericLeadUnmatched("PID USER ELAPSED COMMAND", host);
  }

  /** The header is trimmed already, and its first word is `PID`, which is not a number. */
  lemma HeaderLead()
    ensures var header := "PID USER ELAPSED COMMAND";
            Strip(header) == header && !IsGrokNumber(Word(header))
  {
    var header := "PID USER ELAPSED COMMAND";
    StripKeeps(header);
    HeaderWord();
    PidNotNumber();
  }

  lemma HeaderWord()
    ensures Word("PID USER ELAPSED COMMAND") == "PID"
  {
    assert "PID USER ELAPSED COMMAND" == "PID" + " USER ELAPSED COMMAND";
    WordOf("PID", " USER ELAPSED COMMAND");
  }

  lemma PidNotNumber()
    ensures !IsGrokNumber("PID")
  {
    assert Unsigned("PID") == "PID";
    FindChar("PID", '.');
    assert !IsDigit("PID"[0]);
  }

  /** A line with nothing but whitespace is not parsed. */
  lemma BlankLineUnmatched(line: string, host: string)
    requires Strip(line) == ""
    ensures ParseLine(line, host) == Unmatched
  {
    assert Word("") == "" && !IsGrokNumber("");
    NonNumericLeadUnmatched(line, host);
  }

  /**
   * A listing in the column order `pid user elapsed command` is never parsed: its third word
   * is an elapsed time, whose `:` is not a USERNAME character.
   */
  lemma ColumnsWithoutParentUnmatched(pid: int, user: string, elapsed: string, command: string, gap: string, host: string)
    requires IsUserName(user) && IsWord(elapsed) && ':' in elapsed && IsGap(gap)
    requires command != [] && !IsSpace(command[0]) && !IsSpace(command[|command| - 1])
    ensures ParseLine(Spaced([IntToString(pid), user, elapsed], gap, command), host) == Unmatched
  {
    var words := [IntToString(pid), user, elapsed];
    var line := Spaced(words, gap, command);
    IntStringChars(pid);
    SpacedReadBack(words, gap, command);
    SpacedLineTrimmed(words, gap, command);
    PsMatchLead(line);
    var i :| 0 <= i < |elapsed| && elapsed[i] == ':';
    assert !IsUserChar(elapsed[i]);
  }

  /** A spaced line that starts with a word and ends in a non-space character is already trimmed. */
  lemma SpacedLineTrimmed(words: seq<string>, gap: string, rest: string)
    requires |words| >= 1 && IsWord(words[0])
    requires rest != [] && !IsSpace(rest[|rest| - 1])
    ensures Strip(Spaced(words, gap, rest)) == Spaced(words, gap, rest)
  {
    var line := Spaced(words, gap, rest);
    assert line[0] == words[0][0];
    SpacedEnd(words, gap, rest);
    StripKeeps(line);
  }

  /**
   * grok's TIME needs hours, minutes and seconds and has no day part: `ps` prints an elapsed
   * time of under an hour as `mm:ss` and one of days as `dd-hh:mm:ss`, and neither is a time.
   */
  lemma ElapsedForms()
    ensures IsClock("01:02:03") && IsClock("9:59:60")
    ensures !IsClock("05:23") && !IsClock("1-02:03:04") && !IsClock("24:00:00")
  {
    assert "01:02:03"[..2] == "01" && "01:02:03"[3..5] == "02" && "01:02:03"[6..] == "03";
    assert "03"[..2] == "03" && "03"[2..] == [];
    assert ClockWithHour("01:02:03", 2);
    assert "9:59:60"[..1] == "9" && "9:59:60"[2..4] == "59" && "9:59:60"[5..] == "60";
    assert "60"[..2] == "60" && "60"[2..] == [];
    assert ClockWithHour("9:59:60", 1);
    assert "24:00:00"[..2] == "24";
  }
}
