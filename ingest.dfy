/**
 * What the two per-host parsers share (body.py:39-141, ps_-axo_pid_user_etime_args.py:32-107):
 * the tally of a line-by-line scan, the JSON-array framing of the output file, the outcome
 * record with its `success_rate`, and publishing: writing the output, appending its path to
 * the upload manifest and queueing the outcome.
 */
module Ingest {
  import opened Wrappers
  import opened Text
  import opened Storage

  // ---------------------------------------------------------------- the line scan

  /** What one input line gives: an event, no grammar matching, or an exception that ends the job. */
  datatype LineResult<E> = Parsed(event: E) | Unmatched | Raised

  /** The counters and collected events of a scan that ran to the end. */
  datatype Tally<E> = Tally(events: seq<E>, total: nat, success: nat, fail: nat)

  /** Some line raised, which ends the whole job in the `except` of `process`. */
  predicate Aborts<E>(rs: seq<LineResult<E>>) {
    exists i :: 0 <= i < |rs| && rs[i].Raised?
  }

  /** The events of the parsed lines, in line order. */
  function Events<E>(rs: seq<LineResult<E>>): seq<E> {
    if rs == [] then []
    else (if rs[0].Parsed? then [rs[0].event] else []) + Events(rs[1..])
  }

  /** The number of lines no grammar matched. */
  function Misses<E>(rs: seq<LineResult<E>>): nat {
    if rs == [] then 0 else (if rs[0].Unmatched? then 1 else 0) + Misses(rs[1..])
  }

  /** The events of a prefix grow by the next line's event, if it has one. */
  lemma {:induction false} EventsSnoc<E>(rs: seq<LineResult<E>>, r: LineResult<E>)
    ensures Events(rs + [r]) == Events(rs) + (if r.Parsed? then [r.event] else [])
    decreases |rs|
  {
    var s := rs + [r];
    if rs == [] {
      assert s[1..] == [];
    } else {
      assert s[0] == rs[0];
      assert s[1..] == rs[1..] + [r];
      EventsSnoc(rs[1..], r);
    }
  }

  /** The misses of a prefix grow by one when the next line is a miss. */
  lemma {:induction false} MissesSnoc<E>(rs: seq<LineResult<E>>, r: LineResult<E>)
    ensures Misses(rs + [r]) == Misses(rs) + (if r.Unmatched? then 1 else 0)
    decreases |rs|
  {
    var s := rs + [r];
    if rs == [] {
      assert s[1..] == [];
    } else {
      assert s[0] == rs[0];
      assert s[1..] == rs[1..] + [r];
      MissesSnoc(rs[1..], r);
    }
  }

  /** Without a raising line, every line is an event or a miss. */
  lemma {:induction false} CountsAddUp<E>(rs: seq<LineResult<E>>)
    requires !Aborts(rs)
    ensures |Events(rs)| + Misses(rs) == |rs|
    decreases |rs|
  {
    if rs != [] {
      assert !Aborts(rs[1..]) by {
        forall i | 0 <= i < |rs| - 1 ensures !rs[1..][i].Raised? {
          assert rs[1..][i] == rs[i + 1];
        }
      }
      assert !rs[0].Raised?;
      CountsAddUp(rs[1..]);
    }
  }

  /** A prefix aborts when an earlier line or the next one raises. */
  lemma AbortsSnoc<E>(rs: seq<LineResult<E>>, r: LineResult<E>)
    ensures Aborts(rs + [r]) <==> Aborts(rs) || r.Raised?
  {
    var s := rs + [r];
    if r.Raised? {
      assert s[|rs|].Raised?;
    }
    if Aborts(rs) {
      var i :| 0 <= i < |rs| && rs[i].Raised?;
      assert s[i] == rs[i];
    }
    if Aborts(s) && !r.Raised? {
      var i :| 0 <= i < |s| && s[i].Raised?;
      assert i < |rs| && rs[i] == s[i];
    }
  }

  /**
   * The loop of `process`, run line by line from the first: `total_lines` counts every line,
   * `success_count` the events, `fail_count` the misses; a raising line ends it with nothing.
   */
  function Scan<E>(rs: seq<LineResult<E>>): (t: Option<Tally<E>>)
    ensures t.Some? ==> t.value.total == t.value.success + t.value.fail
    decreases |rs|
  {
    if rs == [] then Some(Tally([], 0, 0, 0))
    else
      match Scan(rs[..|rs| - 1])
      case None => None
      case Some(t) =>
        match rs[|rs| - 1]
        case Raised => None
        case Unmatched => Some(Tally(t.events, t.total + 1, t.success, t.fail + 1))
        case Parsed(e) => Some(Tally(t.events + [e], t.total + 1, t.success + 1, t.fail))
  }

  /**
   * The scan ends with nothing exactly when some line raises; otherwise it holds the events in
   * line order, counts every line, and the failures are the lines no grammar matched.
   */
  lemma {:induction false} ScanMeaning<E>(rs: seq<LineResult<E>>)
    ensures Scan(rs).None? <==> Aborts(rs)
    ensures Scan(rs).Some? ==>
      var t := Scan(rs).value;
      && t.events == Events(rs) && t.fail == Misses(rs)
      && t.total == |rs| && t.success == |t.events|
    decreases |rs|
  {
    if rs != [] {
      var front, r := rs[..|rs| - 1], rs[|rs| - 1];
      assert rs == front + [r];
      ScanMeaning(front);
      EventsSnoc(front, r);
      MissesSnoc(front, r);
      AbortsSnoc(front, r);
    } else {
      assert !Aborts(rs);
    }
  }

  /** Each line parsed on its own, in file order. */
  function ParseEach<E>(lines: seq<string>, parse: string -> LineResult<E>): (rs: seq<LineResult<E>>)
    ensures |rs| == |lines|
    decreases |lines|
  {
    if lines == [] then [] else ParseEach(lines[..|lines| - 1], parse) + [parse(lines[|lines| - 1])]
  }

  /** The result for line `k` is the parse of line `k`. */
  lemma {:induction false} ParseEachAt<E>(lines: seq<string>, parse: string -> LineResult<E>, k: nat)
    requires k < |lines|
    ensures ParseEach(lines, parse)[k] == parse(lines[k])
    decreases |lines|
  {
    if k < |lines| - 1 {
      ParseEachAt(lines[..|lines| - 1], parse, k);
    }
  }

  lemma ParseEachSnoc<E>(lines: seq<string>, i: nat, parse: string -> LineResult<E>)
    requires i < |lines|
    ensures ParseEach(lines[..i + 1], parse) == ParseEach(lines[..i], parse) + [parse(lines[i])]
  {
    assert lines[..i + 1][..i] == lines[..i];
  }

  /** A line that raises makes the scan of any longer file that contains it abort. */
  lemma ParseEachAborts<E>(lines: seq<string>, i: nat, parse: string -> LineResult<E>)
    requires i < |lines| && parse(lines[i]).Raised?
    ensures Aborts(ParseEach(lines, parse)) && Scan(ParseEach(lines, parse)).None?
  {
    ParseEachAt(lines, parse, i);
    ScanMeaning(ParseEach(lines, parse));
  }

  /** One pass of the line loop: the scan of one more line, from the result of that line. */
  lemma ScanStep<E>(lines: seq<string>, i: nat, parse: string -> LineResult<E>, r: LineResult<E>, t: Tally<E>)
    requires i < |lines| && r == parse(lines[i])
    requires Scan(ParseEach(lines[..i], parse)) == Some(t)
    ensures r.Raised? ==> Scan(ParseEach(lines, parse)).None?
    ensures r.Unmatched? ==>
      Scan(ParseEach(lines[..i + 1], parse)) == Some(Tally(t.events, t.total + 1, t.success, t.fail + 1))
    ensures r.Parsed? ==>
      Scan(ParseEach(lines[..i + 1], parse)) == Some(Tally(t.events + [r.event], t.total + 1, t.success + 1, t.fail))
  {
    ParseEachSnoc(lines, i, parse);
    ScanSnoc(ParseEach(lines[..i], parse), r, t);
    if r.Raised? {
      ParseEachAborts(lines, i, parse);
    }
  }

  /** Scanning lines one more line at a time, as the loop of `process` does. */
  lemma ScanSnoc<E>(rs: seq<LineResult<E>>, r: LineResult<E>, t: Tally<E>)
    requires Scan(rs) == Some(t)
    ensures r.Raised? ==> Scan(rs + [r]) == None
    ensures r.Unmatched? ==> Scan(rs + [r]) == Some(Tally(t.events, t.total + 1, t.success, t.fail + 1))
    ensures r.Parsed? ==> Scan(rs + [r]) == Some(Tally(t.events + [r.event], t.total + 1, t.success + 1, t.fail))
  {
    var s := rs + [r];
    assert s[..|s| - 1] == rs;
    assert s[|s| - 1] == r;
  }

  /**
   * The line loop of `process` (body.py:46-103, ps_-axo_pid_user_etime_args.py:39-69): every
   * line is counted, a parsed line adds its event and the success count, a line no grammar
   * matches adds a failure, and a line that raises ends the scan with nothing.
   */
  method ScanLines<E>(lines: seq<string>, parse: string -> LineResult<E>) returns (t: Option<Tally<E>>)
    ensures t == Scan(ParseEach(lines, parse))
  {
    var results: seq<E> := [];
    var total: nat, success: nat, fail: nat := 0, 0, 0;
    for i := 0 to |lines|
      invariant Scan(ParseEach(lines[..i], parse)) == Some(Tally(results, total, success, fail))
    {
      var r := parse(lines[i]);
      ScanStep(lines, i, parse, r, Tally(results, total, success, fail));
      if r.Raised? {
        return None;
      } else if r.Unmatched? {
        total, fail := total + 1, fail + 1;
      } else {
        results := results + [r.event];
        total, success := total + 1, success + 1;
      }
    }
    assert lines[..|lines|] == lines;
    t := Some(Tally(results, total, success, fail));
  }

  // ---------------------------------------------------------------- the output file

  /** The JSON array `process` writes: `[`, the dumped events separated by `,` and newlines, `]`. */
  function Framed(items: seq<string>): string {
    "[\n" + Join(items, ",\n") + "\n]"
  }

  /** Joining one more part. */
  lemma {:induction false} JoinSnoc(parts: seq<string>, x: string, sep: string)
    requires parts != []
    ensures Join(parts + [x], sep) == Join(parts, sep) + sep + x
    decreases |parts|
  {
    if |parts| == 1 {
      assert parts + [x] == [parts[0], x];
    } else {
      assert (parts + [x])[1..] == parts[1..] + [x];
      JoinSnoc(parts[1..], x, sep);
    }
  }

  /**
   * The writing loop of `process` (body.py:106-112): each dumped event, followed by a separator
   * unless it is the last, between the opening and the closing bracket.
   */
  method Frame(items: seq<string>) returns (out: string)
    ensures out == Framed(items)
  {
    out := "[\n";
    for i := 0 to |items|
      invariant out == "[\n" + Join(items[..i], ",\n") + (if 0 < i < |items| then ",\n" else "")
    {
      if i > 0 {
        JoinSnoc(items[..i], items[i], ",\n");
      }
      assert items[..i + 1] == items[..i] + [items[i]];
      out := out + items[i];
      if i < |items| - 1 {
        out := out + ",\n";
      }
    }
    assert items[..|items|] == items;
    out := out + "\n]";
  }

  /** Reading the array back, one element per separator-delimited piece. */
  function Unframe(text: string): Option<seq<string>> {
    if |text| >= 4 && text[..2] == "[\n" && text[|text| - 2..] == "\n]" then
      var body := text[2..|text| - 2];
      if body == "" then Some([]) else Some(Split(body, ",\n"))
    else None
  }

  /**
   * The output file holds exactly the events, in order: one-line `json.dump` texts (never
   * empty, never holding a newline) are recovered from the framed file. No events give `[\n\n]`.
   */
  lemma UnframeFramed(items: seq<string>)
    requires forall k :: 0 <= k < |items| ==> items[k] != "" && '\n' !in items[k]
    ensures Unframe(Framed(items)) == Some(items)
    ensures items == [] ==> Framed(items) == "[\n\n]"
  {
    var text := Framed(items);
    var body := Join(items, ",\n");
    assert text == "[\n" + body + "\n]";
    assert text[..2] == "[\n" && text[|text| - 2..] == "\n]";
    assert text[2..|text| - 2] == body;
    if items != [] {
      assert body != "" by {
        if |items| > 1 { assert |body| >= |items[0]|; }
      }
      SplitOfJoin(items, ",\n");
    }
  }

  /** The dumped events, one `json.dump` text each; the rendering itself is not modelled. */
  function Rendered<E>(events: seq<E>, render: E -> string): (r: seq<string>)
    ensures |r| == |events| && forall k :: 0 <= k < |events| ==> r[k] == render(events[k])
  {
    seq(|events|, k requires 0 <= k < |events| => render(events[k]))
  }

  // ---------------------------------------------------------------- the outcome record

  /** One per-host parse: the input file, the host and catalog log it came from, the output file. */
  datatype Job = Job(inputPath: Path, hostname: string, uacLogPath: string, outputPath: Path)

  /** The record queued for the tracker after a job completes (body.py:131-139). */
  datatype Outcome = Outcome(hostname: string, uacLogPath: string, outputFile: string,
                             totalLines: nat, successCount: nat, failCount: nat, successRate: string)

  /** The keys of the record, in the order the dict literal gives them. */
  const OutcomeKeys: seq<string> :=
    ["hostname", "uac_log_path", "output_file", "total_lines", "success_count", "fail_count", "success_rate"]

  /** The record as a CSV row: every value as `str()` prints it. */
  function OutcomeRow(o: Outcome): (row: map<string, string>)
    ensures row.Keys == Columns(OutcomeKeys)
  {
    map["hostname" := o.hostname, "uac_log_path" := o.uacLogPath, "output_file" := o.outputFile,
        "total_lines" := NatToString(o.totalLines), "success_count" := NatToString(o.successCount),
        "fail_count" := NatToString(o.failCount), "success_rate" := o.successRate]
  }

  function OutcomeOf<E>(job: Job, t: Tally<E>): Outcome
    requires t.success <= t.total
  {
    Outcome(job.hostname, job.uacLogPath, job.outputPath, t.total, t.success, t.fail, RateText(t.success, t.total))
  }

  /**
   * `success / total * 100` to the nearest hundredth (an exact tie goes to the even neighbour),
   * counted in hundredths.
   */
  function RateHundredths(success: nat, total: nat): (h: nat)
    requires 0 < total && success <= total
    ensures h <= 10000
    ensures 2 * h * total <= 20000 * success + total && 20000 * success <= 2 * h * total + total
  {
    var q, r := 10000 * success / total, 10000 * success % total;
    RoundingBounds(success, total, q, r);
    if 2 * r > total || (2 * r == total && q % 2 == 1) then q + 1 else q
  }

  lemma RoundingBounds(success: nat, total: nat, q: nat, r: nat)
    requires 0 < total && success <= total
    requires 10000 * success == q * total + r && r < total
    ensures q <= 10000 && (q == 10000 ==> r == 0)
    ensures 2 * q * total == 20000 * success - 2 * r
    ensures 2 * (q + 1) * total == 20000 * success - 2 * r + 2 * total
  {
    assert 2 * q * total == 2 * (q * total);
    assert 2 * (q + 1) * total == 2 * (q * total) + 2 * total;
  }

  /** `f"{success/total*100 if total else 0:.2f}"`. */
  function RateText(success: nat, total: nat): string
    requires success <= total
  {
    if total == 0 then "0.00"
    else
      var h := RateHundredths(success, total);
      NatToString(h / 100) + "." + Pad(h % 100, 2)
  }

  /**
   * `success_rate` reads back as the hundredth nearest to the success ratio in percent, which
   * lies between 0 and 100; no lines give `0.00`, all lines matched give `100.00`.
   */
  lemma RateTextMeaning(success: nat, total: nat)
    requires success <= total
    ensures total == 0 ==> RateText(success, total) == "0.00"
    ensures total > 0 ==>
      var h := RateHundredths(success, total);
      && RateText(success, total) == NatToString(h / 100) + "." + Pad(h % 100, 2)
      && DigitsValue(NatToString(h / 100)) * 100 + DigitsValue(Pad(h % 100, 2)) == h
  {
    if total > 0 {
      var h := RateHundredths(success, total);
      assert Pow10(2) == 100;
      assert DigitsValue(Pad(h % 100, 2)) == h % 100;
    }
  }

  /** All lines matched give 100.00, none matched gives 0.00. */
  lemma RateExtremes(success: nat, total: nat)
    requires 0 < total && success <= total
    ensures success == total ==> RateHundredths(success, total) == 10000
    ensures success == 0 ==> RateHundredths(success, total) == 0
  {
    var h := RateHundredths(success, total);
    if success == total && h < 10000 {
      ScaleLe(2 * h, 19998, total);
      assert false;
    }
    if success == 0 && h > 0 {
      ScaleLe(2, 2 * h, total);
      assert false;
    }
  }

  lemma ScaleLe(a: nat, b: nat, c: nat)
    requires a <= b
    ensures a * c <= b * c
  {
    assert b * c == a * c + (b - a) * c;
  }

  // ---------------------------------------------------------------- publishing

  /** `output_path.parent.parent / 'Evidence' / 'uploader.txt'`. */
  function UploaderPath(output: Path): Path {
    Child(Child(Parent(Parent(output)), "Evidence"), "uploader.txt")
  }

  /** The trimmed first line of a text file, as `upf.readline().strip()` reads it. */
  function RedirectIn(files: map<Path, File>, p: Path): string {
    if p in files && files[p].TextFile? then Strip(FirstLine(Newlines(files[p].content))) else ""
  }

  /**
   * Where the output path is appended (body.py:115-122): the path named on the trimmed first
   * line of `uploader.txt` when there is one, else `uploader.txt` itself.
   */
  function ManifestTarget(files: map<Path, File>, output: Path): (target: Path)
    ensures target == UploaderPath(output) || target == RedirectIn(files, UploaderPath(output))
    ensures target != UploaderPath(output) ==> UploaderPath(output) in files
  {
    var up := UploaderPath(output);
    if up in files && RedirectIn(files, up) != "" then RedirectIn(files, up) else up
  }

  /**
   * The disk after a completed job: the output written, then its path appended to the manifest
   * target. Two files change and nothing else; the output keeps the framed events unless the
   * manifest target is the output itself.
   */
  function Published(files: map<Path, File>, output: Path, content: string): (after: map<Path, File>)
    ensures var target := ManifestTarget(files[output := TextFile(content)], output);
            && after.Keys == files.Keys + {output, target}
            && (target != output ==> after[output] == TextFile(content))
            && (forall p :: p in files && p != output && p != target ==> after[p] == files[p])
            && after[target].TextFile?
  {
    var written := files[output := TextFile(content)];
    var target := ManifestTarget(written, output);
    written[target := TextFile(AppendedTo(written, target, output + "\n"))]
  }

  /**
   * The manifest target gains exactly one line, the output path, when what it held so far
   * ended with a newline (or was empty).
   */
  lemma PublishedManifestLine(files: map<Path, File>, output: Path, content: string)
    requires '\n' !in output
    ensures var written := files[output := TextFile(content)];
            var target := ManifestTarget(written, output);
            var before := AppendedTo(written, target, "");
            (before == "" || before[|before| - 1] == '\n') ==>
              Lines(Published(files, output, content)[target].content) == Lines(before) + [output]
  {
    var written := files[output := TextFile(content)];
    var target := ManifestTarget(written, output);
    var before := AppendedTo(written, target, "");
    PublishedTarget(files, output, content);
    var after := Published(files, output, content)[target].content;
    assert after == before + output + "\n";
    if before == "" || before[|before| - 1] == '\n' {
      LinesAppendLine(before, output);
      assert Lines(after) == Lines(before) + [output];
    }
  }

  /** The manifest target holds what it held before, then the output path and a newline. */
  lemma PublishedTarget(files: map<Path, File>, output: Path, content: string)
    ensures var written := files[output := TextFile(content)];
            var target := ManifestTarget(written, output);
            Published(files, output, content)[target].content == AppendedTo(written, target, "") + output + "\n"
  {
    var written := files[output := TextFile(content)];
    var target := ManifestTarget(written, output);
    var line := output + "\n";
    assert Published(files, output, content) == written[target := TextFile(AppendedTo(written, target, line))];
    AppendedAfter(written, target, line);
    assert AppendedTo(written, target, "") + line == AppendedTo(written, target, "") + output + "\n";
  }

  /**
   * The default manifest is also the redirect file: once a first job has appended its output
   * path to a missing `uploader.txt`, that path is read back as the redirect, so a job run after it
   * with the same `Evidence` directory appends its own path to the first job's output file.
   */
  lemma ManifestBecomesRedirect(files: map<Path, File>, o1: Path, c1: string, o2: Path, c2: string)
    requires UploaderPath(o1) !in files && UploaderPath(o2) == UploaderPath(o1)
    requires o1 != UploaderPath(o1) && o2 != UploaderPath(o1) && o1 != o2
    requires o1 != [] && '\n' !in o1 && '\r' !in o1 && !IsSpace(o1[0]) && !IsSpace(o1[|o1| - 1])
    ensures var after := Published(files, o1, c1);
            && after[UploaderPath(o1)] == TextFile(o1 + "\n")
            && ManifestTarget(after[o2 := TextFile(c2)], o2) == o1
            && Published(after, o2, c2)[o1] == TextFile(c1 + o2 + "\n")
  {
    var up := UploaderPath(o1);
    var after := Published(files, o1, c1);
    FirstPublish(files, o1, c1);
    var second := after[o2 := TextFile(c2)];
    assert second[up] == TextFile(o1 + "\n");
    RedirectLine(o1);
    assert RedirectIn(second, up) == o1;
    assert ManifestTarget(second, o2) == o1;
    assert second[o1] == TextFile(c1);
    assert AppendedTo(second, o1, "") == c1;
    PublishedTarget(after, o2, c2);
    var last := Published(after, o2, c2);
    assert last[o1].TextFile? && last[o1].content == c1 + o2 + "\n";
  }

  /** A first job with no `uploader.txt` writes its output and creates the manifest with its path. */
  lemma FirstPublish(files: map<Path, File>, output: Path, content: string)
    requires UploaderPath(output) !in files && output != UploaderPath(output)
    ensures Published(files, output, content)[UploaderPath(output)] == TextFile(output + "\n")
    ensures Published(files, output, content)[output] == TextFile(content)
  {
    var written := files[output := TextFile(content)];
    assert ManifestTarget(written, output) == UploaderPath(output);
    assert AppendedTo(written, UploaderPath(output), output + "\n") == output + "\n";
  }

  /** A path written as the only line of a file is read back as that line. */
  lemma RedirectLine(line: string)
    requires line != [] && '\n' !in line && '\r' !in line && !IsSpace(line[0]) && !IsSpace(line[|line| - 1])
    ensures Strip(FirstLine(Newlines(line + "\n"))) == line
  {
    NewlinesKeeps(line + "\n");
    SplitCons(line, "");
    assert line + "\n" + "" == line + "\n";
    StripKeeps(line);
  }

  /** The end of `process` after a scan that ran through (body.py:105-139). */
  method Publish<E>(fs: FileSystem, queue: Channel<Message<Outcome>>, job: Job, rendered: seq<string>, t: Tally<E>)
    requires t.success <= t.total
    modifies fs, queue
    ensures fs.files == Published(old(fs.files), job.outputPath, Framed(rendered))
    ensures queue.items == old(queue.items) + [Item(OutcomeOf(job, t))]
  {
    var content := Frame(rendered);
    fs.WriteText(job.outputPath, content);
    var target := ManifestTarget(fs.files, job.outputPath);
    fs.AppendText(target, job.outputPath + "\n");
    queue.Put(Item(OutcomeOf(job, t)));
  }
}
