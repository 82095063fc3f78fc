/**
 * The `main` of the two parser scripts (body.py:200-251, ps_-axo_pid_user_etime_args.py:159-210):
 * read the evidence catalog, find the artifact files below each catalogued log's directory,
 * give each one an output name that does not exist yet, run the parser on every job, and
 * record the outcomes in the tracker.
 *
 * The directory walk is an input (`Walks`). The jobs run one after another, each whole before
 * the next starts, as a pool with one worker runs them; concurrent jobs are not modelled.
 */
module Coordinator {
  import opened Wrappers
  import opened Text
  import opened Storage
  import opened Ingest
  import opened Tracker
  import StatLog
  import PsAxo

  /** Which of the two scripts runs. */
  datatype Artifact = Bodyfile | PsListing

  /** The file the script looks for. */
  function ArtifactName(a: Artifact): string {
    match a
    case Bodyfile => "bodyfile.txt"
    case PsListing => "ps_-axo_pid_user_etime_args.txt"
  }

  function OutputPrefix(a: Artifact): string {
    match a
    case Bodyfile => "bodyfile_output_"
    case PsListing => "ps_axo_output_"
  }

  function TrackerName(a: Artifact): string {
    match a
    case Bodyfile => "body_file_tracker.csv"
    case PsListing => "ps_axo_file_tracker.csv"
  }

  /** `base_dir.parent / "Evidence"`, where the catalog and the trackers live. */
  function EvidenceDir(baseDir: Path): Path {
    Child(Parent(baseDir), "Evidence")
  }

  /** `base_dir.parent / "output"`, where the JSON files go. */
  function OutputDir(baseDir: Path): Path {
    Child(Parent(baseDir), "output")
  }

  // ---------------------------------------------------------------- output names

  /** The `n`-th name tried: `<prefix><host>.json` first, then `<prefix><host>(n).json` from 2 on. */
  function OutputName(prefix: string, host: string, n: nat): string {
    if n <= 1 then prefix + host + ".json" else prefix + host + "(" + NatToString(n) + ").json"
  }

  function Candidate(dir: Path, prefix: string, host: string, n: nat): Path {
    Child(dir, OutputName(prefix, host, n))
  }

  lemma ChildInjective(dir: Path, a: string, b: string)
    requires Child(dir, a) == Child(dir, b)
    ensures a == b
  {
    var k := if dir != [] && dir[|dir| - 1] == '/' then |dir| else |dir| + 1;
    assert Child(dir, a)[k..] == a;
    assert Child(dir, b)[k..] == b;
  }

  /** Different attempts give different names. */
  lemma CandidateInjective(dir: Path, prefix: string, host: string, n: nat, m: nat)
    requires 1 <= n && 1 <= m && Candidate(dir, prefix, host, n) == Candidate(dir, prefix, host, m)
    ensures n == m
  {
    ChildInjective(dir, OutputName(prefix, host, n), OutputName(prefix, host, m));
    var a, b := OutputName(prefix, host, n), OutputName(prefix, host, m);
    var l := |prefix + host| + 1;
    if n >= 2 && m >= 2 {
      var dn, dm := NatToString(n), NatToString(m);
      assert |dn| == |dm|;
      assert a[l..l + |dn|] == dn;
      assert b[l..l + |dm|] == dm;
    }
  }

  /**
   * Attempt `n` is the one the naming loop settles on: its name is free and every earlier
   * attempt is taken.
   */
  predicate FreeAt(existing: set<Path>, dir: Path, prefix: string, host: string, n: nat) {
    && 1 <= n
    && Candidate(dir, prefix, host, n) !in existing
    && forall j :: 1 <= j < n ==> Candidate(dir, prefix, host, j) in existing
  }

  /**
   * The output-name loop (ps_-axo_pid_user_etime_args.py:191-196): try the plain name, then
   * `(2)`, `(3)`, ... until one does not exist.
   */
  method ChooseOutputName(existing: set<Path>, dir: Path, prefix: string, host: string)
      returns (output: Path, n: nat)
    ensures FreeAt(existing, dir, prefix, host, n) && output == Candidate(dir, prefix, host, n)
  {
    output := Candidate(dir, prefix, host, 1);
    n := 1;
    var count := 2;
    while output in existing
      invariant 1 <= n && count == n + 1 && output == Candidate(dir, prefix, host, n)
      invariant Tried(dir, prefix, host, n) <= existing
      invariant forall j :: 1 <= j < n ==> Candidate(dir, prefix, host, j) in existing
      decreases existing - Tried(dir, prefix, host, n)
    {
      TriedStep(existing, dir, prefix, host, n);
      output := Candidate(dir, prefix, host, count);
      n := count;
      count := count + 1;
    }
  }

  /** The names of attempts 1 to `n - 1`. */
  ghost function Tried(dir: Path, prefix: string, host: string, n: nat): set<Path> {
    if n <= 1 then {} else Tried(dir, prefix, host, n - 1) + {Candidate(dir, prefix, host, n - 1)}
  }

  /** One more taken attempt: the loop's invariant holds for the next one, and fewer files are left. */
  lemma TriedStep(existing: set<Path>, dir: Path, prefix: string, host: string, n: nat)
    requires 1 <= n && Tried(dir, prefix, host, n) <= existing
    requires Candidate(dir, prefix, host, n) in existing
    requires forall j :: 1 <= j < n ==> Candidate(dir, prefix, host, j) in existing
    ensures Tried(dir, prefix, host, n + 1) <= existing
    ensures existing - Tried(dir, prefix, host, n + 1) < existing - Tried(dir, prefix, host, n)
    ensures forall j :: 1 <= j < n + 1 ==> Candidate(dir, prefix, host, j) in existing
  {
    NotTried(dir, prefix, host, n, n);
    var c := Candidate(dir, prefix, host, n);
    assert Tried(dir, prefix, host, n + 1) == Tried(dir, prefix, host, n) + {c};
    assert c in existing - Tried(dir, prefix, host, n);
    assert c !in existing - Tried(dir, prefix, host, n + 1);
  }

  /** A later attempt's name is none of the earlier ones. */
  lemma {:induction false} NotTried(dir: Path, prefix: string, host: string, n: nat, m: nat)
    requires 1 <= n <= m
    ensures Candidate(dir, prefix, host, m) !in Tried(dir, prefix, host, n)
  {
    if n > 1 {
      NotTried(dir, prefix, host, n - 1, m);
      if Candidate(dir, prefix, host, m) == Candidate(dir, prefix, host, n - 1) {
        CandidateInjective(dir, prefix, host, m, n - 1);
      }
    }
  }

  /** The loop's answer depends only on the files present and the host. */
  lemma FirstFreeUnique(existing: set<Path>, dir: Path, prefix: string, host: string, n: nat, m: nat)
    requires FreeAt(existing, dir, prefix, host, n) && FreeAt(existing, dir, prefix, host, m)
    ensures n == m
  {
  }

  // ---------------------------------------------------------------- the job list

  /** A job before its output is named: the artifact file, its host and its catalog log. */
  datatype Source = Source(inputPath: Path, hostname: string, uacLogPath: string)

  function SourceOf(job: Job): Source {
    Source(job.inputPath, job.hostname, job.uacLogPath)
  }

  /** The files named `artifact` among the walked entries, in walk order. */
  function Found(entries: seq<WalkEntry>, artifact: string, host: string, log: string): seq<Source> {
    if entries == [] then []
    else
      (if entries[0].name == artifact then [Source(Child(entries[0].root, entries[0].name), host, log)] else [])
      + Found(entries[1..], artifact, host, log)
  }

  /**
   * The jobs of one catalog row: none when its log path is empty or the log's directory does not
   * exist, else one per artifact file below that directory.
   */
  function RowSources(row: map<string, string>, walks: Walks, artifact: string): seq<Source>
    requires Keyed(row)
  {
    var log := row["uac_log_path"];
    if log == "" || Parent(log) !in walks then [] else Found(walks[Parent(log)], artifact, row["hostname"], log)
  }

  /** The jobs of all rows in catalog order; `None` when a row lacks a column (`KeyError`). */
  function Sources(rows: seq<map<string, string>>, walks: Walks, artifact: string): Option<seq<Source>> {
    if rows == [] then Some([])
    else if !Keyed(rows[0]) then None
    else After(RowSources(rows[0], walks, artifact), Sources(rows[1..], walks, artifact))
  }

  function After(first: seq<Source>, rest: Option<seq<Source>>): Option<seq<Source>> {
    if rest.None? then None else Some(first + rest.value)
  }

  /** A catalog whose every row has both key columns yields a job list; one that lacks them, none. */
  lemma {:induction false} SourcesDefined(rows: seq<map<string, string>>, walks: Walks, artifact: string)
    ensures Sources(rows, walks, artifact).Some? <==> forall k :: 0 <= k < |rows| ==> Keyed(rows[k])
  {
    if rows != [] {
      SourcesDefined(rows[1..], walks, artifact);
      assert forall k :: 1 <= k < |rows| ==> rows[k] == rows[1..][k - 1];
    }
  }

  lemma AfterAfter(a: seq<Source>, b: seq<Source>, rest: Option<seq<Source>>)
    ensures After(a, After(b, rest)) == After(a + b, rest)
  {
    if rest.Some? {
      assert a + (b + rest.value) == (a + b) + rest.value;
    }
  }

  /** `for root, dirs, files in os.walk(uac_parent): for file in files: if file == artifact`. */
  method FindArtifacts(found: seq<Source>, entries: seq<WalkEntry>, artifact: string, host: string, log: string)
      returns (more: seq<Source>)
    ensures more == found + Found(entries, artifact, host, log)
  {
    more := found;
    var j := 0;
    while j < |entries|
      invariant 0 <= j <= |entries|
      invariant found + Found(entries, artifact, host, log) == more + Found(entries[j..], artifact, host, log)
    {
      assert entries[j..][0] == entries[j] && entries[j..][1..] == entries[j + 1..];
      if entries[j].name == artifact {
        more := more + [Source(Child(entries[j].root, entries[j].name), host, log)];
      }
      j := j + 1;
    }
    assert entries[j..] == [];
  }

  /** The jobs of one row, appended to those found so far. */
  method FindRowSources(found: seq<Source>, row: map<string, string>, walks: Walks, artifact: string)
      returns (more: seq<Source>)
    requires Keyed(row)
    ensures more == found + RowSources(row, walks, artifact)
  {
    var host, log := row["hostname"], row["uac_log_path"];
    more := found;
    if log != "" && Parent(log) in walks {
      more := FindArtifacts(found, walks[Parent(log)], artifact, host, log);
    } else {
      assert more + [] == more;
    }
  }

  /** One row of the catalog, seen from the loop that walks it. */
  lemma SourcesStep(rows: seq<map<string, string>>, i: nat, walks: Walks, artifact: string, found: seq<Source>)
    requires i < |rows|
    ensures !Keyed(rows[i]) ==> Sources(rows[i..], walks, artifact) == None
    ensures Keyed(rows[i]) ==>
      After(found, Sources(rows[i..], walks, artifact))
        == After(found + RowSources(rows[i], walks, artifact), Sources(rows[i + 1..], walks, artifact))
  {
    assert rows[i..][0] == rows[i] && rows[i..][1..] == rows[i + 1..];
    if Keyed(rows[i]) {
      AfterAfter(found, RowSources(rows[i], walks, artifact), Sources(rows[i + 1..], walks, artifact));
    }
  }

  /** The two loops of `main` that fill `to_process` (ps_-axo_pid_user_etime_args.py:177-195). */
  method CollectSources(rows: seq<map<string, string>>, walks: Walks, artifact: string)
      returns (sources: Option<seq<Source>>)
    ensures sources == Sources(rows, walks, artifact)
  {
    var found: seq<Source> := [];
    var i := 0;
    assert rows[i..] == rows;
    if Sources(rows, walks, artifact).Some? {
      assert [] + Sources(rows, walks, artifact).value == Sources(rows, walks, artifact).value;
    }
    while i < |rows|
      invariant 0 <= i <= |rows|
      invariant Sources(rows, walks, artifact) == After(found, Sources(rows[i..], walks, artifact))
    {
      SourcesStep(rows, i, walks, artifact, found);
      if !Keyed(rows[i]) {
        return None;
      }
      found := FindRowSources(found, rows[i], walks, artifact);
      i := i + 1;
    }
    assert rows[i..] == [];
    assert found + [] == found;
    sources := Some(found);
  }

  /** `job` is `source` with attempt `n` as its output name, the first free one among `taken`. */
  ghost predicate Named(job: Job, n: nat, source: Source, taken: set<Path>, dir: Path, prefix: string) {
    && SourceOf(job) == source
    && FreeAt(taken, dir, prefix, source.hostname, n)
    && job.outputPath == Candidate(dir, prefix, source.hostname, n)
  }

  /**
   * Naming as `main` does it: every job gets the first free name for its host among the files
   * already on disk. Names picked for earlier jobs are not files yet, so they are not avoided.
   */
  method NameJobs(sources: seq<Source>, existing: set<Path>, dir: Path, prefix: string)
      returns (jobs: seq<Job>, ghost attempts: seq<nat>)
    ensures |jobs| == |sources| == |attempts|
    ensures forall k :: 0 <= k < |jobs| ==> Named(jobs[k], attempts[k], sources[k], existing, dir, prefix)
  {
    jobs, attempts := [], [];
    for i := 0 to |sources|
      invariant |jobs| == |attempts| == i
      invariant forall k :: 0 <= k < i ==> Named(jobs[k], attempts[k], sources[k], existing, dir, prefix)
    {
      var output, n := ChooseOutputName(existing, dir, prefix, sources[i].hostname);
      jobs := jobs + [Job(sources[i].inputPath, sources[i].hostname, sources[i].uacLogPath, output)];
      attempts := attempts + [n];
    }
  }

  /**
   * Two jobs of the same host get the same output path: they both take the first free name
   * among the files on disk.
   */
  lemma SameHostSameOutput(sources: seq<Source>, jobs: seq<Job>, attempts: seq<nat>, existing: set<Path>, dir: Path, prefix: string, k: nat, l: nat)
    requires |jobs| == |sources| == |attempts| && k < |jobs| && l < |jobs|
    requires Named(jobs[k], attempts[k], sources[k], existing, dir, prefix)
    requires Named(jobs[l], attempts[l], sources[l], existing, dir, prefix)
    requires sources[k].hostname == sources[l].hostname
    ensures jobs[k].outputPath == jobs[l].outputPath
  {
    FirstFreeUnique(existing, dir, prefix, sources[k].hostname, attempts[k], attempts[l]);
  }

  /** A catalog row whose log directory holds the listing twice yields two jobs of one host. */
  lemma TwoListingsOneHost()
    ensures var row := map["hostname" := "web01", "uac_log_path" := "/cases/web01/uac.log"];
            var walks: Walks := map["/cases/web01" := [
              WalkEntry("/cases/web01/live_response/process", "ps_-axo_pid_user_etime_args.txt"),
              WalkEntry("/cases/web01/rerun/live_response/process", "ps_-axo_pid_user_etime_args.txt")]];
            var s := Sources([row], walks, "ps_-axo_pid_user_etime_args.txt");
            s.Some? && |s.value| == 2 && s.value[0].hostname == s.value[1].hostname == "web01"
            && s.value[0].inputPath != s.value[1].inputPath
  {
    var log := "/cases/web01/uac.log";
    assert log[12] == '/' && forall j :: 12 < j < |log| ==> log[j] != '/';
    assert LastIndexOf(log, '/') == Some(12);
    assert Parent(log) == "/cases/web01";
  }

  /** The outputs of some jobs. */
  function Outputs(jobs: seq<Job>): set<Path> {
    if jobs == [] then {} else Outputs(jobs[..|jobs| - 1]) + {jobs[|jobs| - 1].outputPath}
  }

  lemma {:induction false} OutputsHas(jobs: seq<Job>)
    ensures forall k :: 0 <= k < |jobs| ==> jobs[k].outputPath in Outputs(jobs)
  {
    if jobs != [] {
      var init := jobs[..|jobs| - 1];
      OutputsHas(init);
      assert forall k :: 0 <= k < |init| ==> jobs[k] == init[k];
    }
  }

  /**
   * The jobs take their names apart: each is the first name neither on disk nor given to an
   * earlier job, so none is on disk and no two are equal.
   */
  ghost predicate Apart(jobs: seq<Job>, attempts: seq<nat>, sources: seq<Source>, existing: set<Path>, dir: Path, prefix: string) {
    && |jobs| == |attempts| <= |sources|
    && NamedInTurn(jobs, attempts, sources, existing, dir, prefix)
    && Fresh(jobs, existing)
    && Distinct(jobs)
  }

  /** Each job is named from the files on disk plus the names of the jobs before it. */
  ghost predicate NamedInTurn(jobs: seq<Job>, attempts: seq<nat>, sources: seq<Source>, existing: set<Path>, dir: Path, prefix: string)
    requires |jobs| == |attempts| <= |sources|
  {
    forall k :: 0 <= k < |jobs| ==> Named(jobs[k], attempts[k], sources[k], existing + Outputs(jobs[..k]), dir, prefix)
  }

  /** No job writes over a file that was on disk. */
  predicate Fresh(jobs: seq<Job>, existing: set<Path>) {
    forall k :: 0 <= k < |jobs| ==> jobs[k].outputPath !in existing
  }

  /** No two jobs write the same file. */
  predicate Distinct(jobs: seq<Job>) {
    forall k, l :: 0 <= k < l < |jobs| ==> jobs[k].outputPath != jobs[l].outputPath
  }

  /**
   * Naming that keeps outputs apart: each job takes the first name that is neither on disk nor
   * already given to an earlier job.
   */
  method NameJobsApart(sources: seq<Source>, existing: set<Path>, dir: Path, prefix: string)
      returns (jobs: seq<Job>, ghost attempts: seq<nat>)
    ensures |jobs| == |sources| && Apart(jobs, attempts, sources, existing, dir, prefix)
  {
    jobs, attempts := [], [];
    var taken := existing;
    for i := 0 to |sources|
      invariant |jobs| == i && taken == existing + Outputs(jobs)
      invariant Apart(jobs, attempts, sources, existing, dir, prefix)
    {
      var output, n := ChooseOutputName(taken, dir, prefix, sources[i].hostname);
      var job := Job(sources[i].inputPath, sources[i].hostname, sources[i].uacLogPath, output);
      ApartSnoc(jobs, attempts, job, n, sources, existing, dir, prefix);
      jobs, attempts := jobs + [job], attempts + [n];
      taken := taken + {output};
    }
  }

  lemma ApartSnoc(jobs: seq<Job>, attempts: seq<nat>, job: Job, n: nat, sources: seq<Source>, existing: set<Path>, dir: Path, prefix: string)
    requires Apart(jobs, attempts, sources, existing, dir, prefix) && |jobs| < |sources|
    requires SourceOf(job) == sources[|jobs|]
    requires FreeAt(existing + Outputs(jobs), dir, prefix, job.hostname, n) && job.outputPath == Candidate(dir, prefix, job.hostname, n)
    ensures Apart(jobs + [job], attempts + [n], sources, existing, dir, prefix)
    ensures Outputs(jobs + [job]) == Outputs(jobs) + {job.outputPath}
  {
    OutputsSnoc(jobs, job);
    SnocNamed(jobs, attempts, job, n, sources, existing, dir, prefix);
    SnocDistinct(jobs, job);
  }

  lemma OutputsSnoc(jobs: seq<Job>, job: Job)
    ensures Outputs(jobs + [job]) == Outputs(jobs) + {job.outputPath}
  {
    assert (jobs + [job])[..|jobs|] == jobs;
  }

  lemma SnocNamed(jobs: seq<Job>, attempts: seq<nat>, job: Job, n: nat, sources: seq<Source>, existing: set<Path>, dir: Path, prefix: string)
    requires |jobs| == |attempts| < |sources| && SourceOf(job) == sources[|jobs|]
    requires NamedInTurn(jobs, attempts, sources, existing, dir, prefix) && Fresh(jobs, existing)
    requires FreeAt(existing + Outputs(jobs), dir, prefix, job.hostname, n) && job.outputPath == Candidate(dir, prefix, job.hostname, n)
    ensures NamedInTurn(jobs + [job], attempts + [n], sources, existing, dir, prefix)
    ensures Fresh(jobs + [job], existing)
  {
    var more, tries := jobs + [job], attempts + [n];
    forall k | 0 <= k < |more|
      ensures Named(more[k], tries[k], sources[k], existing + Outputs(more[..k]), dir, prefix)
      ensures more[k].outputPath !in existing
    {
      if k < |jobs| {
        assert more[k] == jobs[k] && tries[k] == attempts[k] && more[..k] == jobs[..k];
        assert Named(jobs[k], attempts[k], sources[k], existing + Outputs(jobs[..k]), dir, prefix);
      } else {
        assert more[..k] == jobs;
      }
    }
  }

  lemma SnocDistinct(jobs: seq<Job>, job: Job)
    requires Distinct(jobs)
    requires job.outputPath !in Outputs(jobs)
    ensures Distinct(jobs + [job])
  {
    OutputsHas(jobs);
    var more := jobs + [job];
    forall k, l | 0 <= k < l < |more|
      ensures more[k].outputPath != more[l].outputPath
    {
      assert more[k] == jobs[k];
      if l < |jobs| {
        assert more[l] == jobs[l];
      }
    }
  }

  // ---------------------------------------------------------------- the run

  /** The messages a job leaves on the queue: its outcome when it completed. */
  function Queued(outcome: Option<Outcome>): seq<Message<Outcome>> {
    if outcome.Some? then [Item(outcome.value)] else []
  }

  /**
   * The outcome `worker` queues for `job` on the disk `files`: none when the input is missing or
   * a line of it raises, else the tally of its lines.
   */
  function JobOutcome(files: map<Path, File>, job: Job, artifact: Artifact): Option<Outcome> {
    var input := TextIn(files, job.inputPath);
    if input.None? then None
    else
      match artifact
      case Bodyfile =>
        var t := StatLog.StatTally(input.value, job.hostname);
        if t.None? then None else Some(OutcomeOf(job, t.value))
      case PsListing =>
        var t := PsAxo.PsTally(input.value, job.hostname);
        if t.None? then None else Some(OutcomeOf(job, t.value))
  }

  /** The disk after `worker` ran `job`: unchanged when it queued nothing, else the job published. */
  function JobFiles(files: map<Path, File>, job: Job, artifact: Artifact,
                    renderStat: StatLog.StatEvent -> string, renderPs: PsAxo.PsEvent -> string): map<Path, File> {
    var input := TextIn(files, job.inputPath);
    if input.None? then files
    else
      match artifact
      case Bodyfile =>
        var t := StatLog.StatTally(input.value, job.hostname);
        if t.None? then files else Published(files, job.outputPath, Framed(Rendered(t.value.events, renderStat)))
      case PsListing =>
        var t := PsAxo.PsTally(input.value, job.hostname);
        if t.None? then files else Published(files, job.outputPath, Framed(Rendered(t.value.events, renderPs)))
  }

  /** `worker(args)`: the script's parser on one job. */
  method RunJob(fs: FileSystem, queue: Channel<Message<Outcome>>, job: Job, artifact: Artifact,
                renderStat: StatLog.StatEvent -> string, renderPs: PsAxo.PsEvent -> string)
      returns (ghost outcome: Option<Outcome>)
    modifies fs, queue
    ensures outcome == JobOutcome(old(fs.files), job, artifact)
    ensures fs.files == JobFiles(old(fs.files), job, artifact, renderStat, renderPs)
    ensures queue.items == old(queue.items) + Queued(outcome)
  {
    outcome := JobOutcome(fs.files, job, artifact);
    match artifact
    case Bodyfile =>
      StatLog.Process(fs, queue, job, renderStat);
    case PsListing =>
      PsAxo.Process(fs, queue, job, renderPs);
  }

  /** The jobs run in turn: the disk they leave and each job's outcome, in job order. */
  function RunAll(files: map<Path, File>, jobs: seq<Job>, artifact: Artifact,
                  renderStat: StatLog.StatEvent -> string, renderPs: PsAxo.PsEvent -> string)
      : (r: (map<Path, File>, seq<Option<Outcome>>))
    ensures |r.1| == |jobs|
    decreases |jobs|
  {
    if jobs == [] then (files, [])
    else
      var r := RunAll(files, jobs[..|jobs| - 1], artifact, renderStat, renderPs);
      var job := jobs[|jobs| - 1];
      (JobFiles(r.0, job, artifact, renderStat, renderPs), r.1 + [JobOutcome(r.0, job, artifact)])
  }

  /** Job `k`'s outcome is what it finds on the disk the jobs before it left. */
  lemma {:induction false} RunAllAt(files: map<Path, File>, jobs: seq<Job>, artifact: Artifact,
                                    renderStat: StatLog.StatEvent -> string, renderPs: PsAxo.PsEvent -> string, k: nat)
    requires k < |jobs|
    ensures RunAll(files, jobs, artifact, renderStat, renderPs).1[k]
         == JobOutcome(RunAll(files, jobs[..k], artifact, renderStat, renderPs).0, jobs[k], artifact)
  {
    var init := jobs[..|jobs| - 1];
    if k < |init| {
      RunAllAt(files, init, artifact, renderStat, renderPs, k);
      assert init[..k] == jobs[..k] && init[k] == jobs[k];
    } else {
      assert jobs[..k] == init;
    }
  }

  /**
   * The outcomes that reach the queue: those of the jobs that completed, in job order. There are
   * as many as jobs exactly when every job completed.
   */
  function Completed(outcomes: seq<Option<Outcome>>): (r: seq<Outcome>)
    ensures |r| <= |outcomes|
    ensures |r| == |outcomes| <==> forall k :: 0 <= k < |outcomes| ==> outcomes[k].Some?
    ensures forall o :: o in r <==> Some(o) in outcomes
    decreases |outcomes|
  {
    if outcomes == [] then []
    else
      var init, last := outcomes[..|outcomes| - 1], outcomes[|outcomes| - 1];
      assert outcomes == init + [last];
      assert forall k :: 0 <= k < |init| ==> outcomes[k] == init[k];
      Completed(init) + (if last.Some? then [last.value] else [])
  }

  /**
   * `pool.map(worker, to_process)`, one job after another: the disk and outcomes are those of
   * the jobs run in turn, and the queue holds the outcomes of the jobs that completed.
   */
  method RunJobs(fs: FileSystem, queue: Channel<Message<Outcome>>, jobs: seq<Job>, artifact: Artifact,
                 renderStat: StatLog.StatEvent -> string, renderPs: PsAxo.PsEvent -> string)
      returns (ghost outcomes: seq<Option<Outcome>>)
    requires queue.items == []
    modifies fs, queue
    ensures (fs.files, outcomes) == RunAll(old(fs.files), jobs, artifact, renderStat, renderPs)
    ensures queue.items == Items(Completed(outcomes))
  {
    outcomes := [];
    for i := 0 to |jobs|
      invariant |outcomes| == i
      invariant (fs.files, outcomes) == RunAll(old(fs.files), jobs[..i], artifact, renderStat, renderPs)
      invariant queue.items == Items(Completed(outcomes))
    {
      var outcome := RunJob(fs, queue, jobs[i], artifact, renderStat, renderPs);
      RunAllSnoc(old(fs.files), jobs, i, artifact, renderStat, renderPs);
      QueuedSnoc(outcomes, outcome);
      outcomes := outcomes + [outcome];
    }
    assert jobs[..|jobs|] == jobs;
  }

  lemma RunAllSnoc(files: map<Path, File>, jobs: seq<Job>, i: nat, artifact: Artifact,
                   renderStat: StatLog.StatEvent -> string, renderPs: PsAxo.PsEvent -> string)
    requires i < |jobs|
    ensures var r := RunAll(files, jobs[..i], artifact, renderStat, renderPs);
            RunAll(files, jobs[..i + 1], artifact, renderStat, renderPs)
              == (JobFiles(r.0, jobs[i], artifact, renderStat, renderPs), r.1 + [JobOutcome(r.0, jobs[i], artifact)])
  {
    assert jobs[..i + 1][..i] == jobs[..i];
  }

  /** One more job puts on the queue what it queued. */
  lemma QueuedSnoc(outcomes: seq<Option<Outcome>>, outcome: Option<Outcome>)
    ensures Items(Completed(outcomes + [outcome])) == Items(Completed(outcomes)) + Queued(outcome)
  {
    var more := outcomes + [outcome];
    assert more[..|more| - 1] == outcomes;
    var done := Completed(outcomes);
    var tail := if outcome.Some? then [outcome.value] else [];
    assert Completed(more) == done + tail;
    assert Items(done + tail) == Items(done) + Items(tail);
  }

  function CatalogPath(baseDir: Path): Path {
    Child(EvidenceDir(baseDir), "evidence_records.csv")
  }

  function TrackerPath(baseDir: Path, a: Artifact): Path {
    Child(EvidenceDir(baseDir), TrackerName(a))
  }

  /**
   * `files` is `start` after the jobs ran in turn, with the tracker then rewritten to hold the
   * outcomes of the jobs that completed (body.py:244-251).
   */
  ghost predicate RanAndTracked(start: map<Path, File>, files: map<Path, File>, jobs: seq<Job>,
                                outcomes: seq<Option<Outcome>>, baseDir: Path, artifact: Artifact,
                                renderStat: StatLog.StatEvent -> string, renderPs: PsAxo.PsEvent -> string) {
    var r := RunAll(start, jobs, artifact, renderStat, renderPs);
    var path := TrackerPath(baseDir, artifact);
    && outcomes == r.1
    && files == r.0[path := CsvFile(Tracked(r.0, path, Completed(r.1)))]
  }

  /**
   * The end of `main` once the jobs are named: run them in turn, queue `"DONE"`, and let
   * `update_tracker` take the outcomes.
   */
  method RunAndTrack(fs: FileSystem, baseDir: Path, artifact: Artifact, jobs: seq<Job>,
                     renderStat: StatLog.StatEvent -> string, renderPs: PsAxo.PsEvent -> string)
      returns (ghost outcomes: seq<Option<Outcome>>)
    modifies fs
    ensures RanAndTracked(old(fs.files), fs.files, jobs, outcomes, baseDir, artifact, renderStat, renderPs)
  {
    var queue := new Channel<Message<Outcome>>();
    outcomes := RunJobs(fs, queue, jobs, artifact, renderStat, renderPs);
    queue.Put(Done);
    DrainStopsAtDone(Completed(outcomes), [], |jobs|);
    assert queue.items == Items(Completed(outcomes)) + [Done] + [];
    var ok := UpdateTracker(fs, TrackerPath(baseDir, artifact), queue, |jobs|);
  }

  /**
   * `main` (body.py:200-251): nothing happens without a catalog; the tracker is loaded but its
   * pairs filter nothing (loading only matters because a malformed tracker raises `KeyError`);
   * every job is named as the script names it, from the files on disk alone; the jobs run in
   * turn, each queueing an outcome when it completes; then `"DONE"` is queued and the tracker is
   * rewritten with the outcomes appended.
   */
  method Run(fs: FileSystem, walks: Walks, baseDir: Path, artifact: Artifact,
             renderStat: StatLog.StatEvent -> string, renderPs: PsAxo.PsEvent -> string)
      returns (jobs: seq<Job>, ghost attempts: seq<nat>, ghost outcomes: seq<Option<Outcome>>)
    modifies fs
    ensures var catalog := old(fs.ReadTable(CatalogPath(baseDir)));
            var done := LoadTracker(old(fs.ReadTable(TrackerPath(baseDir, artifact))));
            var sources := if catalog.Some? then Sources(catalog.value.rows, walks, ArtifactName(artifact)) else None;
            if catalog.None? || done.None? || sources.None? || sources.value == [] then
              jobs == [] && fs.files == old(fs.files)
            else
              && |jobs| == |sources.value| == |attempts|
              && (forall k :: 0 <= k < |jobs| ==>
                    Named(jobs[k], attempts[k], sources.value[k], old(fs.files).Keys, OutputDir(baseDir), OutputPrefix(artifact)))
              && RanAndTracked(old(fs.files), fs.files, jobs, outcomes, baseDir, artifact, renderStat, renderPs)
  {
    jobs, attempts, outcomes := [], [], [];
    var catalog := fs.ReadTable(CatalogPath(baseDir));
    if catalog.None? {
      return;
    }
    // `already_done`: computed and never used to filter the jobs
    var done := LoadTracker(fs.ReadTable(TrackerPath(baseDir, artifact)));
    if done.None? {
      return;
    }
    var sources := CollectSources(catalog.value.rows, walks, ArtifactName(artifact));
    if sources.None? || sources.value == [] {
      return;
    }
    jobs, attempts := NameJobs(sources.value, fs.files.Keys, OutputDir(baseDir), OutputPrefix(artifact));
    outcomes := RunAndTrack(fs, baseDir, artifact, jobs, renderStat, renderPs);
  }

  /**
   * `main` with the output names kept apart (`NameJobsApart`): the same run, except that no job
   * writes over a file that was on disk or over another job's output.
   */
  method RunApart(fs: FileSystem, walks: Walks, baseDir: Path, artifact: Artifact,
                  renderStat: StatLog.StatEvent -> string, renderPs: PsAxo.PsEvent -> string)
      returns (jobs: seq<Job>, ghost attempts: seq<nat>, ghost outcomes: seq<Option<Outcome>>)
    modifies fs
    ensures var catalog := old(fs.ReadTable(CatalogPath(baseDir)));
            var done := LoadTracker(old(fs.ReadTable(TrackerPath(baseDir, artifact))));
            var sources := if catalog.Some? then Sources(catalog.value.rows, walks, ArtifactName(artifact)) else None;
            if catalog.None? || done.None? || sources.None? || sources.value == [] then
              jobs == [] && fs.files == old(fs.files)
            else
              && |jobs| == |sources.value|
              && Apart(jobs, attempts, sources.value, old(fs.files).Keys, OutputDir(baseDir), OutputPrefix(artifact))
              && RanAndTracked(old(fs.files), fs.files, jobs, outcomes, baseDir, artifact, renderStat, renderPs)
  {
    jobs, attempts, outcomes := [], [], [];
    var catalog := fs.ReadTable(CatalogPath(baseDir));
    if catalog.None? {
      return;
    }
    var done := LoadTracker(fs.ReadTable(TrackerPath(baseDir, artifact)));
    if done.None? {
      return;
    }
    var sources := CollectSources(catalog.value.rows, walks, ArtifactName(artifact));
    if sources.None? || sources.value == [] {
      return;
    }
    jobs, attempts := NameJobsApart(sources.value, fs.files.Keys, OutputDir(baseDir), OutputPrefix(artifact));
    outcomes := RunAndTrack(fs, baseDir, artifact, jobs, renderStat, renderPs);
  }
}
