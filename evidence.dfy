/**
 * The evidence bookkeeping of `main.py`: the catalog of `uac.log` files with the host each
 * names, the per-dump list of evidence files, and the update of the catalog with the path of
 * that list once each dump is processed.
 */
module Evidence {
  import opened Wrappers
  import opened Text
  import opened Storage
  import Tracker
  import Coordinator

  type Row = map<string, string>

  // ---------------------------------------------------------------- the host of a dump

  const HostnameTag := "Hostname:"

  /**
   * What `line.split(tag)[1]` is: the text after the first `tag`, up to the next one or the end
   * of the line.
   */
  function TextAfter(line: string, tag: string): string
    requires tag != [] && Contains(line, tag)
  {
    var i := Find(line, tag).value;
    var rest := line[i + |tag|..];
    match Find(rest, tag)
    case None => rest
    case Some(j) => rest[..j]
  }

  /** The text after the tag is a stretch of the line that holds no further tag. */
  lemma TextAfterMeaning(line: string, tag: string)
    requires tag != [] && Contains(line, tag)
    ensures var i, r := Find(line, tag).value, TextAfter(line, tag);
      && i + |tag| + |r| <= |line|
      && r == line[i + |tag|..i + |tag| + |r|]
      && forall j :: i + |tag| <= j < i + |tag| + |r| ==> !OccursAt(line, tag, j)
  {
    var i := Find(line, tag).value;
    var rest := line[i + |tag|..];
    var r := TextAfter(line, tag);
    forall j | i + |tag| <= j < i + |tag| + |r|
      ensures !OccursAt(line, tag, j)
    {
      assert !OccursAt(rest, tag, j - i - |tag|);
    }
  }

  /** The second piece of a split is the text after the first separator. */
  lemma SecondPiece(line: string, tag: string)
    requires tag != [] && Contains(line, tag)
    ensures |Split(line, tag)| >= 2 && Split(line, tag)[1] == TextAfter(line, tag)
  {
    var i := Find(line, tag).value;
    var rest := line[i + |tag|..];
    var tail := Split(rest, tag);
    assert Split(line, tag) == [line[..i]] + tail;
    match Find(rest, tag)
    case None =>
      assert tail == [rest];
    case Some(j) =>
      assert tail == [rest[..j]] + Split(rest[j + |tag|..], tag);
  }

  /**
   * The scan of `extract_hostname_from_uac_log` over the lines of the log: the first line that
   * holds `Hostname:` decides, and the name is the trimmed text after the tag.
   */
  function HostnameIn(lines: seq<string>): Option<string> {
    if lines == [] then None
    else if Contains(lines[0], HostnameTag) then
      var parts := Split(lines[0], HostnameTag);
      Some(Strip(parts[1]))
    else HostnameIn(lines[1..])
  }

  /** The first line holding the tag decides, whatever the later lines say. */
  lemma {:induction false} HostnameAt(lines: seq<string>, k: nat)
    requires k < |lines| && Contains(lines[k], HostnameTag)
    requires forall j :: 0 <= j < k ==> !Contains(lines[j], HostnameTag)
    ensures HostnameIn(lines) == Some(Strip(TextAfter(lines[k], HostnameTag)))
  {
    var line := lines[0];
    if k == 0 {
      SecondPiece(line, HostnameTag);
      assert HostnameIn(lines) == Some(Strip(Split(line, HostnameTag)[1]));
    } else {
      var rest := lines[1..];
      assert !Contains(line, HostnameTag);
      assert HostnameIn(lines) == HostnameIn(rest);
      assert rest[k - 1] == lines[k];
      forall j | 0 <= j < k - 1 ensures !Contains(rest[j], HostnameTag) {
        assert rest[j] == lines[j + 1];
      }
      HostnameAt(rest, k - 1);
    }
  }

  /** No line holds the tag: there is no host name. */
  lemma {:induction false} NoHostname(lines: seq<string>)
    requires forall j :: 0 <= j < |lines| ==> !Contains(lines[j], HostnameTag)
    ensures HostnameIn(lines) == None
  {
    if lines != [] {
      assert forall j :: 0 <= j < |lines| - 1 ==> lines[1..][j] == lines[j + 1];
      NoHostname(lines[1..]);
    }
  }

  /**
   * `extract_hostname_from_uac_log` (main.py:17-25): the host named in the log, `None` when the
   * log cannot be read or names none. The lines are taken without their newline, which `strip`
   * would remove anyway.
   */
  function ExtractHostname(files: map<Path, File>, log: Path): Option<string> {
    if log in files && files[log].TextFile? then HostnameIn(Lines(Newlines(files[log].content)))
    else None
  }

  // ---------------------------------------------------------------- the catalog

  /** One found `uac.log`: its path and the directory it sits in. */
  datatype UacLog = UacLog(logPath: Path, basePath: Path)

  const CatalogHeader: seq<string> := ["uac_log_path", "base_path", "hostname"]

  /** The host column: the extracted name, or `"UNKNOWN"` when there is none or it is empty. */
  function HostnameCell(host: Option<string>): (cell: string)
    ensures cell != ""
    ensures host.Some? && host.value != "" ==> cell == host.value
    ensures host.None? || host.value == "" ==> cell == "UNKNOWN"
  {
    if host.Some? && host.value != "" then host.value else "UNKNOWN"
  }

  function CatalogRow(files: map<Path, File>, log: UacLog): (row: Row)
    ensures row.Keys == Columns(CatalogHeader)
    ensures row["uac_log_path"] == log.logPath && row["base_path"] == log.basePath
    ensures row["hostname"] == HostnameCell(ExtractHostname(files, log.logPath))
  {
    map["uac_log_path" := log.logPath, "base_path" := log.basePath,
        "hostname" := HostnameCell(ExtractHostname(files, log.logPath))]
  }

  /** The catalog rows: one per found log, in discovery order. */
  function CatalogRows(files: map<Path, File>, logs: seq<UacLog>): (rows: seq<Row>)
    ensures |rows| == |logs|
    ensures forall k :: 0 <= k < |rows| ==> rows[k] == CatalogRow(files, logs[k])
  {
    seq(|logs|, k requires 0 <= k < |logs| => CatalogRow(files, logs[k]))
  }

  /** `write_evidence_csv` (main.py:53-64): the catalog is rewritten with one row per log. */
  method WriteEvidenceCsv(fs: FileSystem, catalogPath: Path, logs: seq<UacLog>)
    modifies fs
    ensures fs.files == old(fs.files)[catalogPath := CsvFile(Table(CatalogHeader, CatalogRows(old(fs.files), logs)))]
  {
    var rows: seq<Row> := [];
    for i := 0 to |logs|
      invariant rows == CatalogRows(fs.files, logs[..i])
    {
      var hostname := ExtractHostname(fs.files, logs[i].logPath);
      rows := rows + [map["uac_log_path" := logs[i].logPath, "base_path" := logs[i].basePath,
                          "hostname" := HostnameCell(hostname)]];
    }
    assert logs[..|logs|] == logs;
    fs.WriteTable(catalogPath, Table(CatalogHeader, rows));
  }

  /**
   * The catalog is what the parser scripts read: every row has the two key columns and a
   * non-empty host, so their job list is always defined over it.
   */
  lemma CatalogFeedsParsers(files: map<Path, File>, logs: seq<UacLog>, walks: Walks, artifact: string)
    ensures var rows := CatalogRows(files, logs);
      && Complete(Table(CatalogHeader, rows))
      && (forall k :: 0 <= k < |rows| ==> Tracker.Keyed(rows[k]) && rows[k]["hostname"] != "")
      && Coordinator.Sources(rows, walks, artifact).Some?
  {
    Coordinator.SourcesDefined(CatalogRows(files, logs), walks, artifact);
  }

  // ---------------------------------------------------------------- the evidence files of a dump

  /** One evidence file: its full path and its name. */
  datatype EvidenceFile = EvidenceFile(fullPath: Path, name: string)

  /** The folders of a dump that are searched, in this order. */
  const SearchedFolders: seq<string> := ["bodyfile", "hash_executables", "live_response"]

  /** The files `os.walk` reports, with `os.path.join(root, fname)` as full path. */
  function Files(entries: seq<WalkEntry>): (files: seq<EvidenceFile>)
    ensures |files| == |entries|
    ensures forall k :: 0 <= k < |files| ==> files[k] == EvidenceFile(Child(entries[k].root, entries[k].name), entries[k].name)
  {
    seq(|entries|, k requires 0 <= k < |entries| => EvidenceFile(Child(entries[k].root, entries[k].name), entries[k].name))
  }

  /** Every file below the given folders of `base`, folder by folder; a folder that is not a directory adds none. */
  function Listed(walks: Walks, base: Path, folders: seq<string>): seq<EvidenceFile> {
    if folders == [] then []
    else
      var dir := Child(base, folders[0]);
      (if dir in walks then Files(walks[dir]) else []) + Listed(walks, base, folders[1..])
  }

  function FullPaths(files: seq<EvidenceFile>): set<Path> {
    if files == [] then {} else {files[0].fullPath} + FullPaths(files[1..])
  }

  /**
   * The files whose full path is not in `seen` and not the full path of an earlier file: the
   * first file seen under each path, in the order seen.
   */
  function Unseen(files: seq<EvidenceFile>, seen: set<Path>): seq<EvidenceFile> {
    if files == [] then []
    else if files[0].fullPath in seen then Unseen(files[1..], seen)
    else [files[0]] + Unseen(files[1..], seen + {files[0].fullPath})
  }

  /** The evidence files of a dump, as `process_single_uac` collects them. */
  function Gathered(walks: Walks, base: Path): seq<EvidenceFile> {
    Unseen(Listed(walks, base, SearchedFolders), {})
  }

  /** Each kept file is a listed one, no two kept files share a path, and none was seen before. */
  lemma {:induction false} UnseenFrom(files: seq<EvidenceFile>, seen: set<Path>)
    ensures forall y :: y in Unseen(files, seen) ==> y in files && y.fullPath !in seen
  {
    if files != [] {
      var x := files[0];
      if x.fullPath in seen {
        UnseenFrom(files[1..], seen);
        assert Unseen(files, seen) == Unseen(files[1..], seen);
      } else {
        UnseenFrom(files[1..], seen + {x.fullPath});
        assert Unseen(files, seen) == [x] + Unseen(files[1..], seen + {x.fullPath});
      }
    }
  }

  /** No two files share a full path. */
  predicate DistinctPaths(files: seq<EvidenceFile>) {
    forall k, l :: 0 <= k < l < |files| ==> files[k].fullPath != files[l].fullPath
  }

  lemma {:induction false} UnseenDistinct(files: seq<EvidenceFile>, seen: set<Path>)
    ensures DistinctPaths(Unseen(files, seen))
  {
    if files != [] {
      var x := files[0];
      if x.fullPath in seen {
        UnseenDistinct(files[1..], seen);
        assert Unseen(files, seen) == Unseen(files[1..], seen);
      } else {
        var rest := Unseen(files[1..], seen + {x.fullPath});
        UnseenDistinct(files[1..], seen + {x.fullPath});
        UnseenFrom(files[1..], seen + {x.fullPath});
        var r := [x] + rest;
        assert Unseen(files, seen) == r;
        forall k, l | 0 <= k < l < |r| ensures r[k].fullPath != r[l].fullPath {
          assert r[l] == rest[l - 1];
          if k > 0 {
            assert r[k] == rest[k - 1];
          } else {
            assert r[0] == x;
            assert rest[l - 1] in rest;
          }
        }
      }
    }
  }

  /** Nothing is lost: every listed path not seen before is kept once. */
  lemma {:induction false} UnseenPaths(files: seq<EvidenceFile>, seen: set<Path>)
    ensures FullPaths(Unseen(files, seen)) == FullPaths(files) - seen
  {
    if files != [] {
      var x := files[0];
      if x.fullPath in seen {
        UnseenPaths(files[1..], seen);
      } else {
        UnseenPaths(files[1..], seen + {x.fullPath});
        assert Unseen(files, seen)[1..] == Unseen(files[1..], seen + {x.fullPath});
      }
    }
  }

  /**
   * First-seen order: the files kept from a longer listing begin with those kept from its
   * prefix; what the rest adds is what it holds beyond the paths seen so far.
   */
  lemma {:induction false} UnseenAppend(xs: seq<EvidenceFile>, ys: seq<EvidenceFile>, seen: set<Path>)
    ensures Unseen(xs + ys, seen) == Unseen(xs, seen) + Unseen(ys, seen + FullPaths(xs))
  {
    if xs == [] {
      assert xs + ys == ys;
      assert seen + {} == seen;
    } else {
      var x := xs[0];
      assert (xs + ys)[0] == x && (xs + ys)[1..] == xs[1..] + ys;
      if x.fullPath in seen {
        UnseenAppend(xs[1..], ys, seen);
        assert seen + FullPaths(xs) == seen + FullPaths(xs[1..]);
      } else {
        UnseenAppend(xs[1..], ys, seen + {x.fullPath});
        assert seen + {x.fullPath} + FullPaths(xs[1..]) == seen + FullPaths(xs);
      }
    }
  }

  /** The inner loops of `process_single_uac` over one folder's walk (main.py:75-80). */
  method AddFolder(records: seq<EvidenceFile>, seen: set<Path>, entries: seq<WalkEntry>)
      returns (more: seq<EvidenceFile>, now: set<Path>)
    ensures more == records + Unseen(Files(entries), seen)
    ensures now == seen + FullPaths(Files(entries))
  {
    more, now := records, seen;
    var files := Files(entries);
    for j := 0 to |entries|
      invariant more + Unseen(files[j..], now) == records + Unseen(files, seen)
      invariant now + FullPaths(files[j..]) == seen + FullPaths(files)
    {
      assert files[j..][0] == files[j] && files[j..][1..] == files[j + 1..];
      var fullPath := Child(entries[j].root, entries[j].name);
      if fullPath !in now {
        more := more + [EvidenceFile(fullPath, entries[j].name)];
        now := now + {fullPath};
        assert now + FullPaths(files[j + 1..]) == now - {fullPath} + FullPaths(files[j..]);
      }
    }
    assert files[|entries|..] == [];
    assert more + [] == more && now + {} == now;
  }

  /** The files below the folders from `f` on: those of folder `f`, then those of the rest. */
  lemma ListedStep(walks: Walks, base: Path, folders: seq<string>, f: nat)
    requires f < |folders|
    ensures var dir := Child(base, folders[f]);
      Listed(walks, base, folders[f..])
        == (if dir in walks then Files(walks[dir]) else []) + Listed(walks, base, folders[f + 1..])
  {
    assert folders[f..][0] == folders[f] && folders[f..][1..] == folders[f + 1..];
  }

  /** One folder's files kept on top of those kept so far. */
  lemma FolderStep(records: seq<EvidenceFile>, seen: set<Path>, found: seq<EvidenceFile>, rest: seq<EvidenceFile>,
                   more: seq<EvidenceFile>, now: set<Path>)
    requires more == records + Unseen(found, seen) && now == seen + FullPaths(found)
    ensures more + Unseen(rest, now) == records + Unseen(found + rest, seen)
  {
    UnseenAppend(found, rest, seen);
  }

  /** The folder loop of `process_single_uac` (main.py:69-80). */
  method CollectEvidence(walks: Walks, base: Path) returns (records: seq<EvidenceFile>)
    ensures records == Gathered(walks, base)
  {
    records := CollectFrom(walks, base, SearchedFolders);
  }

  /** The folder loop over any list of folders. */
  method CollectFrom(walks: Walks, base: Path, folders: seq<string>) returns (records: seq<EvidenceFile>)
    ensures records == Unseen(Listed(walks, base, folders), {})
  {
    records := [];
    var seen: set<Path> := {};
    ghost var all := Unseen(Listed(walks, base, folders), {});
    assert folders[0..] == folders;
    assert [] + all == all;
    for f := 0 to |folders|
      invariant records + Unseen(Listed(walks, base, folders[f..]), seen) == all
    {
      var dir := Child(base, folders[f]);
      ghost var found: seq<EvidenceFile> := if dir in walks then Files(walks[dir]) else [];
      ListedStep(walks, base, folders, f);
      var more, now := records, seen;
      if dir in walks {
        more, now := AddFolder(records, seen, walks[dir]);
      } else {
        assert more == records + Unseen(found, seen) && now == seen + FullPaths(found);
      }
      FolderStep(records, seen, found, Listed(walks, base, folders[f + 1..]), more, now);
      records, seen := more, now;
    }
    assert folders[|folders|..] == [];
    assert records + [] == records;
  }

  const EvidenceFileHeader: seq<string> := ["full_filepath", "filename"]

  function EvidenceRow(file: EvidenceFile): Row {
    map["full_filepath" := file.fullPath, "filename" := file.name]
  }

  function EvidenceRows(files: seq<EvidenceFile>): (rows: seq<Row>)
    ensures |rows| == |files|
    ensures forall k :: 0 <= k < |rows| ==> rows[k] == EvidenceRow(files[k])
  {
    seq(|files|, k requires 0 <= k < |files| => EvidenceRow(files[k]))
  }

  /** Where a dump's list of evidence files goes. */
  function EvidenceCsv(base: Path): Path {
    Child(base, "evidence_path.csv")
  }

  /** A processed dump reports its log and the path of its list of evidence files. */
  datatype Note = Note(uacLogPath: Path, csvPath: Path)

  /**
   * `process_single_uac` (main.py:66-88): the dump's evidence files, each full path once, are
   * written to `evidence_path.csv` in its directory, and the log and that path are queued.
   */
  method ProcessSingleUac(fs: FileSystem, queue: Channel<Message<Note>>, walks: Walks, log: UacLog)
    modifies fs, queue
    ensures fs.files == old(fs.files)[EvidenceCsv(log.basePath) :=
      CsvFile(Table(EvidenceFileHeader, EvidenceRows(Gathered(walks, log.basePath))))]
    ensures queue.items == old(queue.items) + [Item(Note(log.logPath, EvidenceCsv(log.basePath)))]
  {
    var records := CollectEvidence(walks, log.basePath);
    var csvPath := EvidenceCsv(log.basePath);
    var rows: seq<Row> := [];
    for i := 0 to |records|
      invariant rows == EvidenceRows(records[..i])
    {
      rows := rows + [EvidenceRow(records[i])];
    }
    assert records[..|records|] == records;
    fs.WriteTable(csvPath, Table(EvidenceFileHeader, rows));
    queue.Put(Item(Note(log.logPath, csvPath)));
  }

  // ---------------------------------------------------------------- updating the catalog

  const LogColumn := "uac_log_path"
  const EvidenceColumn := "evidence_path"

  /**
   * The header the catalog is rewritten with (main.py:94-98): the one read, or the catalog's
   * own for an empty file, with `evidence_path` added at the end when it is missing.
   */
  function UpdatedHeader(header: seq<string>): (r: seq<string>)
    ensures EvidenceColumn in r
    ensures var read := if header == [] then CatalogHeader else header;
      |read| <= |r| <= |read| + 1 && r[..|read|] == read
    ensures var read := if header == [] then CatalogHeader else header;
      && (EvidenceColumn in read ==> r == read)
      && (EvidenceColumn !in read ==> r == read + [EvidenceColumn])
  {
    var read := if header == [] then CatalogHeader else header;
    if EvidenceColumn in read then read else read + [EvidenceColumn]
  }

  /**
   * `evidence_path` is in the new header exactly once when it was in the old one at most once,
   * and a second update leaves the header as the first made it.
   */
  lemma HeaderOnce(header: seq<string>)
    requires multiset(header)[EvidenceColumn] <= 1
    ensures multiset(UpdatedHeader(header))[EvidenceColumn] == 1
    ensures UpdatedHeader(UpdatedHeader(header)) == UpdatedHeader(header)
  {
    var read := if header == [] then CatalogHeader else header;
    assert multiset(read)[EvidenceColumn] <= 1;
    if EvidenceColumn !in read {
      assert multiset(read + [EvidenceColumn]) == multiset(read) + multiset{EvidenceColumn};
    }
  }

  /** The row is searched past: it has the log column and names another log. */
  predicate Passes(row: Row, log: Path) {
    LogColumn in row && row[LogColumn] != log
  }

  /**
   * One message applied to the rows (main.py:104-108): the first row whose log column names
   * the log gets the evidence path; `None` when a row reached before that lacks the column
   * (`KeyError`).
   */
  function Assign(records: seq<Row>, note: Note): Option<seq<Row>> {
    if records == [] then Some([])
    else if LogColumn !in records[0] then None
    else if records[0][LogColumn] == note.uacLogPath then Some([records[0][EvidenceColumn := note.csvPath]] + records[1..])
    else match Assign(records[1..], note)
      case None => None
      case Some(rest) => Some([records[0]] + rest)
  }

  /** The first row naming the log gets the path; every other row stays as it was. */
  lemma {:induction false} AssignHit(records: seq<Row>, note: Note, k: nat)
    requires k < |records| && LogColumn in records[k] && records[k][LogColumn] == note.uacLogPath
    requires forall j :: 0 <= j < k ==> Passes(records[j], note.uacLogPath)
    ensures Assign(records, note) == Some(records[k := records[k][EvidenceColumn := note.csvPath]])
  {
    if k == 0 {
      assert [records[0][EvidenceColumn := note.csvPath]] + records[1..] == records[0 := records[0][EvidenceColumn := note.csvPath]];
    } else {
      assert Passes(records[0], note.uacLogPath);
      assert forall j :: 0 <= j < k - 1 ==> records[1..][j] == records[j + 1];
      AssignHit(records[1..], note, k - 1);
      assert [records[0]] + records[1..][k - 1 := records[k][EvidenceColumn := note.csvPath]]
        == records[k := records[k][EvidenceColumn := note.csvPath]];
    }
  }

  /** A message naming no row changes nothing, but is still handled. */
  lemma {:induction false} AssignMiss(records: seq<Row>, note: Note)
    requires forall j :: 0 <= j < |records| ==> Passes(records[j], note.uacLogPath)
    ensures Assign(records, note) == Some(records)
  {
    if records != [] {
      assert forall j :: 0 <= j < |records| - 1 ==> records[1..][j] == records[j + 1];
      AssignMiss(records[1..], note);
      assert [records[0]] + records[1..] == records;
    }
  }

  /** A row without the log column reached before any match raises `KeyError`. */
  lemma {:induction false} AssignAbort(records: seq<Row>, note: Note, k: nat)
    requires k < |records| && LogColumn !in records[k]
    requires forall j :: 0 <= j < k ==> Passes(records[j], note.uacLogPath)
    ensures Assign(records, note) == None
  {
    if k > 0 {
      assert Passes(records[0], note.uacLogPath);
      assert forall j :: 0 <= j < k - 1 ==> records[1..][j] == records[j + 1];
      AssignAbort(records[1..], note, k - 1);
    }
  }

  /** `for row in records: if row['uac_log_path'] == ...: row['evidence_path'] = ...; break`. */
  method AssignNote(records: seq<Row>, note: Note) returns (r: Option<seq<Row>>)
    ensures r == Assign(records, note)
  {
    for k := 0 to |records|
      invariant forall j :: 0 <= j < k ==> Passes(records[j], note.uacLogPath)
    {
      if LogColumn !in records[k] {
        AssignAbort(records, note, k);
        return None;
      }
      if records[k][LogColumn] == note.uacLogPath {
        AssignHit(records, note, k);
        return Some(records[k := records[k][EvidenceColumn := note.csvPath]]);
      }
    }
    AssignMiss(records, note);
    r := Some(records);
  }

  /** The messages applied in turn; `None` once one raises. */
  function ApplyAll(records: seq<Row>, notes: seq<Note>): Option<seq<Row>>
    decreases |notes|
  {
    if notes == [] then Some(records)
    else match Assign(records, notes[0])
      case None => None
      case Some(r) => ApplyAll(r, notes[1..])
  }

  /** `b` is `a`, but for the evidence column. */
  predicate SameBut(a: Row, b: Row) {
    && a.Keys - {EvidenceColumn} == b.Keys - {EvidenceColumn}
    && forall c :: c in a && c != EvidenceColumn ==> c in b && b[c] == a[c]
  }

  /** Over rows that all have the log column, a message never raises and changes one row at most. */
  lemma {:induction false} AssignShape(records: seq<Row>, note: Note)
    requires forall k :: 0 <= k < |records| ==> LogColumn in records[k]
    ensures Assign(records, note).Some?
    ensures var r := Assign(records, note).value;
      && |r| == |records|
      && forall k :: 0 <= k < |r| ==> r[k] == records[k] || r[k] == records[k][EvidenceColumn := note.csvPath]
  {
    if records != [] && records[0][LogColumn] != note.uacLogPath {
      assert forall k :: 0 <= k < |records| - 1 ==> records[1..][k] == records[k + 1];
      AssignShape(records[1..], note);
      var rest := Assign(records[1..], note).value;
      assert forall k :: 1 <= k < |records| ==> ([records[0]] + rest)[k] == rest[k - 1];
    }
  }

  /**
   * Over rows that all have the log column, the update never raises, keeps the number and the
   * order of the rows, and changes nothing in them but the evidence column.
   */
  lemma {:induction false} ApplyAllShape(records: seq<Row>, notes: seq<Note>)
    requires forall k :: 0 <= k < |records| ==> LogColumn in records[k]
    ensures ApplyAll(records, notes).Some?
    ensures var r := ApplyAll(records, notes).value;
      && |r| == |records|
      && forall k :: 0 <= k < |r| ==> SameBut(records[k], r[k])
    decreases |notes|
  {
    if notes != [] {
      AssignShape(records, notes[0]);
      var next := Assign(records, notes[0]).value;
      ApplyAllShape(next, notes[1..]);
      var r := ApplyAll(next, notes[1..]).value;
      forall k | 0 <= k < |r| ensures SameBut(records[k], r[k]) {
        assert SameBut(records[k], next[k]) && SameBut(next[k], r[k]);
      }
    }
  }

  /** The updated header keeps every column of a non-empty header and has the evidence column. */
  lemma HeaderWidens(header: seq<string>)
    requires header != []
    ensures Columns(header) + {EvidenceColumn} <= Columns(UpdatedHeader(header))
  {
    var wider := UpdatedHeader(header);
    assert wider[..|header|] == header;
    forall c | c in Columns(header) ensures c in Columns(wider) {
      var i :| 0 <= i < |header| && header[i] == c;
      assert wider[i] == c;
    }
  }

  lemma SameButFits(a: Row, b: Row, header: seq<string>, wider: seq<string>)
    requires SameBut(a, b) && a.Keys == Columns(header)
    requires Columns(header) + {EvidenceColumn} <= Columns(wider)
    ensures Fits(b, wider)
  {
    forall c | c in b ensures c in Columns(wider) {
      if c != EvidenceColumn {
        assert c in b.Keys - {EvidenceColumn};
      }
    }
  }

  /**
   * Over a catalog whose rows have its header's columns, the log column among them, the
   * rewritten catalog has every row in its place with every old column as it was.
   */
  lemma UpdateKeepsRows(t: Table, notes: seq<Note>)
    requires Complete(t) && LogColumn in t.header
    ensures ApplyAll(t.rows, notes).Some?
    ensures var u := Updated(t, notes);
      && u.header == UpdatedHeader(t.header)
      && |u.rows| == |t.rows|
      && forall k, c :: 0 <= k < |u.rows| && c in t.header ==> c in u.rows[k] && (c != EvidenceColumn ==> u.rows[k][c] == t.rows[k][c])
  {
    var header := UpdatedHeader(t.header);
    HeaderWidens(t.header);
    ApplyAllShape(t.rows, notes);
    var r := ApplyAll(t.rows, notes).value;
    forall k | 0 <= k < |r| ensures Fits(r[k], header) {
      SameButFits(t.rows[k], r[k], t.header, header);
    }
    WrittenAllFit(r, header);
  }

  /**
   * The `while updated < total` loop of `update_evidence_csv_with_queue` (main.py:99-109): at
   * most `total` messages are taken, up to a `"DONE"`, and each is applied to the rows, a
   * message that names no row counting like any other. On a `KeyError` the queue is left
   * just after the message that raised.
   */
  method ApplyQueue(records: seq<Row>, queue: Channel<Message<Note>>, total: nat)
      returns (result: Option<seq<Row>>, ghost taken: nat)
    requires Settles(queue.items, total)
    modifies queue
    ensures result == ApplyAll(records, Drained(old(queue.items), total))
    ensures taken <= Consumed(old(queue.items), total) && queue.items == old(queue.items)[taken..]
    ensures result.Some? ==> taken == Consumed(old(queue.items), total)
  {
    taken := 0;
    var rows := records;
    ghost var start := queue.items;
    var updated := 0;
    while updated < total
      invariant updated <= total && taken <= |start| && queue.items == start[taken..]
      invariant Settles(queue.items, total - updated)
      invariant ApplyAll(rows, Drained(queue.items, total - updated)) == ApplyAll(records, Drained(start, total))
      invariant taken + Consumed(queue.items, total - updated) == Consumed(start, total)
      decreases total - updated
    {
      ghost var before := queue.items;
      var m := queue.Get();
      taken := taken + 1;
      if m.Done? {
        assert Drained(before, total - updated) == [];
        break;
      }
      assert before[1..] == queue.items;
      var r := AssignNote(rows, m.value);
      if r.None? {
        return None, taken;
      }
      rows := r.value;
      updated := updated + 1;
    }
    result := Some(rows);
  }

  /**
   * `update_evidence_csv_with_queue` (main.py:90-115): the catalog is read, the queued
   * messages applied to its rows, and the catalog rewritten under the updated header. A
   * missing catalog raises before the queue is touched; a `KeyError` raises before anything
   * is written.
   */
  method UpdateEvidenceCsv(fs: FileSystem, catalogPath: Path, queue: Channel<Message<Note>>, total: nat)
      returns (ghost taken: nat)
    requires Settles(queue.items, total)
    modifies fs, queue
    ensures var t := old(fs.ReadTable(catalogPath));
      t.None? ==> fs.files == old(fs.files) && queue.items == old(queue.items)
    ensures var t := old(fs.ReadTable(catalogPath));
      t.Some? ==>
        var r := ApplyAll(t.value.rows, Drained(old(queue.items), total));
        var header := UpdatedHeader(t.value.header);
        && taken <= Consumed(old(queue.items), total)
        && queue.items == old(queue.items)[taken..]
        && (r.None? ==> fs.files == old(fs.files))
        && (r.Some? ==> taken == Consumed(old(queue.items), total))
        && (r.Some? ==> fs.files == old(fs.files)[catalogPath := CsvFile(Table(header, Written(r.value, header)))])
  {
    taken := 0;
    var table := fs.ReadTable(catalogPath);
    if table.None? {
      return;
    }
    var fieldnames := if table.value.header == [] then CatalogHeader else table.value.header;
    if EvidenceColumn !in fieldnames {
      fieldnames := fieldnames + [EvidenceColumn];
    }
    var records;
    records, taken := ApplyQueue(table.value.rows, queue, total);
    if records.None? {
      return;
    }
    var written, ok := WriteRows(records.value, fieldnames);
    fs.WriteTable(catalogPath, Table(fieldnames, written));
  }

  // ---------------------------------------------------------------- the core count

  /**
   * The clamp in `process` (main.py:129-135): the trimmed answer as an integer, kept within
   * `1..maxCores`; an empty answer, text `int` rejects, or no answer at all (`input` raising
   * at end of input) gives `maxCores`.
   */
  function ClampCores(answer: Option<string>, maxCores: nat): (n: nat)
    requires maxCores >= 1
    ensures 1 <= n <= maxCores
    ensures answer.None? || Strip(answer.value) == "" || PyInt(Strip(answer.value)).None? ==> n == maxCores
    ensures answer.Some? && PyInt(Strip(answer.value)).Some? ==>
      var k := PyInt(Strip(answer.value)).value;
      n == if k < 1 then 1 else if k > maxCores then maxCores else k
  {
    if answer.None? then maxCores
    else
      var text := Strip(answer.value);
      if text == "" then maxCores
      else match PyInt(text)
        case None => maxCores
        case Some(k) => var m := if k < maxCores then k else maxCores; if m > 1 then m else 1
  }

  // ---------------------------------------------------------------- the whole run

  function CatalogPath(evidenceDir: Path): Path {
    Child(evidenceDir, "evidence_records.csv")
  }

  /** A file name ends a path made with `Child`. */
  lemma ChildEnds(dir: Path, name: string)
    ensures |Child(dir, name)| >= |name| && Child(dir, name)[|Child(dir, name)| - |name|..] == name
  {
  }

  /** The catalog is never one of the lists of evidence files: the file names differ. */
  lemma CatalogApart(evidenceDir: Path, base: Path)
    ensures CatalogPath(evidenceDir) != EvidenceCsv(base)
  {
    var p, q := CatalogPath(evidenceDir), EvidenceCsv(base);
    ChildEnds(evidenceDir, "evidence_records.csv");
    ChildEnds(base, "evidence_path.csv");
    assert p[|p| - 6] == 'd';
    assert q[|q| - 6] == 't';
  }

  /** The message each dump leaves, in dump order. */
  function Notes(logs: seq<UacLog>): (notes: seq<Note>)
    ensures |notes| == |logs|
    ensures forall k :: 0 <= k < |notes| ==> notes[k] == Note(logs[k].logPath, EvidenceCsv(logs[k].basePath))
  {
    seq(|logs|, k requires 0 <= k < |logs| => Note(logs[k].logPath, EvidenceCsv(logs[k].basePath)))
  }

  /** The disk after each dump's list of evidence files is written, in dump order. */
  function WithEvidence(files: map<Path, File>, walks: Walks, logs: seq<UacLog>): map<Path, File>
    decreases |logs|
  {
    if logs == [] then files
    else
      var last := logs[|logs| - 1];
      WithEvidence(files, walks, logs[..|logs| - 1])[EvidenceCsv(last.basePath) :=
        CsvFile(Table(EvidenceFileHeader, EvidenceRows(Gathered(walks, last.basePath))))]
  }

  /** `Child(dir, name)` is `dir` with one separating `/`, then `name`. */
  function Dir(dir: Path): Path {
    if dir != [] && dir[|dir| - 1] == '/' then dir else dir + "/"
  }

  /**
   * Two dumps whose evidence lists share a path have the same folders, and so the same
   * evidence files.
   */
  lemma SameEvidenceCsv(walks: Walks, a: Path, b: Path)
    requires EvidenceCsv(a) == EvidenceCsv(b)
    ensures Gathered(walks, a) == Gathered(walks, b)
  {
    assert Child(a, "evidence_path.csv") == Dir(a) + "evidence_path.csv";
    assert Child(b, "evidence_path.csv") == Dir(b) + "evidence_path.csv";
    assert Dir(a) == (Dir(a) + "evidence_path.csv")[..|Dir(a)|];
    assert Dir(b) == (Dir(b) + "evidence_path.csv")[..|Dir(b)|];
    ListedSameDir(walks, a, b, SearchedFolders);
  }

  lemma {:induction false} ListedSameDir(walks: Walks, a: Path, b: Path, folders: seq<string>)
    requires Dir(a) == Dir(b)
    ensures Listed(walks, a, folders) == Listed(walks, b, folders)
  {
    if folders != [] {
      assert Child(a, folders[0]) == Dir(a) + folders[0];
      assert Child(b, folders[0]) == Dir(b) + folders[0];
      ListedSameDir(walks, a, b, folders[1..]);
    }
  }

  /** Every dump's list is on disk, and a file that is no such list is untouched. */
  lemma {:induction false} WithEvidenceHas(files: map<Path, File>, walks: Walks, logs: seq<UacLog>)
    ensures forall k :: 0 <= k < |logs| ==>
      var p := EvidenceCsv(logs[k].basePath);
      p in WithEvidence(files, walks, logs)
      && WithEvidence(files, walks, logs)[p] == CsvFile(Table(EvidenceFileHeader, EvidenceRows(Gathered(walks, logs[k].basePath))))
    decreases |logs|
  {
    if logs != [] {
      var init := logs[..|logs| - 1];
      WithEvidenceHas(files, walks, init);
      var last := logs[|logs| - 1];
      forall k | 0 <= k < |logs| - 1 && EvidenceCsv(logs[k].basePath) == EvidenceCsv(last.basePath)
        ensures Gathered(walks, logs[k].basePath) == Gathered(walks, last.basePath)
      {
        SameEvidenceCsv(walks, logs[k].basePath, last.basePath);
      }
      assert forall k :: 0 <= k < |logs| - 1 ==> logs[k] == init[k];
    }
  }

  /** Writing a file that is no dump's list commutes with writing the lists. */
  lemma {:induction false} WithEvidenceOver(files: map<Path, File>, walks: Walks, logs: seq<UacLog>, p: Path, f: File)
    requires forall k :: 0 <= k < |logs| ==> p != EvidenceCsv(logs[k].basePath)
    ensures WithEvidence(files[p := f], walks, logs) == WithEvidence(files, walks, logs)[p := f]
    decreases |logs|
  {
    if logs != [] {
      var init := logs[..|logs| - 1];
      assert forall k :: 0 <= k < |init| ==> init[k] == logs[k];
      var last := logs[|logs| - 1];
      var q, v := EvidenceCsv(last.basePath), CsvFile(Table(EvidenceFileHeader, EvidenceRows(Gathered(walks, last.basePath))));
      var m := WithEvidence(files, walks, init);
      calc {
        WithEvidence(files[p := f], walks, logs);
        WithEvidence(files[p := f], walks, init)[q := v];
        { WithEvidenceOver(files, walks, init, p, f); }
        m[p := f][q := v];
        { assert p != q; }
        m[q := v][p := f];
        WithEvidence(files, walks, logs)[p := f];
      }
    }
  }

  /**
   * A catalog once the messages are applied: rewritten under the updated header, or as it
   * was when a message raises.
   */
  function Updated(t: Table, notes: seq<Note>): Table {
    match ApplyAll(t.rows, notes)
    case None => t
    case Some(r) => Table(UpdatedHeader(t.header), Written(r, UpdatedHeader(t.header)))
  }

  /** The catalog as the run leaves it: the fresh catalog with every dump's message applied. */
  function FinalCatalog(files: map<Path, File>, logs: seq<UacLog>): Table {
    Updated(Table(CatalogHeader, CatalogRows(files, logs)), Notes(logs))
  }

  /** The loop of the sequential branch of `process` (main.py:142-143). */
  method ProcessAll(fs: FileSystem, queue: Channel<Message<Note>>, walks: Walks, logs: seq<UacLog>)
    requires queue.items == []
    modifies fs, queue
    ensures fs.files == WithEvidence(old(fs.files), walks, logs)
    ensures queue.items == Items(Notes(logs))
  {
    for i := 0 to |logs|
      invariant queue.items == Items(Notes(logs[..i]))
      invariant fs.files == WithEvidence(old(fs.files), walks, logs[..i])
    {
      ProcessSingleUac(fs, queue, walks, logs[i]);
      assert logs[..i + 1][..i] == logs[..i];
      assert Items(Notes(logs[..i + 1])) == Items(Notes(logs[..i])) + [Item(Notes(logs[..i + 1])[i])];
    }
    assert logs[..|logs|] == logs;
  }

  /**
   * `process` (main.py:117-151), with the dumps handled one after the other as its sequential
   * branch does: the catalog is written; with no dump that is all; otherwise the core count is
   * chosen, each dump's evidence list is written and its message queued, and the catalog is
   * updated from the queue. `cores` is `None` when the question is never asked.
   */
  method Process(fs: FileSystem, walks: Walks, evidenceDir: Path, logs: seq<UacLog>, answer: Option<string>, maxCores: nat)
      returns (cores: Option<nat>)
    requires maxCores >= 1
    modifies fs
    ensures logs == [] ==>
      cores == None && fs.files == old(fs.files)[CatalogPath(evidenceDir) := CsvFile(Table(CatalogHeader, []))]
    ensures logs != [] ==>
      && cores == Some(ClampCores(answer, maxCores))
      && fs.files == WithEvidence(old(fs.files), walks, logs)[CatalogPath(evidenceDir) := CsvFile(FinalCatalog(old(fs.files), logs))]
  {
    var catalogPath := CatalogPath(evidenceDir);
    WriteEvidenceCsv(fs, catalogPath, logs);
    if logs == [] {
      return None;
    }
    cores := Some(ClampCores(answer, maxCores));
    CatalogApartAll(evidenceDir, logs);
    ghost var catalog := Table(CatalogHeader, CatalogRows(old(fs.files), logs));
    ProcessDumps(fs, walks, catalogPath, logs, catalog);
    RewriteOver(old(fs.files), walks, logs, catalogPath, CsvFile(catalog), CsvFile(FinalCatalog(old(fs.files), logs)));
  }

  lemma CatalogApartAll(evidenceDir: Path, logs: seq<UacLog>)
    ensures forall k :: 0 <= k < |logs| ==> CatalogPath(evidenceDir) != EvidenceCsv(logs[k].basePath)
  {
    forall k | 0 <= k < |logs| ensures CatalogPath(evidenceDir) != EvidenceCsv(logs[k].basePath) {
      CatalogApart(evidenceDir, logs[k].basePath);
    }
  }

  /** A file written, the lists written, and the file written again: as if only the last write. */
  lemma RewriteOver(files: map<Path, File>, walks: Walks, logs: seq<UacLog>, p: Path, first: File, last: File)
    requires forall k :: 0 <= k < |logs| ==> p != EvidenceCsv(logs[k].basePath)
    ensures WithEvidence(files[p := first], walks, logs)[p := last] == WithEvidence(files, walks, logs)[p := last]
  {
    WithEvidenceOver(files, walks, logs, p, first);
  }

  /**
   * The dumps of a non-empty catalog processed one after the other, then the catalog updated
   * from the queue they filled.
   */
  method ProcessDumps(fs: FileSystem, walks: Walks, catalogPath: Path, logs: seq<UacLog>, ghost catalog: Table)
    requires fs.ReadTable(catalogPath) == Some(catalog)
    requires forall k :: 0 <= k < |logs| ==> catalogPath != EvidenceCsv(logs[k].basePath)
    modifies fs
    ensures fs.files == WithEvidence(old(fs.files), walks, logs)[catalogPath := CsvFile(Updated(catalog, Notes(logs)))]
  {
    var queue := new Channel<Message<Note>>();
    ProcessAll(fs, queue, walks, logs);
    WithEvidenceOver(old(fs.files), walks, logs, catalogPath, CsvFile(catalog));
    assert old(fs.files)[catalogPath := CsvFile(catalog)] == old(fs.files);
    DrainTakesAll(Notes(logs), |logs|);
    ghost var mid := fs.files;
    ghost var taken := UpdateEvidenceCsv(fs, catalogPath, queue, |logs|);
    assert fs.files == mid[catalogPath := CsvFile(Updated(catalog, Notes(logs)))];
  }

  /** Two dumps never share a log path, as `os.walk` reports each file once. */
  predicate DistinctLogs(logs: seq<UacLog>) {
    forall k, l :: 0 <= k < l < |logs| ==> logs[k].logPath != logs[l].logPath
  }

  /** The catalog row of a dump once its message is applied. */
  function StampedRow(files: map<Path, File>, log: UacLog): Row {
    CatalogRow(files, log)[EvidenceColumn := EvidenceCsv(log.basePath)]
  }

  /** The catalog rows with the first `i` messages applied. */
  function Partly(files: map<Path, File>, logs: seq<UacLog>, i: nat): (rows: seq<Row>)
    ensures |rows| == |logs|
    ensures forall k :: 0 <= k < |rows| ==> rows[k] == if k < i then StampedRow(files, logs[k]) else CatalogRow(files, logs[k])
  {
    seq(|logs|, k requires 0 <= k < |logs| => if k < i then StampedRow(files, logs[k]) else CatalogRow(files, logs[k]))
  }

  lemma StampedKeys(files: map<Path, File>, log: UacLog)
    ensures StampedRow(files, log).Keys == Columns(CatalogHeader + [EvidenceColumn])
  {
    assert Columns(CatalogHeader + [EvidenceColumn]) == Columns(CatalogHeader) + {EvidenceColumn};
  }

  lemma {:induction false} StampFrom(files: map<Path, File>, logs: seq<UacLog>, i: nat)
    requires i <= |logs| && DistinctLogs(logs)
    ensures ApplyAll(Partly(files, logs, i), Notes(logs)[i..]) == Some(Partly(files, logs, |logs|))
    decreases |logs| - i
  {
    if i < |logs| {
      var rows, note := Partly(files, logs, i), Notes(logs)[i];
      AssignHit(rows, note, i);
      assert rows[i := rows[i][EvidenceColumn := note.csvPath]] == Partly(files, logs, i + 1);
      assert Notes(logs)[i..][1..] == Notes(logs)[i + 1..];
      StampFrom(files, logs, i + 1);
    } else {
      assert Notes(logs)[i..] == [];
    }
  }

  /**
   * With distinct log paths, the run leaves every catalog row in its place with its evidence
   * list's path added, under the catalog header followed by `evidence_path`.
   */
  lemma EveryDumpStamped(files: map<Path, File>, logs: seq<UacLog>)
    requires DistinctLogs(logs)
    ensures var t := FinalCatalog(files, logs);
      && t.header == CatalogHeader + [EvidenceColumn]
      && |t.rows| == |logs|
      && forall k :: 0 <= k < |logs| ==> t.rows[k] == StampedRow(files, logs[k])
  {
    assert Partly(files, logs, 0) == CatalogRows(files, logs);
    assert Notes(logs)[0..] == Notes(logs);
    StampFrom(files, logs, 0);
    var header := CatalogHeader + [EvidenceColumn];
    assert UpdatedHeader(CatalogHeader) == header;
    var rows := Partly(files, logs, |logs|);
    forall k | 0 <= k < |rows| ensures rows[k].Keys == Columns(header) {
      StampedKeys(files, logs[k]);
    }
    WrittenWhole(rows, header);
  }
}
