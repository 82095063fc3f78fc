/**
 * The disk and the message queues the scripts share, as state that their operations change
 * in place. Files are text, or CSV tables read and written whole through `csv.DictReader`
 * and `csv.DictWriter`; quoting and the byte layout of CSV are not modelled.
 */
module Storage {
  import opened Wrappers
  import opened Text

  type Path = string

  /** Index of the last `c` in `s`. */
  function LastIndexOf(s: string, c: char): (r: Option<nat>)
    ensures r.Some? ==> r.value < |s| && s[r.value] == c
    ensures r.Some? ==> forall j :: r.value < j < |s| ==> s[j] != c
    ensures r.None? ==> c !in s
  {
    if s == [] then None
    else if s[|s| - 1] == c then Some(|s| - 1)
    else LastIndexOf(s[..|s| - 1], c)
  }

  /** `Path(p).parent` for a normalised path: everything before the last `/`. */
  function Parent(p: Path): Path {
    match LastIndexOf(p, '/')
    case None => "."
    case Some(i) => if i == 0 then "/" else p[..i]
  }

  /** `Path(dir) / name` and `os.path.join(dir, name)` for a relative `name`. */
  function Child(dir: Path, name: string): Path {
    if dir != [] && dir[|dir| - 1] == '/' then dir + name else dir + "/" + name
  }

  /** A directory path in normal form: not empty, and no trailing `/` unless it is the root. */
  predicate NormalDir(dir: Path) {
    dir != [] && (dir[|dir| - 1] == '/' ==> dir == "/")
  }

  /** The parent of `dir / name` is `dir` again, for a single path component `name`. */
  lemma ParentOfChild(dir: Path, name: string)
    requires NormalDir(dir) && name != [] && '/' !in name
    ensures Parent(Child(dir, name)) == dir
  {
    var p := Child(dir, name);
    var i := |p| - |name| - 1;
    assert p[i] == '/';
    assert forall j :: i < j < |p| ==> p[j] == name[j - i - 1];
    assert LastIndexOf(p, '/') == Some(i);
    if dir == "/" {
      assert i == 0;
    } else {
      assert p[..i] == dir;
    }
  }

  /** One file that `os.walk` reports: the directory it sits in and its name. */
  datatype WalkEntry = WalkEntry(root: Path, name: string)

  /**
   * What `os.walk` yields below each existing directory, in walk order; a directory that does
   * not exist has no entry.
   */
  type Walks = map<Path, seq<WalkEntry>>

  // ---------------------------------------------------------------- CSV tables

  /** A CSV file as `DictReader` sees it: the header row and one map per data row. */
  datatype Table = Table(header: seq<string>, rows: seq<map<string, string>>)

  /** Every row has exactly the header's columns, as `DictReader` gives for well-formed files. */
  predicate Complete(t: Table) {
    forall k :: 0 <= k < |t.rows| ==> t.rows[k].Keys == Columns(t.header)
  }

  /** `DictWriter.writerow` accepts the row: it has no key outside the header. */
  predicate Fits(row: map<string, string>, header: seq<string>) {
    row.Keys <= Columns(header)
  }

  function Columns(header: seq<string>): set<string> {
    set c | c in header
  }

  /** The row as it reads back after `DictWriter.writerow`: missing columns are empty cells. */
  function Project(row: map<string, string>, header: seq<string>): (r: map<string, string>)
    ensures forall c :: c in r <==> c in header
    ensures forall c :: c in r && c in row ==> r[c] == row[c]
    ensures forall c :: c in r && c !in row ==> r[c] == ""
  {
    map c | c in header :: if c in row then row[c] else ""
  }

  // ---------------------------------------------------------------- the disk

  datatype File = TextFile(content: string) | CsvFile(table: Table)

  /** The text of the file at `p`; `None` when there is no text file there. */
  function TextIn(files: map<Path, File>, p: Path): (r: Option<string>)
    ensures r.Some? <==> p in files && files[p].TextFile?
    ensures r.Some? ==> files[p] == TextFile(r.value)
  {
    if p in files && files[p].TextFile? then Some(files[p].content) else None
  }

  /** The files of the disk the scripts read and write, by absolute path. */
  class FileSystem {
    var files: map<Path, File>

    constructor(initial: map<Path, File>)
      ensures files == initial
    {
      files := initial;
    }

    /** `path.exists()` for a regular file. */
    predicate Exists(p: Path)
      reads this
    {
      p in files
    }

    /** The text of a text file; `None` when there is none to read. */
    function ReadText(p: Path): (r: Option<string>)
      reads this
      ensures r.Some? <==> p in files && files[p].TextFile?
    {
      TextIn(files, p)
    }

    /** The table in a CSV file; `None` when there is none. */
    function ReadTable(p: Path): (r: Option<Table>)
      reads this
      ensures r.Some? <==> p in files && files[p].CsvFile?
    {
      if p in files && files[p].CsvFile? then Some(files[p].table) else None
    }

    /** `open(p, "w").write(s)`. */
    method WriteText(p: Path, s: string)
      modifies this
      ensures files == old(files)[p := TextFile(s)]
    {
      files := files[p := TextFile(s)];
    }

    /** `open(p, "a").write(s)`: the file is created when missing. */
    method AppendText(p: Path, s: string)
      modifies this
      ensures files == old(files)[p := TextFile(AppendedTo(old(files), p, s))]
    {
      files := files[p := TextFile(AppendedTo(files, p, s))];
    }

    /** A whole table written through `DictWriter`: the header, then every row in order. */
    method WriteTable(p: Path, t: Table)
      modifies this
      ensures files == old(files)[p := CsvFile(t)]
    {
      files := files[p := CsvFile(t)];
    }
  }

  /** The content of `p` after appending `s`: its text so far, or nothing, followed by `s`. */
  function AppendedTo(files: map<Path, File>, p: Path, s: string): string {
    (if p in files && files[p].TextFile? then files[p].content else "") + s
  }

  /** Appending `s` adds `s` after what the file held. */
  lemma AppendedAfter(files: map<Path, File>, p: Path, s: string)
    ensures AppendedTo(files, p, s) == AppendedTo(files, p, "") + s
  {
    var held := if p in files && files[p].TextFile? then files[p].content else "";
    assert held + "" == held;
  }

  // ---------------------------------------------------------------- queues

  /** A message on a queue: a payload, or the `"DONE"` sentinel that ends the stream. */
  datatype Message<T> = Item(value: T) | Done

  /** A `multiprocessing.Manager().Queue()`, first in, first out. */
  class Channel<T> {
    var items: seq<T>

    constructor()
      ensures items == []
    {
      items := [];
    }

    method Put(x: T)
      modifies this
      ensures items == old(items) + [x]
    {
      items := items + [x];
    }

    /** `queue.get()`; it would block forever on an empty queue, so callers must not reach that. */
    method Get() returns (x: T)
      requires items != []
      modifies this
      ensures x == old(items)[0] && items == old(items)[1..]
    {
      x := items[0];
      items := items[1..];
    }
  }

  // ---------------------------------------------------------------- draining the queue

  /*
   * Both consumers of a queue, `update_tracker` (body.py:156-161) and
   * `update_evidence_csv_with_queue` (main.py:99-109), take messages until `total` of them have
   * been handled or a `"DONE"` arrives.
   */

  /**
   * The consumer never waits on an empty queue: before `total` items have been taken, a
   * `"DONE"` or a further item is always there.
   */
  predicate Settles<T>(items: seq<Message<T>>, total: nat)
    decreases total
  {
    total == 0 || (items != [] && (items[0].Done? || Settles(items[1..], total - 1)))
  }

  /**
   * The values the drain keeps: the messages before the first `"DONE"`, at most `total` of
   * them.
   */
  function Drained<T>(items: seq<Message<T>>, total: nat): (r: seq<T>)
    requires Settles(items, total)
    ensures |r| <= total
    decreases total
  {
    if total == 0 || items[0].Done? then []
    else [items[0].value] + Drained(items[1..], total - 1)
  }

  /**
   * The drained values are the leading items of the queue, and fewer than `total` only when
   * a `"DONE"` comes next.
   */
  lemma {:induction false} DrainedLeads<T>(items: seq<Message<T>>, total: nat)
    requires Settles(items, total)
    ensures var r := Drained(items, total);
            && |r| <= |items|
            && (forall k :: 0 <= k < |r| ==> items[k] == Item(r[k]))
            && (|r| < total ==> |r| < |items| && items[|r|].Done?)
    decreases total
  {
    if total != 0 && !items[0].Done? {
      DrainedLeads(items[1..], total - 1);
    }
  }

  /** How many messages the drain takes off the queue, the `"DONE"` included. */
  function Consumed<T>(items: seq<Message<T>>, total: nat): (n: nat)
    requires Settles(items, total)
    ensures n <= |items|
    decreases total
  {
    if total == 0 then 0
    else if items[0].Done? then 1
    else 1 + Consumed(items[1..], total - 1)
  }

  /** The `while len(processed) < total` loop of `update_tracker` (body.py:156-161). */
  method Drain<T>(queue: Channel<Message<T>>, total: nat) returns (processed: seq<T>)
    requires Settles(queue.items, total)
    modifies queue
    ensures processed == Drained(old(queue.items), total)
    ensures queue.items == old(queue.items)[Consumed(old(queue.items), total)..]
  {
    ghost var start := queue.items;
    ghost var taken := 0;
    processed := [];
    while |processed| < total
      invariant |processed| <= total && taken <= |start|
      invariant queue.items == start[taken..]
      invariant Settles(queue.items, total - |processed|)
      invariant processed + Drained(queue.items, total - |processed|) == Drained(start, total)
      invariant taken + Consumed(queue.items, total - |processed|) == Consumed(start, total)
      decreases total - |processed|
    {
      ghost var before := queue.items;
      var m := queue.Get();
      taken := taken + 1;
      if m.Done? {
        assert Drained(before, total - |processed|) == [];
        break;
      }
      assert before[1..] == queue.items;
      processed := processed + [m.value];
    }
  }

  /** The messages the producers leave on a queue, one per value. */
  function Items<T>(values: seq<T>): (items: seq<Message<T>>)
    ensures |items| == |values|
    ensures forall k :: 0 <= k < |items| ==> items[k] == Item(values[k])
  {
    seq(|values|, k requires 0 <= k < |values| => Item(values[k]))
  }

  /**
   * At most `total` values followed by `"DONE"`: the drain keeps exactly those values, ignores
   * whatever follows the `"DONE"`, and takes the `"DONE"` off the queue unless `total` values
   * came before it.
   */
  lemma {:induction false} DrainStopsAtDone<T>(values: seq<T>, later: seq<Message<T>>, total: nat)
    requires |values| <= total
    ensures Settles(Items(values) + [Done] + later, total)
    ensures Drained(Items(values) + [Done] + later, total) == values
    ensures Consumed(Items(values) + [Done] + later, total) == if |values| < total then |values| + 1 else |values|
  {
    var items := Items(values) + [Done] + later;
    if values != [] {
      assert items[1..] == Items(values[1..]) + [Done] + later;
      DrainStopsAtDone(values[1..], later, total - 1);
    }
  }

  /**
   * Exactly `total` values and no `"DONE"`, as a producer that runs every job before the
   * consumer starts leaves them: the drain takes them all and empties the queue.
   */
  lemma {:induction false} DrainTakesAll<T>(values: seq<T>, total: nat)
    requires |values| == total
    ensures Settles(Items(values), total)
    ensures Drained(Items(values), total) == values
    ensures Consumed(Items(values), total) == total
  {
    if values != [] {
      assert Items(values)[1..] == Items(values[1..]);
      DrainTakesAll(values[1..], total - 1);
    }
  }

  // ---------------------------------------------------------------- writing tables

  /** `DictWriter` accepts every row. */
  predicate AllFit(rows: seq<map<string, string>>, header: seq<string>) {
    forall k :: 0 <= k < |rows| ==> Fits(rows[k], header)
  }

  /**
   * What `DictWriter.writerow` leaves on disk for the rows in order: each row read back under
   * the header, up to the first row with a key outside the header, where `writerow` raises
   * `ValueError` and the file is closed with the rows written so far.
   */
  function Written(rows: seq<map<string, string>>, header: seq<string>): seq<map<string, string>> {
    if rows == [] || !Fits(rows[0], header) then []
    else [Project(rows[0], header)] + Written(rows[1..], header)
  }

  /**
   * `writer.writerow(row)` for each row in turn: what reaches the file, and whether every row
   * fitted the header.
   */
  method WriteRows(rows: seq<map<string, string>>, header: seq<string>)
      returns (written: seq<map<string, string>>, ok: bool)
    ensures written == Written(rows, header)
    ensures ok <==> AllFit(rows, header)
  {
    written := [];
    ok := true;
    var i := 0;
    while i < |rows|
      invariant 0 <= i <= |rows|
      invariant written + Written(rows[i..], header) == Written(rows, header)
      invariant forall k :: 0 <= k < i ==> Fits(rows[k], header)
    {
      if !Fits(rows[i], header) {
        assert rows[i..][0] == rows[i];
        ok := false;
        return;
      }
      assert rows[i..][1..] == rows[i + 1..];
      written := written + [Project(rows[i], header)];
      i := i + 1;
    }
    assert rows[i..] == [];
  }

  /** Rows that have exactly the header's columns are written and read back unchanged. */
  lemma {:induction false} WrittenWhole(rows: seq<map<string, string>>, header: seq<string>)
    requires forall k :: 0 <= k < |rows| ==> rows[k].Keys == Columns(header)
    ensures Written(rows, header) == rows
  {
    if rows != [] {
      assert Project(rows[0], header) == rows[0];
      assert forall k :: 0 <= k < |rows[1..]| ==> rows[1..][k] == rows[k + 1];
      WrittenWhole(rows[1..], header);
    }
  }

  /** When every row fits, every row is written, each read back under the header. */
  lemma {:induction false} WrittenAllFit(rows: seq<map<string, string>>, header: seq<string>)
    requires AllFit(rows, header)
    ensures |Written(rows, header)| == |rows|
    ensures forall k :: 0 <= k < |rows| ==> Written(rows, header)[k] == Project(rows[k], header)
  {
    if rows != [] {
      assert forall k :: 0 <= k < |rows[1..]| ==> rows[1..][k] == rows[k + 1];
      WrittenAllFit(rows[1..], header);
    }
  }
}
