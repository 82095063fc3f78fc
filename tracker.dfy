/**
 * The tracker CSV that both parser scripts keep next to the evidence catalog: `load_tracker`
 * reads the (hostname, uac_log_path) pairs already recorded, and `update_tracker` drains the
 * outcome queue and rewrites the file with the old rows followed by the new outcomes.
 * The two scripts define these functions identically; one model serves both.
 */
module Tracker {
  import opened Wrappers
  import opened Storage
  import opened Ingest

  /** What `load_tracker` collects from a row. */
  type Key = (string, string)

  predicate Keyed(row: map<string, string>) {
    "hostname" in row && "uac_log_path" in row
  }

  function KeyOf(row: map<string, string>): Key
    requires Keyed(row)
  {
    (row["hostname"], row["uac_log_path"])
  }

  /** The pair a queued outcome leaves in the tracker. */
  function OutcomeKey(o: Outcome): Key {
    (o.hostname, o.uacLogPath)
  }

  /**
   * The set comprehension over the rows; `None` when a row lacks one of the two columns, where
   * `row["hostname"]` raises `KeyError`.
   */
  function LoadRows(rows: seq<map<string, string>>): Option<set<Key>> {
    if rows == [] then Some({})
    else
      var rest := LoadRows(rows[1..]);
      if !Keyed(rows[0]) || rest.None? then None else Some({KeyOf(rows[0])} + rest.value)
  }

  /**
   * `load_tracker` fails exactly when some row lacks a column, and otherwise collects exactly
   * the (hostname, uac_log_path) pair of every row (body.py:148-151).
   */
  lemma {:induction false} LoadRowsMeaning(rows: seq<map<string, string>>)
    ensures LoadRows(rows).Some? <==> forall k :: 0 <= k < |rows| ==> Keyed(rows[k])
    ensures LoadRows(rows).Some? ==>
      forall key :: key in LoadRows(rows).value <==> exists k :: 0 <= k < |rows| && Keyed(rows[k]) && KeyOf(rows[k]) == key
  {
    if rows != [] {
      LoadRowsMeaning(rows[1..]);
      assert forall k :: 1 <= k < |rows| ==> rows[k] == rows[1..][k - 1];
      if LoadRows(rows).Some? {
        forall key | key in LoadRows(rows).value
          ensures exists k :: 0 <= k < |rows| && Keyed(rows[k]) && KeyOf(rows[k]) == key
        {
          if key != KeyOf(rows[0]) {
            var j :| 0 <= j < |rows[1..]| && Keyed(rows[1..][j]) && KeyOf(rows[1..][j]) == key;
            assert rows[j + 1] == rows[1..][j];
          }
        }
      }
    }
  }

  /** `load_tracker`: the empty set when there is no tracker file (body.py:144-151). */
  function LoadTracker(file: Option<Table>): Option<set<Key>> {
    if file.None? then Some({}) else LoadRows(file.value.rows)
  }

  // ---------------------------------------------------------------- rewriting the file

  /** The columns `update_tracker` always starts from. */
  const ExtraFields: seq<string> := ["total_lines", "success_count", "fail_count", "success_rate"]

  /**
   * The header of the rewritten tracker (body.py:170-176): the three fixed columns and the
   * extra fields, then every key of a processed record not among them, which for outcome records
   * is none. The header is exactly the seven keys of an outcome, whatever came from the queue.
   */
  method FieldNames(processed: seq<Outcome>) returns (fieldnames: seq<string>)
    ensures fieldnames == OutcomeKeys
  {
    fieldnames := ["hostname", "uac_log_path", "output_file"] + ExtraFields;
    for i := 0 to |processed|
      invariant fieldnames == OutcomeKeys
    {
      // the keys of `OutcomeRow(processed[i])`, in the order the record literal gives them
      for j := 0 to |OutcomeKeys|
        invariant fieldnames == OutcomeKeys
      {
        var key := OutcomeKeys[j];
        if key !in fieldnames {
          fieldnames := fieldnames + [key];
        }
      }
    }
  }

  /** The tracker rows already on disk; none when the file is missing. */
  function ExistingRows(files: map<Path, File>, path: Path): seq<map<string, string>> {
    if path in files && files[path].CsvFile? then files[path].table.rows else []
  }

  /** The outcome records as rows, in queue order. */
  function Rows(outcomes: seq<Outcome>): (rows: seq<map<string, string>>)
    ensures |rows| == |outcomes|
    ensures forall k :: 0 <= k < |rows| ==> rows[k] == OutcomeRow(outcomes[k])
  {
    seq(|outcomes|, k requires 0 <= k < |outcomes| => OutcomeRow(outcomes[k]))
  }

  /** The tracker table after `update_tracker` received `outcomes`. */
  function Tracked(files: map<Path, File>, path: Path, outcomes: seq<Outcome>): Table {
    Table(OutcomeKeys, Written(ExistingRows(files, path) + Rows(outcomes), OutcomeKeys))
  }

  /**
   * `update_tracker` (body.py:154-185): drain the queue, read the old rows, rewrite the file with
   * the header and the old rows followed by the new ones. `ok` is false when an old row has a
   * column outside the header and the write stops with `ValueError`.
   */
  method UpdateTracker(fs: FileSystem, path: Path, queue: Channel<Message<Outcome>>, total: nat)
      returns (ok: bool)
    requires Settles(queue.items, total)
    modifies fs, queue
    ensures queue.items == old(queue.items)[Consumed(old(queue.items), total)..]
    ensures fs.files == old(fs.files)[path := CsvFile(Tracked(old(fs.files), path, Drained(old(queue.items), total)))]
    ensures ok <==> AllFit(ExistingRows(old(fs.files), path), OutcomeKeys)
  {
    var processed := Drain(queue, total);
    var rows: seq<map<string, string>> := [];
    var existing := fs.ReadTable(path);
    if existing.Some? {
      rows := existing.value.rows;
    }
    assert rows == ExistingRows(fs.files, path);
    var fieldnames := FieldNames(processed);
    rows := rows + Rows(processed);
    var written;
    written, ok := WriteRows(rows, fieldnames);
    RowsFit(ExistingRows(old(fs.files), path), processed);
    fs.WriteTable(path, Table(fieldnames, written));
  }

  /** Outcome rows always fit the header, so only an old row can stop the write. */
  lemma RowsFit(existing: seq<map<string, string>>, processed: seq<Outcome>)
    ensures AllFit(existing + Rows(processed), OutcomeKeys) <==> AllFit(existing, OutcomeKeys)
  {
    var rows := existing + Rows(processed);
    if AllFit(existing, OutcomeKeys) {
      forall k | 0 <= k < |rows|
        ensures Fits(rows[k], OutcomeKeys)
      {
        if k >= |existing| {
          OutcomeFits(processed[k - |existing|]);
          assert rows[k] == Rows(processed)[k - |existing|];
        } else {
          assert rows[k] == existing[k];
        }
      }
    } else {
      var k :| 0 <= k < |existing| && !Fits(existing[k], OutcomeKeys);
      assert rows[k] == existing[k];
    }
  }

  lemma OutcomeFits(o: Outcome)
    ensures Fits(OutcomeRow(o), OutcomeKeys)
  {
  }

  // ---------------------------------------------------------------- what the tracker promises

  /** A row exactly as this code writes it: the seven outcome columns, no more, no fewer. */
  predicate TrackerRow(row: map<string, string>) {
    row.Keys == Columns(OutcomeKeys)
  }

  /**
   * Append only (body.py:183-185): over a tracker this code wrote before, the new file holds
   * every old row in its place and order, then one row per received outcome in queue order;
   * nothing is replaced or merged, even for a pair already recorded.
   */
  lemma TrackerAppends(files: map<Path, File>, path: Path, outcomes: seq<Outcome>)
    requires forall k :: 0 <= k < |ExistingRows(files, path)| ==> TrackerRow(ExistingRows(files, path)[k])
    ensures Tracked(files, path, outcomes) == Table(OutcomeKeys, ExistingRows(files, path) + Rows(outcomes))
  {
    var rows := ExistingRows(files, path) + Rows(outcomes);
    forall k | 0 <= k < |rows|
      ensures TrackerRow(rows[k])
    {
      if k >= |ExistingRows(files, path)| {
        assert rows[k] == OutcomeRow(outcomes[k - |ExistingRows(files, path)|]);
      }
    }
    WrittenWhole(rows, OutcomeKeys);
  }

  /** Reading two row lists one after the other collects the union of their pairs. */
  lemma {:induction false} LoadRowsAppend(xs: seq<map<string, string>>, ys: seq<map<string, string>>)
    requires LoadRows(xs).Some? && LoadRows(ys).Some?
    ensures LoadRows(xs + ys) == Some(LoadRows(xs).value + LoadRows(ys).value)
  {
    if xs != [] {
      assert (xs + ys)[0] == xs[0] && (xs + ys)[1..] == xs[1..] + ys;
      LoadRowsAppend(xs[1..], ys);
      var a, x, y := KeyOf(xs[0]), LoadRows(xs[1..]).value, LoadRows(ys).value;
      assert LoadRows(xs).value == {a} + x;
      assert LoadRows((xs + ys)[1..]) == Some(x + y);
      assert LoadRows(xs + ys) == Some({a} + (x + y));
      assert {a} + (x + y) == ({a} + x) + y;
    } else {
      assert xs + ys == ys;
      assert LoadRows(xs).value == {};
      assert LoadRows(xs).value + LoadRows(ys).value == LoadRows(ys).value;
    }
  }

  /** The (hostname, uac_log_path) pairs of a run's outcomes. */
  function Pairs(outcomes: seq<Outcome>): set<Key> {
    if outcomes == [] then {} else {OutcomeKey(outcomes[0])} + Pairs(outcomes[1..])
  }

  lemma {:induction false} PairsMeaning(outcomes: seq<Outcome>)
    ensures forall key :: key in Pairs(outcomes) <==> exists o :: o in outcomes && OutcomeKey(o) == key
  {
    if outcomes != [] {
      PairsMeaning(outcomes[1..]);
      assert forall o :: o in outcomes[1..] ==> o in outcomes;
      assert forall o :: o in outcomes ==> o == outcomes[0] || o in outcomes[1..];
    }
  }

  /** The pairs of a run's outcome rows are the pairs of its outcomes. */
  lemma {:induction false} LoadOutcomeRows(outcomes: seq<Outcome>)
    ensures LoadRows(Rows(outcomes)) == Some(Pairs(outcomes))
  {
    if outcomes != [] {
      assert Rows(outcomes)[1..] == Rows(outcomes[1..]);
      LoadOutcomeRows(outcomes[1..]);
      assert KeyOf(Rows(outcomes)[0]) == OutcomeKey(outcomes[0]);
    }
  }

  /**
   * Loading the tracker after an update over a tracker this code wrote gives the pairs known
   * before together with the pair of every received outcome.
   */
  lemma ReloadedTracker(files: map<Path, File>, path: Path, outcomes: seq<Outcome>)
    requires forall k :: 0 <= k < |ExistingRows(files, path)| ==> TrackerRow(ExistingRows(files, path)[k])
    ensures var before := LoadTracker(if path in files && files[path].CsvFile? then Some(files[path].table) else None);
            && before.Some?
            && LoadTracker(Some(Tracked(files, path, outcomes))) == Some(before.value + Pairs(outcomes))
  {
    var existing := ExistingRows(files, path);
    TrackerAppends(files, path, outcomes);
    KeyedRows(existing);
    LoadOutcomeRows(outcomes);
    LoadRowsAppend(existing, Rows(outcomes));
  }

  lemma {:induction false} KeyedRows(rows: seq<map<string, string>>)
    requires forall k :: 0 <= k < |rows| ==> TrackerRow(rows[k])
    ensures LoadRows(rows).Some?
  {
    if rows != [] {
      assert "hostname" in Columns(OutcomeKeys) && "uac_log_path" in Columns(OutcomeKeys);
      assert Keyed(rows[0]);
      assert forall k :: 0 <= k < |rows[1..]| ==> rows[1..][k] == rows[k + 1];
      KeyedRows(rows[1..]);
    }
  }
}
