/**
 * The bodyfile parser of body.py: the four grok grammars tried in order on each trimmed line
 * of `bodyfile.txt`, the event a matching line becomes, and `StatLogParser.process`, which scans
 * the file, frames the events and publishes the outcome.
 *
 * A grok grammar is modelled as a field split: the line is cut at every `|` and the pieces are
 * checked field by field. This is exact under the assumption that no `DATA` field (the path,
 * the permissions, the two halves of a link) holds a `|`.
 */
module StatLog {
  import opened Wrappers
  import opened Text
  import opened Timestamp
  import opened Storage
  import opened Ingest

  // ---------------------------------------------------------------- grammars

  /** A grok field: `%{NUMBER:name}`, `%{DATA:name}`, or `%{DATA:source} -> %{DATA:target}`. */
  datatype Field = Number(name: string) | Data(name: string) | Link(source: string, target: string)

  type Grammar = seq<Field>

  /** The named captures of a successful match, as pygrok's `match` returns them. */
  type Match = map<string, string>

  const Arrow := " -> "

  /** The bodyfile grammar without a birth time (body.py:12). */
  const Plain: Grammar :=
    [Number("inode"), Data("path"), Number("block_count"), Data("permissions"), Number("uid"),
     Number("gid"), Number("size"), Number("mtime"), Number("ctime"), Number("atime")]

  /** The same with the birth time as an eleventh field (body.py:10). */
  const PlainWithBirth: Grammar := Plain + [Number("btime")]

  /** The two grammars with the path split at ` -> ` (body.py:11, 13). */
  const LinkWithBirth: Grammar := PlainWithBirth[1 := Link("symlink_path", "symlink_target")]
  const LinkOnly: Grammar := Plain[1 := Link("symlink_path", "symlink_target")]

  /** `GROK_PATTERNS`, in the order they are tried. */
  const Grammars: seq<Grammar> := [PlainWithBirth, LinkWithBirth, Plain, LinkOnly]

  /** Whether one `|`-free piece of the line fits a field; `DATA` stops at a newline. */
  predicate FieldAccepts(f: Field, piece: string) {
    '\n' !in piece &&
    match f
    case Number(_) => IsGrokNumber(piece)
    case Data(_) => true
    case Link(_, _) => Contains(piece, Arrow)
  }

  /** The captures of one field added to `m`: the piece, or for a link the text on each side of the first ` -> `. */
  function Bind(m: Match, f: Field, piece: string): Match {
    match f
    case Number(n) => m[n := piece]
    case Data(n) => m[n := piece]
    case Link(a, b) =>
      match Find(piece, Arrow)
      case None => m
      case Some(i) => m[a := piece[..i]][b := piece[i + |Arrow|..]]
  }

  /** Every piece fits the field at its position, and there are exactly as many pieces as fields. */
  predicate Accepts(g: Grammar, pieces: seq<string>) {
    |g| == |pieces| && forall k :: 0 <= k < |g| ==> FieldAccepts(g[k], pieces[k])
  }

  /** The captures of the first `n` fields, each field's names bound to what it captured. */
  function CapturesUpTo(g: Grammar, pieces: seq<string>, n: nat): Match
    requires n <= |g| && n <= |pieces|
  {
    if n == 0 then map[] else Bind(CapturesUpTo(g, pieces, n - 1), g[n - 1], pieces[n - 1])
  }

  function Captures(g: Grammar, pieces: seq<string>): Match
    requires |g| == |pieces|
  {
    CapturesUpTo(g, pieces, |g|)
  }

  /** `Grok(pattern).match(line)`: the captures when the whole line fits the grammar, else `None`. */
  function GrokMatch(g: Grammar, line: string): (m: Option<Match>)
    ensures m.Some? <==> Accepts(g, Split(line, "|"))
  {
    var pieces := Split(line, "|");
    if Accepts(g, pieces) then Some(Captures(g, pieces)) else None
  }

  /** The inner loop of `process`: the first grammar from `j` on that matches, and its captures. */
  function FirstMatchFrom(gs: seq<Grammar>, line: string, j: nat): Option<(nat, Match)>
    decreases |gs| - j
  {
    if j >= |gs| then None
    else match GrokMatch(gs[j], line)
      case Some(m) => Some((j, m))
      case None => FirstMatchFrom(gs, line, j + 1)
  }

  /**
   * The grammars are tried in list order and the first that matches wins: the chosen grammar
   * matches with the returned captures, every earlier one fails, and there is no choice exactly
   * when none matches.
   */
  lemma {:induction false} FirstMatchWins(gs: seq<Grammar>, line: string, j: nat)
    ensures var r := FirstMatchFrom(gs, line, j);
            && (r.Some? ==> j <= r.value.0 < |gs| && GrokMatch(gs[r.value.0], line) == Some(r.value.1))
            && (r.Some? ==> forall i :: j <= i < r.value.0 ==> GrokMatch(gs[i], line).None?)
            && (r.None? <==> forall i :: j <= i < |gs| ==> GrokMatch(gs[i], line).None?)
    decreases |gs| - j
  {
    if j < |gs| && GrokMatch(gs[j], line).None? {
      FirstMatchWins(gs, line, j + 1);
    }
  }

  // ---------------------------------------------------------------- the event

  datatype ProcessInfo = ProcessInfo(commandLine: string, statInode: string)
  datatype FileInfo = FileInfo(fullPath: Option<string>, size: int, lastModificationTime: Option<string>,
                               lastAccessTime: Option<string>, createTime: Option<string>)
  datatype Principal = Principal(process: ProcessInfo, hostname: string, file: FileInfo)
  datatype Metadata = Metadata(eventType: string, productName: string, vendorName: string, logType: string)

  /**
   * The event a matching bodyfile line becomes (body.py:63-95); `additional` keeps its entries
   * in the order the dict literal gives them, once the `None` values are gone.
   */
  datatype StatEvent = StatEvent(principal: Principal, metadata: Metadata, namespace: string,
                                 additional: seq<(string, string)>)

  const FileRead := Metadata("FILE_READ", "Linux", "Juniper", "Host")
  const Namespace := "UnixArtifactCollector"

  /** The dict comprehension of body.py:97: the entries whose value is not `None`, in order. */
  function DropNone(entries: seq<(string, Option<string>)>): seq<(string, string)> {
    if entries == [] then []
    else
      (if entries[0].1.Some? then [(entries[0].0, entries[0].1.value)] else [])
        + DropNone(entries[1..])
  }

  /** The filter keeps exactly the entries whose value is not `None`, in their order. */
  lemma {:induction false} DropNoneKeeps(entries: seq<(string, Option<string>)>)
    ensures forall e :: e in DropNone(entries) <==> (e.0, Some(e.1)) in entries
    ensures |DropNone(entries)| <= |entries|
  {
    if entries != [] {
      DropNoneKeeps(entries[1..]);
      assert entries == [entries[0]] + entries[1..];
    }
  }


  /** The keys `process` reads with `match[...]`; a missing one raises `KeyError`. */
  const Required := {"inode", "block_count", "permissions", "uid", "gid", "size", "mtime", "ctime", "atime"}

  /** `x if x else None` for a text: the empty text is falsy. */
  function Truthy(s: Option<string>): Option<string> {
    if s.Some? && s.value != "" then s else None
  }

  /**
   * The body of the inner loop once a grammar matched: the event, or `Raised` when a key is
   * missing or `int(match["size"])` fails.
   */
  function BuildEvent(m: Match, host: string, toIso: string -> Option<string>): (r: LineResult<StatEvent>)
    ensures !r.Unmatched?
  {
    if !(Required <= m.Keys) then Raised
    else match PyInt(m["size"])
      case None => Raised
      case Some(size) => Parsed(EventOf(m, host, size, toIso))
  }

  /** The event literal of body.py:63-95 with the `None` entries of `additional` dropped. */
  function EventOf(m: Match, host: string, size: int, toIso: string -> Option<string>): StatEvent
    requires Required <= m.Keys
  {
    var isLink := "symlink_path" in m && "symlink_target" in m;
    var path := if isLink then Some(m["symlink_target"]) else if "path" in m then Some(m["path"]) else None;
    var symlink := if isLink then Some(m["symlink_path"]) else None;
    var btime := if "btime" in m then Some(m["btime"]) else None;
    var file := FileInfo(path, size, toIso(m["mtime"]), toIso(m["atime"]),
                         if Truthy(btime).Some? then toIso(btime.value) else None);
    var additional := DropNone([("symlink", Truthy(symlink)), ("block_count", Some(m["block_count"])),
                                ("permissions", Some(m["permissions"])), ("uid", Some(m["uid"])),
                                ("gid", Some(m["gid"])), ("metadata_change_time", toIso(m["ctime"]))]);
    StatEvent(Principal(ProcessInfo("stat", m["inode"]), host, file), FileRead, Namespace, additional)
  }

  /** One line of the file: trimmed, tried against the grammars, built into an event. */
  function ParseLine(line: string, host: string): LineResult<StatEvent> {
    match FirstMatchFrom(Grammars, Strip(line), 0)
    case None => Unmatched
    case Some((_, m)) => BuildEvent(m, host, ToIso)
  }

  /** The parse of one line of a given host's file, as a function value. */
  function ParseLineOf(host: string): string -> LineResult<StatEvent> {
    line => ParseLine(line, host)
  }

  function ParseAll(lines: seq<string>, host: string): seq<LineResult<StatEvent>> {
    ParseEach(lines, ParseLineOf(host))
  }

  // ---------------------------------------------------------------- process

  /** The inner loop of `process` (body.py:49-101): the grammars in order, stopping at the first match. */
  method MatchFirst(gs: seq<Grammar>, s: string) returns (found: Option<(nat, Match)>)
    ensures found == FirstMatchFrom(gs, s, 0)
  {
    found := None;
    var j := 0;
    while j < |gs|
      invariant 0 <= j <= |gs|
      invariant FirstMatchFrom(gs, s, 0) == if found.None? then FirstMatchFrom(gs, s, j) else found
    {
      var m := GrokMatch(gs[j], s);
      if m.Some? {
        found := Some((j, m.value));
        break;
      }
      j := j + 1;
    }
  }

  /** One pass of the outer loop: the trimmed line through the cascade, then the event built. */
  method ParseOne(line: string, host: string) returns (r: LineResult<StatEvent>)
    ensures r == ParseLineOf(host)(line)
  {
    var found := MatchFirst(Grammars, Strip(line));
    r := if found.None? then Unmatched else BuildEvent(found.value.1, host, ToIso);
  }

  /** The scan of a bodyfile's text, read line by line with universal newlines. */
  function StatTally(content: string, host: string): Option<Tally<StatEvent>> {
    Scan(ParseAll(Lines(Newlines(content)), host))
  }

  /**
   * `StatLogParser.process` (body.py:39-141): a missing input or an exception in the scan
   * changes nothing; otherwise the framed events are written, the output path is appended to
   * the manifest and the outcome record is queued. `render` stands for `json.dump` of one event.
   */
  method Process(fs: FileSystem, queue: Channel<Message<Outcome>>, job: Job, render: StatEvent -> string)
    modifies fs, queue
    ensures var input := old(fs.ReadText(job.inputPath));
            if input.None? || StatTally(input.value, job.hostname).None? then
              fs.files == old(fs.files) && queue.items == old(queue.items)
            else
              var t := StatTally(input.value, job.hostname).value;
              && fs.files == Published(old(fs.files), job.outputPath, Framed(Rendered(t.events, render)))
              && queue.items == old(queue.items) + [Item(OutcomeOf(job, t))]
  {
    var input := fs.ReadText(job.inputPath);
    if input.None? {
      return;
    }
    var scanned := ScanLines(Lines(Newlines(input.value)), ParseLineOf(job.hostname));
    if scanned.None? {
      return;
    }
    Publish(fs, queue, job, Rendered(scanned.value.events, render), scanned.value);
  }

  // ---------------------------------------------------------------- what the grammars capture

  /** What a plain grammar binds: each of the first ten pieces under its field's name. */
  function PlainMatch(p: seq<string>): Match
    requires |p| >= 10
  {
    map["inode" := p[0], "path" := p[1], "block_count" := p[2], "permissions" := p[3], "uid" := p[4],
        "gid" := p[5], "size" := p[6], "mtime" := p[7], "ctime" := p[8], "atime" := p[9]]
  }

  lemma CapturesOfPlain(p: seq<string>)
    requires |p| >= 10
    ensures CapturesUpTo(Plain, p, 10) == PlainMatch(p)
  {
    CapturesOfPlainMiddle(p);
    assert CapturesUpTo(Plain, p, 8) == CapturesUpTo(Plain, p, 7)["mtime" := p[7]];
    assert CapturesUpTo(Plain, p, 9) == CapturesUpTo(Plain, p, 8)["ctime" := p[8]];
    assert CapturesUpTo(Plain, p, 10) == CapturesUpTo(Plain, p, 9)["atime" := p[9]];
  }

  lemma CapturesOfPlainMiddle(p: seq<string>)
    requires |p| >= 10
    ensures CapturesUpTo(Plain, p, 7) == map["inode" := p[0], "path" := p[1], "block_count" := p[2], "permissions" := p[3], "uid" := p[4], "gid" := p[5], "size" := p[6]]
  {
    CapturesOfPlainFront(p);
    assert CapturesUpTo(Plain, p, 5) == CapturesUpTo(Plain, p, 4)["uid" := p[4]];
    assert CapturesUpTo(Plain, p, 6) == CapturesUpTo(Plain, p, 5)["gid" := p[5]];
    assert CapturesUpTo(Plain, p, 7) == CapturesUpTo(Plain, p, 6)["size" := p[6]];
  }

  lemma CapturesOfPlainFront(p: seq<string>)
    requires |p| >= 10
    ensures CapturesUpTo(Plain, p, 4) == map["inode" := p[0], "path" := p[1], "block_count" := p[2], "permissions" := p[3]]
  {
    assert CapturesUpTo(Plain, p, 0) == map[];
    assert CapturesUpTo(Plain, p, 1) == CapturesUpTo(Plain, p, 0)["inode" := p[0]];
    assert CapturesUpTo(Plain, p, 2) == CapturesUpTo(Plain, p, 1)["path" := p[1]];
    assert CapturesUpTo(Plain, p, 3) == CapturesUpTo(Plain, p, 2)["block_count" := p[2]];
    assert CapturesUpTo(Plain, p, 4) == CapturesUpTo(Plain, p, 3)["permissions" := p[3]];
  }

  /** The captures of the first `n` fields depend only on those fields. */
  lemma {:induction false} CapturesUpToSamePrefix(g: Grammar, h: Grammar, p: seq<string>, n: nat)
    requires n <= |g| && n <= |h| && n <= |p| && g[..n] == h[..n]
    ensures CapturesUpTo(g, p, n) == CapturesUpTo(h, p, n)
  {
    if n > 0 {
      assert g[n - 1] == g[..n][n - 1] && h[n - 1] == h[..n][n - 1];
      assert g[..n - 1] == g[..n][..n - 1] && h[..n - 1] == h[..n][..n - 1];
      CapturesUpToSamePrefix(g, h, p, n - 1);
    }
  }

  /** The eleven-field grammar binds the ten plain captures and the birth time. */
  lemma CapturesOfPlainWithBirth(p: seq<string>)
    requires |p| == 11
    ensures Captures(PlainWithBirth, p) == PlainMatch(p)["btime" := p[10]]
  {
    assert PlainWithBirth[..10] == Plain[..10];
    CapturesUpToSamePrefix(PlainWithBirth, Plain, p, 10);
    CapturesOfPlain(p);
  }

  // ---------------------------------------------------------------- which grammar wins

  /** A link field accepts only what a `DATA` field in its place accepts. */
  lemma LinkNarrows(g: Grammar, k: nat, a: string, b: string, p: seq<string>)
    requires k < |g| && g[k].Data? && Accepts(g[k := Link(a, b)], p)
    ensures Accepts(g, p)
  {
    forall i | 0 <= i < |g| ensures FieldAccepts(g[i], p[i]) {
      assert FieldAccepts(g[k := Link(a, b)][i], p[i]);
    }
  }

  /**
   * The cascade of body.py:49-101 never settles on a symlink grammar: each accepts only lines
   * that the plain grammar of its arity, tried just before it, already accepts. A line is
   * matched by the eleven-field grammar when it fits it, else by the ten-field one, else not at all.
   */
  lemma {:induction false} CascadeChoice(line: string)
    ensures var p := Split(line, "|");
            FirstMatchFrom(Grammars, line, 0) ==
              if Accepts(PlainWithBirth, p) then Some((0, Captures(PlainWithBirth, p)))
              else if Accepts(Plain, p) then Some((2, Captures(Plain, p)))
              else None
  {
    var p := Split(line, "|");
    if Accepts(LinkWithBirth, p) {
      LinkNarrows(PlainWithBirth, 1, "symlink_path", "symlink_target", p);
    }
    if Accepts(LinkOnly, p) {
      LinkNarrows(Plain, 1, "symlink_path", "symlink_target", p);
    }
    FirstMatchWins(Grammars, line, 0);
    assert Grammars[0] == PlainWithBirth && Grammars[1] == LinkWithBirth;
    assert Grammars[2] == Plain && Grammars[3] == LinkOnly;
  }

  // ---------------------------------------------------------------- what a line becomes

  /**
   * The event of a line that a plain grammar accepts, read off the field positions: the path
   * whole, the birth time only from an eleventh field, and no `symlink` entry.
   */
  function PlainEvent(p: seq<string>, host: string, toIso: string -> Option<string>): LineResult<StatEvent>
    requires |p| == 10 || |p| == 11
  {
    match PyInt(p[6])
    case None => Raised
    case Some(size) => Parsed(PlainEventOf(p, host, size, toIso))
  }

  function PlainEventOf(p: seq<string>, host: string, size: int, toIso: string -> Option<string>): StatEvent
    requires |p| == 10 || |p| == 11
  {
    var created := if |p| == 11 then toIso(p[10]) else None;
    var file := FileInfo(Some(p[1]), size, toIso(p[7]), toIso(p[9]), created);
    StatEvent(Principal(ProcessInfo("stat", p[0]), host, file), FileRead, Namespace, DropNone(PlainEntries(p, toIso)))
  }

  /** The entries of `additional` before filtering, for a plain match: there is no symlink. */
  function PlainEntries(p: seq<string>, toIso: string -> Option<string>): seq<(string, Option<string>)>
    requires |p| >= 10
  {
    [("block_count", Some(p[2])), ("permissions", Some(p[3])), ("uid", Some(p[4])), ("gid", Some(p[5])),
     ("metadata_change_time", toIso(p[8]))]
  }

  /** A grok `NUMBER` is never empty, so a captured birth time is always truthy. */
  lemma GrokNumberNonEmpty(s: string)
    requires IsGrokNumber(s)
    ensures s != ""
  {
  }

  lemma BuildWithBirth(p: seq<string>, host: string, toIso: string -> Option<string>)
    requires Accepts(PlainWithBirth, p)
    ensures BuildEvent(PlainMatch(p)["btime" := p[10]], host, toIso) == PlainEvent(p, host, toIso)
  {
    var m := PlainMatch(p)["btime" := p[10]];
    assert Required <= m.Keys && m["size"] == p[6];
    assert FieldAccepts(PlainWithBirth[10], p[10]);
    GrokNumberNonEmpty(p[10]);
    if PyInt(p[6]).Some? {
      EventWithBirth(p, host, PyInt(p[6]).value, toIso);
    }
  }

  lemma EventWithBirth(p: seq<string>, host: string, size: int, toIso: string -> Option<string>)
    requires |p| == 11 && p[10] != ""
    ensures EventOf(PlainMatch(p)["btime" := p[10]], host, size, toIso) == PlainEventOf(p, host, size, toIso)
  {
    SymlinkEntryDropped(p, toIso);
  }

  lemma BuildWithoutBirth(p: seq<string>, host: string, toIso: string -> Option<string>)
    requires |p| == 10
    ensures BuildEvent(PlainMatch(p), host, toIso) == PlainEvent(p, host, toIso)
  {
    var m := PlainMatch(p);
    assert Required <= m.Keys && m["size"] == p[6];
    if PyInt(p[6]).Some? {
      EventWithoutBirth(p, host, PyInt(p[6]).value, toIso);
    }
  }

  lemma EventWithoutBirth(p: seq<string>, host: string, size: int, toIso: string -> Option<string>)
    requires |p| == 10
    ensures EventOf(PlainMatch(p), host, size, toIso) == PlainEventOf(p, host, size, toIso)
  {
    SymlinkEntryDropped(p, toIso);
  }

  /** With no symlink, the leading `symlink` entry of body.py:88 is filtered away. */
  lemma SymlinkEntryDropped(p: seq<string>, toIso: string -> Option<string>)
    requires |p| >= 10
    ensures DropNone([("symlink", None), ("block_count", Some(p[2])), ("permissions", Some(p[3])), ("uid", Some(p[4])),
                      ("gid", Some(p[5])), ("metadata_change_time", toIso(p[8]))]) == DropNone(PlainEntries(p, toIso))
  {
    var entries := [("symlink", None), ("block_count", Some(p[2])), ("permissions", Some(p[3])), ("uid", Some(p[4])),
                    ("gid", Some(p[5])), ("metadata_change_time", toIso(p[8]))];
    assert entries == [("symlink", None)] + PlainEntries(p, toIso);
    assert entries[1..] == PlainEntries(p, toIso);
  }

  /**
   * What one line becomes (body.py:49-101): trimmed and cut at `|`, it is the plain event of
   * its fields when a plain grammar accepts them, and unmatched otherwise.
   */
  lemma ParseLinePlain(line: string, host: string)
    ensures var p := Split(Strip(line), "|");
            ParseLine(line, host) == if Accepts(PlainWithBirth, p) || Accepts(Plain, p) then PlainEvent(p, host, ToIso) else Unmatched
  {
    var p := Split(Strip(line), "|");
    CascadeChoice(Strip(line));
    if Accepts(PlainWithBirth, p) {
      CapturesOfPlainWithBirth(p);
      BuildWithBirth(p, host, ToIso);
    } else if Accepts(Plain, p) {
      CapturesOfPlain(p);
      BuildWithoutBirth(p, host, ToIso);
    }
  }

  /** The filtered `additional` of a plain match: the four raw fields, then the change time when it renders. */
  lemma PlainEntriesFiltered(p: seq<string>, toIso: string -> Option<string>)
    requires |p| >= 10
    ensures DropNone(PlainEntries(p, toIso)) ==
              [("block_count", p[2]), ("permissions", p[3]), ("uid", p[4]), ("gid", p[5])]
                + (match toIso(p[8]) case Some(c) => [("metadata_change_time", c)] case None => [])
  {
    var e := PlainEntries(p, toIso);
    assert e[4..][1..] == [];
    assert e[3..][1..] == e[4..];
    assert e[2..][1..] == e[3..];
    assert e[1..][1..] == e[2..];
    assert DropNone(e[3..]) == [("gid", p[5])] + DropNone(e[4..]);
    assert DropNone(e[2..]) == [("uid", p[4])] + DropNone(e[3..]);
    assert DropNone(e[1..]) == [("permissions", p[3])] + DropNone(e[2..]);
  }

  // ---------------------------------------------------------------- properties of a line

  /**
   * A parsed line keeps its second field whole as `full_path` (the symlink branch of
   * body.py:53-55 is never taken), has no `symlink` entry, and lacks a creation time exactly
   * when it has ten fields or its eleventh does not render (body.py:53-61, 77, 88, 97).
   */
  lemma ParsedLineShape(line: string, host: string)
    requires ParseLine(line, host).Parsed?
    ensures var p := Split(Strip(line), "|");
            var e := ParseLine(line, host).event;
            && (|p| == 10 || |p| == 11)
            && e.principal.file.fullPath == Some(p[1])
            && e.principal.process == ProcessInfo("stat", p[0])
            && (forall kv :: kv in e.additional ==> kv.0 != "symlink")
            && (e.principal.file.createTime.None? <==> |p| == 10 || ToIso(p[10]).None?)
            && |e.additional| >= 4
            && e.additional[..4] == [("block_count", p[2]), ("permissions", p[3]), ("uid", p[4]), ("gid", p[5])]
  {
    var p := Split(Strip(line), "|");
    ParseLinePlain(line, host);
    PlainEventShape(p, host, ToIso);
  }

  lemma PlainEventShape(p: seq<string>, host: string, toIso: string -> Option<string>)
    requires (|p| == 10 || |p| == 11) && PlainEvent(p, host, toIso).Parsed?
    ensures var e := PlainEvent(p, host, toIso).event;
            && e.principal.file.fullPath == Some(p[1])
            && e.principal.process == ProcessInfo("stat", p[0])
            && (forall kv :: kv in e.additional ==> kv.0 != "symlink")
            && (e.principal.file.createTime.None? <==> |p| == 10 || toIso(p[10]).None?)
            && |e.additional| >= 4
            && e.additional[..4] == [("block_count", p[2]), ("permissions", p[3]), ("uid", p[4]), ("gid", p[5])]
  {
    PlainEntriesFiltered(p, toIso);
  }

  /**
   * A line raises exactly when a plain grammar accepts it and its `size` field is a number
   * with a fraction, which `int()` refuses (body.py:74).
   */
  lemma LineRaisesOnFraction(line: string, host: string)
    ensures var p := Split(Strip(line), "|");
            ParseLine(line, host).Raised? <==> (Accepts(PlainWithBirth, p) || Accepts(Plain, p)) && '.' in p[6]
  {
    var p := Split(Strip(line), "|");
    ParseLinePlain(line, host);
    if Accepts(PlainWithBirth, p) || Accepts(Plain, p) {
      assert IsGrokNumber(p[6]) by {
        if Accepts(PlainWithBirth, p) {
          assert PlainWithBirth[6] == Number("size") && FieldAccepts(PlainWithBirth[6], p[6]);
        } else {
          assert Plain[6] == Number("size") && FieldAccepts(Plain[6], p[6]);
        }
      }
      PlainEventRaises(p, host, ToIso);
      GrokNumberInt(p[6]);
    }
  }

  /** A plain match raises exactly when its `size` field does not convert with `int()`. */
  lemma PlainEventRaises(p: seq<string>, host: string, toIso: string -> Option<string>)
    requires |p| == 10 || |p| == 11
    ensures PlainEvent(p, host, toIso).Raised? <==> PyInt(p[6]).None?
  {
  }

  /** A blank line, once trimmed, fits no grammar and counts as a failure. */
  lemma BlankLineUnmatched(line: string, host: string)
    requires Strip(line) == ""
    ensures ParseLine(line, host) == Unmatched
  {
    ParseLinePlain(line, host);
    assert Split("", "|") == [""];
  }

  /**
   * One raising line anywhere in the file aborts the whole host: the scan yields nothing, so
   * `Process` writes no output, appends nothing to the manifest and queues no record (body.py:140-141).
   */
  lemma RaisingLineAbortsHost(content: string, host: string, i: nat)
    requires i < |Lines(Newlines(content))| && ParseLine(Lines(Newlines(content))[i], host).Raised?
    ensures StatTally(content, host).None?
  {
    ParseEachAborts(Lines(Newlines(content)), i, ParseLineOf(host));
  }

  // ---------------------------------------------------------------- a bodyfile record, written and read

  /** One bodyfile record as a collector writes it; the two text fields hold no `|` and no newline. */
  datatype StatRecord = StatRecord(inode: nat, path: string, blocks: nat, permissions: string, uid: nat, gid: nat,
                                   size: nat, mtime: int, ctime: int, atime: int, btime: Option<int>)

  predicate Printable(r: StatRecord) {
    && '|' !in r.path && '\n' !in r.path && '|' !in r.permissions && '\n' !in r.permissions
  }

  /** The record's numbers by field position; the text fields at 1 and 3 hold a placeholder. */
  function RecordNumbers(r: StatRecord): seq<int> {
    [r.inode, 0, r.blocks, 0, r.uid, r.gid, r.size, r.mtime, r.ctime, r.atime]
      + (if r.btime.Some? then [r.btime.value] else [])
  }

  /** The record's fields in bodyfile order, each number in decimal. */
  function RecordFields(r: StatRecord): seq<string> {
    var ns := RecordNumbers(r);
    seq(|ns|, k requires 0 <= k < |ns| => if k == 1 then r.path else if k == 3 then r.permissions else IntToString(ns[k]))
  }

  /** The record as a line of `bodyfile.txt`: its fields joined with `|`. */
  function RecordLine(r: StatRecord): string {
    Join(RecordFields(r), "|")
  }

  /**
   * The event the record denotes: its own values, with each epoch second rendered by `render`
   * (`EpochIso` for the parser as written).
   */
  function RecordEvent(r: StatRecord, host: string, render: int -> Option<string>): StatEvent {
    var file := FileInfo(Some(r.path), r.size, render(r.mtime), render(r.atime),
                         if r.btime.Some? then render(r.btime.value) else None);
    var additional := [("block_count", IntToString(r.blocks)), ("permissions", r.permissions),
                       ("uid", IntToString(r.uid)), ("gid", IntToString(r.gid))]
                      + (match render(r.ctime) case Some(c) => [("metadata_change_time", c)] case None => []);
    StatEvent(Principal(ProcessInfo("stat", IntToString(r.inode)), host, file), FileRead, Namespace, additional)
  }

  /** Pieces that are decimal renderings where the grammar has numbers, and bare text elsewhere, fit it. */
  lemma NumeralsAccepted(g: Grammar, f: seq<string>, ts: seq<int>)
    requires |g| == |f| == |ts|
    requires forall k :: 0 <= k < |g| ==> !g[k].Link?
    requires forall k :: 0 <= k < |g| && g[k].Number? ==> f[k] == IntToString(ts[k])
    requires forall k :: 0 <= k < |g| && g[k].Data? ==> '\n' !in f[k] && '|' !in f[k]
    ensures Accepts(g, f) && forall k :: 0 <= k < |f| ==> '|' !in f[k]
  {
    forall k | 0 <= k < |g| ensures FieldAccepts(g[k], f[k]) && '|' !in f[k] {
      if g[k].Number? {
        IntStringIsGrokNumber(ts[k]);
        IntStringChars(ts[k]);
      }
    }
  }

  /** Every field of a printable record fits its place in the plain grammar of its arity. */
  lemma RecordAccepted(r: StatRecord)
    requires Printable(r)
    ensures var f := RecordFields(r);
            Split(RecordLine(r), "|") == f
            && (if r.btime.Some? then Accepts(PlainWithBirth, f) else Accepts(Plain, f))
  {
    var f := RecordFields(r);
    NumeralsAccepted(if r.btime.Some? then PlainWithBirth else Plain, f, RecordNumbers(r));
    SplitOfJoin(f, "|");
  }

  /** Built from a record's fields, the event carries the record's values. */
  lemma RecordEventOf(r: StatRecord, host: string, toIso: string -> Option<string>, render: int -> Option<string>)
    requires forall t :: toIso(IntToString(t)) == render(t)
    ensures var f := RecordFields(r);
            (|f| == 10 || |f| == 11) && PlainEventOf(f, host, r.size, toIso) == RecordEvent(r, host, render)
  {
    PlainEntriesFiltered(RecordFields(r), toIso);
  }

  /** The plain event of a record's fields is the record's event. */
  lemma RecordPlainEvent(r: StatRecord, host: string)
    ensures var f := RecordFields(r);
            (|f| == 10 || |f| == 11) && PlainEvent(f, host, ToIso) == Parsed(RecordEvent(r, host, EpochIso))
  {
    var f := RecordFields(r);
    assert f[6] == IntToString(r.size);
    PyIntOfString(r.size);
    assert PlainEvent(f, host, ToIso) == Parsed(PlainEventOf(f, host, r.size, ToIso));
    forall t: int ensures ToIso(IntToString(t)) == EpochIso(t) {
      ToIsoOfDecimal(t);
    }
    RecordEventOf(r, host, ToIso, EpochIso);
  }

  /** A record's line starts and ends with a numeral, so trimming leaves it whole. */
  lemma RecordLineTrimmed(r: StatRecord)
    ensures Strip(RecordLine(r)) == RecordLine(r)
  {
    var f := RecordFields(r);
    var last := if r.btime.Some? then r.btime.value else r.atime;
    assert f[0] == IntToString(r.inode);
    assert f[|f| - 1] == IntToString(last);
    IntStringChars(r.inode);
    IntStringChars(last);
    JoinTrimmed(f, "|");
  }

  /**
   * Writing a record as a bodyfile line and parsing it back gives the event of that record:
   * no field is lost, shifted or reinterpreted (body.py:46-97).
   */
  lemma RecordRoundTrip(r: StatRecord, host: string)
    requires Printable(r)
    ensures ParseLine(RecordLine(r), host) == Parsed(RecordEvent(r, host, EpochIso))
  {
    RecordLineTrimmed(r);
    RecordAccepted(r);
    ParseLinePlain(RecordLine(r), host);
    RecordPlainEvent(r, host);
  }
}
