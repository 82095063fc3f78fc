/**
 * Text primitives the parsers rely on, stated as Python's `str` methods behave:
 * `strip()`, `split(sep)`, `sep.join(parts)`, `in`, line iteration over a file,
 * `int(text)` and the grok `NUMBER` token.
 */
module Text {
  import opened Wrappers

  // ---------------------------------------------------------------- whitespace

  /** The characters for which Python's `str.isspace()` holds; `strip()` removes them and `\s` matches them. */
  predicate IsSpace(c: char) {
    || c == ' '
    || ('\t' <= c <= '\r')
    || ('\U{1C}' <= c <= '\U{1F}')
    || c == '\U{85}' || c == '\U{A0}' || c == '\U{1680}'
    || ('\U{2000}' <= c <= '\U{200A}')
    || c == '\U{2028}' || c == '\U{2029}' || c == '\U{202F}' || c == '\U{205F}' || c == '\U{3000}'
  }

  function StripLeft(s: string): (r: string)
    ensures |r| <= |s| && r == s[|s| - |r|..]
    ensures forall i :: 0 <= i < |s| - |r| ==> IsSpace(s[i])
    ensures r != [] ==> !IsSpace(r[0])
  {
    if s != [] && IsSpace(s[0]) then StripLeft(s[1..]) else s
  }

  function StripRight(s: string): (r: string)
    ensures |r| <= |s| && r == s[..|r|]
    ensures forall i :: |r| <= i < |s| ==> IsSpace(s[i])
    ensures r != [] ==> !IsSpace(r[|r| - 1])
  {
    if s != [] && IsSpace(s[|s| - 1]) then StripRight(s[..|s| - 1]) else s
  }

  /** Python's `str.strip()`: the text without its leading and trailing whitespace. */
  function Strip(s: string): (r: string)
    ensures r != [] ==> !IsSpace(r[0]) && !IsSpace(r[|r| - 1])
    ensures |r| <= |s|
  {
    var l := StripLeft(s);
    var r := StripRight(l);
    assert r != [] ==> r[0] == l[0];
    r
  }

  /**
   * What `strip()` removes: the result is a stretch of the text with only whitespace before and
   * after it, so nothing but leading and trailing whitespace is gone.
   */
  lemma StripMeaning(s: string)
    ensures exists a :: StrippedAt(s, Strip(s), a)
  {
    StripBetween(s, StripLeft(s), Strip(s));
  }

  /** `r` is the stretch of `s` from `a` on, with only whitespace before and after it. */
  predicate StrippedAt(s: string, r: string, a: int) {
    && 0 <= a && a + |r| <= |s| && r == s[a..a + |r|]
    && (forall i :: 0 <= i < a ==> IsSpace(s[i]))
    && (forall i :: a + |r| <= i < |s| ==> IsSpace(s[i]))
  }

  /** What is kept of what was kept is a stretch of `s` with only whitespace around it. */
  lemma StripBetween(s: string, l: string, r: string)
    requires |l| <= |s| && l == s[|s| - |l|..] && forall i :: 0 <= i < |s| - |l| ==> IsSpace(s[i])
    requires |r| <= |l| && r == l[..|r|] && forall i :: |r| <= i < |l| ==> IsSpace(l[i])
    requires l != [] ==> !IsSpace(l[0])
    requires r != [] ==> !IsSpace(r[|r| - 1])
    ensures r != [] ==> !IsSpace(r[0]) && !IsSpace(r[|r| - 1])
    ensures StrippedAt(s, r, |s| - |l|)
  {
    var a := |s| - |l|;
    assert r != [] ==> r[0] == l[0];
    forall i | a + |r| <= i < |s|
      ensures IsSpace(s[i])
    {
      assert s[i] == l[i - a];
    }
  }

  /** Text that starts and ends with a non-space character is left alone by `strip()`. */
  lemma StripKeeps(s: string)
    requires s != [] ==> !IsSpace(s[0]) && !IsSpace(s[|s| - 1])
    ensures Strip(s) == s
  {
  }

  lemma {:induction false} StripLeftOfSpaces(s: string)
    requires forall i :: 0 <= i < |s| ==> IsSpace(s[i])
    ensures StripLeft(s) == []
    decreases |s|
  {
    if s != [] { StripLeftOfSpaces(s[1..]); }
  }

  /** `strip()` gives the empty text exactly when every character is whitespace. */
  lemma StripEmpty(s: string)
    ensures Strip(s) == [] <==> forall i :: 0 <= i < |s| ==> IsSpace(s[i])
  {
    var l := StripLeft(s);
    if forall i :: 0 <= i < |s| ==> IsSpace(s[i]) {
      StripLeftOfSpaces(s);
    } else {
      var i :| 0 <= i < |s| && !IsSpace(s[i]);
      assert l != [];
    }
  }

  // ---------------------------------------------------------------- search and split

  /** `pat` occurs in `s` starting at index `i`. */
  predicate OccursAt(s: string, pat: string, i: int) {
    0 <= i && i + |pat| <= |s| && s[i..i + |pat|] == pat
  }

  /** The first index at or after `from` where `pat` occurs, as Python's `str.find` scans. */
  function FindFrom(s: string, pat: string, from: nat): (r: Option<nat>)
    decreases |s| - from
    ensures r.Some? ==> from <= r.value && OccursAt(s, pat, r.value)
    ensures r.Some? ==> forall j :: from <= j < r.value ==> !OccursAt(s, pat, j)
    ensures r.None? ==> forall j :: from <= j ==> !OccursAt(s, pat, j)
  {
    if from + |pat| > |s| then None
    else if s[from..from + |pat|] == pat then Some(from)
    else FindFrom(s, pat, from + 1)
  }

  function Find(s: string, pat: string): Option<nat> {
    FindFrom(s, pat, 0)
  }

  /** Python's `pat in s`. */
  predicate Contains(s: string, pat: string) {
    Find(s, pat).Some?
  }

  /** A one-character pattern occurs exactly where that character stands. */
  lemma FindChar(s: string, c: char)
    ensures Find(s, [c]).None? <==> c !in s
    ensures Find(s, [c]).Some? ==>
      (s[Find(s, [c]).value] == c && forall j :: 0 <= j < Find(s, [c]).value ==> s[j] != c)
  {
    forall j | 0 <= j < |s| ensures OccursAt(s, [c], j) <==> s[j] == c {
      assert s[j..j + 1] == [s[j]];
    }
  }

  /** Python's `s.split(sep)`: the pieces between non-overlapping occurrences of `sep`, left to right. */
  function Split(s: string, sep: string): (parts: seq<string>)
    requires sep != []
    ensures |parts| >= 1
    decreases |s|
  {
    match Find(s, sep)
    case None => [s]
    case Some(i) => [s[..i]] + Split(s[i + |sep|..], sep)
  }

  /** Python's `sep.join(parts)`. */
  function Join(parts: seq<string>, sep: string): string {
    if parts == [] then ""
    else if |parts| == 1 then parts[0]
    else parts[0] + sep + Join(parts[1..], sep)
  }

  /** Joining the pieces of a split with the same separator gives back the text. */
  lemma {:induction false} JoinOfSplit(s: string, sep: string)
    requires sep != []
    ensures Join(Split(s, sep), sep) == s
    decreases |s|
  {
    var parts := Split(s, sep);
    match Find(s, sep)
    case None =>
      assert parts == [s];
    case Some(i) =>
      var rest := s[i + |sep|..];
      var tail := Split(rest, sep);
      assert parts == [s[..i]] + tail;
      JoinOfSplit(rest, sep);
      assert parts[1..] == tail;
      assert Join(parts, sep) == s[..i] + sep + Join(tail, sep);
      assert s[i..i + |sep|] == sep;
      assert s == s[..i] + s[i..i + |sep|] + rest;
  }

  /** No piece of a split contains the separator. */
  lemma {:induction false} SplitPiecesFree(s: string, sep: string)
    requires sep != []
    ensures forall k :: 0 <= k < |Split(s, sep)| ==> !Contains(Split(s, sep)[k], sep)
    decreases |s|
  {
    match Find(s, sep)
    case None =>
    case Some(i) =>
      SplitPiecesFree(s[i + |sep|..], sep);
      var head := s[..i];
      if Contains(head, sep) {
        var j := Find(head, sep).value;
        assert head[j..j + |sep|] == s[j..j + |sep|];
        assert OccursAt(s, sep, j);
      }
  }

  /**
   * Splitting a join gives the parts back when the separator's last character occurs
   * nowhere else: not earlier in the separator, not in any part.
   */
  lemma {:induction false} SplitOfJoin(parts: seq<string>, sep: string)
    requires |parts| >= 1 && sep != []
    requires forall k :: 0 <= k < |sep| - 1 ==> sep[k] != sep[|sep| - 1]
    requires forall k :: 0 <= k < |parts| ==> sep[|sep| - 1] !in parts[k]
    ensures Split(Join(parts, sep), sep) == parts
    decreases |parts|
  {
    var s := Join(parts, sep);
    var p := parts[0];
    if |parts| == 1 {
      assert s == p;
      NoSeparator(p, sep);
    } else {
      var rest := Join(parts[1..], sep);
      assert s == p + sep + rest;
      FirstSeparator(p, sep, rest);
      assert s[..|p|] == p;
      assert s[|p| + |sep|..] == rest;
      assert Split(s, sep) == [p] + Split(rest, sep);
      forall k | 0 <= k < |parts| - 1 ensures sep[|sep| - 1] !in parts[1..][k] {
        assert parts[1..][k] == parts[k + 1];
      }
      SplitOfJoin(parts[1..], sep);
      assert parts == [p] + parts[1..];
    }
  }

  /** Text without the separator's last character holds no separator. */
  lemma NoSeparator(s: string, sep: string)
    requires sep != [] && sep[|sep| - 1] !in s
    ensures Find(s, sep).None?
  {
    forall j | 0 <= j && j + |sep| <= |s| ensures !OccursAt(s, sep, j) {
      assert s[j..j + |sep|][|sep| - 1] == s[j + |sep| - 1];
    }
  }

  /**
   * A separator placed after a part without its last character is the first one found, when
   * that character occurs only at the separator's end.
   */
  lemma FirstSeparator(p: string, sep: string, rest: string)
    requires sep != [] && sep[|sep| - 1] !in p
    requires forall k :: 0 <= k < |sep| - 1 ==> sep[k] != sep[|sep| - 1]
    ensures Find(p + sep + rest, sep) == Some(|p|)
  {
    var s := p + sep + rest;
    assert s[|p|..|p| + |sep|] == sep;
    forall j | 0 <= j < |p| ensures !OccursAt(s, sep, j) {
      var e := j + |sep| - 1;
      assert s[e] != sep[|sep| - 1] by {
        if e < |p| { assert s[e] == p[e]; } else { assert s[e] == sep[e - |p|]; }
      }
      assert s[j..j + |sep|][|sep| - 1] == s[e];
    }
    assert OccursAt(s, sep, |p|);
  }

  /** Text-mode reading's universal newlines: `\r\n` and a lone `\r` both become `\n`. */
  function Newlines(s: string): (r: string)
    ensures '\r' !in r
  {
    if s == [] then []
    else if s[0] == '\r' then "\n" + Newlines(if |s| > 1 && s[1] == '\n' then s[2..] else s[1..])
    else [s[0]] + Newlines(s[1..])
  }

  /** Text without carriage returns reads unchanged. */
  lemma {:induction false} NewlinesKeeps(s: string)
    requires '\r' !in s
    ensures Newlines(s) == s
  {
    if s != [] {
      NewlinesKeeps(s[1..]);
    }
  }

  /** The lines of a text, each without its `\n`, as `for line in f` splits them after translation. */
  function Lines(content: string): (ls: seq<string>)
  {
    var parts := Split(content, "\n");
    if parts[|parts| - 1] == "" then parts[..|parts| - 1] else parts
  }

  /** No line holds a newline, and an empty file has no lines. */
  lemma LinesFree(content: string)
    ensures forall k :: 0 <= k < |Lines(content)| ==> '\n' !in Lines(content)[k]
    ensures content == "" ==> Lines(content) == []
  {
    SplitPiecesFree(content, "\n");
    var parts := Split(content, "\n");
    forall k | 0 <= k < |parts| ensures '\n' !in parts[k] {
      FindChar(parts[k], '\n');
    }
    if content == "" {
      assert Find(content, "\n").None?;
    }
  }

  /** Splitting a line followed by the rest of a text. */
  lemma SplitCons(p: string, b: string)
    requires '\n' !in p
    ensures Split(p + "\n" + b, "\n") == [p] + Split(b, "\n")
  {
    var s := p + "\n" + b;
    FindChar(s, '\n');
    assert s[|p|] == '\n';
    assert forall j :: 0 <= j < |p| ==> s[j] == p[j];
    assert s[..|p|] == p;
    assert s[|p| + 1..] == b;
  }

  /** The lines of a line followed by the rest of a text. */
  lemma LinesCons(p: string, b: string)
    requires '\n' !in p
    ensures Lines(p + "\n" + b) == [p] + Lines(b)
  {
    SplitCons(p, b);
    var t := Split(b, "\n");
    assert ([p] + t)[|t|] == t[|t| - 1];
    if t[|t| - 1] == "" {
      assert ([p] + t)[..|t|] == [p] + t[..|t| - 1];
    }
  }

  /** Appending one newline-terminated line to a text that ends a line adds exactly that line. */
  lemma {:induction false} LinesAppendLine(a: string, x: string)
    requires '\n' !in x
    requires a == "" || a[|a| - 1] == '\n'
    ensures Lines(a + x + "\n") == Lines(a) + [x]
    decreases |a|
  {
    if a == "" {
      LinesFree("");
      LinesCons(x, "");
      assert a + x + "\n" == x + "\n" + "";
    } else {
      var p, a2 := FirstLineSplit(a);
      var b := a2 + x + "\n";
      Regroup(a, x, p, a2);
      LinesCons(p, b);
      assert Lines(a + x + "\n") == [p] + Lines(b);
      LinesAppendLine(a2, x);
      LinesCons(p, a2);
      assert Lines(a) == [p] + Lines(a2);
    }
  }

  lemma Regroup(a: string, x: string, p: string, a2: string)
    requires a == p + "\n" + a2
    ensures a + x + "\n" == p + "\n" + (a2 + x + "\n")
  {
  }

  /** A nonempty text that ends a line splits into its first line and the rest, which ends a line too. */
  lemma FirstLineSplit(a: string) returns (p: string, rest: string)
    requires a != "" && a[|a| - 1] == '\n'
    ensures a == p + "\n" + rest && '\n' !in p
    ensures rest == "" || rest[|rest| - 1] == '\n'
    ensures |rest| < |a|
  {
    FindChar(a, '\n');
    assert '\n' in a by { assert a[|a| - 1] == '\n'; }
    var i := Find(a, "\n").value;
    p, rest := a[..i], a[i + 1..];
    assert a == p + "\n" + rest;
    if rest != "" {
      assert rest[|rest| - 1] == a[|a| - 1];
    }
  }

  /** The first line of a file without its newline, which is what `f.readline().strip()` strips. */
  function FirstLine(content: string): string {
    Split(content, "\n")[0]
  }

  // ---------------------------------------------------------------- decimal digits

  predicate IsDigit(c: char) {
    '0' <= c <= '9'
  }

  predicate AllDigits(s: string) {
    forall i :: 0 <= i < |s| ==> IsDigit(s[i])
  }

  /** The number a run of decimal digits denotes. */
  function DigitsValue(s: string): nat
    requires AllDigits(s)
    decreases |s|
  {
    if s == [] then 0 else DigitsValue(s[..|s| - 1]) * 10 + (s[|s| - 1] as int - '0' as int)
  }

  function Digit(d: nat): (c: char)
    requires d < 10
    ensures IsDigit(c) && c as int - '0' as int == d
  {
    ('0' as int + d) as char
  }

  /** Python's `str(n)` for a natural number: its shortest decimal form. */
  function NatToString(n: nat): (r: string)
    ensures |r| >= 1 && AllDigits(r) && DigitsValue(r) == n
    ensures r[0] == '0' ==> r == "0"
  {
    if n < 10 then [Digit(n)]
    else
      var p := NatToString(n / 10);
      var r := p + [Digit(n % 10)];
      assert r[..|r| - 1] == p;
      r
  }

  /** Python's `str(i)` for an integer. */
  function IntToString(i: int): string {
    if i < 0 then "-" + NatToString(-i) else NatToString(i)
  }

  function Pow10(k: nat): nat {
    if k == 0 then 1 else 10 * Pow10(k - 1)
  }

  /** The last `width` decimal digits of `n`, zero-padded: what the `%0Nd` directives print. */
  function Pad(n: nat, width: nat): (r: string)
    ensures |r| == width && AllDigits(r)
    ensures n < Pow10(width) ==> DigitsValue(r) == n
  {
    if width == 0 then ""
    else
      var p := Pad(n / 10, width - 1);
      var r := p + [Digit(n % 10)];
      assert r[..|r| - 1] == p;
      r
  }

  // ---------------------------------------------------------------- Python int() and grok NUMBER

  /** Decimal digits with single underscores between them, as `int()` accepts. */
  predicate DigitsOrUnderscores(s: string) {
    forall i :: 0 <= i < |s| ==> IsDigit(s[i]) || s[i] == '_'
  }

  predicate IsDecimal(s: string) {
    && s != []
    && DigitsOrUnderscores(s)
    && forall i :: 0 <= i < |s| && s[i] == '_' ==> 0 < i < |s| - 1 && IsDigit(s[i - 1]) && IsDigit(s[i + 1])
  }

  function DropUnderscores(s: string): (r: string)
    requires DigitsOrUnderscores(s)
    ensures AllDigits(r)
    ensures AllDigits(s) ==> r == s
  {
    if s == [] then ""
    else if s[0] == '_' then DropUnderscores(s[1..])
    else [s[0]] + DropUnderscores(s[1..])
  }

  function UnsignedValue(s: string): Option<nat> {
    if IsDecimal(s) then Some(DigitsValue(DropUnderscores(s))) else None
  }

  /**
   * Python's `int(text)` on ASCII text: surrounding whitespace is ignored, then an optional
   * sign and decimal digits (single underscores allowed between digits); anything else raises.
   */
  function PyInt(text: string): Option<int> {
    var t := Strip(text);
    if t != [] && (t[0] == '+' || t[0] == '-') then
      match UnsignedValue(t[1..])
      case None => None
      case Some(v) => var n: int := v; Some(if t[0] == '-' then -n else n)
    else
      match UnsignedValue(t)
      case None => None
      case Some(v) => Some(v)
  }

  /** Plain decimal digits are a decimal literal whose value they spell. */
  lemma UnsignedOfDigits(d: string)
    requires d != [] && AllDigits(d)
    ensures UnsignedValue(d) == Some(DigitsValue(d))
  {
    assert IsDecimal(d);
  }

  /** `int()` of plain decimal digits is their value. */
  lemma PyIntDigits(s: string)
    requires s != [] && AllDigits(s)
    ensures PyInt(s) == Some(DigitsValue(s))
  {
    assert !IsSpace(s[0]) && !IsSpace(s[|s| - 1]);
    StripKeeps(s);
    assert s[0] != '+' && s[0] != '-';
    UnsignedOfDigits(s);
  }

  /** `int(str(i)) == i`. */
  lemma PyIntOfString(i: int)
    ensures PyInt(IntToString(i)) == Some(i)
  {
    var s := IntToString(i);
    if i < 0 {
      var d := NatToString(-i);
      assert s == "-" + d;
      assert s[1..] == d && s[|s| - 1] == d[|d| - 1];
      assert !IsSpace(s[0]) && !IsSpace(s[|s| - 1]);
      StripKeeps(s);
      UnsignedOfDigits(d);
    } else {
      PyIntDigits(s);
    }
  }

  /** The text after an optional leading sign. */
  function Unsigned(s: string): string {
    if s != [] && (s[0] == '+' || s[0] == '-') then s[1..] else s
  }

  /**
   * The grok `NUMBER` token (`BASE10NUM`): an optional sign, then digits with an optional
   * fraction, or a bare fraction: `[+-]?([0-9]+(\.[0-9]+)?|\.[0-9]+)`.
   */
  predicate IsGrokNumber(s: string) {
    var b := Unsigned(s);
    match Find(b, ".")
    case None => b != [] && AllDigits(b)
    case Some(i) => AllDigits(b[..i]) && i + 1 < |b| && AllDigits(b[i + 1..])
  }

  /** A grok NUMBER converts with `int()` exactly when it has no fractional part. */
  lemma GrokNumberInt(s: string)
    requires IsGrokNumber(s)
    ensures PyInt(s).Some? <==> '.' !in s
  {
    var b := Unsigned(s);
    FindChar(b, '.');
    assert s != [] && !IsSpace(s[0]) && !IsSpace(s[|s| - 1]) by {
      assert s[|s| - 1] == b[|b| - 1];
    }
    StripKeeps(s);
    PyIntUnsigned(s);
    UnsignedChars(s, '.');
    if '.' in b {
      var i :| 0 <= i < |b| && b[i] == '.';
      assert !IsDecimal(b) by { assert !(IsDigit(b[i]) || b[i] == '_'); }
    } else {
      UnsignedOfDigits(b);
    }
  }

  /** A character other than a sign occurs in the text exactly when it occurs after the sign. */
  lemma UnsignedChars(s: string, c: char)
    requires c != '+' && c != '-'
    ensures c in s <==> c in Unsigned(s)
  {
    if s != [] && (s[0] == '+' || s[0] == '-') {
      assert s == [s[0]] + s[1..];
    }
  }

  /** `int("1.5")` raises: a decimal point is not part of an integer literal. */
  lemma PyIntRejectsFraction()
    ensures PyInt("1.5") == None
  {
    var ts := "1.5";
    assert |ts| == 3 && ts[0] == '1' && ts[1] == '.' && ts[2] == '5';
    StripKeeps(ts);
    PyIntUnsigned(ts);
    assert Unsigned(ts) == ts;
    assert !IsDecimal(ts) by { assert !(IsDigit(ts[1]) || ts[1] == '_'); }
  }

  /** Text that `strip()` leaves alone converts exactly when it is a decimal after its sign. */
  lemma PyIntUnsigned(s: string)
    requires Strip(s) == s
    ensures PyInt(s).Some? <==> UnsignedValue(Unsigned(s)).Some?
  {
  }

  /** `str(i)` is a grok NUMBER without a fraction. */
  lemma IntStringIsGrokNumber(i: int)
    ensures IsGrokNumber(IntToString(i)) && '.' !in IntToString(i)
  {
    var s := IntToString(i);
    var b := Unsigned(s);
    assert AllDigits(b);
    FindChar(b, '.');
    FindChar(s, '.');
  }

  /** `str(i)`: a leading minus at most, otherwise digits, and a digit at each end or a minus first. */
  lemma IntStringChars(i: int)
    ensures var s := IntToString(i);
            && s != [] && IsDigit(s[|s| - 1]) && !IsSpace(s[0]) && !IsSpace(s[|s| - 1])
            && forall k :: 0 <= k < |s| ==> IsDigit(s[k]) || (k == 0 && s[k] == '-')
  {
    if i < 0 {
      var d := NatToString(-i);
      assert IntToString(i) == "-" + d;
      assert forall k :: 1 <= k < |d| + 1 ==> ("-" + d)[k] == d[k - 1];
    }
  }

  /** A join begins with the first part and ends with the last. */
  lemma {:induction false} JoinEnds(parts: seq<string>, sep: string)
    requires |parts| >= 1
    ensures var j := Join(parts, sep);
            && (parts[0] != [] ==> j != [] && j[0] == parts[0][0])
            && (parts[|parts| - 1] != [] ==> j != [] && j[|j| - 1] == parts[|parts| - 1][|parts[|parts| - 1]| - 1])
    decreases |parts|
  {
    if |parts| > 1 {
      assert parts[1..][|parts[1..]| - 1] == parts[|parts| - 1];
      JoinEnds(parts[1..], sep);
    }
  }

  /** A join that starts and ends outside whitespace is left whole by `strip()`. */
  lemma JoinTrimmed(parts: seq<string>, sep: string)
    requires |parts| >= 1 && parts[0] != [] && parts[|parts| - 1] != []
    requires !IsSpace(parts[0][0]) && !IsSpace(parts[|parts| - 1][|parts[|parts| - 1]| - 1])
    ensures Strip(Join(parts, sep)) == Join(parts, sep)
  {
    JoinEnds(parts, sep);
    StripKeeps(Join(parts, sep));
  }
}
