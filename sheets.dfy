/** Reading a published Google sheet: cleaning the downloaded text, splitting
    it into tab- or comma-separated rows keyed by the header line, trying the
    three export formats in turn, and turning the rows into catalogue items.
    The importer module and the older iPhone loader carry identical copies of
    the parsing functions; they are modelled once here. */
module Sheets {
  import opened Wrappers
  import Text
  import Seqs

  // ---------------------------------------------------------------------------
  // cleaning and lines
  // ---------------------------------------------------------------------------

  /** The byte-order mark that may open a download. */
  const Bom: char := '﻿'

  /** The anti-hijacking guard some Google endpoints put before the data. */
  const Guard: string := ")]}'"

  /** One leading byte-order mark removed. */
  function DropBom(s: string): (r: string)
    ensures s != [] && s[0] == Bom ==> r == s[1..]
    ensures s == [] || s[0] != Bom ==> r == s
  {
    if s != [] && s[0] == Bom then s[1..] else s
  }

  /** A leading guard removed together with the white space after it (the
      pattern's `\s*` already takes every line break, so its optional `\n`
      never adds anything). */
  function DropGuard(s: string): (r: string)
    ensures |s| >= 4 && s[..4] == Guard ==> r == Text.TrimStart(s[4..])
    ensures !(|s| >= 4 && s[..4] == Guard) ==> r == s
  {
    if |s| >= 4 && s[..4] == Guard then Text.TrimStart(s[4..]) else s
  }

  /** `cleanText`. */
  function CleanText(s: string): (r: string)
    ensures r == Text.Trim(DropGuard(DropBom(s)))
    ensures r != [] ==> !Text.IsSpace(r[0]) && !Text.IsSpace(r[|r| - 1])
  {
    Text.Trim(DropGuard(DropBom(s)))
  }

  /** Dropping the leading white space first does not change the trim. */
  lemma TrimOfTrimStart(s: string)
    ensures Text.Trim(Text.TrimStart(s)) == Text.Trim(s)
  {
    var l := s[..Text.LeadingSpaces(s)];
    var m := Text.TrimStart(s);
    assert s == l + m + "";
    Text.TrimOfPadded(l, m, "");
  }

  /** A download wrapped in a byte-order mark and the guard cleans to the
      trimmed data, and so does one with the guard alone. */
  lemma CleanTextStripsWrapping(body: string)
    ensures CleanText([Bom] + Guard + body) == Text.Trim(body)
    ensures CleanText(Guard + body) == Text.Trim(body)
  {
    CleanGuarded(body);
    assert [Bom] + Guard + body == [Bom] + (Guard + body);
    CleanAfterBom(Guard + body);
  }

  /** The guard and the white space after it are dropped before trimming. */
  lemma CleanGuarded(body: string)
    ensures CleanText(Guard + body) == Text.Trim(body)
  {
    var g := Guard + body;
    assert DropBom(g) == g by {
      assert g[0] == ')';
    }
    assert DropGuard(g) == Text.TrimStart(body) by {
      assert g[..4] == Guard && g[4..] == body;
    }
    TrimOfTrimStart(body);
  }

  /** One byte-order mark in front of text without one is dropped. */
  lemma CleanAfterBom(s: string)
    requires s == [] || s[0] != Bom
    ensures CleanText([Bom] + s) == CleanText(s)
  {
    assert DropBom([Bom] + s) == s by {
      assert ([Bom] + s)[1..] == s;
    }
  }

  /** A line without the carriage return that ends it, if any. */
  function DropCr(p: string): (r: string)
    ensures p != [] && p[|p| - 1] == '\r' ==> r == p[..|p| - 1]
    ensures p == [] || p[|p| - 1] != '\r' ==> r == p
  {
    if p != [] && p[|p| - 1] == '\r' then p[..|p| - 1] else p
  }

  /** `split(/\r?\n/)`: the text cut at every line feed, where a carriage
      return directly before a line feed belongs to the break. The last piece
      is followed by no line feed, so it keeps a final carriage return. */
  function SplitLines(s: string): (lines: seq<string>)
    ensures |lines| == |Text.Split(s, '\n')|
  {
    DropCrs(Text.Split(s, '\n'))
  }

  /** Every piece but the last without its final carriage return. */
  function DropCrs(parts: seq<string>): (lines: seq<string>)
    ensures |lines| == |parts|
  {
    if |parts| <= 1 then parts else [DropCr(parts[0])] + DropCrs(parts[1..])
  }

  /** A CRLF break and a LF break cut the text at the same place. */
  lemma SplitLinesCrLf(a: string, b: string)
    requires '\n' !in a
    ensures SplitLines(a + "\r\n" + b) == [a] + SplitLines(b)
  {
    assert '\n' !in a + "\r";
    assert a + "\r\n" + b == (a + "\r") + ['\n'] + b;
    Text.SplitHead(a + "\r", b, '\n');
    var parts := Text.Split(a + "\r\n" + b, '\n');
    assert parts == [a + "\r"] + Text.Split(b, '\n');
    assert DropCr(a + "\r") == a by {
      assert (a + "\r")[..|a|] == a;
    }
    assert SplitLines(a + "\r\n" + b)[0] == a;
    var l, r := SplitLines(a + "\r\n" + b), SplitLines(b);
    assert forall i :: 1 <= i < |l| ==> l[i] == r[i - 1];
  }

  lemma SplitLinesLf(a: string, b: string)
    requires '\n' !in a
    requires a == [] || a[|a| - 1] != '\r'
    ensures SplitLines(a + "\n" + b) == [a] + SplitLines(b)
  {
    assert a + "\n" + b == a + ['\n'] + b;
    Text.SplitHead(a, b, '\n');
    var parts := Text.Split(a + "\n" + b, '\n');
    assert parts == [a] + Text.Split(b, '\n');
    assert DropCr(a) == a;
    var l, r := SplitLines(a + "\n" + b), SplitLines(b);
    assert l[0] == a;
    assert forall i :: 1 <= i < |l| ==> l[i] == r[i - 1];
  }

  /** `lines.filter(Boolean)`: the empty lines dropped. */
  function NonEmptyLines(lines: seq<string>): (r: seq<string>)
    ensures forall l :: l in r <==> l in lines && l != ""
  {
    Seqs.FilterMember(lines, (l: string) => l != "", "");
    forall l ensures l in Seqs.Filter(lines, (l: string) => l != "") <==> l in lines && l != "" {
      Seqs.FilterMember(lines, (l: string) => l != "", l);
    }
    Seqs.Filter(lines, (l: string) => l != "")
  }

  // ---------------------------------------------------------------------------
  // rows
  // ---------------------------------------------------------------------------

  /** A parsed row: its keys in the order they were first assigned and the
      value stored under each. This is the order `Object.keys` reports for
      string keys; JavaScript lists integer-like keys such as `"2024"` first,
      in ascending order, which this order does not follow. */
  datatype Row = Row(keys: seq<string>, cells: map<string, string>)

  /** The keys are listed once each, and exactly the keys that hold a value. */
  ghost predicate WellFormed(r: Row) {
    && (forall i, j :: 0 <= i < j < |r.keys| ==> r.keys[i] != r.keys[j])
    && (forall k :: k in r.cells <==> k in r.keys)
  }

  /** `row[key] = value` on a plain object: a new key is listed last, an
      existing one keeps its place. */
  function Assign(r: Row, key: string, value: string): Row {
    Row(if key in r.cells then r.keys else r.keys + [key], r.cells[key := value])
  }

  /** Assigning keeps a row well formed. */
  lemma AssignWellFormed(r: Row, key: string, value: string)
    requires WellFormed(r)
    ensures WellFormed(Assign(r, key, value))
  {
  }

  /** The same, for a row already known to be the assignment's result. */
  lemma AssignedWellFormed(r: Row, next: Row, key: string, value: string)
    requires WellFormed(r) && next == Assign(r, key, value)
    ensures WellFormed(next)
  {
    AssignWellFormed(r, key, value);
  }

  /** `(cols[idx] ?? '').trim()`: the trimmed column, or empty past the end of
      a short line. */
  function CellAt(cols: seq<string>, idx: nat): string {
    if idx < |cols| then Text.Trim(cols[idx]) else ""
  }

  /** The row after the first `n` steps of `header.forEach`, step `k`
      assigning `values[k]`. */
  function AssignCells(header: seq<string>, values: seq<string>, n: nat): Row
    requires n <= |header| && n <= |values|
  {
    if n == 0 then Row([], map[])
    else Assign(AssignCells(header, values, n - 1), header[n - 1], values[n - 1])
  }

  /** The row is well formed and holds exactly the first `n` header names. */
  lemma AssignCellsKeys(header: seq<string>, values: seq<string>, n: nat)
    requires n <= |header| && n <= |values|
    ensures WellFormed(AssignCells(header, values, n))
    ensures forall k :: k in AssignCells(header, values, n).cells <==> k in header[..n]
  {
    AssignCellsWellFormed(header, values, n);
    AssignCellsDomain(header, values, n);
  }

  /** One more header step keeps the row well formed. */
  lemma AssignCellsStep(header: seq<string>, values: seq<string>, n: nat)
    requires 0 < n <= |header| && n <= |values| && WellFormed(AssignCells(header, values, n - 1))
    ensures WellFormed(AssignCells(header, values, n))
  {
    AssignedWellFormed(AssignCells(header, values, n - 1), AssignCells(header, values, n), header[n - 1], values[n - 1]);
  }

  lemma {:induction false} AssignCellsWellFormed(header: seq<string>, values: seq<string>, n: nat)
    requires n <= |header| && n <= |values|
    ensures WellFormed(AssignCells(header, values, n))
  {
    if n > 0 {
      AssignCellsWellFormed(header, values, n - 1);
      AssignCellsStep(header, values, n);
    } else {
      assert AssignCells(header, values, n) == Row([], map[]);
    }
  }

  lemma {:induction false} AssignCellsDomain(header: seq<string>, values: seq<string>, n: nat)
    requires n <= |header| && n <= |values|
    ensures forall k :: k in AssignCells(header, values, n).cells <==> k in header[..n]
  {
    if n > 0 {
      AssignCellsDomain(header, values, n - 1);
      assert header[..n] == header[..n - 1] + [header[n - 1]];
    }
  }

  /** The value each header step assigns, in header order. */
  function Cells(cols: seq<string>, n: nat): (vs: seq<string>)
    ensures |vs| == n
  {
    if n == 0 then [] else Cells(cols, n - 1) + [CellAt(cols, n - 1)]
  }

  /** Step `i` assigns the trimmed column `i`. */
  lemma {:induction false} CellsAt(cols: seq<string>, n: nat, i: nat)
    requires i < n
    ensures Cells(cols, n)[i] == CellAt(cols, i)
  {
    if i < n - 1 {
      CellsAt(cols, n - 1, i);
    }
  }

  /** The row a line gives under a header. */
  function RowOf(header: seq<string>, cols: seq<string>): Row {
    AssignCells(header, Cells(cols, |header|), |header|)
  }

  /** Under a repeated header the last column of that name wins; in
      particular, with distinct headers every column lands under its own
      header. */
  lemma {:induction false} CellOfLastColumn(header: seq<string>, values: seq<string>, n: nat, i: nat)
    requires i < n <= |header| && n <= |values|
    requires forall j :: i < j < n ==> header[j] != header[i]
    ensures header[i] in AssignCells(header, values, n).cells
    ensures AssignCells(header, values, n).cells[header[i]] == values[i]
  {
    var key, prev := header[n - 1], AssignCells(header, values, n - 1);
    var next := AssignCells(header, values, n);
    assert next == Assign(prev, key, values[n - 1]);
    if i < n - 1 {
      CellOfLastColumn(header, values, n - 1, i);
      AssignKeepsOther(prev, next, key, values[n - 1], header[i]);
    } else {
      AssignSetsKey(prev, next, key, values[n - 1]);
    }
  }

  /** In the row a line gives, a header name not repeated later holds its
      column trimmed, or the empty string past the end of a short line. */
  lemma RowCellOfLastColumn(header: seq<string>, cols: seq<string>, i: nat)
    requires i < |header|
    requires forall j :: i < j < |header| ==> header[j] != header[i]
    ensures header[i] in RowOf(header, cols).cells
    ensures RowOf(header, cols).cells[header[i]] == (if i < |cols| then Text.Trim(cols[i]) else "")
  {
    var values := Cells(cols, |header|);
    CellOfLastColumn(header, values, |header|, i);
    CellsAt(cols, |header|, i);
  }

  /** After `row[key] = value` the key holds the value. */
  lemma AssignSetsKey(r: Row, next: Row, key: string, value: string)
    requires next == Assign(r, key, value)
    ensures key in next.cells && next.cells[key] == value
  {
  }

  /** `row[key] = value` leaves every other key as it was. */
  lemma AssignKeepsOther(r: Row, next: Row, key: string, value: string, other: string)
    requires next == Assign(r, key, value) && other != key && other in r.cells
    ensures other in next.cells && next.cells[other] == r.cells[other]
  {
  }

  /** The header line: every field trimmed. */
  function HeaderOf(line: string, sep: char): (h: seq<string>)
    ensures |h| >= 1
  {
    Text.TrimAll(Text.Split(line, sep))
  }

  /** `header.every(h => !h)`. */
  predicate AllBlank(h: seq<string>) {
    forall k :: 0 <= k < |h| ==> h[k] == ""
  }

  /** What parsing returns for the given lines: nothing without lines or with
      a blank header, otherwise one row per line after the header. */
  function RowsOf(lines: seq<string>, sep: char): (rows: seq<Row>)
  {
    if lines == [] then []
    else
      var header := HeaderOf(lines[0], sep);
      if AllBlank(header) then [] else RowsUnder(header, lines[1..], sep)
  }

  /** One row for each line under the header, in order. */
  function RowsUnder(header: seq<string>, body: seq<string>, sep: char): seq<Row> {
    if body == [] then [] else [RowOf(header, Text.Split(body[0], sep))] + RowsUnder(header, body[1..], sep)
  }

  /** Row `i` comes from line `i` under the header, and no line is lost. */
  lemma {:induction false} RowsUnderLines(header: seq<string>, body: seq<string>, sep: char)
    ensures |RowsUnder(header, body, sep)| == |body|
    ensures forall i :: 0 <= i < |body| ==> RowsUnder(header, body, sep)[i] == RowOf(header, Text.Split(body[i], sep))
  {
    if body != [] {
      RowsUnderLines(header, body[1..], sep);
    }
  }

  /** Every row holds exactly the header's names, a value for each. */
  lemma RowsHaveHeaderKeys(lines: seq<string>, sep: char, i: nat)
    requires i < |RowsOf(lines, sep)|
    ensures WellFormed(RowsOf(lines, sep)[i])
    ensures forall k :: k in RowsOf(lines, sep)[i].cells <==> k in HeaderOf(lines[0], sep)
  {
    var header := HeaderOf(lines[0], sep);
    RowsUnderLines(header, lines[1..], sep);
    var cols := Text.Split(lines[1..][i], sep);
    assert RowsOf(lines, sep)[i] == AssignCells(header, Cells(cols, |header|), |header|);
    AssignCellsKeys(header, Cells(cols, |header|), |header|);
    assert header[..|header|] == header;
  }

  /** One row per line after the header, or none at all when there is no
      line or the header is blank. */
  lemma RowsOfLength(lines: seq<string>, sep: char)
    ensures lines == [] || AllBlank(HeaderOf(lines[0], sep)) ==> RowsOf(lines, sep) == []
    ensures lines != [] && !AllBlank(HeaderOf(lines[0], sep)) ==> |RowsOf(lines, sep)| == |lines| - 1
  {
    if lines != [] {
      RowsUnderLines(HeaderOf(lines[0], sep), lines[1..], sep);
    }
  }

  /** A blank line still gives a row, every value of it empty. */
  lemma BlankLineRow(header: seq<string>, sep: char)
    ensures forall k :: k in RowOf(header, Text.Split("", sep)).cells ==> RowOf(header, Text.Split("", sep)).cells[k] == ""
  {
    var cols := Text.Split("", sep);
    assert cols == [""];
    assert Text.Trim("") == "";
    var values := Cells(cols, |header|);
    forall k | k in RowOf(header, cols).cells
      ensures RowOf(header, cols).cells[k] == ""
    {
      AssignCellsKeys(header, values, |header|);
      assert header[..|header|] == header;
      var i :| 0 <= i < |header| && header[i] == k;
      while i + 1 < |header| && exists j :: i < j < |header| && header[j] == k
        invariant 0 <= i < |header| && header[i] == k
        decreases |header| - i
      {
        var j :| i < j < |header| && header[j] == k;
        i := j;
      }
      RowCellOfLastColumn(header, cols, i);
    }
  }

  /** Rows of a tab-separated download. */
  function TsvRows(text: string): seq<Row> {
    RowsOf(SplitLines(CleanText(text)), '\t')
  }

  /** Rows of a comma-separated download; empty lines are skipped. */
  function CsvRows(text: string): seq<Row> {
    RowsOf(NonEmptyLines(SplitLines(CleanText(text))), ',')
  }

  /** An empty or all-blank download parses to no rows in both formats. */
  lemma EmptyDownloadHasNoRows(text: string)
    requires CleanText(text) == ""
    ensures TsvRows(text) == [] && CsvRows(text) == []
  {
    assert Text.Split("", '\n') == [""];
    assert SplitLines("") == [""];
    assert Text.Split("", '\t') == [""];
    assert Text.Trim("") == "";
    assert AllBlank(HeaderOf("", '\t'));
    assert Seqs.Filter([""], (l: string) => l != "") == [];
  }

  /** `header.forEach((key, idx) => row[key] = ...)` for one line; the
      trimmed cells are computed before the steps that assign them. */
  method BuildRow(header: seq<string>, cols: seq<string>) returns (row: Row)
    ensures row == RowOf(header, cols)
  {
    var values := Cells(cols, |header|);
    row := Row([], map[]);
    assert row == AssignCells(header, values, 0);
    var idx := 0;
    while idx < |header|
      invariant 0 <= idx <= |header|
      invariant row == AssignCells(header, values, idx)
    {
      assert AssignCells(header, values, idx + 1) == Assign(row, header[idx], values[idx]);
      row := Assign(row, header[idx], values[idx]);
      idx := idx + 1;
    }
  }

  /** The rows of the lines under the header, built one line at a time. */
  method BuildRows(header: seq<string>, body: seq<string>, sep: char) returns (rows: seq<Row>)
    ensures rows == RowsUnder(header, body, sep)
  {
    rows := [];
    var i := 0;
    while i < |body|
      invariant 0 <= i <= |body|
      invariant rows + RowsUnder(header, body[i..], sep) == RowsUnder(header, body, sep)
    {
      var row := BuildRow(header, Text.Split(body[i], sep));
      assert body[i..][1..] == body[i + 1..];
      assert rows + RowsUnder(header, body[i..], sep) == (rows + [row]) + RowsUnder(header, body[i + 1..], sep);
      rows := rows + [row];
      i := i + 1;
    }
    assert body[i..] == [];
  }

  /** The parse shared by both formats (`parseTsv` and `parseCsv` after their
      lines are cut). */
  method ParseLines(lines: seq<string>, sep: char) returns (rows: seq<Row>)
    ensures rows == RowsOf(lines, sep)
  {
    if |lines| == 0 {
      return [];
    }
    var header := HeaderOf(lines[0], sep);
    if AllBlank(header) {
      return [];
    }
    rows := BuildRows(header, lines[1..], sep);
  }

  /** `parseTsv`. */
  method ParseTsv(tsv: string) returns (rows: seq<Row>)
    ensures rows == TsvRows(tsv)
  {
    rows := ParseLines(SplitLines(CleanText(tsv)), '\t');
  }

  /** `parseCsv`: no quoting, every comma separates. */
  method ParseCsv(csv: string) returns (rows: seq<Row>)
    ensures rows == CsvRows(csv)
  {
    var text := CleanText(csv);
    var lines := NonEmptyLines(SplitLines(text));
    rows := ParseLines(lines, ',');
  }

  // ---------------------------------------------------------------------------
  // downloading
  // ---------------------------------------------------------------------------

  /** The outcome of one download: it failed (a thrown error or a status that
      is not ok) or it gave a text. */
  datatype Fetched = Failed | Fetched(text: string)

  /** The three sources, in the order they are tried: the tab-separated
      export, the comma-separated export, the visualisation endpoint's tab
      separated output. */
  datatype Format = Tsv | Csv
  const Attempts: seq<Format> := [Tsv, Csv, Tsv]

  /** The rows one source gives. */
  function RowsFrom(f: Format, got: Fetched): seq<Row> {
    match got
    case Failed => []
    case Fetched(text) => if f == Tsv then TsvRows(text) else CsvRows(text)
  }

  /** The parse of one download: nothing when it failed, otherwise the
      parser of its format. */
  method ParseAttempt(f: Format, got: Fetched) returns (rows: seq<Row>)
    ensures rows == RowsFrom(f, got)
  {
    rows := [];
    if got.Fetched? {
      if f == Tsv {
        rows := ParseTsv(got.text);
      } else {
        rows := ParseCsv(got.text);
      }
    }
  }

  /** The sources from `k` on, tried in order: the rows of the first that
      gives any and the number of sources used, or no rows once every source
      has been tried. */
  function FirstRows(fetched: seq<Fetched>, k: nat): (seq<Row>, nat)
    requires |fetched| == |Attempts| && k <= |Attempts|
    decreases |Attempts| - k
  {
    if k == |Attempts| then ([], k)
    else
      var r := RowsFrom(Attempts[k], fetched[k]);
      if r != [] then (r, k + 1) else FirstRows(fetched, k + 1)
  }

  /** The sources before the one used gave no rows, the rows are that
      source's, and there are no rows exactly when no source from `k` on
      gives any. */
  lemma {:induction false} FirstRowsSpec(fetched: seq<Fetched>, k: nat)
    requires |fetched| == |Attempts| && k < |Attempts|
    decreases |Attempts| - k
    ensures var (rows, tried) := FirstRows(fetched, k);
      && k + 1 <= tried <= |Attempts|
      && (forall j :: k <= j < tried - 1 ==> RowsFrom(Attempts[j], fetched[j]) == [])
      && (rows != [] ==> rows == RowsFrom(Attempts[tried - 1], fetched[tried - 1]))
      && (rows == [] <==> forall j :: k <= j < |Attempts| ==> RowsFrom(Attempts[j], fetched[j]) == [])
  {
    var r := RowsFrom(Attempts[k], fetched[k]);
    if r == [] {
      if k + 1 < |Attempts| {
        FirstRowsSpec(fetched, k + 1);
      } else {
        assert FirstRows(fetched, k + 1) == ([], |Attempts|);
      }
    }
  }

  /** Source `k` tried: its rows when it gives any, and otherwise the sources
      after it decide. */
  method NextAttempt(fetched: seq<Fetched>, k: nat) returns (parsed: seq<Row>)
    requires |fetched| == |Attempts| && k < |Attempts|
    ensures parsed != [] ==> FirstRows(fetched, k) == (parsed, k + 1)
    ensures parsed == [] ==> FirstRows(fetched, k) == FirstRows(fetched, k + 1)
  {
    parsed := ParseAttempt(Attempts[k], fetched[k]);
  }

  /** `loadSheetAsRows`, and the download loop of `loadIphonesFromSheet`: the
      sources are tried in order and the first that gives rows wins; later
      sources are not asked (`tried` counts the sources used). The download
      of source `k` is `fetched[k]`. */
  method LoadSheetAsRows(fetched: seq<Fetched>) returns (rows: seq<Row>, tried: nat)
    requires |fetched| == |Attempts|
    ensures (rows, tried) == FirstRows(fetched, 0)
  {
    var k := 0;
    while k < |Attempts|
      invariant 0 <= k <= |Attempts|
      invariant FirstRows(fetched, k) == FirstRows(fetched, 0)
      decreases |Attempts| - k
    {
      var parsed := NextAttempt(fetched, k);
      if parsed != [] {
        return parsed, k + 1;
      }
      k := k + 1;
    }
    return [], |Attempts|;
  }



  // ---------------------------------------------------------------------------
  // column names and numbers
  // ---------------------------------------------------------------------------

  /** A header as it is compared: trimmed and in lower case. */
  function Canon(h: string): string {
    Text.Lower(Text.Trim(h))
  }

  /** `indexOf` on a list of names: the first position of `key`, or -1. */
  function IndexOfName(names: seq<string>, key: string): (i: int)
    ensures -1 <= i < |names|
    ensures i >= 0 ==> names[i] == key && forall j :: 0 <= j < i ==> names[j] != key
    ensures i == -1 ==> key !in names
  {
    if names == [] then -1
    else if names[0] == key then 0
    else
      var i := IndexOfName(names[1..], key);
      if i == -1 then -1 else i + 1
  }

  /** The header a name variant matches, if any: the first header whose
      canonical form is the variant in lower case. */
  function MatchOf(headers: seq<string>, v: string): (r: Option<string>)
    ensures r.Some? ==> r.value in headers && Canon(r.value) == Text.Lower(v)
    ensures r.Some? ==>
      exists i :: 0 <= i < |headers| && r.value == headers[i] && Canon(headers[i]) == Text.Lower(v) &&
        (forall j :: 0 <= j < i ==> Canon(headers[j]) != Text.Lower(v))
    ensures r.None? <==> forall i :: 0 <= i < |headers| ==> Canon(headers[i]) != Text.Lower(v)
  {
    var canon := CanonAll(headers);
    var i := IndexOfName(canon, Text.Lower(v));
    if i == -1 then None
    else
      assert canon[i] == Canon(headers[i]);
      assert forall j :: 0 <= j < i ==> canon[j] == Canon(headers[j]);
      Some(headers[i])
  }

  /** `headers.map(h => h.trim().toLowerCase())`. */
  function CanonAll(headers: seq<string>): (canon: seq<string>)
    ensures |canon| == |headers|
    ensures forall i :: 0 <= i < |headers| ==> canon[i] == Canon(headers[i])
  {
    seq(|headers|, i requires 0 <= i < |headers| => Canon(headers[i]))
  }

  /** The resolved column: the variants are tried in order, the first that
      matches some header decides, and the header is returned as written. */
  function Resolve(headers: seq<string>, variants: seq<string>): (r: Option<string>)
    ensures r.Some? ==> r.value in headers && exists v :: v in variants && Canon(r.value) == Text.Lower(v)
    ensures r.None? <==> forall v, i :: v in variants && 0 <= i < |headers| ==> Canon(headers[i]) != Text.Lower(v)
    ensures variants != [] && MatchOf(headers, variants[0]).Some? ==> r == MatchOf(headers, variants[0])
    ensures r.Some? ==>
      exists k :: 0 <= k < |variants| && r == MatchOf(headers, variants[k]) &&
        (forall j :: 0 <= j < k ==> MatchOf(headers, variants[j]).None?)
  {
    if variants == [] then None
    else
      match MatchOf(headers, variants[0])
      case Some(h) => Some(h)
      case None =>
        var r := Resolve(headers, variants[1..]);
        assert forall v :: v in variants ==> v == variants[0] || v in variants[1..];
        FirstMatchAfterHead(headers, variants, r);
        r
  }

  /** When the first variant matches nothing, a variant that is first to
      match among the rest is first to match among all of them. */
  lemma FirstMatchAfterHead(headers: seq<string>, variants: seq<string>, r: Option<string>)
    requires variants != [] && MatchOf(headers, variants[0]).None?
    requires r.Some? ==>
      exists k :: 0 <= k < |variants| - 1 && r == MatchOf(headers, variants[1..][k]) &&
        (forall j :: 0 <= j < k ==> MatchOf(headers, variants[1..][j]).None?)
    ensures r.Some? ==>
      exists k :: 0 <= k < |variants| && r == MatchOf(headers, variants[k]) &&
        (forall j :: 0 <= j < k ==> MatchOf(headers, variants[j]).None?)
  {
    if r.Some? {
      var rest := variants[1..];
      var k :| 0 <= k < |rest| && r == MatchOf(headers, rest[k]) &&
        (forall j :: 0 <= j < k ==> MatchOf(headers, rest[j]).None?);
      assert variants[k + 1] == rest[k];
      forall j | 0 <= j < k + 1
        ensures MatchOf(headers, variants[j]).None?
      {
        if j > 0 {
          assert variants[j] == rest[j - 1];
        }
      }
      assert 0 <= k + 1 < |variants| && r == MatchOf(headers, variants[k + 1]);
    }
  }

  /** `resolveColumnKey`. */
  method ResolveColumnKey(headers: seq<string>, variants: seq<string>) returns (r: Option<string>)
    ensures r == Resolve(headers, variants)
  {
    var canon := CanonAll(headers);
    var k := 0;
    while k < |variants|
      invariant 0 <= k <= |variants|
      invariant Resolve(headers, variants) == Resolve(headers, variants[k..])
    {
      var idx := IndexOfName(canon, Text.Lower(variants[k]));
      if idx != -1 {
        return Some(headers[idx]);
      }
      assert variants[k..][1..] == variants[k + 1..];
      k := k + 1;
    }
    return None;
  }

  /** The number of digits at the head of `s`. */
  function DigitRun(s: string): (n: nat)
    ensures n <= |s|
    ensures forall i :: 0 <= i < n ==> Text.IsDigit(s[i])
    ensures n < |s| ==> !Text.IsDigit(s[n])
  {
    if s != [] && Text.IsDigit(s[0]) then
      var n := DigitRun(s[1..]);
      assert forall i :: 1 <= i < n + 1 ==> s[i] == s[1..][i - 1];
      n + 1
    else 0
  }

  /** The first run of digits in `s` (`match(/\d+/)`). */
  function FirstDigits(s: string): (r: Option<string>)
    ensures r.None? <==> forall i :: 0 <= i < |s| ==> !Text.IsDigit(s[i])
    ensures r.Some? ==> r.value != [] && forall i :: 0 <= i < |r.value| ==> Text.IsDigit(r.value[i])
  {
    if s == [] then None
    else if Text.IsDigit(s[0]) then Some(s[..DigitRun(s)])
    else
      var r := FirstDigits(s[1..]);
      assert forall i :: 1 <= i < |s| ==> s[i] == s[1..][i - 1];
      r
  }

  /** `toInt`: the value of the first run of digits, nothing for a missing or
      empty value or one without digits. */
  function ToInt(val: Option<string>): (r: Option<nat>)
    ensures r.Some? <==> val.Some? && exists i :: 0 <= i < |val.value| && Text.IsDigit(val.value[i])
  {
    if val.None? || val.value == "" then None
    else
      match FirstDigits(val.value)
      case None => None
      case Some(d) => Some(Text.DecimalValue(d))
  }

  /** The digits of a number followed by a non-digit form a whole run. */
  lemma {:induction false} DigitRunOfDigits(d: string, b: string)
    requires forall i :: 0 <= i < |d| ==> Text.IsDigit(d[i])
    requires b == [] || !Text.IsDigit(b[0])
    ensures DigitRun(d + b) == |d|
  {
    if d == [] {
      assert d + b == b;
    } else {
      assert (d + b)[1..] == d[1..] + b;
      DigitRunOfDigits(d[1..], b);
    }
  }

  /** A number written among other text is read back: `"256 GB"` gives 256. */
  lemma {:induction false} ToIntReadsNumber(a: string, n: nat, b: string)
    requires forall i :: 0 <= i < |a| ==> !Text.IsDigit(a[i])
    requires b == [] || !Text.IsDigit(b[0])
    ensures ToInt(Some(a + Text.NatToString(n) + b)) == Some(n)
  {
    var d := Text.NatToString(n);
    var s := a + d + b;
    FirstDigitsAfter(a, d + b);
    assert s == a + (d + b);
    DigitRunOfDigits(d, b);
    assert (d + b)[..|d|] == d;
    Text.DecimalOfNatToString(n);
  }

  /** Leading text without digits is skipped. */
  lemma {:induction false} FirstDigitsAfter(a: string, s: string)
    requires forall i :: 0 <= i < |a| ==> !Text.IsDigit(a[i])
    ensures FirstDigits(a + s) == FirstDigits(s)
  {
    if a != [] {
      assert (a + s)[1..] == a[1..] + s;
      FirstDigitsAfter(a[1..], s);
    } else {
      assert a + s == s;
    }
  }

  // ---------------------------------------------------------------------------
  // items
  // ---------------------------------------------------------------------------

  /** `IphoneItem`. The price is kept as the text of the number the sheet's
      price cell converts to. */
  datatype SheetItem = SheetItem(product: string, name: string, memory: Option<nat>, price: string)

  /** The column each field is read from. */
  datatype Columns = Columns(product: string, name: string, memory: string, price: string)

  /** `r[key]`, nothing when the row has no such key. */
  function CellOf(r: Row, key: string): (v: Option<string>)
    ensures v.Some? <==> key in r.cells
  {
    if key in r.cells then Some(r.cells[key]) else None
  }

  /** One row as an item. `priceText` stands for the number conversion of the
      price cell (`toNumber(cell) ?? 0`) rendered as text. That conversion
      always gives a number, at least `0`, so its text is never blank; the
      parameter is not constrained to that. */
  function ItemOf(r: Row, cols: Columns, priceText: Option<string> -> string): (it: SheetItem)
    ensures it.product == Text.Trim(CellOf(r, cols.product).GetOr(""))
    ensures it.name == Text.Trim(CellOf(r, cols.name).GetOr(""))
    ensures it.memory == ToInt(CellOf(r, cols.memory))
  {
    SheetItem(
      Text.Trim(CellOf(r, cols.product).GetOr("")),
      Text.Trim(CellOf(r, cols.name).GetOr("")),
      ToInt(CellOf(r, cols.memory)),
      priceText(CellOf(r, cols.price)))
  }

  /** The rows mapped to items, those with neither product nor name dropped. */
  function ItemsOf(rows: seq<Row>, cols: Columns, priceText: Option<string> -> string): (items: seq<SheetItem>)
    ensures |items| <= |rows|
    ensures forall it :: it in items ==> it.product != "" || it.name != ""
    ensures forall it :: it in items ==> exists i :: 0 <= i < |rows| && it == ItemOf(rows[i], cols, priceText)
  {
    var all := Mapped(rows, cols, priceText);
    var items := Seqs.Filter(all, (it: SheetItem) => it.product != "" || it.name != "");
    assert forall it :: it in items ==> exists i :: 0 <= i < |rows| && it == ItemOf(rows[i], cols, priceText) by {
      forall it | it in items ensures exists i :: 0 <= i < |rows| && it == ItemOf(rows[i], cols, priceText) {
        var i :| 0 <= i < |all| && all[i] == it;
      }
    }
    items
  }

  /** The items of one more row: its item follows the others when it names a
      product or a model, so the items keep the order of their rows. */
  lemma ItemsOfSnoc(rows: seq<Row>, r: Row, cols: Columns, priceText: Option<string> -> string)
    ensures var it := ItemOf(r, cols, priceText);
      ItemsOf(rows + [r], cols, priceText) == ItemsOf(rows, cols, priceText) + (if it.product != "" || it.name != "" then [it] else [])
  {
    var keep := (it: SheetItem) => it.product != "" || it.name != "";
    var it := ItemOf(r, cols, priceText);
    MappedSnoc(rows, r, cols, priceText);
    Seqs.FilterConcat(Mapped(rows, cols, priceText), [it], keep);
    assert [it][1..] == [];
  }

  /** `rows.map(...)`: every row as an item, in row order. */
  function Mapped(rows: seq<Row>, cols: Columns, priceText: Option<string> -> string): (all: seq<SheetItem>)
    ensures |all| == |rows|
  {
    seq(|rows|, i requires 0 <= i < |rows| => ItemOf(rows[i], cols, priceText))
  }

  /** Mapping one more row appends its item. */
  lemma MappedSnoc(rows: seq<Row>, r: Row, cols: Columns, priceText: Option<string> -> string)
    ensures Mapped(rows + [r], cols, priceText) == Mapped(rows, cols, priceText) + [ItemOf(r, cols, priceText)]
  {
  }

  /** Every row that names a product or a model gives its item. */
  lemma NamedRowKept(rows: seq<Row>, cols: Columns, priceText: Option<string> -> string, i: nat)
    requires i < |rows|
    requires ItemOf(rows[i], cols, priceText).product != "" || ItemOf(rows[i], cols, priceText).name != ""
    ensures ItemOf(rows[i], cols, priceText) in ItemsOf(rows, cols, priceText)
  {
    var all := Mapped(rows, cols, priceText);
    assert all[i] == ItemOf(rows[i], cols, priceText);
    Seqs.FilterMember(all, (it: SheetItem) => it.product != "" || it.name != "", all[i]);
  }

  /** The fallback column names when no header matches. */
  function OrElse(r: Option<string>, fallback: string): (k: string)
    ensures r.Some? ==> k == r.value
    ensures r.None? ==> k == fallback
  {
    r.GetOr(fallback)
  }

  /** The column names of each field, first match first. */
  const ProductNames: seq<string> := ["product", "товар"]
  const NameNames: seq<string> := ["name", "название", "модель"]
  const MemoryNames: seq<string> := ["memory", "память"]
  const PriceNames: seq<string> := ["price", "стоимость", "цена"]

  /** The column of each field: its first matching header, or its own
      name when no header matches. */
  function ColumnsFor(headers: seq<string>): Columns {
    Columns(OrElse(Resolve(headers, ProductNames), "product"), OrElse(Resolve(headers, NameNames), "name"),
            OrElse(Resolve(headers, MemoryNames), "memory"), OrElse(Resolve(headers, PriceNames), "price"))
  }

  /** What `loadIphonesFromSheet` returns for the given downloads. */
  function LoadedItems(fetched: seq<Fetched>, priceText: Option<string> -> string): seq<SheetItem>
    requires |fetched| == |Attempts|
  {
    var rows := FirstRows(fetched, 0).0;
    if rows == [] then [] else ItemsOf(rows, ColumnsFor(rows[0].keys), priceText)
  }

  /** From source `k` on, the rows are those of the first source that gives any. */
  lemma {:induction false} FirstRowsAt(fetched: seq<Fetched>, k: nat, j: nat)
    requires |fetched| == |Attempts| && k <= j < |Attempts|
    requires forall i :: k <= i < j ==> RowsFrom(Attempts[i], fetched[i]) == []
    requires RowsFrom(Attempts[j], fetched[j]) != []
    decreases j - k
    ensures FirstRows(fetched, k).0 == RowsFrom(Attempts[j], fetched[j])
  {
    var r := RowsFrom(Attempts[k], fetched[k]);
    if k == j {
      assert FirstRows(fetched, k) == (r, k + 1);
    } else {
      assert r == [];
      assert FirstRows(fetched, k) == FirstRows(fetched, k + 1);
      FirstRowsAt(fetched, k + 1, j);
    }
  }

  /** The items come from the first source that gives rows, with the
      columns resolved against that source's first row. */
  lemma LoadedFromFirstSource(fetched: seq<Fetched>, priceText: Option<string> -> string, j: nat)
    requires |fetched| == |Attempts| && j < |Attempts|
    requires forall i :: 0 <= i < j ==> RowsFrom(Attempts[i], fetched[i]) == []
    requires RowsFrom(Attempts[j], fetched[j]) != []
    ensures var rows := RowsFrom(Attempts[j], fetched[j]);
      LoadedItems(fetched, priceText) == ItemsOf(rows, ColumnsFor(rows[0].keys), priceText)
  {
    FirstRowsAt(fetched, 0, j);
  }

  /** `loadIphonesFromSheet`: the first source with rows, the columns
      resolved against the first row's keys, then the items. */
  method LoadIphonesFromSheet(fetched: seq<Fetched>, priceText: Option<string> -> string) returns (items: seq<SheetItem>)
    requires |fetched| == |Attempts|
    ensures forall it :: it in items ==> it.product != "" || it.name != ""
    ensures (forall j :: 0 <= j < |Attempts| ==> RowsFrom(Attempts[j], fetched[j]) == []) ==> items == []
    ensures items == LoadedItems(fetched, priceText)
  {
    var rows, tried := LoadSheetAsRows(fetched);
    FirstRowsSpec(fetched, 0);
    if |rows| == 0 {
      return [];
    }
    var headers := rows[0].keys;
    var p := ResolveColumnKey(headers, ProductNames);
    var n := ResolveColumnKey(headers, NameNames);
    var m := ResolveColumnKey(headers, MemoryNames);
    var pr := ResolveColumnKey(headers, PriceNames);
    var cols := Columns(OrElse(p, "product"), OrElse(n, "name"), OrElse(m, "memory"), OrElse(pr, "price"));
    items := ItemsOf(rows, cols, priceText);
  }
}
