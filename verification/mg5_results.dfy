/** The text handling in `merge` and `results` (run/external/mg5.py): the
    metadata `key=value` lines, the PDF id in the launch card, the body of
    the convolution table, and the columns read from the HwU histogram. */
module Mg5Results {
  import opened Common
  import opened Text
  import opened FloatSyntax

  // ---------------------------------------------------------------------
  // metadata.txt

  datatype MetadataError = NotAKeyValue(line: string)   // ValueError from the unpacking

  /** `k, v = line.split("=")`: exactly two pieces, or the unpacking fails. */
  function KeyValue(line: string): Result<(string, string), MetadataError>
  {
    var parts := Split(line, "=");
    if |parts| == 2 then Ok((parts[0], parts[1])) else Err(NotAKeyValue(line))
  }

  /** The `pineappl set` arguments for one metadata file: three per line,
      the value single-quoted; none when the file does not exist. */
  function MetadataArgs(metadata: Option<string>): Result<seq<string>, MetadataError>
  {
    match metadata
    case None => Ok([])
    case Some(text) => EntryArgs(SplitLines(text))
  }

  function EntryArgs(lines: seq<string>): Result<seq<string>, MetadataError>
  {
    if lines == [] then Ok([])
    else
      var kv :- KeyValue(lines[0]);
      var rest :- EntryArgs(lines[1..]);
      Ok(["--entry", kv.0, "'" + kv.1 + "'"] + rest)
  }

  /** The three arguments at `k` are `--entry`, a key and a single-quoted
      value that give back `line` when joined with `=`. */
  predicate IsEntry(a: seq<string>, k: nat, line: string)
    requires k + 2 < |a|
  {
    a[k] == "--entry" && |a[k + 2]| >= 2
    && a[k + 2][0] == '\'' && a[k + 2][|a[k + 2]| - 1] == '\''
    && a[k + 1] + "=" + a[k + 2][1..|a[k + 2]| - 1] == line
  }

  /** Every accepted line yields `--entry`, its key and its quoted value,
      and the key and value put back together with `=` give the line. */
  lemma {:induction false} EntryArgsShape(lines: seq<string>)
    requires EntryArgs(lines).Ok?
    ensures |EntryArgs(lines).value| == 3 * |lines|
    ensures forall i :: 0 <= i < |lines| ==> IsEntry(EntryArgs(lines).value, 3 * i, lines[i])
  {
    if lines != [] {
      EntryArgsShape(lines[1..]);
      var kv := KeyValue(lines[0]).value;
      var head := ["--entry", kv.0, "'" + kv.1 + "'"];
      var rest := EntryArgs(lines[1..]).value;
      assert EntryArgs(lines).value == head + rest;
      assert IsEntry(head + rest, 0, lines[0]) by {
        KeyValueJoin(lines[0]);
        assert ("'" + kv.1 + "'")[1..|kv.1| + 1] == kv.1;
      }
      forall i | 1 <= i < |lines| ensures IsEntry(head + rest, 3 * i, lines[i]) {
        assert IsEntry(rest, 3 * (i - 1), lines[1..][i - 1]);
        EntryAfter(head, rest, 3 * (i - 1), lines[i]);
      }
    }
  }

  /** An accepted line is its key and value joined with `=`. */
  lemma KeyValueJoin(line: string)
    requires KeyValue(line).Ok?
    ensures KeyValue(line).value.0 + "=" + KeyValue(line).value.1 == line
  {
    SplitJoinRoundTrip(line, "=");
    var parts := Split(line, "=");
    assert Join(parts, "=") == parts[0] + "=" + parts[1];
  }

  /** Entries keep their shape behind a prefix of three arguments. */
  lemma EntryAfter(head: seq<string>, rest: seq<string>, k: nat, line: string)
    requires |head| == 3 && k + 2 < |rest| && IsEntry(rest, k, line)
    ensures IsEntry(head + rest, k + 3, line)
  {
    assert (head + rest)[k + 3] == rest[k];
    assert (head + rest)[k + 4] == rest[k + 1];
    assert (head + rest)[k + 5] == rest[k + 2];
  }

  /** A line without `=`, such as an empty line, fails the unpacking. */
  lemma LineWithoutSeparator(line: string)
    requires '=' !in line
    ensures KeyValue(line) == Err(NotAKeyValue(line))
  {
    SplitWithout(line, '=');
  }

  /** A line `key=value` with no other `=` splits back into key and value. */
  lemma KeyValueOf(key: string, value: string)
    requires '=' !in key && '=' !in value
    ensures KeyValue(key + "=" + value) == Ok((key, value))
  {
    SplitAtOnly(key, '=', value);
  }

  // ---------------------------------------------------------------------
  // `re.search(r"set lhaid (\d+)", launch)[1]`

  const LhaidPrefix: string := "set lhaid "

  /** Length of the run of digits `s` starts with. */
  function DigitRun(s: string): (n: nat)
    ensures n <= |s|
    ensures forall j :: 0 <= j < n ==> IsDigit(s[j])
    ensures n < |s| ==> !IsDigit(s[n])
  {
    if s != [] && IsDigit(s[0]) then 1 + DigitRun(s[1..]) else 0
  }

  /** The pattern matches at position `i`. */
  predicate LhaidAt(text: string, i: nat) {
    i + |LhaidPrefix| < |text| && text[i..i + |LhaidPrefix|] == LhaidPrefix
      && IsDigit(text[i + |LhaidPrefix|])
  }

  /** The search from position `i` on: the leftmost match, and the greedy
      group takes every digit that follows. */
  function FindLhaidFrom(text: string, i: nat): (id: Option<string>)
    requires i <= |text|
    ensures id.None? <==> forall j :: i <= j <= |text| ==> !LhaidAt(text, j)
    ensures id.Some? ==>
      exists j :: i <= j < |text| && LhaidAt(text, j)
        && (forall k :: i <= k < j ==> !LhaidAt(text, k))
        && id.value == text[j + |LhaidPrefix|..][..DigitRun(text[j + |LhaidPrefix|..])]
    decreases |text| - i
  {
    if LhaidAt(text, i) then
      var tail := text[i + |LhaidPrefix|..];
      Some(tail[..DigitRun(tail)])
    else if i == |text| then None
    else FindLhaidFrom(text, i + 1)
  }

  /** The PDF id of the launch card, or nothing when the pattern is absent
      (the source then fails indexing `None`). */
  function FindLhaid(text: string): (id: Option<string>)
    ensures id.Some? ==> |id.value| > 0 && forall k :: 0 <= k < |id.value| ==> IsDigit(id.value[k])
    ensures id.Some? ==> Contains(text, LhaidPrefix + id.value)
  {
    FoundLhaid(text);
    FindLhaidFrom(text, 0)
  }

  lemma FoundLhaid(text: string)
    ensures var r := FindLhaidFrom(text, 0);
      r.Some? ==> Contains(text, LhaidPrefix + r.value)
  {
    var r := FindLhaidFrom(text, 0);
    if r.Some? {
      var j :| 0 <= j < |text| && LhaidAt(text, j)
        && (forall k :: 0 <= k < j ==> !LhaidAt(text, k))
        && r.value == text[j + |LhaidPrefix|..][..DigitRun(text[j + |LhaidPrefix|..])];
      LhaidContained(text, j, r.value);
    }
  }

  lemma LhaidContained(text: string, j: nat, id: string)
    requires LhaidAt(text, j)
    requires id == text[j + |LhaidPrefix|..][..DigitRun(text[j + |LhaidPrefix|..])]
    ensures Contains(text, LhaidPrefix + id)
  {
    var n := |LhaidPrefix| + |id|;
    assert text[j..j + n] == LhaidPrefix + id;
    ContainsIffOccurs(text, LhaidPrefix + id);
    assert OccursAt(text, LhaidPrefix + id, j);
  }

  /** A card whose only `set lhaid` line carries `id` yields `id`, however
      many digits it has and whatever follows it on the line. */
  lemma LhaidOfCard(before: string, id: string, after: string)
    requires forall j :: 0 <= j <= |before| ==> !LhaidAt(before + LhaidPrefix + id + after, j) || j == |before|
    requires |id| > 0 && forall k :: 0 <= k < |id| ==> IsDigit(id[k])
    requires after == [] || !IsDigit(after[0])
    ensures FindLhaid(before + LhaidPrefix + id + after) == Some(id)
  {
    var text := before + LhaidPrefix + id + after;
    var p := |before|;
    assert text[p..p + |LhaidPrefix|] == LhaidPrefix;
    assert text[p + |LhaidPrefix|] == id[0];
    assert LhaidAt(text, p);
    var tail := text[p + |LhaidPrefix|..];
    assert tail == id + after;
    DigitRunOf(id, after);
    FirstLhaid(text, 0, p);
  }

  lemma {:induction false} DigitRunOf(digits: string, after: string)
    requires forall k :: 0 <= k < |digits| ==> IsDigit(digits[k])
    requires after == [] || !IsDigit(after[0])
    ensures DigitRun(digits + after) == |digits|
  {
    if digits != [] {
      assert (digits + after)[1..] == digits[1..] + after;
      DigitRunOf(digits[1..], after);
    } else {
      assert digits + after == after;
    }
  }

  lemma {:induction false} FirstLhaid(text: string, i: nat, p: nat)
    requires i <= p < |text| && LhaidAt(text, p)
    requires forall k :: i <= k < p ==> !LhaidAt(text, k)
    ensures FindLhaidFrom(text, i) == Some(text[p + |LhaidPrefix|..][..DigitRun(text[p + |LhaidPrefix|..])])
    decreases p - i
  {
    if i < p {
      FirstLhaid(text, i + 1, p);
    }
  }

  // ---------------------------------------------------------------------
  // `splitlines()[2:-2]` of the convolution table

  /** Python's `xs[start:stop]` for a step of one: negative bounds count
      from the end, and both are clamped to the list. */
  function PySlice<T>(xs: seq<T>, start: int, stop: int): seq<T>
  {
    var n := |xs|;
    var a := Clamp(if start < 0 then start + n else start, n);
    var b := Clamp(if stop < 0 then stop + n else stop, n);
    if a < b then xs[a..b] else []
  }

  function Clamp(i: int, n: nat): (r: nat)
    ensures r <= n
  {
    if i < 0 then 0 else if i > n then n else i
  }

  /** The rows of the convolution table without its two header lines and
      two footer lines. */
  function TableBody(lines: seq<string>): (body: seq<string>)
  {
    PySlice(lines, 2, -2)
  }

  /** The body drops two lines at each end, and is empty for four lines or
      fewer. */
  lemma TableBodyShape(lines: seq<string>)
    ensures |TableBody(lines)| == if |lines| >= 4 then |lines| - 4 else 0
    ensures forall i :: 0 <= i < |TableBody(lines)| ==> TableBody(lines)[i] == lines[i + 2]
  {
  }

  /** Framing a body with two lines above and two below and then taking the
      body gives it back. */
  lemma TableBodyOfFramed(head: seq<string>, body: seq<string>, foot: seq<string>)
    requires |head| == 2 && |foot| == 2
    ensures TableBody(head + body + foot) == body
  {
    var all := head + body + foot;
    assert all[2..|all| - 2] == body;
  }

  // ---------------------------------------------------------------------
  // `results`: the HwU histogram rows

  /** `re.match("^  [+-]", line)`: two spaces, then a sign. */
  predicate IsTableRow(line: string) {
    |line| >= 3 && line[0] == ' ' && line[1] == ' ' && (line[2] == '+' || line[2] == '-')
  }

  function TableRows(lines: seq<string>): (rows: seq<string>)
    ensures |rows| <= |lines|
    ensures forall i :: 0 <= i < |rows| ==> IsTableRow(rows[i]) && rows[i] in lines
    ensures forall l :: l in lines && IsTableRow(l) ==> l in rows
  {
    if lines == [] then []
    else if IsTableRow(lines[0]) then [lines[0]] + TableRows(lines[1..])
    else TableRows(lines[1..])
  }

  /** The filter keeps the rows in their order and as often as they occur:
      the rows of two blocks of lines are the rows of the first followed by
      those of the second, and a single line is kept exactly when it is a
      table row. */
  lemma {:induction false} TableRowsInOrder(a: seq<string>, b: seq<string>)
    ensures TableRows(a + b) == TableRows(a) + TableRows(b)
    ensures |a| == 1 ==> TableRows(a) == if IsTableRow(a[0]) then [a[0]] else []
    decreases |a|
  {
    if a == [] {
      assert a + b == b;
    } else {
      assert (a + b)[0] == a[0];
      assert (a + b)[1..] == a[1..] + b;
      TableRowsInOrder(a[1..], b);
    }
  }

  predicate IsField(w: string) {
    |w| > 0 && forall k :: 0 <= k < |w| ==> !IsSpace(w[k])
  }

  /** Length of the leading run of non-whitespace. */
  function FieldRun(s: string): (n: nat)
    ensures n <= |s|
    ensures forall k :: 0 <= k < n ==> !IsSpace(s[k])
    ensures n < |s| ==> IsSpace(s[n])
  {
    if s != [] && !IsSpace(s[0]) then 1 + FieldRun(s[1..]) else 0
  }

  /** `line.split()`: the maximal runs of non-whitespace, in order. */
  function Fields(line: string): (ws: seq<string>)
    ensures forall i :: 0 <= i < |ws| ==> IsField(ws[i])
    decreases |line|
  {
    if line == [] then []
    else if IsSpace(line[0]) then Fields(line[1..])
    else
      var n := FieldRun(line);
      [line[..n]] + Fields(line[n..])
  }

  /** Fields written out with single spaces between them split back into
      the same fields. */
  lemma {:induction false} FieldsOfJoin(ws: seq<string>)
    requires forall i :: 0 <= i < |ws| ==> IsField(ws[i])
    ensures Fields(Join(ws, " ")) == ws
  {
    if |ws| == 1 {
      FieldsOfWord(ws[0], "");
      assert ws[0] + "" == ws[0];
    } else if |ws| > 1 {
      var rest := Join(ws[1..], " ");
      assert Join(ws, " ") == ws[0] + (" " + rest);
      FieldsAfterSpace(ws[0], rest);
      FieldsOfJoin(ws[1..]);
      assert ws == [ws[0]] + ws[1..];
    }
  }

  /** A field followed by one space and more text splits into the field
      and the fields of that text. */
  lemma FieldsAfterSpace(w: string, rest: string)
    requires IsField(w)
    ensures Fields(w + (" " + rest)) == [w] + Fields(rest)
  {
    FieldsOfWord(w, " " + rest);
    assert (" " + rest)[1..] == rest;
  }

  lemma FieldsOfWord(w: string, tail: string)
    requires IsField(w)
    requires tail == [] || IsSpace(tail[0])
    ensures Fields(w + tail) == [w] + Fields(tail)
    ensures tail != [] ==> Fields(tail) == Fields(tail[1..])
  {
    FieldRunOf(w, tail);
    assert (w + tail)[..|w|] == w;
    assert (w + tail)[|w|..] == tail;
  }

  lemma {:induction false} FieldRunOf(w: string, tail: string)
    requires forall k :: 0 <= k < |w| ==> !IsSpace(w[k])
    requires tail == [] || IsSpace(tail[0])
    ensures FieldRun(w + tail) == |w|
  {
    if w != [] {
      assert (w + tail)[1..] == w[1..] + tail;
      FieldRunOf(w[1..], tail);
    } else {
      assert w + tail == tail;
    }
  }

  /** The four columns `results` keeps, by their 1-based column numbers. */
  datatype HwuRow = HwuRow(result: string, error: string, svMin: string, svMax: string)

  const ResultColumn: nat := 3
  const ErrorColumn: nat := 4
  const SvMinColumn: nat := 6
  const SvMaxColumn: nat := 7

  datatype ResultsError =
    | NotANumber(field: string)     // ValueError from float()
    | RaggedRows                    // rows of different widths
    | MissingColumn(column: nat)    // KeyError from the data frame

  /** The first field in the table that `float()` rejects. */
  function FirstBadField(table: seq<seq<string>>): (bad: Option<string>)
    ensures bad.None? <==> forall i, k :: 0 <= i < |table| && 0 <= k < |table[i]| ==> IsFloatLiteral(table[i][k])
  {
    if table == [] then None
    else match FirstBadIn(table[0])
      case Some(w) => Some(w)
      case None =>
        var r := FirstBadField(table[1..]);
        assert forall i :: 1 <= i < |table| ==> table[i] == table[1..][i - 1];
        r
  }

  function FirstBadIn(row: seq<string>): (bad: Option<string>)
    ensures bad.None? <==> forall k :: 0 <= k < |row| ==> IsFloatLiteral(row[k])
    ensures bad.Some? ==> bad.value in row && !IsFloatLiteral(bad.value)
  {
    if row == [] then None
    else if !IsFloatLiteral(row[0]) then Some(row[0])
    else FirstBadIn(row[1..])
  }

  /** The first of the kept columns a table of the given width lacks. */
  function FirstMissingColumn(width: nat): (c: nat)
    requires width < SvMaxColumn
    ensures c in {ResultColumn, ErrorColumn, SvMinColumn, SvMaxColumn} && c > width
  {
    if width < ResultColumn then ResultColumn
    else if width < ErrorColumn then ErrorColumn
    else if width < SvMinColumn then SvMinColumn
    else SvMaxColumn
  }

  /** Column `c`, counting from one. */
  function Column(row: seq<string>, c: nat): string
    requires 1 <= c <= |row|
  {
    row[c - 1]
  }

  /** `results`: every row line is split into fields, each field must be a
      number, the rows must form a rectangle, and the rectangle must reach
      column 7. An empty table has no column 3. */
  function Results(hwu: string): Result<seq<HwuRow>, ResultsError>
  {
    var table := SplitRows(TableRows(SplitLines(hwu)));
    if FirstBadField(table).Some? then Err(NotANumber(FirstBadField(table).value))
    else if table == [] then Err(MissingColumn(ResultColumn))
    else if exists i :: 0 <= i < |table| && |table[i]| != |table[0]| then Err(RaggedRows)
    else if |table[0]| < SvMaxColumn then Err(MissingColumn(FirstMissingColumn(|table[0]|)))
    else Ok(seq(|table|, i requires 0 <= i < |table| =>
      HwuRow(Column(table[i], ResultColumn), Column(table[i], ErrorColumn),
             Column(table[i], SvMinColumn), Column(table[i], SvMaxColumn))))
  }

  function SplitRows(rows: seq<string>): (table: seq<seq<string>>)
    ensures |table| == |rows|
    ensures forall i :: 0 <= i < |rows| ==> table[i] == Fields(rows[i])
  {
    if rows == [] then [] else [Fields(rows[0])] + SplitRows(rows[1..])
  }

  /** The first field of a histogram row starts with its sign. */
  predicate StartsWithSign(row: seq<string>) {
    |row| > 0 && |row[0]| > 0 && (row[0][0] == '+' || row[0][0] == '-')
  }

  /** A histogram whose row lines are written as two spaces and then the
      fields separated by spaces gives back, row by row, fields 3, 4, 6
      and 7, provided every field is a number and all rows have the same
      width, at least seven. */
  lemma ResultsOfRows(cells: seq<seq<string>>, width: nat)
    requires |cells| > 0 && width >= SvMaxColumn
    requires forall i :: 0 <= i < |cells| ==> |cells[i]| == width
    requires forall i, k :: 0 <= i < |cells| && 0 <= k < width ==> IsField(cells[i][k]) && IsFloatLiteral(cells[i][k])
    requires forall i :: 0 <= i < |cells| ==> StartsWithSign(cells[i])
    ensures var r := Results(Unlines(RowLines(cells)));
      r.Ok? && |r.value| == |cells|
      && forall i :: 0 <= i < |cells| ==>
        r.value[i] == HwuRow(cells[i][2], cells[i][3], cells[i][5], cells[i][6])
  {
    TableOfRows(cells, width);
    ResultsOfTable(Unlines(RowLines(cells)), cells, width);
  }

  lemma TableOfRows(cells: seq<seq<string>>, width: nat)
    requires width > 0
    requires forall i :: 0 <= i < |cells| ==> |cells[i]| == width
    requires forall i, k :: 0 <= i < |cells| && 0 <= k < width ==> IsField(cells[i][k])
    requires forall i :: 0 <= i < |cells| ==> StartsWithSign(cells[i])
    ensures SplitRows(TableRows(SplitLines(Unlines(RowLines(cells))))) == cells
  {
    var lines := RowLines(cells);
    forall i | 0 <= i < |lines| ensures NoLineBreak(lines[i]) && IsTableRow(lines[i]) {
      RowLineShape(cells[i]);
    }
    SplitLinesUnlines(lines);
    AllRowsKept(lines);
    var table := SplitRows(lines);
    forall i | 0 <= i < |lines| ensures table[i] == cells[i] {
      FieldsOfRowLine(cells[i]);
    }
  }

  lemma ResultsOfTable(hwu: string, cells: seq<seq<string>>, width: nat)
    requires SplitRows(TableRows(SplitLines(hwu))) == cells
    requires |cells| > 0 && width >= SvMaxColumn
    requires forall i :: 0 <= i < |cells| ==> |cells[i]| == width
    requires forall i, k :: 0 <= i < |cells| && 0 <= k < width ==> IsFloatLiteral(cells[i][k])
    ensures var r := Results(hwu);
      r.Ok? && |r.value| == |cells|
      && forall i :: 0 <= i < |cells| ==>
        r.value[i] == HwuRow(cells[i][2], cells[i][3], cells[i][5], cells[i][6])
  {
    assert FirstBadField(cells).None?;
  }

  /** Each row of cells written as a histogram line. */
  function RowLines(cells: seq<seq<string>>): (lines: seq<string>)
    requires forall i :: 0 <= i < |cells| ==> |cells[i]| > 0
    ensures |lines| == |cells|
    ensures forall i :: 0 <= i < |cells| ==> lines[i] == "  " + Join(cells[i], " ")
  {
    if cells == [] then [] else ["  " + Join(cells[0], " ")] + RowLines(cells[1..])
  }

  lemma RowLineShape(row: seq<string>)
    requires |row| > 0 && forall k :: 0 <= k < |row| ==> IsField(row[k])
    requires StartsWithSign(row)
    ensures NoLineBreak("  " + Join(row, " ")) && IsTableRow("  " + Join(row, " "))
  {
    var j := Join(row, " ");
    assert |j| > 0 && (j[0] == '+' || j[0] == '-') by {
      JoinHead(row);
    }
    assert NoLineBreak(j) by {
      JoinNoBreak(row);
    }
    IndentedRow(j);
  }

  /** Two spaces before a text without breaks that starts with a sign make
      a table row without breaks. */
  lemma IndentedRow(j: string)
    requires |j| > 0 && (j[0] == '+' || j[0] == '-') && NoLineBreak(j)
    ensures NoLineBreak("  " + j) && IsTableRow("  " + j)
  {
    assert !IsLineBreak(' ');
    assert ("  " + j)[2] == j[0];
  }

  lemma JoinHead(row: seq<string>)
    requires |row| > 0 && |row[0]| > 0
    ensures |Join(row, " ")| > 0 && Join(row, " ")[0] == row[0][0]
  {
  }

  lemma {:induction false} JoinNoBreak(row: seq<string>)
    requires forall k :: 0 <= k < |row| ==> IsField(row[k])
    ensures NoLineBreak(Join(row, " "))
  {
    if |row| > 1 {
      JoinNoBreak(row[1..]);
      assert forall c :: IsLineBreak(c) ==> IsSpace(c);
    } else if |row| == 1 {
      assert forall c :: IsLineBreak(c) ==> IsSpace(c);
    }
  }

  lemma FieldsOfRowLine(row: seq<string>)
    requires forall k :: 0 <= k < |row| ==> IsField(row[k])
    ensures Fields("  " + Join(row, " ")) == row
  {
    var j := Join(row, " ");
    assert Fields(" " + j) == Fields(j) by {
      FieldsSkipBlank(" " + j);
      assert (" " + j)[1..] == j;
    }
    assert Fields("  " + j) == Fields(" " + j) by {
      FieldsSkipBlank("  " + j);
      assert ("  " + j)[1..] == " " + j;
    }
    FieldsOfJoin(row);
  }

  /** Leading whitespace is skipped. */
  lemma FieldsSkipBlank(s: string)
    requires |s| > 0 && IsSpace(s[0])
    ensures Fields(s) == Fields(s[1..])
  {
  }

  lemma {:induction false} AllRowsKept(lines: seq<string>)
    requires forall i :: 0 <= i < |lines| ==> IsTableRow(lines[i])
    ensures TableRows(lines) == lines
  {
    if lines != [] {
      AllRowsKept(lines[1..]);
    }
  }
}
