/**
 * The part of Python's text and `csv` machinery that `Fund.upload_funds` relies
 * on: `str.splitlines`, `csv.reader` on one line that holds no quote character,
 * and the blank-row skipping of `csv.DictReader`, followed by the `next(reader)`
 * that throws the header row away.
 */
module CsvReading {
  import opened Base

  /** The characters at which `str.splitlines` ends a line. */
  predicate IsLineBreak(c: char) {
    c == '\n' || c == '\r' || c == '\U{B}' || c == '\U{C}' || c == '\U{1C}' || c == '\U{1D}'
    || c == '\U{1E}' || c == '\U{85}' || c == '\U{2028}' || c == '\U{2029}'
  }

  predicate NoLineBreak(line: string) {
    forall k :: 0 <= k < |line| ==> !IsLineBreak(line[k])
  }

  /** Index of the first line break in `s`, or `|s|` when there is none. */
  function FirstBreak(s: string): (i: nat)
    ensures i <= |s|
    ensures NoLineBreak(s[..i])
    ensures i < |s| ==> IsLineBreak(s[i])
  {
    if s == [] then 0
    else if IsLineBreak(s[0]) then 0
    else
      var j := FirstBreak(s[1..]);
      assert s[1..][..j] == s[1..j + 1];
      1 + j
  }

  /**
   * `str.splitlines()`: the text up to each line break is one line, "\r\n"
   * counts as a single break, and a break at the very end does not start an
   * empty last line.
   */
  function SplitLines(s: string): (lines: seq<string>)
    ensures forall j :: 0 <= j < |lines| ==> NoLineBreak(lines[j])
    decreases |s|
  {
    if s == [] then []
    else
      var i := FirstBreak(s);
      if i == |s| then [s]
      else
        var next := if s[i] == '\r' && i + 1 < |s| && s[i + 1] == '\n' then i + 2 else i + 1;
        [s[..i]] + SplitLines(s[next..])
  }

  /** The two line endings a written file uses: "\n", and "\r\n" from Windows. */
  predicate LineEnd(eol: string) {
    eol == "\n" || eol == "\r\n"
  }

  /** Lines each followed by `eol`: the text a file made of these lines holds. */
  function Terminated(lines: seq<string>, eol: string): string {
    if lines == [] then "" else lines[0] + eol + Terminated(lines[1..], eol)
  }

  lemma {:induction false} FirstBreakOfLine(line: string, rest: string)
    requires NoLineBreak(line)
    requires rest == [] || IsLineBreak(rest[0])
    ensures FirstBreak(line + rest) == |line|
  {
    var s := line + rest;
    assert forall k :: 0 <= k < |line| ==> s[k] == line[k];
    if rest != [] {
      assert s[|line|] == rest[0];
    }
  }

  /**
   * Reading back a text written line by line, with either line ending, gives
   * the lines again; a last line without a final break is kept unless it is
   * empty.
   */
  lemma {:induction false} SplitTerminated(lines: seq<string>, eol: string, last: string)
    requires forall j :: 0 <= j < |lines| ==> NoLineBreak(lines[j])
    requires LineEnd(eol)
    requires NoLineBreak(last)
    ensures SplitLines(Terminated(lines, eol) + last) == lines + (if last == "" then [] else [last])
    decreases |lines|
  {
    if lines == [] {
      assert Terminated(lines, eol) + last == last;
      SplitLastLine(last);
    } else {
      SplitTerminatedStep(lines, eol, last);
      assert forall j :: 0 <= j < |lines[1..]| ==> lines[1..][j] == lines[j + 1];
      SplitTerminated(lines[1..], eol, last);
      assert lines == [lines[0]] + lines[1..];
    }
  }

  lemma SplitTerminatedStep(lines: seq<string>, eol: string, last: string)
    requires lines != [] && NoLineBreak(lines[0])
    requires LineEnd(eol)
    ensures SplitLines(Terminated(lines, eol) + last) == [lines[0]] + SplitLines(Terminated(lines[1..], eol) + last)
  {
    var tail := Terminated(lines[1..], eol) + last;
    assert Terminated(lines, eol) + last == lines[0] + eol + tail;
    SplitFirstLine(lines[0], eol, tail);
  }

  /** A last line without a break is one line, or none when it is empty. */
  lemma SplitLastLine(last: string)
    requires NoLineBreak(last)
    ensures SplitLines(last) == if last == "" then [] else [last]
  {
    if last != "" {
      FirstBreakOfLine(last, "");
      assert last + "" == last;
    }
  }

  /** A line followed by a line ending is split off as the first line; "\r\n" is one break. */
  lemma SplitFirstLine(line: string, eol: string, tail: string)
    requires NoLineBreak(line)
    requires LineEnd(eol)
    ensures SplitLines(line + eol + tail) == [line] + SplitLines(tail)
  {
    var s := line + eol + tail;
    assert s == line + (eol + tail);
    FirstBreakOfLine(line, eol + tail);
    var i := |line|;
    assert s[..i] == line;
    assert s[i] == eol[0];
    if eol == "\r\n" {
      assert s[i + 1] == '\n';
      assert s[i + 2..] == tail;
    } else {
      assert s[i + 1..] == tail;
    }
  }

  predicate NoComma(field: string) {
    forall k :: 0 <= k < |field| ==> field[k] != ','
  }

  /** Index of the first comma in `s`, or `|s|` when there is none. */
  function FirstComma(s: string): (i: nat)
    ensures i <= |s|
    ensures NoComma(s[..i])
    ensures i < |s| ==> s[i] == ','
  {
    if s == [] then 0
    else if s[0] == ',' then 0
    else
      var j := FirstComma(s[1..]);
      assert s[1..][..j] == s[1..j + 1];
      1 + j
  }

  /** The comma-separated fields of `s`: one more field than `s` has commas. */
  function SplitOnComma(s: string): (fields: seq<string>)
    ensures |fields| >= 1
    ensures forall j :: 0 <= j < |fields| ==> NoComma(fields[j])
    decreases |s|
  {
    var i := FirstComma(s);
    if i == |s| then [s] else [s[..i]] + SplitOnComma(s[i + 1..])
  }

  /**
   * `csv.reader` on one line without quote characters: an empty line is the
   * empty row, any other line is split at every comma.
   */
  function ReadRow(line: string): (row: seq<string>)
    ensures row == [] <==> line == ""
    ensures forall j :: 0 <= j < |row| ==> NoComma(row[j])
  {
    if line == "" then [] else SplitOnComma(line)
  }

  /** Fields written back as one line, separated by commas. */
  function JoinFields(fields: seq<string>): string {
    if fields == [] then ""
    else if |fields| == 1 then fields[0]
    else fields[0] + "," + JoinFields(fields[1..])
  }

  lemma {:induction false} JoinSplitOnComma(s: string)
    ensures JoinFields(SplitOnComma(s)) == s
    decreases |s|
  {
    var i := FirstComma(s);
    if i < |s| {
      JoinSplitOnComma(s[i + 1..]);
      var rest := SplitOnComma(s[i + 1..]);
      var fields := SplitOnComma(s);
      assert fields == [s[..i]] + rest;
      assert fields[0] == s[..i] && fields[1..] == rest && |fields| >= 2;
      assert JoinFields(fields) == s[..i] + "," + JoinFields(rest);
      assert s == s[..i] + "," + s[i + 1..];
    }
  }

  /** Joining the fields of a line with commas gives the line back. */
  lemma JoinReadRow(line: string)
    ensures JoinFields(ReadRow(line)) == line
  {
    if line != "" {
      JoinSplitOnComma(line);
    }
  }

  lemma {:induction false} SplitOnCommaJoin(fields: seq<string>)
    requires |fields| >= 1
    requires forall j :: 0 <= j < |fields| ==> NoComma(fields[j])
    ensures SplitOnComma(JoinFields(fields)) == fields
    decreases |fields|
  {
    if |fields| == 1 {
      assert fields[0][..|fields[0]|] == fields[0];
    } else {
      var tail := JoinFields(fields[1..]);
      var s := JoinFields(fields);
      assert s == fields[0] + ("," + tail);
      assert forall k :: 0 <= k < |fields[0]| ==> s[k] == fields[0][k];
      assert s[|fields[0]|] == ',';
      var i := FirstComma(s);
      assert i == |fields[0]|;
      assert s[..i] == fields[0];
      assert s[i + 1..] == tail;
      SplitOnCommaJoin(fields[1..]);
      assert fields == [fields[0]] + fields[1..];
    }
  }

  /**
   * A row of comma-free fields written as a line reads back as the same row,
   * except the row of one empty field, which is written as an empty line and so
   * reads back as the empty row.
   */
  lemma ReadRowJoin(fields: seq<string>)
    requires fields != [] && fields != [""]
    requires forall j :: 0 <= j < |fields| ==> NoComma(fields[j])
    ensures ReadRow(JoinFields(fields)) == fields
  {
    if |fields| > 1 {
      assert JoinFields(fields) == fields[0] + "," + JoinFields(fields[1..]);
      assert JoinFields(fields)[|fields[0]|] == ',';
    }
    SplitOnCommaJoin(fields);
  }

  /** The rows `csv.DictReader` goes through: one per line, empty rows skipped. */
  function NonEmptyRows(lines: seq<string>): (rows: seq<seq<string>>)
    ensures forall j :: 0 <= j < |rows| ==> rows[j] != []
    ensures rows == [] <==> forall j :: 0 <= j < |lines| ==> lines[j] == ""
  {
    if lines == [] then []
    else
      var rest := NonEmptyRows(lines[1..]);
      assert forall j :: 1 <= j < |lines| ==> lines[j] == lines[1..][j - 1];
      if lines[0] == "" then rest else [ReadRow(lines[0])] + rest
  }

  lemma {:induction false} NonEmptyRowsAppend(a: seq<string>, b: seq<string>)
    ensures NonEmptyRows(a + b) == NonEmptyRows(a) + NonEmptyRows(b)
    decreases |a|
  {
    if a != [] {
      assert (a + b)[1..] == a[1..] + b;
      NonEmptyRowsAppend(a[1..], b);
    } else {
      assert a + b == b;
    }
  }

  /**
   * The rows left after `next(reader)`: the first non-empty row is thrown away
   * unread. `None` when there is no such row, where `next` raises
   * StopIteration.
   */
  function RowsAfterHeader(lines: seq<string>): (r: Option<seq<seq<string>>>)
    ensures r.None? <==> forall j :: 0 <= j < |lines| ==> lines[j] == ""
    ensures r.Some? ==> forall j :: 0 <= j < |r.value| ==> r.value[j] != []
  {
    var rows := NonEmptyRows(lines);
    if rows == [] then None else Some(rows[1..])
  }

  /**
   * After any number of empty lines, the first non-empty line is discarded
   * whatever it holds; every later line is a candidate row.
   */
  lemma HeaderDiscarded(blanks: seq<string>, header: string, rest: seq<string>)
    requires forall j :: 0 <= j < |blanks| ==> blanks[j] == ""
    requires header != ""
    ensures RowsAfterHeader(blanks + [header] + rest) == Some(NonEmptyRows(rest))
  {
    NonEmptyRowsAppend(blanks, [header] + rest);
    NonEmptyRowsAppend([header], rest);
    assert blanks + [header] + rest == blanks + ([header] + rest);
    assert [header][1..] == [];
    assert NonEmptyRows([header]) == [ReadRow(header)];
    assert NonEmptyRows(blanks) == [];
    var rows := NonEmptyRows(blanks + [header] + rest);
    assert rows == [ReadRow(header)] + NonEmptyRows(rest);
    assert rows[1..] == NonEmptyRows(rest);
  }
}
