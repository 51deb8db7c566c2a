/** The CSV files of cvs.h: rows are appended cell by cell, and read back line by line. */
module Csv {
  import opened Basics

  /** The length of the part of `s` before the first `c`, all of `s` if there is none. */
  function CutLen(s: string, c: char): (n: nat)
    ensures n <= |s| && (n < |s| ==> s[n] == c)
    ensures c !in s[..n]
  {
    if s == [] || s[0] == c then 0
    else
      assert s[..1 + CutLen(s[1..], c)] == [s[0]] + s[1..][..CutLen(s[1..], c)];
      1 + CutLen(s[1..], c)
  }

  /** The cells of a line. */
  function Split(line: string): seq<string>
    decreases |line|
  {
    var n := CutLen(line, ';');
    if n == |line| then [line] else [line[..n]] + Split(line[n + 1..])
  }

  /** The rows of a text; a last line need not end in a newline. */
  function Parse(text: string): seq<seq<string>>
    decreases |text|
  {
    if text == [] then []
    else
      var n := CutLen(text, '\n');
      if n == |text| then [Split(text)] else [Split(text[..n])] + Parse(text[n + 1..])
  }

  function Join(row: seq<string>): string
  {
    if row == [] then "" else if |row| == 1 then row[0] else row[0] + ([';'] + Join(row[1..]))
  }

  function Text(rows: seq<seq<string>>): string
  {
    if rows == [] then "" else Join(rows[0]) + (['\n'] + Text(rows[1..]))
  }

  predicate CleanCell(s: string)
  {
    ';' !in s && '\n' !in s
  }

  ghost predicate CleanRow(row: seq<string>)
  {
    row != [] && forall i :: 0 <= i < |row| ==> CleanCell(row[i])
  }

  ghost predicate CleanRows(rows: seq<seq<string>>)
  {
    forall i :: 0 <= i < |rows| ==> CleanRow(rows[i])
  }

  /** A writer and the contents of its file. */
  class CsvWriter {
    var writeEnabled: bool
    var file: string

    constructor (enabled: bool)
      ensures writeEnabled == enabled && file == ""
    {
      writeEnabled, file := enabled, "";
    }

    /** `addDatainRow`: appends one row, or nothing when writing is switched off. */
    method AddDataInRow(row: seq<string>)
      modifies this`file
      ensures file == if writeEnabled then old(file) + (Join(row) + ['\n']) else old(file)
    {
      if !writeEnabled {
        return;
      }
      var first := 0;
      while first != |row|
        invariant 0 <= first <= |row|
        invariant file + Join(row[first..]) == old(file) + Join(row)
      {
        ghost var before, rest := file, row[first..];
        assert rest[1..] == row[first + 1..];
        file := file + row[first];
        first := first + 1;
        if first != |row| {
          file := file + [';'];
          assert file + Join(row[first..]) == before + Join(rest);
        }
      }
      assert Join(row[|row|..]) == "";
      assert file == old(file) + Join(row);
      file := file + ['\n'];
    }
  }

  /** `line.find(c)`: the first place of `c`, or the length of the line. */
  method Find(line: string, c: char) returns (pos: nat)
    ensures pos == CutLen(line, c)
  {
    pos := 0;
    while pos < |line| && line[pos] != c
      invariant pos <= |line| && CutLen(line, c) == pos + CutLen(line[pos..], c)
    {
      assert line[pos..][1..] == line[pos + 1..];
      pos := pos + 1;
    }
  }

  /** The inner loop of `read_csv`: cuts the line buffer at each separator. */
  method SplitLine(whole: string) returns (cells: seq<string>)
    ensures cells == Split(whole)
  {
    cells := [];
    var line := whole;
    var pos := Find(line, ';');
    while pos < |line|
      invariant pos == CutLen(line, ';') && cells + Split(line) == Split(whole)
      decreases |line|
    {
      Associative(cells, [line[..pos]], Split(line[pos + 1..]));
      cells := cells + [line[..pos]];
      line := line[pos + 1..];
      pos := Find(line, ';');
    }
    cells := cells + [line];
  }

  /** `read_csv`. */
  method ReadCsv(text: string) returns (result: seq<seq<string>>)
    ensures result == Parse(text)
  {
    result := [];
    var rest := text;
    while rest != []
      invariant result + Parse(rest) == Parse(text)
      decreases |rest|
    {
      var pos := Find(rest, '\n');
      var cells;
      if pos < |rest| {
        cells := SplitLine(rest[..pos]);
        Associative(result, [cells], Parse(rest[pos + 1..]));
        rest := rest[pos + 1..];
      } else {
        cells := SplitLine(rest);
        Associative(result, [cells], []);
        rest := [];
      }
      result := result + [cells];
    }
  }

  lemma {:induction false} CutLenOf(a: string, c: char, rest: string)
    requires c !in a
    ensures CutLen(a + ([c] + rest), c) == |a|
    ensures CutLen(a, c) == |a|
  {
    if a != "" {
      assert (a + ([c] + rest))[1..] == a[1..] + ([c] + rest);
      CutLenOf(a[1..], c, rest);
    }
  }

  lemma SplitCons(cell: string, rest: string)
    requires CleanCell(cell)
    ensures Split(cell + ([';'] + rest)) == [cell] + Split(rest)
  {
    CutLenOf(cell, ';', rest);
    var line := cell + ([';'] + rest);
    assert line[..|cell|] == cell && line[|cell| + 1..] == rest;
  }

  lemma {:induction false} SplitJoin(row: seq<string>)
    requires CleanRow(row)
    ensures Split(Join(row)) == row
  {
    if |row| == 1 {
      CutLenOf(row[0], ';', []);
    } else {
      SplitJoin(row[1..]);
      SplitCons(row[0], Join(row[1..]));
    }
  }

  lemma {:induction false} JoinOneLine(row: seq<string>)
    requires CleanRow(row)
    ensures '\n' !in Join(row)
  {
    if |row| > 1 { JoinOneLine(row[1..]); }
  }

  lemma ParseCons(line: string, rest: string)
    requires '\n' !in line
    ensures Parse(line + (['\n'] + rest)) == [Split(line)] + Parse(rest)
  {
    CutLenOf(line, '\n', rest);
    var text := line + (['\n'] + rest);
    assert text[..|line|] == line && text[|line| + 1..] == rest;
  }

  lemma {:induction false} ParseText(rows: seq<seq<string>>)
    requires CleanRows(rows)
    ensures Parse(Text(rows)) == rows
  {
    if rows != [] {
      ParseText(rows[1..]);
      SplitJoin(rows[0]);
      JoinOneLine(rows[0]);
      ParseCons(Join(rows[0]), Text(rows[1..]));
    }
  }

  lemma {:induction false} SplitClean(line: string)
    requires '\n' !in line
    ensures CleanRow(Split(line))
    decreases |line|
  {
    var n := CutLen(line, ';');
    if n == |line| {
      assert line[..n] == line;
    } else {
      assert forall c :: c in line[..n] || c in line[n + 1..] ==> c in line;
      SplitClean(line[n + 1..]);
    }
  }

  lemma {:induction false} ParseClean(text: string)
    ensures CleanRows(Parse(text))
    decreases |text|
  {
    if text != [] {
      var n := CutLen(text, '\n');
      if n == |text| {
        assert text[..n] == text;
        SplitClean(text);
      } else {
        SplitClean(text[..n]);
        ParseClean(text[n + 1..]);
      }
    }
  }

  /** Rows written and read back are the same rows if and only if none is empty and no cell holds a
      separator. */
  lemma RoundTripExactly(rows: seq<seq<string>>)
    ensures Parse(Text(rows)) == rows <==> CleanRows(rows)
  {
    if CleanRows(rows) { ParseText(rows); }
    ParseClean(Text(rows));
  }

  lemma {:induction false} TextSnoc(rows: seq<seq<string>>, row: seq<string>)
    ensures Text(rows + [row]) == Text(rows) + (Join(row) + ['\n'])
  {
    if rows != [] {
      TextSnoc(rows[1..], row);
      assert (rows + [row])[1..] == rows[1..] + [row];
    }
  }

  /** The file of a snapshot: written row by row, read back row by row. */
  method WriteRows(rows: seq<seq<string>>) returns (w: CsvWriter)
    ensures w.writeEnabled && w.file == Text(rows)
    ensures CleanRows(rows) ==> Parse(w.file) == rows
  {
    w := new CsvWriter(true);
    for i := 0 to |rows|
      invariant fresh(w) && w.writeEnabled && w.file == Text(rows[..i])
    {
      w.AddDataInRow(rows[i]);
      TextSnoc(rows[..i], rows[i]);
      assert rows[..i + 1] == rows[..i] + [rows[i]];
    }
    assert rows[..|rows|] == rows;
    RoundTripExactly(rows);
  }

  lemma JoinCons(cell: string, cells: seq<string>)
    requires cells != []
    ensures Join([cell] + cells) == cell + ([';'] + Join(cells))
  {
    assert ([cell] + cells)[1..] == cells;
  }

  ghost predicate NoSemicolon(cells: seq<string>)
  {
    forall i :: 0 <= i < |cells| ==> ';' !in cells[i]
  }

  /** A cut line has at least one cell, no cell holds a separator, and joined by it they are the line. */
  lemma {:induction false} SplitIsCells(line: string)
    ensures Split(line) != [] && NoSemicolon(Split(line)) && Join(Split(line)) == line
    decreases |line|
  {
    var n := CutLen(line, ';');
    if n == |line| {
      assert line[..n] == line;
    } else {
      var cell, rest := line[..n], line[n + 1..];
      SplitIsCells(rest);
      JoinCons(cell, Split(rest));
      assert line == cell + ([';'] + rest);
    }
  }

  /** Joining puts one semicolon between cells, and a file is its joined rows, each ended by a line feed. */
  lemma {:induction false} JoinedByText(a: seq<string>, b: seq<string>, rows: seq<seq<string>>)
    ensures a != [] && b != [] ==> Join(a + b) == Join(a) + ";" + Join(b)
    ensures |a| == 1 ==> Join(a) == a[0]
    ensures Text([a] + rows) == Join(a) + "\n" + Text(rows)
  {
    if |a| > 1 && b != [] {
      JoinedByText(a[1..], b, rows);
      assert (a + b)[1..] == a[1..] + b;
    } else if a != [] && b != [] {
      assert (a + b)[1..] == b;
    }
    assert ([a] + rows)[1..] == rows;
  }
}
