/** One-hot label matrices: reading a label CSV as the importers see it, the labels a row
    marks, and the row and header lines the exporters write. A CSV file is its list of lines
    (without line terminators); a cell is the text between two commas. */
module Codec {
  import opened Wrappers
  import opened Text

  /** A CSV read into its header cells and its data rows. */
  datatype Table = Table(header: seq<string>, rows: seq<seq<string>>)

  /** The data lines of a CSV, split into cells; blank lines are skipped as pandas does. */
  function DataRows(lines: seq<string>): (rows: seq<seq<string>>)
    ensures |rows| <= |lines|
  {
    if lines == [] then []
    else (if lines[0] == "" then [] else [Split(lines[0], ',')]) + DataRows(lines[1..])
  }

  predicate RowsFit(header: seq<string>, rows: seq<seq<string>>)
  {
    forall i :: 0 <= i < |rows| ==> |rows[i]| <= |header|
  }

  /** `pandas.read_csv(path)`: blank lines are skipped, those before the header too; the first
      other line is the header. A file with no other line, and a row with more cells than the
      header, are errors. */
  function ParseCsv(path: string, lines: seq<string>): (r: Result<Table>)
    ensures lines == [] ==> r == Err(EmptyCsv(path))
    ensures |lines| > 0 && lines[0] != "" ==>
              (r.Ok? <==> RowsFit(Split(lines[0], ','), DataRows(lines[1..])))
    ensures |lines| > 0 && lines[0] != "" && r.Ok? ==> r.value == Table(Split(lines[0], ','), DataRows(lines[1..]))
    ensures |lines| > 0 && lines[0] != "" && r.Err? ==> r.error == MalformedRow(path)
  {
    if |lines| == 0 then Err(EmptyCsv(path))
    else if lines[0] == "" then ParseCsv(path, lines[1..])
    else
      var header := Split(lines[0], ',');
      var rows := DataRows(lines[1..]);
      if RowsFit(header, rows) then Ok(Table(header, rows)) else Err(MalformedRow(path))
  }

  /** A file of blank lines only reads as an empty file (pandas' EmptyDataError). */
  lemma {:induction false} ParseBlankOnly(path: string, lines: seq<string>)
    requires forall i :: 0 <= i < |lines| ==> lines[i] == ""
    ensures ParseCsv(path, lines) == Err(EmptyCsv(path))
  {
    if lines != [] {
      assert forall i :: 0 <= i < |lines[1..]| ==> lines[1..][i] == lines[i + 1];
      ParseBlankOnly(path, lines[1..]);
    }
  }

  /** Blank lines before the header change nothing. */
  lemma {:induction false} ParseSkipsLeadingBlanks(path: string, blanks: seq<string>, lines: seq<string>)
    requires forall i :: 0 <= i < |blanks| ==> blanks[i] == ""
    ensures ParseCsv(path, blanks + lines) == ParseCsv(path, lines)
  {
    if blanks != [] {
      var all := blanks + lines;
      assert all[0] == "" && all[1..] == blanks[1..] + lines;
      ParseSkipsLeadingBlanks(path, blanks[1..], lines);
    } else {
      assert blanks + lines == lines;
    }
  }

  /** Reads the CSV stored at `path`; a path with no file raises FileNotFoundError. */
  function ReadCsv(files: map<string, seq<string>>, path: string): (r: Result<Table>)
    ensures path !in files ==> r == Err(MissingFile(path))
    ensures path in files ==> r == ParseCsv(path, files[path])
  {
    if path in files then ParseCsv(path, files[path]) else Err(MissingFile(path))
  }

  /** The value in column `c`; a short row reads as missing (NaN) past its end. */
  function Cell(row: seq<string>, c: nat): string
  {
    if c < |row| then row[c] else ""
  }

  /** `cell == 1` for a cell of a one-hot column. */
  predicate IsOne(cell: string)
  {
    cell == "1"
  }

  /** The first column named `name`, the one `row[name]` reads. */
  function ColumnIndex(header: seq<string>, name: string): (r: Option<nat>)
    ensures r.Some? ==> r.value < |header| && header[r.value] == name
    ensures r.Some? ==> forall j :: 0 <= j < r.value ==> header[j] != name
    ensures r.None? <==> name !in header
  {
    if header == [] then None
    else if header[0] == name then Some(0)
    else match ColumnIndex(header[1..], name)
      case None => None
      case Some(k) => Some(k + 1)
  }

  /** The names of the first `n` columns whose cell in `row` is 1, in column order. */
  function MarkedUpTo(header: seq<string>, row: seq<string>, n: nat): seq<string>
    requires n <= |header|
  {
    if n == 0 then []
    else MarkedUpTo(header, row, n - 1) + (if IsOne(Cell(row, n - 1)) then [header[n - 1]] else [])
  }

  /** The labels a row marks: the column names whose cell is 1, in column order. Every
      column takes part, the key column too. */
  function RowLabels(header: seq<string>, row: seq<string>): seq<string>
  {
    MarkedUpTo(header, row, |header|)
  }

  lemma {:induction false} MarkedUpToMembers(header: seq<string>, row: seq<string>, n: nat, l: string)
    requires n <= |header|
    ensures l in MarkedUpTo(header, row, n) <==> exists c :: 0 <= c < n && header[c] == l && IsOne(Cell(row, c))
    ensures |MarkedUpTo(header, row, n)| <= n
  {
    if n > 0 {
      MarkedUpToMembers(header, row, n - 1, l);
    }
  }

  /** A label is in a row's labels exactly when some column of that name holds 1. */
  lemma RowLabelsMembers(header: seq<string>, row: seq<string>, l: string)
    ensures l in RowLabels(header, row) <==> exists c :: 0 <= c < |header| && header[c] == l && IsOne(Cell(row, c))
    ensures |RowLabels(header, row)| <= |header|
  {
    MarkedUpToMembers(header, row, |header|, l);
  }

  /** The column loop of the importers: for every column whose cell is 1, append its name. */
  method DecodeRowLabels(header: seq<string>, row: seq<string>) returns (labels: seq<string>)
    ensures labels == RowLabels(header, row)
  {
    labels := [];
    var c := 0;
    while c < |header|
      invariant 0 <= c <= |header|
      invariant labels == MarkedUpTo(header, row, c)
    {
      if IsOne(Cell(row, c)) {
        labels := labels + [header[c]];
      }
      c := c + 1;
    }
  }

  // ----- encoding ----------------------------------------------------------------------

  /** The one-hot cells of a sample against an ordered class list. */
  function EncodeRow(classes: seq<string>, labels: seq<string>): (cells: seq<string>)
    ensures |cells| == |classes|
    ensures forall i :: 0 <= i < |classes| ==> (cells[i] == "1" <==> classes[i] in labels)
    ensures forall i :: 0 <= i < |classes| ==> (cells[i] == "0" <==> classes[i] !in labels)
  {
    seq(|classes|, i requires 0 <= i < |classes| => if classes[i] in labels then "1" else "0")
  }

  /** The classes a label list hits, in class-list order. */
  function Present(classes: seq<string>, labels: seq<string>): seq<string>
  {
    if classes == [] then []
    else Present(classes[..|classes| - 1], labels)
         + (if classes[|classes| - 1] in labels then [classes[|classes| - 1]] else [])
  }

  /** A CSV line: a key followed by its cells, comma-separated. Also the shape of the header. */
  function CsvLine(key: string, cells: seq<string>): string
  {
    key + "," + Join(cells, ",")
  }

  predicate CommaFree(parts: seq<string>)
  {
    forall i :: 0 <= i < |parts| ==> ',' !in parts[i]
  }

  /** Splitting a written line gives its key and cells back. */
  lemma SplitCsvLine(key: string, cells: seq<string>)
    requires ',' !in key && |cells| >= 1 && CommaFree(cells)
    ensures Split(CsvLine(key, cells), ',') == [key] + cells
  {
    SplitJoin(cells, ',');
    SplitAfterPiece(key, ',', Join(cells, ","));
    assert CsvLine(key, cells) == key + [','] + Join(cells, ",");
  }

  lemma EncodeRowCommaFree(classes: seq<string>, labels: seq<string>)
    ensures CommaFree(EncodeRow(classes, labels))
  {
    var cells := EncodeRow(classes, labels);
    forall i | 0 <= i < |cells| ensures ',' !in cells[i] {
      assert cells[i] == "1" || cells[i] == "0";
    }
  }

  lemma {:induction false} MarkedUpToEncoded(keyName: string, key: string, classes: seq<string>, labels: seq<string>, n: nat)
    requires !IsOne(key) && 1 <= n <= |classes| + 1
    ensures MarkedUpTo([keyName] + classes, [key] + EncodeRow(classes, labels), n) == Present(classes[..n - 1], labels)
  {
    var header := [keyName] + classes;
    var row := [key] + EncodeRow(classes, labels);
    if n == 1 {
      assert MarkedUpTo(header, row, 0) == [];
      assert classes[..0] == [];
    } else {
      MarkedUpToEncoded(keyName, key, classes, labels, n - 1);
      assert classes[..n - 1][..n - 2] == classes[..n - 2];
      assert header[n - 1] == classes[n - 2];
      assert Cell(row, n - 1) == EncodeRow(classes, labels)[n - 2];
    }
  }

  /** Decoding an encoded row gives back exactly the sample's labels that are in the class list,
      in class-list order, provided the key cell is not itself a 1. */
  lemma EncodeDecodeRow(keyName: string, key: string, classes: seq<string>, labels: seq<string>)
    requires !IsOne(key)
    ensures RowLabels([keyName] + classes, [key] + EncodeRow(classes, labels)) == Present(classes, labels)
  {
    MarkedUpToEncoded(keyName, key, classes, labels, |classes| + 1);
    assert classes[..|classes|] == classes;
  }

  lemma {:induction false} MarkedUpToCells(classes: seq<string>, labels: seq<string>, n: nat)
    requires n <= |classes|
    ensures MarkedUpTo(classes, EncodeRow(classes, labels), n) == Present(classes[..n], labels)
  {
    if n == 0 {
      assert classes[..0] == [];
    } else {
      MarkedUpToCells(classes, labels, n - 1);
      assert classes[..n][..n - 1] == classes[..n - 1];
    }
  }

  /** Decoding the cells alone gives back the labels that are in the class list, in class-list order. */
  lemma EncodeDecodeCells(classes: seq<string>, labels: seq<string>)
    ensures RowLabels(classes, EncodeRow(classes, labels)) == Present(classes, labels)
  {
    MarkedUpToCells(classes, labels, |classes|);
    assert classes[..|classes|] == classes;
  }

  lemma {:induction false} PresentMembers(classes: seq<string>, labels: seq<string>, l: string)
    ensures l in Present(classes, labels) <==> l in classes && l in labels
  {
    if classes != [] {
      var init := classes[..|classes| - 1];
      PresentMembers(init, labels, l);
      assert classes == init + [classes[|classes| - 1]];
    }
  }
}
