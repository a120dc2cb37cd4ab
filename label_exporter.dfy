/** The CSV label exporters (`CSVLabelsDatasetExporter` of the CSV manager plugin and
    `CSVImageClassificationDatasetExporter` of utils): `setup` clears the accumulated rows,
    `export_sample` appends a sample's key and one-hot cells, `close` writes the header and one
    line per accumulated row. */
module LabelExporter {
  import opened Wrappers
  import opened Text
  import opened Codec

  /** One accumulated row: the file key and its one-hot cells. */
  datatype Row = Row(key: string, cells: seq<string>)

  /** The lines written for the accumulated rows, one per row, in order. */
  function BodyLines(rows: seq<Row>): (lines: seq<string>)
    ensures |lines| == |rows|
    ensures forall i :: 0 <= i < |rows| ==> lines[i] == CsvLine(rows[i].key, rows[i].cells)
  {
    if rows == [] then []
    else BodyLines(rows[..|rows| - 1]) + [CsvLine(rows[|rows| - 1].key, rows[|rows| - 1].cells)]
  }

  /** The whole file: the header line, then the body. */
  function FileLines(keyName: string, classes: seq<string>, rows: seq<Row>): seq<string>
  {
    [CsvLine(keyName, classes)] + BodyLines(rows)
  }

  /** The row `export_sample` records for an image path and its labels. */
  function ExportRow(classes: seq<string>, path: string, labels: seq<string>): Row
  {
    Row(RowKey(path), EncodeRow(classes, labels))
  }

  /** A written file has the header "<key>,<classes joined by ','>" and, for every exported
      sample in order, the line "<basename>,<0/1 cells joined by ','>" with "1" exactly for the
      classes the sample carries. */
  lemma ExportedFileShape(keyName: string, classes: seq<string>, paths: seq<string>, labels: seq<seq<string>>)
    requires |paths| == |labels|
    ensures var lines := FileLines(keyName, classes, seq(|paths|, i requires 0 <= i < |paths| => ExportRow(classes, paths[i], labels[i])));
            |lines| == |paths| + 1 &&
            lines[0] == keyName + "," + Join(classes, ",") &&
            forall i :: 0 <= i < |paths| ==>
              lines[i + 1] == RowKey(paths[i]) + "," + Join(EncodeRow(classes, labels[i]), ",")
  {
    var rows := seq(|paths|, i requires 0 <= i < |paths| => ExportRow(classes, paths[i], labels[i]));
    var body := BodyLines(rows);
    assert FileLines(keyName, classes, rows)[1..] == body;
    forall i | 0 <= i < |paths|
      ensures body[i] == RowKey(paths[i]) + "," + Join(EncodeRow(classes, labels[i]), ",")
    {
      assert rows[i] == ExportRow(classes, paths[i], labels[i]);
    }
  }

  lemma {:induction false} DataRowsAppend(a: seq<string>, b: seq<string>)
    ensures DataRows(a + b) == DataRows(a) + DataRows(b)
  {
    if a != [] {
      DataRowsAppend(a[1..], b);
      assert (a + b)[1..] == a[1..] + b;
    } else {
      assert a + b == b;
    }
  }

  /** The table that reading a written file back gives. */
  function RowsOf(rows: seq<Row>): (cells: seq<seq<string>>)
    ensures |cells| == |rows|
    ensures forall i :: 0 <= i < |rows| ==> cells[i] == [rows[i].key] + rows[i].cells
  {
    if rows == [] then [] else RowsOf(rows[..|rows| - 1]) + [[rows[|rows| - 1].key] + rows[|rows| - 1].cells]
  }

  predicate Writable(classes: seq<string>, rows: seq<Row>)
  {
    && |classes| > 0 && CommaFree(classes)
    && forall i :: 0 <= i < |rows| ==> ',' !in rows[i].key && |rows[i].cells| == |classes| && CommaFree(rows[i].cells)
  }

  lemma {:induction false} BodyParses(classes: seq<string>, rows: seq<Row>)
    requires Writable(classes, rows)
    ensures DataRows(BodyLines(rows)) == RowsOf(rows)
  {
    if rows != [] {
      var init := rows[..|rows| - 1];
      var last := rows[|rows| - 1];
      assert Writable(classes, init) by {
        forall i | 0 <= i < |init| ensures ',' !in init[i].key && |init[i].cells| == |classes| && CommaFree(init[i].cells) {
          assert init[i] == rows[i];
        }
      }
      BodyParses(classes, init);
      DataRowsAppend(BodyLines(init), [CsvLine(last.key, last.cells)]);
      SplitCsvLine(last.key, last.cells);
      assert CsvLine(last.key, last.cells) != "";
      assert DataRows([CsvLine(last.key, last.cells)]) == [[last.key] + last.cells];
    }
  }

  /** Reading a written file back (header split on commas, one row per body line) gives the
      key column and the classes as header, and every row's key and cells, as long as no class
      name, key or cell holds a comma. */
  lemma ExportThenParse(path: string, keyName: string, classes: seq<string>, rows: seq<Row>)
    requires ',' !in keyName && Writable(classes, rows)
    ensures ParseCsv(path, FileLines(keyName, classes, rows)) == Ok(Table([keyName] + classes, RowsOf(rows)))
  {
    var lines := FileLines(keyName, classes, rows);
    SplitCsvLine(keyName, classes);
    assert lines[1..] == BodyLines(rows);
    BodyParses(classes, rows);
  }

  /** The exporter object: the key column's header name, the class columns, and the rows
      accumulated since `setup` (None before the first `setup`). */
  class CsvLabelsExporter {
    const keyName: string
    const defaultClasses: seq<string>
    var rows: Option<seq<Row>>

    /** `CSVLabelsDatasetExporter(export_dir, file_name, default_classes)`: the columns are the
        class list sorted, under a "FileName" key column. */
    constructor Plugin(classes: seq<string>)
      ensures keyName == "FileName" && defaultClasses == SortStrings(classes) && rows == None
    {
      keyName := "FileName";
      defaultClasses := SortStrings(classes);
      rows := None;
    }

    /** `CSVImageClassificationDatasetExporter(export_dir, dataset_name, default_classes)`: the
        columns are the class list as given, under a "Filename" key column. */
    constructor Utils(classes: seq<string>)
      ensures keyName == "Filename" && defaultClasses == classes && rows == None
    {
      keyName := "Filename";
      defaultClasses := classes;
      rows := None;
    }

    /** `setup()`: starts a new file with no rows. */
    method Setup()
      modifies this
      ensures rows == Some([])
    {
      rows := Some([]);
    }

    /** `export_sample(image_or_path, label)`: records the sample's key and one-hot cells. */
    method ExportSample(path: string, labels: seq<string>)
      requires rows.Some?
      modifies this
      ensures rows == Some(old(rows.value) + [ExportRow(defaultClasses, path, labels)])
    {
      var cells := [];
      var i := 0;
      while i < |defaultClasses|
        invariant 0 <= i <= |defaultClasses|
        invariant cells == EncodeRow(defaultClasses[..i], labels)
      {
        cells := cells + [if defaultClasses[i] in labels then "1" else "0"];
        i := i + 1;
      }
      assert defaultClasses[..i] == defaultClasses;
      var key := if '/' in path then AfterLast(path, '/') else AfterLast(path, '\\');
      rows := Some(rows.value + [Row(key, cells)]);
    }

    /** `close()`: the lines of the file, header first, then one line per recorded row. */
    method Close() returns (lines: seq<string>)
      requires rows.Some?
      ensures lines == FileLines(keyName, defaultClasses, rows.value)
    {
      var accumulated := rows.value;
      lines := [CsvLine(keyName, defaultClasses)];
      var i := 0;
      while i < |accumulated|
        invariant 0 <= i <= |accumulated|
        invariant lines == FileLines(keyName, defaultClasses, accumulated[..i])
      {
        assert accumulated[..i + 1][..i] == accumulated[..i];
        lines := lines + [CsvLine(accumulated[i].key, accumulated[i].cells)];
        i := i + 1;
      }
      assert accumulated[..i] == accumulated;
    }
  }
}
