/** The CSV label importers (`CSVLabelsDatasetImporter` of the CSV manager plugin and
    `CSVImageClassificationDatasetImporter` of utils): `setup` turns every CSV row into the image
    path, its probed metadata and the labels the row marks, or fails as a whole. */
module LabelImporter {
  import opened Wrappers
  import opened Text
  import opened Codec
  import opened Samples

  /** One imported row: the image path, its metadata and its labels (the Classification entries). */
  datatype Entry = Entry(path: string, metadata: Metadata, labels: seq<string>)

  /** `os.path.getsize` followed by `cv2.imread(...).shape`: None when either raises or the
      image cannot be decoded into height, width and channels. */
  type Probe = string -> Option<Metadata>

  /** The image a row names: the dataset directory joined with the row's key cell. */
  function RowPath(dir: string, row: seq<string>, k: nat): string
  {
    JoinPath(dir, Cell(row, k))
  }

  /** The entries for `rows`, in row order; the first row whose image cannot be probed fails the lot. */
  function EntriesOf(header: seq<string>, rows: seq<seq<string>>, k: nat, dir: string, probe: Probe): Result<seq<Entry>>
  {
    if rows == [] then Ok([])
    else
      match EntriesOf(header, rows[..|rows| - 1], k, dir, probe)
      case Err(e) => Err(e)
      case Ok(es) =>
        var row := rows[|rows| - 1];
        var path := RowPath(dir, row, k);
        match probe(path)
        case None => Err(UnreadableImage(path))
        case Some(md) => Ok(es + [Entry(path, md, RowLabels(header, row))])
  }

  /** What `setup` computes from a table: a missing key column raises at the first row. */
  function Entries(t: Table, keyColumn: string, dir: string, probe: Probe): Result<seq<Entry>>
  {
    match ColumnIndex(t.header, keyColumn)
    case None => if t.rows == [] then Ok([]) else Err(MissingColumn(keyColumn))
    case Some(k) => EntriesOf(t.header, t.rows, k, dir, probe)
  }

  /** Setup succeeds exactly when every row's image can be probed; it then gives one entry per
      row, in row order, each with the joined path, the probed metadata and the row's labels. */
  lemma {:induction false} EntriesOfSucceeds(header: seq<string>, rows: seq<seq<string>>, k: nat, dir: string, probe: Probe)
    ensures EntriesOf(header, rows, k, dir, probe).Ok? <==>
            forall i :: 0 <= i < |rows| ==> probe(RowPath(dir, rows[i], k)).Some?
    ensures EntriesOf(header, rows, k, dir, probe).Ok? ==>
            var es := EntriesOf(header, rows, k, dir, probe).value;
            |es| == |rows| &&
            forall i :: 0 <= i < |rows| ==>
              es[i] == Entry(RowPath(dir, rows[i], k), probe(RowPath(dir, rows[i], k)).value, RowLabels(header, rows[i]))
  {
    if rows != [] {
      var init := rows[..|rows| - 1];
      EntriesOfSucceeds(header, init, k, dir, probe);
      assert forall i :: 0 <= i < |init| ==> init[i] == rows[i];
    }
  }

  /** A failing setup names the image of the first row that cannot be probed. */
  lemma {:induction false} EntriesOfFails(header: seq<string>, rows: seq<seq<string>>, k: nat, dir: string, probe: Probe)
    requires EntriesOf(header, rows, k, dir, probe).Err?
    ensures exists i :: 0 <= i < |rows| && probe(RowPath(dir, rows[i], k)).None? &&
                        (forall j :: 0 <= j < i ==> probe(RowPath(dir, rows[j], k)).Some?) &&
                        EntriesOf(header, rows, k, dir, probe).error == UnreadableImage(RowPath(dir, rows[i], k))
  {
    var init := rows[..|rows| - 1];
    assert forall i :: 0 <= i < |init| ==> init[i] == rows[i];
    if EntriesOf(header, init, k, dir, probe).Err? {
      EntriesOfFails(header, init, k, dir, probe);
      var i :| 0 <= i < |init| && probe(RowPath(dir, init[i], k)).None? &&
               (forall j :: 0 <= j < i ==> probe(RowPath(dir, init[j], k)).Some?) &&
               EntriesOf(header, init, k, dir, probe).error == UnreadableImage(RowPath(dir, init[i], k));
      assert rows[i] == init[i];
    } else {
      EntriesOfSucceeds(header, init, k, dir, probe);
      assert probe(RowPath(dir, rows[|rows| - 1], k)).None?;
    }
  }

  /** Once a prefix of the rows fails, the whole import fails with the same error. */
  lemma {:induction false} EntriesOfFailedPrefix(header: seq<string>, rows: seq<seq<string>>, n: nat, k: nat, dir: string, probe: Probe)
    requires n <= |rows| && EntriesOf(header, rows[..n], k, dir, probe).Err?
    ensures EntriesOf(header, rows, k, dir, probe) == EntriesOf(header, rows[..n], k, dir, probe)
    decreases |rows| - n
  {
    if n < |rows| {
      assert rows[..n + 1][..n] == rows[..n];
      EntriesOfFailedPrefix(header, rows, n + 1, k, dir, probe);
    } else {
      assert rows[..n] == rows;
    }
  }

  /** One more readable row adds its entry at the end. */
  lemma EntriesOfNext(header: seq<string>, rows: seq<seq<string>>, i: nat, k: nat, dir: string, probe: Probe)
    requires i < |rows| && EntriesOf(header, rows[..i], k, dir, probe).Ok? && probe(RowPath(dir, rows[i], k)).Some?
    ensures EntriesOf(header, rows[..i + 1], k, dir, probe) ==
            Ok(EntriesOf(header, rows[..i], k, dir, probe).value + [Entry(RowPath(dir, rows[i], k), probe(RowPath(dir, rows[i], k)).value, RowLabels(header, rows[i]))])
  {
    assert rows[..i + 1][..i] == rows[..i];
  }

  /** The row loop of `setup`. */
  method DecodeEntries(t: Table, keyColumn: string, dir: string, probe: Probe) returns (r: Result<seq<Entry>>)
    ensures r == Entries(t, keyColumn, dir, probe)
  {
    var labels: seq<Entry> := [];
    var i := 0;
    while i < |t.rows|
      invariant 0 <= i <= |t.rows|
      invariant i == 0 ==> labels == []
      invariant i > 0 ==> ColumnIndex(t.header, keyColumn).Some?
      invariant i > 0 ==> EntriesOf(t.header, t.rows[..i], ColumnIndex(t.header, keyColumn).value, dir, probe) == Ok(labels)
    {
      var key := ColumnIndex(t.header, keyColumn);
      if key.None? {
        return Err(MissingColumn(keyColumn));
      }
      var next := DecodeEntry(t, key.value, dir, probe, i, labels);
      if next.Err? {
        return next;
      }
      labels := next.value;
      i := i + 1;
    }
    assert t.rows[..i] == t.rows;
    return Ok(labels);
  }

  /** One pass of the row loop: the entry of row `i` appended, or the error that ends `setup`. */
  method DecodeEntry(t: Table, k: nat, dir: string, probe: Probe, i: nat, labels: seq<Entry>) returns (next: Result<seq<Entry>>)
    requires i < |t.rows| && EntriesOf(t.header, t.rows[..i], k, dir, probe) == Ok(labels)
    ensures next.Ok? ==> EntriesOf(t.header, t.rows[..i + 1], k, dir, probe) == next
    ensures next.Err? ==> EntriesOf(t.header, t.rows, k, dir, probe) == next
  {
    var row := t.rows[i];
    var path := RowPath(dir, row, k);
    var md := probe(path);
    if md.None? {
      assert t.rows[..i + 1][..i] == t.rows[..i];
      EntriesOfFailedPrefix(t.header, t.rows, i + 1, k, dir, probe);
      return Err(UnreadableImage(path));
    }
    EntriesOfNext(t.header, t.rows, i, k, dir, probe);
    var annotations := DecodeRowLabels(t.header, row);
    return Ok(labels + [Entry(path, md.value, annotations)]);
  }

  /** The key column of the utils importer: "FileName" for the new layout, else "OriginalFileName". */
  function KeyColumn(isNewArchi: bool): (column: string)
    ensures isNewArchi <==> column == "FileName"
    ensures !isNewArchi <==> column == "OriginalFileName"
  {
    if isNewArchi then "FileName" else "OriginalFileName"
  }

  /** The importer object: its dataset directory, its key column, and the entries `setup` stored. */
  class CsvLabelsImporter {
    const datasetDir: string
    const keyColumn: string
    var labels: Option<seq<Entry>>

    /** `CSVLabelsDatasetImporter(dataset_dir, csv_labels)`: rows are keyed by "FileName". */
    constructor Plugin(datasetDir: string)
      ensures this.datasetDir == datasetDir && keyColumn == "FileName" && labels == None
    {
      this.datasetDir := datasetDir;
      keyColumn := "FileName";
      labels := None;
    }

    /** `CSVImageClassificationDatasetImporter(dataset_dir, csv_labels, isNewArchi=...)`. */
    constructor Utils(datasetDir: string, isNewArchi: bool)
      ensures this.datasetDir == datasetDir && keyColumn == KeyColumn(isNewArchi) && labels == None
    {
      this.datasetDir := datasetDir;
      keyColumn := KeyColumn(isNewArchi);
      labels := None;
    }

    /** `setup()`: reads the CSV at `csvPath` and stores one entry per row; on any error
        nothing is stored. */
    method Setup(files: map<string, seq<string>>, csvPath: string, probe: Probe) returns (r: Result<seq<Entry>>)
      modifies this
      ensures r == (match ReadCsv(files, csvPath)
                    case Err(e) => Err(e)
                    case Ok(t) => Entries(t, keyColumn, datasetDir, probe))
      ensures labels == (if r.Ok? then Some(r.value) else old(labels))
    {
      var table := ReadCsv(files, csvPath);
      if table.Err? {
        return Err(table.error);
      }
      r := DecodeEntries(table.value, keyColumn, datasetDir, probe);
      if r.Ok? {
        labels := Some(r.value);
      }
    }
  }
}
