/** The export side of the CSV manager plugin: one label group written through the plugin's
    label exporter, and optionally every tag the dataset uses written as a one-hot tag file. A
    written file is the list of its lines; the operator's result maps each path it writes to
    those lines. */
module DatasetExport {
  import opened Wrappers
  import opened Text
  import opened Codec
  import opened Samples
  import opened LabelImporter
  import opened LabelExporter
  import opened DatasetImport

  // ----- labels ------------------------------------------------------------------------------

  /** Every sample carries a Classifications in the group. */
  predicate Labelled(samples: seq<Sample>, group: string)
  {
    forall i :: 0 <= i < |samples| ==> FieldOf(samples[i], group).Classifications?
  }

  /** The rows the label exporter records, one per sample in collection order. */
  function LabelRows(classes: seq<string>, samples: seq<Sample>, group: string): seq<Row>
    requires Labelled(samples, group)
  {
    seq(|samples|, i requires 0 <= i < |samples| => ExportRow(classes, samples[i].filepath, FieldOf(samples[i], group).labels))
  }

  /** The labels file of a group: header "FileName" and the group's classes sorted, then one row
      per sample; a sample without the group's Classifications makes the export fail. */
  function LabelsFile(samples: seq<Sample>, group: string, classes: seq<string>): Result<seq<string>>
  {
    if Labelled(samples, group) then Ok(FileLines("FileName", SortStrings(classes), LabelRows(SortStrings(classes), samples, group)))
    else Err(NotClassifications(group))
  }

  /** The sample loop of the export: `export_sample` for every sample, stopping at the first one
      without the group's Classifications. */
  method ExportSamples(exporter: CsvLabelsExporter, samples: seq<Sample>, group: string) returns (ok: bool)
    requires exporter.rows == Some([])
    modifies exporter
    ensures ok == Labelled(samples, group)
    ensures ok ==> exporter.rows == Some(LabelRows(exporter.defaultClasses, samples, group))
  {
    var i := 0;
    assert LabelRows(exporter.defaultClasses, samples[..0], group) == [];
    while i < |samples|
      invariant 0 <= i <= |samples|
      invariant Labelled(samples[..i], group)
      invariant exporter.rows == Some(LabelRows(exporter.defaultClasses, samples[..i], group))
    {
      var field := FieldOf(samples[i], group);
      if field.Null? {
        return false;
      }
      exporter.ExportSample(samples[i].filepath, field.labels);
      assert LabelRows(exporter.defaultClasses, samples[..i + 1], group) ==
             LabelRows(exporter.defaultClasses, samples[..i], group) + [ExportRow(exporter.defaultClasses, samples[i].filepath, field.labels)];
      i := i + 1;
    }
    assert samples[..i] == samples;
    return true;
  }

  /** `ctx.dataset.export(dataset_exporter=csv_exporter)`: setup, one `export_sample` per sample,
      then close. */
  method ExportLabels(ds: Dataset, group: string, classes: seq<string>) returns (r: Result<seq<string>>)
    ensures r == LabelsFile(ds.samples, group, classes)
  {
    var exporter := new CsvLabelsExporter.Plugin(classes);
    exporter.Setup();
    var ok := ExportSamples(exporter, ds.samples, group);
    if !ok {
      return Err(NotClassifications(group));
    }
    var lines := exporter.Close();
    return Ok(lines);
  }

  /** Sorting keeps the number of classes and their being free of commas. */
  lemma SortedCommaFree(classes: seq<string>)
    requires CommaFree(classes)
    ensures |SortStrings(classes)| == |classes| && CommaFree(SortStrings(classes))
  {
    var sorted := SortStrings(classes);
    assert |multiset(sorted)| == |multiset(classes)|;
    forall i | 0 <= i < |sorted| ensures ',' !in sorted[i] {
      assert sorted[i] in multiset(classes);
    }
  }

  lemma LabelRowsWritable(classes: seq<string>, samples: seq<Sample>, group: string)
    requires Labelled(samples, group) && |classes| > 0 && CommaFree(classes)
    requires forall i :: 0 <= i < |samples| ==> ',' !in RowKey(samples[i].filepath)
    ensures Writable(classes, LabelRows(classes, samples, group))
  {
    var rows := LabelRows(classes, samples, group);
    forall i | 0 <= i < |rows| ensures ',' !in rows[i].key && |rows[i].cells| == |classes| && CommaFree(rows[i].cells) {
      EncodeRowCommaFree(classes, FieldOf(samples[i], group).labels);
    }
  }

  /** An exported labels file parses back to its header and rows. */
  lemma LabelsFileParses(samples: seq<Sample>, group: string, classes: seq<string>, path: string)
    requires Labelled(samples, group) && |classes| > 0 && CommaFree(classes)
    requires forall i :: 0 <= i < |samples| ==> ',' !in RowKey(samples[i].filepath)
    ensures ReadCsv(map[path := LabelsFile(samples, group, classes).value], path) ==
            Ok(Table(["FileName"] + SortStrings(classes), RowsOf(LabelRows(SortStrings(classes), samples, group))))
  {
    SortedCommaFree(classes);
    LabelRowsParse(SortStrings(classes), samples, group, path);
  }

  lemma LabelRowsParse(columns: seq<string>, samples: seq<Sample>, group: string, path: string)
    requires Labelled(samples, group) && |columns| > 0 && CommaFree(columns)
    requires forall i :: 0 <= i < |samples| ==> ',' !in RowKey(samples[i].filepath)
    ensures ReadCsv(map[path := FileLines("FileName", columns, LabelRows(columns, samples, group))], path) ==
            Ok(Table(["FileName"] + columns, RowsOf(LabelRows(columns, samples, group))))
  {
    LabelRowsWritable(columns, samples, group);
    ExportThenParse(path, "FileName", columns, LabelRows(columns, samples, group));
  }

  /** The importer's entries for the rows of exported samples. */
  lemma LabelRowsEntries(sorted: seq<string>, samples: seq<Sample>, group: string, dir: string, probe: Probe)
    requires Labelled(samples, group)
    requires forall i :: 0 <= i < |samples| ==> !IsOne(RowKey(samples[i].filepath))
    requires forall i :: 0 <= i < |samples| ==> probe(JoinPath(dir, RowKey(samples[i].filepath))).Some?
    ensures var entries := Entries(Table(["FileName"] + sorted, RowsOf(LabelRows(sorted, samples, group))), "FileName", dir, probe);
            entries.Ok? && |entries.value| == |samples| &&
            forall i :: 0 <= i < |samples| ==>
              var imagePath := JoinPath(dir, RowKey(samples[i].filepath));
              entries.value[i] == Entry(imagePath, probe(imagePath).value, Present(sorted, FieldOf(samples[i], group).labels))
  {
    var rows := LabelRows(sorted, samples, group);
    var t := Table(["FileName"] + sorted, RowsOf(rows));
    assert ColumnIndex(t.header, "FileName") == Some(0);
    forall i | 0 <= i < |samples|
      ensures RowPath(dir, t.rows[i], 0) == JoinPath(dir, RowKey(samples[i].filepath))
      ensures RowLabels(t.header, t.rows[i]) == Present(sorted, FieldOf(samples[i], group).labels)
    {
      assert t.rows[i] == [rows[i].key] + rows[i].cells;
      EncodeDecodeRow("FileName", RowKey(samples[i].filepath), sorted, FieldOf(samples[i], group).labels);
    }
    EntriesOfSucceeds(t.header, t.rows, 0, dir, probe);
  }

  /** Reading an exported labels file back with the plugin importer gives every sample again, in
      order: its image under the dataset directory, keyed by its file name, with exactly the labels
      it carried that are in the class list, in sorted class order. Class names, file names and the
      class list must be CSV-safe (no commas, at least one class) and no file name may be "1". */
  lemma ExportThenImportLabels(samples: seq<Sample>, group: string, classes: seq<string>, path: string, dir: string, probe: Probe)
    requires Labelled(samples, group) && |classes| > 0 && CommaFree(classes)
    requires forall i :: 0 <= i < |samples| ==> ',' !in RowKey(samples[i].filepath) && !IsOne(RowKey(samples[i].filepath))
    requires forall i :: 0 <= i < |samples| ==> probe(JoinPath(dir, RowKey(samples[i].filepath))).Some?
    ensures ReadCsv(map[path := LabelsFile(samples, group, classes).value], path).Ok?
    ensures var lines := LabelsFile(samples, group, classes).value;
            var entries := Entries(ReadCsv(map[path := lines], path).value, "FileName", dir, probe);
            entries.Ok? && |entries.value| == |samples| &&
            forall i :: 0 <= i < |samples| ==>
              var imagePath := JoinPath(dir, RowKey(samples[i].filepath));
              entries.value[i] == Entry(imagePath, probe(imagePath).value, Present(SortStrings(classes), FieldOf(samples[i], group).labels))
  {
    LabelsFileParses(samples, group, classes, path);
    LabelRowsEntries(SortStrings(classes), samples, group, dir, probe);
  }

  // ----- tags --------------------------------------------------------------------------------

  /** Every sample's tags, concatenated in collection order. */
  function TagPool(samples: seq<Sample>): seq<string>
  {
    if samples == [] then [] else TagPool(samples[..|samples| - 1]) + samples[|samples| - 1].tags
  }

  /** A tag is in the pool exactly when some sample carries it. */
  lemma {:induction false} TagPoolMembers(samples: seq<Sample>, tag: string)
    ensures tag in TagPool(samples) <==> exists i :: 0 <= i < |samples| && tag in samples[i].tags
  {
    if samples != [] {
      var init := samples[..|samples| - 1];
      TagPoolMembers(init, tag);
      assert forall i :: 0 <= i < |init| ==> init[i] == samples[i];
    }
  }

  /** `list(set(items))`: the same items, each once (Python leaves the order unspecified). */
  method Distinct(items: seq<string>) returns (r: seq<string>)
    ensures NoDuplicates(r)
    ensures forall x :: x in r <==> x in items
  {
    r := [];
    for i := 0 to |items|
      invariant NoDuplicates(r)
      invariant forall x :: x in r <==> x in items[..i]
    {
      assert items[..i + 1] == items[..i] + [items[i]];
      if items[i] !in r {
        r := r + [items[i]];
      }
    }
    assert items[..|items|] == items;
  }

  /** `_get_all_tags(dataset)`: every tag some sample carries, each once. */
  method GetAllTags(ds: Dataset) returns (tags: seq<string>)
    ensures NoDuplicates(tags)
    ensures forall t :: t in tags <==> t in TagPool(ds.samples)
  {
    var pool := [];
    var samples := ds.samples;
    for i := 0 to |samples|
      invariant pool == TagPool(samples[..i])
    {
      assert samples[..i + 1][..i] == samples[..i];
      pool := pool + samples[i].tags;
    }
    assert samples[..|samples|] == samples;
    tags := Distinct(pool);
  }

  /** The rows of the tag file: each sample's file name and a 0/1 cell per tag column. */
  function TagRows(samples: seq<Sample>, tags: seq<string>): seq<Row>
  {
    seq(|samples|, i requires 0 <= i < |samples| => Row(PathName(samples[i].filepath), EncodeRow(tags, samples[i].tags)))
  }

  /** `_export_csv_tags(dataset, default_tags, csv_tags_path)`: the lines it writes. */
  method ExportCsvTags(ds: Dataset, defaultTags: seq<string>) returns (lines: seq<string>)
    ensures lines == FileLines("FileName", defaultTags, TagRows(ds.samples, defaultTags))
  {
    var samples := ds.samples;
    lines := [CsvLine("FileName", defaultTags)];
    for i := 0 to |samples|
      invariant lines == FileLines("FileName", defaultTags, TagRows(samples[..i], defaultTags))
    {
      var row := EncodeTags(defaultTags, samples[i].tags);
      assert TagRows(samples[..i + 1], defaultTags) == TagRows(samples[..i], defaultTags) + [Row(PathName(samples[i].filepath), row)];
      lines := lines + [CsvLine(PathName(samples[i].filepath), row)];
    }
    assert samples[..|samples|] == samples;
  }

  /** The row comprehension of `_export_csv_tags`. */
  method EncodeTags(defaultTags: seq<string>, tags: seq<string>) returns (cells: seq<string>)
    ensures cells == EncodeRow(defaultTags, tags)
  {
    cells := [];
    for i := 0 to |defaultTags|
      invariant cells == EncodeRow(defaultTags[..i], tags)
    {
      cells := cells + [if defaultTags[i] in tags then "1" else "0"];
    }
    assert defaultTags[..|defaultTags|] == defaultTags;
  }

  lemma TagRowsWritable(samples: seq<Sample>, tags: seq<string>)
    requires |tags| > 0 && CommaFree(tags)
    requires forall i :: 0 <= i < |samples| ==> ',' !in PathName(samples[i].filepath)
    ensures Writable(tags, TagRows(samples, tags))
  {
    var rows := TagRows(samples, tags);
    forall i | 0 <= i < |rows| ensures ',' !in rows[i].key && |rows[i].cells| == |tags| && CommaFree(rows[i].cells) {
      EncodeRowCommaFree(tags, samples[i].tags);
    }
  }

  /** The first row keyed by a name that only one row has is that row. */
  lemma {:induction false} FirstRowOfUnique(rows: seq<seq<string>>, i: nat, name: string)
    requires i < |rows| && Cell(rows[i], 0) == name
    requires forall j :: 0 <= j < |rows| && j != i ==> Cell(rows[j], 0) != name
    ensures FirstRowWith(rows, 0, name) == Some(rows[i])
  {
    FirstRowWithSpec(rows, 0, name);
    var k :| 0 <= k < |rows| && rows[k] == FirstRowWith(rows, 0, name).value && Cell(rows[k], 0) == name &&
             forall j :: 0 <= j < k ==> Cell(rows[j], 0) != name;
    assert k == i;
  }

  /** The parsed cells of tag row `i`: the sample's file name, then its 0/1 cells. */
  lemma TagCells(samples: seq<Sample>, tags: seq<string>, i: nat)
    requires i < |samples|
    ensures |RowsOf(TagRows(samples, tags))| == |samples|
    ensures RowsOf(TagRows(samples, tags))[i] == [PathName(samples[i].filepath)] + EncodeRow(tags, samples[i].tags)
  {
    var rows := TagRows(samples, tags);
    assert rows[i] == Row(PathName(samples[i].filepath), EncodeRow(tags, samples[i].tags));
  }

  /** With distinct file names, the tag row found for a sample is its own, and it adds the tags
      its original carried that are columns. */
  lemma TagRowOfSample(samples: seq<Sample>, target: Sample, tags: seq<string>, i: nat)
    requires i < |samples| && target.filepath == samples[i].filepath && |tags| > 0
    requires forall i, j :: 0 <= i < j < |samples| ==> PathName(samples[i].filepath) != PathName(samples[j].filepath)
    ensures TaggedSample(target, Table(["FileName"] + tags, RowsOf(TagRows(samples, tags))), 0) ==
            Some(target.(tags := target.tags + Present(tags, samples[i].tags)))
  {
    var cells := RowsOf(TagRows(samples, tags));
    var name := PathName(target.filepath);
    TagCells(samples, tags, i);
    forall j | 0 <= j < |cells| && j != i ensures Cell(cells[j], 0) != name {
      TagCells(samples, tags, j);
    }
    FirstRowOfUnique(cells, i, name);
    assert RowTags(["FileName"] + tags, cells[i]) == Present(tags, samples[i].tags) by {
      EncodeDecodeCells(tags, samples[i].tags);
      assert Tail(["FileName"] + tags) == tags;
      assert Tail(cells[i]) == EncodeRow(tags, samples[i].tags);
    }
  }

  /** Every target finds its own row in the exported tag file, which adds the tags its original
      carried that are columns. */
  lemma TagRowsOfTargets(samples: seq<Sample>, targets: seq<Sample>, tags: seq<string>, tagged: seq<Sample>)
    requires |targets| == |samples| == |tagged| && |tags| > 0
    requires forall i :: 0 <= i < |samples| ==> targets[i].filepath == samples[i].filepath
    requires forall i, j :: 0 <= i < j < |samples| ==> PathName(samples[i].filepath) != PathName(samples[j].filepath)
    requires forall i :: 0 <= i < |tagged| ==> tagged[i] == targets[i].(tags := targets[i].tags + Present(tags, samples[i].tags))
    ensures forall i :: 0 <= i < |targets| ==>
              TaggedSample(targets[i], Table(["FileName"] + tags, RowsOf(TagRows(samples, tags))), 0) == Some(tagged[i])
  {
    forall i | 0 <= i < |targets|
      ensures TaggedSample(targets[i], Table(["FileName"] + tags, RowsOf(TagRows(samples, tags))), 0) == Some(tagged[i])
    {
      TagRowOfSample(samples, targets[i], tags, i);
    }
  }

  lemma TagFileParses(samples: seq<Sample>, tags: seq<string>, path: string)
    requires |tags| > 0 && CommaFree(tags)
    requires forall i :: 0 <= i < |samples| ==> ',' !in PathName(samples[i].filepath)
    ensures ReadCsv(map[path := FileLines("FileName", tags, TagRows(samples, tags))], path) ==
            Ok(Table(["FileName"] + tags, RowsOf(TagRows(samples, tags))))
  {
    TagRowsWritable(samples, tags);
    ExportThenParse(path, "FileName", tags, TagRows(samples, tags));
  }

  /** Importing an exported tag file tags the samples by its table, keyed by its first column. */
  lemma TagFileRead(samples: seq<Sample>, targets: seq<Sample>, tags: seq<string>, path: string)
    requires |tags| > 0 && CommaFree(tags)
    requires forall i :: 0 <= i < |samples| ==> ',' !in PathName(samples[i].filepath)
    ensures var t := Table(["FileName"] + tags, RowsOf(TagRows(samples, tags)));
            TagsImported(targets, map[path := FileLines("FileName", tags, TagRows(samples, tags))], path) == TagsUpTo(targets, t, |targets|) &&
            ColumnIndex(t.header, "FileName") == Some(0)
  {
    TagFileParses(samples, tags, path);
  }

  /** Importing an exported tag file onto samples with the same paths adds to each exactly the
      tags its original carried that are tag columns, in column order, and succeeds for all of
      them. File names must be distinct and CSV-safe, and the tag columns CSV-safe and not empty. */
  lemma ExportThenImportTags(samples: seq<Sample>, targets: seq<Sample>, tags: seq<string>, path: string)
    requires |targets| == |samples| && |tags| > 0 && CommaFree(tags)
    requires forall i :: 0 <= i < |samples| ==> targets[i].filepath == samples[i].filepath && ',' !in PathName(samples[i].filepath)
    requires forall i, j :: 0 <= i < j < |samples| ==> PathName(samples[i].filepath) != PathName(samples[j].filepath)
    ensures var o := TagsImported(targets, map[path := FileLines("FileName", tags, TagRows(samples, tags))], path);
            o.Ok() && |o.samples| == |targets| &&
            forall i :: 0 <= i < |targets| ==> o.samples[i] == targets[i].(tags := targets[i].tags + Present(tags, samples[i].tags))
  {
    var t := Table(["FileName"] + tags, RowsOf(TagRows(samples, tags)));
    TagFileRead(samples, targets, tags, path);
    var tagged := seq(|targets|, i requires 0 <= i < |targets| => targets[i].(tags := targets[i].tags + Present(tags, samples[i].tags)));
    TagRowsOfTargets(samples, targets, tags, tagged);
    TagsAllTagged(targets, t, 0, tagged);
  }

  // ----- the export operator -----------------------------------------------------------------

  /** `os.path.join(folder, f"{stamp}_{dataset}_{group}_labels.csv")`. */
  function LabelsPath(folder: string, stamp: string, datasetName: string, group: string): string
  {
    JoinPath(folder, stamp + "_" + datasetName + "_" + group + "_labels.csv")
  }

  /** `os.path.join(folder, stamp + "_tags.csv")`. */
  function TagsPath(folder: string, stamp: string): string
  {
    JoinPath(folder, stamp + "_tags.csv")
  }

  /** `ExportDataset.execute`: nothing without a group or a folder; otherwise a labels file named
      after the group and holding its class list as columns, and when tags are requested and some
      sample has one, the tag file with every tag once as a column (`tagColumns`, in the order the
      operator chose). The operator passes no `label_field`, so the labels written are those of
      `exported`, the field FiftyOne's `dataset.export` hands the exporter: the first
      Classifications field of the dataset's schema, which need not be `group`. `stamp` is the
      time of the export, formatted "%Y%m%d_%H%M%S". */
  method ExportDataset(ds: Dataset, datasetName: string, group: string, exported: string, folder: string, exportTags: bool, stamp: string)
    returns (r: Result<map<string, seq<string>>>, tagColumns: seq<string>)
    ensures group == [] || folder == [] ==> r == Ok(map[])
    ensures group != [] && folder != [] && group !in ds.classes ==> r == Err(UnknownGroup(group))
    ensures group != [] && folder != [] && group in ds.classes && LabelsFile(ds.samples, exported, ds.classes[group]).Err? ==>
              r == Err(LabelsFile(ds.samples, exported, ds.classes[group]).error)
    ensures group != [] && folder != [] && group in ds.classes && LabelsFile(ds.samples, exported, ds.classes[group]).Ok? ==>
              var labels := map[LabelsPath(folder, stamp, datasetName, group) := LabelsFile(ds.samples, exported, ds.classes[group]).value];
              if exportTags then
                && NoDuplicates(tagColumns)
                && (forall t :: t in tagColumns <==> t in TagPool(ds.samples))
                && r == Ok(if tagColumns == [] then labels
                           else labels[TagsPath(folder, stamp) := FileLines("FileName", tagColumns, TagRows(ds.samples, tagColumns))])
              else r == Ok(labels)
  {
    tagColumns := [];
    if group == [] || folder == [] {
      return Ok(map[]), tagColumns;
    }
    if group !in ds.classes {
      return Err(UnknownGroup(group)), tagColumns;
    }
    var labels := ExportLabels(ds, exported, ds.classes[group]);
    if labels.Err? {
      return Err(labels.error), tagColumns;
    }
    var written := map[LabelsPath(folder, stamp, datasetName, group) := labels.value];
    if !exportTags {
      return Ok(written), tagColumns;
    }
    tagColumns := GetAllTags(ds);
    if tagColumns == [] {
      return Ok(written), tagColumns;
    }
    var lines := ExportCsvTags(ds, tagColumns);
    return Ok(written[TagsPath(folder, stamp) := lines]), tagColumns;
  }
}
