/** The import side of the CSV manager plugin: checking an import request, building the
    dataset from a primary label file through the CSV importer, merging every further label
    group by file name, deriving each sample's date from its file name, recording every group's
    class list from its file's header, and applying the tag file found next to a labels file. */
module DatasetImport {
  import opened Wrappers
  import opened Text
  import opened Codec
  import opened Samples
  import opened LabelImporter

  // ----- checking the request ----------------------------------------------------------

  /** `os.path.splitext(p)[1]`: from the last dot of the last component, provided something
      other than dots comes before it in that component; otherwise empty. */
  function Extension(p: string): (ext: string)
    ensures ext == [] || (ext[0] == '.' && '/' !in ext && '.' !in ext[1..])
  {
    var name := PathName(p);
    if '.' !in name then []
    else
      AfterLastSuffix(name, '.');
      var ext := "." + AfterLast(name, '.');
      var root := name[..|name| - |ext|];
      if NotAllDots(root) then ext else []
  }

  predicate NotAllDots(s: string)
  {
    exists i :: 0 <= i < |s| && s[i] != '.'
  }

  /** A file named "<stem>.csv", with a stem that is not only dots, has the extension ".csv". */
  lemma CsvExtension(dir: string, stem: string)
    requires '/' !in stem && |stem| > 0 && stem[0] != '.'
    ensures Extension(JoinPath(dir, stem + ".csv")) == ".csv"
  {
    var name := stem + ".csv";
    assert '/' !in name;
    JoinPathName(dir, name);
    AfterLastNoSeparator(name, '/');
    ExtensionByName(JoinPath(dir, name), name);
    CsvNameExtension(stem);
  }

  /** The extension depends on the last path component only. */
  lemma ExtensionByName(p: string, q: string)
    requires PathName(p) == PathName(q)
    ensures Extension(p) == Extension(q)
  {
  }

  lemma CsvNameExtension(stem: string)
    requires '/' !in stem && |stem| > 0 && stem[0] != '.'
    ensures Extension(stem + ".csv") == ".csv"
  {
    var name := stem + ".csv";
    assert name == stem + ['.'] + "csv";
    AfterLastOfSuffix(stem, '.', "csv");
    AfterLastNoSeparator(name, '/');
    assert PathName(name) == name;
    assert name[|stem|] == '.';
    var root := name[..|name| - 4];
    assert root == stem;
    assert NotAllDots(root) by {
      assert root[0] != '.';
    }
  }

  /** Why an import request is not ready to run. */
  datatype Readiness =
    | Ready
    | Incomplete                 // no directory, no label files, or a name or path left empty
    | NotCsv(path: string)       // a labels path whose extension is not ".csv"
    | SameName                   // two label groups share a name
    | NoLabelsFile               // tags requested, but no labels path contains "_labels.csv"
    | NoTagsFile(path: string)   // tags requested, but the matching tags file does not exist

  /** The first labels path containing "_labels.csv": the file the tag file is looked up for. */
  function LabelsFileForTags(paths: seq<string>): (r: Option<string>)
    ensures r.Some? ==> r.value in paths && Contains(r.value, "_labels.csv")
    ensures r.None? <==> forall i :: 0 <= i < |paths| ==> !Contains(paths[i], "_labels.csv")
    ensures r.Some? ==> exists i :: 0 <= i < |paths| && paths[i] == r.value &&
                          forall j :: 0 <= j < i ==> !Contains(paths[j], "_labels.csv")
  {
    if paths == [] then None
    else if Contains(paths[0], "_labels.csv") then Some(paths[0])
    else
      var r := LabelsFileForTags(paths[1..]);
      assert forall i :: 0 <= i < |paths[1..]| ==> paths[1..][i] == paths[i + 1];
      r
  }

  /** `lb_file.replace("_labels.csv", "_tags.csv")`. */
  function TagsPathFor(labelsPath: string): string
  {
    ReplaceAll(labelsPath, "_labels.csv", "_tags.csv")
  }

  /** A labels file named by the convention has its tags file beside it:
      "<stem>_labels.csv" becomes "<stem>_tags.csv" when the stem holds no "_labels.csv". */
  lemma TagsBesideLabels(stem: string)
    requires forall i :: 0 <= i < |stem| ==> !StartsWith((stem + "_labels.csv")[i..], "_labels.csv")
    ensures TagsPathFor(stem + "_labels.csv") == stem + "_tags.csv"
  {
    ReplaceTrailing(stem, "_labels.csv", "_tags.csv");
  }

  predicate AllCsv(paths: seq<string>)
  {
    forall i :: 0 <= i < |paths| ==> Extension(paths[i]) == ".csv"
  }

  /** The checks `resolve_input` makes before an import may run. Names and paths are None while
      the form is incomplete; `existing` is the set of paths that exist. */
  function CheckImport(directory: string, names: seq<Option<string>>, paths: seq<Option<string>>,
                       importTags: bool, existing: set<string>): Readiness
    requires |names| == |paths|
  {
    if directory == [] || names == [] then Incomplete
    else if (exists i :: 0 <= i < |names| && names[i].None?) || (exists i :: 0 <= i < |paths| && paths[i].None?) then Incomplete
    else
      var ps := seq(|paths|, i requires 0 <= i < |paths| => paths[i].value);
      var ns := seq(|names|, i requires 0 <= i < |names| => names[i].value);
      match FirstNotCsv(ps)
      case Some(p) => NotCsv(p)
      case None =>
        if !NoDuplicates(ns) then SameName
        else if !importTags then Ready
        else match LabelsFileForTags(ps)
          case None => NoLabelsFile
          case Some(lb) => if TagsPathFor(lb) in existing then Ready else NoTagsFile(TagsPathFor(lb))
  }

  /** The first path whose extension is not ".csv". */
  function FirstNotCsv(paths: seq<string>): (r: Option<string>)
    ensures r.None? <==> AllCsv(paths)
    ensures r.Some? ==> r.value in paths && Extension(r.value) != ".csv"
  {
    if paths == [] then None
    else if Extension(paths[0]) != ".csv" then Some(paths[0])
    else
      var r := FirstNotCsv(paths[1..]);
      assert forall i :: 0 <= i < |paths[1..]| ==> paths[1..][i] == paths[i + 1];
      r
  }

  /** A request passes the checks exactly when everything is filled in, every path is a CSV,
      the names are distinct and, when tags are wanted, the tags file of the first labels file
      exists. */
  lemma CheckImportReady(directory: string, names: seq<string>, paths: seq<string>, importTags: bool, existing: set<string>)
    requires |names| == |paths|
    ensures var someNames := seq(|names|, i requires 0 <= i < |names| => Some(names[i]));
            var somePaths := seq(|paths|, i requires 0 <= i < |paths| => Some(paths[i]));
            CheckImport(directory, someNames, somePaths, importTags, existing) == Ready <==>
              && directory != [] && names != [] && AllCsv(paths) && NoDuplicates(names)
              && (importTags ==> LabelsFileForTags(paths).Some? && TagsPathFor(LabelsFileForTags(paths).value) in existing)
  {
    var someNames := seq(|names|, i requires 0 <= i < |names| => Some(names[i]));
    var somePaths := seq(|paths|, i requires 0 <= i < |paths| => Some(paths[i]));
    assert !exists i :: 0 <= i < |someNames| && someNames[i].None?;
    assert !exists i :: 0 <= i < |somePaths| && somePaths[i].None?;
    assert seq(|somePaths|, i requires 0 <= i < |somePaths| => somePaths[i].value) == paths;
    assert seq(|someNames|, i requires 0 <= i < |someNames| => someNames[i].value) == names;
    var first := FirstNotCsv(paths);
    assert first.None? <==> AllCsv(paths);
  }

  // ----- the tag file the import uses ----------------------------------------------------

  /** The labels file `execute` picks for the tags: the LAST labels path containing
      "_labels.csv" (its loop has no `break`). */
  function LabelsFileForTagsAsWritten(paths: seq<string>): (r: Option<string>)
    ensures r.None? <==> forall i :: 0 <= i < |paths| ==> !Contains(paths[i], "_labels.csv")
  {
    if paths == [] then None
    else
      var last := paths[|paths| - 1];
      if Contains(last, "_labels.csv") then Some(last)
      else
        var r := LabelsFileForTagsAsWritten(paths[..|paths| - 1]);
        assert forall i :: 0 <= i < |paths| - 1 ==> paths[..|paths| - 1][i] == paths[i];
        r
  }

  /** The operator's choice is one of the given paths, and it follows the convention. */
  lemma {:induction false} LabelsFileForTagsAsWrittenFound(paths: seq<string>)
    ensures var r := LabelsFileForTagsAsWritten(paths);
            r.Some? ==> r.value in paths && Contains(r.value, "_labels.csv")
  {
    if paths != [] && !Contains(paths[|paths| - 1], "_labels.csv") {
      LabelsFileForTagsAsWrittenFound(paths[..|paths| - 1]);
    }
  }

  /** When every labels path that follows the convention is the same file, the request check and
      the operator look for the same tags file: the mismatch needs two such paths. */
  lemma LabelsFileForTagsAgree(paths: seq<string>)
    requires forall i, j ::
               0 <= i < |paths| && 0 <= j < |paths| && Contains(paths[i], "_labels.csv") && Contains(paths[j], "_labels.csv")
               ==> paths[i] == paths[j]
    ensures LabelsFileForTags(paths) == LabelsFileForTagsAsWritten(paths)
  {
    LabelsFileForTagsAsWrittenFound(paths);
  }

  lemma ContainsSuffix(stem: string, suffix: string)
    requires |suffix| > 0
    ensures Contains(stem + suffix, suffix)
    decreases |stem|
  {
    if stem == [] {
      assert (stem + suffix)[..|suffix|] == suffix;
    } else {
      assert (stem + suffix)[1..] == stem[1..] + suffix;
      ContainsSuffix(stem[1..], suffix);
    }
  }

  /** With two conventional labels files "<a>_labels.csv" and "<b>_labels.csv", the request check
      looks for the tags of the first while the import reads the tags of the second: "<a>_tags.csv"
      can exist and pass the check while "<b>_tags.csv" is missing, and the tags are then silently
      not imported. */
  lemma TagsFileMismatch(a: string, b: string)
    ensures LabelsFileForTags([a + "_labels.csv", b + "_labels.csv"]) == Some(a + "_labels.csv")
    ensures LabelsFileForTagsAsWritten([a + "_labels.csv", b + "_labels.csv"]) == Some(b + "_labels.csv")
  {
    ContainsSuffix(a, "_labels.csv");
    ContainsSuffix(b, "_labels.csv");
  }

  /** The tags file an import applies: only when tags are requested, some labels path follows
      the convention, and the matching tags file exists. */
  function TagsFileFor(files: map<string, seq<string>>, paths: seq<string>, importTags: bool): Option<string>
  {
    if !importTags then None
    else match LabelsFileForTags(paths)
      case None => None
      case Some(lb) => if TagsPathFor(lb) in files then Some(TagsPathFor(lb)) else None
  }

  // ----- dates -----------------------------------------------------------------------------

  /** The part of the file name before its first "_". */
  function DateToken(filepath: string): string
  {
    Split(PathName(filepath), '_')[0]
  }

  /** `int(token[0:4])`, `int(token[4:6])`, `int(token[6:8])` on the date token. */
  function DateOf(filepath: string): Result<Date>
  {
    var token := DateToken(filepath);
    var year := ParseInt(Slice(token, 0, 4));
    var month := ParseInt(Slice(token, 4, 6));
    var day := ParseInt(Slice(token, 6, 8));
    if year.Some? && month.Some? && day.Some? then Ok(Date(year.value, month.value, day.value))
    else Err(BadDate(PathName(filepath)))
  }

  lemma ParseDigits(n: nat, width: nat)
    requires n < Pow10(width) && width > 0
    ensures ParseInt(Digits(n, width)) == Some(n)
  {
    DigitsRoundTrip(n, width);
  }

  /** A file named "<YYYY><MM><DD>_<rest>" in any directory carries that date. */
  lemma DateOfStamped(dir: string, year: nat, month: nat, day: nat, rest: string)
    requires year < 10000 && month < 100 && day < 100 && '/' !in rest
    ensures DateOf(JoinPath(dir, Digits(year, 4) + Digits(month, 2) + Digits(day, 2) + "_" + rest)) == Ok(Date(year, month, day))
  {
    var y, m, d := Digits(year, 4), Digits(month, 2), Digits(day, 2);
    StampedToken(dir, y + m + d, rest);
    var token := y + m + d;
    assert Slice(token, 0, 4) == y;
    assert Slice(token, 4, 6) == m;
    assert Slice(token, 6, 8) == d;
    assert Pow10(2) == 100 && Pow10(4) == 10000;
    ParseDigits(year, 4);
    ParseDigits(month, 2);
    ParseDigits(day, 2);
  }

  /** The token of "<digits>_<rest>" is the digits. */
  lemma StampedToken(dir: string, stamp: string, rest: string)
    requires AllDigits(stamp) && '/' !in rest
    ensures DateToken(JoinPath(dir, stamp + "_" + rest)) == stamp
  {
    assert '_' !in stamp && '/' !in stamp by {
      forall i | 0 <= i < |stamp| ensures stamp[i] != '_' && stamp[i] != '/' {
        assert IsDigit(stamp[i]);
      }
    }
    var name := stamp + "_" + rest;
    assert '/' !in name;
    JoinPathName(dir, name);
    assert name == stamp + ['_'] + rest;
    SplitAfterPiece(stamp, '_', rest);
  }

  /** A seven-digit token is accepted: the day is its last digit alone, because slicing past
      the end of a string shortens the slice instead of failing. */
  lemma DateOfSevenDigits(dir: string, year: nat, month: nat, day: nat, rest: string)
    requires year < 10000 && month < 100 && day < 10 && '/' !in rest
    ensures DateOf(JoinPath(dir, Digits(year, 4) + Digits(month, 2) + Digits(day, 1) + "_" + rest)) == Ok(Date(year, month, day))
  {
    var y, m, d := Digits(year, 4), Digits(month, 2), Digits(day, 1);
    StampedToken(dir, y + m + d, rest);
    var token := y + m + d;
    assert Slice(token, 0, 4) == y;
    assert Slice(token, 4, 6) == m;
    assert Slice(token, 6, 8) == d;
    assert Pow10(1) == 10 && Pow10(2) == 100 && Pow10(4) == 10000;
    ParseDigits(year, 4);
    ParseDigits(month, 2);
    ParseDigits(day, 1);
  }

  /** A token of at most six characters has no day and fails. */
  lemma ShortTokenFails(filepath: string)
    requires |DateToken(filepath)| <= 6
    ensures DateOf(filepath) == Err(BadDate(PathName(filepath)))
  {
    assert Slice(DateToken(filepath), 6, 8) == [];
  }

  /** A file name with no '_' that starts with neither a digit nor a sign, such as
      "img001.jpg", has no year and fails. */
  lemma UndatedNameFails(dir: string, name: string)
    requires |name| > 0 && '/' !in name && '_' !in name
    requires !IsDigit(name[0]) && name[0] != '+' && name[0] != '-'
    ensures DateOf(JoinPath(dir, name)) == Err(BadDate(name))
  {
    var path := JoinPath(dir, name);
    BareNameToken(dir, name);
    NoLeadingDigit(name);
    YearUnparsable(path);
  }

  /** A bare file name without '_' is its own date token. */
  lemma BareNameToken(dir: string, name: string)
    requires '/' !in name && '_' !in name
    ensures PathName(JoinPath(dir, name)) == name && DateToken(JoinPath(dir, name)) == name
  {
    JoinPathName(dir, name);
    SplitNoSeparator(name, '_');
  }

  /** A token starting with neither a digit nor a sign has no integer in its first four
      characters. */
  lemma NoLeadingDigit(token: string)
    requires |token| > 0 && !IsDigit(token[0]) && token[0] != '+' && token[0] != '-'
    ensures ParseInt(Slice(token, 0, 4)).None?
  {
    var year := Slice(token, 0, 4);
    assert year[0] == token[0];
  }

  /** A date token whose first four characters are no integer makes the whole date fail. */
  lemma YearUnparsable(filepath: string)
    requires ParseInt(Slice(DateToken(filepath), 0, 4)).None?
    ensures DateOf(filepath) == Err(BadDate(PathName(filepath)))
  {
  }

  // ----- merging further label groups ----------------------------------------------------

  /** `labels_for_file`: each key cell mapped to the labels of the LAST row with that key. */
  function LabelsByKey(header: seq<string>, rows: seq<seq<string>>): map<string, seq<string>>
  {
    if rows == [] then map[]
    else
      var last := rows[|rows| - 1];
      LabelsByKey(header, rows[..|rows| - 1])[Cell(last, 0) := RowLabels(header, last)]
  }

  /** A key is looked up exactly when some row has it, and it gives the labels of the last such row. */
  lemma {:induction false} LabelsByKeyLookup(header: seq<string>, rows: seq<seq<string>>, key: string)
    ensures key in LabelsByKey(header, rows) <==> exists i :: 0 <= i < |rows| && Cell(rows[i], 0) == key
    ensures key in LabelsByKey(header, rows) ==>
              exists i :: 0 <= i < |rows| && Cell(rows[i], 0) == key &&
                          LabelsByKey(header, rows)[key] == RowLabels(header, rows[i]) &&
                          forall j :: i < j < |rows| ==> Cell(rows[j], 0) != key
  {
    if rows != [] {
      var init := rows[..|rows| - 1];
      LabelsByKeyLookup(header, init, key);
      assert forall i :: 0 <= i < |init| ==> init[i] == rows[i];
      if Cell(rows[|rows| - 1], 0) != key && key in LabelsByKey(header, init) {
        var i :| 0 <= i < |init| && Cell(init[i], 0) == key &&
                 LabelsByKey(header, init)[key] == RowLabels(header, init[i]) &&
                 forall j :: i < j < |init| ==> Cell(init[j], 0) != key;
        assert forall j :: i < j < |rows| ==> Cell(rows[j], 0) != key;
      }
    }
  }

  /** The row loop of the merge: `labels_for_file[row.iloc[0]] = [labels the row marks]`. */
  method BuildLabelsForFile(t: Table) returns (m: map<string, seq<string>>)
    ensures m == LabelsByKey(t.header, t.rows)
  {
    m := map[];
    for i := 0 to |t.rows|
      invariant m == LabelsByKey(t.header, t.rows[..i])
    {
      var row := t.rows[i];
      var labels := DecodeRowLabels(t.header, row);
      assert t.rows[..i + 1][..i] == t.rows[..i];
      m := m[Cell(row, 0) := labels];
    }
    assert t.rows[..|t.rows|] == t.rows;
  }

  /** A sample after the merge of one group: the labels recorded under its file name, or none. */
  function Merged(s: Sample, group: string, m: map<string, seq<string>>): Sample
  {
    var name := PathName(s.filepath);
    WithField(s, group, Classifications(if name in m then m[name] else []))
  }

  function MergedAll(samples: seq<Sample>, group: string, m: map<string, seq<string>>): seq<Sample>
  {
    seq(|samples|, i requires 0 <= i < |samples| => Merged(samples[i], group, m))
  }

  /** After merging a label file, a sample's group holds the labels of the last row keyed by
      its file name, or no labels when no row is, and its other groups are unchanged. */
  lemma MergedFromFile(s: Sample, group: string, header: seq<string>, rows: seq<seq<string>>)
    ensures var t := Merged(s, group, LabelsByKey(header, rows));
            SameSample(t, s) && forall g :: g != group ==> FieldOf(t, g) == FieldOf(s, g)
    ensures var f := FieldOf(Merged(s, group, LabelsByKey(header, rows)), group);
            (f == Classifications([]) && forall i :: 0 <= i < |rows| ==> Cell(rows[i], 0) != PathName(s.filepath)) ||
            (exists i :: 0 <= i < |rows| && Cell(rows[i], 0) == PathName(s.filepath) &&
                         f == Classifications(RowLabels(header, rows[i])) &&
                         forall j :: i < j < |rows| ==> Cell(rows[j], 0) != PathName(s.filepath))
  {
    LabelsByKeyLookup(header, rows, PathName(s.filepath));
  }

  /** The sample loop of the merge: every sample's group field is replaced. */
  method MergeLabels(ds: Dataset, group: string, m: map<string, seq<string>>)
    modifies ds
    ensures ds.classes == old(ds.classes)
    ensures ds.samples == MergedAll(old(ds.samples), group, m)
  {
    var i := 0;
    while i < |ds.samples|
      invariant 0 <= i <= |ds.samples| == |old(ds.samples)|
      invariant ds.classes == old(ds.classes)
      invariant forall j :: 0 <= j < i ==> ds.samples[j] == Merged(old(ds.samples)[j], group, m)
      invariant forall j :: i <= j < |ds.samples| ==> ds.samples[j] == old(ds.samples)[j]
    {
      ds.samples := ds.samples[i := Merged(ds.samples[i], group, m)];
      i := i + 1;
    }
  }

  // ----- the whole label import --------------------------------------------------------------

  /** The sample `from_importer` creates for an entry, with its labels under the first group. */
  function SampleOf(e: Entry, group: string): Sample
  {
    Sample(e.path, e.metadata, map[group := Classifications(e.labels)], [], None)
  }

  function SamplesOf(es: seq<Entry>, group: string): seq<Sample>
  {
    seq(|es|, i requires 0 <= i < |es| => SampleOf(es[i], group))
  }

  /** The samples of the primary label file, read by the plugin importer. */
  function PrimarySamples(files: map<string, seq<string>>, probe: Probe, dir: string, first: (string, string)): Result<seq<Sample>>
  {
    match ReadCsv(files, first.1)
    case Err(e) => Err(e)
    case Ok(t) =>
      match Entries(t, "FileName", dir, probe)
      case Err(e) => Err(e)
      case Ok(es) => Ok(SamplesOf(es, first.0))
  }

  /** The samples after merging the label files `labelFiles[1..k]`, in order; a file that cannot
      be read stops the import. */
  function MergeFrom(files: map<string, seq<string>>, samples: seq<Sample>, labelFiles: seq<(string, string)>, k: nat): (r: Result<seq<Sample>>)
    requires 1 <= k <= |labelFiles|
    ensures r.Ok? ==> |r.value| == |samples|
  {
    if k == 1 then Ok(samples)
    else
      match MergeFrom(files, samples, labelFiles, k - 1)
      case Err(e) => Err(e)
      case Ok(ss) =>
        match ReadCsv(files, labelFiles[k - 1].1)
        case Err(e) => Err(e)
        case Ok(t) => Ok(MergedAll(ss, labelFiles[k - 1].0, LabelsByKey(t.header, t.rows)))
  }

  /** The samples after dating the first `n` with the file-name date parser `parse` (the import
      passes DateOf); the first sample whose name has no date stops the import. */
  function DatedUpTo(parse: string -> Result<Date>, samples: seq<Sample>, n: nat): (r: Result<seq<Sample>>)
    requires n <= |samples|
    ensures r.Ok? ==> |r.value| == |samples|
  {
    if n == 0 then Ok(samples)
    else
      match DatedUpTo(parse, samples, n - 1)
      case Err(e) => Err(e)
      case Ok(ss) =>
        match parse(samples[n - 1].filepath)
        case Err(e) => Err(e)
        case Ok(d) => Ok(ss[n - 1 := ss[n - 1].(date := Some(d))])
  }

  /** Dating succeeds exactly when every file name carries a date; each sample then gets its
      own date and nothing else changes. */
  lemma {:induction false} DatedUpToResult(parse: string -> Result<Date>, samples: seq<Sample>, n: nat)
    requires n <= |samples|
    ensures DatedUpTo(parse, samples, n).Ok? <==> forall i :: 0 <= i < n ==> parse(samples[i].filepath).Ok?
    ensures DatedUpTo(parse, samples, n).Ok? ==>
              forall i :: 0 <= i < |samples| ==>
                DatedUpTo(parse, samples, n).value[i] ==
                  if i < n then samples[i].(date := Some(parse(samples[i].filepath).value)) else samples[i]
  {
    DatedUpToOk(parse, samples, n);
    forall i | 0 <= i < |samples| && DatedUpTo(parse, samples, n).Ok?
      ensures DatedUpTo(parse, samples, n).value[i] ==
                if i < n then samples[i].(date := Some(parse(samples[i].filepath).value)) else samples[i]
    {
      DatedUpToAt(parse, samples, n, i);
    }
  }

  /** Dating the first `n` succeeds exactly when each of their file names carries a date. */
  lemma DatedUpToOk(parse: string -> Result<Date>, samples: seq<Sample>, n: nat)
    requires n <= |samples|
    ensures DatedUpTo(parse, samples, n).Ok? <==> forall i :: 0 <= i < n ==> parse(samples[i].filepath).Ok?
  {
    if DatedUpTo(parse, samples, n).Ok? {
      forall i | 0 <= i < n ensures parse(samples[i].filepath).Ok? {
        DatedUpToAt(parse, samples, n, i);
      }
    } else if forall i :: 0 <= i < n ==> parse(samples[i].filepath).Ok? {
      DatedUpToSucceeds(parse, samples, n);
    }
  }

  /** When each of the first `n` file names carries a date, dating them succeeds. */
  lemma {:induction false} DatedUpToSucceeds(parse: string -> Result<Date>, samples: seq<Sample>, n: nat)
    requires n <= |samples| && forall i :: 0 <= i < n ==> parse(samples[i].filepath).Ok?
    ensures DatedUpTo(parse, samples, n).Ok?
  {
    if n > 0 {
      DatedUpToSucceeds(parse, samples, n - 1);
      assert parse(samples[n - 1].filepath).Ok?;
    }
  }

  /** After dating the first `n`, sample `i` has its own date if `i < n` and is untouched otherwise. */
  lemma {:induction false} DatedUpToAt(parse: string -> Result<Date>, samples: seq<Sample>, n: nat, i: nat)
    requires n <= |samples| && i < |samples| && DatedUpTo(parse, samples, n).Ok?
    ensures i < n ==> parse(samples[i].filepath).Ok?
    ensures DatedUpTo(parse, samples, n).value[i] ==
              if i < n then samples[i].(date := Some(parse(samples[i].filepath).value)) else samples[i]
  {
    if n > 0 {
      var prev := DatedUpTo(parse, samples, n - 1);
      assert prev.Ok?;
      DatedUpToAt(parse, samples, n - 1, i);
      if i != n - 1 {
        assert DatedUpTo(parse, samples, n).value[i] == prev.value[i];
      } else {
        DatedUpToAt(parse, samples, n - 1, n - 1);
        assert prev.value[n - 1] == samples[n - 1];
      }
    }
  }

  /** The class lists recorded from the first line of the first `n` label files. */
  function ClassesUpTo(files: map<string, seq<string>>, labelFiles: seq<(string, string)>, n: nat): Result<map<string, seq<string>>>
    requires n <= |labelFiles|
  {
    if n == 0 then Ok(map[])
    else
      match ClassesUpTo(files, labelFiles, n - 1)
      case Err(e) => Err(e)
      case Ok(classes) =>
        var (name, path) := labelFiles[n - 1];
        if path !in files then Err(MissingFile(path))
        else if files[path] == [] then Ok(classes)
        else Ok(classes[name := Split(files[path][0], ',')[1..]])
  }

  /** Every group named in a request with distinct names gets the header of its own file, minus
      the key column, as its class list. */
  lemma {:induction false} ClassesUpToResult(files: map<string, seq<string>>, labelFiles: seq<(string, string)>, n: nat)
    requires n <= |labelFiles|
    requires forall i :: 0 <= i < |labelFiles| ==> labelFiles[i].1 in files && files[labelFiles[i].1] != []
    requires forall i, j :: 0 <= i < j < |labelFiles| ==> labelFiles[i].0 != labelFiles[j].0
    ensures ClassesUpTo(files, labelFiles, n).Ok?
    ensures forall i :: 0 <= i < n ==>
              var (name, path) := labelFiles[i];
              name in ClassesUpTo(files, labelFiles, n).value &&
              ClassesUpTo(files, labelFiles, n).value[name] == Split(files[path][0], ',')[1..]
    ensures forall name :: name in ClassesUpTo(files, labelFiles, n).value ==>
              exists i :: 0 <= i < n && labelFiles[i].0 == name
  {
    ClassesUpToOk(files, labelFiles, n);
    forall i | 0 <= i < n
      ensures labelFiles[i].0 in ClassesUpTo(files, labelFiles, n).value &&
              ClassesUpTo(files, labelFiles, n).value[labelFiles[i].0] == Split(files[labelFiles[i].1][0], ',')[1..]
    {
      ClassesUpToAt(files, labelFiles, n, i);
    }
    forall name | name in ClassesUpTo(files, labelFiles, n).value
      ensures exists i :: 0 <= i < n && labelFiles[i].0 == name
    {
      ClassesUpToKeys(files, labelFiles, n, name);
    }
  }

  lemma {:induction false} ClassesUpToOk(files: map<string, seq<string>>, labelFiles: seq<(string, string)>, n: nat)
    requires n <= |labelFiles|
    requires forall i :: 0 <= i < |labelFiles| ==> labelFiles[i].1 in files && files[labelFiles[i].1] != []
    ensures ClassesUpTo(files, labelFiles, n).Ok?
  {
    if n > 0 {
      ClassesUpToOk(files, labelFiles, n - 1);
      assert labelFiles[n - 1].1 in files;
    }
  }

  /** The group of file `i` gets that file's header without the key column. */
  lemma {:induction false} ClassesUpToAt(files: map<string, seq<string>>, labelFiles: seq<(string, string)>, n: nat, i: nat)
    requires i < n <= |labelFiles|
    requires forall i :: 0 <= i < |labelFiles| ==> labelFiles[i].1 in files && files[labelFiles[i].1] != []
    requires forall i, j :: 0 <= i < j < |labelFiles| ==> labelFiles[i].0 != labelFiles[j].0
    ensures ClassesUpTo(files, labelFiles, n).Ok?
    ensures labelFiles[i].0 in ClassesUpTo(files, labelFiles, n).value &&
            ClassesUpTo(files, labelFiles, n).value[labelFiles[i].0] == Split(files[labelFiles[i].1][0], ',')[1..]
  {
    ClassesUpToOk(files, labelFiles, n - 1);
    var path := labelFiles[n - 1].1;
    assert path in files && files[path] != [];
    if i < n - 1 {
      ClassesUpToAt(files, labelFiles, n - 1, i);
      assert labelFiles[i].0 != labelFiles[n - 1].0;
    }
  }

  /** Only the groups of the files read get a class list. */
  lemma {:induction false} ClassesUpToKeys(files: map<string, seq<string>>, labelFiles: seq<(string, string)>, n: nat, name: string)
    requires n <= |labelFiles| && ClassesUpTo(files, labelFiles, n).Ok?
    ensures name in ClassesUpTo(files, labelFiles, n).value ==> exists i :: 0 <= i < n && labelFiles[i].0 == name
  {
    if n > 0 && name in ClassesUpTo(files, labelFiles, n).value && name != labelFiles[n - 1].0 {
      assert ClassesUpTo(files, labelFiles, n - 1).Ok?;
      ClassesUpToKeys(files, labelFiles, n - 1, name);
    }
  }

  /** `_import_labels`: the samples and the class registry it builds, or the first error. */
  function ImportedLabels(files: map<string, seq<string>>, probe: Probe, dir: string, labelFiles: seq<(string, string)>): Result<(seq<Sample>, map<string, seq<string>>)>
    requires |labelFiles| >= 1
  {
    match PrimarySamples(files, probe, dir, labelFiles[0])
    case Err(e) => Err(e)
    case Ok(primary) =>
      match MergeFrom(files, primary, labelFiles, |labelFiles|)
      case Err(e) => Err(e)
      case Ok(merged) =>
        match DatedUpTo(DateOf, merged, |merged|)
        case Err(e) => Err(e)
        case Ok(dated) =>
          match ClassesUpTo(files, labelFiles, |labelFiles|)
          case Err(e) => Err(e)
          case Ok(classes) => Ok((dated, classes))
  }

  /** The labels a label file gives a sample: those of the last row keyed by its file name, or none. */
  function GroupLabels(t: Table, s: Sample): seq<string>
  {
    var m := LabelsByKey(t.header, t.rows);
    if PathName(s.filepath) in m then m[PathName(s.filepath)] else []
  }

  predicate DistinctNames(labelFiles: seq<(string, string)>)
  {
    forall i, j :: 0 <= i < j < |labelFiles| ==> labelFiles[i].0 != labelFiles[j].0
  }

  /** One step of the merge: merging file `k - 1` reads it and merges its table into the samples
      the earlier files left. */
  lemma MergeFromStep(files: map<string, seq<string>>, samples: seq<Sample>, labelFiles: seq<(string, string)>, k: nat)
    requires 1 < k <= |labelFiles| && MergeFrom(files, samples, labelFiles, k).Ok?
    ensures MergeFrom(files, samples, labelFiles, k - 1).Ok? && ReadCsv(files, labelFiles[k - 1].1).Ok?
    ensures var t := ReadCsv(files, labelFiles[k - 1].1).value;
            MergeFrom(files, samples, labelFiles, k).value ==
              MergedAll(MergeFrom(files, samples, labelFiles, k - 1).value, labelFiles[k - 1].0, LabelsByKey(t.header, t.rows))
  {
  }

  /** A successful merge has read every file it merged. */
  lemma {:induction false} MergeFromReads(files: map<string, seq<string>>, samples: seq<Sample>, labelFiles: seq<(string, string)>, k: nat, j: nat)
    requires 1 <= j < k <= |labelFiles| && MergeFrom(files, samples, labelFiles, k).Ok?
    ensures ReadCsv(files, labelFiles[j].1).Ok?
  {
    MergeFromStep(files, samples, labelFiles, k);
    if j < k - 1 {
      MergeFromReads(files, samples, labelFiles, k - 1, j);
    }
  }

  /** The merge keeps each sample's path, metadata, tags and date. */
  lemma {:induction false} MergeFromKeeps(files: map<string, seq<string>>, samples: seq<Sample>, labelFiles: seq<(string, string)>, k: nat, i: nat)
    requires 1 <= k <= |labelFiles| && MergeFrom(files, samples, labelFiles, k).Ok? && i < |samples|
    ensures SameSample(MergeFrom(files, samples, labelFiles, k).value[i], samples[i])
  {
    if k > 1 {
      MergeFromStep(files, samples, labelFiles, k);
      MergeFromKeeps(files, samples, labelFiles, k - 1, i);
      var prev := MergeFrom(files, samples, labelFiles, k - 1).value;
      var t := ReadCsv(files, labelFiles[k - 1].1).value;
      assert MergeFrom(files, samples, labelFiles, k).value[i] == Merged(prev[i], labelFiles[k - 1].0, LabelsByKey(t.header, t.rows));
    }
  }

  /** A group no merged file names keeps its field. */
  lemma {:induction false} MergeFromOther(files: map<string, seq<string>>, samples: seq<Sample>, labelFiles: seq<(string, string)>, k: nat, i: nat, g: string)
    requires 1 <= k <= |labelFiles| && MergeFrom(files, samples, labelFiles, k).Ok? && i < |samples|
    requires forall j :: 1 <= j < k ==> labelFiles[j].0 != g
    ensures FieldOf(MergeFrom(files, samples, labelFiles, k).value[i], g) == FieldOf(samples[i], g)
  {
    if k > 1 {
      MergeFromStep(files, samples, labelFiles, k);
      MergeFromOther(files, samples, labelFiles, k - 1, i, g);
      var prev := MergeFrom(files, samples, labelFiles, k - 1).value;
      var t := ReadCsv(files, labelFiles[k - 1].1).value;
      assert MergeFrom(files, samples, labelFiles, k).value[i] == Merged(prev[i], labelFiles[k - 1].0, LabelsByKey(t.header, t.rows));
      assert labelFiles[k - 1].0 != g;
    }
  }

  /** The group of the last merged file holds what that file gives the sample's file name. */
  lemma MergeFromLast(files: map<string, seq<string>>, samples: seq<Sample>, labelFiles: seq<(string, string)>, k: nat, i: nat)
    requires 1 < k <= |labelFiles| && MergeFrom(files, samples, labelFiles, k).Ok? && i < |samples|
    ensures ReadCsv(files, labelFiles[k - 1].1).Ok?
    ensures FieldOf(MergeFrom(files, samples, labelFiles, k).value[i], labelFiles[k - 1].0) ==
              Classifications(GroupLabels(ReadCsv(files, labelFiles[k - 1].1).value, samples[i]))
  {
    MergeFromStep(files, samples, labelFiles, k);
    MergeFromKeeps(files, samples, labelFiles, k - 1, i);
    var prev := MergeFrom(files, samples, labelFiles, k - 1).value;
    var t := ReadCsv(files, labelFiles[k - 1].1).value;
    assert MergeFrom(files, samples, labelFiles, k).value[i] == Merged(prev[i], labelFiles[k - 1].0, LabelsByKey(t.header, t.rows));
    MergedGroup(prev[i], samples[i], labelFiles[k - 1].0, t);
  }

  /** The group of merged file `j` holds what that file gives the sample's file name; a later
      file cannot overwrite it because the names are distinct. */
  lemma {:induction false} MergeFromField(files: map<string, seq<string>>, samples: seq<Sample>, labelFiles: seq<(string, string)>, k: nat, i: nat, j: nat)
    requires 1 <= j < k <= |labelFiles| && DistinctNames(labelFiles)
    requires MergeFrom(files, samples, labelFiles, k).Ok? && i < |samples|
    ensures ReadCsv(files, labelFiles[j].1).Ok?
    ensures FieldOf(MergeFrom(files, samples, labelFiles, k).value[i], labelFiles[j].0) ==
              Classifications(GroupLabels(ReadCsv(files, labelFiles[j].1).value, samples[i]))
  {
    if j == k - 1 {
      MergeFromLast(files, samples, labelFiles, k, i);
    } else {
      MergeFromStep(files, samples, labelFiles, k);
      MergeFromField(files, samples, labelFiles, k - 1, i, j);
      var prev := MergeFrom(files, samples, labelFiles, k - 1).value;
      var t := ReadCsv(files, labelFiles[k - 1].1).value;
      assert MergeFrom(files, samples, labelFiles, k).value[i] == Merged(prev[i], labelFiles[k - 1].0, LabelsByKey(t.header, t.rows));
      assert labelFiles[j].0 != labelFiles[k - 1].0;
      MergedOtherGroup(prev[i], labelFiles[k - 1].0, t, labelFiles[j].0);
    }
  }

  /** Merging a table into a sample gives its group the labels the table holds for its file name. */
  lemma MergedGroup(s: Sample, original: Sample, group: string, t: Table)
    requires s.filepath == original.filepath
    ensures FieldOf(Merged(s, group, LabelsByKey(t.header, t.rows)), group) == Classifications(GroupLabels(t, original))
  {
  }

  /** Merging a table into one group leaves every other group of the sample alone. */
  lemma MergedOtherGroup(s: Sample, group: string, t: Table, other: string)
    requires other != group
    ensures FieldOf(Merged(s, group, LabelsByKey(t.header, t.rows)), other) == FieldOf(s, other)
  {
  }

  /** After merging files `1..k-1` with distinct names, every sample keeps its path, metadata, tags
      and date, each merged group holds what its file gives the sample, and every other group is
      untouched. */
  lemma MergeFromResult(files: map<string, seq<string>>, samples: seq<Sample>, labelFiles: seq<(string, string)>, k: nat)
    requires 1 <= k <= |labelFiles| && DistinctNames(labelFiles)
    requires MergeFrom(files, samples, labelFiles, k).Ok?
    ensures forall j :: 1 <= j < k ==> ReadCsv(files, labelFiles[j].1).Ok?
    ensures forall i :: 0 <= i < |samples| ==> SameSample(MergeFrom(files, samples, labelFiles, k).value[i], samples[i])
    ensures forall i, j :: 0 <= i < |samples| && 1 <= j < k ==>
              FieldOf(MergeFrom(files, samples, labelFiles, k).value[i], labelFiles[j].0) ==
                Classifications(GroupLabels(ReadCsv(files, labelFiles[j].1).value, samples[i]))
    ensures forall i, g :: 0 <= i < |samples| && (forall j :: 1 <= j < k ==> labelFiles[j].0 != g) ==>
              FieldOf(MergeFrom(files, samples, labelFiles, k).value[i], g) == FieldOf(samples[i], g)
  {
    forall j | 1 <= j < k
      ensures ReadCsv(files, labelFiles[j].1).Ok?
    {
      MergeFromReads(files, samples, labelFiles, k, j);
    }
    forall i | 0 <= i < |samples|
      ensures SameSample(MergeFrom(files, samples, labelFiles, k).value[i], samples[i])
    {
      MergeFromKeeps(files, samples, labelFiles, k, i);
    }
    forall i, j | 0 <= i < |samples| && 1 <= j < k
      ensures FieldOf(MergeFrom(files, samples, labelFiles, k).value[i], labelFiles[j].0) ==
                Classifications(GroupLabels(ReadCsv(files, labelFiles[j].1).value, samples[i]))
    {
      MergeFromField(files, samples, labelFiles, k, i, j);
    }
    forall i, g | 0 <= i < |samples| && (forall j :: 1 <= j < k ==> labelFiles[j].0 != g)
      ensures FieldOf(MergeFrom(files, samples, labelFiles, k).value[i], g) == FieldOf(samples[i], g)
    {
      MergeFromOther(files, samples, labelFiles, k, i, g);
    }
  }

  lemma {:induction false} MergeFromFailed(files: map<string, seq<string>>, samples: seq<Sample>, labelFiles: seq<(string, string)>, k: nat)
    requires 1 <= k <= |labelFiles| && MergeFrom(files, samples, labelFiles, k).Err?
    ensures MergeFrom(files, samples, labelFiles, |labelFiles|) == MergeFrom(files, samples, labelFiles, k)
    decreases |labelFiles| - k
  {
    if k < |labelFiles| {
      MergeFromFailed(files, samples, labelFiles, k + 1);
    }
  }

  lemma {:induction false} DatedUpToFailed(parse: string -> Result<Date>, samples: seq<Sample>, n: nat)
    requires n <= |samples| && DatedUpTo(parse, samples, n).Err?
    ensures DatedUpTo(parse, samples, |samples|) == DatedUpTo(parse, samples, n)
    decreases |samples| - n
  {
    if n < |samples| {
      DatedUpToFailed(parse, samples, n + 1);
    }
  }

  lemma {:induction false} ClassesUpToFailed(files: map<string, seq<string>>, labelFiles: seq<(string, string)>, n: nat)
    requires n <= |labelFiles| && ClassesUpTo(files, labelFiles, n).Err?
    ensures ClassesUpTo(files, labelFiles, |labelFiles|) == ClassesUpTo(files, labelFiles, n)
    decreases |labelFiles| - n
  {
    if n < |labelFiles| {
      ClassesUpToFailed(files, labelFiles, n + 1);
    }
  }

  /** The primary file gives one sample per row: its image path, probed metadata, no tags, no
      date yet, and the labels the row marks as its only group. */
  lemma PrimarySamplesResult(files: map<string, seq<string>>, probe: Probe, dir: string, first: (string, string))
    requires PrimarySamples(files, probe, dir, first).Ok?
    ensures ReadCsv(files, first.1).Ok?
    ensures var t := ReadCsv(files, first.1).value;
            var samples := PrimarySamples(files, probe, dir, first).value;
            |samples| == |t.rows| &&
            (|t.rows| > 0 ==> ColumnIndex(t.header, "FileName").Some?) &&
            forall i :: 0 <= i < |samples| ==>
              var path := RowPath(dir, t.rows[i], ColumnIndex(t.header, "FileName").value);
              && probe(path).Some?
              && samples[i] == Sample(path, probe(path).value, map[first.0 := Classifications(RowLabels(t.header, t.rows[i]))], [], None)
  {
    var t := ReadCsv(files, first.1).value;
    if |t.rows| > 0 {
      EntriesOfSucceeds(t.header, t.rows, ColumnIndex(t.header, "FileName").value, dir, probe);
    }
  }

  /** A successful label import with distinct group names has one sample per row of the primary
      file, in row order: the image joined onto the dataset directory with its probed metadata, no
      tags, the date its name carries, the primary group holding the labels its row marks, every
      further group holding what that group's file gives it, and no other group. */
  lemma ImportedSamplesResult(files: map<string, seq<string>>, probe: Probe, dir: string, labelFiles: seq<(string, string)>)
    requires |labelFiles| >= 1 && DistinctNames(labelFiles)
    requires ImportedLabels(files, probe, dir, labelFiles).Ok?
    ensures ReadCsv(files, labelFiles[0].1).Ok?
    ensures var t := ReadCsv(files, labelFiles[0].1).value;
            var samples := ImportedLabels(files, probe, dir, labelFiles).value.0;
            |samples| == |t.rows| &&
            (|t.rows| > 0 ==> ColumnIndex(t.header, "FileName").Some?) &&
            forall i :: 0 <= i < |samples| ==>
              var path := RowPath(dir, t.rows[i], ColumnIndex(t.header, "FileName").value);
              && samples[i].filepath == path
              && probe(path).Some? && samples[i].metadata == probe(path).value
              && samples[i].tags == []
              && DateOf(path).Ok? && samples[i].date == Some(DateOf(path).value)
              && FieldOf(samples[i], labelFiles[0].0) == Classifications(RowLabels(t.header, t.rows[i]))
    ensures forall j :: 1 <= j < |labelFiles| ==> ReadCsv(files, labelFiles[j].1).Ok?
    ensures var samples := ImportedLabels(files, probe, dir, labelFiles).value.0;
            forall i, j :: 0 <= i < |samples| && 1 <= j < |labelFiles| ==>
              FieldOf(samples[i], labelFiles[j].0) == Classifications(GroupLabels(ReadCsv(files, labelFiles[j].1).value, samples[i]))
    ensures var samples := ImportedLabels(files, probe, dir, labelFiles).value.0;
            forall i, g :: 0 <= i < |samples| && (forall j :: 0 <= j < |labelFiles| ==> labelFiles[j].0 != g) ==>
              FieldOf(samples[i], g) == Null
  {
    ImportedStages(files, probe, dir, labelFiles);
    var primary := PrimarySamples(files, probe, dir, labelFiles[0]).value;
    var samples := ImportedLabels(files, probe, dir, labelFiles).value.0;
    PrimarySamplesResult(files, probe, dir, labelFiles[0]);
    var t := ReadCsv(files, labelFiles[0].1).value;
    forall i | 0 <= i < |samples|
      ensures var path := RowPath(dir, t.rows[i], ColumnIndex(t.header, "FileName").value);
              && samples[i].filepath == path
              && probe(path).Some? && samples[i].metadata == probe(path).value
              && samples[i].tags == []
              && DateOf(path).Ok? && samples[i].date == Some(DateOf(path).value)
              && FieldOf(samples[i], labelFiles[0].0) == Classifications(RowLabels(t.header, t.rows[i]))
    {
      ImportedPrimaryAt(files, probe, dir, labelFiles, i);
    }
    forall j | 1 <= j < |labelFiles|
      ensures ReadCsv(files, labelFiles[j].1).Ok?
    {
      MergeFromReads(files, primary, labelFiles, |labelFiles|, j);
    }
    forall i, j | 0 <= i < |samples| && 1 <= j < |labelFiles|
      ensures FieldOf(samples[i], labelFiles[j].0) == Classifications(GroupLabels(ReadCsv(files, labelFiles[j].1).value, samples[i]))
    {
      ImportedFieldAt(files, probe, dir, labelFiles, i, j);
    }
    forall i, g | 0 <= i < |samples| && (forall j :: 0 <= j < |labelFiles| ==> labelFiles[j].0 != g)
      ensures FieldOf(samples[i], g) == Null
    {
      ImportedOtherAt(files, probe, dir, labelFiles, i, g);
    }
  }

  /** The stages of a successful label import: the primary samples, the merge, the dating. */
  lemma ImportedStages(files: map<string, seq<string>>, probe: Probe, dir: string, labelFiles: seq<(string, string)>)
    requires |labelFiles| >= 1 && ImportedLabels(files, probe, dir, labelFiles).Ok?
    ensures PrimarySamples(files, probe, dir, labelFiles[0]).Ok?
    ensures var primary := PrimarySamples(files, probe, dir, labelFiles[0]).value;
            var merged := MergeFrom(files, primary, labelFiles, |labelFiles|);
            && merged.Ok?
            && DatedUpTo(DateOf, merged.value, |merged.value|).Ok?
            && ImportedLabels(files, probe, dir, labelFiles).value.0 == DatedUpTo(DateOf, merged.value, |merged.value|).value
  {
  }

  /** Dating sample `i` of a fully dated list gives it the date of its file name. */
  lemma DatedAt(samples: seq<Sample>, i: nat)
    requires i < |samples| && DatedUpTo(DateOf, samples, |samples|).Ok?
    ensures DateOf(samples[i].filepath).Ok?
    ensures DatedUpTo(DateOf, samples, |samples|).value[i] == samples[i].(date := Some(DateOf(samples[i].filepath).value))
  {
    DatedUpToAt(DateOf, samples, |samples|, i);
  }

  /** Imported sample `i` has the path, metadata and primary labels of primary sample `i`, no
      tags, and its date. */
  lemma ImportedPrimaryAt(files: map<string, seq<string>>, probe: Probe, dir: string, labelFiles: seq<(string, string)>, i: nat)
    requires |labelFiles| >= 1 && DistinctNames(labelFiles)
    requires ImportedLabels(files, probe, dir, labelFiles).Ok? && i < |ImportedLabels(files, probe, dir, labelFiles).value.0|
    ensures ReadCsv(files, labelFiles[0].1).Ok?
    ensures var t := ReadCsv(files, labelFiles[0].1).value;
            var s := ImportedLabels(files, probe, dir, labelFiles).value.0[i];
            i < |t.rows| && ColumnIndex(t.header, "FileName").Some? &&
            var path := RowPath(dir, t.rows[i], ColumnIndex(t.header, "FileName").value);
            && s.filepath == path
            && probe(path).Some? && s.metadata == probe(path).value
            && s.tags == []
            && DateOf(path).Ok? && s.date == Some(DateOf(path).value)
            && FieldOf(s, labelFiles[0].0) == Classifications(RowLabels(t.header, t.rows[i]))
  {
    ImportedStages(files, probe, dir, labelFiles);
    PrimarySamplesResult(files, probe, dir, labelFiles[0]);
    var primary := PrimarySamples(files, probe, dir, labelFiles[0]).value;
    var merged := MergeFrom(files, primary, labelFiles, |labelFiles|).value;
    MergeFromKeeps(files, primary, labelFiles, |labelFiles|, i);
    assert forall j :: 1 <= j < |labelFiles| ==> labelFiles[j].0 != labelFiles[0].0;
    MergeFromOther(files, primary, labelFiles, |labelFiles|, i, labelFiles[0].0);
    DatedAt(merged, i);
  }

  /** Group `j` of imported sample `i` holds what file `j` gives its file name. */
  lemma ImportedFieldAt(files: map<string, seq<string>>, probe: Probe, dir: string, labelFiles: seq<(string, string)>, i: nat, j: nat)
    requires |labelFiles| >= 1 && DistinctNames(labelFiles) && 1 <= j < |labelFiles|
    requires ImportedLabels(files, probe, dir, labelFiles).Ok? && i < |ImportedLabels(files, probe, dir, labelFiles).value.0|
    ensures ReadCsv(files, labelFiles[j].1).Ok?
    ensures var s := ImportedLabels(files, probe, dir, labelFiles).value.0[i];
            FieldOf(s, labelFiles[j].0) == Classifications(GroupLabels(ReadCsv(files, labelFiles[j].1).value, s))
  {
    ImportedStages(files, probe, dir, labelFiles);
    var primary := PrimarySamples(files, probe, dir, labelFiles[0]).value;
    var merged := MergeFrom(files, primary, labelFiles, |labelFiles|).value;
    MergeFromKeeps(files, primary, labelFiles, |labelFiles|, i);
    MergeFromField(files, primary, labelFiles, |labelFiles|, i, j);
    DatedAt(merged, i);
  }

  /** A group no label file names is empty on every imported sample. */
  lemma ImportedOtherAt(files: map<string, seq<string>>, probe: Probe, dir: string, labelFiles: seq<(string, string)>, i: nat, g: string)
    requires |labelFiles| >= 1 && forall j :: 0 <= j < |labelFiles| ==> labelFiles[j].0 != g
    requires ImportedLabels(files, probe, dir, labelFiles).Ok? && i < |ImportedLabels(files, probe, dir, labelFiles).value.0|
    ensures FieldOf(ImportedLabels(files, probe, dir, labelFiles).value.0[i], g) == Null
  {
    ImportedStages(files, probe, dir, labelFiles);
    PrimarySamplesResult(files, probe, dir, labelFiles[0]);
    var primary := PrimarySamples(files, probe, dir, labelFiles[0]).value;
    var merged := MergeFrom(files, primary, labelFiles, |labelFiles|).value;
    MergeFromOther(files, primary, labelFiles, |labelFiles|, i, g);
    DatedAt(merged, i);
  }

  /** A successful label import records, for every group, its file's header without the key column. */
  lemma ImportedClassesResult(files: map<string, seq<string>>, probe: Probe, dir: string, labelFiles: seq<(string, string)>)
    requires |labelFiles| >= 1 && DistinctNames(labelFiles)
    requires ImportedLabels(files, probe, dir, labelFiles).Ok?
    ensures var classes := ImportedLabels(files, probe, dir, labelFiles).value.1;
            (forall g :: g in classes <==> exists j :: 0 <= j < |labelFiles| && labelFiles[j].0 == g) &&
            forall j :: 0 <= j < |labelFiles| ==>
              labelFiles[j].1 in files && files[labelFiles[j].1] != [] &&
              classes[labelFiles[j].0] == Split(files[labelFiles[j].1][0], ',')[1..]
  {
    var primary := PrimarySamples(files, probe, dir, labelFiles[0]).value;
    ImportedSamplesResult(files, probe, dir, labelFiles);
    ClassesUpToResult(files, labelFiles, |labelFiles|);
  }

  /** The loop over the further label files: each is read and merged into every sample. */
  method MergeGroups(ds: Dataset, files: map<string, seq<string>>, labelFiles: seq<(string, string)>) returns (failure: Option<Error>)
    requires |labelFiles| >= 1
    modifies ds
    ensures ds.classes == old(ds.classes)
    ensures var r := MergeFrom(files, old(ds.samples), labelFiles, |labelFiles|);
            (r.Ok? ==> failure.None? && ds.samples == r.value) && (r.Err? ==> failure == Some(r.error))
  {
    var k := 1;
    while k < |labelFiles|
      invariant 1 <= k <= |labelFiles|
      invariant MergeFrom(files, old(ds.samples), labelFiles, k) == Ok(ds.samples)
      invariant ds.classes == old(ds.classes)
    {
      var (name, path) := labelFiles[k];
      var table := ReadCsv(files, path);
      if table.Err? {
        MergeFromFailed(files, old(ds.samples), labelFiles, k + 1);
        return Some(table.error);
      }
      var m := BuildLabelsForFile(table.value);
      MergeLabels(ds, name, m);
      k := k + 1;
    }
    return None;
  }

  /** Dating one more sample whose name carries a date gives it that date. */
  lemma DatedNext(parse: string -> Result<Date>, samples: seq<Sample>, i: nat, dated: seq<Sample>, d: Date)
    requires i < |samples| && DatedUpTo(parse, samples, i) == Ok(dated) && parse(samples[i].filepath) == Ok(d)
    ensures |dated| == |samples|
    ensures DatedUpTo(parse, samples, i + 1) == Ok(dated[i := dated[i].(date := Some(d))])
  {
  }

  /** A sample whose name carries no date ends the dating with that error. */
  lemma DatedStop(parse: string -> Result<Date>, samples: seq<Sample>, i: nat, dated: seq<Sample>)
    requires i < |samples| && DatedUpTo(parse, samples, i) == Ok(dated) && parse(samples[i].filepath).Err?
    ensures DatedUpTo(parse, samples, |samples|) == Err(parse(samples[i].filepath).error)
  {
    DatedUpToFailed(parse, samples, i + 1);
  }

  /** The date loop: every sample gets the date `parse` reads from its file name, or the first
      name it rejects stops the loop. The import runs it with DateOf. */
  method DateAll(parse: string -> Result<Date>, samples: seq<Sample>) returns (r: Result<seq<Sample>>)
    ensures r == DatedUpTo(parse, samples, |samples|)
  {
    var dated := samples;
    var i := 0;
    while i < |samples|
      invariant 0 <= i <= |samples| == |dated|
      invariant DatedUpTo(parse, samples, i) == Ok(dated)
    {
      var date := parse(samples[i].filepath);
      if date.Err? {
        DatedStop(parse, samples, i, dated);
        return Err(date.error);
      }
      DatedNext(parse, samples, i, dated, date.value);
      dated := dated[i := dated[i].(date := Some(date.value))];
      i := i + 1;
    }
    return Ok(dated);
  }

  /** The class-list loop: every label group records its file's header minus the key column. */
  method RecordClasses(ds: Dataset, files: map<string, seq<string>>, labelFiles: seq<(string, string)>) returns (failure: Option<Error>)
    requires ds.classes == map[]
    modifies ds
    ensures ds.samples == old(ds.samples)
    ensures var r := ClassesUpTo(files, labelFiles, |labelFiles|);
            (r.Ok? ==> failure.None? && ds.classes == r.value) && (r.Err? ==> failure == Some(r.error))
  {
    var n := 0;
    while n < |labelFiles|
      invariant 0 <= n <= |labelFiles|
      invariant ds.samples == old(ds.samples)
      invariant ClassesUpTo(files, labelFiles, n) == Ok(ds.classes)
    {
      var (name, path) := labelFiles[n];
      if path !in files {
        ClassesUpToFailed(files, labelFiles, n + 1);
        return Some(MissingFile(path));
      }
      var lines := files[path];
      if lines != [] {
        ds.classes := ds.classes[name := Split(lines[0], ',')[1..]];
      }
      n := n + 1;
    }
    return None;
  }

  /** `_import_labels(dataset_name, dataset_dir, labels_path, persistent)`. */
  method ImportLabels(files: map<string, seq<string>>, probe: Probe, dir: string, labelFiles: seq<(string, string)>) returns (r: Result<Dataset>)
    requires |labelFiles| >= 1
    ensures r.Ok? <==> ImportedLabels(files, probe, dir, labelFiles).Ok?
    ensures r.Err? ==> r.error == ImportedLabels(files, probe, dir, labelFiles).error
    ensures r.Ok? ==> fresh(r.value) &&
                      r.value.samples == ImportedLabels(files, probe, dir, labelFiles).value.0 &&
                      r.value.classes == ImportedLabels(files, probe, dir, labelFiles).value.1
  {
    var (firstName, firstPath) := labelFiles[0];
    var importer := new CsvLabelsImporter.Plugin(dir);
    var entries := importer.Setup(files, firstPath, probe);
    if entries.Err? {
      return Err(entries.error);
    }
    var ds := new Dataset(SamplesOf(entries.value, firstName), map[]);
    var failure := MergeGroups(ds, files, labelFiles);
    if failure.Some? {
      return Err(failure.value);
    }
    var dated := DateAll(DateOf, ds.samples);
    if dated.Err? {
      return Err(dated.error);
    }
    ds.samples := dated.value;
    failure := RecordClasses(ds, files, labelFiles);
    if failure.Some? {
      return Err(failure.value);
    }
    return Ok(ds);
  }

  // ----- tags ------------------------------------------------------------------------------

  function Tail(s: seq<string>): seq<string>
  {
    if s == [] then [] else s[1..]
  }

  /** The tags a tag row applies: the names of the columns after the first whose cell is 1. */
  function RowTags(header: seq<string>, row: seq<string>): seq<string>
  {
    RowLabels(Tail(header), Tail(row))
  }

  /** `df[df["FileName"] == name]`, first row: the first row whose key cell is `name`. */
  function FirstRowWith(rows: seq<seq<string>>, col: nat, name: string): Option<seq<string>>
  {
    if rows == [] then None
    else if Cell(rows[0], col) == name then Some(rows[0])
    else FirstRowWith(rows[1..], col, name)
  }

  /** The row found is the first whose key cell is `name`, and there is none exactly when no
      row has that key. */
  lemma {:induction false} FirstRowWithSpec(rows: seq<seq<string>>, col: nat, name: string)
    ensures FirstRowWith(rows, col, name).None? <==> forall i :: 0 <= i < |rows| ==> Cell(rows[i], col) != name
    ensures FirstRowWith(rows, col, name).Some? ==>
              exists i :: 0 <= i < |rows| && rows[i] == FirstRowWith(rows, col, name).value && Cell(rows[i], col) == name &&
                          forall j :: 0 <= j < i ==> Cell(rows[j], col) != name
  {
    if rows != [] && Cell(rows[0], col) != name {
      FirstRowWithSpec(rows[1..], col, name);
      assert forall i :: 0 <= i < |rows[1..]| ==> rows[1..][i] == rows[i + 1];
      if FirstRowWith(rows, col, name).Some? {
        var i :| 0 <= i < |rows[1..]| && rows[1..][i] == FirstRowWith(rows, col, name).value && Cell(rows[1..][i], col) == name &&
                 forall j :: 0 <= j < i ==> Cell(rows[1..][j], col) != name;
        assert rows[i + 1] == FirstRowWith(rows, col, name).value;
        forall j | 0 <= j < i + 1 ensures Cell(rows[j], col) != name {
          if j > 0 { assert rows[j] == rows[1..][j - 1]; }
        }
      }
    }
  }

  /** One sample of `_import_tags`: with no tag columns nothing happens; otherwise the first row
      for the sample's file name adds its tags, and a sample without a row raises. */
  function TaggedSample(s: Sample, t: Table, col: nat): Option<Sample>
  {
    if |t.header| <= 1 then Some(s)
    else match FirstRowWith(t.rows, col, PathName(s.filepath))
      case None => None
      case Some(row) => Some(s.(tags := s.tags + RowTags(t.header, row)))
  }

  /** The samples after tagging the first `n`; each is saved as soon as it is tagged. */
  function TagsUpTo(samples: seq<Sample>, t: Table, n: nat): (o: Outcome)
    requires n <= |samples|
    ensures |o.samples| == |samples|
  {
    if n == 0 then Outcome(samples, None)
    else
      var prev := TagsUpTo(samples, t, n - 1);
      if !prev.Ok() then prev
      else match ColumnIndex(t.header, "FileName")
        case None => Outcome(prev.samples, Some(MissingColumn("FileName")))
        case Some(col) =>
          match TaggedSample(prev.samples[n - 1], t, col)
          case None => Outcome(prev.samples, Some(MissingTagRow(PathName(samples[n - 1].filepath))))
          case Some(u) => Outcome(prev.samples[n - 1 := u], None)
  }

  /** `_import_tags(dataset, tags_path)`. */
  function TagsImported(samples: seq<Sample>, files: map<string, seq<string>>, tagsPath: string): Outcome
  {
    match ReadCsv(files, tagsPath)
    case Err(e) => Outcome(samples, Some(e))
    case Ok(t) => TagsUpTo(samples, t, |samples|)
  }

  /** A tag import that succeeds tags every sample by the first row for its file name, and
      raises at the first sample that has none while there are tag columns. */
  lemma {:induction false} TagsUpToResult(samples: seq<Sample>, t: Table, n: nat)
    requires n <= |samples|
    ensures TagsUpTo(samples, t, n).Ok() ==> n == 0 || ColumnIndex(t.header, "FileName").Some?
    ensures TagsUpTo(samples, t, n).Ok() && n > 0 ==>
              forall i :: 0 <= i < |samples| ==>
                if i < n then TaggedSample(samples[i], t, ColumnIndex(t.header, "FileName").value) == Some(TagsUpTo(samples, t, n).samples[i])
                else TagsUpTo(samples, t, n).samples[i] == samples[i]
    ensures TagsUpTo(samples, t, n).Ok() <==>
              n == 0 ||
              (ColumnIndex(t.header, "FileName").Some? &&
               forall i :: 0 <= i < n ==> TaggedSample(samples[i], t, ColumnIndex(t.header, "FileName").value).Some?)
  {
    TagsUpToOk(samples, t, n);
    if TagsUpTo(samples, t, n).Ok() && n > 0 {
      forall i | 0 <= i < |samples|
        ensures if i < n then TaggedSample(samples[i], t, ColumnIndex(t.header, "FileName").value) == Some(TagsUpTo(samples, t, n).samples[i])
                else TagsUpTo(samples, t, n).samples[i] == samples[i]
      {
        TagsUpToAt(samples, t, n, i);
      }
    }
  }

  /** After tagging the first `n` samples successfully, sample `i` is tagged by its row if
      `i < n` and untouched otherwise. */
  lemma {:induction false} TagsUpToAt(samples: seq<Sample>, t: Table, n: nat, i: nat)
    requires n <= |samples| && i < |samples| && TagsUpTo(samples, t, n).Ok()
    ensures n > 0 ==> ColumnIndex(t.header, "FileName").Some?
    ensures n > 0 && i < n ==> TaggedSample(samples[i], t, ColumnIndex(t.header, "FileName").value) == Some(TagsUpTo(samples, t, n).samples[i])
    ensures i >= n ==> TagsUpTo(samples, t, n).samples[i] == samples[i]
  {
    if n > 0 {
      var prev := TagsUpTo(samples, t, n - 1);
      var o := TagsUpTo(samples, t, n);
      assert prev.Ok();
      TagsUpToAt(samples, t, n - 1, i);
      var col := ColumnIndex(t.header, "FileName").value;
      if i == n - 1 {
        assert prev.samples[n - 1] == samples[n - 1];
        var u := TaggedSample(samples[n - 1], t, col).value;
        assert o.samples == prev.samples[n - 1 := u];
      } else {
        assert o.samples[i] == prev.samples[i];
      }
    }
  }

  /** Tagging the first `n` samples succeeds exactly when there is a FileName column and each of
      them has a row (or nothing is tagged). */
  lemma TagsUpToOk(samples: seq<Sample>, t: Table, n: nat)
    requires n <= |samples|
    ensures TagsUpTo(samples, t, n).Ok() <==>
              n == 0 ||
              (ColumnIndex(t.header, "FileName").Some? &&
               forall i :: 0 <= i < n ==> TaggedSample(samples[i], t, ColumnIndex(t.header, "FileName").value).Some?)
  {
    if TagsUpTo(samples, t, n).Ok() && n > 0 {
      TagsUpToAt(samples, t, n, 0);
      forall i | 0 <= i < n ensures TaggedSample(samples[i], t, ColumnIndex(t.header, "FileName").value).Some? {
        TagsUpToAt(samples, t, n, i);
      }
    } else if n > 0 && ColumnIndex(t.header, "FileName").Some? &&
              forall i :: 0 <= i < n ==> TaggedSample(samples[i], t, ColumnIndex(t.header, "FileName").value).Some? {
      TagsUpToSucceeds(samples, t, ColumnIndex(t.header, "FileName").value, n);
    }
  }

  /** With a FileName column and a row for each of the first `n` samples, tagging them succeeds. */
  lemma {:induction false} TagsUpToSucceeds(samples: seq<Sample>, t: Table, col: nat, n: nat)
    requires n <= |samples| && ColumnIndex(t.header, "FileName") == Some(col)
    requires forall i :: 0 <= i < n ==> TaggedSample(samples[i], t, col).Some?
    ensures TagsUpTo(samples, t, n).Ok()
  {
    if n > 0 {
      TagsUpToSucceeds(samples, t, col, n - 1);
      TagsUpToAt(samples, t, n - 1, n - 1);
    }
  }

  /** Replacing the first element of the untouched part moves the boundary by one. */
  lemma SpliceStep(done: seq<Sample>, rest: seq<Sample>, n: nat)
    requires 0 < n <= |done| == |rest|
    ensures (done[..n - 1] + rest[n - 1..])[n - 1] == rest[n - 1]
    ensures (done[..n - 1] + rest[n - 1..])[n - 1 := done[n - 1]] == done[..n] + rest[n..]
  {
    var prev := done[..n - 1] + rest[n - 1..];
    assert prev[n - 1 := done[n - 1]] == done[..n] + rest[n..];
  }

  /** When every sample has its row, tagging the first `n` leaves them tagged and the rest untouched. */
  lemma {:induction false} TagsUpToAll(samples: seq<Sample>, t: Table, col: nat, tagged: seq<Sample>, n: nat)
    requires n <= |samples| == |tagged| && ColumnIndex(t.header, "FileName") == Some(col)
    requires forall i :: 0 <= i < |samples| ==> TaggedSample(samples[i], t, col) == Some(tagged[i])
    ensures TagsUpTo(samples, t, n) == Outcome(tagged[..n] + samples[n..], None)
  {
    if n == 0 {
      assert samples[0..] == samples;
    } else {
      TagsUpToAll(samples, t, col, tagged, n - 1);
      var prev := tagged[..n - 1] + samples[n - 1..];
      SpliceStep(tagged, samples, n);
      assert TaggedSample(prev[n - 1], t, col) == Some(tagged[n - 1]);
    }
  }

  /** When every sample has its row, the whole tag import succeeds with exactly the tagged samples. */
  lemma TagsAllTagged(samples: seq<Sample>, t: Table, col: nat, tagged: seq<Sample>)
    requires |samples| == |tagged| && ColumnIndex(t.header, "FileName") == Some(col)
    requires forall i :: 0 <= i < |samples| ==> TaggedSample(samples[i], t, col) == Some(tagged[i])
    ensures TagsUpTo(samples, t, |samples|) == Outcome(tagged, None)
  {
    TagsUpToAll(samples, t, col, tagged, |samples|);
    assert tagged[..|samples|] + samples[|samples|..] == tagged;
  }

  lemma {:induction false} TagsUpToFailed(samples: seq<Sample>, t: Table, n: nat)
    requires n <= |samples| && !TagsUpTo(samples, t, n).Ok()
    ensures TagsUpTo(samples, t, |samples|) == TagsUpTo(samples, t, n)
    decreases |samples| - n
  {
    if n < |samples| {
      TagsUpToFailed(samples, t, n + 1);
    }
  }

  /** The sample loop of `_import_tags`. */
  method ImportTags(ds: Dataset, files: map<string, seq<string>>, tagsPath: string) returns (failure: Option<Error>)
    modifies ds
    ensures ds.classes == old(ds.classes)
    ensures ds.samples == TagsImported(old(ds.samples), files, tagsPath).samples
    ensures failure == TagsImported(old(ds.samples), files, tagsPath).failure
  {
    var table := ReadCsv(files, tagsPath);
    if table.Err? {
      return Some(table.error);
    }
    var t := table.value;
    var i := 0;
    while i < |ds.samples|
      invariant 0 <= i <= |ds.samples| == |old(ds.samples)|
      invariant ds.classes == old(ds.classes)
      invariant TagsUpTo(old(ds.samples), t, i) == Outcome(ds.samples, None)
    {
      var s := ds.samples[i];
      var col := ColumnIndex(t.header, "FileName");
      if col.None? {
        TagsUpToFailed(old(ds.samples), t, i + 1);
        return Some(MissingColumn("FileName"));
      }
      TagsUpToAt(old(ds.samples), t, i, i);
      var tagged := TagSample(s, t, col.value);
      if tagged.None? {
        TagsUpToFailed(old(ds.samples), t, i + 1);
        return Some(MissingTagRow(PathName(s.filepath)));
      }
      ds.samples := ds.samples[i := tagged.value];
      i := i + 1;
    }
    return None;
  }

  /** The tag loop for one sample: `for tag in row: if row[tag] is 1: sample.tags.append(tag)`. */
  method TagSample(s: Sample, t: Table, col: nat) returns (r: Option<Sample>)
    ensures r == TaggedSample(s, t, col)
  {
    if |t.header| <= 1 {
      return Some(s);
    }
    var row := FirstRowWith(t.rows, col, PathName(s.filepath));
    if row.None? {
      return None;
    }
    var header, cells := Tail(t.header), Tail(row.value);
    var tags := s.tags;
    var c := 0;
    while c < |header|
      invariant 0 <= c <= |header|
      invariant tags == s.tags + MarkedUpTo(header, cells, c)
    {
      if IsOne(Cell(cells, c)) {
        tags := tags + [header[c]];
      }
      c := c + 1;
    }
    return Some(s.(tags := tags));
  }

  // ----- the import operator -----------------------------------------------------------------

  function PathsOf(labelFiles: seq<(string, string)>): seq<string>
  {
    seq(|labelFiles|, i requires 0 <= i < |labelFiles| => labelFiles[i].1)
  }

  /** `ImportDataset.execute`: nothing without a directory or a label file; otherwise the labels,
      then the tags when requested and their file exists. A failing label import leaves no
      dataset; a failing tag import leaves the dataset with the samples tagged so far. */
  method ImportDataset(files: map<string, seq<string>>, probe: Probe, dir: string, labelFiles: seq<(string, string)>, importTags: bool)
    returns (ds: Option<Dataset>, failure: Option<Error>)
    ensures dir == [] || labelFiles == [] ==> ds.None? && failure.None?
    ensures dir != [] && labelFiles != [] && ImportedLabels(files, probe, dir, labelFiles).Err? ==>
              ds.None? && failure == Some(ImportedLabels(files, probe, dir, labelFiles).error)
    ensures dir != [] && labelFiles != [] && ImportedLabels(files, probe, dir, labelFiles).Ok? ==>
              var (samples, classes) := ImportedLabels(files, probe, dir, labelFiles).value;
              ds.Some? && fresh(ds.value) && ds.value.classes == classes &&
              match TagsFileFor(files, PathsOf(labelFiles), importTags)
              case None => ds.value.samples == samples && failure.None?
              case Some(tagsPath) =>
                ds.value.samples == TagsImported(samples, files, tagsPath).samples &&
                failure == TagsImported(samples, files, tagsPath).failure
  {
    if dir == [] || |labelFiles| < 1 {
      return None, None;
    }
    var imported := ImportLabels(files, probe, dir, labelFiles);
    if imported.Err? {
      return None, Some(imported.error);
    }
    var dataset := imported.value;
    var tagsPath := TagsFileFor(files, PathsOf(labelFiles), importTags);
    if tagsPath.None? {
      return Some(dataset), None;
    }
    failure := ImportTags(dataset, files, tagsPath.value);
    return Some(dataset), failure;
  }
}
