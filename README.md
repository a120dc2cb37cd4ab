# One-hot CSV label interchange and label editing, modelled in Dafny

This project models the label tooling of a FiftyOne plugin collection for multi-label image
classification datasets. In these datasets every sample carries one label field per named
*group*. Each field is either unset (None) or a `Classifications` list of label entries. The
dataset keeps a registry `dataset.classes` that maps each group to its class list.

Two engines are modelled.

* **The one-hot CSV interchange.** A label file has the header `FileName,<class>,<class>,...` and
  one line per image: the image's file name, then one `0`/`1` cell per class. The modelled parts
  are:
  * the CSV manager plugin's importer and exporter classes and its import and export operators:
    merging extra label groups by file name, reading the capture date from a `YYYYMMDD_` file
    name prefix, taking each group's class list from its CSV header, and exporting and importing
    the tag matrix through the same one-hot scheme;
  * the request check that runs before an import;
  * the older `utils` importer (with its selectable key column) and exporter (unsorted class
    order, `Filename` header).
* **The label editor.** The `edit-multi-label` operators:
  * `ManageModalLabel` reconciles one sample's labels with the labels asked for;
  * `AddGridLabel` and `RemoveGridLabel` are bulk edits of the selected samples;
  * `CreateGroundTruthLabel` appends a class to a group;
  * `DeleteGroundTruthLabel` deletes classes from every sample and then from the registry. The
    registry step is the corrected purge of the first "## Findings" row; it agrees with the code
    whenever the class list has no duplicates (`EditMultiLabel.RegistryDeleteAgrees`).

### Modules

| Module | File | Contents |
|---|---|---|
| `Wrappers` | `wrappers.dfy` | `Option`, `Result`, and one `Error` constructor per exception the code lets escape |
| `Text` | `text.dfy` | `str.split` and `str.join`, path basename and `os.path.join`, `str.replace`, `int()` on digit strings, slicing that clamps, `sorted` on strings |
| `Codec` | `codec.dfy` | Reading a CSV file (a list of lines) into a header and rows, the labels a row marks, and the one-hot row and line encoding |
| `Samples` | `samples.dfy` | Samples, label fields, and the `Dataset` class (its sample list and class registry, both updated in place) |
| `LabelImporter` | `label_importer.dfy` | The `setup` of both importers, as a class |
| `LabelExporter` | `label_exporter.dfy` | `setup`, `export_sample` and `close` of both exporters, as a class |
| `EditMultiLabel` | `edit_multi_label.dfy` | The label editor |
| `DatasetImport` | `dataset_import.dfy` | The import request check, `_import_labels`, `_import_tags` and the import operator |
| `DatasetExport` | `dataset_export.dfy` | The export operator, `_get_all_tags`, `_export_csv_tags`, and the export-then-import round trips |

### Representation and failure

* A file is a list of lines. `pandas.read_csv` becomes `Codec.ParseCsv`, which behaves as follows:
  * cells are split on `,`;
  * blank lines are skipped, those before the header too, and a file of blank lines only is
    empty;
  * a row longer than the header is an error;
  * a short row reads as missing (NaN) past its end;
  * a cell is one-hot true only when it is exactly `1`.
* The file system is a map from path to lines.
* Image probing (`os.path.getsize` and `cv2.imread(...).shape`) is a function parameter that may
  fail (`LabelImporter.Probe`).
* The export time stamp is a parameter.

The Python code raises exceptions, and a raised exception stops a loop part-way. The model
stops in the same place:

* an operation that fails as a whole returns a `Result`;
* a loop that saves samples one by one returns an `Outcome`. This holds the samples as they
  stand, including every edit saved before the failure, together with the error that stopped
  the loop.

Each state-changing operation is a method on `Samples.Dataset` or on an importer or exporter
object. It is proved against a function over sequences, and the properties are proved about
that function. The date loop (`DatasetImport.DateAll`) and its specification `DatedUpTo` take
the file-name date parser as a parameter; the import passes `DatasetImport.DateOf`, the model of
`int(token[0:4])`, `int(token[4:6])` and `int(token[6:8])`.

### Behaviour that follows the code rather than the documented design

* **Short date tokens.** A 7-character date token is accepted, because Python slicing clamps:
  `"2023081"` gives day 1 (`DatasetImport.DateOfSevenDigits`). A file name without `_` is dated
  from its whole stem.
* **Tag column order.** The exported tag vocabulary is `list(set(...))`, so its column order is
  unspecified, not sorted. Only its members and the absence of duplicates are promised.
* **Missing tag rows.** When the tag file has at least one tag column, a sample with no row in
  it makes `_import_tags` raise (`MissingTagRow`); it is not skipped. Tags already saved for
  earlier samples stay. A tag file with no column after `FileName` raises for no sample, because
  the column loop never reads a row. A dataset with no samples needs no `FileName` column.
* **Label import is not all-or-nothing.** The samples are created first. A later date or class
  list failure raises after the samples exist. The model returns the error and no dataset.
* **Duplicate group names** are rejected only by the request check (`DatasetImport.CheckImport`);
  the import itself does not check for them.

## Model

| member | source | states |
|---|---|---|
| Text.Split | __plugins__/@groderg/manager-dataset-csv/__init__.py:275 | `split(',')` always yields at least one piece, and no piece contains the separator |
| Text.SplitJoin | __plugins__/@groderg/manager-dataset-csv/__init__.py:509-512 | splitting a line that was joined from comma-free parts gives those parts back |
| Text.SplitNoSeparator | __plugins__/@groderg/manager-dataset-csv/__init__.py:275 | a string without the separator splits into itself alone |
| Text.AfterLast | utils/custom_csv_multilabel_exporter.py:92 | `split(c)[-1]` holds no `c` and is no longer than the input |
| Text.AfterLastSuffix | utils/custom_csv_multilabel_exporter.py:92 | `split(c)[-1]` is a suffix of the input, and it is the whole input or is preceded by `c` |
| Text.AfterLastOfSuffix | __plugins__/@groderg/manager-dataset-csv/__init__.py:497 | the piece after the last `c` of `prefix + c + name` is `name` when `name` has no `c` |
| Text.AfterLastNoSeparator | __plugins__/@groderg/manager-dataset-csv/__init__.py:497 | a path without the separator is its own last piece |
| Text.RowKey | __plugins__/@groderg/manager-dataset-csv/__init__.py:497 | the exported key never contains `/`; it is the basename after the last `/` when the path has one, and otherwise it is the suffix after the last `\` (the whole path when it has none) |
| Text.JoinPathName | utils/custom_csv_multilabel_importer.py:165 | the basename of `os.path.join(dir, name)` is `name`, for a `name` without `/` |
| Text.ReplaceAbsent | __plugins__/@groderg/manager-dataset-csv/__init__.py:53 | `replace` leaves a string without the pattern unchanged |
| Text.ReplaceTrailing | __plugins__/@groderg/manager-dataset-csv/__init__.py:53 | `replace` on a path whose only occurrence of the pattern is at its end swaps just that ending |
| Text.ParseInt | __plugins__/@groderg/manager-dataset-csv/__init__.py:266-268 | `int()` succeeds exactly on a non-empty digit string with an optional sign |
| Text.Slice | __plugins__/@groderg/manager-dataset-csv/__init__.py:266-268 | `s[i:j]` has the clamped length `min(j, len(s)) - min(i, len(s))` |
| Text.SortStrings | __plugins__/@groderg/manager-dataset-csv/__init__.py:479 | `sorted` returns an ordered permutation of its input |
| Text.SortedUnique | __plugins__/@groderg/manager-dataset-csv/__init__.py:479 | two ordered permutations of the same strings are equal |
| Text.SortIgnoresOrder | __plugins__/@groderg/manager-dataset-csv/__init__.py:479 | the export column order depends only on which classes the registry holds, not on their registry order |
| Text.SortSortedIsIdentity | __plugins__/@groderg/manager-dataset-csv/__init__.py:479 | sorting an already ordered class list leaves it unchanged |
| Text.StrLeTotal | __plugins__/@groderg/manager-dataset-csv/__init__.py:479 | the string order `sorted` uses compares any two strings |
| Text.StrLeAntisymmetric | __plugins__/@groderg/manager-dataset-csv/__init__.py:479 | two strings each ordered before the other are equal |
| Text.StrLeTransitive | __plugins__/@groderg/manager-dataset-csv/__init__.py:479 | the string order is transitive |
| Codec.ParseCsv | __plugins__/@groderg/manager-dataset-csv/__init__.py:438 | a file with no lines is the empty-file error; when the first line is not blank, reading succeeds exactly when no row is longer than the header, and then gives the split header and the non-blank rows, otherwise the malformed-row error |
| Codec.ParseBlankOnly | __plugins__/@groderg/manager-dataset-csv/__init__.py:438 | a file of blank lines only is the empty-file error, as pandas raises on a file with no header |
| Codec.ParseSkipsLeadingBlanks | __plugins__/@groderg/manager-dataset-csv/__init__.py:438 | blank lines before the header do not change what reading the file gives |
| Codec.ReadCsv | __plugins__/@groderg/manager-dataset-csv/__init__.py:438 | a path with no file fails with a missing-file error; otherwise the file is parsed |
| Codec.ColumnIndex | utils/custom_csv_multilabel_importer.py:152 | `row[name]` reads the first column with that name, and it fails exactly when the header has no such column |
| Codec.RowLabelsMembers | utils/custom_csv_multilabel_importer.py:158-161 | a label is decoded from a row exactly when some column of that name holds `1`; there are never more labels than columns |
| Codec.DecodeRowLabels | __plugins__/@groderg/manager-dataset-csv/__init__.py:452-455 | the column loop collects exactly the row's labels, in column order |
| Codec.EncodeRow | __plugins__/@groderg/manager-dataset-csv/__init__.py:494-495 | one cell per class; cell i is `1` exactly when class i is among the sample's labels and `0` exactly when it is not, so labels outside the class list are dropped |
| Codec.PresentMembers | __plugins__/@groderg/manager-dataset-csv/__init__.py:494-495 | the labels a row can carry back are exactly the sample's labels that are in the class list |
| Codec.EncodeRowCommaFree | __plugins__/@groderg/manager-dataset-csv/__init__.py:495 | encoded cells never contain a comma |
| Codec.SplitCsvLine | __plugins__/@groderg/manager-dataset-csv/__init__.py:512 | a written line `key,cells` splits back into the key and the cells |
| Codec.EncodeDecodeRow | __plugins__/@groderg/manager-dataset-csv/__init__.py:494-495 | decoding an exported row under the exported header gives the sample's labels that are in the class list, in class-list order |
| Codec.EncodeDecodeCells | __plugins__/@groderg/manager-dataset-csv/__init__.py:380 | decoding one-hot cells against their own columns gives back the marked members, in column order |
| Samples.WithField | __plugins__/@groderg/manager-dataset-csv/__init__.py:256 | `sample[group] = f` sets that group's field and changes no other field, the path, the metadata, the tags or the date |
| Samples.Dataset.constructor | __plugins__/@groderg/manager-dataset-csv/__init__.py:231-237 | a new dataset holds exactly the given samples and class registry |
| LabelImporter.EntriesOfSucceeds | utils/custom_csv_multilabel_importer.py:147-170 | `setup` succeeds exactly when every row's image can be probed; it then gives one entry per row, in row order, each with `dataset_dir` joined with the key cell, the probed metadata and the row's labels |
| LabelImporter.EntriesOfFails | utils/custom_csv_multilabel_importer.py:152-155 | a failing `setup` names the image of the first row that cannot be probed, and every earlier row could be |
| LabelImporter.EntriesOfFailedPrefix | utils/custom_csv_multilabel_importer.py:152-155 | once a row fails, the whole `setup` fails with that error and keeps no partial list |
| LabelImporter.DecodeEntries | __plugins__/@groderg/manager-dataset-csv/__init__.py:441-464 | the row loop computes the entries of the table, and the missing key column raises at the first row |
| LabelImporter.DecodeEntry | __plugins__/@groderg/manager-dataset-csv/__init__.py:442-464 | one pass of the row loop appends the row's entry to those of the earlier rows, or ends setup with the error of an unreadable image |
| LabelImporter.KeyColumn | utils/custom_csv_multilabel_importer.py:145 | the key column is `FileName` exactly when `isNewArchi` holds, and `OriginalFileName` exactly when it does not |
| LabelImporter.CsvLabelsImporter.Plugin | __plugins__/@groderg/manager-dataset-csv/__init__.py:385-403 | the plugin importer keys rows by `FileName` and has no labels before `setup` |
| LabelImporter.CsvLabelsImporter.Utils | utils/custom_csv_multilabel_importer.py:34-54 | the utils importer keys rows by the column `isNewArchi` selects and has no labels before `setup` |
| LabelImporter.CsvLabelsImporter.Setup | __plugins__/@groderg/manager-dataset-csv/__init__.py:436-468 | `setup` reads the CSV and stores its entries; an unreadable file, missing column or unreadable image stores nothing |
| LabelExporter.BodyLines | utils/custom_csv_multilabel_exporter.py:115-116 | one body line per recorded row, in order, each `key,cells` |
| LabelExporter.ExportedFileShape | __plugins__/@groderg/manager-dataset-csv/__init__.py:509-512 | a written file has the header `<key>,<classes joined by ','>` and then, in export order, `<basename>,<0/1 cells>` with `1` exactly for the sample's classes |
| LabelExporter.ExportThenParse | __plugins__/@groderg/manager-dataset-csv/__init__.py:509-512 | reading a written file back gives the key column and the classes as header and every recorded key and cells as rows, when no name holds a comma |
| LabelExporter.CsvLabelsExporter.Plugin | __plugins__/@groderg/manager-dataset-csv/__init__.py:474-479 | the plugin exporter's columns are the class list sorted, under a `FileName` key column |
| LabelExporter.CsvLabelsExporter.Utils | utils/custom_csv_multilabel_exporter.py:30-35 | the utils exporter's columns are the class list in the order given, under a `Filename` key column |
| LabelExporter.CsvLabelsExporter.Setup | utils/custom_csv_multilabel_exporter.py:67-75 | `setup` resets the recorded rows to none |
| LabelExporter.CsvLabelsExporter.ExportSample | utils/custom_csv_multilabel_exporter.py:77-94 | `export_sample` appends exactly one row, the sample's key and its one-hot cells, after the rows already recorded |
| LabelExporter.CsvLabelsExporter.Close | __plugins__/@groderg/manager-dataset-csv/__init__.py:501-512 | `close` writes the header and then one line per recorded row, in recording order |
| EditMultiLabel.GetLabels | __plugins__/@groderg/edit-multi-label/__init__.py:8-9 | `_get_labels` is the set of labels among the field's entries, and empty for a None field |
| EditMultiLabel.LabelInFields | __plugins__/@groderg/edit-multi-label/__init__.py:12-16 | `_label_in_fields` is true exactly when some entry carries the label |
| EditMultiLabel.WithoutMembers | __plugins__/@groderg/edit-multi-label/__init__.py:223-227 | after removal, an entry remains exactly when it was there and is not to be removed |
| EditMultiLabel.WithoutKeepsAll | __plugins__/@groderg/edit-multi-label/__init__.py:223-227 | removing labels no entry carries changes nothing |
| EditMultiLabel.WithoutIdempotent | __plugins__/@groderg/edit-multi-label/__init__.py:223-227 | removing the same labels twice is the same as removing them once |
| EditMultiLabel.WithoutTwice | __plugins__/@groderg/edit-multi-label/__init__.py:223-227 | two removals in a row equal one removal of both label sets |
| EditMultiLabel.WithoutAppend | __plugins__/@groderg/edit-multi-label/__init__.py:223-227 | removal acts on each part of the entry list independently, so the relative order of kept entries is preserved |
| EditMultiLabel.WithoutExample | __plugins__/@groderg/edit-multi-label/__init__.py:223-227 | `[a,b,c,d,e]` minus `{b,d}` is `[a,c,e]` for any labels where a, c and e are neither b nor d |
| EditMultiLabel.MatchingIndices | __plugins__/@groderg/edit-multi-label/__init__.py:223 | the collected indices are increasing and are exactly the positions of entries to remove |
| EditMultiLabel.PopStep | __plugins__/@groderg/edit-multi-label/__init__.py:226-227 | popping the next-highest collected index removes exactly the entry there and shifts no entry still to be popped |
| EditMultiLabel.PopEnd | __plugins__/@groderg/edit-multi-label/__init__.py:226-227 | once every collected index is popped, the list is the original with the removed labels filtered out |
| EditMultiLabel.RemoveEntries | __plugins__/@groderg/edit-multi-label/__init__.py:223-227 | collecting indices and popping them from highest to lowest deletes exactly the matching entries and keeps the rest in order |
| EditMultiLabel.RemovedFromSpec | __plugins__/@groderg/edit-multi-label/__init__.py:219-227 | removal keeps a None field None; on a Classifications it keeps exactly the entries not to be removed, and removing absent labels changes nothing |
| EditMultiLabel.RemoveLabelClassifications | __plugins__/@groderg/edit-multi-label/__init__.py:219-227 | `_removeLabelClassifications` computes that removal |
| EditMultiLabel.MissingMembers | __plugins__/@groderg/edit-multi-label/__init__.py:53 | the labels to add are exactly the requested labels not already present |
| EditMultiLabel.MissingNone | __plugins__/@groderg/edit-multi-label/__init__.py:53 | nothing is to be added when every requested label is present |
| EditMultiLabel.ReconcileKeepsThenAppends | __plugins__/@groderg/edit-multi-label/__init__.py:52-60 | reconciling keeps the existing entries that are requested, in order, then appends the missing requested labels |
| EditMultiLabel.ReconcileReachesDesired | __plugins__/@groderg/edit-multi-label/__init__.py:52-60 | after reconciling, the field's label set equals the requested set |
| EditMultiLabel.ReconcileUnchanged | __plugins__/@groderg/edit-multi-label/__init__.py:52-60 | reconciling a field with the labels it already has changes nothing |
| EditMultiLabel.ReconcileField | __plugins__/@groderg/edit-multi-label/__init__.py:52-60 | the append-then-remove loop computes the reconciliation, and fails exactly where appending to a None field raises |
| EditMultiLabel.AddMissing | __plugins__/@groderg/edit-multi-label/__init__.py:103-105 | bulk add keeps every existing entry in place and appends only labels not already carried, each once; the result holds exactly the old and the requested labels |
| EditMultiLabel.AddMissingAllPresent | __plugins__/@groderg/edit-multi-label/__init__.py:103-105 | adding labels that are all present changes nothing |
| EditMultiLabel.AddMissingIdempotent | __plugins__/@groderg/edit-multi-label/__init__.py:103-105 | re-adding the same request is a no-op |
| EditMultiLabel.AddMissingNoDuplicates | __plugins__/@groderg/edit-multi-label/__init__.py:103-105 | bulk add never creates a duplicate entry, even when the request repeats a label |
| EditMultiLabel.BulkAddField | __plugins__/@groderg/edit-multi-label/__init__.py:103-105 | the per-label check-then-append loop computes the bulk add |
| EditMultiLabel.AddFieldFails | __plugins__/@groderg/edit-multi-label/__init__.py:104-105 | a non-empty bulk add fails exactly on a None field |
| EditMultiLabel.EditFieldIdempotent | __plugins__/@groderg/edit-multi-label/__init__.py:99-106 | applying the same grid edit twice is the same as applying it once |
| EditMultiLabel.EditAtResult | __plugins__/@groderg/edit-multi-label/__init__.py:99-106 | editing the selection succeeds exactly when every selected sample's field accepts the edit; then exactly the selected samples are edited |
| EditMultiLabel.EditAtFailedPrefix | __plugins__/@groderg/edit-multi-label/__init__.py:99-106 | once a selected sample fails, the loop stops there and the samples saved before stay edited |
| EditMultiLabel.EditGroupsResult | __plugins__/@groderg/edit-multi-label/__init__.py:94-106 | a successful grid edit applies each group's non-empty request to every selected sample and leaves groups with no request and unselected samples unchanged |
| EditMultiLabel.EditGroupsFailedPrefix | __plugins__/@groderg/edit-multi-label/__init__.py:94-106 | a failure in one group ends the whole operation with that group's result |
| EditMultiLabel.RemoveNeverFails | __plugins__/@groderg/edit-multi-label/__init__.py:136-145 | bulk remove never fails, even on None fields |
| EditMultiLabel.RemoveAtNeverFails | __plugins__/@groderg/edit-multi-label/__init__.py:142-145 | removing from the selection never fails |
| EditMultiLabel.EditSelection | __plugins__/@groderg/edit-multi-label/__init__.py:99-106 | the loop over the selection saves the edited samples and leaves the registry alone |
| EditMultiLabel.EditGroupsOfSelection | __plugins__/@groderg/edit-multi-label/__init__.py:94-106 | the loop over groups applies each non-empty request to the selection |
| EditMultiLabel.EditOneGroup | __plugins__/@groderg/edit-multi-label/__init__.py:94-106 | one pass of the group loop moves the samples on by exactly that group's edit (none for an empty request), and a failing edit is the outcome of the whole loop |
| EditMultiLabel.AddGridLabel | __plugins__/@groderg/edit-multi-label/__init__.py:93-106 | `AddGridLabel.execute` bulk-adds each group's requested labels to the selected samples and leaves the registry alone |
| EditMultiLabel.RemoveGridLabel | __plugins__/@groderg/edit-multi-label/__init__.py:136-145 | `RemoveGridLabel.execute` removes each group's requested labels from the selected samples and leaves the registry alone |
| EditMultiLabel.ManagedSampleResult | __plugins__/@groderg/edit-multi-label/__init__.py:46-62 | a successful modal edit reconciles every group of the registry with its request and changes nothing else about the sample |
| EditMultiLabel.ModalEditMatchesRequest | __plugins__/@groderg/edit-multi-label/__init__.py:46-62 | after the modal edit each group's labels are exactly the ones requested |
| EditMultiLabel.ManagedSampleStep | __plugins__/@groderg/edit-multi-label/__init__.py:48-60 | each group's step reconciles that group's field of the sample as edited so far |
| EditMultiLabel.ManagedSampleFailedPrefix | __plugins__/@groderg/edit-multi-label/__init__.py:48-62 | a group that fails makes the whole modal edit fail |
| EditMultiLabel.ManageModalLabel | __plugins__/@groderg/edit-multi-label/__init__.py:46-62 | `ManageModalLabel.execute` saves the reconciled current sample, or nothing when the edit raises, and leaves the other samples and the registry alone |
| EditMultiLabel.CreateGroundTruthLabel | __plugins__/@groderg/edit-multi-label/__init__.py:170-175 | an empty label or group does nothing; otherwise the label is appended to the end of the group's class list with no duplicate check, and an unknown group raises |
| EditMultiLabel.RemoveFirst | __plugins__/@groderg/edit-multi-label/__init__.py:215 | `list.remove` drops exactly the first occurrence and keeps the other entries in order |
| EditMultiLabel.RegistryDeleteLeavesDuplicate | __plugins__/@groderg/edit-multi-label/__init__.py:213-215 | deleting `cat` from the class list `[cat, cat]` leaves `cat` in it |
| EditMultiLabel.RemoveFirstWithout | __plugins__/@groderg/edit-multi-label/__init__.py:215 | on a list without duplicates, `list.remove(x)` removes every `x` |
| EditMultiLabel.WithoutNoDuplicates | __plugins__/@groderg/edit-multi-label/__init__.py:213-215 | removing labels from a list without duplicates leaves it without duplicates |
| EditMultiLabel.RegistryDeleteAgrees | __plugins__/@groderg/edit-multi-label/__init__.py:213-215 | on a class list without duplicates, the registry delete as written equals the corrected purge |
| EditMultiLabel.PurgeFromRegistry | __plugins__/@groderg/edit-multi-label/__init__.py:213-215 | deleting labels from a class list keeps exactly the classes not deleted, in order |
| EditMultiLabel.PurgedClasses | __plugins__/@groderg/edit-multi-label/__init__.py:204-215 | the registry keeps the same groups after a delete; each class list gets the corrected purge |
| EditMultiLabel.PurgedClassesResult | __plugins__/@groderg/edit-multi-label/__init__.py:204-215 | a group with a non-empty delete request loses every occurrence of the requested classes (the corrected purge), and every other group's class list is unchanged |
| EditMultiLabel.DeleteGroundTruthLabel | __plugins__/@groderg/edit-multi-label/__init__.py:203-217 | `DeleteGroundTruthLabel.execute` removes the requested labels from every sample and then, with the corrected purge, from the registry |
| EditMultiLabel.DeleteStep | __plugins__/@groderg/edit-multi-label/__init__.py:204-215 | one pass of the group loop moves the samples and the registry on by exactly that group's deletion |
| EditMultiLabel.DeleteFromGroup | __plugins__/@groderg/edit-multi-label/__init__.py:209-215 | deleting from one group removes the requested labels from every sample's field of that group, and then from that group's class list only |
| EditMultiLabel.DeleteCascade | __plugins__/@groderg/edit-multi-label/__init__.py:209-215 | after the delete no sample's group field and no class list of the group carries a deleted label (the class list by the corrected purge) |
| DatasetImport.Extension | __plugins__/@groderg/manager-dataset-csv/__init__.py:167 | `splitext(p)[1]` is empty or a single dot followed by no dot and no `/` |
| DatasetImport.CsvExtension | __plugins__/@groderg/manager-dataset-csv/__init__.py:165-170 | a file name `<stem>.csv` under any directory passes the extension check |
| DatasetImport.FirstNotCsv | __plugins__/@groderg/manager-dataset-csv/__init__.py:166-170 | the extension check fails exactly when some path is not a `.csv`, and it reports such a path |
| DatasetImport.CheckImportReady | __plugins__/@groderg/manager-dataset-csv/__init__.py:156-215 | the request is accepted exactly when a directory is given, the list is non-empty, every path is a `.csv`, no group name repeats, and (when tags are asked for) some path holds `_labels.csv` and the first such path has an existing `_tags.csv` beside it |
| DatasetImport.LabelsFileForTags | __plugins__/@groderg/manager-dataset-csv/__init__.py:197-201 | the label file for tags is the first path containing `_labels.csv`, and there is none exactly when no path contains it |
| DatasetImport.LabelsFileForTagsAsWritten | __plugins__/@groderg/manager-dataset-csv/__init__.py:48-51 | the operator's choice finds a file exactly when some path contains `_labels.csv` |
| DatasetImport.LabelsFileForTagsAsWrittenFound | __plugins__/@groderg/manager-dataset-csv/__init__.py:48-51 | the operator's choice is one of the label paths and contains `_labels.csv` |
| DatasetImport.LabelsFileForTagsAgree | __plugins__/@groderg/manager-dataset-csv/__init__.py:48-51 | when all the label paths containing `_labels.csv` are the same file, the operator and the request check choose the same one |
| DatasetImport.TagsFileMismatch | __plugins__/@groderg/manager-dataset-csv/__init__.py:48-51 | for any label paths `[<a>_labels.csv, <b>_labels.csv]`, the request check validates the first and the operator reads the tags of the second |
| DatasetImport.TagsBesideLabels | __plugins__/@groderg/manager-dataset-csv/__init__.py:53 | the tags file of `<stem>_labels.csv` is `<stem>_tags.csv` |
| DatasetImport.DateOfStamped | __plugins__/@groderg/manager-dataset-csv/__init__.py:264-268 | a file named `YYYYMMDD_<rest>` is dated year YYYY, month MM, day DD |
| DatasetImport.StampedToken | __plugins__/@groderg/manager-dataset-csv/__init__.py:265 | the date token of `<digits>_<rest>` is the digits before the first `_` |
| DatasetImport.DateOfSevenDigits | __plugins__/@groderg/manager-dataset-csv/__init__.py:266-268 | a 7-digit token is still accepted, with a one-digit day |
| DatasetImport.ShortTokenFails | __plugins__/@groderg/manager-dataset-csv/__init__.py:266-268 | a date token of at most 6 characters raises, naming the file |
| DatasetImport.UndatedNameFails | __plugins__/@groderg/manager-dataset-csv/__init__.py:265-268 | a file name without `_` that starts with neither a digit nor a sign, such as `img001.jpg`, raises on its year |
| DatasetImport.LabelsByKeyLookup | __plugins__/@groderg/manager-dataset-csv/__init__.py:244-250 | a file name has labels exactly when some row names it, and then they are the labels of the last such row |
| DatasetImport.BuildLabelsForFile | __plugins__/@groderg/manager-dataset-csv/__init__.py:244-250 | the row loop builds that map |
| DatasetImport.MergedFromFile | __plugins__/@groderg/manager-dataset-csv/__init__.py:252-256 | a merged sample's group field holds the labels of the last row naming its basename, or is empty when no row does; nothing else about the sample changes |
| DatasetImport.MergeLabels | __plugins__/@groderg/manager-dataset-csv/__init__.py:252-257 | the sample loop merges every sample and leaves the registry alone |
| DatasetImport.MergeFromResult | __plugins__/@groderg/manager-dataset-csv/__init__.py:240-257 | each extra group's field of each sample comes from that group's file, and nothing else changes |
| DatasetImport.MergeFromReads | __plugins__/@groderg/manager-dataset-csv/__init__.py:240-246 | a merge that succeeds has read every further label file |
| DatasetImport.MergeFromKeeps | __plugins__/@groderg/manager-dataset-csv/__init__.py:252-256 | merging keeps every sample's path, metadata, tags and date |
| DatasetImport.MergeFromField | __plugins__/@groderg/manager-dataset-csv/__init__.py:252-256 | after the merge, the group of each further file holds the labels that file gives the sample's file name, even after later files are merged, because the group names are distinct |
| DatasetImport.MergeFromOther | __plugins__/@groderg/manager-dataset-csv/__init__.py:252-256 | a group that no further file names keeps its field through the merge |
| DatasetImport.MergeFromFailed | __plugins__/@groderg/manager-dataset-csv/__init__.py:240-257 | an unreadable extra file ends the merge with its error |
| DatasetImport.DatedUpToResult | __plugins__/@groderg/manager-dataset-csv/__init__.py:264-269 | for any file-name date parser, dating succeeds exactly when the parser accepts every file name, and then each sample gets its own date and nothing else changes |
| DatasetImport.DatedUpToOk | __plugins__/@groderg/manager-dataset-csv/__init__.py:264-269 | dating the first `n` samples succeeds if and only if the parser accepts each of their file names |
| DatasetImport.DatedUpToAt | __plugins__/@groderg/manager-dataset-csv/__init__.py:264-269 | after dating the first `n` samples, sample `i` carries the date parsed from its own file name when `i < n` and is unchanged otherwise |
| DatasetImport.DatedUpToFailed | __plugins__/@groderg/manager-dataset-csv/__init__.py:264-269 | the first file name the parser rejects ends the import with its error |
| DatasetImport.ClassesUpToResult | __plugins__/@groderg/manager-dataset-csv/__init__.py:272-276 | every group's class list is its file's header cells after the first, in column order, and the registry holds no other group |
| DatasetImport.ClassesUpToFailed | __plugins__/@groderg/manager-dataset-csv/__init__.py:272-276 | a missing label file ends the class reading with its error |
| DatasetImport.PrimarySamplesResult | __plugins__/@groderg/manager-dataset-csv/__init__.py:222-237 | the dataset starts with one sample per row of the first file, with its image path, metadata and first-group labels |
| DatasetImport.ImportedSamplesResult | __plugins__/@groderg/manager-dataset-csv/__init__.py:218-278 | an imported sample carries its path, metadata, date, its labels for every supplied group, no tags, and no field for any other group |
| DatasetImport.ImportedClassesResult | __plugins__/@groderg/manager-dataset-csv/__init__.py:272-276 | the registry holds exactly the supplied groups, each with its header classes |
| DatasetImport.MergeGroups | __plugins__/@groderg/manager-dataset-csv/__init__.py:240-257 | the group loop merges every extra group into the dataset, or reports the first failure |
| DatasetImport.DateAll | __plugins__/@groderg/manager-dataset-csv/__init__.py:264-269 | the sample loop dates every sample with the file-name parser it is given, or fails at the first name the parser rejects |
| DatasetImport.RecordClasses | __plugins__/@groderg/manager-dataset-csv/__init__.py:272-276 | the file loop records every group's class list, or reports the first failure |
| DatasetImport.ImportLabels | __plugins__/@groderg/manager-dataset-csv/__init__.py:218-278 | `_import_labels` builds a fresh dataset with the imported samples and registry, or reports the error that stopped it |
| DatasetImport.FirstRowWithSpec | __plugins__/@groderg/manager-dataset-csv/__init__.py:284 | the tag row of a sample is the first row whose `FileName` is its file name, and there is none exactly when no row names it |
| DatasetImport.TagsUpToResult | __plugins__/@groderg/manager-dataset-csv/__init__.py:283-288 | tag import succeeds exactly when there are no samples, or the file has a `FileName` column and either no tag column or a row for every sample; then each sample gets the tags of its first row appended (none without a tag column) and the samples not yet reached are unchanged |
| DatasetImport.TagsUpToOk | __plugins__/@groderg/manager-dataset-csv/__init__.py:283-288 | tagging the first `n` samples succeeds if and only if `n` is 0, or there is a `FileName` column and each of them has a row or the file has no tag column |
| DatasetImport.TagsUpToAt | __plugins__/@groderg/manager-dataset-csv/__init__.py:283-288 | after tagging the first `n` samples, sample `i` is the one its row tags when `i < n` and is unchanged otherwise |
| DatasetImport.TagsUpToFailed | __plugins__/@groderg/manager-dataset-csv/__init__.py:283-288 | once tagging fails (no `FileName` column, or a sample with no row while the file has a tag column), the import ends there and earlier samples keep their tags |
| DatasetImport.TagSample | __plugins__/@groderg/manager-dataset-csv/__init__.py:284-287 | the column loop appends to a sample's tags the columns marked `1` in its row |
| DatasetImport.ImportTags | __plugins__/@groderg/manager-dataset-csv/__init__.py:280-288 | `_import_tags` saves each sample's tags in turn and reports the error that stopped it, if any |
| DatasetImport.ImportDataset | __plugins__/@groderg/manager-dataset-csv/__init__.py:36-55 | the import operator does nothing without a directory or label files; otherwise it imports the labels and then, when asked and the tags file exists, the tags of the label file the request check validated (the corrected lookup of the second "## Findings" row) |
| DatasetExport.ExportSamples | __plugins__/@groderg/manager-dataset-csv/__init__.py:95 | exporting the samples records one row per sample in order, and fails exactly when some sample has no Classifications in the group |
| DatasetExport.ExportLabels | __plugins__/@groderg/manager-dataset-csv/__init__.py:90-95 | the label export writes the sorted-class header and one row per sample |
| DatasetExport.LabelsFileParses | __plugins__/@groderg/manager-dataset-csv/__init__.py:509-512 | an exported label file reads back with the header `FileName` plus the sorted classes, and one row per sample |
| DatasetExport.ExportThenImportLabels | __plugins__/@groderg/manager-dataset-csv/__init__.py:90-95 | importing an exported label file gives one entry per sample, in order, whose labels are the sample's labels that are in the class list, in sorted class order |
| DatasetExport.TagPoolMembers | __plugins__/@groderg/manager-dataset-csv/__init__.py:368-371 | the accumulated tags are exactly the tags some sample carries |
| DatasetExport.Distinct | __plugins__/@groderg/manager-dataset-csv/__init__.py:372 | `list(set(...))` has the same members and no duplicates |
| DatasetExport.GetAllTags | __plugins__/@groderg/manager-dataset-csv/__init__.py:368-372 | `_get_all_tags` returns every tag any sample carries, each once |
| DatasetExport.EncodeTags | __plugins__/@groderg/manager-dataset-csv/__init__.py:380 | the tag row comprehension computes the one-hot encoding of the sample's tags |
| DatasetExport.ExportCsvTags | __plugins__/@groderg/manager-dataset-csv/__init__.py:374-381 | the tag file is the `FileName` header and one one-hot row per sample, keyed by its basename |
| DatasetExport.ExportThenImportTags | __plugins__/@groderg/manager-dataset-csv/__init__.py:374-381 | importing an exported tag file into samples with the same paths appends to each sample exactly its own tags, in tag-column order |
| DatasetExport.ExportDataset | __plugins__/@groderg/manager-dataset-csv/__init__.py:80-102 | the export operator does nothing without a group or folder and fails on a group with no class list; otherwise it writes the labels file named after the group, with the group's classes as columns and the labels of the field FiftyOne hands the exporter, which is not necessarily the group's field; the tag file is written only when asked and some sample has tags |

## Left out

- User-interface and form building: the `resolve_input` and `resolve_placement` parts and the view parts of the request check.
- DatasetImport.CheckImportReady: leaves out the check that the dataset directory holds files, so `DatasetImport.CheckImport` accepts an empty directory. The code counts the files with `_glob_files` and, when there are none, marks the form invalid with "No matching files" (manager-dataset-csv lines 124-130). It does this without returning, so the return value that `CheckImport` models does not depend on it.
- Image decoding and file sizes: `cv2.imread` and `os.path.getsize` are the `Probe` parameter.
- `open`, `write`, `os.makedirs` and `os.path.exists`: these are a map from path to lines. Written files are returned, not stored.
- The FiftyOne runtime: dataset names and persistence, `from_importer` shuffling and sample limits (none are used), `sample.save()`, `reload_dataset` and delegated execution. Saving is the update of the dataset object.
- `datetime.now()`: the export time stamp is a parameter.
- DatasetExport.ExportDataset: which field FiftyOne's `dataset.export` hands the exporter is the parameter `exported`. The operator passes no `label_field` (manager-dataset-csv lines 88-94), so FiftyOne picks the first Classifications field of the dataset's schema, and the schema order is not modelled. In a dataset with groups A and B, where A comes first, exporting B writes A's labels under B's sorted class list.
- The exporter's context manager writing a partial file when an export raises: a failed export writes nothing.
- pandas type inference is not modelled. The model does not capture these cases:
  - a cell reading `1.0`, ` 1` or `01` counts as 1;
  - a numeric file name cell is read as a number;
  - duplicate column names are renamed;
  - quoted cells can contain commas.
- Carriage returns: lines are taken without terminators, so `\r` is not modelled.
- None paths and None group names in the import operator: the request check rejects them before the operator runs.
- A failed label import still leaves the half-built host dataset: the model returns the error and no dataset.
- The export directory and file name that the exporter objects hold: the operator computes them (`DatasetExport.LabelsPath`, `DatasetExport.TagsPath`), and `close` returns the lines.
- DatasetExport.GetAllTags: promises the members and no duplicates but no order, because `list(set(...))` has no defined order.
- EditMultiLabel.GetLabels: returns a set, because the order of `list(set(...))` is undefined and the callers only test membership.
- EditMultiLabel.DeleteGroundTruthLabel: updates the registry with the corrected purge, which removes every occurrence of a deleted class. The code's `list.remove` at edit-multi-label lines 213-215 removes only the first, so a class created twice keeps one copy (first "## Findings" row). `EditMultiLabel.RegistryDeleteAgrees` proves the two agree on class lists without duplicates.
- EditMultiLabel.DeleteStep: each pass purges the group's class list with the corrected purge, as `DeleteGroundTruthLabel` does.
- EditMultiLabel.DeleteFromGroup: calls the corrected purge `PurgeFromRegistry` instead of the first-occurrence `list.remove`.
- EditMultiLabel.PurgedClasses: specifies the registry after a delete with the corrected purge.
- EditMultiLabel.PurgedClassesResult: states the corrected purge, which differs from the code only on a class list with a duplicate.
- EditMultiLabel.DeleteCascade: its registry clause holds of the corrected purge, not of the code, for a class list with a duplicate.
- DatasetImport.ImportDataset: reads the tags file beside the FIRST labels path containing `_labels.csv` (`DatasetImport.LabelsFileForTags`, the file the request check validates). The code's loop at manager-dataset-csv lines 48-51 takes the LAST one (second "## Findings" row). `DatasetImport.LabelsFileForTagsAgree` proves the two agree when only one file follows the convention.
- Codec.ParseCsv: reports a malformed row where pandas, for rows one cell longer than the header, turns the first column into the index. An empty key cell is the empty string, where pandas reads NaN and the importer builds the path `<dir>/nan`.
- Text.ParseInt: does not accept the surrounding whitespace, digit-group underscores or non-ASCII digits that Python's `int()` accepts. The file names it reads are split on `_`, and whitespace in them is not modelled.

## Findings

| source | as written | input that shows it | evidently intended | confidence | as-written member | corrected member |
|---|---|---|---|---|---|---|
| __plugins__/@groderg/edit-multi-label/__init__.py:213-215 | `list.remove` deletes only the first occurrence of a label from the group's class list, and `CreateGroundTruthLabel` appends with no duplicate check | class list `[cat, cat]` (the label created twice), delete request `[cat]`: the class list is still `[cat]` after the delete | a deleted label is gone from the class list, as it is gone from every sample | medium; not executed | EditMultiLabel.RegistryDeleteLeavesDuplicate | EditMultiLabel.PurgeFromRegistry |
| __plugins__/@groderg/manager-dataset-csv/__init__.py:48-51 | the import operator takes the LAST path containing `_labels.csv`, while the request check at lines 197-201 validates the FIRST one | label paths `[/d/a_labels.csv, /d/b_labels.csv]` (any two stems) with only `/d/a_tags.csv` present: the check accepts, and the operator looks for `/d/b_tags.csv` and silently imports no tags | the operator reads the tags file the request check validated | medium; not executed | DatasetImport.TagsFileMismatch | DatasetImport.LabelsFileForTags |
