# CEDEN to data.ca.gov: the per-record data-quality classifier

CEDEN_to_DataCAGov pulls water-quality, tissue, toxicity, benthic and
habitat records out of the CEDEN data mart and publishes them as text
files. The logic worth modelling sits between the database cursor and the
CSV writer, and is the same in each of four scripts, with differences:

- **Row clean-up.** Every cell goes through `decodeAndStrip`, an allow-list
  character filter. The row is padded to the column count and zipped with
  the column names into a record dict. The main script also fixes the sign
  of longitudes and registers each station.
- **Code-table adapter.** `DictionaryFixer` copies the base table
  `column -> (code -> severity)`. It then renames, removes or (for IR_Field)
  duplicates columns as the dataset needs.
- **Classifier.** For each column of the adapted table it gathers
  severities into `DQ`. It takes their maximum and builds a quality
  indicator from the columns whose values reach that maximum. It then
  labels the record from `DQ_Codes`, or with a number in the IR script.

The model covers four scripts:

- `CEDEN_DataRefresh.py` (the main script);
- `WorkingScripts/CEDEN_DataRefresh.py` (the working refresh);
- `WorkingScripts/CEDEN_Download_and_UpdateV2.py` (UpdateV2);
- `WorkingScripts/CEDEN_for_IR_Tables.py` (the IR script).

## Modules

- `wrappers.dfy`: `Option` and `Result`. An `Err` carries Python's
  exception (`KeyError`, `ValueError`, `TypeError`, `UnboundLocalError`).
- `seqs.dfy`: small facts about slices, used by the proofs.
- `pytext.dfy`: the string operations the scripts use.
  - `str.split` and `str.join`;
  - `filter` and `str.replace`;
  - `re.match` and `re.search` on literal patterns;
  - `int()` and `str()`;
  - slices `[:n]` and `[-n:]`.
- `pydict.dfy`: Python's insertion-ordered dict.
  - `PyDict.Dict` is a value. It holds a key order and a map.
  - `PyDict.MutableDict` is an object for a dict mutated in place.
  - It also has `dict(zip(...))`.
- `schema_ops.dfy`: the code-table adapter's edits as data (`Rename`,
  `Remove`, `Alias`), and their effect on the table.
  - The effect is given as a function.
  - `RunOps`/`FixCopy` perform the edits on a `MutableDict`.
  - Lemmas give frame conditions and the `KeyError` cases.
- `dq_core.dfy`: pieces shared by every classifier: severity lookups,
  `max`/`min` and the QC test `min(DQ) == 0`.
- Main script:
  - `refresh_clean.dfy`: row clean-up, longitude fix, datum, year
    partition, station registry and `selectByAnalyte`.
  - `refresh_fixer.dfy`: `DictionaryFixer`.
  - `refresh_classifier.dfy`: `DQ`, the error sentinel, the
    `col:v1,v2` indicator and the label.
  - `refresh_record.dfy`: the body of `for row in cursor` for a non-WQX
    dataset, with its steps in source order: clean, pad and zip, then fix
    the longitude, store the datum, classify, pick the year file and
    register the station. It also runs the rows of a cursor in turn,
    passing `AllSites` and the leftover `codeVal` from row to row.
- `working_shared.dfy`: the parts the three working scripts share.
  - `str()` without a `None` test, then `decodeAndStrip`;
  - plain lookups;
  - the `', '`-joined indicator of column names;
  - the label without a sentinel;
  - `Spatial_Datum`.
- `working_refresh.dfy`, `update_v2.dfy` and `ir_tables.dfy`: each working
  script's own `DictionaryFixer`, special rules, padding and record
  classification.

### Behaviour modelled as written

The model follows the code wherever it differs from its comments. Lemmas
pin each of these behaviours down.

**Main script:**

- **DNQ year test.** The test reads
  `table == 'IR2018_WQ' or (table == 'IR2018_Tissue' and codeVal == 'DNQ')`.
  So for IR2018_WQ every ResultQualCode value takes the year rule
  (`RefreshClassifier.RqcYearRule`).
- **ND.** Record values are always strings, so ND always adds 1
  (`RefreshClassifier.RqcNdRule`).
- **Result.** The Result column iterates over the characters of the value.
  Its empty-value branch can never run, and no character is a key of
  `{"": 1}` (`RefreshClassifier.ResultAddsNothing`).
- **StationCode.** StationCode looks up the `codeVal` left over from an
  earlier loop, not its own value. The model carries that leftover through
  the column loop. With no leftover it raises `UnboundLocalError`
  (`RefreshClassifier.StationUsesLeftover`).
- **QACode.** After its token loop, QACode falls through to the generic
  branch, which looks up the whole value (`RefreshClassifier.QACodeTokens`).

**Working scripts:**

- **`None` cells.** The three working scripts have no `None` test, so a
  `None` cell becomes the text "None" (`WorkingShared.RecordCells`).
- **No sentinel.** `max(DQ)` raises `ValueError` when nothing was
  gathered (`WorkingRefresh.NothingGatheredRaises`,
  `UpdateV2.NothingGradedRaises`, `IrTables.NothingGradedRaises`).
- **QACode in the indicator.** The QACode loop skips its own name only
  while the indicator is exactly "QACode". So QACode is entered once when
  it is the first column, but once per token otherwise
  (`WorkingShared.QACodeFirstOnce`, `WorkingShared.QACodeRepeatsWhenNotFirst`).
- **Working refresh, WQX_Stations.** Its `DictionaryFixer` branch removes
  Analyte twice, so it always raises `KeyError`
  (`WorkingRefresh.WqxStationsAlwaysRaises`).
- **UpdateV2, BenthicData.** It pads BenthicData rows with two cells,
  under a header with three extra columns. Each BenthicData record is
  therefore one value short (`UpdateV2.BenthicRecordShort`).
- **IR script, IR_ToxicityData.** Its branch renames BatchVerification,
  where the working refresh's branch of the same name removes it
  (`IrTables.IrToxicityKeepsBatchVerification`).
- **IR script, short records.** A short record reaches
  `error2.write(list(...))`, which raises `TypeError`
  (`IrTables.RepeatedColumnRaises`).
- **IR script, `decodeAndStrip`.** Its filter is wider, followed by a
  `replace` chain. It cleans exactly as the other working scripts do
  (`IrTables.IrDecodeAndStripAgrees`).

## Model

| member | source | states |
|---|---|---|
| PyText.StartsWith | CEDEN_DataRefresh.py:119-134 | `re.match` with a literal pattern holds exactly when the pattern is a prefix of the name |
| PyText.ContainsAt | CEDEN_DataRefresh.py:450 | `re.search` for a literal pattern succeeds when the pattern occurs at some position |
| PyText.ContainsWitness | CEDEN_DataRefresh.py:450 | conversely, a successful `re.search` has an occurrence at some position |
| PyText.Head | CEDEN_DataRefresh.py:471 | `s[:n]` is the prefix of `s` of length `min(n, len(s))` |
| PyText.Tail | CEDEN_DataRefresh.py:467 | `s[-n:]` is the suffix of `s` of length `min(n, len(s))` |
| PyText.Split | CEDEN_DataRefresh.py:437 | `split(',')` yields at least one token and no token holds the separator |
| PyText.JoinSplit | CEDEN_DataRefresh.py:437 | joining the tokens of a split with the same separator gives the input back |
| PyText.SplitWithoutSep | CEDEN_DataRefresh.py:437 | a value without a comma is its own only token |
| PyText.JoinSnoc | CEDEN_DataRefresh.py:568 | `'; '.join` of one more part adds the separator and the part to a non-empty join |
| PyText.FilterChars | CEDEN_DataRefresh.py:69 | `''.join(filter(keep, s))` keeps only accepted characters and is never longer than `s` |
| PyText.FilterCharsExact | CEDEN_DataRefresh.py:69 | the filter's result is a subsequence of `s`, holds each accepted character as often as `s` does, and no rejected one |
| PyText.FilterCharsIdempotent | CEDEN_DataRefresh.py:69 | filtering twice with the same test equals filtering once |
| PyText.FilterCharsKeepsAll | CEDEN_DataRefresh.py:69 | a string whose every character is accepted passes through unchanged |
| PyText.FilterAfterDelete | WorkingScripts/CEDEN_for_IR_Tables.py:25 | deleting a pattern made of rejected characters does not change what a later filter keeps |
| PyText.DeleteKeepsChars | WorkingScripts/CEDEN_for_IR_Tables.py:25 | `replace(p, '')` leaves only characters the text already had |
| PyText.DeleteRemovesChar | WorkingScripts/CEDEN_for_IR_Tables.py:25 | `replace(c, '')` of one character leaves no occurrence of it |
| PyText.FilterTwice | WorkingScripts/CEDEN_for_IR_Tables.py:23-25 | filtering by one test and then another is filtering by both |
| PyText.ParseDigits | CEDEN_DataRefresh.py:575 | `int()`'s digit body succeeds exactly on digits with single underscores between digits |
| PyText.NatToStr | WorkingScripts/CEDEN_for_IR_Tables.py:194-196 | `str(n)` of a natural number is a non-empty string of digits |
| PyText.ParseIntToStr | WorkingScripts/CEDEN_for_IR_Tables.py:194-196 | `int(str(i)) == i`: the integer written into DataQuality reads back as itself |
| PyDict.Without | CEDEN_DataRefresh.py:79 | the key order after `pop(k)`: `k` gone, every other key kept in order, distinctness preserved |
| PyDict.Dict.Get | CEDEN_DataRefresh.py:421 | `d[k]` is the stored value when `k` is a key and `KeyError(k)` otherwise |
| PyDict.Dict.Set | CEDEN_DataRefresh.py:78 | `d[k] = v` stores `v`; an existing key keeps its place and a new key is appended |
| PyDict.Dict.Pop | CEDEN_DataRefresh.py:79 | `d.pop(k)` removes exactly `k` from the map and the key order, or raises `KeyError(k)` when it is absent |
| PyDict.Dict.Values | CEDEN_DataRefresh.py:582 | `list(d.values())` has one value per key, in key order |
| PyDict.GetAfterSet | CEDEN_DataRefresh.py:78 | a key just assigned reads as the assigned value; every other key reads as before |
| PyDict.GetAfterPop | CEDEN_DataRefresh.py:79 | a popped key is gone; every other key reads as before |
| PyDict.FromZip | CEDEN_DataRefresh.py:405 | `dict(zip(cols, vals))`: its keys are exactly the first `min(len(cols), len(vals))` column names, each holding the value of its last pairing, in column order when the names are distinct |
| PyDict.FromZipAt | CEDEN_DataRefresh.py:405 | with distinct column names every paired column holds its own value |
| PyDict.ZipPrefixLastWins | CEDEN_DataRefresh.py:405 | a repeated column name holds the value paired with its last occurrence |
| PyDict.ZipPrefixKeys | CEDEN_DataRefresh.py:405 | with distinct column names the keys come in column order |
| PyDict.MutableDict.Copy | CEDEN_DataRefresh.py:92 | `d.copy()` is a fresh object with the same contents |
| PyDict.MutableDict.Assign | CEDEN_DataRefresh.py:78 | `d[k] = v` in place: the new contents are the old ones with `k` set |
| PyDict.MutableDict.Pop | CEDEN_DataRefresh.py:79 | `d.pop(k)` returns the removed value and deletes the key, or raises `KeyError` with nothing changed |
| PyDict.MutableDict.Lookup | CEDEN_DataRefresh.py:78 | `d[k]` on the object is `Get` on its contents |
| SchemaOps.ApplyOps | CEDEN_DataRefresh.py:91-239 | a list of edits applied in order; the first failure is the result |
| SchemaOps.MentionedIff | CEDEN_DataRefresh.py:91-239 | a key is mentioned by a list of edits exactly when some edit touches it |
| SchemaOps.RenameEffect | CEDEN_DataRefresh.py:77-79 | `rename_Dict_Column` needs the old key, moves its table to the new key, drops the old key and leaves every other key untouched |
| SchemaOps.RenameToSelfDeletes | CEDEN_DataRefresh.py:77-79 | renaming a column to its own name deletes it |
| SchemaOps.RemoveEffect | CEDEN_DataRefresh.py:81-82 | `remove_Dict_Column` needs the key and deletes exactly it, keeping the order of the rest |
| SchemaOps.ApplyOpsAppend | CEDEN_DataRefresh.py:91-239 | once an edit has raised, later edits cannot undo it |
| SchemaOps.ApplyOpsFrame | CEDEN_DataRefresh.py:91-239 | a key no edit mentions keeps its presence and its table |
| SchemaOps.ApplyOpsStep | CEDEN_DataRefresh.py:91-239 | the edits raise exactly when one reads a key absent at that point; otherwise the last edit applies to the result of the others |
| SchemaOps.ApplyOpsMissing | CEDEN_DataRefresh.py:77-82 | an edit reading a key that the dict lacks and that no earlier edit creates makes the whole list raise `KeyError` |
| SchemaOps.ApplyOpsPresent | CEDEN_DataRefresh.py:77-82 | edits whose keys are present and untouched by earlier edits run without error |
| SchemaOps.AliasSurvives | CEDEN_DataRefresh.py:224 | a copy `d[to] = d[from]` on keys no other edit touches leaves both holding `from`'s original table |
| SchemaOps.RenameSurvives | CEDEN_DataRefresh.py:77-79 | a rename on keys no other edit touches leaves `to` holding `from`'s original table and `from` gone |
| SchemaOps.RemoveSurvives | CEDEN_DataRefresh.py:81-82 | a key removed by an edit that no later edit touches is absent at the end |
| SchemaOps.WithoutAll | CEDEN_DataRefresh.py:93-106 | the key order after removing several names: exactly the keys not among them, in their order |
| SchemaOps.RemovesEffect | CEDEN_DataRefresh.py:93-106 | removing distinct, present keys deletes exactly them and keeps the rest in order with their tables |
| SchemaOps.RenameDictColumn | CEDEN_DataRefresh.py:77-79 | `rename_Dict_Column` on the object: the new contents are the function's result, or `KeyError` with nothing changed |
| SchemaOps.RemoveDictColumn | CEDEN_DataRefresh.py:81-82 | `remove_Dict_Column` on the object, with the same contract |
| SchemaOps.AliasDictColumn | CEDEN_DataRefresh.py:224 | `d[to] = d[from]` on the object, with the same contract |
| SchemaOps.RunOp | CEDEN_DataRefresh.py:91-239 | one edit on the object agrees with `ApplyOp` |
| SchemaOps.RunOps | CEDEN_DataRefresh.py:91-239 | the edits run in order on the object, stopping at the first that raises, agree with `ApplyOps` |
| SchemaOps.FixCopy | CEDEN_DataRefresh.py:92 | the edits run on a fresh copy, so the base table is left as it was |
| DqCore.Lookups | CEDEN_DataRefresh.py:507-513 | the severities appended for values that are table keys, in order, each drawn from the table |
| DqCore.LookupsNone | CEDEN_DataRefresh.py:507-513 | values none of which is a key add nothing |
| DqCore.LookupsAppend | CEDEN_DataRefresh.py:437-441 | looking up two lists in turn is looking up their concatenation |
| DqCore.MaxOf | CEDEN_DataRefresh.py:515 | `max(DQ)` is an element of `DQ` at least every element, or `ValueError` on an empty list |
| DqCore.MinOf | CEDEN_DataRefresh.py:559 | `min(DQ)` is an element of `DQ` at most every element, or `ValueError` on an empty list |
| DqCore.MinIsZero | CEDEN_DataRefresh.py:559 | with non-negative severities, `min(DQ) == 0` exactly when 0 is in `DQ` |
| DqCore.AddLookups | CEDEN_DataRefresh.py:507-513 | the imperative lookup loop appends exactly `Lookups` |
| RefreshClean.DecodeAndStrip | CEDEN_DataRefresh.py:68-70 | the result keeps exactly the characters of `s` in printable ASCII minus pipe and double quote, in order and multiplicity, and no excluded character |
| RefreshClean.DecodeAndStripIdempotent | CEDEN_DataRefresh.py:68-70 | cleaning clean text changes nothing |
| RefreshClean.CleanCell | CEDEN_DataRefresh.py:397 | a `None` cell becomes `''`; any other cell is its cleaned text (the WQX branch at 374-376 gives the same) |
| RefreshClean.PadRow | CEDEN_DataRefresh.py:402-403 | the padding loop makes the row as long as the columns, adding only `''` cells at the end |
| RefreshClean.RecordFields | CEDEN_DataRefresh.py:397-405 | every column is a record key, holding the cleaned cell of its last occurrence or `''` past the row |
| RefreshClean.BuildRecord | CEDEN_DataRefresh.py:397-405 | the imperative clean, pad and zip loop builds exactly the record |
| RefreshClean.FixLongitude | CEDEN_DataRefresh.py:407-412 | a longitude parsing to `v` with `0 < v < 10000` becomes `-v`; other numbers and unparsable text leave the record as it was; a missing Longitude column raises `KeyError`, which the `except ValueError` does not catch |
| RefreshClean.FixLongitudeIdempotent | CEDEN_DataRefresh.py:407-412 | a fixed longitude is never strictly between 0 and 10000, so fixing twice is fixing once |
| RefreshClean.DatumFor | CEDEN_DataRefresh.py:420-424 | the WQX_Stations datum of the record's station when it is listed, `'NR'` otherwise; `KeyError` when the record has no StationCode |
| RefreshClean.SetDatum | CEDEN_DataRefresh.py:413-424 | IR and BenthicData records are unchanged; every other record gets `DatumFor` under Datum and nothing else changes |
| RefreshClean.PartitionOf | CEDEN_DataRefresh.py:576-581 | every year passes exactly one of `y < 2000`, `1999 < y < 2010`, `y > 2009` |
| RefreshClean.RecordYear | CEDEN_DataRefresh.py:575 | the year is `int()` of the first four characters of SampleDate; `KeyError` or `ValueError` otherwise |
| RefreshClean.RegisterSite | CEDEN_DataRefresh.py:587-590 | a new station is registered with its name, coordinates and datum; an existing entry is never overwritten |
| RefreshClean.Kept | CEDEN_DataRefresh.py:638-647 | the data rows selected are those whose filter field is a listed analyte, in order |
| RefreshClean.SelectWritesKept | CEDEN_DataRefresh.py:631-647 | a successful selection writes the header then exactly the kept rows |
| RefreshClean.SelectMissingField | CEDEN_DataRefresh.py:638 | a data row without the filter column raises `KeyError` |
| RefreshClean.SelectByAnalyte | CEDEN_DataRefresh.py:631-647 | the imperative row loop agrees with `Select` |
| RefreshClean.SelectErrSticky | CEDEN_DataRefresh.py:631-647 | once a row raises, every longer run raises the same error |
| RefreshFixer.DictionaryFixer | CEDEN_DataRefresh.py:91-239 | the fixer's edits run on a fresh copy and agree with `ApplyOps` of the branches whose file-name tests hold; the base table is unchanged |
| RefreshFixer.FixerOpsWqx | CEDEN_DataRefresh.py:93-106 | only the WQX_Stations branch runs for "WQX_Stations" |
| RefreshFixer.FixerOpsIrField | CEDEN_DataRefresh.py:218-228 | only the IR_Field branch runs for "IR_Field" |
| RefreshFixer.FixerOpsTissue | CEDEN_DataRefresh.py:119-124 | only the TissueData branch runs for "TissueData", although four branches use prefix tests |
| RefreshFixer.WqxStationsLeavesStationAndDatum | CEDEN_DataRefresh.py:93-106 | for WQX_Stations exactly StationCode and Datum are left, in that order, with their original tables |
| RefreshFixer.IrFieldAnalyteAlias | CEDEN_DataRefresh.py:218-228 | for IR_Field, Analyte and AnalyteName both survive holding Analyte's original table |
| RefreshFixer.TissueWithoutMatrixFails | CEDEN_DataRefresh.py:119-124 | a table lacking a column a branch reads first makes the fixer raise `KeyError`, e.g. TissueData without MatrixName |
| RefreshClassifier.RqcYearRule | CEDEN_DataRefresh.py:466-470 | for IR2018_WQ (any value) and IR2018_Tissue with DNQ: `KeyError('SampleDate')` when the record has no SampleDate; `ValueError` when its last four characters are not an integer; otherwise 6 is added exactly when that year is before 2008, and nothing else is added |
| RefreshClassifier.RqcDnqRule | CEDEN_DataRefresh.py:471-473 | DNQ elsewhere: `KeyError('SampleDate')` without SampleDate; `ValueError` when its first four characters are not an integer; otherwise 6 when that year is before 2008, else the table's DNQ severity |
| RefreshClassifier.RqcNdRule | CEDEN_DataRefresh.py:474-485 | ND adds 1 whatever the table and the Result say |
| RefreshClassifier.RqcLookupRule | CEDEN_DataRefresh.py:486-489 | any other value adds its table severity, if it has one |
| RefreshClassifier.ColumnStep | CEDEN_DataRefresh.py:430-513 | one column only appends to `DQ`, and a column missing from the record raises `KeyError` |
| RefreshClassifier.QACodeTokens | CEDEN_DataRefresh.py:432-441 | QACode adds each listed token's severity, then the whole value's |
| RefreshClassifier.SurrogateRule | CEDEN_DataRefresh.py:454-457 | Analyte or AnalyteName containing "Surrogate" or "surrogate" adds 0, any other value nothing |
| RefreshClassifier.NonProjectStation | CEDEN_DataRefresh.py:446-451 | a StationCode containing 000NONPJ adds 0 |
| RefreshClassifier.StationUsesLeftover | CEDEN_DataRefresh.py:452-453 | any other StationCode looks up the leftover `codeVal`; with none it raises `UnboundLocalError` |
| RefreshClassifier.ResultAddsNothing | CEDEN_DataRefresh.py:490-506 | with a table none of whose keys is one character long, Result adds nothing |
| RefreshClassifier.GatherMissingColumn | CEDEN_DataRefresh.py:437 | a code-table column the record lacks raises `KeyError` |
| RefreshClassifier.GatherSeverities | CEDEN_DataRefresh.py:426-513 | the imperative column loop agrees with the functional gathering over the columns |
| RefreshClassifier.AddColumn | CEDEN_DataRefresh.py:430-513 | one column with its inner loops agrees with `ColumnStep` |
| RefreshClassifier.Sentinel | CEDEN_DataRefresh.py:514-521 | `MaxDQ` is the maximum of a non-empty `DQ`; an empty `DQ` becomes `[7]` with `MaxDQ` 7 |
| RefreshClassifier.IndicatorEntries | CEDEN_DataRefresh.py:523-544 | each indicator entry is `col:v1,...` naming a column and a non-empty list of its values, each graded the maximum |
| RefreshClassifier.IndicatorList | CEDEN_DataRefresh.py:526-544 | at most one entry per column |
| RefreshClassifier.IndicatorExact | CEDEN_DataRefresh.py:526-544 | the indicator loop raises exactly when a column is missing from the record; otherwise it appends exactly `IndicatorList`, the `col:` entry of each column with values graded the maximum, in column order |
| RefreshClassifier.IndicatorListComplete | CEDEN_DataRefresh.py:539-544 | a column with at least one value graded the maximum has its entry in the list |
| RefreshClassifier.IndicatorComplete | CEDEN_DataRefresh.py:523-544 | the same for the indicator the loop builds from an empty `QInd` over the code-table columns |
| RefreshClassifier.IndicatorFromEmpty | CEDEN_DataRefresh.py:523-544 | from an empty `QInd` over columns the record has, the loop succeeds and builds exactly `IndicatorList` |
| RefreshClassifier.CollectIndicator | CEDEN_DataRefresh.py:523-544 | the imperative indicator loop agrees with `IndicatorCols` |
| RefreshClassifier.CollectEqMax | CEDEN_DataRefresh.py:539-541 | the inner loop collects exactly the values graded with the maximum, in order |
| RefreshClassifier.LabelMetaData | CEDEN_DataRefresh.py:559-560 | a 0 in `DQ` labels the record `DQ_Codes[0]` and leaves its indicator as it was |
| RefreshClassifier.LabelPassed | CEDEN_DataRefresh.py:561-562 | without a 0, a maximum of 1 labels it `DQ_Codes[1]`, again without an indicator |
| RefreshClassifier.LabelOther | CEDEN_DataRefresh.py:563-568 | otherwise the maximum's label is stored with the special-rules note when the maximum is 6 and no column explains it, the `'; '`-joined entries else |
| RefreshClassifier.Label | CEDEN_DataRefresh.py:559-568 | a label that is found is one of `DQ_Codes`' names, stored under DataQuality; only DataQuality and DataQualityIndicator change |
| RefreshClassifier.Classify | CEDEN_DataRefresh.py:426-568 | the classified record carries one of `DQ_Codes`' names under DataQuality, and every other column keeps its presence and its value |
| RefreshClassifier.RqcRule | CEDEN_DataRefresh.py:458-489 | the ResultQualCode rules add at most one severity, which is 1, 6 or the value's own table severity; they raise only `KeyError('SampleDate')` or `ValueError`, and only for DNQ or IR2018_WQ |
| RefreshClassifier.GenericRule | CEDEN_DataRefresh.py:507-513 | a column with no special rule adds its value's table severity, if it has one, and leaves its value as the `codeVal` |
| RefreshClassifier.GatherNonNegative | CEDEN_DataRefresh.py:426-513 | with non-negative code tables every gathered severity is non-negative |
| RefreshClassifier.GenericGathered | CEDEN_DataRefresh.py:426-513 | the table severity of a generic column's value is among the gathered severities |
| RefreshClassifier.ClassifyLabelled | CEDEN_DataRefresh.py:426-568 | an accepted classification is `Label` applied to the gathered severities, their maximum and the indicator built for it |
| RefreshClassifier.ClassifyZero | CEDEN_DataRefresh.py:559-560 | a 0 among the gathered severities makes the record exactly the input with DataQuality `MetaData` |
| RefreshClassifier.ClassifyPassed | CEDEN_DataRefresh.py:561-562 | without a 0 and with a maximum of at most 1, the record is exactly the input with DataQuality `Passed` |
| RefreshClassifier.ClassifyWorst | CEDEN_DataRefresh.py:563-568 | otherwise the maximum is a code of `DQ_Codes` and the record is the input with its name under DataQuality and, under DataQualityIndicator, the special-rules note when the maximum is 6 and no column explains it, else the `'; '`-joined `IndicatorList` |
| RefreshClassifier.LabelWorst | CEDEN_DataRefresh.py:563-568 | a label found for a maximum above 1 without a 0 is the maximum's name with the indicator |
| RefreshClassifier.ClassifyMetaData | CEDEN_DataRefresh.py:507-560 | a generic column whose value is graded 0 makes the record a MetaData record, whatever the other columns hold |
| RefreshClassifier.ClassifiedHasColumns | CEDEN_DataRefresh.py:437 | a record the classifier accepts has every code-table column |
| RefreshClassifier.ClassifyGraded | CEDEN_DataRefresh.py:507-568 | a generic column graded `x` makes the label MetaData or the name of a severity of at least `x` |
| RefreshClassifier.LabelGraded | CEDEN_DataRefresh.py:559-568 | the label is MetaData or the name of a severity at least as high as every gathered one |
| RefreshClassifier.NothingGatheredIsError | CEDEN_DataRefresh.py:514-521 | a record for which no column gathered anything is labelled 'Error in data' |
| RefreshClassifier.ClassifyRecord | CEDEN_DataRefresh.py:426-568 | the imperative classifier agrees with `Classify` |
| RefreshRecord.RecordKeys | CEDEN_DataRefresh.py:397-405 | after padding, the record's keys are exactly the column names |
| RefreshRecord.Prepared | CEDEN_DataRefresh.py:397-424 | cleaning, zipping, fixing the longitude and storing the datum succeed exactly when the longitude column exists and, where a datum is stored, StationCode does; the keys are then the columns, plus Datum where a datum is stored |
| RefreshRecord.PreparedCell | CEDEN_DataRefresh.py:397-405 | a column other than the longitude and Datum reaches the classifier holding the cleaned cell of its last occurrence, or `''` past the row |
| RefreshRecord.PreparedCells | CEDEN_DataRefresh.py:397-424 | the longitude holds its fixed value; Datum holds the WQX_Stations datum or `'NR'` where a datum is stored; every other column holds what the zip gave it |
| RefreshRecord.ProcessRecord | CEDEN_DataRefresh.py:395-590 | one row through all the steps: only DataQuality and DataQualityIndicator differ from the prepared record; DataQuality is a `DQ_Codes` name; a year file exactly when not IR; the station is registered and earlier stations keep their entries |
| RefreshRecord.Register | CEDEN_DataRefresh.py:575-590 | the classified record and `codeVal` pass through; a year file exactly when not IR; `AllSites` is updated by `RegisterSite` |
| RefreshRecord.ProcessRow | CEDEN_DataRefresh.py:395-590 | the imperative row body agrees with `ProcessRecord` |
| RefreshRecord.ProcessParts | CEDEN_DataRefresh.py:395-590 | a processed row was prepared, classified, and then registered |
| RefreshRecord.ProcessMetaData | CEDEN_DataRefresh.py:397-560 | a row whose cell in a generic column is graded 0 is written as the prepared record with DataQuality `MetaData` |
| RefreshRecord.ProcessDatumGraded | CEDEN_DataRefresh.py:413-568 | with a Datum table grading `'NR'` 3 (`Datum_list` at line 756), a station missing from WQX_Stations gets Datum `'NR'` and a label of MetaData or of a severity of at least 3 |
| RefreshRecord.ProcessSite | CEDEN_DataRefresh.py:406-590 | the row's station is in `AllSites`; a new station is entered with its name, latitude, the fixed longitude and the datum the row stored |
| RefreshRecord.ProcessRows | CEDEN_DataRefresh.py:393-590 | the rows of a cursor in turn write one record and one partition choice per row |
| RefreshRecord.RowsKeepSites | CEDEN_DataRefresh.py:587-590 | a station in `AllSites` before the cursor keeps its entry |
| RefreshRecord.RowsPartitioned | CEDEN_DataRefresh.py:575-581 | every written record goes to a year file exactly when the tables are not IR |
| RefreshRecord.RowsRegistered | CEDEN_DataRefresh.py:587-590 | every written record has a `DQ_Codes` name and its station in the final `AllSites` |
| RefreshRecord.ProcessCursor | CEDEN_DataRefresh.py:393-590 | the imperative cursor loop agrees with `ProcessRows` |
| RefreshRecord.RowsErrSticky | CEDEN_DataRefresh.py:393-590 | once a row raises, every longer cursor raises the same error |
| WorkingShared.DecodeAndStrip | WorkingScripts/CEDEN_DataRefresh.py:61-70 | keeps exactly the characters in printable ASCII minus pipe, both quotes and backquote, in order and multiplicity |
| WorkingShared.DecodeAndStripIdempotent | WorkingScripts/CEDEN_DataRefresh.py:68-70 | cleaning clean text changes nothing |
| WorkingShared.RecordCells | WorkingScripts/CEDEN_DataRefresh.py:436-440 | a `None` cell reaches the record as "None", any other as its cleaned text, padding columns as `''` |
| WorkingShared.NoneIsClean | WorkingScripts/CEDEN_DataRefresh.py:436 | the text "None" passes the filter unchanged |
| WorkingShared.PlainGatherFails | WorkingScripts/CEDEN_Download_and_UpdateV2.py:263-271 | plain gathering raises exactly when a table column is missing from the record |
| WorkingShared.PlainGatherExact | WorkingScripts/CEDEN_Download_and_UpdateV2.py:263-271 | otherwise `DQ` holds exactly the severities the columns' values are graded with |
| WorkingShared.GatherPlain | WorkingScripts/CEDEN_Download_and_UpdateV2.py:263-271 | the imperative plain loop agrees with `PlainGather` |
| WorkingShared.GradedGathered | WorkingScripts/CEDEN_Download_and_UpdateV2.py:263-271 | a value graded `x` in some column puts `x` into `DQ` |
| WorkingShared.ZeroGathered | WorkingScripts/CEDEN_Download_and_UpdateV2.py:263-271 | severity 0 is gathered exactly when some column's value is graded 0 |
| WorkingShared.MaxDQ | WorkingScripts/CEDEN_DataRefresh.py:482 | `max(DQ)` without a sentinel: `ValueError` on an empty `DQ` |
| WorkingShared.NameColsJoin | WorkingScripts/CEDEN_DataRefresh.py:483-509 | the indicator loop builds exactly the `', '`-join of the counted column names |
| WorkingShared.NamedColumns | WorkingScripts/CEDEN_DataRefresh.py:483-509 | a column name is in `QInd` exactly when one of its values has the maximum severity and that maximum is neither 0 nor 1 |
| WorkingShared.NameLoop | WorkingScripts/CEDEN_DataRefresh.py:487-498 | the imperative inner loop over one column's values agrees with `NameValues` |
| WorkingShared.CollectNames | WorkingScripts/CEDEN_DataRefresh.py:483-509 | the imperative indicator loop agrees with `NameCols` |
| WorkingShared.NamesEmptyForLowMax | WorkingScripts/CEDEN_DataRefresh.py:489-490 | a maximum of 0 or 1 leaves `QInd` empty |
| WorkingShared.QACodeFirstOnce | WorkingScripts/CEDEN_DataRefresh.py:491-496 | with QACode first, "QACode" is entered at most once |
| WorkingShared.QACodeRepeatsWhenNotFirst | WorkingScripts/CEDEN_DataRefresh.py:491-496 | after "StationCode", two QACode tokens graded 4 give "StationCode, QACode, QACode" |
| WorkingShared.TextLabel | WorkingScripts/CEDEN_DataRefresh.py:510-514 | a 0 in `DQ` gives `DQ_Codes[0]` and leaves the indicator; otherwise the maximum's label with `QInd` |
| WorkingShared.TextLabelCases | WorkingScripts/CEDEN_DataRefresh.py:510-514 | the two label cases, each stated in terms of `DQ`'s contents |
| WorkingShared.LabelKeepsDatum | WorkingScripts/CEDEN_DataRefresh.py:510-521 | the label step writes only the two quality columns, so the datum lookup sees the record's original StationCode |
| WorkingShared.LabelThenDatum | WorkingScripts/CEDEN_DataRefresh.py:510-521 | label then datum: the QC label when `DQ` has a 0, else the maximum's label and `QInd` |
| WorkingShared.SpatialDatum | WorkingScripts/CEDEN_DataRefresh.py:515-521 | the WQX_Sites datum of the record's station, `'NR'` on a `KeyError` |
| WorkingShared.AddDatum | WorkingScripts/CEDEN_DataRefresh.py:515-521 | `Spatial_Datum` is set unless the file skips it, and nothing else changes |
| WorkingShared.Scale | WorkingScripts/CEDEN_DataRefresh.py:141 | a `DQ_Codes` dict has the keys 0, 1, ... in the order of its labels |
| WorkingRefresh.DictionaryFixer | WorkingScripts/CEDEN_DataRefresh.py:203-341 | the fixer's edits of fourteen exact file-name branches run on a fresh copy |
| WorkingRefresh.UnlistedUnchanged | WorkingScripts/CEDEN_DataRefresh.py:203-341 | an unlisted file name gets an unchanged copy |
| WorkingRefresh.WqxStationsAlwaysRaises | WorkingScripts/CEDEN_DataRefresh.py:205-218 | WQX_Stations raises `KeyError('Analyte')` whatever the table holds |
| WorkingRefresh.IrFieldAnalyteAlias | WorkingScripts/CEDEN_DataRefresh.py:323-331 | for IR_Field, Analyte and AnalyteName both survive holding Analyte's original table |
| WorkingRefresh.StepIsPlain | WorkingScripts/CEDEN_DataRefresh.py:444-481 | columns other than the surrogate and ResultQualCode columns add what the plain lookups add |
| WorkingRefresh.QACodeTokensOnly | WorkingScripts/CEDEN_DataRefresh.py:445-448 | QACode adds its tokens' severities only, not the whole value's |
| WorkingRefresh.SurrogateRule | WorkingScripts/CEDEN_DataRefresh.py:449-451 | a `[Ss]urrogate` Analyte or AnalyteName adds 0, any other value nothing |
| WorkingRefresh.RqcAsMainScript | WorkingScripts/CEDEN_DataRefresh.py:452-477 | ResultQualCode and ResQualCode add exactly what the main script adds for them |
| WorkingRefresh.EmptyResultAddsOne | WorkingScripts/CEDEN_DataRefresh.py:478-481 | an empty Result adds 1, since the value is looked up whole |
| WorkingRefresh.GatherReadsAll | WorkingScripts/CEDEN_DataRefresh.py:444-481 | a loop that ends normally has read every column of the record |
| WorkingRefresh.GatherIsPlain | WorkingScripts/CEDEN_DataRefresh.py:444-481 | without surrogate and ResultQualCode columns the loop is the plain one |
| WorkingRefresh.GatherSeverities | WorkingScripts/CEDEN_DataRefresh.py:444-481 | the imperative `DQ` loop agrees with `GatherCols` |
| WorkingRefresh.Pads | WorkingScripts/CEDEN_DataRefresh.py:437-440 | two padding cells for IR and BenthicData, three otherwise |
| WorkingRefresh.Classify | WorkingScripts/CEDEN_DataRefresh.py:444-521 | `DQ`, `max(DQ)`, `QInd`, the label, then the datum unless IR or BenthicData |
| WorkingRefresh.NothingGatheredRaises | WorkingScripts/CEDEN_DataRefresh.py:482 | a record for which nothing was gathered raises `ValueError` |
| WorkingRefresh.ClassifyLabels | WorkingScripts/CEDEN_DataRefresh.py:482-514 | on the 0..6 scale, a 0 makes a QC record; otherwise the maximum's label is stored with `QInd`, the joined names of the columns reaching it |
| WorkingRefresh.ClassifyRecord | WorkingScripts/CEDEN_DataRefresh.py:443-521 | the imperative classifier agrees with `Classify` |
| UpdateV2.DictionaryFixer | WorkingScripts/CEDEN_Download_and_UpdateV2.py:135-189 | the fixer's edits run on a fresh copy; the base table is unchanged |
| UpdateV2.UnlistedUnchanged | WorkingScripts/CEDEN_Download_and_UpdateV2.py:135-189 | an unlisted file name gets an unchanged copy |
| UpdateV2.ListedRunsItsBranch | WorkingScripts/CEDEN_Download_and_UpdateV2.py:135-189 | a listed file name runs exactly its own branch's edits |
| UpdateV2.MissingFirstColumnRaises | WorkingScripts/CEDEN_Download_and_UpdateV2.py:131-133 | a branch whose first edit names an absent column raises `KeyError` for it |
| UpdateV2.WqxLeavesStationCode | WorkingScripts/CEDEN_Download_and_UpdateV2.py:137-151 | for WQX_Stations only StationCode is left, with its original table |
| UpdateV2.Pads | WorkingScripts/CEDEN_Download_and_UpdateV2.py:256-259 | two padding cells for BenthicData, three otherwise |
| UpdateV2.BenthicRecordShort | WorkingScripts/CEDEN_Download_and_UpdateV2.py:213-214 | a BenthicData record has one value fewer than the header's columns |
| UpdateV2.Classify | WorkingScripts/CEDEN_Download_and_UpdateV2.py:263-309 | plain `DQ`, `max(DQ)`, `QInd`, the label, then the datum unless BenthicData |
| UpdateV2.NothingGradedRaises | WorkingScripts/CEDEN_Download_and_UpdateV2.py:272 | a record none of whose values is graded raises `ValueError` |
| UpdateV2.GatheredOnScale | WorkingScripts/CEDEN_Download_and_UpdateV2.py:100-101 | with every column present, every gathered severity lies on the 0..5 scale |
| UpdateV2.ClassifyQcRecord | WorkingScripts/CEDEN_Download_and_UpdateV2.py:300-301 | a value graded 0 in some column labels the record `DQ_Codes[0]` |
| UpdateV2.ClassifyMaxLabel | WorkingScripts/CEDEN_Download_and_UpdateV2.py:272-304 | with some value graded and none graded 0, the label is the maximum's and the indicator the joined names of the columns reaching it |
| UpdateV2.ClassifyRecord | WorkingScripts/CEDEN_Download_and_UpdateV2.py:262-309 | the imperative classifier agrees with `Classify` |
| IrTables.IrDecodeAndStripAgrees | WorkingScripts/CEDEN_for_IR_Tables.py:19-26 | the IR cleaning equals the other working scripts' `decodeAndStrip` |
| IrTables.ChainKeepsOnlyAllowed | WorkingScripts/CEDEN_for_IR_Tables.py:22-26 | every character left after the chain passed the filter and is none of the deleted controls |
| IrTables.IrRecordIsRecord | WorkingScripts/CEDEN_for_IR_Tables.py:144-146 | the record is the working scripts' record with two padding cells |
| IrTables.DictionaryFixer | WorkingScripts/CEDEN_for_IR_Tables.py:33-110 | the fixer's edits run on a fresh copy; the base table is unchanged |
| IrTables.UnlistedUnchanged | WorkingScripts/CEDEN_for_IR_Tables.py:33-110 | an unlisted file name gets an unchanged copy |
| IrTables.ListedRunsItsBranch | WorkingScripts/CEDEN_for_IR_Tables.py:33-110 | a listed file name runs exactly its own branch |
| IrTables.IrWaterChemistryEffect | WorkingScripts/CEDEN_for_IR_Tables.py:99-109 | ResQualCode, AnalyteName and Replicate hold the original ResultQualCode, Analyte and ResultsReplicate tables; the old names, BatchVerification and CollectionReplicate are gone; other keys unchanged |
| IrTables.IrToxicityKeepsBatchVerification | WorkingScripts/CEDEN_for_IR_Tables.py:76-85 | BatchVerification's table is kept under BatchVerificationCode |
| IrTables.Classify | WorkingScripts/CEDEN_for_IR_Tables.py:158-197 | `DQ`, `max`, `QInd`, then DataQuality 0 when `min(DQ) == 0`, else `MaxDQ` with the indicator |
| IrTables.NothingGradedRaises | WorkingScripts/CEDEN_for_IR_Tables.py:167 | a record none of whose values is graded raises `ValueError` |
| IrTables.QcRecordGetsZero | WorkingScripts/CEDEN_for_IR_Tables.py:193-194 | a value graded 0 gives DataQuality "0" and keeps the indicator cell |
| IrTables.MaxRecordGetsIndicator | WorkingScripts/CEDEN_for_IR_Tables.py:167-197 | without a 0, DataQuality is the maximum severity and the indicator the joined names of the columns reaching it |
| IrTables.WriteRow | WorkingScripts/CEDEN_for_IR_Tables.py:198-206 | a full record is written as its values; a short one raises `TypeError` at `error2.write` |
| IrTables.FullRowWritten | WorkingScripts/CEDEN_for_IR_Tables.py:198-206 | with distinct columns and a full row, a classified record is written whole, the cleaned cells first |
| IrTables.ProcessRowWrites | WorkingScripts/CEDEN_for_IR_Tables.py:198-206 | a classified record with all its columns is written as its values |
| IrTables.FullRecord | WorkingScripts/CEDEN_for_IR_Tables.py:144-146 | with distinct names and a full row, the record's keys are the columns in order, each holding its cleaned cell |
| IrTables.RepeatedColumnRaises | WorkingScripts/CEDEN_for_IR_Tables.py:198-204 | a header that repeats a column name makes the row raise `TypeError` at the error writer |
| IrTables.ElementsCount | WorkingScripts/CEDEN_for_IR_Tables.py:198 | a sequence has as many places as distinct elements exactly when none repeats |
| IrTables.WriteRecord | WorkingScripts/CEDEN_for_IR_Tables.py:144-206 | the imperative per-row work agrees with `ProcessRow` |

## Left out

- Database access (the ODBC connection, cursors and SQL text), CSV
  readers and writers, file opening, `os.mkdir` and the deletion of small
  partition files: they are I/O. A cursor row is a parameter. The written
  rows are the values the model computes.
- The WQX_Stations file read into `WQX_Sites`: it is a parameter map
  from station code to datum.
- Uploads to data.ca.gov and the `By_RB` path-building loop around
  `selectByAnalyte`: network and filesystem plumbing.
- The outer loop over tables, the `count` bookkeeping, timing and
  printing: they do not affect any record.
- The main script's WQX_Stations branch is covered only in its cell
  cleaning (`RefreshClean.CleanCell`) and longitude fix
  (`RefreshClean.FixLongitude`). Writing its rows is I/O.
- RefreshClean.FixLongitude: `float()` and the float's text are
  parameters (`parse`, `show`). The model does not capture Python's float
  syntax or rounding.
- The literal code tables and `DQ_Codes`: the classifiers take them as
  parameters. Only the few entries the lemmas name are written out, for
  example `Result_list = {"": 1}` and the 0..5 scale of UpdateV2.
- The other scripts under WorkingScripts/ (RowByRow, SafeToSwim,
  SQLReturnLinkedTable, FHAB_update, PushToDataCAGov): SQL, pandas and
  upload plumbing, or another copy of `decodeAndStrip`.
- RefreshClean.DecodeAndStrip, WorkingShared.DecodeAndStrip: `str(t)` is
  the text of the cell. Python's `str` of non-string database values
  (dates, decimals) is not modelled.
- PyText.ParseDigits: `int()` is modelled for ASCII digits, an optional
  sign, ASCII whitespace and single underscores. Unicode digits and
  whitespace are not.
