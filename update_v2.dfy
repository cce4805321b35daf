/** The per-record classifier of WorkingScripts/CEDEN_Download_and_UpdateV2.py:
    a six-branch `DictionaryFixer` over the thirteen-column base table, plain
    table lookups into `DQ` (no special rules), `max(DQ)` without a
    sentinel, the `QInd` string of column names, the six-step `DQ_Codes`
    scale and the `Spatial_Datum` lookup for every file but BenthicData. */
module UpdateV2 {
  import opened Wrappers
  import opened PyText
  import opened PyDict
  import opened SchemaOps
  import opened DqCore
  import RefreshClean
  import opened WorkingShared
  import opened RefreshClassifier
  import WR = WorkingRefresh

  // ------------------------------------------------------------ DictionaryFixer

  /** The WQX_Stations branch removes every base column but StationCode. */
  const WqxRemoved: seq<string> :=
    ["Analyte", "Result", "MatrixName", "ResultsReplicate", "QACode", "BatchVerification", "ResultQualCode",
     "TargetLatitude", "SampleTypeCode", "SampleDate", "ProgramName", "CollectionReplicate"]

  /** The edits `DictionaryFixer(Codes_Dict, filename)` performs. The base
      table has the key order of WorkingScripts/CEDEN_DataRefresh.py, and the
      five other branches make the same edits as that script's branches of
      the same name. */
  function FixerOps(filename: string): seq<Op> {
    WR.When(filename == "WQX_Stations", Removes(WqxRemoved))
    + WR.When(filename == "BenthicData", WR.BenthicOps)
    + WR.When(filename == "TissueData", WR.TissueOps)
    + WR.When(filename == "WaterChemistryData", WR.WaterChemistryOps)
    + WR.When(filename == "ToxicityData", WR.ToxicityOps)
    + WR.When(filename == "HabitatData", WR.HabitatOps)
  }

  const FixedFiles: set<string> :=
    {"WQX_Stations", "BenthicData", "TissueData", "WaterChemistryData", "ToxicityData", "HabitatData"}

  /** `Codes_Dict_Alt = DictionaryFixer(Codes_Dict, filename)` on a fresh copy. */
  method DictionaryFixer(codeColumns: MutableDict<CodeTable>, filename: string)
    returns (m: MutableDict<CodeTable>, err: Option<PyError>)
    requires codeColumns.Valid()
    ensures fresh(m) && m.Valid()
    ensures ApplyOps(codeColumns.Contents(), FixerOps(filename))
            == if err.None? then Ok(m.Contents()) else Err(err.value)
  {
    m, err := FixCopy(codeColumns, FixerOps(filename));
  }

  /** A file name without a branch gets an unchanged copy. */
  lemma UnlistedUnchanged<V>(d: Dict<V>, filename: string)
    requires d.Valid() && filename !in FixedFiles
    ensures ApplyOps(d, FixerOps(filename)) == Ok(d)
  {
  }

  /** A listed file name runs exactly its own branch's edits. */
  lemma ListedRunsItsBranch(filename: string)
    requires filename in FixedFiles
    ensures FixerOps(filename) ==
      if filename == "WQX_Stations" then Removes(WqxRemoved)
      else if filename == "BenthicData" then WR.BenthicOps
      else if filename == "TissueData" then WR.TissueOps
      else if filename == "WaterChemistryData" then WR.WaterChemistryOps
      else if filename == "ToxicityData" then WR.ToxicityOps
      else WR.HabitatOps
  {
    // Names of equal length differ in their first letter.
    if filename == "WQX_Stations" || filename == "ToxicityData" {
      assert |filename| == 12 && (filename[0] == 'W' <==> filename == "WQX_Stations");
    } else if filename == "BenthicData" || filename == "HabitatData" {
      assert |filename| == 11 && (filename[0] == 'B' <==> filename == "BenthicData");
    } else if filename == "TissueData" {
      assert |filename| == 10;
    } else {
      assert |filename| == 18;
    }
  }

  /** A branch whose first edit names a column the table lacks raises
      `KeyError` for that column. */
  lemma MissingFirstColumnRaises<V>(d: Dict<V>, filename: string)
    requires d.Valid() && filename in FixedFiles
    requires |FixerOps(filename)| > 0 && FixerOps(filename)[0].Source() !in d.entries
    ensures ApplyOps(d, FixerOps(filename)) == Err(KeyError(FixerOps(filename)[0].Source()))
  {
    var ops := FixerOps(filename);
    ApplyOpsStep(d, [], ops[0]);
    assert [] + [ops[0]] == ops[..1];
    ApplyOpsAppend(d, ops[..1], ops[1..]);
    assert ops[..1] + ops[1..] == ops;
  }

  /** For WQX_Stations only StationCode is left, with its original table. */
  lemma WqxLeavesStationCode<V>(d: Dict<V>)
    requires d.Valid() && d.keys == WR.CodeColumnKeys
    ensures "StationCode" in d.entries
    ensures ApplyOps(d, FixerOps("WQX_Stations")) ==
      Ok(Dict(["StationCode"], map["StationCode" := d.entries["StationCode"]]))
  {
    FixerOpsWqx();
    WqxLeavesOnlyStation();
    RemovesLeaveOne(d, WR.CodeColumnKeys, WqxRemoved, "StationCode");
  }

  /** Taking out the distinct `names`, all present among `keys`, leaves
      exactly `x`. */
  ghost predicate LeavesOnly(keys: seq<string>, names: seq<string>, x: string) {
    && Distinct(names)
    && (forall i :: 0 <= i < |names| ==> names[i] in keys)
    && (forall k :: k in keys && k !in names <==> k == x)
    && WithoutAll(keys, names) == [x]
  }

  lemma WqxLeavesOnlyStation()
    ensures LeavesOnly(WR.CodeColumnKeys, WqxRemoved, "StationCode")
  {
    WqxRemovedFromBase();
    WqxKeepsStation();
  }

  /** Removing every column but `x` leaves that one with its table. */
  lemma RemovesLeaveOne<V>(d: Dict<V>, keys: seq<string>, names: seq<string>, x: string)
    requires d.Valid() && d.keys == keys && LeavesOnly(keys, names, x)
    ensures x in d.entries
    ensures ApplyOps(d, Removes(names)) == Ok(Dict([x], map[x := d.entries[x]]))
  {
    RemovesEffect(d, names);
    KeepOne(d.entries, names, x);
  }

  lemma FixerOpsWqx()
    ensures FixerOps("WQX_Stations") == Removes(WqxRemoved)
  {
  }

  lemma WqxRemovedFromBase()
    ensures Distinct(WqxRemoved)
    ensures forall i :: 0 <= i < |WqxRemoved| ==> WqxRemoved[i] in WR.CodeColumnKeys
    ensures forall k :: k in WR.CodeColumnKeys && k !in WqxRemoved <==> k == "StationCode"
  {
  }

  const BaseBeforeStation: seq<string> := ["QACode", "BatchVerification", "ResultQualCode", "TargetLatitude", "Result"]
  const BaseAfterStation: seq<string> :=
    ["SampleTypeCode", "SampleDate", "ProgramName", "Analyte", "MatrixName", "CollectionReplicate", "ResultsReplicate"]

  lemma WqxKeepsStation()
    ensures WithoutAll(WR.CodeColumnKeys, WqxRemoved) == ["StationCode"]
  {
    BaseSplit();
    WithoutAllCleared(BaseBeforeStation, WqxRemoved);
    WithoutAllCleared(BaseAfterStation, WqxRemoved);
    StationNotRemoved();
    KeepOnlyOne(BaseBeforeStation, "StationCode", BaseAfterStation, WqxRemoved);
  }

  lemma StationNotRemoved()
    ensures "StationCode" !in WqxRemoved
  {
    assert "StationCode"[0] == 'S' && "StationCode"[1] == 't';
  }

  lemma BaseSplit()
    ensures WR.CodeColumnKeys == BaseBeforeStation + ["StationCode"] + BaseAfterStation
  {
  }

  lemma KeepOne<V>(m: map<string, V>, names: seq<string>, x: string)
    requires forall k :: k in m && k !in names <==> k == x
    ensures (map k | k in m && k !in names :: m[k]) == map[x := m[x]]
  {
  }

  // ------------------------------------------------------------ one record

  /** The labels of `DQ_Codes`, severity 0 first. */
  const DqNames: seq<string> :=
    ["MetaData, QC record", "Passed QC", "Some review needed", "Extensive review needed",
     "Unknown data quality", "Reject record"]

  /** `DQ_Codes` of this script: the keys 0 to 5. */
  const DqCodes: map<int, string> := Scale(DqNames)

  /** Two padding cells for BenthicData, three otherwise, although every
      file's header has the three extra columns. */
  function Pads(filename: string): (r: nat)
    ensures r == 2 <==> filename == "BenthicData"
    ensures r == 2 || r == 3
  {
    if filename == "BenthicData" then 2 else 3
  }

  /** With its two padding cells a BenthicData record has one cell fewer
      than the header: `Spatial_Datum`, the last column, is never set, so
      the row written under the header is one value short. */
  lemma BenthicRecordShort(columns: seq<string>, row: seq<RefreshClean.Cell>)
    requires Distinct(columns) && |columns| == |row| + 3
    ensures var rec := Record(columns, row, Pads("BenthicData"));
      && |rec.keys| == |columns| - 1
      && columns[|columns| - 1] !in rec.entries
  {
    var rec := Record(columns, row, Pads("BenthicData"));
    assert rec.keys == columns[..|columns| - 1];
    assert Distinct(columns[..|columns| - 1] + [columns[|columns| - 1]]) by {
      assert columns[..|columns| - 1] + [columns[|columns| - 1]] == columns;
    }
    DistinctLast(columns[..|columns| - 1], columns[|columns| - 1]);
  }

  lemma DistinctLast(s: seq<string>, x: string)
    requires Distinct(s + [x])
    ensures x !in s
  {
    forall i | 0 <= i < |s|
      ensures s[i] != x
    {
      assert s[i] == (s + [x])[i] && x == (s + [x])[|s|];
    }
  }

  /** The classification of one record: plain `DQ`, `max(DQ)`, `QInd`, the
      label, then `Spatial_Datum` unless the file is BenthicData. */
  function Classify(rec: Dict<string>, tables: Dict<CodeTable>, filename: string, wqxSites: map<string, string>)
    : (r: Result<Dict<string>>)
    requires rec.Valid() && tables.Valid()
    ensures r.Ok? ==> r.value.Valid() && "DataQuality" in r.value.entries
    ensures r.Ok? ==> r.value.entries["DataQuality"] in DqCodes.Values
    ensures r.Ok? && filename != "BenthicData" ==>
      "Spatial_Datum" in r.value.entries && r.value.entries["Spatial_Datum"] == SpatialDatum(rec, wqxSites)
  {
    var dq :- PlainGather(tables.keys, rec, tables);
    PlainReadsAll(rec, tables);
    var m :- MaxDQ(dq);
    var qind := NameCols("", tables.keys, rec, tables, m).value;
    var labelled :- TextLabel(rec, dq, m, qind, DqCodes);
    LabelKeepsDatum(rec, dq, m, qind, DqCodes, wqxSites);
    Ok(AddDatum(labelled, filename == "BenthicData", wqxSites))
  }

  /** A record none of whose values is in its column's table raises
      `ValueError` at `max(DQ)`. */
  lemma NothingGradedRaises(rec: Dict<string>, tables: Dict<CodeTable>, filename: string,
                            wqxSites: map<string, string>)
    requires rec.Valid() && tables.Valid()
    requires forall k :: k in tables.entries ==> k in rec.entries
    requires forall i, x :: 0 <= i < |tables.keys| ==> !Grades(tables.keys[i], rec, tables, x)
    ensures Classify(rec, tables, filename, wqxSites) == Err(ValueError("max() arg is an empty sequence"))
  {
    PlainGatherFails(tables.keys, rec, tables);
    var dq := PlainGather(tables.keys, rec, tables).value;
    PlainGatherExact(tables.keys, rec, tables);
    if |dq| > 0 {
      assert dq[0] in dq;
    }
  }

  /** Once the `DQ` loop has run to the end with a non-empty `DQ`, the record
      is the label step's record with its datum. */
  lemma ClassifyUnfold(rec: Dict<string>, tables: Dict<CodeTable>, filename: string,
                       wqxSites: map<string, string>, dq: seq<int>, qind: string)
    requires rec.Valid() && tables.Valid()
    requires PlainGather(tables.keys, rec, tables) == Ok(dq) && |dq| > 0
    requires NameCols("", tables.keys, rec, tables, MaxOf(dq).value) == Ok(qind)
    ensures Classify(rec, tables, filename, wqxSites) ==
      match TextLabel(rec, dq, MaxOf(dq).value, qind, DqCodes)
      case Ok(labelled) => Ok(AddDatum(labelled, filename == "BenthicData", wqxSites))
      case Err(e) => Err(e)
  {
    assert MaxDQ(dq) == Ok(MaxOf(dq).value);
  }

  /** Every severity in the tables is on the 0..5 scale. */
  predicate OnScaleTables(tables: Dict<CodeTable>) {
    forall c, v :: c in tables.entries && v in tables.entries[c] ==> 0 <= tables.entries[c][v] <= 5
  }

  /** With every column present, the gathering succeeds and every severity it
      collects lies on the 0..5 scale of the tables. */
  lemma GatheredOnScale(rec: Dict<string>, tables: Dict<CodeTable>)
    requires rec.Valid() && tables.Valid() && OnScaleTables(tables)
    requires forall k :: k in tables.entries ==> k in rec.entries
    ensures PlainGather(tables.keys, rec, tables).Ok?
    ensures forall y :: y in PlainGather(tables.keys, rec, tables).value ==> 0 <= y < |DqNames|
  {
    var cols := tables.keys;
    PlainGatherFails(cols, rec, tables);
    PlainGatherExact(cols, rec, tables);
    forall y | y in PlainGather(cols, rec, tables).value
      ensures 0 <= y < |DqNames|
    {
      var i :| 0 <= i < |cols| && cols[i] in rec.entries && Grades(cols[i], rec, tables, y);
      var v :| v in ColumnValues(cols[i], rec.entries[cols[i]]) && v in tables.entries[cols[i]]
               && tables.entries[cols[i]][v] == y;
    }
  }

  /** A record with a value graded 0 in some column is labelled `DQ_Codes[0]`,
      the QC-record label, whatever else it holds. */
  lemma ClassifyQcRecord(rec: Dict<string>, tables: Dict<CodeTable>, filename: string, wqxSites: map<string, string>)
    requires rec.Valid() && tables.Valid() && NonEmptyNames(tables.keys) && OnScaleTables(tables)
    requires forall k :: k in tables.entries ==> k in rec.entries
    requires SomeZero(rec, tables)
    ensures Classify(rec, tables, filename, wqxSites).Ok?
    ensures Classify(rec, tables, filename, wqxSites).value.entries["DataQuality"] == DqCodes[0]
  {
    GatheredOnScale(rec, tables);
    var i :| 0 <= i < |tables.keys| && Grades(tables.keys[i], rec, tables, 0);
    GradedGathered(rec, tables, tables.keys[i], 0);
    LabelsOfGathered(rec, tables, filename, wqxSites);
  }

  /** With tables on the 0..5 scale, some value graded and none graded 0,
      the record is labelled with the label of the maximum severity together
      with `QInd`, the `', '`-joined names of the columns holding a value of
      that severity. */
  lemma ClassifyMaxLabel(rec: Dict<string>, tables: Dict<CodeTable>, filename: string, wqxSites: map<string, string>,
                         c: string, x: int)
    requires rec.Valid() && tables.Valid() && NonEmptyNames(tables.keys) && OnScaleTables(tables)
    requires forall k :: k in tables.entries ==> k in rec.entries
    requires c in tables.keys && Grades(c, rec, tables, x) && !SomeZero(rec, tables)
    ensures PlainGather(tables.keys, rec, tables).Ok? && |PlainGather(tables.keys, rec, tables).value| > 0
    ensures var m := MaxOf(PlainGather(tables.keys, rec, tables).value).value;
      var r := Classify(rec, tables, filename, wqxSites);
      && 0 < m < |DqNames|
      && r.Ok?
      && "DataQuality" in r.value.entries && r.value.entries["DataQuality"] == DqCodes[m]
      && "DataQualityIndicator" in r.value.entries
      && r.value.entries["DataQualityIndicator"] == Join(", ", EntryList(tables.keys, rec, tables, m))
  {
    MaxGathered(rec, tables, c, x);
    LabelsOfGathered(rec, tables, filename, wqxSites);
  }

  /** Without a 0, the gathered severities hold the graded `x` and lie on
      1..5, so their maximum is a positive label. */
  lemma MaxGathered(rec: Dict<string>, tables: Dict<CodeTable>, c: string, x: int)
    requires rec.Valid() && tables.Valid() && OnScaleTables(tables)
    requires forall k :: k in tables.entries ==> k in rec.entries
    requires c in tables.keys && Grades(c, rec, tables, x) && !SomeZero(rec, tables)
    ensures PlainGather(tables.keys, rec, tables).Ok?
    ensures var dq := PlainGather(tables.keys, rec, tables).value;
      && |dq| > 0 && 0 !in dq && (forall y :: y in dq ==> 0 <= y < |DqNames|)
      && 0 < MaxOf(dq).value < |DqNames|
  {
    GatheredOnScale(rec, tables);
    var dq := PlainGather(tables.keys, rec, tables).value;
    GradedGathered(rec, tables, c, x);
    ZeroGathered(rec, tables);
    assert x in dq && 0 !in dq;
  }

  /** The labelling once `DQ` is known to be non-empty and on the scale. */
  lemma LabelsOfGathered(rec: Dict<string>, tables: Dict<CodeTable>, filename: string, wqxSites: map<string, string>)
    requires rec.Valid() && tables.Valid() && NonEmptyNames(tables.keys)
    requires forall k :: k in tables.entries ==> k in rec.entries
    requires PlainGather(tables.keys, rec, tables).Ok?
    requires var dq := PlainGather(tables.keys, rec, tables).value;
      |dq| > 0 && forall y :: y in dq ==> 0 <= y < |DqNames|
    ensures var dq := PlainGather(tables.keys, rec, tables).value;
      var r := Classify(rec, tables, filename, wqxSites);
      && r.Ok?
      && "DataQuality" in r.value.entries
      && (0 in dq ==> r.value.entries["DataQuality"] == DqCodes[0])
      && (0 !in dq ==> r.value.entries["DataQuality"] == DqCodes[MaxOf(dq).value]
                       && "DataQualityIndicator" in r.value.entries
                       && r.value.entries["DataQualityIndicator"] ==
                            Join(", ", EntryList(tables.keys, rec, tables, MaxOf(dq).value)))
  {
    var dq := PlainGather(tables.keys, rec, tables).value;
    OnScale(dq, |DqNames|);
    var m := MaxOf(dq).value;
    var qind := Join(", ", EntryList(tables.keys, rec, tables, m));
    NameColsJoin(tables.keys, rec, tables, m);
    LabelThenDatum(rec, dq, qind, DqCodes, filename == "BenthicData", wqxSites);
    ClassifyUnfold(rec, tables, filename, wqxSites, dq, qind);
  }

  /** The classifier of one record, as the loops of the source run it. */
  method ClassifyRecord(rec: Dict<string>, tables: Dict<CodeTable>, filename: string,
                        wqxSites: map<string, string>) returns (r: Result<Dict<string>>)
    requires rec.Valid() && tables.Valid()
    ensures r == Classify(rec, tables, filename, wqxSites)
  {
    var dq := GatherPlain(tables.keys, rec, tables);
    if dq.Err? {
      return Err(dq.error);
    }
    PlainReadsAll(rec, tables);
    var m := MaxDQ(dq.value);
    if m.Err? {
      return Err(m.error);
    }
    // every column was read by the `DQ` loop, so the indicator loop cannot fail
    var qind := CollectNames(tables.keys, rec, tables, m.value);
    var labelled := TextLabel(rec, dq.value, m.value, qind.value, DqCodes);
    if labelled.Err? {
      return Err(labelled.error);
    }
    var newDict := labelled.value;
    if filename != "BenthicData" {
      newDict := newDict.Set("Spatial_Datum", SpatialDatum(newDict, wqxSites));
    }
    assert newDict == AddDatum(labelled.value, filename == "BenthicData", wqxSites);
    r := Ok(newDict);
  }
}
