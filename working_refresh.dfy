/** The per-record classifier of WorkingScripts/CEDEN_DataRefresh.py: its
    `DictionaryFixer` over a thirteen-column base table, the `DQ` loop with
    the surrogate and ResultQualCode rules of the main script but without its
    StationCode and Result rules, `max(DQ)` without a sentinel, the `QInd`
    string of column names, the seven-step `DQ_Codes` scale and the
    `Spatial_Datum` lookup. */
module WorkingRefresh {
  import opened Wrappers
  import opened PyText
  import opened PyDict
  import opened SchemaOps
  import opened DqCore
  import RefreshClean
  import RC = RefreshClassifier
  import opened WorkingShared
  import opened Seqs

  // ------------------------------------------------------------ DictionaryFixer

  /** The key order of the base table `Codes_Dict`. */
  const CodeColumnKeys: seq<string> :=
    ["QACode", "BatchVerification", "ResultQualCode", "TargetLatitude", "Result", "StationCode",
     "SampleTypeCode", "SampleDate", "ProgramName", "Analyte", "MatrixName",
     "CollectionReplicate", "ResultsReplicate"]

  /** The WQX_Stations branch removes Analyte twice. */
  const WqxStationsOps: seq<Op> :=
    Removes(["Analyte", "Analyte", "Result", "MatrixName", "ResultsReplicate", "QACode", "BatchVerification",
             "ResultQualCode", "TargetLatitude", "SampleTypeCode", "SampleDate", "ProgramName",
             "CollectionReplicate"])

  const BenthicOps: seq<Op> :=
    [Rename("SampleTypeCode", "SampleType"), Rename("ResultQualCode", "ResQualCode")]
    + Removes(["Analyte", "Result", "MatrixName", "ResultsReplicate", "QACode", "BatchVerification"])

  const TissueOps: seq<Op> :=
    [Rename("MatrixName", "Matrix"), Rename("ResultsReplicate", "ResultReplicate"), Remove("ResultQualCode")]

  const WaterChemistryOps: seq<Op> := [Rename("ProgramName", "Program")]

  const ToxicityOps: seq<Op> :=
    [Rename("ProgramName", "Program"), Rename("BatchVerification", "BatchVerificationCode"),
     Remove("ResultsReplicate")]

  const HabitatOps: seq<Op> :=
    [Rename("ProgramName", "Program"), Remove("ResultsReplicate"), Remove("Result"), Remove("BatchVerification")]

  const IrToxicityOps: seq<Op> :=
    [Rename("ResultQualCode", "ResQualCode"), Rename("ProgramName", "Program"),
     Remove("ResultsReplicate"), Remove("BatchVerification")]

  const IrBenthicOps: seq<Op> :=
    [Rename("ResultQualCode", "ResQualCode"), Rename("SampleTypeCode", "SampleType")]
    + Removes(["Analyte", "Result", "MatrixName", "ResultsReplicate", "QACode", "BatchVerification"])

  const IrWaterChemistryOps: seq<Op> :=
    [Rename("ResultQualCode", "ResQualCode"), Rename("Analyte", "AnalyteName"),
     Rename("ResultsReplicate", "Replicate"), Remove("BatchVerification"), Remove("CollectionReplicate")]

  /** The identical branches for IR_STORET_2010, IR_STORET_2012 and IR_NWIS. */
  const IrStoretOps: seq<Op> :=
    [Rename("Analyte", "AnalyteName"), Rename("ResultQualCode", "ResQualCode"),
     Rename("ResultsReplicate", "Replicate"), Remove("BatchVerification"), Remove("CollectionReplicate")]

  const IrFieldOps: seq<Op> :=
    [Rename("ResultQualCode", "ResQualCode"), Rename("ResultsReplicate", "ResultReplicate"),
     Alias("Analyte", "AnalyteName"), Remove("BatchVerification")]

  const IrFieldRenames: seq<Op> :=
    [Rename("ResultQualCode", "ResQualCode"), Rename("ResultsReplicate", "ResultReplicate")]

  const IrTissueOps: seq<Op> :=
    [Rename("ResultQualCode", "ResQualCode"), Rename("ResultsReplicate", "ResultReplicate"),
     Rename("MatrixName", "Matrix"), Remove("BatchVerification")]

  function When(guard: bool, ops: seq<Op>): seq<Op> {
    if guard then ops else []
  }

  /** The file names that have a branch. */
  const FixedFiles: set<string> :=
    {"WQX_Stations", "BenthicData", "TissueData", "WaterChemistryData", "ToxicityData", "HabitatData",
     "IR_ToxicityData", "IR_BenthicData", "IR_WaterChemistryData", "IR_STORET_2010", "IR_STORET_2012",
     "IR_NWIS", "IR_Field", "IR_TissueData"}

  /** The edits `DictionaryFixer(Codes_Dict, filename)` performs: fourteen
      separate `if`s, each an exact file-name test. */
  function FixerOps(filename: string): seq<Op> {
    When(filename == "WQX_Stations", WqxStationsOps)
    + When(filename == "BenthicData", BenthicOps)
    + When(filename == "TissueData", TissueOps)
    + When(filename == "WaterChemistryData", WaterChemistryOps)
    + When(filename == "ToxicityData", ToxicityOps)
    + When(filename == "HabitatData", HabitatOps)
    + When(filename == "IR_ToxicityData", IrToxicityOps)
    + When(filename == "IR_BenthicData", IrBenthicOps)
    + When(filename == "IR_WaterChemistryData", IrWaterChemistryOps)
    + When(filename == "IR_STORET_2010", IrStoretOps)
    + When(filename == "IR_STORET_2012", IrStoretOps)
    + When(filename == "IR_NWIS", IrStoretOps)
    + When(filename == "IR_Field", IrFieldOps)
    + When(filename == "IR_TissueData", IrTissueOps)
  }

  /** `Codes_Dict_Alt = DictionaryFixer(Codes_Dict, filename)`: the edits run
      on a fresh copy and `codeColumns` is left as it was. */
  method DictionaryFixer(codeColumns: MutableDict<CodeTable>, filename: string)
    returns (m: MutableDict<CodeTable>, err: Option<PyError>)
    requires codeColumns.Valid()
    ensures fresh(m) && m.Valid()
    ensures ApplyOps(codeColumns.Contents(), FixerOps(filename))
            == if err.None? then Ok(m.Contents()) else Err(err.value)
  {
    m, err := FixCopy(codeColumns, FixerOps(filename));
  }

  /** A file name without a branch gets an unchanged copy. */
  lemma UnlistedUnchanged<V>(d: Dict<V>, filename: string)
    requires d.Valid() && filename !in FixedFiles
    ensures FixerOps(filename) == []
    ensures ApplyOps(d, FixerOps(filename)) == Ok(d)
  {
  }

  /** The second removal of Analyte finds it gone, so the WQX_Stations
      branch raises `KeyError('Analyte')` whatever the table holds. */
  lemma WqxStationsAlwaysRaises<V>(d: Dict<V>)
    requires d.Valid()
    ensures ApplyOps(d, FixerOps("WQX_Stations")) == Err(KeyError("Analyte"))
  {
    var ops := FixerOps("WQX_Stations");
    assert ops == WqxStationsOps;
    var twice := [Remove("Analyte"), Remove("Analyte")];
    assert ops == twice + ops[2..];
    ApplyOpsStep(d, [Remove("Analyte")], Remove("Analyte"));
    assert [Remove("Analyte")] + [Remove("Analyte")] == twice;
    ApplyOpsStep(d, [], Remove("Analyte"));
    assert [] + [Remove("Analyte")] == [Remove("Analyte")];
    ApplyOpsAppend(d, twice, ops[2..]);
  }

  /** For IR_Field, AnalyteName ends up holding the very table that Analyte
      holds, and both survive. */
  lemma IrFieldAnalyteAlias<V>(d: Dict<V>)
    requires d.Valid() && d.keys == CodeColumnKeys
    ensures ApplyOps(d, FixerOps("IR_Field")).Ok?
    ensures var r := ApplyOps(d, FixerOps("IR_Field")).value;
      && "Analyte" in r.entries && "AnalyteName" in r.entries
      && r.entries["AnalyteName"] == r.entries["Analyte"] == d.entries["Analyte"]
  {
    FixerOpsIrField();
    IrFieldSourcesPresent(d);
    ApplyOpsPresent(d, IrFieldOps);
    IrFieldLeavesAnalyte();
    IrFieldSplit();
    AliasSurvives(d, IrFieldRenames, "Analyte", "AnalyteName", [Remove("BatchVerification")]);
  }

  lemma IrFieldSplit()
    ensures IrFieldOps == IrFieldRenames + [Alias("Analyte", "AnalyteName")] + [Remove("BatchVerification")]
  {
  }

  lemma FixerOpsIrField()
    ensures FixerOps("IR_Field") == IrFieldOps
  {
  }

  lemma IrFieldSourcesPresent<V>(d: Dict<V>)
    requires d.Valid() && d.keys == CodeColumnKeys
    ensures forall i :: 0 <= i < |IrFieldOps| ==> IrFieldOps[i].Source() in d.entries
    ensures forall i, j :: 0 <= j < i < |IrFieldOps| ==> IrFieldOps[i].Source() !in IrFieldOps[j].Touches()
  {
    IrFieldSourcesInBase();
    IrFieldSourcesUntouched();
  }

  lemma IrFieldSourcesInBase()
    ensures forall i :: 0 <= i < |IrFieldOps| ==> IrFieldOps[i].Source() in CodeColumnKeys
  {
  }

  lemma IrFieldSourcesUntouched()
    ensures forall i, j :: 0 <= j < i < |IrFieldOps| ==> IrFieldOps[i].Source() !in IrFieldOps[j].Touches()
  {
  }

  lemma IrFieldLeavesAnalyte()
    ensures "Analyte" !in Mentioned(IrFieldRenames) && "AnalyteName" !in Mentioned(IrFieldRenames)
    ensures "Analyte" !in Mentioned([Remove("BatchVerification")])
    ensures "AnalyteName" !in Mentioned([Remove("BatchVerification")])
  {
    MentionedIff(IrFieldRenames, "Analyte");
    MentionedIff(IrFieldRenames, "AnalyteName");
    MentionedIff([Remove("BatchVerification")], "Analyte");
    MentionedIff([Remove("BatchVerification")], "AnalyteName");
  }

  // ------------------------------------------------------------ DQ

  /** What one column adds: QACode its comma-separated tokens, Analyte and
      AnalyteName a 0 for a surrogate, ResultQualCode and ResQualCode the
      main script's year, DNQ, ND and lookup rules, and any other column the
      severity of its whole value. */
  function Step(dq: seq<int>, col: string, rec: Dict<string>, t: CodeTable, table: string): (r: Result<seq<int>>)
    ensures col !in rec.entries ==> r == Err(KeyError(col))
    ensures r.Ok? ==> col in rec.entries && |dq| <= |r.value| && r.value[..|dq|] == dq
  {
    var v :- rec.Get(col);
    if col == "QACode" then Ok(dq + Lookups(Split(v, ','), t))
    else if col == "Analyte" || col == "AnalyteName" then Ok(dq + (if RC.IsSurrogate(v) then [0] else []))
    else if col == "ResultQualCode" || col == "ResQualCode" then
      var added :- RC.RqcRule(table, v, rec, t);
      Ok(dq + added)
    else Ok(dq + RC.One(v, t))
  }

  /** Only the surrogate and ResultQualCode columns differ from the plain
      lookups of the other two scripts. */
  predicate Special(col: string) {
    col == "Analyte" || col == "AnalyteName" || col == "ResultQualCode" || col == "ResQualCode"
  }

  lemma StepIsPlain(dq: seq<int>, col: string, rec: Dict<string>, t: CodeTable, table: string)
    requires !Special(col)
    ensures Step(dq, col, rec, t, table) == PlainStep(dq, col, rec, t)
  {
  }

  /** Unlike the main script, QACode adds its tokens only: the whole value is
      not looked up as well. */
  lemma QACodeTokensOnly(dq: seq<int>, rec: Dict<string>, t: CodeTable, table: string)
    requires "QACode" in rec.entries
    ensures Step(dq, "QACode", rec, t, table) == Ok(dq + Lookups(Split(rec.entries["QACode"], ','), t))
  {
  }

  /** An Analyte or AnalyteName containing "Surrogate" or "surrogate" adds
      0, any other value nothing. */
  lemma SurrogateRule(dq: seq<int>, col: string, rec: Dict<string>, t: CodeTable, table: string)
    requires col == "Analyte" || col == "AnalyteName"
    requires col in rec.entries
    ensures Step(dq, col, rec, t, table) == Ok(dq + if RC.IsSurrogate(rec.entries[col]) then [0] else [])
  {
  }

  /** ResultQualCode and ResQualCode add exactly what the main script's
      classifier adds for them. */
  lemma RqcAsMainScript(g: RC.Gather, col: string, rec: Dict<string>, t: CodeTable, table: string)
    requires col == "ResultQualCode" || col == "ResQualCode"
    ensures Step(g.dq, col, rec, t, table).Ok? <==> RC.ColumnStep(g, col, rec, t, table).Ok?
    ensures Step(g.dq, col, rec, t, table).Ok? ==>
      Step(g.dq, col, rec, t, table).value == RC.ColumnStep(g, col, rec, t, table).value.dq
  {
  }

  /** With `Result_list = {"": 1}` an empty Result adds 1: the value is looked
      up whole. */
  lemma EmptyResultAddsOne(dq: seq<int>, rec: Dict<string>, table: string)
    requires "Result" in rec.entries && rec.entries["Result"] == ""
    ensures Step(dq, "Result", rec, map["" := 1], table) == Ok(dq + [1])
  {
  }

  /** The `DQ` loop over the columns of the code table, in key order; the
      first error ends it. */
  function GatherCols(cols: seq<string>, rec: Dict<string>, tables: Dict<CodeTable>, table: string)
    : (r: Result<seq<int>>)
    requires forall i :: 0 <= i < |cols| ==> cols[i] in tables.entries
    decreases |cols|
  {
    if |cols| == 0 then Ok([])
    else
      var prev :- GatherCols(cols[..|cols| - 1], rec, tables, table);
      var col := cols[|cols| - 1];
      Step(prev, col, rec, tables.entries[col], table)
  }

  /** A loop that ends normally has read every column of the record. */
  lemma {:induction false} GatherReadsAll(cols: seq<string>, rec: Dict<string>, tables: Dict<CodeTable>, table: string)
    requires forall i :: 0 <= i < |cols| ==> cols[i] in tables.entries
    requires GatherCols(cols, rec, tables, table).Ok?
    ensures forall i :: 0 <= i < |cols| ==> cols[i] in rec.entries
    decreases |cols|
  {
    if |cols| > 0 {
      GatherReadsAll(cols[..|cols| - 1], rec, tables, table);
      assert forall i :: 0 <= i < |cols| - 1 ==> cols[i] == cols[..|cols| - 1][i];
    }
  }

  /** Without surrogate and ResultQualCode columns the loop is the plain one. */
  lemma {:induction false} GatherIsPlain(cols: seq<string>, rec: Dict<string>, tables: Dict<CodeTable>, table: string)
    requires forall i :: 0 <= i < |cols| ==> cols[i] in tables.entries && !Special(cols[i])
    ensures GatherCols(cols, rec, tables, table) == PlainGather(cols, rec, tables)
    decreases |cols|
  {
    if |cols| > 0 {
      var init := cols[..|cols| - 1];
      GatherIsPlain(init, rec, tables, table);
      var prev := GatherCols(init, rec, tables, table);
      if prev.Ok? {
        StepIsPlain(prev.value, cols[|cols| - 1], rec, tables.entries[cols[|cols| - 1]], table);
      }
    }
  }

  lemma {:induction false} GatherErrSticky(cols: seq<string>, n: nat, rec: Dict<string>,
                                          tables: Dict<CodeTable>, table: string)
    requires forall i :: 0 <= i < |cols| ==> cols[i] in tables.entries
    requires n <= |cols| && GatherCols(cols[..n], rec, tables, table).Err?
    ensures GatherCols(cols, rec, tables, table) == GatherCols(cols[..n], rec, tables, table)
    decreases |cols| - n
  {
    if n < |cols| {
      SliceSnoc(cols, n);
      GatherErrSticky(cols, n + 1, rec, tables, table);
    } else {
      PrefixFull(cols);
    }
  }

  /** One column, with the token loop of QACode. */
  method AddColumn(dq: seq<int>, col: string, rec: Dict<string>, t: CodeTable, table: string)
    returns (r: Result<seq<int>>)
    ensures r == Step(dq, col, rec, t, table)
  {
    if col !in rec.entries {
      return Err(KeyError(col));
    }
    var v := rec.entries[col];
    if col == "QACode" {
      var out := AddLookups(dq, Split(v, ','), t);
      r := Ok(out);
    } else if col == "Analyte" || col == "AnalyteName" {
      r := Ok(if RC.IsSurrogate(v) then dq + [0] else dq);
      assert dq + [] == dq;
    } else if col == "ResultQualCode" || col == "ResQualCode" {
      var added := RC.RqcRule(table, v, rec, t);
      if added.Err? {
        return Err(added.error);
      }
      r := Ok(dq + added.value);
    } else {
      r := Ok(if v in t then dq + [t[v]] else dq);
      assert dq + [] == dq;
    }
  }

  /** The imperative `DQ` loop: `for codeCol in list(Codes_Dict_Alt)`. */
  method GatherSeverities(rec: Dict<string>, tables: Dict<CodeTable>, table: string) returns (r: Result<seq<int>>)
    requires tables.Valid()
    ensures r == GatherCols(tables.keys, rec, tables, table)
  {
    var cols := tables.keys;
    var dq: seq<int> := [];
    for i := 0 to |cols|
      invariant GatherCols(cols[..i], rec, tables, table) == Ok(dq)
    {
      var col := cols[i];
      var step := AddColumn(dq, col, rec, tables.entries[col], table);
      GatherStep(cols, i, rec, tables, table, dq);
      if step.Err? {
        GatherErrSticky(cols, i + 1, rec, tables, table);
        return step;
      }
      dq := step.value;
    }
    PrefixFull(cols);
    r := Ok(dq);
  }

  /** One more column of the loop applies its step to `DQ` so far. */
  lemma GatherStep(cols: seq<string>, i: nat, rec: Dict<string>, tables: Dict<CodeTable>, table: string,
                   dq: seq<int>)
    requires forall j :: 0 <= j < |cols| ==> cols[j] in tables.entries
    requires i < |cols| && GatherCols(cols[..i], rec, tables, table) == Ok(dq)
    ensures GatherCols(cols[..i + 1], rec, tables, table) == Step(dq, cols[i], rec, tables.entries[cols[i]], table)
  {
    SliceSnoc(cols, i);
  }

  // ------------------------------------------------------------ one record

  /** The labels of `DQ_Codes`, severity 0 first. */
  const DqNames: seq<string> :=
    ["MetaData, QC record", "Passed QC", "Some review needed", "Spatial Accuracy Unknown",
     "Extensive review needed", "Unknown data quality", "Reject record"]

  /** `DQ_Codes` of this script: the keys 0 to 6. */
  const DqCodes: map<int, string> := Scale(DqNames)

  /** Two padding cells for IR and BenthicData, three otherwise. */
  function Pads(forIR: bool, filename: string): (r: nat)
    ensures r == 2 || r == 3
    ensures r == 3 <==> !forIR && filename != "BenthicData"
  {
    if forIR || filename == "BenthicData" then 2 else 3
  }

  /** The classification of one record: `DQ`, `max(DQ)`, `QInd`, the label,
      then `Spatial_Datum` unless the run is for IR or the file is
      BenthicData. */
  function Classify(rec: Dict<string>, tables: Dict<CodeTable>, table: string, forIR: bool, filename: string,
                    wqxSites: map<string, string>): (r: Result<Dict<string>>)
    requires rec.Valid() && tables.Valid()
    ensures r.Ok? ==> r.value.Valid() && "DataQuality" in r.value.entries
    ensures r.Ok? ==> r.value.entries["DataQuality"] in DqCodes.Values
    ensures r.Ok? && !forIR && filename != "BenthicData" ==>
      "Spatial_Datum" in r.value.entries && r.value.entries["Spatial_Datum"] == SpatialDatum(rec, wqxSites)
  {
    var dq :- GatherCols(tables.keys, rec, tables, table);
    GatherReadsAll(tables.keys, rec, tables, table);
    var m :- MaxDQ(dq);
    var qind := NameCols("", tables.keys, rec, tables, m).value;
    var labelled :- TextLabel(rec, dq, m, qind, DqCodes);
    LabelKeepsDatum(rec, dq, m, qind, DqCodes, wqxSites);
    Ok(AddDatum(labelled, forIR || filename == "BenthicData", wqxSites))
  }

  /** Once the `DQ` loop has run to the end with a non-empty `DQ`, the record
      is the label step's record with its datum. */
  lemma ClassifyUnfold(rec: Dict<string>, tables: Dict<CodeTable>, table: string, forIR: bool,
                       filename: string, wqxSites: map<string, string>, dq: seq<int>, qind: string)
    requires rec.Valid() && tables.Valid()
    requires GatherCols(tables.keys, rec, tables, table) == Ok(dq) && |dq| > 0
    requires NameCols("", tables.keys, rec, tables, MaxOf(dq).value) == Ok(qind)
    ensures Classify(rec, tables, table, forIR, filename, wqxSites) ==
      match TextLabel(rec, dq, MaxOf(dq).value, qind, DqCodes)
      case Ok(labelled) => Ok(AddDatum(labelled, forIR || filename == "BenthicData", wqxSites))
      case Err(e) => Err(e)
  {
    assert MaxDQ(dq) == Ok(MaxOf(dq).value);
  }

  /** A record for which no column gathered anything raises `ValueError`
      at `max(DQ)`. */
  lemma NothingGatheredRaises(rec: Dict<string>, tables: Dict<CodeTable>, table: string, forIR: bool,
                              filename: string, wqxSites: map<string, string>)
    requires rec.Valid() && tables.Valid()
    requires GatherCols(tables.keys, rec, tables, table) == Ok([])
    ensures Classify(rec, tables, table, forIR, filename, wqxSites) == Err(ValueError("max() arg is an empty sequence"))
  {
  }

  /** A record whose severities are on the 0..6 scale is labelled: a 0 makes
      a QC record; otherwise the label of the maximum is stored with `QInd`,
      the `', '`-joined names of the columns that have a value with that
      maximum severity. */
  lemma ClassifyLabels(rec: Dict<string>, tables: Dict<CodeTable>, table: string, forIR: bool,
                       filename: string, wqxSites: map<string, string>)
    requires rec.Valid() && tables.Valid() && NonEmptyNames(tables.keys)
    requires forall k :: k in tables.entries ==> k in rec.entries
    requires GatherCols(tables.keys, rec, tables, table).Ok?
    requires var dq := GatherCols(tables.keys, rec, tables, table).value;
      |dq| > 0 && forall x :: x in dq ==> 0 <= x <= 6
    ensures var dq := GatherCols(tables.keys, rec, tables, table).value;
      var r := Classify(rec, tables, table, forIR, filename, wqxSites);
      && r.Ok?
      && (0 in dq ==> r.value.entries["DataQuality"] == DqCodes[0])
      && (0 !in dq ==> r.value.entries["DataQuality"] == DqCodes[MaxOf(dq).value]
                       && r.value.entries["DataQualityIndicator"] ==
                            Join(", ", EntryList(tables.keys, rec, tables, MaxOf(dq).value)))
  {
    var dq := GatherCols(tables.keys, rec, tables, table).value;
    var m := MaxOf(dq).value;
    OnScale(dq, |DqNames|);
    var qind := Join(", ", EntryList(tables.keys, rec, tables, m));
    NameColsJoin(tables.keys, rec, tables, m);
    LabelThenDatum(rec, dq, qind, DqCodes, forIR || filename == "BenthicData", wqxSites);
    ClassifyUnfold(rec, tables, table, forIR, filename, wqxSites, dq, qind);
  }

  /** The classifier of one record, as the loops of the source run it. */
  method ClassifyRecord(rec: Dict<string>, tables: Dict<CodeTable>, table: string, forIR: bool, filename: string,
                        wqxSites: map<string, string>) returns (r: Result<Dict<string>>)
    requires rec.Valid() && tables.Valid()
    ensures r == Classify(rec, tables, table, forIR, filename, wqxSites)
  {
    var dq := GatherSeverities(rec, tables, table);
    if dq.Err? {
      return Err(dq.error);
    }
    GatherReadsAll(tables.keys, rec, tables, table);
    var m := MaxDQ(dq.value);
    if m.Err? {
      return Err(m.error);
    }
    // every column was read by the `DQ` loop, so the indicator loop cannot fail
    var qind := CollectNames(tables.keys, rec, tables, m.value);
    var labelled := TextLabel(rec, dq.value, m.value, qind.value, DqCodes);
    if labelled.Err? {
      return Err(labelled.error);
    }
    var newDict := labelled.value;
    if !(forIR || filename == "BenthicData") {
      newDict := newDict.Set("Spatial_Datum", SpatialDatum(newDict, wqxSites));
    }
    assert newDict == AddDatum(labelled.value, forIR || filename == "BenthicData", wqxSites);
    r := Ok(newDict);
  }
}
