/** `DictionaryFixer` of CEDEN_DataRefresh.py: the per-dataset code table,
    made from the fourteen-column base table `CodeColumns` by renaming,
    deleting and (for IR_Field) duplicating columns on a copy. */
module RefreshFixer {
  import opened Wrappers
  import opened PyText
  import opened PyDict
  import opened SchemaOps
  import opened Seqs

  /** The key order of the base table `CodeColumns`. */
  const CodeColumnKeys: seq<string> :=
    ["QACode", "BatchVerification", "ResultQualCode", "Latitude", "Result", "StationCode",
     "SampleTypeCode", "SampleDate", "ProgramName", "Analyte", "MatrixName",
     "CollectionReplicate", "ResultsReplicate", "Datum"]

  /** The columns the WQX_Stations branch removes. */
  const WqxRemoved: seq<string> :=
    ["Analyte", "Result", "MatrixName", "ResultsReplicate", "QACode", "BatchVerification",
     "ResultQualCode", "Latitude", "SampleTypeCode", "SampleDate", "ProgramName",
     "CollectionReplicate"]

  const WqxStationsOps: seq<Op> := Removes(WqxRemoved)

  const BenthicOps: seq<Op> :=
    [Rename("SampleTypeCode", "SampleType"), Rename("ResultQualCode", "ResQualCode")]
    + Removes(["Analyte", "Result", "MatrixName", "ResultsReplicate", "QACode", "BatchVerification", "Datum"])

  const TissueOps: seq<Op> :=
    [Rename("MatrixName", "Matrix"), Rename("ResultsReplicate", "ResultReplicate"), Remove("ResultQualCode")]

  const WaterChemistryOps: seq<Op> := [Rename("ProgramName", "Program")]

  const ToxicityOps: seq<Op> :=
    [Rename("ProgramName", "Program"), Rename("BatchVerification", "BatchVerificationCode"),
     Remove("ResultsReplicate")]

  const HabitatOps: seq<Op> :=
    [Rename("ProgramName", "Program"), Remove("ResultsReplicate"), Remove("Result"), Remove("BatchVerification")]

  const CyanoToxinOps: seq<Op> :=
    [Rename("BatchVerification", "BatchVerificationCode"), Rename("ResultQualCode", "ResQualCode"),
     Rename("ResultsReplicate", "Replicate"), Rename("Analyte", "AnalyteName"),
     Remove("ProgramName"), Remove("CollectionReplicate")]

  const IrToxicityOps: seq<Op> :=
    [Rename("ResultQualCode", "ResQualCode"), Rename("ProgramName", "Program"),
     Rename("Latitude", "TargetLatitude"),
     Remove("ResultsReplicate"), Remove("BatchVerification"), Remove("Datum")]

  const IrBenthicOps: seq<Op> :=
    [Rename("ResultQualCode", "ResQualCode"), Rename("SampleTypeCode", "SampleType"),
     Rename("Latitude", "TargetLatitude")]
    + Removes(["Analyte", "Result", "MatrixName", "ResultsReplicate", "QACode", "BatchVerification", "Datum"])

  const IrWaterChemistryOps: seq<Op> :=
    [Rename("ResultQualCode", "ResQualCode"), Rename("Analyte", "AnalyteName"),
     Rename("ResultsReplicate", "Replicate"), Rename("Latitude", "TargetLatitude"),
     Remove("BatchVerification"), Remove("CollectionReplicate"), Remove("Datum")]

  /** The identical branches for IR_STORET_2010, IR_STORET_2012 and IR_NWIS. */
  const IrStoretOps: seq<Op> :=
    [Rename("Analyte", "AnalyteName"), Rename("ResultQualCode", "ResQualCode"),
     Rename("ResultsReplicate", "Replicate"), Rename("Latitude", "TargetLatitude"),
     Remove("BatchVerification"), Remove("CollectionReplicate"), Remove("Datum")]

  const IrFieldOps: seq<Op> :=
    [Rename("ResultQualCode", "ResQualCode"), Rename("ResultsReplicate", "ResultReplicate"),
     Rename("Latitude", "TargetLatitude"), Alias("Analyte", "AnalyteName"),
     Remove("BatchVerification"), Remove("Datum")]

  const IrFieldRenames: seq<Op> :=
    [Rename("ResultQualCode", "ResQualCode"), Rename("ResultsReplicate", "ResultReplicate"),
     Rename("Latitude", "TargetLatitude")]

  const IrFieldRemovals: seq<Op> := [Remove("BatchVerification"), Remove("Datum")]

  const IrTissueOps: seq<Op> :=
    [Rename("ResultQualCode", "ResQualCode"), Rename("ResultsReplicate", "ResultReplicate"),
     Rename("MatrixName", "Matrix"), Rename("Latitude", "TargetLatitude"),
     Remove("BatchVerification"), Remove("Datum")]

  function When(guard: bool, ops: seq<Op>): seq<Op> {
    if guard then ops else []
  }

  /** The edits `DictionaryFixer(CodeColumns, filename)` performs: every
      branch is a separate `if`, so the edits of every branch whose test
      holds run, in source order. Four tests are `re.match` prefix tests. */
  function FixerOps(filename: string): seq<Op> {
    When(filename == "WQX_Stations", WqxStationsOps)
    + When(filename == "BenthicData", BenthicOps)
    + When(StartsWith(filename, "TissueData"), TissueOps)
    + When(StartsWith(filename, "WaterChemistry"), WaterChemistryOps)
    + When(StartsWith(filename, "Toxicity"), ToxicityOps)
    + When(StartsWith(filename, "HabitatData"), HabitatOps)
    + When(filename == "CyanoToxinData", CyanoToxinOps)
    + When(filename == "IR_ToxicityData", IrToxicityOps)
    + When(filename == "IR_BenthicData", IrBenthicOps)
    + When(filename == "IR_WaterChemistryData", IrWaterChemistryOps)
    + When(filename == "IR_STORET_2010", IrStoretOps)
    + When(filename == "IR_STORET_2012", IrStoretOps)
    + When(filename == "IR_NWIS", IrStoretOps)
    + When(filename == "IR_Field", IrFieldOps)
    + When(filename == "IR_TissueData", IrTissueOps)
  }

  /** `Mod_CodeColumns = DictionaryFixer(CodeColumns, filename)`. The edits
      run on a fresh copy; `codeColumns` is not in any `modifies` clause, so
      it is left as it was. */
  method DictionaryFixer(codeColumns: MutableDict<CodeTable>, filename: string)
    returns (m: MutableDict<CodeTable>, err: Option<PyError>)
    requires codeColumns.Valid()
    ensures fresh(m) && m.Valid()
    ensures ApplyOps(codeColumns.Contents(), FixerOps(filename))
            == if err.None? then Ok(m.Contents()) else Err(err.value)
  {
    m, err := FixCopy(codeColumns, FixerOps(filename));
  }

  /** Only the WQX_Stations branch runs for "WQX_Stations". */
  lemma FixerOpsWqx()
    ensures FixerOps("WQX_Stations") == WqxStationsOps
  {
    assert !StartsWith("WQX_Stations", "TissueData") && !StartsWith("WQX_Stations", "WaterChemistry")
      && !StartsWith("WQX_Stations", "Toxicity") && !StartsWith("WQX_Stations", "HabitatData");
  }

  /** Only the IR_Field branch runs for "IR_Field". */
  lemma FixerOpsIrField()
    ensures FixerOps("IR_Field") == IrFieldOps
  {
    assert !StartsWith("IR_Field", "TissueData") && !StartsWith("IR_Field", "WaterChemistry")
      && !StartsWith("IR_Field", "Toxicity") && !StartsWith("IR_Field", "HabitatData");
  }

  /** Only the TissueData branch runs for "TissueData". */
  lemma FixerOpsTissue()
    ensures FixerOps("TissueData") == TissueOps
  {
    var f := "TissueData";
    StartsWithSelf(f);
    StartsWithAt(f, "Toxicity", 1);
    assert |f| == 10 && !StartsWith(f, "WaterChemistry") && !StartsWith(f, "HabitatData");
  }

  /** Every name starts with itself. */
  lemma StartsWithSelf(s: string)
    ensures StartsWith(s, s)
  {
    PrefixFull(s);
  }

  /** A name that starts with `p` agrees with `p` at every position of `p`. */
  lemma StartsWithAt(s: string, p: string, i: nat)
    ensures StartsWith(s, p) && i < |p| ==> i < |s| && s[i] == p[i]
  {
    if StartsWith(s, p) && i < |p| {
      assert s[..|p|][i] == p[i];
    }
  }

  /** For WQX_Stations only StationCode and Datum are left, with their
      original tables, in that order. */
  lemma WqxStationsLeavesStationAndDatum<V>(d: Dict<V>)
    requires d.Valid() && d.keys == CodeColumnKeys
    ensures "StationCode" in d.entries && "Datum" in d.entries
    ensures ApplyOps(d, FixerOps("WQX_Stations")) ==
      Ok(Dict(["StationCode", "Datum"], map["StationCode" := d.entries["StationCode"], "Datum" := d.entries["Datum"]]))
  {
    FixerOpsWqx();
    WqxRemovedFromBase();
    WqxKeepsStationAndDatum();
    RemovesLeaveTwo(d, CodeColumnKeys, WqxRemoved, "StationCode", "Datum");
  }

  /** Removing every column but `x` and `y` leaves those two with their
      tables. */
  lemma RemovesLeaveTwo<V>(d: Dict<V>, keys: seq<string>, names: seq<string>, x: string, y: string)
    requires d.Valid() && d.keys == keys && Distinct(names)
    requires forall i :: 0 <= i < |names| ==> names[i] in keys
    requires forall k :: k in keys && k !in names <==> k == x || k == y
    requires WithoutAll(keys, names) == [x, y]
    ensures x in d.entries && y in d.entries
    ensures ApplyOps(d, Removes(names)) == Ok(Dict([x, y], map[x := d.entries[x], y := d.entries[y]]))
  {
    RemovesEffect(d, names);
    KeepTwo(d.entries, names, x, y);
  }

  lemma WqxRemovedFromBase()
    ensures Distinct(WqxRemoved)
    ensures forall i :: 0 <= i < |WqxRemoved| ==> WqxRemoved[i] in CodeColumnKeys
    ensures forall k :: k in CodeColumnKeys && k !in WqxRemoved <==> k == "StationCode" || k == "Datum"
  {
  }

  const BaseBeforeStation: seq<string> := ["QACode", "BatchVerification", "ResultQualCode", "Latitude", "Result"]
  const BaseBeforeDatum: seq<string> :=
    ["SampleTypeCode", "SampleDate", "ProgramName", "Analyte", "MatrixName", "CollectionReplicate", "ResultsReplicate"]

  lemma WqxKeepsStationAndDatum()
    ensures WithoutAll(CodeColumnKeys, WqxRemoved) == ["StationCode", "Datum"]
  {
    BaseSplit();
    WithoutAllCleared(BaseBeforeStation, WqxRemoved);
    WithoutAllCleared(BaseBeforeDatum, WqxRemoved);
    KeptNotRemoved();
    KeepOnlyTwo(BaseBeforeStation, "StationCode", BaseBeforeDatum, "Datum", WqxRemoved);
  }

  lemma KeptNotRemoved()
    ensures "StationCode" !in WqxRemoved && "Datum" !in WqxRemoved
  {
    assert "StationCode"[0] == 'S' && "StationCode"[1] == 't';
  }

  lemma BaseSplit()
    ensures CodeColumnKeys == BaseBeforeStation + ["StationCode"] + BaseBeforeDatum + ["Datum"]
  {
  }

  lemma KeepTwo<V>(m: map<string, V>, names: seq<string>, x: string, y: string)
    requires forall k :: k in m && k !in names <==> k == x || k == y
    ensures (map k | k in m && k !in names :: m[k]) == map[x := m[x], y := m[y]]
  {
  }

  /** For IR_Field, AnalyteName ends up holding the very table that Analyte
      holds, and both survive. */
  lemma IrFieldAnalyteAlias<V>(d: Dict<V>)
    requires d.Valid() && d.keys == CodeColumnKeys
    ensures ApplyOps(d, FixerOps("IR_Field")).Ok?
    ensures var r := ApplyOps(d, FixerOps("IR_Field")).value;
      && "Analyte" in r.entries && "AnalyteName" in r.entries
      && r.entries["AnalyteName"] == r.entries["Analyte"] == d.entries["Analyte"]
  {
    FixerOpsIrField();
    IrFieldSourcesPresent(d);
    ApplyOpsPresent(d, IrFieldOps);
    IrFieldLeavesAnalyte();
    IrFieldSplit();
    AliasSurvives(d, IrFieldRenames, "Analyte", "AnalyteName", IrFieldRemovals);
  }

  lemma IrFieldSourcesPresent<V>(d: Dict<V>)
    requires d.Valid() && d.keys == CodeColumnKeys
    ensures forall i :: 0 <= i < |IrFieldOps| ==> IrFieldOps[i].Source() in d.entries
    ensures forall i, j :: 0 <= j < i < |IrFieldOps| ==> IrFieldOps[i].Source() !in IrFieldOps[j].Touches()
  {
    IrFieldSourcesInBase();
    IrFieldSourcesUntouched();
  }

  lemma IrFieldSourcesInBase()
    ensures forall i :: 0 <= i < |IrFieldOps| ==> IrFieldOps[i].Source() in CodeColumnKeys
  {
  }

  lemma IrFieldSourcesUntouched()
    ensures forall i, j :: 0 <= j < i < |IrFieldOps| ==> IrFieldOps[i].Source() !in IrFieldOps[j].Touches()
  {
  }

  /** IR_Field copies Analyte to AnalyteName between its renames and its
      removals. */
  lemma IrFieldSplit()
    ensures IrFieldOps == IrFieldRenames + [Alias("Analyte", "AnalyteName")] + IrFieldRemovals
  {
  }

  lemma IrFieldLeavesAnalyte()
    ensures "Analyte" !in Mentioned(IrFieldRenames) && "AnalyteName" !in Mentioned(IrFieldRenames)
    ensures "Analyte" !in Mentioned(IrFieldRemovals) && "AnalyteName" !in Mentioned(IrFieldRemovals)
  {
    MentionedIff(IrFieldRenames, "Analyte");
    MentionedIff(IrFieldRenames, "AnalyteName");
    MentionedIff(IrFieldRemovals, "Analyte");
    MentionedIff(IrFieldRemovals, "AnalyteName");
  }

  /** Any dataset whose code table lacks a column the branch reads first
      makes `DictionaryFixer` raise `KeyError`; e.g. a TissueData table
      without MatrixName. */
  lemma TissueWithoutMatrixFails<V>(d: Dict<V>)
    requires d.Valid() && "MatrixName" !in d.entries
    ensures ApplyOps(d, FixerOps("TissueData")) == Err(KeyError("MatrixName"))
  {
    FixerOpsTissue();
    var ops := FixerOps("TissueData");
    assert ops[..1] == [ops[0]];
    ApplyOpsAppend(d, ops[..1], ops[1..]);
    assert ops[..1] + ops[1..] == ops;
  }
}
