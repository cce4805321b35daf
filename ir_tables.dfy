/** The per-record work of WorkingScripts/CEDEN_for_IR_Tables.py: its own
    `decodeAndStrip` (a wider character filter followed by a chain of
    `replace` calls), its eight-branch `DictionaryFixer` over a twelve-column
    base table, the plain `DQ` loop, `max(DQ)` without a sentinel, the `QInd`
    string, the integer `DataQuality` and the length guard in front of the
    writer. */
module IrTables {
  import opened Wrappers
  import opened PyText
  import opened PyDict
  import opened SchemaOps
  import opened DqCore
  import opened RefreshClassifier
  import RefreshClean
  import WR = WorkingRefresh
  import opened WorkingShared

  // ------------------------------------------------------------ decodeAndStrip

  /** `string.printable` minus ``|"'` ``: the ASCII range 32..126 without the
      pipe, the two quotes and the backquote, and the five whitespace
      controls tab, newline, carriage return, vertical tab and form feed. */
  predicate IrAllowed(c: char) {
    WorkingAllowed(c) || c == '\t' || c == '\n' || c == '\r' || c == '\U{000B}' || c == '\U{000C}'
  }

  /** `decodeAndStrip(t)` of this script: filter by `IrAllowed`, then delete
      tab, CR LF, CR, LF, form feed and vertical tab, in that order. */
  function IrDecodeAndStrip(s: string): string {
    var filter1 := FilterChars(s, IrAllowed);
    Replace(Replace(Replace(Replace(Replace(Replace(filter1, "\t", ""), "\r\n", ""), "\r", ""), "\n", ""),
                    "\U{000C}", ""), "\U{000B}", "")
  }

  /** The replace chain deletes exactly the whitespace controls that the
      wider filter lets through, so the cleaning is the same as that of the
      other two working scripts. */
  lemma IrDecodeAndStripAgrees(s: string)
    ensures IrDecodeAndStrip(s) == DecodeAndStrip(s)
  {
    var f1 := FilterChars(s, IrAllowed);
    var c1 := Replace(f1, "\t", "");
    var c2 := Replace(c1, "\r\n", "");
    var c3 := Replace(c2, "\r", "");
    var c4 := Replace(c3, "\n", "");
    var c5 := Replace(c4, "\U{000C}", "");
    var c6 := Replace(c5, "\U{000B}", "");
    assert IrDecodeAndStrip(s) == c6;
    FilterAfterDelete(f1, "\t", WorkingAllowed);
    FilterAfterDelete(c1, "\r\n", WorkingAllowed);
    FilterAfterDelete(c2, "\r", WorkingAllowed);
    FilterAfterDelete(c3, "\n", WorkingAllowed);
    FilterAfterDelete(c4, "\U{000C}", WorkingAllowed);
    FilterAfterDelete(c5, "\U{000B}", WorkingAllowed);
    ChainKeepsOnlyAllowed(f1, c1, c2, c3, c4, c5, c6);
    FilterCharsKeepsAll(c6, WorkingAllowed);
    FilterNarrower(s);
  }

  /** Filtering by the wider test first does not change what the narrower
      filter keeps. */
  lemma {:induction false} FilterNarrower(s: string)
    ensures FilterChars(FilterChars(s, IrAllowed), WorkingAllowed) == FilterChars(s, WorkingAllowed)
    decreases |s|
  {
    if |s| > 0 {
      FilterNarrower(s[1..]);
      if IrAllowed(s[0]) {
        assert FilterChars(s, IrAllowed) == [s[0]] + FilterChars(s[1..], IrAllowed);
        assert ([s[0]] + FilterChars(s[1..], IrAllowed))[1..] == FilterChars(s[1..], IrAllowed);
      }
    }
  }

  /** Every character left at the end of the chain passed the wider filter
      and is none of the deleted controls. */
  lemma ChainKeepsOnlyAllowed(f1: string, c1: string, c2: string, c3: string, c4: string, c5: string, c6: string)
    requires forall i :: 0 <= i < |f1| ==> IrAllowed(f1[i])
    requires c1 == Replace(f1, "\t", "") && c2 == Replace(c1, "\r\n", "") && c3 == Replace(c2, "\r", "")
    requires c4 == Replace(c3, "\n", "") && c5 == Replace(c4, "\U{000C}", "") && c6 == Replace(c5, "\U{000B}", "")
    ensures forall i :: 0 <= i < |c6| ==> WorkingAllowed(c6[i])
  {
    DeleteKeepsChars(f1, "\t");
    DeleteKeepsChars(c1, "\r\n");
    DeleteKeepsChars(c2, "\r");
    DeleteKeepsChars(c3, "\n");
    DeleteKeepsChars(c4, "\U{000C}");
    DeleteKeepsChars(c5, "\U{000B}");
    DeleteRemovesChar(f1, '\t');
    DeleteRemovesChar(c2, '\r');
    DeleteRemovesChar(c3, '\n');
    DeleteRemovesChar(c4, '\U{000C}');
    DeleteRemovesChar(c5, '\U{000B}');
    forall i | 0 <= i < |c6|
      ensures WorkingAllowed(c6[i])
    {
      var c := c6[i];
      assert c in c6;
      assert c in f1;
      var j :| 0 <= j < |f1| && f1[j] == c;
    }
  }

  /** `newDict = dict(zip(columns, filtered + [''] + ['']))` with this
      script's cleaning. */
  function IrRecord(columns: seq<string>, row: seq<RefreshClean.Cell>): Dict<string> {
    FromZip(columns, seq(|row|, i requires 0 <= i < |row| => IrDecodeAndStrip(Str(row[i]))) + ["", ""])
  }

  /** The record is the one the other working scripts build with two
      padding cells. */
  lemma IrRecordIsRecord(columns: seq<string>, row: seq<RefreshClean.Cell>)
    ensures IrRecord(columns, row) == Record(columns, row, 2)
  {
    var cleaned := seq(|row|, i requires 0 <= i < |row| => IrDecodeAndStrip(Str(row[i])));
    forall i | 0 <= i < |row|
      ensures cleaned[i] == CleanRow(row)[i]
    {
      IrDecodeAndStripAgrees(Str(row[i]));
    }
    assert cleaned == CleanRow(row);
    assert ["", ""] == seq(2, _ => "");
  }

  // ------------------------------------------------------------ DictionaryFixer

  /** The key order of this script's `Codes_Dict`: the working scripts' base
      without SampleDate. */
  const CodeColumnKeys: seq<string> :=
    ["QACode", "BatchVerification", "ResultQualCode", "TargetLatitude", "Result", "StationCode",
     "SampleTypeCode", "ProgramName", "Analyte", "MatrixName", "CollectionReplicate", "ResultsReplicate"]

  /** IR_ToxicityData here renames BatchVerification where the working
      refresh script removes it. */
  const IrToxicityOps: seq<Op> :=
    [Rename("ResultQualCode", "ResQualCode"), Rename("ProgramName", "Program"),
     Rename("BatchVerification", "BatchVerificationCode"), Remove("ResultsReplicate")]

  /** The file names that have a branch. */
  const FixedFiles: set<string> :=
    {"BenthicData", "TissueData", "WaterChemistryData", "ToxicityData", "HabitatData",
     "IR_ToxicityData", "IR_BenthicData", "IR_WaterChemistryData"}

  /** The edits `DictionaryFixer(Codes_Dict, filename)` performs: eight
      separate `if`s, each an exact file-name test. Every branch but
      IR_ToxicityData has the same edits as the working refresh script's
      branch of that name, and IR_BenthicData those of BenthicData. */
  function FixerOps(filename: string): seq<Op> {
    WR.When(filename == "BenthicData", WR.BenthicOps)
    + WR.When(filename == "TissueData", WR.TissueOps)
    + WR.When(filename == "WaterChemistryData", WR.WaterChemistryOps)
    + WR.When(filename == "ToxicityData", WR.ToxicityOps)
    + WR.When(filename == "HabitatData", WR.HabitatOps)
    + WR.When(filename == "IR_ToxicityData", IrToxicityOps)
    + WR.When(filename == "IR_BenthicData", WR.BenthicOps)
    + WR.When(filename == "IR_WaterChemistryData", WR.IrWaterChemistryOps)
  }

  /** `Codes_Dict_Alt = DictionaryFixer(Codes_Dict, filename)` on a fresh copy. */
  method DictionaryFixer(codeColumns: MutableDict<CodeTable>, filename: string)
    returns (m: MutableDict<CodeTable>, err: Option<PyError>)
    requires codeColumns.Valid()
    ensures fresh(m) && m.Valid()
    ensures ApplyOps(codeColumns.Contents(), FixerOps(filename))
            == if err.None? then Ok(m.Contents()) else Err(err.value)
  {
    m, err := FixCopy(codeColumns, FixerOps(filename));
  }

  /** A file name without a branch gets an unchanged copy. */
  lemma UnlistedUnchanged<V>(d: Dict<V>, filename: string)
    requires d.Valid() && filename !in FixedFiles
    ensures FixerOps(filename) == []
    ensures ApplyOps(d, FixerOps(filename)) == Ok(d)
  {
  }

  /** A listed file name runs exactly its own branch. */
  lemma ListedRunsItsBranch(filename: string)
    requires filename in FixedFiles
    ensures FixerOps(filename) ==
      if filename == "BenthicData" || filename == "IR_BenthicData" then WR.BenthicOps
      else if filename == "TissueData" then WR.TissueOps
      else if filename == "WaterChemistryData" then WR.WaterChemistryOps
      else if filename == "ToxicityData" then WR.ToxicityOps
      else if filename == "HabitatData" then WR.HabitatOps
      else if filename == "IR_ToxicityData" then IrToxicityOps
      else WR.IrWaterChemistryOps
  {
    // Only BenthicData and HabitatData share a length, and they differ in
    // their first letter.
    if filename == "BenthicData" || filename == "HabitatData" {
      assert |filename| == 11 && (filename[0] == 'B' <==> filename == "BenthicData");
    } else if filename == "TissueData" {
      assert |filename| == 10;
    } else if filename == "WaterChemistryData" {
      assert |filename| == 18;
    } else if filename == "ToxicityData" {
      assert |filename| == 12;
    } else if filename == "IR_ToxicityData" {
      assert |filename| == 15;
    } else if filename == "IR_BenthicData" {
      assert |filename| == 14;
    } else {
      assert |filename| == 21;
    }
  }

  /** On the base table the IR_WaterChemistryData branch succeeds: the three
      renamed columns keep their tables under ResQualCode, AnalyteName and
      Replicate, the old names and BatchVerification and CollectionReplicate
      are gone, and every other column keeps its table. */
  lemma IrWaterChemistryEffect<V>(d: Dict<V>)
    requires d.Valid() && d.keys == CodeColumnKeys
    ensures ApplyOps(d, FixerOps("IR_WaterChemistryData")).Ok?
    ensures var r := ApplyOps(d, FixerOps("IR_WaterChemistryData")).value;
      && "ResQualCode" in r.entries && r.entries["ResQualCode"] == d.entries["ResultQualCode"]
      && "AnalyteName" in r.entries && r.entries["AnalyteName"] == d.entries["Analyte"]
      && "Replicate" in r.entries && r.entries["Replicate"] == d.entries["ResultsReplicate"]
    ensures var r := ApplyOps(d, FixerOps("IR_WaterChemistryData")).value;
      && "ResultQualCode" !in r.entries && "Analyte" !in r.entries && "ResultsReplicate" !in r.entries
      && "BatchVerification" !in r.entries && "CollectionReplicate" !in r.entries
    ensures var r := ApplyOps(d, FixerOps("IR_WaterChemistryData")).value;
      forall k :: k !in IrWaterTouched ==>
        (k in r.entries <==> k in d.entries) && (k in d.entries ==> r.entries[k] == d.entries[k])
  {
    FixerOpsIrWater();
    IrWaterRuns(d);
    IrWaterRenameResQual(d);
    IrWaterRenameAnalyte(d);
    IrWaterRenameReplicate(d);
    IrWaterRemoves(d);
    forall k | k !in IrWaterTouched
      ensures var r := ApplyOps(d, WR.IrWaterChemistryOps).value;
        (k in r.entries <==> k in d.entries) && (k in d.entries ==> r.entries[k] == d.entries[k])
    {
      IrWaterUntouched(k);
      ApplyOpsFrame(d, WR.IrWaterChemistryOps, k);
    }
  }

  /** The keys the IR_WaterChemistryData branch reads, writes or deletes. */
  const IrWaterTouched: set<string> :=
    {"ResultQualCode", "ResQualCode", "Analyte", "AnalyteName", "ResultsReplicate", "Replicate",
     "BatchVerification", "CollectionReplicate"}

  lemma FixerOpsIrWater()
    ensures FixerOps("IR_WaterChemistryData") == WR.IrWaterChemistryOps
  {
  }

  lemma IrWaterUntouched(k: string)
    requires k !in IrWaterTouched
    ensures k !in Mentioned(WR.IrWaterChemistryOps)
  {
    Untouched(WR.IrWaterChemistryOps, k);
  }

  lemma IrWaterSourcesInBase()
    ensures forall i :: 0 <= i < |WR.IrWaterChemistryOps| ==> WR.IrWaterChemistryOps[i].Source() in CodeColumnKeys
  {
  }

  lemma IrWaterSourcesUntouched()
    ensures forall i, j :: 0 <= j < i < |WR.IrWaterChemistryOps| ==>
      WR.IrWaterChemistryOps[i].Source() !in WR.IrWaterChemistryOps[j].Touches()
  {
  }

  lemma IrWaterRuns<V>(d: Dict<V>)
    requires d.Valid() && d.keys == CodeColumnKeys
    ensures ApplyOps(d, WR.IrWaterChemistryOps).Ok?
  {
    IrWaterSourcesInBase();
    IrWaterSourcesUntouched();
    ApplyOpsPresent(d, WR.IrWaterChemistryOps);
  }

  /** A key no edit of `ops` touches is not mentioned by `ops`. */
  lemma Untouched(ops: seq<Op>, k: string)
    requires forall i :: 0 <= i < |ops| ==> k !in ops[i].Touches()
    ensures k !in Mentioned(ops)
  {
    MentionedIff(ops, k);
  }

  const IrWaterPre1: seq<Op> := [Rename("ResultQualCode", "ResQualCode")]
  const IrWaterPre2: seq<Op> := IrWaterPre1 + [Rename("Analyte", "AnalyteName")]
  const IrWaterPre3: seq<Op> := IrWaterPre2 + [Rename("ResultsReplicate", "Replicate")]
  const IrWaterPost3: seq<Op> := [Remove("BatchVerification"), Remove("CollectionReplicate")]
  const IrWaterPost2: seq<Op> := [Rename("ResultsReplicate", "Replicate")] + IrWaterPost3
  const IrWaterPost1: seq<Op> := [Rename("Analyte", "AnalyteName")] + IrWaterPost2

  /** The IR_WaterChemistryData edits cut around each of its renames and
      removals. */
  lemma IrWaterCuts()
    ensures WR.IrWaterChemistryOps == [] + [Rename("ResultQualCode", "ResQualCode")] + IrWaterPost1
    ensures WR.IrWaterChemistryOps == IrWaterPre1 + [Rename("Analyte", "AnalyteName")] + IrWaterPost2
    ensures WR.IrWaterChemistryOps == IrWaterPre2 + [Rename("ResultsReplicate", "Replicate")] + IrWaterPost3
    ensures WR.IrWaterChemistryOps == IrWaterPre3 + [Remove("BatchVerification")] + [Remove("CollectionReplicate")]
    ensures WR.IrWaterChemistryOps == IrWaterPre3 + [Remove("BatchVerification")] + [Remove("CollectionReplicate")] + []
  {
  }

  /** No edit outside a rename touches the rename's two keys. */
  lemma IrWaterRenamesAlone()
    ensures "ResultQualCode" !in Mentioned(IrWaterPost1) && "ResQualCode" !in Mentioned(IrWaterPost1)
    ensures "Analyte" !in Mentioned(IrWaterPre1) && "AnalyteName" !in Mentioned(IrWaterPre1)
    ensures "Analyte" !in Mentioned(IrWaterPost2) && "AnalyteName" !in Mentioned(IrWaterPost2)
    ensures "ResultsReplicate" !in Mentioned(IrWaterPre2) && "Replicate" !in Mentioned(IrWaterPre2)
    ensures "ResultsReplicate" !in Mentioned(IrWaterPost3) && "Replicate" !in Mentioned(IrWaterPost3)
    ensures "BatchVerification" !in Mentioned([Remove("CollectionReplicate")])
  {
    Untouched(IrWaterPost1, "ResultQualCode");
    Untouched(IrWaterPost1, "ResQualCode");
    Untouched(IrWaterPre1, "Analyte");
    Untouched(IrWaterPre1, "AnalyteName");
    Untouched(IrWaterPost2, "Analyte");
    Untouched(IrWaterPost2, "AnalyteName");
    Untouched(IrWaterPre2, "ResultsReplicate");
    Untouched(IrWaterPre2, "Replicate");
    Untouched(IrWaterPost3, "ResultsReplicate");
    Untouched(IrWaterPost3, "Replicate");
    Untouched([Remove("CollectionReplicate")], "BatchVerification");
  }

  lemma IrWaterRenameResQual<V>(d: Dict<V>)
    requires d.Valid() && "ResultQualCode" in d.entries && ApplyOps(d, WR.IrWaterChemistryOps).Ok?
    ensures var r := ApplyOps(d, WR.IrWaterChemistryOps).value;
      "ResQualCode" in r.entries && r.entries["ResQualCode"] == d.entries["ResultQualCode"]
      && "ResultQualCode" !in r.entries
  {
    IrWaterCuts();
    IrWaterRenamesAlone();
    RenameSurvives(d, [], "ResultQualCode", "ResQualCode", IrWaterPost1);
  }

  lemma IrWaterRenameAnalyte<V>(d: Dict<V>)
    requires d.Valid() && "Analyte" in d.entries && ApplyOps(d, WR.IrWaterChemistryOps).Ok?
    ensures var r := ApplyOps(d, WR.IrWaterChemistryOps).value;
      "AnalyteName" in r.entries && r.entries["AnalyteName"] == d.entries["Analyte"]
      && "Analyte" !in r.entries
  {
    IrWaterCuts();
    IrWaterRenamesAlone();
    RenameSurvives(d, IrWaterPre1, "Analyte", "AnalyteName", IrWaterPost2);
  }

  lemma IrWaterRenameReplicate<V>(d: Dict<V>)
    requires d.Valid() && "ResultsReplicate" in d.entries && ApplyOps(d, WR.IrWaterChemistryOps).Ok?
    ensures var r := ApplyOps(d, WR.IrWaterChemistryOps).value;
      "Replicate" in r.entries && r.entries["Replicate"] == d.entries["ResultsReplicate"]
      && "ResultsReplicate" !in r.entries
  {
    IrWaterCuts();
    IrWaterRenamesAlone();
    RenameSurvives(d, IrWaterPre2, "ResultsReplicate", "Replicate", IrWaterPost3);
  }

  lemma IrWaterRemoves<V>(d: Dict<V>)
    requires d.Valid() && ApplyOps(d, WR.IrWaterChemistryOps).Ok?
    ensures var r := ApplyOps(d, WR.IrWaterChemistryOps).value;
      "BatchVerification" !in r.entries && "CollectionReplicate" !in r.entries
  {
    IrWaterCuts();
    IrWaterRenamesAlone();
    RemoveSurvives(d, IrWaterPre3, "BatchVerification", [Remove("CollectionReplicate")]);
    RemoveSurvives(d, IrWaterPre3 + [Remove("BatchVerification")], "CollectionReplicate", []);
  }

  /** On the base table the IR_ToxicityData branch succeeds and keeps the
      BatchVerification table under BatchVerificationCode, where the working
      refresh script's branch of the same name drops it. */
  lemma IrToxicityKeepsBatchVerification<V>(d: Dict<V>)
    requires d.Valid() && d.keys == CodeColumnKeys
    ensures "BatchVerification" in d.entries
    ensures ApplyOps(d, FixerOps("IR_ToxicityData")).Ok?
    ensures var r := ApplyOps(d, FixerOps("IR_ToxicityData")).value;
      && "BatchVerificationCode" in r.entries && r.entries["BatchVerificationCode"] == d.entries["BatchVerification"]
      && "BatchVerification" !in r.entries
    ensures Remove("BatchVerification") in WR.IrToxicityOps
  {
    assert d.keys[1] == "BatchVerification";
    FixerOpsIrToxicity();
    IrToxicitySources();
    ApplyOpsPresent(d, IrToxicityOps);
    IrToxicityCut();
    RenameSurvives(d, IrToxicityPre, "BatchVerification", "BatchVerificationCode", [Remove("ResultsReplicate")]);
  }

  lemma FixerOpsIrToxicity()
    ensures FixerOps("IR_ToxicityData") == IrToxicityOps
  {
  }

  lemma IrToxicitySources()
    ensures forall i :: 0 <= i < |IrToxicityOps| ==> IrToxicityOps[i].Source() in CodeColumnKeys
    ensures forall i, j :: 0 <= j < i < |IrToxicityOps| ==> IrToxicityOps[i].Source() !in IrToxicityOps[j].Touches()
  {
  }

  const IrToxicityPre: seq<Op> := [Rename("ResultQualCode", "ResQualCode"), Rename("ProgramName", "Program")]

  /** The BatchVerification rename is alone on its two keys; the working
      refresh script's branch removes the column instead. */
  lemma IrToxicityCut()
    ensures IrToxicityOps ==
      IrToxicityPre + [Rename("BatchVerification", "BatchVerificationCode")] + [Remove("ResultsReplicate")]
    ensures "BatchVerification" !in Mentioned(IrToxicityPre) && "BatchVerificationCode" !in Mentioned(IrToxicityPre)
    ensures "BatchVerification" !in Mentioned([Remove("ResultsReplicate")])
    ensures "BatchVerificationCode" !in Mentioned([Remove("ResultsReplicate")])
    ensures Remove("BatchVerification") in WR.IrToxicityOps
  {
    Untouched(IrToxicityPre, "BatchVerification");
    Untouched(IrToxicityPre, "BatchVerificationCode");
    Untouched([Remove("ResultsReplicate")], "BatchVerification");
    Untouched([Remove("ResultsReplicate")], "BatchVerificationCode");
    assert WR.IrToxicityOps[3] == Remove("BatchVerification");
  }

  // ------------------------------------------------------------ one record

  /** The `DQ`, `max(DQ)` and `QInd` loops, then `DataQuality` set to the
      integer 0 when `min(DQ) == 0` and otherwise to `MaxDQ`, with `QInd`
      stored only in the second case. The csv writer renders the integer as
      its decimal text. */
  function Classify(rec: Dict<string>, tables: Dict<CodeTable>): (r: Result<Dict<string>>)
    requires rec.Valid() && tables.Valid()
    ensures r.Ok? ==> r.value.Valid() && "DataQuality" in r.value.entries
    ensures r.Ok? ==> forall k :: k != "DataQuality" && k != "DataQualityIndicator" ==>
      (k in r.value.entries <==> k in rec.entries) && (k in rec.entries ==> r.value.entries[k] == rec.entries[k])
    ensures r.Ok? && "DataQuality" in rec.entries && "DataQualityIndicator" in rec.entries ==>
      r.value.keys == rec.keys
  {
    var dq :- PlainGather(tables.keys, rec, tables);
    PlainReadsAll(rec, tables);
    var m :- MaxDQ(dq);
    var qind := NameCols("", tables.keys, rec, tables, m).value;
    if MinOf(dq) == Some(0) then Ok(rec.Set("DataQuality", IntToStr(0)))
    else Ok(rec.Set("DataQuality", IntToStr(m)).Set("DataQualityIndicator", qind))
  }

  /** A record none of whose values is in its column's table raises
      `ValueError` at `max(DQ)`. */
  lemma NothingGradedRaises(rec: Dict<string>, tables: Dict<CodeTable>)
    requires rec.Valid() && tables.Valid()
    requires forall k :: k in tables.entries ==> k in rec.entries
    requires forall i, x :: 0 <= i < |tables.keys| ==> !Grades(tables.keys[i], rec, tables, x)
    ensures Classify(rec, tables) == Err(ValueError("max() arg is an empty sequence"))
  {
    PlainGatherFails(tables.keys, rec, tables);
    var dq := PlainGather(tables.keys, rec, tables).value;
    PlainGatherExact(tables.keys, rec, tables);
    if |dq| > 0 {
      assert dq[0] in dq;
    }
  }

  /** With non-negative tables every gathered severity is non-negative. */
  lemma GatheredNonNegative(rec: Dict<string>, tables: Dict<CodeTable>)
    requires rec.Valid() && tables.Valid() && NonNegativeTables(tables)
    requires forall k :: k in tables.entries ==> k in rec.entries
    ensures PlainGather(tables.keys, rec, tables).Ok?
    ensures NonNegative(PlainGather(tables.keys, rec, tables).value)
  {
    var cols := tables.keys;
    PlainGatherFails(cols, rec, tables);
    PlainGatherExact(cols, rec, tables);
    var dq := PlainGather(cols, rec, tables).value;
    forall n | 0 <= n < |dq|
      ensures dq[n] >= 0
    {
      var y := dq[n];
      assert y in dq;
      var i :| 0 <= i < |cols| && cols[i] in rec.entries && Grades(cols[i], rec, tables, y);
      var v :| v in ColumnValues(cols[i], rec.entries[cols[i]]) && v in tables.entries[cols[i]]
               && tables.entries[cols[i]][v] == y;
    }
  }

  /** Once the `DQ` loop has run to the end with a non-empty `DQ`, the
      record gets its quality cells from `min(DQ)`, `max(DQ)` and `QInd`. */
  lemma ClassifyUnfold(rec: Dict<string>, tables: Dict<CodeTable>, dq: seq<int>, qind: string)
    requires rec.Valid() && tables.Valid()
    requires PlainGather(tables.keys, rec, tables) == Ok(dq) && |dq| > 0
    requires NameCols("", tables.keys, rec, tables, MaxOf(dq).value) == Ok(qind)
    ensures Classify(rec, tables) ==
      if MinOf(dq) == Some(0) then Ok(rec.Set("DataQuality", IntToStr(0)))
      else Ok(rec.Set("DataQuality", IntToStr(MaxOf(dq).value)).Set("DataQualityIndicator", qind))
  {
    assert MaxDQ(dq) == Ok(MaxOf(dq).value);
  }

  /** The record once `DQ` holds a 0. */
  lemma QualityOfZero(rec: Dict<string>, tables: Dict<CodeTable>)
    requires rec.Valid() && tables.Valid()
    requires forall k :: k in tables.entries ==> k in rec.entries
    requires PlainGather(tables.keys, rec, tables).Ok?
    requires var dq := PlainGather(tables.keys, rec, tables).value;
      0 in dq && NonNegative(dq)
    ensures Classify(rec, tables) == Ok(rec.Set("DataQuality", "0"))
  {
    var dq := PlainGather(tables.keys, rec, tables).value;
    var m := MaxOf(dq).value;
    PlainReadsAll(rec, tables);
    MinIsZero(dq);
    var qind := NameCols("", tables.keys, rec, tables, m);
    ClassifyUnfold(rec, tables, dq, qind.value);
    assert IntToStr(0) == "0";
  }

  /** The record once `DQ` is non-empty, non-negative and without a 0. */
  lemma QualityOfMax(rec: Dict<string>, tables: Dict<CodeTable>)
    requires rec.Valid() && tables.Valid() && NonEmptyNames(tables.keys)
    requires forall k :: k in tables.entries ==> k in rec.entries
    requires PlainGather(tables.keys, rec, tables).Ok?
    requires var dq := PlainGather(tables.keys, rec, tables).value;
      |dq| > 0 && 0 !in dq && NonNegative(dq)
    ensures var m := MaxOf(PlainGather(tables.keys, rec, tables).value).value;
      Classify(rec, tables) ==
        Ok(rec.Set("DataQuality", IntToStr(m))
              .Set("DataQualityIndicator", Join(", ", EntryList(tables.keys, rec, tables, m))))
  {
    var dq := PlainGather(tables.keys, rec, tables).value;
    var m := MaxOf(dq).value;
    PlainReadsAll(rec, tables);
    MinIsZero(dq);
    NameColsJoin(tables.keys, rec, tables, m);
    ClassifyUnfold(rec, tables, dq, Join(", ", EntryList(tables.keys, rec, tables, m)));
  }

  /** A record with a value graded 0 in some column gets `DataQuality` 0 and
      keeps its (padding) indicator cell. */
  lemma QcRecordGetsZero(rec: Dict<string>, tables: Dict<CodeTable>)
    requires rec.Valid() && tables.Valid() && NonNegativeTables(tables)
    requires forall k :: k in tables.entries ==> k in rec.entries
    requires SomeZero(rec, tables)
    ensures Classify(rec, tables) == Ok(rec.Set("DataQuality", "0"))
  {
    GatheredNonNegative(rec, tables);
    var i :| 0 <= i < |tables.keys| && Grades(tables.keys[i], rec, tables, 0);
    GradedGathered(rec, tables, tables.keys[i], 0);
    QualityOfZero(rec, tables);
  }

  /** With some value graded and none graded 0, `DataQuality` is the maximum
      severity and `DataQualityIndicator` the `', '`-joined names of the
      columns holding a value of that severity. */
  lemma MaxRecordGetsIndicator(rec: Dict<string>, tables: Dict<CodeTable>, c: string, x: int)
    requires rec.Valid() && tables.Valid() && NonNegativeTables(tables) && NonEmptyNames(tables.keys)
    requires forall k :: k in tables.entries ==> k in rec.entries
    requires c in tables.keys && Grades(c, rec, tables, x) && !SomeZero(rec, tables)
    ensures PlainGather(tables.keys, rec, tables).Ok? && |PlainGather(tables.keys, rec, tables).value| > 0
    ensures var m := MaxOf(PlainGather(tables.keys, rec, tables).value).value;
      Classify(rec, tables) ==
        Ok(rec.Set("DataQuality", IntToStr(m))
              .Set("DataQualityIndicator", Join(", ", EntryList(tables.keys, rec, tables, m))))
  {
    GatheredNonNegative(rec, tables);
    var dq := PlainGather(tables.keys, rec, tables).value;
    assert x in dq by {
      GradedGathered(rec, tables, c, x);
    }
    assert 0 !in dq by {
      ZeroGathered(rec, tables);
    }
    QualityOfMax(rec, tables);
  }

  // ------------------------------------------------------------ writing

  /** The guard `len(newDict.values()) != len(columns)`: a full record is
      written as its values in key order; a short one reaches
      `error2.write(list(...))`, which raises `TypeError` because `write`
      takes a string. */
  function WriteRow(columns: seq<string>, rec: Dict<string>): (r: Result<seq<string>>)
    requires rec.Valid()
    ensures r.Ok? <==> |rec.keys| == |columns|
    ensures r.Ok? ==> r.value == rec.Values()
    ensures r.Err? ==> r.error == TypeError("write() argument must be str, not list")
  {
    if |rec.Values()| != |columns| then Err(TypeError("write() argument must be str, not list"))
    else Ok(rec.Values())
  }

  /** The whole row: `columns` is the cursor's header plus the two quality
      columns, the record is classified and written. */
  function ProcessRow(header: seq<string>, row: seq<RefreshClean.Cell>, tables: Dict<CodeTable>)
    : (r: Result<seq<string>>)
    requires tables.Valid()
  {
    var columns := header + ["DataQuality", "DataQualityIndicator"];
    var out :- Classify(IrRecord(columns, row), tables);
    WriteRow(columns, out)
  }

  /** With distinct column names and one cell per header column, a record
      that is classified is written in full: one value per column, the
      cleaned cells first, in header order. */
  lemma FullRowWritten(header: seq<string>, row: seq<RefreshClean.Cell>, tables: Dict<CodeTable>)
    requires tables.Valid()
    requires Distinct(header + ["DataQuality", "DataQualityIndicator"]) && |header| == |row|
    requires Classify(IrRecord(header + ["DataQuality", "DataQualityIndicator"], row), tables).Ok?
    ensures ProcessRow(header, row, tables).Ok?
    ensures |ProcessRow(header, row, tables).value| == |header| + 2
    ensures ProcessRow(header, row, tables).value[..|row|] == CleanRow(row)
  {
    var columns := header + ["DataQuality", "DataQualityIndicator"];
    ProcessRowWrites(header, row, tables);
    FullRecord(header, row);
    var rec := Record(columns, row, 2);
    CellsKept(columns, row, rec, Classify(rec, tables).value);
  }

  /** A record whose first columns hold the cleaned cells, and a result that
      keeps every column but the two quality columns, give a written row that
      starts with the cleaned cells. */
  lemma CellsKept(columns: seq<string>, row: seq<RefreshClean.Cell>, rec: Dict<string>, out: Dict<string>)
    requires out.Valid() && out.keys == columns && |row| <= |columns|
    requires forall i :: 0 <= i < |row| ==>
      && columns[i] != "DataQuality" && columns[i] != "DataQualityIndicator"
      && columns[i] in rec.entries && rec.entries[columns[i]] == CleanRow(row)[i]
    requires forall k :: k != "DataQuality" && k != "DataQualityIndicator" && k in rec.entries ==>
      k in out.entries && out.entries[k] == rec.entries[k]
    ensures out.Values()[..|row|] == CleanRow(row)
  {
    var vals := out.Values();
    forall i | 0 <= i < |row|
      ensures vals[i] == CleanRow(row)[i]
    {
      assert out.entries[columns[i]] == rec.entries[columns[i]];
    }
  }

  /** A classified record with all its columns is written as its values. */
  lemma ProcessRowWrites(header: seq<string>, row: seq<RefreshClean.Cell>, tables: Dict<CodeTable>)
    requires tables.Valid()
    requires Distinct(header + ["DataQuality", "DataQualityIndicator"]) && |header| == |row|
    requires Classify(IrRecord(header + ["DataQuality", "DataQualityIndicator"], row), tables).Ok?
    ensures var out := Classify(Record(header + ["DataQuality", "DataQualityIndicator"], row, 2), tables);
      && out.Ok? && out.value.keys == header + ["DataQuality", "DataQualityIndicator"]
      && ProcessRow(header, row, tables) == Ok(out.value.Values())
  {
    IrRecordIsRecord(header + ["DataQuality", "DataQualityIndicator"], row);
    FullRecord(header, row);
  }

  /** With distinct names and one cell per header column, the record's keys
      are the columns in order, and each header column holds its cleaned
      cell. */
  lemma FullRecord(header: seq<string>, row: seq<RefreshClean.Cell>)
    requires Distinct(header + ["DataQuality", "DataQualityIndicator"]) && |header| == |row|
    ensures var columns := header + ["DataQuality", "DataQualityIndicator"];
      var rec := Record(columns, row, 2);
      && rec.keys == columns
      && (forall i :: 0 <= i < |row| ==>
            && columns[i] != "DataQuality" && columns[i] != "DataQualityIndicator"
            && columns[i] in rec.entries && rec.entries[columns[i]] == CleanRow(row)[i])
  {
    var columns := header + ["DataQuality", "DataQualityIndicator"];
    assert |CleanRow(row) + seq(2, _ => "")| == |columns|;
    assert columns[..|columns|] == columns;
    forall i | 0 <= i < |row|
      ensures columns[i] != "DataQuality" && columns[i] != "DataQualityIndicator"
      ensures columns[i] in Record(columns, row, 2).entries
      ensures Record(columns, row, 2).entries[columns[i]] == CleanRow(row)[i]
    {
      assert columns[|header|] == "DataQuality" && columns[|header| + 1] == "DataQualityIndicator";
      assert columns[i] != columns[|header|] && columns[i] != columns[|header| + 1];
      RecordCells(columns, row, 2, i);
    }
  }

  /** A header that repeats a column name gives a record with fewer keys
      than columns, and the row raises `TypeError` at the error writer. */
  lemma RepeatedColumnRaises(header: seq<string>, row: seq<RefreshClean.Cell>, tables: Dict<CodeTable>)
    requires tables.Valid()
    requires !Distinct(header) && |header| == |row|
    requires Classify(IrRecord(header + ["DataQuality", "DataQualityIndicator"], row), tables).Ok?
    ensures ProcessRow(header, row, tables) == Err(TypeError("write() argument must be str, not list"))
  {
    var columns := header + ["DataQuality", "DataQualityIndicator"];
    IrRecordIsRecord(columns, row);
    RepeatedRecord(header, row);
    var rec := Record(columns, row, 2);
    assert Classify(rec, tables).value.keys == rec.keys;
  }

  /** With a repeated header name the record has fewer keys than there are
      columns, the two quality columns among them. */
  lemma RepeatedRecord(header: seq<string>, row: seq<RefreshClean.Cell>)
    requires !Distinct(header) && |header| == |row|
    ensures |Record(header + ["DataQuality", "DataQualityIndicator"], row, 2).keys| < |header| + 2
    ensures "DataQuality" in Record(header + ["DataQuality", "DataQualityIndicator"], row, 2).entries
    ensures "DataQualityIndicator" in Record(header + ["DataQuality", "DataQualityIndicator"], row, 2).entries
  {
    var columns := header + ["DataQuality", "DataQualityIndicator"];
    var vals := CleanRow(row) + seq(2, _ => "");
    assert Record(columns, row, 2) == FromZip(columns, vals);
    QualityColumns(header);
    ZipRepeatedFewer(columns, vals);
    ZipHasKey(columns, vals, "DataQuality");
    ZipHasKey(columns, vals, "DataQualityIndicator");
  }

  /** Every column of a full row is a key of the zipped record. */
  lemma ZipHasKey(columns: seq<string>, vals: seq<string>, k: string)
    requires |vals| == |columns| && k in columns
    ensures k in FromZip(columns, vals).entries
  {
    assert columns[..Min(|columns|, |vals|)] == columns;
  }

  /** The output columns repeat a name when the header does, and end with the
      two quality columns. */
  lemma QualityColumns(header: seq<string>)
    requires !Distinct(header)
    ensures var columns := header + ["DataQuality", "DataQualityIndicator"];
      !Distinct(columns) && "DataQuality" in columns && "DataQualityIndicator" in columns
  {
    var columns := header + ["DataQuality", "DataQualityIndicator"];
    var i, j :| 0 <= i < j < |header| && header[i] == header[j];
    assert columns[i] == columns[j];
    assert columns[|header|] == "DataQuality" && columns[|header| + 1] == "DataQualityIndicator";
  }

  /** Zipping a full row of values onto columns with a repeat gives one key
      per distinct column, so fewer keys than columns. */
  lemma ZipRepeatedFewer(columns: seq<string>, vals: seq<string>)
    requires |vals| == |columns| && !Distinct(columns)
    ensures |FromZip(columns, vals).keys| < |columns|
  {
    var rec := FromZip(columns, vals);
    assert columns[..Min(|columns|, |vals|)] == columns;
    FewerKeys(rec.keys, columns);
  }

  /** The elements of `s`. */
  function Elements(s: seq<string>): (r: set<string>)
    ensures forall x :: x in r <==> x in s
  {
    set x | x in s
  }

  /** A sequence has at least as many places as distinct elements, and as
      many exactly when no element repeats. */
  lemma {:induction false} ElementsCount(s: seq<string>)
    ensures |Elements(s)| <= |s|
    ensures |Elements(s)| == |s| <==> Distinct(s)
    decreases |s|
  {
    if |s| > 0 {
      var init := s[..|s| - 1];
      var last := s[|s| - 1];
      ElementsCount(init);
      ElementsSnoc(s);
      if last in init {
        assert Elements(s) == Elements(init);
        RepeatAtEnd(s);
      } else {
        DistinctSnocIff(s);
      }
    }
  }

  /** The elements of a non-empty sequence are those of its front and its
      last element. */
  lemma ElementsSnoc(s: seq<string>)
    requires |s| > 0
    ensures Elements(s) == Elements(s[..|s| - 1]) + {s[|s| - 1]}
  {
    assert s == s[..|s| - 1] + [s[|s| - 1]];
  }

  /** A last element already in the front is a repeat. */
  lemma RepeatAtEnd(s: seq<string>)
    requires |s| > 0 && s[|s| - 1] in s[..|s| - 1]
    ensures !Distinct(s)
  {
    var i :| 0 <= i < |s| - 1 && s[..|s| - 1][i] == s[|s| - 1];
    assert s[i] == s[|s| - 1];
  }

  /** A last element not in the front adds no repeat. */
  lemma DistinctSnocIff(s: seq<string>)
    requires |s| > 0 && s[|s| - 1] !in s[..|s| - 1]
    ensures Distinct(s) <==> Distinct(s[..|s| - 1])
  {
    var init := s[..|s| - 1];
    if Distinct(init) {
      forall i, j | 0 <= i < j < |s|
        ensures s[i] != s[j]
      {
        if j == |s| - 1 {
          assert s[i] == init[i];
        } else {
          assert s[i] == init[i] && s[j] == init[j];
        }
      }
    }
    if Distinct(s) {
      forall i, j | 0 <= i < j < |init|
        ensures init[i] != init[j]
      {
        assert s[i] == init[i] && s[j] == init[j];
      }
    }
  }

  /** Distinct keys over the elements of a sequence with a repeat are fewer
      than its places. */
  lemma FewerKeys(keys: seq<string>, columns: seq<string>)
    requires Distinct(keys) && !Distinct(columns)
    requires forall k :: k in keys <==> k in columns
    ensures |keys| < |columns|
  {
    ElementsCount(keys);
    ElementsCount(columns);
    assert Elements(keys) == Elements(columns);
  }

  /** The per-row work as the script runs it: the fixer on a fresh copy of
      the base table, the cleaned record, the `DQ` loop, `max`, the `QInd`
      loop, the quality cells and the length guard. */
  method WriteRecord(header: seq<string>, row: seq<RefreshClean.Cell>, codeColumns: MutableDict<CodeTable>,
                     filename: string) returns (r: Result<seq<string>>)
    requires codeColumns.Valid()
    ensures r == match ApplyOps(codeColumns.Contents(), FixerOps(filename))
                 case Err(e) => Err(e)
                 case Ok(tables) => ProcessRow(header, row, tables)
  {
    var fixed, err := DictionaryFixer(codeColumns, filename);
    if err.Some? {
      return Err(err.value);
    }
    var tables := fixed.Contents();
    var columns := header + ["DataQuality", "DataQualityIndicator"];
    var filtered := [];
    for i := 0 to |row|
      invariant filtered == seq(i, j requires 0 <= j < i => IrDecodeAndStrip(Str(row[j])))
    {
      filtered := filtered + [IrDecodeAndStrip(Str(row[i]))];
    }
    var newDict := FromZip(columns, filtered + ["", ""]);
    assert newDict == IrRecord(columns, row);
    var dq := GatherPlain(tables.keys, newDict, tables);
    if dq.Err? {
      return Err(dq.error);
    }
    PlainReadsAll(newDict, tables);
    var m := MaxDQ(dq.value);
    if m.Err? {
      return Err(m.error);
    }
    // every column was read by the `DQ` loop, so the indicator loop cannot fail
    var qind := CollectNames(tables.keys, newDict, tables, m.value);
    if MinOf(dq.value) == Some(0) {
      newDict := newDict.Set("DataQuality", IntToStr(0));
    } else {
      newDict := newDict.Set("DataQuality", IntToStr(m.value));
      newDict := newDict.Set("DataQualityIndicator", qind.value);
    }
    r := WriteRow(columns, newDict);
  }
}
