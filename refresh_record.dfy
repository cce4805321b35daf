/** One row of a non-WQX dataset through `data_retrieval` in
    CEDEN_DataRefresh.py, in the order of the source: clean, pad and zip the
    row; fix the longitude's sign; store the datum; classify; pick the year
    file; register the station in `AllSites`. The rows of a cursor are
    processed in turn, the `AllSites` registry and the leftover `codeVal`
    passing from each row to the next. */
module RefreshRecord {
  import opened Wrappers
  import opened PyText
  import opened PyDict
  import opened SchemaOps
  import opened DqCore
  import opened RefreshClean
  import opened RefreshClassifier

  /** What the script fixes for a whole file before `for row in cursor`:
      the column names, `Mod_CodeColumns` and the table name, the dataset
      name, `For_IR`, `WQX_Sites`, the names of the coordinate columns and
      the stand-ins for `float()` and `str()`. */
  datatype Setting = Setting(columns: seq<string>, tables: Dict<CodeTable>, table: string, filename: string,
                             forIR: bool, wqxSites: map<string, string>, lat: string, lon: string,
                             parse: Parse, show: Show)

  /** The two pairs of coordinate columns the script reads. */
  predicate Coordinates(lat: string, lon: string) {
    (lat == "Latitude" && lon == "Longitude") || (lat == "TargetLatitude" && lon == "TargetLongitude")
  }

  /** Whether the datum step stores a datum. */
  predicate StoresDatum(s: Setting) {
    !(s.forIR || s.filename == "BenthicData")
  }

  /** The record the classifier sees: the row cleaned, padded and zipped,
      with its longitude fixed and its datum stored. */
  function Prepared(s: Setting, row: seq<Cell>): (r: Result<Dict<string>>)
    ensures r.Ok? ==> r.value.Valid()
    ensures r.Ok? <==> s.lon in s.columns && (StoresDatum(s) ==> "StationCode" in s.columns)
    ensures r.Ok? ==> forall k :: k in r.value.entries <==> k in s.columns || (StoresDatum(s) && k == "Datum")
  {
    var rec := Record(s.columns, row);
    RecordKeys(s.columns, row);
    var fixed :- FixLongitude(rec, s.lon, s.parse, s.show);
    FixedKeys(rec, s.lon, s.parse, s.show);
    DatumKeys(fixed, s.forIR, s.filename, s.wqxSites);
    SetDatum(fixed, s.forIR, s.filename, s.wqxSites)
  }

  /** Fixing the longitude keeps the keys. */
  lemma FixedKeys(rec: Dict<string>, lon: string, parse: Parse, show: Show)
    requires rec.Valid() && FixLongitude(rec, lon, parse, show).Ok?
    ensures forall k :: k in FixLongitude(rec, lon, parse, show).value.entries <==> k in rec.entries
  {
  }

  /** Storing the datum needs StationCode and adds the key Datum, unless
      the record is left as it is. */
  lemma DatumKeys(rec: Dict<string>, forIR: bool, filename: string, wqxSites: map<string, string>)
    requires rec.Valid()
    ensures SetDatum(rec, forIR, filename, wqxSites).Ok? <==> forIR || filename == "BenthicData" || "StationCode" in rec.entries
    ensures SetDatum(rec, forIR, filename, wqxSites).Ok? ==>
      forall k :: k in SetDatum(rec, forIR, filename, wqxSites).value.entries <==>
        k in rec.entries || (!(forIR || filename == "BenthicData") && k == "Datum")
  {
  }

  /** After padding, the record's keys are exactly the column names. */
  lemma RecordKeys(columns: seq<string>, row: seq<Cell>)
    ensures Record(columns, row).Valid()
    ensures forall k :: k in Record(columns, row).entries <==> k in columns
  {
    var f := CleanRow(row);
    var padded := f + seq(Max(|columns|, |f|) - |f|, _ => "");
    assert columns[..Min(|columns|, |padded|)] == columns;
  }

  /** A column other than the longitude and the datum reaches the
      classifier holding the cleaned cell of its row, or `''` past the end
      of the row. */
  lemma PreparedCell(s: Setting, row: seq<Cell>, j: nat)
    requires j < |s.columns| && s.columns[j] !in s.columns[j + 1..]
    requires s.columns[j] != s.lon && s.columns[j] != "Datum"
    requires Prepared(s, row).Ok?
    ensures Prepared(s, row).value.entries[s.columns[j]] == if j < |row| then CleanCell(row[j]) else ""
  {
    RecordFields(s.columns, row, j);
    PreparedSteps(s, row);
    var rec0 := Record(s.columns, row);
    FixedCells(rec0, s.lon, s.parse, s.show);
    DatumCells(FixLongitude(rec0, s.lon, s.parse, s.show).value, s.forIR, s.filename, s.wqxSites);
  }

  /** What one row leaves behind: the written record, the year file it also
      goes to (none for IR tables), `AllSites` and `codeVal`. */
  datatype Outcome = Outcome(rec: Dict<string>, part: Option<Partition>, sites: Dict<Site>, codeVal: Option<string>)

  /** The body of `for row in cursor` for a non-WQX dataset. */
  function ProcessRecord(s: Setting, row: seq<Cell>, sites: Dict<Site>, codeVal: Option<string>): (r: Result<Outcome>)
    requires s.tables.Valid() && sites.Valid()
    ensures r.Ok? ==> Prepared(s, row).Ok?
    ensures r.Ok? ==> r.value.rec.Valid() && r.value.sites.Valid()
    ensures r.Ok? ==> OnlyQualityChanged(Prepared(s, row).value, r.value.rec)
    ensures r.Ok? ==> "DataQuality" in r.value.rec.entries && r.value.rec.entries["DataQuality"] in DqCodes.Values
    ensures r.Ok? ==> (r.value.part.None? <==> s.forIR)
    ensures r.Ok? ==> "StationCode" in r.value.rec.entries && r.value.rec.entries["StationCode"] in r.value.sites.entries
    ensures r.Ok? ==> forall k :: k in sites.entries ==> k in r.value.sites.entries && r.value.sites.entries[k] == sites.entries[k]
  {
    var prepared :- Prepared(s, row);
    var classified :- Classify(prepared, s.tables, s.table, DqCodes, codeVal);
    Register(s, classified.0, sites, classified.1)
  }

  /** After the classifier: the year file, then `AllSites`. */
  function Register(s: Setting, rec: Dict<string>, sites: Dict<Site>, codeVal: Option<string>): (r: Result<Outcome>)
    requires sites.Valid()
    ensures r.Ok? ==> r.value.rec == rec && r.value.codeVal == codeVal
    ensures r.Ok? ==> RegisterSite(sites, rec, s.lat, s.lon) == Ok(r.value.sites)
    ensures r.Ok? ==> (r.value.part.None? <==> s.forIR)
  {
    var part :- if s.forIR then Ok(None) else (var y :- RecordYear(rec); Ok(PartitionOf(y)));
    var next :- RegisterSite(sites, rec, s.lat, s.lon);
    Ok(Outcome(rec, part, next, codeVal))
  }

  /** The body of the row loop, as the source runs it. */
  method ProcessRow(s: Setting, row: seq<Cell>, sites: Dict<Site>, codeVal: Option<string>) returns (r: Result<Outcome>)
    requires s.tables.Valid() && sites.Valid()
    ensures r == ProcessRecord(s, row, sites, codeVal)
  {
    var rec := BuildRecord(s.columns, row);
    RecordKeys(s.columns, row);
    var fixed := FixLongitude(rec, s.lon, s.parse, s.show);
    if fixed.Err? {
      return Err(fixed.error);
    }
    var prepared := SetDatum(fixed.value, s.forIR, s.filename, s.wqxSites);
    if prepared.Err? {
      return Err(prepared.error);
    }
    assert prepared == Prepared(s, row);
    var classified := ClassifyRecord(prepared.value, s.tables, s.table, DqCodes, codeVal);
    if classified.Err? {
      return Err(classified.error);
    }
    r := Register(s, classified.value.0, sites, classified.value.1);
  }

  /** A row that went through names its steps: the prepared record was
      classified, and the classified record was registered. */
  lemma ProcessParts(s: Setting, row: seq<Cell>, sites: Dict<Site>, codeVal: Option<string>)
    requires s.tables.Valid() && sites.Valid()
    requires ProcessRecord(s, row, sites, codeVal).Ok?
    ensures Prepared(s, row).Ok?
    ensures Classify(Prepared(s, row).value, s.tables, s.table, DqCodes, codeVal).Ok?
    ensures var c := Classify(Prepared(s, row).value, s.tables, s.table, DqCodes, codeVal).value;
      ProcessRecord(s, row, sites, codeVal) == Register(s, c.0, sites, c.1)
  {
  }

  /** A record with a generic column whose cleaned value its table grades 0
      is written as a MetaData record, and nothing else about it changes. */
  lemma ProcessMetaData(s: Setting, row: seq<Cell>, sites: Dict<Site>, codeVal: Option<string>, j: nat)
    requires s.tables.Valid() && sites.Valid() && NonNegativeTables(s.tables)
    requires ProcessRecord(s, row, sites, codeVal).Ok?
    requires j < |s.columns| && s.columns[j] !in s.columns[j + 1..]
    requires s.columns[j] != s.lon && s.columns[j] != "Datum"
    requires GenericColumn(s.columns[j]) && s.columns[j] in s.tables.entries
    requires var t := s.tables.entries[s.columns[j]];
      var v := if j < |row| then CleanCell(row[j]) else "";
      v in t && t[v] == 0
    ensures ProcessRecord(s, row, sites, codeVal).value.rec == Prepared(s, row).value.Set("DataQuality", "MetaData")
  {
    ProcessParts(s, row, sites, codeVal);
    var prepared := Prepared(s, row).value;
    var c := s.columns[j];
    PreparedCell(s, row, j);
    var i :| 0 <= i < |s.tables.keys| && s.tables.keys[i] == c;
    ClassifyMetaData(prepared, s.tables, s.table, codeVal, i);
  }

  /** The cells of the prepared record: the longitude after the sign fix,
      the datum the datum step looked up where a datum is stored, and every
      other column as the row gave it. */
  lemma PreparedCells(s: Setting, row: seq<Cell>)
    requires Coordinates(s.lat, s.lon) && Prepared(s, row).Ok?
    ensures s.lon in Record(s.columns, row).entries && s.lon in Prepared(s, row).value.entries
    ensures Prepared(s, row).value.entries[s.lon] == FixedLongitude(Record(s.columns, row).entries[s.lon], s.parse, s.show)
    ensures forall k :: k in Record(s.columns, row).entries && k != s.lon && k != "Datum" ==>
      k in Prepared(s, row).value.entries && Prepared(s, row).value.entries[k] == Record(s.columns, row).entries[k]
    ensures !StoresDatum(s) && "Datum" in Record(s.columns, row).entries ==>
      "Datum" in Prepared(s, row).value.entries &&
      Prepared(s, row).value.entries["Datum"] == Record(s.columns, row).entries["Datum"]
    ensures StoresDatum(s) ==> "StationCode" in Record(s.columns, row).entries && "Datum" in Prepared(s, row).value.entries
    ensures StoresDatum(s) ==> var code := Record(s.columns, row).entries["StationCode"];
      Prepared(s, row).value.entries["Datum"] == if code in s.wqxSites then s.wqxSites[code] else "NR"
  {
    var rec0 := Record(s.columns, row);
    RecordKeys(s.columns, row);
    PreparedSteps(s, row);
    var fixed := FixLongitude(rec0, s.lon, s.parse, s.show).value;
    FixedCells(rec0, s.lon, s.parse, s.show);
    DatumCells(fixed, s.forIR, s.filename, s.wqxSites);
  }

  /** `Prepared` is the datum step applied to the fixed record. */
  lemma PreparedSteps(s: Setting, row: seq<Cell>)
    requires Prepared(s, row).Ok?
    ensures Record(s.columns, row).Valid()
    ensures FixLongitude(Record(s.columns, row), s.lon, s.parse, s.show).Ok?
    ensures Prepared(s, row) == SetDatum(FixLongitude(Record(s.columns, row), s.lon, s.parse, s.show).value,
                                         s.forIR, s.filename, s.wqxSites)
  {
    RecordKeys(s.columns, row);
  }

  /** The sign fix writes the longitude cell alone, as `FixedLongitude`. */
  lemma FixedCells(rec: Dict<string>, lon: string, parse: Parse, show: Show)
    requires rec.Valid() && lon in rec.entries
    ensures var fixed := FixLongitude(rec, lon, parse, show).value;
      fixed.Valid() && lon in fixed.entries && fixed.entries[lon] == FixedLongitude(rec.entries[lon], parse, show) &&
      forall k :: k in rec.entries ==> k in fixed.entries && (k != lon ==> fixed.entries[k] == rec.entries[k])
  {
  }

  /** The datum step writes the Datum cell alone. */
  lemma DatumCells(rec: Dict<string>, forIR: bool, filename: string, wqxSites: map<string, string>)
    requires rec.Valid() && SetDatum(rec, forIR, filename, wqxSites).Ok?
    ensures forall k :: k in rec.entries && k != "Datum" ==>
      k in SetDatum(rec, forIR, filename, wqxSites).value.entries &&
      SetDatum(rec, forIR, filename, wqxSites).value.entries[k] == rec.entries[k]
    ensures (forIR || filename == "BenthicData") ==> SetDatum(rec, forIR, filename, wqxSites).value == rec
    ensures !(forIR || filename == "BenthicData") ==>
      "StationCode" in rec.entries && "Datum" in SetDatum(rec, forIR, filename, wqxSites).value.entries &&
      SetDatum(rec, forIR, filename, wqxSites).value.entries["Datum"] == DatumFor(rec, wqxSites).value
  {
  }

  /** `Datum_list = {"NR": 3}`: in a dataset that stores a datum and grades
      its Datum column, a station WQX_Stations does not list is given 'NR',
      which the classifier grades 3. Such a record is never Passed: it is
      MetaData or carries the name of a severity of at least 3. */
  lemma ProcessDatumGraded(s: Setting, row: seq<Cell>, sites: Dict<Site>, codeVal: Option<string>)
    requires s.tables.Valid() && sites.Valid() && NonNegativeTables(s.tables)
    requires Coordinates(s.lat, s.lon) && StoresDatum(s)
    requires "Datum" in s.tables.entries && "NR" in s.tables.entries["Datum"] && s.tables.entries["Datum"]["NR"] == 3
    requires ProcessRecord(s, row, sites, codeVal).Ok?
    requires "StationCode" in Record(s.columns, row).entries
    requires Record(s.columns, row).entries["StationCode"] !in s.wqxSites
    ensures Prepared(s, row).Ok? && Prepared(s, row).value.entries["Datum"] == "NR"
    ensures var q := ProcessRecord(s, row, sites, codeVal).value.rec.entries["DataQuality"];
      q == "MetaData" || exists m :: m in DqCodes && 3 <= m && q == DqCodes[m]
  {
    ProcessParts(s, row, sites, codeVal);
    PreparedCells(s, row);
    var prepared := Prepared(s, row).value;
    var i :| 0 <= i < |s.tables.keys| && s.tables.keys[i] == "Datum";
    ClassifyGraded(prepared, s.tables, s.table, codeVal, i);
  }

  /** The text the longitude column holds after the sign fix. */
  function FixedLongitude(v: string, parse: Parse, show: Show): string {
    match parse(v)
    case Some(x) => if 0.0 < x < 10000.0 then show(-x) else v
    case None => v
  }

  /** A station seen for the first time enters `AllSites` with the record as
      written: its name and latitude from the row, the longitude after the
      sign fix, and the datum the datum step looked up (the row's own Datum
      for IR tables and BenthicData). */
  lemma ProcessSite(s: Setting, row: seq<Cell>, sites: Dict<Site>, codeVal: Option<string>)
    requires s.tables.Valid() && sites.Valid() && Coordinates(s.lat, s.lon)
    requires ProcessRecord(s, row, sites, codeVal).Ok?
    ensures "StationCode" in Record(s.columns, row).entries
    ensures var rec0 := Record(s.columns, row);
      rec0.entries["StationCode"] in ProcessRecord(s, row, sites, codeVal).value.sites.entries
    ensures var rec0 := Record(s.columns, row);
      rec0.entries["StationCode"] !in sites.entries ==>
        "StationName" in rec0.entries && s.lat in rec0.entries && s.lon in rec0.entries &&
        (!StoresDatum(s) ==> "Datum" in rec0.entries)
    ensures var rec0 := Record(s.columns, row);
      var code := rec0.entries["StationCode"];
      code !in sites.entries ==>
        ProcessRecord(s, row, sites, codeVal).value.sites.entries[code] ==
          Site(rec0.entries["StationName"], rec0.entries[s.lat], FixedLongitude(rec0.entries[s.lon], s.parse, s.show),
               if !StoresDatum(s) then rec0.entries["Datum"]
               else if code in s.wqxSites then s.wqxSites[code] else "NR")
  {
    ProcessParts(s, row, sites, codeVal);
    PreparedCells(s, row);
    RecordKeys(s.columns, row);
    var prepared := Prepared(s, row).value;
    var c := Classify(prepared, s.tables, s.table, DqCodes, codeVal).value;
    var out := ProcessRecord(s, row, sites, codeVal).value;
    SiteOfLabelled(prepared, c.0, sites, s.lat, s.lon, out.sites);
    var rec0 := Record(s.columns, row);
    assert prepared.entries["StationCode"] == rec0.entries["StationCode"];
    if rec0.entries["StationCode"] !in sites.entries {
      assert prepared.entries["StationName"] == rec0.entries["StationName"];
      assert prepared.entries[s.lat] == rec0.entries[s.lat];
    }
  }

  /** The registry entry of a classified record is read from the record
      before classification: classifying changes only the quality cells. */
  lemma SiteOfLabelled(prepared: Dict<string>, labelled: Dict<string>, sites: Dict<Site>, lat: string, lon: string,
                       next: Dict<Site>)
    requires sites.Valid() && Coordinates(lat, lon)
    requires OnlyQualityChanged(prepared, labelled)
    requires RegisterSite(sites, labelled, lat, lon) == Ok(next)
    ensures "StationCode" in prepared.entries
    ensures prepared.entries["StationCode"] in next.entries
    ensures var code := prepared.entries["StationCode"];
      code !in sites.entries ==>
        "StationName" in prepared.entries && lat in prepared.entries && lon in prepared.entries &&
        "Datum" in prepared.entries &&
        next.entries[code] == Site(prepared.entries["StationName"], prepared.entries[lat], prepared.entries[lon],
                                   prepared.entries["Datum"])
  {
  }

  // ------------------------------------------------------------ the cursor

  /** What the row loop has produced so far: the records written to the
      dataset file, the year file of each, `AllSites` and `codeVal`. */
  datatype Run = Run(written: seq<Dict<string>>, parts: seq<Option<Partition>>, sites: Dict<Site>,
                     codeVal: Option<string>)

  /** A written record carries a label of the scale, and its station is in
      `AllSites`. */
  predicate Registered(rec: Dict<string>, sites: Dict<Site>) {
    && "DataQuality" in rec.entries && rec.entries["DataQuality"] in DqCodes.Values
    && "StationCode" in rec.entries && rec.entries["StationCode"] in sites.entries
  }

  /** A record stays registered when the registry only grows. */
  lemma RegisteredGrows(rec: Dict<string>, sites: Dict<Site>, more: Dict<Site>)
    requires Registered(rec, sites)
    requires forall k :: k in sites.entries ==> k in more.entries
    ensures Registered(rec, more)
  {
  }

  /** `for row in cursor`: the rows in order, each starting from the
      registry and the `codeVal` the one before left; the first error ends
      the run. */
  function ProcessRows(s: Setting, rows: seq<seq<Cell>>, sites: Dict<Site>, codeVal: Option<string>): (r: Result<Run>)
    requires s.tables.Valid() && sites.Valid()
    ensures r.Ok? ==> r.value.sites.Valid() && |r.value.written| == |rows| && |r.value.parts| == |rows|
    decreases |rows|
  {
    if |rows| == 0 then Ok(Run([], [], sites, codeVal))
    else
      var prev :- ProcessRows(s, rows[..|rows| - 1], sites, codeVal);
      var out :- ProcessRecord(s, rows[|rows| - 1], prev.sites, prev.codeVal);
      Ok(Run(prev.written + [out.rec], prev.parts + [out.part], out.sites, out.codeVal))
  }

  /** A station in `AllSites` before the loop keeps its entry. */
  lemma {:induction false} RowsKeepSites(s: Setting, rows: seq<seq<Cell>>, sites: Dict<Site>, codeVal: Option<string>)
    requires s.tables.Valid() && sites.Valid()
    requires ProcessRows(s, rows, sites, codeVal).Ok?
    ensures var run := ProcessRows(s, rows, sites, codeVal).value;
      forall k :: k in sites.entries ==> k in run.sites.entries && run.sites.entries[k] == sites.entries[k]
    decreases |rows|
  {
    if |rows| > 0 {
      var init := rows[..|rows| - 1];
      RowsKeepSites(s, init, sites, codeVal);
    }
  }

  /** Every record goes to a year file exactly when the tables are not IR
      tables. */
  lemma {:induction false} RowsPartitioned(s: Setting, rows: seq<seq<Cell>>, sites: Dict<Site>, codeVal: Option<string>)
    requires s.tables.Valid() && sites.Valid()
    requires ProcessRows(s, rows, sites, codeVal).Ok?
    ensures forall p :: p in ProcessRows(s, rows, sites, codeVal).value.parts ==> (p.None? <==> s.forIR)
    decreases |rows|
  {
    if |rows| > 0 {
      RowsPartitioned(s, rows[..|rows| - 1], sites, codeVal);
    }
  }

  lemma {:induction false} RowsRegistered(s: Setting, rows: seq<seq<Cell>>, sites: Dict<Site>, codeVal: Option<string>)
    requires s.tables.Valid() && sites.Valid()
    requires ProcessRows(s, rows, sites, codeVal).Ok?
    ensures var run := ProcessRows(s, rows, sites, codeVal).value;
      forall w :: w in run.written ==> Registered(w, run.sites)
    decreases |rows|
  {
    if |rows| > 0 {
      var init := rows[..|rows| - 1];
      RowsRegistered(s, init, sites, codeVal);
      var prev := ProcessRows(s, init, sites, codeVal).value;
      var out := ProcessRecord(s, rows[|rows| - 1], prev.sites, prev.codeVal).value;
      forall w | w in prev.written
        ensures Registered(w, out.sites)
      {
        RegisteredGrows(w, prev.sites, out.sites);
      }
    }
  }


  /** The row loop, as the source runs it. */
  method ProcessCursor(s: Setting, rows: seq<seq<Cell>>, sites0: Dict<Site>, codeVal0: Option<string>)
    returns (r: Result<Run>)
    requires s.tables.Valid() && sites0.Valid()
    ensures r == ProcessRows(s, rows, sites0, codeVal0)
  {
    var run := Run([], [], sites0, codeVal0);
    for i := 0 to |rows|
      invariant ProcessRows(s, rows[..i], sites0, codeVal0) == Ok(run)
    {
      assert rows[..i + 1][..i] == rows[..i];
      var out := ProcessRow(s, rows[i], run.sites, run.codeVal);
      if out.Err? {
        RowsErrSticky(s, rows, i + 1, sites0, codeVal0);
        return Err(out.error);
      }
      run := Run(run.written + [out.value.rec], run.parts + [out.value.part], out.value.sites, out.value.codeVal);
    }
    assert rows[..|rows|] == rows;
    r := Ok(run);
  }

  lemma {:induction false} RowsErrSticky(s: Setting, rows: seq<seq<Cell>>, n: nat, sites: Dict<Site>,
                                        codeVal: Option<string>)
    requires s.tables.Valid() && sites.Valid()
    requires n <= |rows| && ProcessRows(s, rows[..n], sites, codeVal).Err?
    ensures ProcessRows(s, rows, sites, codeVal) == ProcessRows(s, rows[..n], sites, codeVal)
    decreases |rows| - n
  {
    if n < |rows| {
      assert rows[..n + 1][..n] == rows[..n];
      RowsErrSticky(s, rows, n + 1, sites, codeVal);
    } else {
      assert rows[..n] == rows;
    }
  }
}
