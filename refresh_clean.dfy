/** The record clean-up of CEDEN_DataRefresh.py around its data-quality
    classifier: the character filter `decodeAndStrip`, turning a database row
    into a record (None to '', padding to the column count, `dict(zip(...))`),
    the longitude sign fix, the datum lookup, the three-way year partition,
    the first-seen site registry `AllSites`, and the row filter of
    `selectByAnalyte`. */
module RefreshClean {
  import opened Wrappers
  import opened PyText
  import opened PyDict

  // ------------------------------------------------------------ decodeAndStrip

  /** `string.printable` minus the characters `|"\t\r\n\f\v`: of the
      whitespace in `string.printable` only the space is left, so this is
      the ASCII range 32..126 without the pipe and the double quote. */
  predicate MainAllowed(c: char) {
    32 <= c as int <= 126 && c != '|' && c != '"'
  }

  /** `decodeAndStrip(t)` of the text `str(t)`: the characters of `s` that
      the filter allows, in their order and with their multiplicity, and no
      other character. */
  function DecodeAndStrip(s: string): (r: string)
    ensures forall i :: 0 <= i < |r| ==> MainAllowed(r[i])
    ensures '|' !in r && '"' !in r && '\t' !in r && '\r' !in r && '\n' !in r
    ensures IsSubsequence(r, s)
    ensures forall c :: MainAllowed(c) ==> multiset(r)[c] == multiset(s)[c]
  {
    FilterCharsExact(s, MainAllowed);
    FilterChars(s, MainAllowed)
  }

  /** Cleaning text that is already clean changes nothing. */
  lemma DecodeAndStripIdempotent(s: string)
    ensures DecodeAndStrip(DecodeAndStrip(s)) == DecodeAndStrip(s)
  {
    FilterCharsIdempotent(s, MainAllowed);
  }

  /** A cell as the database cursor returns it: `None`, or a value whose
      `str()` is the text. */
  datatype Cell = Null | Text(text: string)

  /** `decodeAndStrip(t) if t is not None else ''`. The WQX_Stations branch
      first maps `None` to `''` and then filters every cell, which gives the
      same text. */
  function CleanCell(c: Cell): (r: string)
    ensures c.Null? ==> r == ""
    ensures c.Text? ==> r == DecodeAndStrip(c.text)
  {
    match c
    case Null => ""
    case Text(s) => DecodeAndStrip(s)
  }

  function CleanRow(row: seq<Cell>): (r: seq<string>)
    ensures |r| == |row|
    ensures forall i :: 0 <= i < |row| ==> r[i] == CleanCell(row[i])
  {
    seq(|row|, i requires 0 <= i < |row| => CleanCell(row[i]))
  }

  // ------------------------------------------------------------ records

  function Max(a: nat, b: nat): nat { if a >= b then a else b }

  /** `while len(columns) > len(filtered): filtered += ['']`: the row grows to
      the column count with empty strings and is otherwise unchanged. */
  method PadRow(filtered: seq<string>, width: nat) returns (r: seq<string>)
    ensures |r| == Max(width, |filtered|)
    ensures r[..|filtered|] == filtered
    ensures forall i :: |filtered| <= i < |r| ==> r[i] == ""
  {
    r := filtered;
    while width > |r|
      invariant |filtered| <= |r| <= Max(width, |filtered|)
      invariant r[..|filtered|] == filtered
      invariant forall i :: |filtered| <= i < |r| ==> r[i] == ""
      decreases width - |r|
    {
      r := r + [""];
    }
  }

  /** The record of a row: the cleaned, padded row zipped with the column
      names. */
  function Record(columns: seq<string>, row: seq<Cell>): Dict<string> {
    var f := CleanRow(row);
    FromZip(columns, f + seq(Max(|columns|, |f|) - |f|, _ => ""))
  }

  /** After padding every column is a key of the record; it holds the cleaned
      cell of its last occurrence, or `''` past the end of the row. */
  lemma RecordFields(columns: seq<string>, row: seq<Cell>, i: nat)
    requires i < |columns| && columns[i] !in columns[i + 1..]
    ensures Record(columns, row).Valid()
    ensures forall k :: k in Record(columns, row).entries <==> k in columns
    ensures Record(columns, row).entries[columns[i]] == if i < |row| then CleanCell(row[i]) else ""
  {
    var f := CleanRow(row);
    var padded := f + seq(Max(|columns|, |f|) - |f|, _ => "");
    assert columns[..Min(|columns|, |padded|)] == columns;
    assert padded[i] == if i < |row| then CleanCell(row[i]) else "";
  }

  /** `filtered = [...]`, the padding loop and `recordDict = dict(zip(columns,
      filtered))` of the non-WQX branch. */
  method BuildRecord(columns: seq<string>, row: seq<Cell>) returns (rec: Dict<string>)
    ensures rec == Record(columns, row)
  {
    var filtered := CleanRow(row);
    filtered := PadRow(filtered, |columns|);
    ghost var f := CleanRow(row);
    PaddedIs(f, filtered, seq(Max(|columns|, |f|) - |f|, _ => ""));
    rec := FromZip(columns, filtered);
  }

  /** What `PadRow` promises is the row followed by its empty cells. */
  lemma PaddedIs(f: seq<string>, r: seq<string>, blanks: seq<string>)
    requires |r| == |f| + |blanks| && r[..|f|] == f
    requires forall i :: |f| <= i < |r| ==> r[i] == ""
    requires forall i :: 0 <= i < |blanks| ==> blanks[i] == ""
    ensures r == f + blanks
  {
    assert forall i :: 0 <= i < |f| ==> r[i] == r[..|f|][i];
  }

  // ------------------------------------------------------------ longitude

  /** `float(...) ` and `str(float)` are not modelled: `parse` stands for
      `float()` (`None` is its `ValueError`) and `show` for the text the
      record holds after a float is stored in it. */
  type Parse = string -> Option<real>
  type Show = real -> string

  /** The longitude sign fix: a longitude that parses to a number strictly
      between 0 and 10000 is replaced by its negation; a number outside that
      range and a text that does not parse are left as they are. Reading the
      longitude of a record that has no such column raises `KeyError`. */
  function FixLongitude(rec: Dict<string>, lon: string, parse: Parse, show: Show): (r: Result<Dict<string>>)
    requires rec.Valid()
    ensures r.Ok? <==> lon in rec.entries
    ensures r.Err? ==> r.error == KeyError(lon)
    ensures r.Ok? ==> r.value.Valid() && r.value.keys == rec.keys
    ensures r.Ok? ==> forall k :: k in rec.entries && k != lon ==> r.value.entries[k] == rec.entries[k]
    ensures r.Ok? ==> match parse(rec.entries[lon])
                      case Some(x) => r.value.entries[lon] == (if 0.0 < x < 10000.0 then show(-x) else rec.entries[lon])
                      case None => r.value.entries[lon] == rec.entries[lon]
  {
    var v :- rec.Get(lon);
    match parse(v)
    case Some(x) => if 0.0 < x < 10000.0 then Ok(rec.Set(lon, show(-x))) else Ok(rec)
    case None => Ok(rec)
  }

  /** When `show` writes a number that `parse` reads back, the fixed
      longitude is never strictly between 0 and 10000, and fixing twice is
      fixing once. */
  lemma FixLongitudeIdempotent(rec: Dict<string>, lon: string, parse: Parse, show: Show)
    requires rec.Valid() && lon in rec.entries
    requires forall x :: parse(show(x)) == Some(x)
    ensures var once := FixLongitude(rec, lon, parse, show).value;
      && (forall y :: parse(once.entries[lon]) == Some(y) ==> !(0.0 < y < 10000.0))
      && FixLongitude(once, lon, parse, show) == Ok(once)
  {
    var once := FixLongitude(rec, lon, parse, show).value;
    match parse(rec.entries[lon])
    case Some(x) =>
      if 0.0 < x < 10000.0 {
        assert parse(once.entries[lon]) == Some(-x);
      }
    case None =>
  }

  // ------------------------------------------------------------ datum

  /** The datum of the record's station: the WQX_Stations datum when the
      station is listed there, `'NR'` otherwise. */
  function DatumFor(rec: Dict<string>, wqxSites: map<string, string>): (r: Result<string>)
    ensures r.Err? <==> "StationCode" !in rec.entries
    ensures r.Err? ==> r.error == KeyError("StationCode")
    ensures r.Ok? && rec.entries["StationCode"] in wqxSites ==> r.value == wqxSites[rec.entries["StationCode"]]
    ensures r.Ok? && rec.entries["StationCode"] !in wqxSites ==> r.value == "NR"
  {
    var code :- rec.Get("StationCode");
    Ok(if code in wqxSites then wqxSites[code] else "NR")
  }

  /** The datum step: IR tables and BenthicData keep the record as it is;
      every other dataset stores `DatumFor` under `'Datum'`. */
  function SetDatum(rec: Dict<string>, forIR: bool, filename: string, wqxSites: map<string, string>)
    : (r: Result<Dict<string>>)
    requires rec.Valid()
    ensures forIR || filename == "BenthicData" ==> r == Ok(rec)
    ensures !(forIR || filename == "BenthicData") ==>
      match DatumFor(rec, wqxSites)
      case Ok(datum) => r == Ok(rec.Set("Datum", datum))
      case Err(e) => r == Err(e)
  {
    if forIR || filename == "BenthicData" then Ok(rec)
    else
      var datum :- DatumFor(rec, wqxSites);
      Ok(rec.Set("Datum", datum))
  }

  // ------------------------------------------------------------ year partition

  datatype Partition = Before2000 | From2000To2009 | From2010

  /** The three writer tests as written: `y < 2000`, `1999 < y < 2010`,
      `y > 2009`; every integer passes exactly one of them. */
  function PartitionOf(y: int): (r: Option<Partition>)
    ensures r.Some?
    ensures r == Some(Before2000) <==> y < 2000
    ensures r == Some(From2000To2009) <==> 2000 <= y <= 2009
    ensures r == Some(From2010) <==> 2010 <= y
  {
    if y < 2000 then Some(Before2000)
    else if 1999 < y < 2010 then Some(From2000To2009)
    else if y > 2009 then Some(From2010)
    else None
  }

  /** `int(recordDict['SampleDate'][:4])`. */
  function RecordYear(rec: Dict<string>): (r: Result<int>)
    ensures r.Err? <==> "SampleDate" !in rec.entries || ParseInt(Head(rec.entries["SampleDate"], 4)).None?
    ensures r.Ok? ==> Some(r.value) == ParseInt(Head(rec.entries["SampleDate"], 4))
  {
    var date :- rec.Get("SampleDate");
    match ParseInt(Head(date, 4))
    case Some(y) => Ok(y)
    case None => Err(ValueError(Head(date, 4)))
  }

  // ------------------------------------------------------------ sites

  /** `[StationName, Latitude, Longitude, Datum]` of a station. */
  datatype Site = Site(name: string, lat: string, long: string, datum: string)

  /** `if rec['StationCode'] not in sites: sites[...] = [...]`: a station is
      registered with the first record seen for it and never overwritten.
      The name, coordinates and datum are read only for a new station. */
  function RegisterSite(sites: Dict<Site>, rec: Dict<string>, lat: string, lon: string): (r: Result<Dict<Site>>)
    requires sites.Valid()
    ensures r.Ok? ==> r.value.Valid()
    ensures "StationCode" !in rec.entries ==> r == Err(KeyError("StationCode"))
    ensures "StationCode" in rec.entries && rec.entries["StationCode"] in sites.entries ==> r == Ok(sites)
    ensures r.Ok? ==> forall k :: k in sites.entries ==> k in r.value.entries && r.value.entries[k] == sites.entries[k]
    ensures r.Ok? ==> forall k :: k in r.value.entries ==> k in sites.entries || k == rec.entries["StationCode"]
    ensures r.Ok? && rec.entries["StationCode"] !in sites.entries ==>
      && "StationName" in rec.entries && lat in rec.entries && lon in rec.entries && "Datum" in rec.entries
      && r.value.keys == sites.keys + [rec.entries["StationCode"]]
      && r.value.entries[rec.entries["StationCode"]]
         == Site(rec.entries["StationName"], rec.entries[lat], rec.entries[lon], rec.entries["Datum"])
  {
    var code :- rec.Get("StationCode");
    if code in sites.entries then Ok(sites)
    else
      var name :- rec.Get("StationName");
      var la :- rec.Get(lat);
      var lo :- rec.Get(lon);
      var datum :- rec.Get("Datum");
      Ok(sites.Set(code, Site(name, la, lo, datum)))
  }

  // ------------------------------------------------------------ selectByAnalyte

  /** The rows and stations `selectByAnalyte` writes. */
  datatype Selection = Selection(written: seq<seq<string>>, sites: Dict<Site>)

  /** A data row is selected when its `field` value is one of `analytes`. */
  predicate Matches(header: seq<string>, row: seq<string>, field: string, analytes: seq<string>) {
    var d := FromZip(header, row);
    field in d.entries && d.entries[field] in analytes
  }

  /** The data rows that match, in their order. */
  function Kept(header: seq<string>, rows: seq<seq<string>>, field: string, analytes: seq<string>)
    : (r: seq<seq<string>>)
    ensures forall x :: x in r ==> x in rows && Matches(header, x, field, analytes)
    ensures forall x :: x in rows && Matches(header, x, field, analytes) ==> x in r
    decreases |rows|
  {
    if |rows| == 0 then []
    else
      var prev := Kept(header, rows[..|rows| - 1], field, analytes);
      var last := rows[|rows| - 1];
      assert forall x :: x in rows ==> x in rows[..|rows| - 1] || x == last;
      prev + (if Matches(header, last, field, analytes) then [last] else [])
  }

  /** One step of the loop: the first row is the header and is written; a
      later row is written when it matches, and its station registered. */
  function SelectStep(sel: Selection, header: seq<string>, row: seq<string>, field: string,
                      analytes: seq<string>, lat: string, lon: string): (r: Result<Selection>)
    requires sel.sites.Valid()
    ensures r.Ok? ==> r.value.sites.Valid()
  {
    var d := FromZip(header, row);
    var v :- d.Get(field);
    if v in analytes then
      var sites :- RegisterSite(sel.sites, d, lat, lon);
      Ok(Selection(sel.written + [row], sites))
    else Ok(sel)
  }

  /** The whole of `selectByAnalyte` over the rows of the input file, the
      first of which is the header. */
  function Select(rows: seq<seq<string>>, field: string, analytes: seq<string>, lat: string, lon: string)
    : (r: Result<Selection>)
    ensures r.Ok? ==> r.value.sites.Valid()
    decreases |rows|
  {
    if |rows| == 0 then Ok(Selection([], Empty()))
    else if |rows| == 1 then Ok(Selection([rows[0]], Empty()))
    else
      var sel :- Select(rows[..|rows| - 1], field, analytes, lat, lon);
      SelectStep(sel, rows[0], rows[|rows| - 1], field, analytes, lat, lon)
  }

  /** A successful selection writes the header and then exactly the data
      rows whose `field` value is listed, in their order. */
  lemma {:induction false} SelectWritesKept(rows: seq<seq<string>>, field: string, analytes: seq<string>,
                                           lat: string, lon: string)
    requires |rows| > 0 && Select(rows, field, analytes, lat, lon).Ok?
    ensures Select(rows, field, analytes, lat, lon).value.written
            == [rows[0]] + Kept(rows[0], rows[1..], field, analytes)
    decreases |rows|
  {
    if |rows| > 1 {
      var init := rows[..|rows| - 1];
      SelectWritesKept(init, field, analytes, lat, lon);
      KeptSnoc(rows, field, analytes);
    }
  }

  /** The rows kept from all but the header: those kept before the last row,
      then the last row when it matches. */
  lemma KeptSnoc(rows: seq<seq<string>>, field: string, analytes: seq<string>)
    requires |rows| > 1
    ensures rows[..|rows| - 1][0] == rows[0]
    ensures Kept(rows[0], rows[1..], field, analytes) ==
      Kept(rows[0], rows[..|rows| - 1][1..], field, analytes)
      + (if Matches(rows[0], rows[|rows| - 1], field, analytes) then [rows[|rows| - 1]] else [])
  {
    assert rows[1..][..|rows[1..]| - 1] == rows[..|rows| - 1][1..];
  }

  /** A data row without the filter column raises `KeyError`. */
  lemma SelectMissingField(rows: seq<seq<string>>, field: string, analytes: seq<string>, lat: string, lon: string)
    requires |rows| > 1 && field !in FromZip(rows[0], rows[|rows| - 1]).entries
    ensures Select(rows, field, analytes, lat, lon).Err?
  {
  }

  /** `selectByAnalyte`'s loop over the rows of the input file. */
  method SelectByAnalyte(rows: seq<seq<string>>, field: string, analytes: seq<string>, lat: string, lon: string)
    returns (r: Result<Selection>)
    ensures r == Select(rows, field, analytes, lat, lon)
  {
    var written: seq<seq<string>> := [];
    var sites: Dict<Site> := Empty();
    var columns: seq<string> := [];
    var count := 0;
    while count < |rows|
      invariant 0 <= count <= |rows|
      invariant sites.Valid()
      invariant count > 0 ==> columns == rows[0]
      invariant Select(rows[..count], field, analytes, lat, lon) == Ok(Selection(written, sites))
    {
      assert rows[..count + 1][..count] == rows[..count];
      var row := rows[count];
      if count == 0 {
        assert rows[..0] == [];
        columns := row;
        written := written + [row];
        count := count + 1;
        assert written == [row];
        assert rows[..count] == [row];
        continue;
      }
      assert rows[..count + 1][0] == columns;
      var step := SelectStep(Selection(written, sites), columns, row, field, analytes, lat, lon);
      assert Select(rows[..count + 1], field, analytes, lat, lon) == step;
      if step.Err? {
        SelectErrSticky(rows, count + 1, field, analytes, lat, lon);
        return step;
      }
      written, sites := step.value.written, step.value.sites;
      count := count + 1;
    }
    assert rows[..count] == rows;
    r := Ok(Selection(written, sites));
  }

  /** Once a row raises, the run over any longer prefix raises the same
      error. */
  lemma {:induction false} SelectErrSticky(rows: seq<seq<string>>, n: nat, field: string, analytes: seq<string>,
                                          lat: string, lon: string)
    requires 0 < n <= |rows| && Select(rows[..n], field, analytes, lat, lon).Err?
    ensures Select(rows, field, analytes, lat, lon) == Select(rows[..n], field, analytes, lat, lon)
    decreases |rows| - n
  {
    if n < |rows| {
      assert rows[..n + 1][..n] == rows[..n];
      assert rows[..n + 1][0] == rows[0];
      SelectErrSticky(rows, n + 1, field, analytes, lat, lon);
    } else {
      assert rows[..n] == rows;
    }
  }
}
