/** What the three scripts under WorkingScripts/ share: the character filter
    `decodeAndStrip` of WorkingScripts/CEDEN_DataRefresh.py and
    WorkingScripts/CEDEN_Download_and_UpdateV2.py, the record built from a
    database row, the plain table lookups that collect `DQ`, `max(DQ)` without
    an error sentinel, the `QInd` string of column names, the text label and
    the `Spatial_Datum` lookup. */
module WorkingShared {
  import opened Wrappers
  import opened PyText
  import opened PyDict
  import opened SchemaOps
  import opened DqCore
  import RefreshClean
  import opened RefreshClassifier

  // ------------------------------------------------------------ decodeAndStrip

  /** `string.printable` minus ``|"'`\t\r\n\f\v``: of the whitespace only the
      space is left, so this is the ASCII range 32..126 without the pipe, the
      two quotes and the backquote. */
  predicate WorkingAllowed(c: char) {
    32 <= c as int <= 126 && c != '|' && c != '"' && c != '\'' && c != '`'
  }

  /** `decodeAndStrip(t)` of the text `str(t)`: the characters of `s` that the
      filter allows, in their order and with their multiplicity, and no other
      character. */
  function DecodeAndStrip(s: string): (r: string)
    ensures forall i :: 0 <= i < |r| ==> WorkingAllowed(r[i])
    ensures '|' !in r && '"' !in r && '\'' !in r && '`' !in r
    ensures '\t' !in r && '\r' !in r && '\n' !in r && '\U{000B}' !in r && '\U{000C}' !in r
    ensures IsSubsequence(r, s)
    ensures forall c :: WorkingAllowed(c) ==> multiset(r)[c] == multiset(s)[c]
  {
    FilterCharsExact(s, WorkingAllowed);
    FilterChars(s, WorkingAllowed)
  }

  /** Cleaning text that is already clean changes nothing. */
  lemma DecodeAndStripIdempotent(s: string)
    ensures DecodeAndStrip(DecodeAndStrip(s)) == DecodeAndStrip(s)
  {
    FilterCharsIdempotent(s, WorkingAllowed);
  }

  /** `str(t)`. These scripts have no `None` test, so a `None` cell becomes
      the text "None". */
  function Str(c: RefreshClean.Cell): (r: string)
    ensures c.Null? ==> r == "None"
    ensures c.Text? ==> r == c.text
  {
    match c
    case Null => "None"
    case Text(s) => s
  }

  /** `[decodeAndStrip(t) for t in list(row)]`. */
  function CleanRow(row: seq<RefreshClean.Cell>): (r: seq<string>)
    ensures |r| == |row|
    ensures forall i :: 0 <= i < |row| ==> r[i] == DecodeAndStrip(Str(row[i]))
  {
    seq(|row|, i requires 0 <= i < |row| => DecodeAndStrip(Str(row[i])))
  }

  /** `newDict = dict(zip(columns, filtered + [''] * pads))`. */
  function Record(columns: seq<string>, row: seq<RefreshClean.Cell>, pads: nat): Dict<string> {
    FromZip(columns, CleanRow(row) + seq(pads, _ => ""))
  }

  /** A `None` cell reaches the record as the text "None", and every other
      cell as its cleaned text; the padding columns hold "". */
  lemma RecordCells(columns: seq<string>, row: seq<RefreshClean.Cell>, pads: nat, i: nat)
    requires Distinct(columns) && i < |columns| && i < |row| + pads
    ensures var rec := Record(columns, row, pads);
      && columns[i] in rec.entries
      && (i < |row| && row[i].Null? ==> rec.entries[columns[i]] == "None")
      && (i < |row| && row[i].Text? ==> rec.entries[columns[i]] == DecodeAndStrip(row[i].text))
      && (i >= |row| ==> rec.entries[columns[i]] == "")
  {
    NoneIsClean();
    var vals := CleanRow(row) + seq(pads, _ => "");
    FromZipAt(columns, vals, i);
  }

  /** The text "None" passes the filter unchanged. */
  lemma NoneIsClean()
    ensures DecodeAndStrip("None") == "None"
  {
    FilterCharsKeepsAll("None", WorkingAllowed);
  }

  // ------------------------------------------------------------ DQ by plain lookups

  /** What one column adds with plain lookups: the severity of each
      comma-separated QACode token, or of the whole value of any other
      column, when the column's table has it. */
  function PlainStep(dq: seq<int>, col: string, rec: Dict<string>, t: CodeTable): (r: Result<seq<int>>)
    ensures r.Err? <==> col !in rec.entries
    ensures r.Err? ==> r.error == KeyError(col)
    ensures r.Ok? ==> |dq| <= |r.value| && r.value[..|dq|] == dq
  {
    var v :- rec.Get(col);
    Ok(dq + Lookups(ColumnValues(col, v), t))
  }

  /** The gathering loop over the columns of the code table, in key order. */
  function PlainGather(cols: seq<string>, rec: Dict<string>, tables: Dict<CodeTable>): (r: Result<seq<int>>)
    requires forall i :: 0 <= i < |cols| ==> cols[i] in tables.entries
    decreases |cols|
  {
    if |cols| == 0 then Ok([])
    else
      var prev :- PlainGather(cols[..|cols| - 1], rec, tables);
      var col := cols[|cols| - 1];
      PlainStep(prev, col, rec, tables.entries[col])
  }

  /** Column `c` has a value (a QACode token, or its whole value) that its
      table grades `x`. */
  predicate Grades(c: string, rec: Dict<string>, tables: Dict<CodeTable>, x: int)
    requires c in rec.entries && c in tables.entries
  {
    exists v :: v in ColumnValues(c, rec.entries[c]) && v in tables.entries[c] && tables.entries[c][v] == x
  }

  /** The gathering raises exactly when a column of the table is missing from
      the record. */
  lemma {:induction false} PlainGatherFails(cols: seq<string>, rec: Dict<string>, tables: Dict<CodeTable>)
    requires forall i :: 0 <= i < |cols| ==> cols[i] in tables.entries
    ensures PlainGather(cols, rec, tables).Err? <==> exists i :: 0 <= i < |cols| && cols[i] !in rec.entries
    decreases |cols|
  {
    if |cols| > 0 {
      var init := cols[..|cols| - 1];
      PlainGatherFails(init, rec, tables);
      assert PlainGather(cols, rec, tables).Err? <==>
        PlainGather(init, rec, tables).Err? || cols[|cols| - 1] !in rec.entries;
      MissingSnoc(cols, rec);
    }
  }

  predicate SomeMissing(cols: seq<string>, rec: Dict<string>) {
    exists i :: 0 <= i < |cols| && cols[i] !in rec.entries
  }

  /** A column is missing from a non-empty list exactly when it is missing
      from all but the last, or the last is. */
  lemma MissingSnoc(cols: seq<string>, rec: Dict<string>)
    requires |cols| > 0
    ensures SomeMissing(cols, rec) <==> SomeMissing(cols[..|cols| - 1], rec) || cols[|cols| - 1] !in rec.entries
  {
    var init := cols[..|cols| - 1];
    assert forall i :: 0 <= i < |init| ==> init[i] == cols[i];
  }

  /** Otherwise `DQ` holds exactly the severities the columns' values are
      graded with: there is no special rule. */
  lemma {:induction false} PlainGatherExact(cols: seq<string>, rec: Dict<string>, tables: Dict<CodeTable>)
    requires forall i :: 0 <= i < |cols| ==> cols[i] in tables.entries
    requires PlainGather(cols, rec, tables).Ok?
    ensures forall x :: x in PlainGather(cols, rec, tables).value <==>
      exists i :: 0 <= i < |cols| && cols[i] in rec.entries && Grades(cols[i], rec, tables, x)
    decreases |cols|
  {
    if |cols| > 0 {
      var init := cols[..|cols| - 1];
      var col := cols[|cols| - 1];
      PlainGatherExact(init, rec, tables);
      var prev := PlainGather(init, rec, tables).value;
      var vals := ColumnValues(col, rec.entries[col]);
      var t := tables.entries[col];
      assert PlainGather(cols, rec, tables).value == prev + Lookups(vals, t);
      forall x
        ensures x in prev + Lookups(vals, t) <==>
          exists i :: 0 <= i < |cols| && cols[i] in rec.entries && Grades(cols[i], rec, tables, x)
      {
        LookupsGrades(vals, t, x);
        GradedSnoc(cols, init, rec, tables, prev, Lookups(vals, t), x);
      }
    }
  }

  /** One more column: the severities are those of the earlier columns and
      those of the last one. */
  lemma GradedSnoc(cols: seq<string>, init: seq<string>, rec: Dict<string>, tables: Dict<CodeTable>,
                   prev: seq<int>, last: seq<int>, x: int)
    requires forall i :: 0 <= i < |cols| ==> cols[i] in tables.entries
    requires |cols| > 0 && init == cols[..|cols| - 1] && cols[|cols| - 1] in rec.entries
    requires x in prev <==> exists i :: 0 <= i < |init| && init[i] in rec.entries && Grades(init[i], rec, tables, x)
    requires x in last <==> Grades(cols[|cols| - 1], rec, tables, x)
    ensures x in prev + last <==> exists i :: 0 <= i < |cols| && cols[i] in rec.entries && Grades(cols[i], rec, tables, x)
  {
    if x in prev {
      var i :| 0 <= i < |init| && init[i] in rec.entries && Grades(init[i], rec, tables, x);
      assert cols[i] == init[i];
    }
  }

  lemma LookupsGrades(vals: seq<string>, t: CodeTable, x: int)
    ensures x in Lookups(vals, t) <==> exists v :: v in vals && v in t && t[v] == x
  {
    if x in Lookups(vals, t) {
      var j :| 0 <= j < |vals| && vals[j] in t && t[vals[j]] == x;
    }
    if exists v :: v in vals && v in t && t[v] == x {
      var v :| v in vals && v in t && t[v] == x;
      var j :| 0 <= j < |vals| && vals[j] == v;
    }
  }

  lemma {:induction false} PlainGatherErrSticky(cols: seq<string>, n: nat, rec: Dict<string>, tables: Dict<CodeTable>)
    requires forall i :: 0 <= i < |cols| ==> cols[i] in tables.entries
    requires n <= |cols| && PlainGather(cols[..n], rec, tables).Err?
    ensures PlainGather(cols, rec, tables) == PlainGather(cols[..n], rec, tables)
    decreases |cols| - n
  {
    if n < |cols| {
      assert cols[..n + 1][..n] == cols[..n];
      PlainGatherErrSticky(cols, n + 1, rec, tables);
    } else {
      assert cols[..n] == cols;
    }
  }

  /** The imperative gathering loop, with the token loop of QACode inside. */
  method GatherPlain(cols: seq<string>, rec: Dict<string>, tables: Dict<CodeTable>) returns (r: Result<seq<int>>)
    requires forall i :: 0 <= i < |cols| ==> cols[i] in tables.entries
    ensures r == PlainGather(cols, rec, tables)
  {
    var dq: seq<int> := [];
    for i := 0 to |cols|
      invariant PlainGather(cols[..i], rec, tables) == Ok(dq)
    {
      var col := cols[i];
      assert cols[..i + 1][..i] == cols[..i];
      if col !in rec.entries {
        PlainGatherErrSticky(cols, i + 1, rec, tables);
        return Err(KeyError(col));
      }
      dq := AddLookups(dq, ColumnValues(col, rec.entries[col]), tables.entries[col]);
    }
    assert cols[..|cols|] == cols;
    r := Ok(dq);
  }

  // ------------------------------------------------------------ max

  /** A gathering that ends normally has read every column of the record. */
  lemma PlainReadsAll(rec: Dict<string>, tables: Dict<CodeTable>)
    requires tables.Valid() && PlainGather(tables.keys, rec, tables).Ok?
    ensures forall i :: 0 <= i < |tables.keys| ==> tables.keys[i] in rec.entries
  {
    PlainGatherFails(tables.keys, rec, tables);
  }

  /** A value graded `x` in some column puts `x` into `DQ`. */
  lemma GradedGathered(rec: Dict<string>, tables: Dict<CodeTable>, c: string, x: int)
    requires rec.Valid() && tables.Valid()
    requires forall k :: k in tables.entries ==> k in rec.entries
    requires PlainGather(tables.keys, rec, tables).Ok?
    requires c in tables.keys && Grades(c, rec, tables, x)
    ensures x in PlainGather(tables.keys, rec, tables).value
  {
    PlainGatherExact(tables.keys, rec, tables);
    var j :| 0 <= j < |tables.keys| && tables.keys[j] == c;
  }

  /** Some column of the record has a value its table grades 0. */
  predicate SomeZero(rec: Dict<string>, tables: Dict<CodeTable>)
    requires tables.Valid() && forall k :: k in tables.entries ==> k in rec.entries
  {
    exists i :: 0 <= i < |tables.keys| && Grades(tables.keys[i], rec, tables, 0)
  }

  /** Severity 0 is gathered exactly when some column's value is graded 0. */
  lemma ZeroGathered(rec: Dict<string>, tables: Dict<CodeTable>)
    requires rec.Valid() && tables.Valid()
    requires forall k :: k in tables.entries ==> k in rec.entries
    requires PlainGather(tables.keys, rec, tables).Ok?
    ensures 0 in PlainGather(tables.keys, rec, tables).value <==> SomeZero(rec, tables)
  {
    PlainGatherExact(tables.keys, rec, tables);
  }

  /** `MaxDQ = max(DQ)`: there is no sentinel, so an empty `DQ` raises
      `ValueError`. */
  function MaxDQ(dq: seq<int>): (r: Result<int>)
    ensures r.Err? <==> |dq| == 0
    ensures r.Err? ==> r.error == ValueError("max() arg is an empty sequence")
    ensures r.Ok? ==> r.value in dq && forall x :: x in dq ==> x <= r.value
  {
    match MaxOf(dq)
    case Some(m) => Ok(m)
    case None => Err(ValueError("max() arg is an empty sequence"))
  }

  // ------------------------------------------------------------ QInd

  /** A value the indicator names its column for: graded, not 0 or 1, and
      equal to the maximum. */
  predicate Flags(v: string, t: CodeTable, m: int) {
    v in t && t[v] != 0 && t[v] != 1 && t[v] == m
  }

  /** One value of column `col` in the indicator loop: a graded value with
      severity 0 or 1 is skipped; one equal to the maximum appends the column
      name, with `', '` unless `QInd` is still empty. Only the QACode loop
      also skips when `QInd` is exactly "QACode". */
  function NameToken(qind: string, col: string, v: string, t: CodeTable, m: int): (r: string)
    ensures r != qind ==> Flags(v, t, m)
  {
    if v in t then
      if t[v] == 0 || t[v] == 1 then qind
      else if m == t[v] then
        if qind == "" then qind + col
        else if col == "QACode" && qind == "QACode" then qind
        else qind + ", " + col
      else qind
    else qind
  }

  /** The inner loop over one column's values. */
  function NameValues(qind: string, col: string, vals: seq<string>, t: CodeTable, m: int): (r: string)
    decreases |vals|
  {
    if |vals| == 0 then qind
    else NameToken(NameValues(qind, col, vals[..|vals| - 1], t, m), col, vals[|vals| - 1], t, m)
  }

  /** The indicator loop over the columns of the code table. */
  function NameCols(qind: string, cols: seq<string>, rec: Dict<string>, tables: Dict<CodeTable>, m: int)
    : (r: Result<string>)
    requires forall i :: 0 <= i < |cols| ==> cols[i] in tables.entries
    ensures r.Err? ==> exists i :: 0 <= i < |cols| && cols[i] !in rec.entries
    decreases |cols|
  {
    if |cols| == 0 then Ok(qind)
    else
      var prev :- NameCols(qind, cols[..|cols| - 1], rec, tables, m);
      var col := cols[|cols| - 1];
      var v :- rec.Get(col);
      Ok(NameValues(prev, col, ColumnValues(col, v), tables.entries[col], m))
  }

  /** How many of `vals` the indicator counts. */
  function Hits(vals: seq<string>, t: CodeTable, m: int): (r: nat)
    ensures r == 0 <==> forall i :: 0 <= i < |vals| ==> !Flags(vals[i], t, m)
    decreases |vals|
  {
    if |vals| == 0 then 0
    else Hits(vals[..|vals| - 1], t, m) + (if Flags(vals[|vals| - 1], t, m) then 1 else 0)
  }

  /** The names one column adds to the entries `acc` so far, counted rather
      than built: one per counted value, except that QACode, whose loop alone
      checks for its own name, stands once when nothing else came first. */
  function Entries(acc: seq<string>, col: string, k: nat): (r: seq<string>)
    ensures forall x :: x in r <==> x in acc || (k > 0 && x == col)
  {
    if col == "QACode" && (acc == [] || acc == ["QACode"]) then
      if k == 0 then acc else ["QACode"]
    else
      assert k > 0 ==> seq(k, _ => col)[0] == col;
      acc + seq(k, _ => col)
  }

  /** The entries of the whole indicator, column by column. */
  function EntryList(cols: seq<string>, rec: Dict<string>, tables: Dict<CodeTable>, m: int): (r: seq<string>)
    requires forall i :: 0 <= i < |cols| ==> cols[i] in tables.entries && cols[i] in rec.entries
    ensures forall x :: x in r <==>
      x in cols && Hits(ColumnValues(x, rec.entries[x]), tables.entries[x], m) > 0
    decreases |cols|
  {
    if |cols| == 0 then []
    else
      var init := cols[..|cols| - 1];
      var col := cols[|cols| - 1];
      assert forall x :: x in cols <==> x in init || x == col;
      Entries(EntryList(init, rec, tables, m), col, Hits(ColumnValues(col, rec.entries[col]), tables.entries[col], m))
  }

  predicate NonEmptyNames(s: seq<string>) {
    forall i :: 0 <= i < |s| ==> s[i] != ""
  }

  /** With non-empty names, only the empty list joins to "". */
  lemma JoinEmpty(s: seq<string>)
    requires NonEmptyNames(s)
    ensures Join(", ", s) == "" <==> s == []
  {
    if |s| >= 2 {
      assert |Join(", ", s)| >= 2;
    }
  }

  /** Only the one-entry list ["QACode"] joins to "QACode": two or more
      entries bring a comma. */
  lemma JoinIsQACode(s: seq<string>)
    ensures Join(", ", s) == "QACode" ==> s == ["QACode"]
  {
    if |s| >= 2 {
      JoinHasComma(s);
      assert ',' !in "QACode";
    }
  }

  lemma JoinHasComma(s: seq<string>)
    requires |s| >= 2
    ensures ',' in Join(", ", s)
  {
    var rest := Join(", ", s[1..]);
    assert (s[0] + ", " + rest)[|s[0]|] == ',';
  }

  lemma EntriesNonEmpty(acc: seq<string>, col: string, k: nat)
    requires col != "" && NonEmptyNames(acc)
    ensures NonEmptyNames(Entries(acc, col, k))
  {
  }

  /** One more counted value of the column. */
  lemma EntriesStep(acc: seq<string>, col: string, h: nat)
    requires col != "" && NonEmptyNames(acc)
    ensures var e := Entries(acc, col, h);
      Entries(acc, col, h + 1) ==
        if e == [] then [col]
        else if col == "QACode" && e == ["QACode"] then e
        else e + [col]
  {
    var e := Entries(acc, col, h);
    if col == "QACode" && (acc == [] || acc == ["QACode"]) {
    } else {
      assert acc + seq(h + 1, _ => col) == acc + seq(h, _ => col) + [col];
      if e == [] {
        assert acc == [] && h == 0;
      }
    }
  }

  /** The inner loop builds the joined entries of its column. */
  lemma {:induction false} NameValuesJoin(acc: seq<string>, col: string, vals: seq<string>, t: CodeTable, m: int)
    requires col != "" && NonEmptyNames(acc)
    ensures NameValues(Join(", ", acc), col, vals, t, m) == Join(", ", Entries(acc, col, Hits(vals, t, m)))
    decreases |vals|
  {
    if |vals| > 0 {
      var init := vals[..|vals| - 1];
      var v := vals[|vals| - 1];
      NameValuesJoin(acc, col, init, t, m);
      var h := Hits(init, t, m);
      if Flags(v, t, m) {
        assert Hits(vals, t, m) == h + 1;
        TokenExtendsJoin(acc, col, h, v, t, m);
      } else {
        assert Hits(vals, t, m) == h;
      }
    } else {
      assert acc + seq(0, _ => col) == acc;
    }
  }

  /** A value with the maximum severity adds one more entry to the joined
      indicator. */
  lemma TokenExtendsJoin(acc: seq<string>, col: string, h: nat, v: string, t: CodeTable, m: int)
    requires col != "" && NonEmptyNames(acc) && Flags(v, t, m)
    ensures NameToken(Join(", ", Entries(acc, col, h)), col, v, t, m) == Join(", ", Entries(acc, col, h + 1))
  {
    var e := Entries(acc, col, h);
    var q := Join(", ", e);
    EntriesNonEmpty(acc, col, h);
    EntriesStep(acc, col, h);
    JoinEmpty(e);
    if q == "" {
      assert e == [];
      assert q + col == col;
    } else if col == "QACode" && q == "QACode" {
      JoinIsQACode(e);
    } else {
      assert e != [];
      JoinSnoc(", ", e, col);
    }
  }

  /** `QInd` is the `', '`-joined list of entries: given non-empty column
      names, the indicator loop builds exactly `Join(", ", EntryList(...))`. */
  lemma {:induction false} NameColsJoin(cols: seq<string>, rec: Dict<string>, tables: Dict<CodeTable>, m: int)
    requires forall i :: 0 <= i < |cols| ==> cols[i] in tables.entries && cols[i] in rec.entries
    requires NonEmptyNames(cols)
    ensures NonEmptyNames(EntryList(cols, rec, tables, m))
    ensures NameCols("", cols, rec, tables, m) == Ok(Join(", ", EntryList(cols, rec, tables, m)))
    decreases |cols|
  {
    if |cols| > 0 {
      var init := cols[..|cols| - 1];
      var col := cols[|cols| - 1];
      NameColsJoin(init, rec, tables, m);
      var acc := EntryList(init, rec, tables, m);
      var vals := ColumnValues(col, rec.entries[col]);
      NameValuesJoin(acc, col, vals, tables.entries[col], m);
      EntriesNonEmpty(acc, col, Hits(vals, tables.entries[col], m));
    }
  }

  /** So a column name is in `QInd` exactly when one of the column's values
      has the maximum severity and that maximum is neither 0 nor 1. */
  lemma NamedColumns(cols: seq<string>, rec: Dict<string>, tables: Dict<CodeTable>, m: int, c: string)
    requires forall i :: 0 <= i < |cols| ==> cols[i] in tables.entries && cols[i] in rec.entries
    requires NonEmptyNames(cols)
    ensures NameCols("", cols, rec, tables, m).Ok?
    ensures c in EntryList(cols, rec, tables, m) <==>
      c in cols && exists v :: v in ColumnValues(c, rec.entries[c]) && Flags(v, tables.entries[c], m)
  {
    NameColsJoin(cols, rec, tables, m);
    if c in cols {
      var vals := ColumnValues(c, rec.entries[c]);
      if Hits(vals, tables.entries[c], m) > 0 {
        var i :| 0 <= i < |vals| && Flags(vals[i], tables.entries[c], m);
      }
    }
  }

  lemma {:induction false} NameColsErrSticky(cols: seq<string>, n: nat, rec: Dict<string>, tables: Dict<CodeTable>, m: int)
    requires forall i :: 0 <= i < |cols| ==> cols[i] in tables.entries
    requires n <= |cols| && NameCols("", cols[..n], rec, tables, m).Err?
    ensures NameCols("", cols, rec, tables, m) == NameCols("", cols[..n], rec, tables, m)
    decreases |cols| - n
  {
    if n < |cols| {
      assert cols[..n + 1][..n] == cols[..n];
      NameColsErrSticky(cols, n + 1, rec, tables, m);
    } else {
      assert cols[..n] == cols;
    }
  }

  /** The indicator's inner loop over one column's values. */
  method NameLoop(qind: string, col: string, vals: seq<string>, t: CodeTable, m: int) returns (r: string)
    ensures r == NameValues(qind, col, vals, t, m)
  {
    r := qind;
    for i := 0 to |vals|
      invariant r == NameValues(qind, col, vals[..i], t, m)
    {
      assert vals[..i + 1][..i] == vals[..i];
      var v := vals[i];
      if v in t {
        if t[v] == 0 || t[v] == 1 {
        } else if m == t[v] {
          if r == "" {
            r := r + col;
          } else if col == "QACode" && r == "QACode" {
          } else {
            r := r + ", " + col;
          }
        }
      }
    }
    assert vals[..|vals|] == vals;
  }

  /** The imperative indicator loop over the columns of the code table. */
  method CollectNames(cols: seq<string>, rec: Dict<string>, tables: Dict<CodeTable>, m: int) returns (r: Result<string>)
    requires forall i :: 0 <= i < |cols| ==> cols[i] in tables.entries
    ensures r == NameCols("", cols, rec, tables, m)
  {
    var qind := "";
    for i := 0 to |cols|
      invariant NameCols("", cols[..i], rec, tables, m) == Ok(qind)
    {
      var col := cols[i];
      assert cols[..i + 1][..i] == cols[..i];
      if col !in rec.entries {
        NameColsErrSticky(cols, i + 1, rec, tables, m);
        return Err(KeyError(col));
      }
      qind := NameLoop(qind, col, ColumnValues(col, rec.entries[col]), tables.entries[col], m);
    }
    assert cols[..|cols|] == cols;
    r := Ok(qind);
  }

  /** A maximum of 0 or 1 leaves `QInd` empty. */
  lemma {:induction false} NamesEmptyForLowMax(cols: seq<string>, rec: Dict<string>, tables: Dict<CodeTable>, m: int)
    requires forall i :: 0 <= i < |cols| ==> cols[i] in tables.entries
    requires m == 0 || m == 1
    ensures NameCols("", cols, rec, tables, m).Ok? ==> NameCols("", cols, rec, tables, m).value == ""
    decreases |cols|
  {
    if |cols| > 0 {
      NamesEmptyForLowMax(cols[..|cols| - 1], rec, tables, m);
      var col := cols[|cols| - 1];
      if col in rec.entries {
        NameValuesUnchanged("", col, ColumnValues(col, rec.entries[col]), tables.entries[col], m);
      }
    }
  }

  lemma {:induction false} NameValuesUnchanged(qind: string, col: string, vals: seq<string>, t: CodeTable, m: int)
    requires m == 0 || m == 1
    ensures NameValues(qind, col, vals, t, m) == qind
    decreases |vals|
  {
    if |vals| > 0 {
      NameValuesUnchanged(qind, col, vals[..|vals| - 1], t, m);
    }
  }

  /** With distinct columns and QACode first, "QACode" is entered at most
      once, however many of its tokens have the maximum severity. */
  lemma {:induction false} QACodeFirstOnce(cols: seq<string>, rec: Dict<string>, tables: Dict<CodeTable>, m: int)
    requires forall i :: 0 <= i < |cols| ==> cols[i] in tables.entries && cols[i] in rec.entries
    requires |cols| > 0 && cols[0] == "QACode" && Distinct(cols)
    ensures multiset(EntryList(cols, rec, tables, m))["QACode"] <= 1
    decreases |cols|
  {
    var init := cols[..|cols| - 1];
    var col := cols[|cols| - 1];
    var acc := EntryList(init, rec, tables, m);
    var k := Hits(ColumnValues(col, rec.entries[col]), tables.entries[col], m);
    if |cols| == 1 {
      assert acc == [];
    } else {
      assert Distinct(init) by {
        forall i, j | 0 <= i < j < |init|
          ensures init[i] != init[j]
        {
          assert init[i] == cols[i] && init[j] == cols[j];
        }
      }
      QACodeFirstOnce(init, rec, tables, m);
      assert col != "QACode" by {
        assert cols[0] == "QACode" && |cols| - 1 != 0;
      }
      assert multiset(seq(k, _ => col))["QACode"] == 0 by {
        assert "QACode" !in seq(k, _ => col);
      }
      assert multiset(acc + seq(k, _ => col)) == multiset(acc) + multiset(seq(k, _ => col));
    }
  }

  /** When QACode is not first, every token with the maximum severity adds
      another ", QACode": after "StationCode", two QACode tokens graded 4 give
      the indicator "StationCode, QACode, QACode". */
  lemma QACodeRepeatsWhenNotFirst()
    ensures NameValues("StationCode", "QACode", ["A", "B"], map["A" := 4, "B" := 4], 4)
      == "StationCode, QACode, QACode"
  {
    var t := map["A" := 4, "B" := 4];
    var vals := ["A", "B"];
    assert Join(", ", ["StationCode"]) == "StationCode";
    NameValuesJoin(["StationCode"], "QACode", vals, t, 4);
    HitsBothA();
    QACodeEntriesAfterStation();
    JoinStationQACodes();
  }

  lemma HitsBothA()
    ensures Hits(["A", "B"], map["A" := 4, "B" := 4], 4) == 2
  {
    var vals := ["A", "B"];
    assert vals[..1] == ["A"] && vals[..1][..0] == [];
  }

  lemma QACodeEntriesAfterStation()
    ensures Entries(["StationCode"], "QACode", 2) == ["StationCode", "QACode", "QACode"]
  {
    assert ["StationCode"] != ["QACode"] by {
      assert ["StationCode"][0] != ["QACode"][0];
    }
  }

  lemma JoinStationQACodes()
    ensures Join(", ", ["StationCode", "QACode", "QACode"]) == "StationCode, QACode, QACode"
  {
    var e := ["StationCode", "QACode", "QACode"];
    assert e[1..] == ["QACode", "QACode"] && e[1..][1..] == ["QACode"];
  }

  // ------------------------------------------------------------ label and datum

  /** The label step without a sentinel: a 0 in `DQ` labels the record
      `DQ_Codes[0]` and leaves the indicator as it was; otherwise the label of
      the maximum is stored together with `QInd`. */
  function TextLabel(rec: Dict<string>, dq: seq<int>, maxDQ: int, qind: string, codes: map<int, string>)
    : (r: Result<Dict<string>>)
    requires rec.Valid() && |dq| > 0
    ensures r.Ok? ==> r.value.Valid()
    ensures r.Ok? ==> "DataQuality" in r.value.entries && r.value.entries["DataQuality"] in codes.Values
    ensures r.Err? ==> r.error == KeyError(IntToStr(if MinOf(dq) == Some(0) then 0 else maxDQ))
  {
    if MinOf(dq) == Some(0) then
      var name :- CodeName(codes, 0);
      Ok(rec.Set("DataQuality", name))
    else
      var name :- CodeName(codes, maxDQ);
      Ok(rec.Set("DataQuality", name).Set("DataQualityIndicator", qind))
  }

  /** With non-negative severities a 0 anywhere makes a QC record whose
      indicator is left alone; without a 0 the maximum's label and `QInd` are
      stored. */
  lemma TextLabelCases(rec: Dict<string>, dq: seq<int>, qind: string, codes: map<int, string>)
    requires rec.Valid() && NonNegative(dq) && |dq| > 0
    requires 0 in codes && MaxOf(dq).value in codes
    ensures 0 in dq ==> TextLabel(rec, dq, MaxOf(dq).value, qind, codes) == Ok(rec.Set("DataQuality", codes[0]))
    ensures 0 !in dq ==> (TextLabel(rec, dq, MaxOf(dq).value, qind, codes) ==
      Ok(rec.Set("DataQuality", codes[MaxOf(dq).value]).Set("DataQualityIndicator", qind)))
  {
    MinIsZero(dq);
  }

  /** The label step writes only the two quality columns, so the record's
      datum is the one it had before. */
  lemma LabelKeepsDatum(rec: Dict<string>, dq: seq<int>, maxDQ: int, qind: string, codes: map<int, string>,
                        wqxSites: map<string, string>)
    requires rec.Valid() && |dq| > 0
    ensures TextLabel(rec, dq, maxDQ, qind, codes).Ok? ==>
      SpatialDatum(TextLabel(rec, dq, maxDQ, qind, codes).value, wqxSites) == SpatialDatum(rec, wqxSites)
  {
    if TextLabel(rec, dq, maxDQ, qind, codes).Ok? {
      var out := TextLabel(rec, dq, maxDQ, qind, codes).value;
      assert out.entries == rec.entries["DataQuality" := out.entries["DataQuality"]]
          || out.entries == rec.entries["DataQuality" := out.entries["DataQuality"]]["DataQualityIndicator" := qind];
      StationNotQuality();
    }
  }

  lemma StationNotQuality()
    ensures "StationCode" != "DataQuality" && "StationCode" != "DataQualityIndicator"
  {
    assert "StationCode"[0] == 'S' && "DataQuality"[0] == 'D' && "DataQualityIndicator"[0] == 'D';
  }

  /** The label step followed by the datum step: the QC label when `DQ` has
      a 0; otherwise the label of the maximum and the indicator `qind`. */
  lemma LabelThenDatum(rec: Dict<string>, dq: seq<int>, qind: string, codes: map<int, string>, skip: bool,
                       wqxSites: map<string, string>)
    requires rec.Valid() && NonNegative(dq) && |dq| > 0
    requires 0 in codes && MaxOf(dq).value in codes
    ensures TextLabel(rec, dq, MaxOf(dq).value, qind, codes).Ok?
    ensures var out := AddDatum(TextLabel(rec, dq, MaxOf(dq).value, qind, codes).value, skip, wqxSites);
      0 in dq ==> "DataQuality" in out.entries && out.entries["DataQuality"] == codes[0]
    ensures var out := AddDatum(TextLabel(rec, dq, MaxOf(dq).value, qind, codes).value, skip, wqxSites);
      0 !in dq ==> "DataQuality" in out.entries && out.entries["DataQuality"] == codes[MaxOf(dq).value]
                   && "DataQualityIndicator" in out.entries && out.entries["DataQualityIndicator"] == qind
  {
    TextLabelCases(rec, dq, qind, codes);
    var labelled := TextLabel(rec, dq, MaxOf(dq).value, qind, codes).value;
    if 0 in dq {
      assert labelled == rec.Set("DataQuality", codes[0]);
    } else {
      assert labelled == rec.Set("DataQuality", codes[MaxOf(dq).value]).Set("DataQualityIndicator", qind);
    }
  }

  /** `newDict['Spatial_Datum']`: the datum the WQX_Stations file lists for
      the record's station; a `KeyError`, for the station or for the
      `StationCode` column, gives 'NR'. */
  function SpatialDatum(rec: Dict<string>, wqxSites: map<string, string>): (r: string)
    ensures r == "NR" || r in wqxSites.Values
    ensures "StationCode" in rec.entries && rec.entries["StationCode"] in wqxSites ==>
      r == wqxSites[rec.entries["StationCode"]]
    ensures !("StationCode" in rec.entries && rec.entries["StationCode"] in wqxSites) ==> r == "NR"
  {
    if "StationCode" in rec.entries && rec.entries["StationCode"] in wqxSites then
      wqxSites[rec.entries["StationCode"]]
    else "NR"
  }

  /** `newDict['Spatial_Datum'] = ...` unless the script skips the datum for
      this file; nothing else in the record changes. */
  function AddDatum(d: Dict<string>, skip: bool, wqxSites: map<string, string>): (r: Dict<string>)
    requires d.Valid()
    ensures r.Valid()
    ensures forall k :: k != "Spatial_Datum" && k in d.entries ==> k in r.entries && r.entries[k] == d.entries[k]
    ensures skip ==> r == d
    ensures !skip ==> "Spatial_Datum" in r.entries && r.entries["Spatial_Datum"] == SpatialDatum(d, wqxSites)
  {
    if skip then d else d.Set("Spatial_Datum", SpatialDatum(d, wqxSites))
  }

  // ------------------------------------------------------------ scales

  /** A `DQ_Codes` dictionary whose keys are 0, 1, ... in the order of the
      labels. */
  function Scale(names: seq<string>): (r: map<int, string>)
    ensures forall k :: k in r <==> 0 <= k < |names|
    ensures forall k :: 0 <= k < |names| ==> r[k] == names[k]
  {
    map k | 0 <= k < |names| :: names[k]
  }

  /** Severities on a scale of `n` labels: a non-empty `DQ` whose maximum and
      0 are both labelled. */
  lemma OnScale(dq: seq<int>, n: nat)
    requires |dq| > 0 && n > 0 && forall x :: x in dq ==> 0 <= x < n
    ensures NonNegative(dq) && 0 <= MaxOf(dq).value < n
  {
    assert forall i :: 0 <= i < |dq| ==> dq[i] in dq;
  }
}
