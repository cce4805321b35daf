/** The per-record data-quality classifier of CEDEN_DataRefresh.py
    (`data_retrieval`): for every column of the dataset's code table, in the
    table's key order, it gathers severities into `DQ`; it takes the maximum
    (7 and an extra 7 when nothing was gathered), lists the columns and values
    whose severity equals that maximum in `QInd`, and stores a label from
    `DQ_Codes` (and possibly an indicator) in the record.

    The loop variable `codeVal` is a local of the whole function: the
    StationCode rule reads whatever value an earlier loop left in it, so it is
    threaded through every column, the indicator loop and every record. */
module RefreshClassifier {
  import opened Wrappers
  import opened PyText
  import opened PyDict
  import opened SchemaOps
  import opened DqCore
  import opened Seqs

  /** `DQ` and the leftover `codeVal` (`None` before any loop assigned it). */
  datatype Gather = Gather(dq: seq<int>, codeVal: Option<string>)

  /** `if v in T: DQ += [T[v]]`. */
  function One(v: string, t: CodeTable): (r: seq<int>)
    ensures r == Lookups([v], t)
  {
    assert [v][..0] == [];
    if v in t then [t[v]] else []
  }

  /** `re.search('[Ss]urrogate', v)`: only the first letter is matched in
      both cases. */
  predicate IsSurrogate(v: string) {
    Contains(v, "Surrogate") || Contains(v, "surrogate")
  }

  /** `int(text)`, raising `ValueError` on anything but an integer literal. */
  function Year(text: string): (r: Result<int>)
    ensures r.Ok? <==> ParseInt(text).Some?
    ensures r.Ok? ==> r.value == ParseInt(text).value
    ensures r.Err? ==> r.error == ValueError(text)
  {
    match ParseInt(text)
    case Some(y) => Ok(y)
    case None => Err(ValueError(text))
  }

  /** The ResultQualCode/ResQualCode rules, in source order. The first test
      reads `table == 'IR2018_WQ' or (table == 'IR2018_Tissue' and v ==
      'DNQ')`, so for IR2018_WQ every value takes the year rule. The ND rule
      tests `not isinstance(Result, str)`, which never holds for a record
      value, so ND always adds 1. */
  function RqcRule(table: string, v: string, rec: Dict<string>, t: CodeTable): (r: Result<seq<int>>)
    ensures r.Ok? ==> |r.value| <= 1
    ensures r.Ok? && 6 in r.value ==> table == "IR2018_WQ" || v == "DNQ" || (v in t && t[v] == 6)
    ensures r.Err? ==> v == "DNQ" || table == "IR2018_WQ"
    ensures r.Err? ==> r.error == KeyError("SampleDate") || r.error.ValueError?
    ensures r.Ok? ==> forall x :: x in r.value ==> x == 1 || x == 6 || (v in t && x == t[v])
  {
    if table == "IR2018_WQ" || (table == "IR2018_Tissue" && v == "DNQ") then
      var date :- rec.Get("SampleDate");
      var y :- Year(Tail(date, 4));
      Ok(if y < 2008 then [6] else [])
    else if v == "DNQ" then
      var date :- rec.Get("SampleDate");
      var y :- Year(Head(date, 4));
      Ok(if y < 2008 then [6] else One(v, t))
    else if v == "ND" then Ok([1])
    else Ok(One(v, t))
  }

  /** For IR2018_WQ (any value) and for IR2018_Tissue with DNQ, the value
      reads the year from the last four characters of SampleDate: a record
      without SampleDate raises `KeyError`, a slice that is not an integer
      raises `ValueError`, and otherwise the value adds 6 exactly when the
      year is before 2008, and nothing else. */
  lemma RqcYearRule(table: string, v: string, rec: Dict<string>, t: CodeTable)
    requires table == "IR2018_WQ" || (table == "IR2018_Tissue" && v == "DNQ")
    ensures "SampleDate" !in rec.entries ==> RqcRule(table, v, rec, t) == Err(KeyError("SampleDate"))
    ensures "SampleDate" in rec.entries ==>
      var year := Tail(rec.entries["SampleDate"], 4);
      RqcRule(table, v, rec, t) ==
        if ParseInt(year).None? then Err(ValueError(year))
        else Ok(if ParseInt(year).value < 2008 then [6] else [])
  {
  }

  /** Elsewhere DNQ reads the year from the first four characters of
      SampleDate, with the same `KeyError` and `ValueError`; a year before
      2008 adds 6, a later one whatever the table says for DNQ. */
  lemma RqcDnqRule(table: string, rec: Dict<string>, t: CodeTable)
    requires table != "IR2018_WQ" && table != "IR2018_Tissue"
    ensures "SampleDate" !in rec.entries ==> RqcRule(table, "DNQ", rec, t) == Err(KeyError("SampleDate"))
    ensures "SampleDate" in rec.entries ==>
      var year := Head(rec.entries["SampleDate"], 4);
      RqcRule(table, "DNQ", rec, t) ==
        if ParseInt(year).None? then Err(ValueError(year))
        else Ok(if ParseInt(year).value < 2008 then [6] else One("DNQ", t))
  {
  }

  /** ND adds 1 whatever the table and the Result say. */
  lemma RqcNdRule(table: string, rec: Dict<string>, t: CodeTable)
    requires table != "IR2018_WQ"
    ensures RqcRule(table, "ND", rec, t) == Ok([1])
  {
  }

  /** Any other value adds its table severity, if it has one. */
  lemma RqcLookupRule(table: string, v: string, rec: Dict<string>, t: CodeTable)
    requires table != "IR2018_WQ" && v != "DNQ" && v != "ND"
    ensures RqcRule(table, v, rec, t) == Ok(Lookups([v], t))
  {
  }

  /** The QACode column first adds the severity of every comma-separated
      token and leaves the last token in codeVal; other columns pass through. */
  function QaTokens(g: Gather, col: string, rec: Dict<string>, t: CodeTable): (r: Result<Gather>)
    ensures col != "QACode" ==> r == Ok(g)
    ensures col == "QACode" && col in rec.entries ==>
      r == Ok(Gather(g.dq + Lookups(Split(rec.entries[col], ','), t), Some(Last(Split(rec.entries[col], ',')))))
    ensures col == "QACode" && col !in rec.entries ==> r == Err(KeyError(col))
  {
    if col == "QACode" then
      var v :- rec.Get(col);
      var tokens := Split(v, ',');
      Ok(Gather(g.dq + Lookups(tokens, t), Some(Last(tokens))))
    else Ok(g)
  }

  /** The if/elif chain that follows the QACode tokens. */
  function ChainStep(g1: Gather, col: string, rec: Dict<string>, t: CodeTable, table: string): (r: Result<Gather>)
    ensures r.Ok? ==> |g1.dq| <= |r.value.dq| && r.value.dq[..|g1.dq|] == g1.dq
    ensures col !in rec.entries ==> r == Err(KeyError(col))
  {
    if col == "StationCode" then
      var v :- rec.Get(col);
      if Contains(v, "000NONPJ") then Ok(Gather(g1.dq + [0], g1.codeVal))
      else
        match g1.codeVal
        case None => Err(UnboundLocalError("codeVal"))
        case Some(c) => Ok(Gather(g1.dq + One(c, t), g1.codeVal))
    else if col == "Analyte" || col == "AnalyteName" then
      var v :- rec.Get(col);
      Ok(Gather(g1.dq + (if IsSurrogate(v) then [0] else []), g1.codeVal))
    else if col == "ResultQualCode" || col == "ResQualCode" then
      var v :- rec.Get(col);
      var added :- RqcRule(table, v, rec, t);
      Ok(Gather(g1.dq + added, Some(v)))
    else if col == "Result" then
      var v :- rec.Get(col);
      Ok(Gather(g1.dq + Lookups(Chars(v), t), if |v| == 0 then g1.codeVal else Some([v[|v| - 1]])))
    else
      var v :- rec.Get(col);
      Ok(Gather(g1.dq + One(v, t), Some(v)))
  }

  /** What one column adds. QACode first adds the severity of every
      comma-separated token and then, because the next test is `if` and not
      `elif`, falls through to the generic branch, which looks up the whole
      value. */
  function ColumnStep(g: Gather, col: string, rec: Dict<string>, t: CodeTable, table: string): (r: Result<Gather>)
    ensures r.Ok? ==> |g.dq| <= |r.value.dq| && r.value.dq[..|g.dq|] == g.dq
    ensures col !in rec.entries ==> r == Err(KeyError(col))
  {
    var g1 :- QaTokens(g, col, rec, t);
    ChainStep(g1, col, rec, t, table)
  }

  /** QACode adds each listed token's severity, then the whole value's. */
  lemma QACodeTokens(g: Gather, rec: Dict<string>, t: CodeTable, table: string)
    requires "QACode" in rec.entries
    ensures var v := rec.entries["QACode"];
      ColumnStep(g, "QACode", rec, t, table) == Ok(Gather(g.dq + Lookups(Split(v, ','), t) + Lookups([v], t), Some(v)))
  {
  }

  /** An Analyte or AnalyteName containing "Surrogate" or "surrogate" adds
      0; any other value adds nothing, whatever the table holds. */
  lemma SurrogateRule(g: Gather, col: string, rec: Dict<string>, t: CodeTable, table: string)
    requires col == "Analyte" || col == "AnalyteName"
    requires col in rec.entries
    ensures ColumnStep(g, col, rec, t, table) ==
      Ok(Gather(g.dq + (if IsSurrogate(rec.entries[col]) then [0] else []), g.codeVal))
  {
  }

  /** A StationCode containing 000NONPJ adds 0. */
  lemma NonProjectStation(g: Gather, rec: Dict<string>, t: CodeTable, table: string)
    requires "StationCode" in rec.entries && Contains(rec.entries["StationCode"], "000NONPJ")
    ensures ColumnStep(g, "StationCode", rec, t, table) == Ok(Gather(g.dq + [0], g.codeVal))
  {
  }

  /** Any other StationCode looks up the value left in `codeVal` by an
      earlier loop, not its own value; before any loop has run that is an
      `UnboundLocalError`. */
  lemma StationUsesLeftover(g: Gather, rec: Dict<string>, t: CodeTable, table: string)
    requires "StationCode" in rec.entries && !Contains(rec.entries["StationCode"], "000NONPJ")
    ensures g.codeVal.None? ==> ColumnStep(g, "StationCode", rec, t, table) == Err(UnboundLocalError("codeVal"))
    ensures g.codeVal.Some? ==>
      ColumnStep(g, "StationCode", rec, t, table) == Ok(Gather(g.dq + Lookups([g.codeVal.value], t), g.codeVal))
  {
  }

  /** The Result column iterates over the characters of the value, so with
      a table none of whose keys is one character long (the table is `{"":
      1}`) it never adds anything. */
  lemma ResultAddsNothing(g: Gather, rec: Dict<string>, t: CodeTable, table: string)
    requires "Result" in rec.entries
    requires forall k :: k in t ==> |k| != 1
    ensures ColumnStep(g, "Result", rec, t, table).Ok?
    ensures ColumnStep(g, "Result", rec, t, table).value.dq == g.dq
  {
    var v := rec.entries["Result"];
    LookupsNone(Chars(v), t);
  }

  // ------------------------------------------------------------ all columns

  /** The columns `cols` in order, each with its own table; the first error
      ends the loop. */
  function GatherCols(g: Gather, cols: seq<string>, rec: Dict<string>, tables: Dict<CodeTable>, table: string)
    : (r: Result<Gather>)
    requires forall i :: 0 <= i < |cols| ==> cols[i] in tables.entries
    ensures r.Ok? ==> |g.dq| <= |r.value.dq| && r.value.dq[..|g.dq|] == g.dq
    decreases |cols|
  {
    if |cols| == 0 then Ok(g)
    else
      var prev :- GatherCols(g, cols[..|cols| - 1], rec, tables, table);
      var col := cols[|cols| - 1];
      var r := ColumnStep(prev, col, rec, tables.entries[col], table);
      assert r.Ok? ==> r.value.dq[..|g.dq|] == prev.dq[..|g.dq|];
      r
  }

  /** Every record value the classifier reads must be there: a code-table
      column the record lacks raises `KeyError`. */
  lemma {:induction false} GatherMissingColumn(g: Gather, cols: seq<string>, rec: Dict<string>,
                                              tables: Dict<CodeTable>, table: string, i: nat)
    requires forall j :: 0 <= j < |cols| ==> cols[j] in tables.entries
    requires i < |cols| && cols[i] !in rec.entries
    ensures GatherCols(g, cols, rec, tables, table).Err?
    decreases |cols|
  {
    if i < |cols| - 1 {
      GatherMissingColumn(g, cols[..|cols| - 1], rec, tables, table, i);
    }
  }

  /** The imperative column loop: `for codeCol in list(Mod_CodeColumns)`. */
  method GatherSeverities(g0: Gather, rec: Dict<string>, tables: Dict<CodeTable>, table: string)
    returns (r: Result<Gather>)
    requires tables.Valid()
    ensures r == GatherCols(g0, tables.keys, rec, tables, table)
  {
    var g := g0;
    var i := 0;
    while i < |tables.keys|
      invariant 0 <= i <= |tables.keys|
      invariant GatherCols(g0, tables.keys[..i], rec, tables, table) == Ok(g)
    {
      var col := tables.keys[i];
      var step := AddColumn(g, col, rec, tables.entries[col], table);
      GatherStep(g0, tables.keys, i, rec, tables, table, g);
      if step.Err? {
        GatherErrSticky(g0, tables.keys, i + 1, rec, tables, table);
        return step;
      }
      g := step.value;
      i := i + 1;
    }
    PrefixFull(tables.keys);
    r := Ok(g);
  }

  /** One more column of the loop applies its step to the gathering so far. */
  lemma GatherStep(g0: Gather, cols: seq<string>, i: nat, rec: Dict<string>, tables: Dict<CodeTable>,
                   table: string, g: Gather)
    requires forall j :: 0 <= j < |cols| ==> cols[j] in tables.entries
    requires i < |cols| && GatherCols(g0, cols[..i], rec, tables, table) == Ok(g)
    ensures GatherCols(g0, cols[..i + 1], rec, tables, table) == ColumnStep(g, cols[i], rec, tables.entries[cols[i]], table)
  {
    SliceSnoc(cols, i);
  }

  lemma {:induction false} GatherErrSticky(g0: Gather, cols: seq<string>, n: nat, rec: Dict<string>,
                                          tables: Dict<CodeTable>, table: string)
    requires forall i :: 0 <= i < |cols| ==> cols[i] in tables.entries
    requires n <= |cols| && GatherCols(g0, cols[..n], rec, tables, table).Err?
    ensures GatherCols(g0, cols, rec, tables, table) == GatherCols(g0, cols[..n], rec, tables, table)
    decreases |cols| - n
  {
    if n < |cols| {
      SliceSnoc(cols, n);
      GatherErrSticky(g0, cols, n + 1, rec, tables, table);
    } else {
      PrefixFull(cols);
    }
  }

  /** One column with its inner loops: the QACode tokens and the characters
      of Result are looked up one by one. */
  method AddColumn(g: Gather, col: string, rec: Dict<string>, t: CodeTable, table: string)
    returns (r: Result<Gather>)
    ensures r == ColumnStep(g, col, rec, t, table)
  {
    var dq := g.dq;
    var codeVal := g.codeVal;
    if col == "QACode" {
      if col !in rec.entries {
        return Err(KeyError(col));
      }
      var tokens := Split(rec.entries[col], ',');
      dq := AddLookups(dq, tokens, t);
      codeVal := Some(Last(tokens));
    }
    assert QaTokens(g, col, rec, t) == Ok(Gather(dq, codeVal));
    ghost var g1 := Gather(dq, codeVal);
    assert g1.dq + [] == g1.dq;
    if col !in rec.entries {
      return Err(KeyError(col));
    }
    var v := rec.entries[col];
    if col == "StationCode" {
      if Contains(v, "000NONPJ") {
        dq := dq + [0];
      } else if codeVal.None? {
        return Err(UnboundLocalError("codeVal"));
      } else if codeVal.value in t {
        dq := dq + [t[codeVal.value]];
      }
    } else if col == "Analyte" || col == "AnalyteName" {
      if IsSurrogate(v) {
        dq := dq + [0];
      }
    } else if col == "ResultQualCode" || col == "ResQualCode" {
      codeVal := Some(v);
      var added := RqcRule(table, v, rec, t);
      if added.Err? {
        return Err(added.error);
      }
      dq := dq + added.value;
    } else if col == "Result" {
      dq := AddLookups(dq, Chars(v), t);
      if |v| > 0 {
        codeVal := Some([v[|v| - 1]]);
      }
    } else {
      codeVal := Some(v);
      if v in t {
        dq := dq + [t[v]];
      }
    }
    assert ChainStep(g1, col, rec, t, table) == Ok(Gather(dq, codeVal));
    r := Ok(Gather(dq, codeVal));
  }

  /** The columns the chain of special rules does not name: their whole
      value is looked up. */
  predicate GenericColumn(c: string) {
    c != "QACode" && c != "StationCode" && c != "Analyte" && c != "AnalyteName" &&
    c != "ResultQualCode" && c != "ResQualCode" && c != "Result"
  }

  /** A generic column adds the severity of its value, if the table has one,
      and leaves the value in codeVal. */
  lemma GenericRule(g: Gather, col: string, rec: Dict<string>, t: CodeTable, table: string)
    requires GenericColumn(col) && col in rec.entries
    ensures ColumnStep(g, col, rec, t, table) == Ok(Gather(g.dq + Lookups([rec.entries[col]], t), Some(rec.entries[col])))
  {
  }

  /** Every severity of every table is at least 0. */
  predicate NonNegativeTables(tables: Dict<CodeTable>) {
    forall c, v :: c in tables.entries && v in tables.entries[c] ==> tables.entries[c][v] >= 0
  }

  lemma LookupsNonNegative(vals: seq<string>, t: CodeTable)
    requires forall v :: v in t ==> t[v] >= 0
    ensures NonNegative(Lookups(vals, t))
  {
    var r := Lookups(vals, t);
    forall n | 0 <= n < |r|
      ensures r[n] >= 0
    {
      assert r[n] in r;
    }
  }

  /** A column step adds only table severities, 0, 1 and 6, so with a
      non-negative table it keeps the gathered severities non-negative. */
  lemma ColumnNonNegative(g: Gather, col: string, rec: Dict<string>, t: CodeTable, table: string)
    requires NonNegative(g.dq) && forall v :: v in t ==> t[v] >= 0
    requires ColumnStep(g, col, rec, t, table).Ok?
    ensures NonNegative(ColumnStep(g, col, rec, t, table).value.dq)
  {
    var g1 := QaTokens(g, col, rec, t).value;
    if col == "QACode" {
      LookupsNonNegative(Split(rec.entries[col], ','), t);
      AppendNonNegative(g.dq, Lookups(Split(rec.entries[col], ','), t));
    }
    ChainNonNegative(g1, col, rec, t, table);
  }

  lemma ChainNonNegative(g1: Gather, col: string, rec: Dict<string>, t: CodeTable, table: string)
    requires NonNegative(g1.dq) && forall v :: v in t ==> t[v] >= 0
    requires ChainStep(g1, col, rec, t, table).Ok?
    ensures NonNegative(ChainStep(g1, col, rec, t, table).value.dq)
  {
    var r := ChainStep(g1, col, rec, t, table).value.dq;
    var added := r[|g1.dq|..];
    assert r == g1.dq + added;
    AddedNonNegative(g1, col, rec, t, table);
    AppendNonNegative(g1.dq, added);
  }

  lemma AddedNonNegative(g1: Gather, col: string, rec: Dict<string>, t: CodeTable, table: string)
    requires forall v :: v in t ==> t[v] >= 0
    requires ChainStep(g1, col, rec, t, table).Ok?
    ensures NonNegative(ChainStep(g1, col, rec, t, table).value.dq[|g1.dq|..])
  {
    var v := rec.entries[col];
    var r := ChainStep(g1, col, rec, t, table).value.dq;
    var added: seq<int>;
    if col == "StationCode" {
      added := if Contains(v, "000NONPJ") then [0] else Lookups([g1.codeVal.value], t);
      if !Contains(v, "000NONPJ") {
        LookupsNonNegative([g1.codeVal.value], t);
      }
    } else if col == "Analyte" || col == "AnalyteName" {
      added := if IsSurrogate(v) then [0] else [];
    } else if col == "ResultQualCode" || col == "ResQualCode" {
      added := RqcRule(table, v, rec, t).value;
      LookupsNonNegative([v], t);
      RqcNonNegative(table, v, rec, t);
    } else if col == "Result" {
      added := Lookups(Chars(v), t);
      LookupsNonNegative(Chars(v), t);
    } else {
      added := Lookups([v], t);
      LookupsNonNegative([v], t);
    }
    assert r == g1.dq + added;
    assert r[|g1.dq|..] == added;
  }

  lemma RqcNonNegative(table: string, v: string, rec: Dict<string>, t: CodeTable)
    requires forall v :: v in t ==> t[v] >= 0
    requires RqcRule(table, v, rec, t).Ok?
    ensures NonNegative(RqcRule(table, v, rec, t).value)
  {
    var r := RqcRule(table, v, rec, t).value;
    assert forall n :: 0 <= n < |r| ==> r[n] in r;
  }

  lemma AppendNonNegative(a: seq<int>, b: seq<int>)
    requires NonNegative(a) && NonNegative(b)
    ensures NonNegative(a + b)
  {
    assert forall n :: 0 <= n < |a + b| ==> (a + b)[n] == if n < |a| then a[n] else b[n - |a|];
  }

  /** With non-negative tables the main classifier gathers only
      non-negative severities. */
  lemma {:induction false} GatherNonNegative(g: Gather, cols: seq<string>, rec: Dict<string>,
                                            tables: Dict<CodeTable>, table: string)
    requires forall i :: 0 <= i < |cols| ==> cols[i] in tables.entries
    requires NonNegative(g.dq) && NonNegativeTables(tables)
    requires GatherCols(g, cols, rec, tables, table).Ok?
    ensures NonNegative(GatherCols(g, cols, rec, tables, table).value.dq)
    decreases |cols|
  {
    if |cols| > 0 {
      var init := cols[..|cols| - 1];
      var col := cols[|cols| - 1];
      GatherNonNegative(g, init, rec, tables, table);
      ColumnNonNegative(GatherCols(g, init, rec, tables, table).value, col, rec, tables.entries[col], table);
    }
  }

  /** What the first `n` columns gathered is a prefix of what all of them
      gather. */
  lemma {:induction false} GatherPrefix(g: Gather, cols: seq<string>, n: nat, rec: Dict<string>,
                                       tables: Dict<CodeTable>, table: string)
    requires forall i :: 0 <= i < |cols| ==> cols[i] in tables.entries
    requires n <= |cols| && GatherCols(g, cols, rec, tables, table).Ok?
    ensures GatherCols(g, cols[..n], rec, tables, table).Ok?
    ensures var p := GatherCols(g, cols[..n], rec, tables, table).value.dq;
      var all := GatherCols(g, cols, rec, tables, table).value.dq;
      |p| <= |all| && all[..|p|] == p
    decreases |cols|
  {
    if n == |cols| {
      PrefixFull(cols);
    } else {
      var init := cols[..|cols| - 1];
      assert init[..n] == cols[..n];
      GatherPrefix(g, init, n, rec, tables, table);
      var p := GatherCols(g, cols[..n], rec, tables, table).value.dq;
      var mid := GatherCols(g, init, rec, tables, table).value.dq;
      var all := GatherCols(g, cols, rec, tables, table).value.dq;
      assert all[..|mid|] == mid;
      assert all[..|p|] == mid[..|p|];
    }
  }

  /** A generic column whose value the table grades puts that severity into
      the gathered severities. */
  lemma GenericGathered(g: Gather, cols: seq<string>, i: nat, rec: Dict<string>,
                        tables: Dict<CodeTable>, table: string)
    requires forall j :: 0 <= j < |cols| ==> cols[j] in tables.entries
    requires i < |cols| && GenericColumn(cols[i]) && cols[i] in rec.entries
    requires rec.entries[cols[i]] in tables.entries[cols[i]]
    requires GatherCols(g, cols, rec, tables, table).Ok?
    ensures tables.entries[cols[i]][rec.entries[cols[i]]] in GatherCols(g, cols, rec, tables, table).value.dq
  {
    var c := cols[i];
    var x := tables.entries[c][rec.entries[c]];
    GatherPrefix(g, cols, i + 1, rec, tables, table);
    var p := GatherCols(g, cols[..i + 1], rec, tables, table).value.dq;
    assert cols[..i + 1][i] == c;
    GenericLast(g, cols[..i + 1], rec, tables, table);
    var k :| 0 <= k < |p| && p[k] == x;
    var all := GatherCols(g, cols, rec, tables, table).value.dq;
    assert all[..|p|][k] == x;
  }

  /** The last column, when generic, appends its value's severity. */
  lemma GenericLast(g: Gather, cols: seq<string>, rec: Dict<string>, tables: Dict<CodeTable>, table: string)
    requires forall j :: 0 <= j < |cols| ==> cols[j] in tables.entries
    requires |cols| > 0 && GenericColumn(cols[|cols| - 1]) && cols[|cols| - 1] in rec.entries
    requires rec.entries[cols[|cols| - 1]] in tables.entries[cols[|cols| - 1]]
    requires GatherCols(g, cols, rec, tables, table).Ok?
    ensures var c := cols[|cols| - 1];
      tables.entries[c][rec.entries[c]] in GatherCols(g, cols, rec, tables, table).value.dq
  {
    var c := cols[|cols| - 1];
    var t := tables.entries[c];
    var prev := GatherCols(g, cols[..|cols| - 1], rec, tables, table).value;
    GenericRule(prev, c, rec, t, table);
    assert GatherCols(g, cols, rec, tables, table).value.dq == prev.dq + [t[rec.entries[c]]];
  }


  // ------------------------------------------------------------ maximum

  /** `MaxDQ = max(DQ)`, or 7 with a 7 appended when `DQ` is empty. */
  function Sentinel(dq: seq<int>): (r: (int, seq<int>))
    ensures |r.1| > 0 && r.0 in r.1 && forall x :: x in r.1 ==> x <= r.0
    ensures |dq| > 0 ==> r.1 == dq
    ensures |dq| == 0 ==> r == (7, [7])
  {
    match MaxOf(dq)
    case Some(m) => (m, dq)
    case None => (7, [7])
  }

  // ------------------------------------------------------------ indicator

  /** `ValuesEqMaxDQ`: the values that are keys of `t` with severity `m`, in
      order. */
  function EqMax(vals: seq<string>, t: CodeTable, m: int): (r: seq<string>)
    ensures forall x :: x in r <==> x in vals && x in t && t[x] == m
    ensures |r| <= |vals|
    decreases |vals|
  {
    if |vals| == 0 then []
    else
      var prev := EqMax(vals[..|vals| - 1], t, m);
      var last := vals[|vals| - 1];
      assert forall x :: x in vals <==> x in vals[..|vals| - 1] || x == last;
      prev + (if last in t && t[last] == m then [last] else [])
  }

  /** The values of a column the indicator looks at: the comma-separated
      tokens for QACode, the whole value otherwise. */
  function ColumnValues(col: string, v: string): (r: seq<string>)
    ensures |r| >= 1
    ensures col != "QACode" ==> r == [v]
    ensures col == "QACode" ==> Join(",", r) == v
  {
    if col == "QACode" then
      JoinSplit(v, ',');
      Split(v, ',')
    else [v]
  }

  /** `QInd` and the leftover `codeVal`. */
  datatype Ind = Ind(qind: seq<string>, codeVal: Option<string>)

  /** One indicator entry `col:v1,v2,...` naming the values of the column
      whose severity is the maximum, or nothing when there are none. */
  function IndicatorStep(ind: Ind, col: string, rec: Dict<string>, t: CodeTable, m: int): (r: Result<Ind>)
    ensures r.Err? <==> col !in rec.entries
    ensures r.Ok? ==> var eq := EqMax(ColumnValues(col, rec.entries[col]), t, m);
      r.value.qind == ind.qind + (if eq == [] then [] else [col + ":" + Join(",", eq)])
  {
    var v :- rec.Get(col);
    var vals := ColumnValues(col, v);
    var eq := EqMax(vals, t, m);
    Ok(Ind(ind.qind + (if eq == [] then [] else [col + ":" + Join(",", eq)]), Some(Last(vals))))
  }

  function IndicatorCols(ind: Ind, cols: seq<string>, rec: Dict<string>, tables: Dict<CodeTable>, m: int)
    : (r: Result<Ind>)
    requires forall i :: 0 <= i < |cols| ==> cols[i] in tables.entries
    ensures r.Ok? ==> |r.value.qind| <= |ind.qind| + |cols|
    ensures r.Ok? ==> |ind.qind| <= |r.value.qind| && r.value.qind[..|ind.qind|] == ind.qind
    decreases |cols|
  {
    if |cols| == 0 then Ok(ind)
    else
      var prev :- IndicatorCols(ind, cols[..|cols| - 1], rec, tables, m);
      var col := cols[|cols| - 1];
      IndicatorStep(prev, col, rec, tables.entries[col], m)
  }

  /** A column's entry, when it has one. */
  predicate EntryOf(e: string, c: string, rec: Dict<string>, t: CodeTable, m: int)
    requires c in rec.entries
  {
    var eq := EqMax(ColumnValues(c, rec.entries[c]), t, m);
    eq != [] && e == c + ":" + Join(",", eq)
  }

  /** Every indicator entry names a column and a non-empty list of that
      column's values, each of which the table grades with the maximum. */
  lemma {:induction false} IndicatorEntries(ind: Ind, cols: seq<string>, rec: Dict<string>,
                                           tables: Dict<CodeTable>, m: int)
    requires forall i :: 0 <= i < |cols| ==> cols[i] in tables.entries
    requires ind.qind == [] && IndicatorCols(ind, cols, rec, tables, m).Ok?
    ensures forall e :: e in IndicatorCols(ind, cols, rec, tables, m).value.qind ==>
      exists c :: c in cols && c in rec.entries && EntryOf(e, c, rec, tables.entries[c], m)
    decreases |cols|
  {
    if |cols| > 0 {
      var init := cols[..|cols| - 1];
      IndicatorEntries(ind, init, rec, tables, m);
      var prev := IndicatorCols(ind, init, rec, tables, m).value;
      var q := IndicatorCols(ind, cols, rec, tables, m).value.qind;
      var col := cols[|cols| - 1];
      forall e | e in q
        ensures exists c :: c in cols && c in rec.entries && EntryOf(e, c, rec, tables.entries[c], m)
      {
        if e in prev.qind {
          var c :| c in init && c in rec.entries && EntryOf(e, c, rec, tables.entries[c], m);
          assert c in cols;
        } else {
          assert col in cols && EntryOf(e, col, rec, tables.entries[col], m);
        }
      }
    }
  }

  /** The indicator entries `QInd` must end with: one `col:v1,v2,...` per
      column, in column order, for every column with a value graded `m`. */
  function IndicatorList(cols: seq<string>, rec: Dict<string>, tables: Dict<CodeTable>, m: int): (r: seq<string>)
    requires forall i :: 0 <= i < |cols| ==> cols[i] in tables.entries && cols[i] in rec.entries
    ensures |r| <= |cols|
    decreases |cols|
  {
    if |cols| == 0 then []
    else
      var col := cols[|cols| - 1];
      var eq := EqMax(ColumnValues(col, rec.entries[col]), tables.entries[col], m);
      IndicatorList(cols[..|cols| - 1], rec, tables, m) + (if eq == [] then [] else [col + ":" + Join(",", eq)])
  }

  /** The indicator loop succeeds exactly when the record has every column,
      and then appends precisely `IndicatorList`. */
  lemma {:induction false} IndicatorExact(ind: Ind, cols: seq<string>, rec: Dict<string>,
                                         tables: Dict<CodeTable>, m: int)
    requires forall i :: 0 <= i < |cols| ==> cols[i] in tables.entries
    ensures IndicatorCols(ind, cols, rec, tables, m).Ok? <==> forall i :: 0 <= i < |cols| ==> cols[i] in rec.entries
    ensures IndicatorCols(ind, cols, rec, tables, m).Ok? ==>
      IndicatorCols(ind, cols, rec, tables, m).value.qind == ind.qind + IndicatorList(cols, rec, tables, m)
    decreases |cols|
  {
    if |cols| > 0 {
      var init := cols[..|cols| - 1];
      var col := cols[|cols| - 1];
      IndicatorExact(ind, init, rec, tables, m);
      assert forall i :: 0 <= i < |cols| - 1 ==> init[i] == cols[i];
      if IndicatorCols(ind, init, rec, tables, m).Ok? && col in rec.entries {
        IndicatorListStep(ind.qind, cols, rec, tables, m);
      } else if IndicatorCols(ind, init, rec, tables, m).Err? {
        var i :| 0 <= i < |cols| - 1 && init[i] !in rec.entries;
        assert cols[i] !in rec.entries;
      }
    }
  }

  /** The list of all the columns is the list of all but the last, followed
      by the last column's entry if it has one. */
  lemma IndicatorListStep(q: seq<string>, cols: seq<string>, rec: Dict<string>, tables: Dict<CodeTable>, m: int)
    requires forall i :: 0 <= i < |cols| ==> cols[i] in tables.entries && cols[i] in rec.entries
    requires |cols| > 0
    ensures var col := cols[|cols| - 1];
      var eq := EqMax(ColumnValues(col, rec.entries[col]), tables.entries[col], m);
      q + IndicatorList(cols, rec, tables, m) ==
        q + IndicatorList(cols[..|cols| - 1], rec, tables, m) + (if eq == [] then [] else [col + ":" + Join(",", eq)])
  {
  }

  /** Every column with a value graded `m` has its entry in the list. */
  lemma {:induction false} IndicatorListComplete(cols: seq<string>, rec: Dict<string>, tables: Dict<CodeTable>,
                                                m: int, i: nat)
    requires forall j :: 0 <= j < |cols| ==> cols[j] in tables.entries && cols[j] in rec.entries
    requires i < |cols|
    requires EqMax(ColumnValues(cols[i], rec.entries[cols[i]]), tables.entries[cols[i]], m) != []
    ensures cols[i] + ":" + Join(",", EqMax(ColumnValues(cols[i], rec.entries[cols[i]]), tables.entries[cols[i]], m))
            in IndicatorList(cols, rec, tables, m)
    decreases |cols|
  {
    var init := cols[..|cols| - 1];
    if i < |cols| - 1 {
      assert init[i] == cols[i];
      IndicatorListComplete(init, rec, tables, m, i);
    }
  }

  /** So a column with a value graded with the maximum is named in `QInd`,
      and every name in `QInd` is such a column's entry. */
  lemma IndicatorComplete(codeVal: Option<string>, rec: Dict<string>, tables: Dict<CodeTable>, m: int, i: nat)
    requires tables.Valid() && IndicatorCols(Ind([], codeVal), tables.keys, rec, tables, m).Ok?
    requires i < |tables.keys| && tables.keys[i] in rec.entries
    requires EqMax(ColumnValues(tables.keys[i], rec.entries[tables.keys[i]]), tables.entries[tables.keys[i]], m) != []
    ensures var c := tables.keys[i];
      c + ":" + Join(",", EqMax(ColumnValues(c, rec.entries[c]), tables.entries[c], m))
        in IndicatorCols(Ind([], codeVal), tables.keys, rec, tables, m).value.qind
  {
    IndicatorExact(Ind([], codeVal), tables.keys, rec, tables, m);
    IndicatorListComplete(tables.keys, rec, tables, m, i);
    assert [] + IndicatorList(tables.keys, rec, tables, m) == IndicatorList(tables.keys, rec, tables, m);
  }

  /** The imperative indicator loop over the columns. */
  method CollectIndicator(codeVal: Option<string>, rec: Dict<string>, tables: Dict<CodeTable>, m: int)
    returns (r: Result<Ind>)
    requires tables.Valid()
    ensures r == IndicatorCols(Ind([], codeVal), tables.keys, rec, tables, m)
  {
    var ind := Ind([], codeVal);
    for i := 0 to |tables.keys|
      invariant IndicatorCols(Ind([], codeVal), tables.keys[..i], rec, tables, m) == Ok(ind)
    {
      var col := tables.keys[i];
      ghost var step := IndicatorStep(ind, col, rec, tables.entries[col], m);
      IndicatorColsStep(Ind([], codeVal), tables.keys, i, rec, tables, m, ind);
      if col !in rec.entries {
        IndicatorErrSticky(Ind([], codeVal), tables.keys, i + 1, rec, tables, m);
        return Err(KeyError(col));
      }
      var vals := ColumnValues(col, rec.entries[col]);
      var eq := CollectEqMax(vals, tables.entries[col], m);
      var qind := ind.qind;
      if eq != [] {
        qind := qind + [col + ":" + Join(",", eq)];
      }
      IndicatorStepOk(ind, col, rec, tables.entries[col], m, qind);
      ind := Ind(qind, Some(Last(vals)));
    }
    PrefixFull(tables.keys);
    r := Ok(ind);
  }

  /** The step for a column the record has: `qind` gains an entry exactly
      when some value has the maximum severity. */
  lemma IndicatorStepOk(ind: Ind, col: string, rec: Dict<string>, t: CodeTable, m: int, qind: seq<string>)
    requires col in rec.entries
    requires var eq := EqMax(ColumnValues(col, rec.entries[col]), t, m);
      qind == if eq == [] then ind.qind else ind.qind + [col + ":" + Join(",", eq)]
    ensures IndicatorStep(ind, col, rec, t, m) == Ok(Ind(qind, Some(Last(ColumnValues(col, rec.entries[col])))))
  {
    assert ind.qind + [] == ind.qind;
  }

  /** One more column of the indicator loop applies its step to the indicator
      so far. */
  lemma IndicatorColsStep(ind0: Ind, cols: seq<string>, i: nat, rec: Dict<string>, tables: Dict<CodeTable>,
                          m: int, ind: Ind)
    requires forall j :: 0 <= j < |cols| ==> cols[j] in tables.entries
    requires i < |cols| && IndicatorCols(ind0, cols[..i], rec, tables, m) == Ok(ind)
    ensures IndicatorCols(ind0, cols[..i + 1], rec, tables, m) == IndicatorStep(ind, cols[i], rec, tables.entries[cols[i]], m)
  {
    SliceSnoc(cols, i);
  }

  lemma {:induction false} IndicatorErrSticky(ind: Ind, cols: seq<string>, n: nat, rec: Dict<string>,
                                             tables: Dict<CodeTable>, m: int)
    requires forall i :: 0 <= i < |cols| ==> cols[i] in tables.entries
    requires n <= |cols| && IndicatorCols(ind, cols[..n], rec, tables, m).Err?
    ensures IndicatorCols(ind, cols, rec, tables, m) == IndicatorCols(ind, cols[..n], rec, tables, m)
    decreases |cols| - n
  {
    if n < |cols| {
      SliceSnoc(cols, n);
      IndicatorErrSticky(ind, cols, n + 1, rec, tables, m);
    } else {
      PrefixFull(cols);
    }
  }

  /** The inner loop `for codeVal in codeValList: if ... == MaxDQ:
      ValuesEqMaxDQ += [codeVal]`. */
  method CollectEqMax(vals: seq<string>, t: CodeTable, m: int) returns (eq: seq<string>)
    ensures eq == EqMax(vals, t, m)
  {
    eq := [];
    for i := 0 to |vals|
      invariant eq == EqMax(vals[..i], t, m)
    {
      assert vals[..i + 1][..i] == vals[..i];
      assert EqMax(vals[..i + 1], t, m) == eq + (if vals[i] in t && t[vals[i]] == m then [vals[i]] else []);
      if vals[i] in t && m == t[vals[i]] {
        eq := eq + [vals[i]];
      }
    }
    assert vals[..|vals|] == vals;
  }

  // ------------------------------------------------------------ label

  /** Labelling writes the DataQuality and DataQualityIndicator cells and
      leaves every other cell of the record as it was. */
  ghost predicate OnlyQualityChanged(before: Dict<string>, after: Dict<string>) {
    (forall k :: k != "DataQuality" && k != "DataQualityIndicator" ==>
       (k in after.entries <==> k in before.entries)) &&
    (forall k :: k in before.entries && k != "DataQuality" && k != "DataQualityIndicator" ==>
       after.entries[k] == before.entries[k])
  }

  /** `DQ_Codes[k]`. */
  function CodeName(codes: map<int, string>, k: int): (r: Result<string>)
    ensures r.Ok? <==> k in codes
    ensures r.Ok? ==> r.value == codes[k]
  {
    if k in codes then Ok(codes[k]) else Err(KeyError(IntToStr(k)))
  }

  /** The label step, on `DQ` after the sentinel: a 0 anywhere makes a QC
      record, a maximum of 1 a pass; otherwise the label of the maximum is
      stored with the indicator, which for a 6 that no column explains is
      the special-rules note. */
  function Label(rec: Dict<string>, dq: seq<int>, maxDQ: int, qind: seq<string>, codes: map<int, string>)
    : (r: Result<Dict<string>>)
    requires rec.Valid() && |dq| > 0
    ensures r.Ok? ==> r.value.Valid()
    ensures r.Ok? ==> "DataQuality" in r.value.entries && r.value.entries["DataQuality"] in codes.Values
    ensures r.Ok? ==> OnlyQualityChanged(rec, r.value)
  {
    if MinOf(dq) == Some(0) then
      var name :- CodeName(codes, 0);
      Ok(rec.Set("DataQuality", name))
    else if MaxOf(dq) == Some(1) then
      var name :- CodeName(codes, 1);
      Ok(rec.Set("DataQuality", name))
    else
      var name :- CodeName(codes, maxDQ);
      var indicator := if maxDQ == 6 && qind == [] then "ResultQualCode Special Rules" else Join("; ", qind);
      Ok(rec.Set("DataQuality", name).Set("DataQualityIndicator", indicator))
  }

  /** The scale of the main script. */
  const DqCodes: map<int, string> :=
    map[0 := "MetaData", 1 := "Passed", 2 := "Some review needed", 3 := "Spatial accuracy unknown",
        4 := "Extensive review needed", 5 := "Unknown data quality", 6 := "Reject record", 7 := "Error in data"]

  /** With non-negative severities, a 0 anywhere labels the record a QC
      record and leaves its indicator as it was. */
  lemma LabelMetaData(rec: Dict<string>, dq: seq<int>, maxDQ: int, qind: seq<string>)
    requires rec.Valid() && NonNegative(dq) && 0 in dq
    ensures Label(rec, dq, maxDQ, qind, DqCodes) == Ok(rec.Set("DataQuality", "MetaData"))
  {
    MinIsZero(dq);
  }

  /** Without a 0, a maximum of 1 is a pass, again without an indicator. */
  lemma LabelPassed(rec: Dict<string>, dq: seq<int>, maxDQ: int, qind: seq<string>)
    requires rec.Valid() && NonNegative(dq) && 0 !in dq && |dq| > 0 && forall x :: x in dq ==> x <= 1
    ensures Label(rec, dq, maxDQ, qind, DqCodes) == Ok(rec.Set("DataQuality", "Passed"))
  {
    MinIsZero(dq);
    MaxIsOne(dq);
    assert CodeName(DqCodes, 1) == Ok("Passed");
  }

  /** Severities without a 0 and none above 1 have the maximum 1. */
  lemma MaxIsOne(dq: seq<int>)
    requires NonNegative(dq) && 0 !in dq && |dq| > 0 && forall x :: x in dq ==> x <= 1
    ensures MaxOf(dq) == Some(1)
  {
    var m := MaxOf(dq).value;
    var i :| 0 <= i < |dq| && dq[i] == m;
  }

  /** Otherwise the label of the maximum is stored together with the
      indicator: the special-rules note when the maximum is 6 and no column
      explains it, the `'; '`-joined entries in every other case. */
  lemma LabelOther(rec: Dict<string>, dq: seq<int>, qind: seq<string>)
    requires rec.Valid() && NonNegative(dq) && 0 !in dq && |dq| > 0
    requires exists x :: x in dq && x > 1
    requires Sentinel(dq).0 in DqCodes
    ensures var m := Sentinel(dq).0;
      Label(rec, dq, m, qind, DqCodes) ==
        Ok(rec.Set("DataQuality", DqCodes[m])
              .Set("DataQualityIndicator", if m == 6 && qind == [] then "ResultQualCode Special Rules" else Join("; ", qind)))
  {
    MinIsZero(dq);
  }

  // ------------------------------------------------------------ one record

  /** The whole classification of one record: gather, sentinel, indicator,
      label. The result carries the `codeVal` the indicator loop leaves. */
  function Classify(rec: Dict<string>, tables: Dict<CodeTable>, table: string, codes: map<int, string>,
                    codeVal: Option<string>): (r: Result<(Dict<string>, Option<string>)>)
    requires rec.Valid() && tables.Valid()
    ensures r.Ok? ==> r.value.0.Valid()
    ensures r.Ok? ==> "DataQuality" in r.value.0.entries && r.value.0.entries["DataQuality"] in codes.Values
    ensures r.Ok? ==> OnlyQualityChanged(rec, r.value.0)
  {
    var g :- GatherCols(Gather([], codeVal), tables.keys, rec, tables, table);
    var (maxDQ, dq) := Sentinel(g.dq);
    var ind :- IndicatorCols(Ind([], g.codeVal), tables.keys, rec, tables, maxDQ);
    var labelled :- Label(rec, dq, maxDQ, ind.qind, codes);
    Ok((labelled, ind.codeVal))
  }

  /** A record for which no column gathered anything is labelled
      'Error in data'. */
  lemma NothingGatheredIsError(rec: Dict<string>, tables: Dict<CodeTable>, table: string, codeVal: Option<string>)
    requires rec.Valid() && tables.Valid()
    requires GatherCols(Gather([], codeVal), tables.keys, rec, tables, table).Ok?
    requires GatherCols(Gather([], codeVal), tables.keys, rec, tables, table).value.dq == []
    requires IndicatorCols(Ind([], GatherCols(Gather([], codeVal), tables.keys, rec, tables, table).value.codeVal),
                           tables.keys, rec, tables, 7).Ok?
    ensures Classify(rec, tables, table, DqCodes, codeVal).Ok?
    ensures Classify(rec, tables, table, DqCodes, codeVal).value.0.entries["DataQuality"] == "Error in data"
  {
    assert MinOf([7]) == Some(7);
    assert MaxOf([7]) == Some(7);
  }

  /** An accepted classification is the label of the gathered severities
      with the indicator entries of their maximum. */
  lemma ClassifyLabelled(rec: Dict<string>, tables: Dict<CodeTable>, table: string, codeVal: Option<string>)
    requires rec.Valid() && tables.Valid()
    requires Classify(rec, tables, table, DqCodes, codeVal).Ok?
    ensures GatherCols(Gather([], codeVal), tables.keys, rec, tables, table).Ok?
    ensures var g := GatherCols(Gather([], codeVal), tables.keys, rec, tables, table).value;
      IndicatorCols(Ind([], g.codeVal), tables.keys, rec, tables, Sentinel(g.dq).0).Ok?
    ensures var g := GatherCols(Gather([], codeVal), tables.keys, rec, tables, table).value;
      var (m, dq) := Sentinel(g.dq);
      Label(rec, dq, m, IndicatorCols(Ind([], g.codeVal), tables.keys, rec, tables, m).value.qind, DqCodes)
        == Ok(Classify(rec, tables, table, DqCodes, codeVal).value.0)
  { }

  /** The label of a record with non-negative tables, from what its columns
      gathered: a 0 makes it MetaData, ... */
  lemma ClassifyZero(rec: Dict<string>, tables: Dict<CodeTable>, table: string, codeVal: Option<string>)
    requires rec.Valid() && tables.Valid() && NonNegativeTables(tables)
    requires Classify(rec, tables, table, DqCodes, codeVal).Ok?
    ensures GatherCols(Gather([], codeVal), tables.keys, rec, tables, table).Ok?
    ensures var g := GatherCols(Gather([], codeVal), tables.keys, rec, tables, table).value;
      0 in g.dq ==> Classify(rec, tables, table, DqCodes, codeVal).value.0 == rec.Set("DataQuality", "MetaData")
  {
    var g := GatherCols(Gather([], codeVal), tables.keys, rec, tables, table).value;
    if 0 in g.dq {
      GatherNonNegative(Gather([], codeVal), tables.keys, rec, tables, table);
      var (m, dq) := Sentinel(g.dq);
      var ind := IndicatorCols(Ind([], g.codeVal), tables.keys, rec, tables, m).value;
      LabelMetaData(rec, dq, m, ind.qind);
    }
  }

  /** ... otherwise a maximum of 1 makes it Passed, ... */
  lemma ClassifyPassed(rec: Dict<string>, tables: Dict<CodeTable>, table: string, codeVal: Option<string>)
    requires rec.Valid() && tables.Valid() && NonNegativeTables(tables)
    requires Classify(rec, tables, table, DqCodes, codeVal).Ok?
    ensures GatherCols(Gather([], codeVal), tables.keys, rec, tables, table).Ok?
    ensures var g := GatherCols(Gather([], codeVal), tables.keys, rec, tables, table).value;
      0 !in g.dq && Sentinel(g.dq).0 <= 1 ==>
        Classify(rec, tables, table, DqCodes, codeVal).value.0 == rec.Set("DataQuality", "Passed")
  {
    var g := GatherCols(Gather([], codeVal), tables.keys, rec, tables, table).value;
    var (m, dq) := Sentinel(g.dq);
    if 0 !in g.dq && m <= 1 {
      GatherNonNegative(Gather([], codeVal), tables.keys, rec, tables, table);
      var ind := IndicatorCols(Ind([], g.codeVal), tables.keys, rec, tables, m).value;
      LabelPassed(rec, dq, m, ind.qind);
    }
  }

  /** ... and otherwise it takes the name of the maximum, which is one of
      the severities, and an indicator naming exactly the columns with a
      value graded with it. */
  lemma ClassifyWorst(rec: Dict<string>, tables: Dict<CodeTable>, table: string, codeVal: Option<string>)
    requires rec.Valid() && tables.Valid() && NonNegativeTables(tables)
    requires Classify(rec, tables, table, DqCodes, codeVal).Ok?
    requires forall k :: k in tables.entries ==> k in rec.entries
    ensures GatherCols(Gather([], codeVal), tables.keys, rec, tables, table).Ok?
    ensures var g := GatherCols(Gather([], codeVal), tables.keys, rec, tables, table).value;
      var m := Sentinel(g.dq).0;
      0 !in g.dq && m > 1 ==> m in DqCodes
    ensures var g := GatherCols(Gather([], codeVal), tables.keys, rec, tables, table).value;
      var m := Sentinel(g.dq).0;
      var qind := IndicatorList(tables.keys, rec, tables, m);
      0 !in g.dq && m > 1 ==>
        Classify(rec, tables, table, DqCodes, codeVal).value.0 ==
          rec.Set("DataQuality", DqCodes[m])
             .Set("DataQualityIndicator", if m == 6 && qind == [] then "ResultQualCode Special Rules" else Join("; ", qind))
  {
    ClassifyLabelled(rec, tables, table, codeVal);
    var g := GatherCols(Gather([], codeVal), tables.keys, rec, tables, table).value;
    var (m, dq) := Sentinel(g.dq);
    if 0 !in g.dq && m > 1 {
      GatherNonNegative(Gather([], codeVal), tables.keys, rec, tables, table);
      IndicatorFromEmpty(g.codeVal, tables.keys, rec, tables, m);
      LabelWorst(rec, dq, m, IndicatorList(tables.keys, rec, tables, m));
    }
  }

  /** Started from no entries, the indicator loop leaves exactly the
      entries of the columns graded with the maximum. */
  lemma IndicatorFromEmpty(codeVal: Option<string>, cols: seq<string>, rec: Dict<string>, tables: Dict<CodeTable>, m: int)
    requires forall i :: 0 <= i < |cols| ==> cols[i] in tables.entries && cols[i] in rec.entries
    ensures IndicatorCols(Ind([], codeVal), cols, rec, tables, m).Ok?
    ensures IndicatorCols(Ind([], codeVal), cols, rec, tables, m).value.qind == IndicatorList(cols, rec, tables, m)
  {
    IndicatorExact(Ind([], codeVal), cols, rec, tables, m);
    assert [] + IndicatorList(cols, rec, tables, m) == IndicatorList(cols, rec, tables, m);
  }

  /** A label that was found for a maximum above 1 is that severity's name,
      stored with the indicator. */
  lemma LabelWorst(rec: Dict<string>, dq: seq<int>, m: int, qind: seq<string>)
    requires rec.Valid() && NonNegative(dq) && 0 !in dq && m in dq && m > 1
    requires forall y :: y in dq ==> y <= m
    requires Label(rec, dq, m, qind, DqCodes).Ok?
    ensures m in DqCodes
    ensures Label(rec, dq, m, qind, DqCodes).value ==
      rec.Set("DataQuality", DqCodes[m])
         .Set("DataQualityIndicator", if m == 6 && qind == [] then "ResultQualCode Special Rules" else Join("; ", qind))
  {
    MinIsZero(dq);
    assert MaxOf(dq) != Some(1);
  }

  /** In particular a generic column whose value is graded 0 makes the
      record a MetaData record, whatever the other columns hold. */
  lemma ClassifyMetaData(rec: Dict<string>, tables: Dict<CodeTable>, table: string, codeVal: Option<string>, i: nat)
    requires rec.Valid() && tables.Valid() && NonNegativeTables(tables)
    requires i < |tables.keys| && GenericColumn(tables.keys[i])
    requires var c := tables.keys[i];
      c in rec.entries && rec.entries[c] in tables.entries[c] && tables.entries[c][rec.entries[c]] == 0
    requires Classify(rec, tables, table, DqCodes, codeVal).Ok?
    ensures Classify(rec, tables, table, DqCodes, codeVal).value.0 == rec.Set("DataQuality", "MetaData")
  {
    var g := GatherCols(Gather([], codeVal), tables.keys, rec, tables, table);
    GenericGathered(Gather([], codeVal), tables.keys, i, rec, tables, table);
    GatherNonNegative(Gather([], codeVal), tables.keys, rec, tables, table);
    var (m, dq) := Sentinel(g.value.dq);
    var ind := IndicatorCols(Ind([], g.value.codeVal), tables.keys, rec, tables, m).value;
    LabelMetaData(rec, dq, m, ind.qind);
  }

  /** Every code-table column is a column of a record the classifier
      accepted. */
  lemma ClassifiedHasColumns(rec: Dict<string>, tables: Dict<CodeTable>, table: string, codeVal: Option<string>)
    requires rec.Valid() && tables.Valid()
    requires Classify(rec, tables, table, DqCodes, codeVal).Ok?
    ensures forall k :: k in tables.entries ==> k in rec.entries
  {
    forall k | k in tables.entries
      ensures k in rec.entries
    {
      if k !in rec.entries {
        var i :| 0 <= i < |tables.keys| && tables.keys[i] == k;
        GatherMissingColumn(Gather([], codeVal), tables.keys, rec, tables, table, i);
      }
    }
  }

  /** A generic column whose value is graded `x` bounds the label from
      below: the record is MetaData or is labelled with a severity of at
      least `x`. */
  lemma ClassifyGraded(rec: Dict<string>, tables: Dict<CodeTable>, table: string, codeVal: Option<string>, i: nat)
    requires rec.Valid() && tables.Valid() && NonNegativeTables(tables)
    requires i < |tables.keys| && GenericColumn(tables.keys[i])
    requires var c := tables.keys[i]; c in rec.entries && rec.entries[c] in tables.entries[c]
    requires Classify(rec, tables, table, DqCodes, codeVal).Ok?
    ensures var c := tables.keys[i];
      var x := tables.entries[c][rec.entries[c]];
      var q := Classify(rec, tables, table, DqCodes, codeVal).value.0.entries["DataQuality"];
      q == "MetaData" || exists m :: m in DqCodes && x <= m && q == DqCodes[m]
  {
    var c := tables.keys[i];
    var x := tables.entries[c][rec.entries[c]];
    ClassifyLabelled(rec, tables, table, codeVal);
    var g := GatherCols(Gather([], codeVal), tables.keys, rec, tables, table).value;
    GenericGathered(Gather([], codeVal), tables.keys, i, rec, tables, table);
    var (m, dq) := Sentinel(g.dq);
    var ind := IndicatorCols(Ind([], g.codeVal), tables.keys, rec, tables, m).value;
    LabelGraded(rec, dq, m, ind.qind, x);
  }

  /** The label bounds every gathered severity from below, unless it is
      MetaData. */
  lemma LabelGraded(rec: Dict<string>, dq: seq<int>, maxDQ: int, qind: seq<string>, x: int)
    requires rec.Valid() && |dq| > 0 && x in dq && forall y :: y in dq ==> y <= maxDQ
    requires Label(rec, dq, maxDQ, qind, DqCodes).Ok?
    ensures var q := Label(rec, dq, maxDQ, qind, DqCodes).value.entries["DataQuality"];
      q == "MetaData" || exists n :: n in DqCodes && x <= n && q == DqCodes[n]
  {
    var q := Label(rec, dq, maxDQ, qind, DqCodes).value.entries["DataQuality"];
    if MinOf(dq) == Some(0) {
      assert q == DqCodes[0];
    } else if MaxOf(dq) == Some(1) {
      assert q == DqCodes[1];
    } else {
      assert q == DqCodes[maxDQ];
    }
  }

  /** The classifier of one record, as the loops of the source run it. */
  method ClassifyRecord(rec: Dict<string>, tables: Dict<CodeTable>, table: string, codes: map<int, string>,
                        codeVal: Option<string>) returns (r: Result<(Dict<string>, Option<string>)>)
    requires rec.Valid() && tables.Valid()
    ensures r == Classify(rec, tables, table, codes, codeVal)
  {
    var g := GatherSeverities(Gather([], codeVal), rec, tables, table);
    if g.Err? {
      return Err(g.error);
    }
    var maxDQ: int;
    var dq := g.value.dq;
    if |dq| == 0 {
      maxDQ := 7;
      dq := dq + [maxDQ];
    } else {
      maxDQ := MaxOf(dq).value;
    }
    var ind := CollectIndicator(g.value.codeVal, rec, tables, maxDQ);
    if ind.Err? {
      return Err(ind.error);
    }
    var labelled := Label(rec, dq, maxDQ, ind.value.qind, codes);
    if labelled.Err? {
      return Err(labelled.error);
    }
    r := Ok((labelled.value, ind.value.codeVal));
  }
}
