/** The key edits every `DictionaryFixer` performs on its copy of the
    code-column table: `rename_Dict_Column` (`d[new] = d[old]; d.pop(old)`),
    `remove_Dict_Column` / `d.pop(name)`, and the one plain aliasing
    assignment `d[new] = d[old]`. A fixer branch is a straight-line sequence of
    such calls; here it is written as a list of `Op`s run in order, the first
    one that raises ending the run. */
module SchemaOps {
  import opened Wrappers
  import opened PyDict
  import opened Seqs

  /** One code table: code value -> severity. */
  type CodeTable = map<string, int>

  datatype Op =
    | Rename(from: string, to: string)   // rename_Dict_Column(d, from, to)
    | Remove(name: string)               // remove_Dict_Column(d, name), d.pop(name)
    | Alias(from: string, to: string)    // d[to] = d[from]
  {
    /** The key the edit reads first; it raises `KeyError` when it is absent. */
    function Source(): string {
      match this
      case Rename(f, _) => f
      case Remove(n) => n
      case Alias(f, _) => f
    }

    /** Every key the edit reads, writes or deletes. */
    function Touches(): set<string> {
      match this
      case Rename(f, t) => {f, t}
      case Remove(n) => {n}
      case Alias(f, t) => {f, t}
    }
  }

  function ApplyOp<V>(d: Dict<V>, op: Op): (r: Result<Dict<V>>)
    requires d.Valid()
    ensures r.Ok? ==> r.value.Valid()
    ensures r.Err? <==> op.Source() !in d.entries
    ensures r.Err? ==> r.error == KeyError(op.Source())
  {
    match op
    case Rename(f, t) =>
      if f !in d.entries then Err(KeyError(f)) else d.Set(t, d.entries[f]).Pop(f)
    case Remove(n) => d.Pop(n)
    case Alias(f, t) =>
      if f !in d.entries then Err(KeyError(f)) else Ok(d.Set(t, d.entries[f]))
  }

  /** The edits of `ops` applied one after the other; the first failure is the
      result. */
  function ApplyOps<V>(d: Dict<V>, ops: seq<Op>): (r: Result<Dict<V>>)
    requires d.Valid()
    ensures r.Ok? ==> r.value.Valid()
    decreases |ops|
  {
    if |ops| == 0 then Ok(d)
    else
      match ApplyOps(d, ops[..|ops| - 1])
      case Err(e) => Err(e)
      case Ok(prev) => ApplyOp(prev, ops[|ops| - 1])
  }

  function Mentioned(ops: seq<Op>): set<string>
    decreases |ops|
  {
    if |ops| == 0 then {} else Mentioned(ops[..|ops| - 1]) + ops[|ops| - 1].Touches()
  }

  /** A key is mentioned exactly when some edit touches it. */
  lemma {:induction false} MentionedIff(ops: seq<Op>, k: string)
    ensures k in Mentioned(ops) <==> exists i :: 0 <= i < |ops| && k in ops[i].Touches()
    decreases |ops|
  {
    if |ops| > 0 {
      var init := ops[..|ops| - 1];
      MentionedIff(init, k);
      if k in Mentioned(init) {
        var i :| 0 <= i < |init| && k in init[i].Touches();
        assert ops[i] == init[i];
      }
      if exists i :: 0 <= i < |ops| && k in ops[i].Touches() {
        var i :| 0 <= i < |ops| && k in ops[i].Touches();
        if i < |init| {
          assert init[i] == ops[i];
        }
      }
    }
  }

  // ------------------------------------------------------------ single edits

  /** `rename_Dict_Column`: the new key holds the old key's table, the old key
      is gone, every other key is untouched; the new key keeps its place when
      it already existed and is appended otherwise. */
  lemma RenameEffect<V>(d: Dict<V>, from: string, to: string)
    requires d.Valid() && from in d.entries && from != to
    ensures ApplyOp(d, Rename(from, to)).Ok?
    ensures var r := ApplyOp(d, Rename(from, to)).value;
      && to in r.entries && r.entries[to] == d.entries[from]
      && from !in r.entries
      && (forall k :: k != from && k != to ==> (k in r.entries <==> k in d.entries))
      && (forall k :: k != from && k != to && k in d.entries ==> r.entries[k] == d.entries[k])
      && r.keys == Without(d.keys, from) + (if to in d.entries then [] else [to])
  {
    var s := d.Set(to, d.entries[from]);
    if to !in d.entries {
      WithoutAppend(d.keys, from, to);
    }
  }

  lemma {:induction false} WithoutAppend(s: seq<string>, k: string, x: string)
    requires x != k
    ensures Without(s + [x], k) == Without(s, k) + [x]
    decreases |s|
  {
    if |s| > 0 {
      assert (s + [x])[1..] == s[1..] + [x];
      WithoutAppend(s[1..], k, x);
    }
  }

  /** Renaming a column to its own name deletes it: the assignment is a no-op
      and the `pop` that follows removes the key. */
  lemma RenameToSelfDeletes<V>(d: Dict<V>, k: string)
    requires d.Valid() && k in d.entries
    ensures ApplyOp(d, Rename(k, k)) == ApplyOp(d, Remove(k))
  {
    assert d.Set(k, d.entries[k]) == d;
  }

  /** `remove_Dict_Column` deletes exactly the one key and keeps the order of
      the rest. */
  lemma RemoveEffect<V>(d: Dict<V>, name: string)
    requires d.Valid() && name in d.entries
    ensures ApplyOp(d, Remove(name)).Ok?
    ensures var r := ApplyOp(d, Remove(name)).value;
      && r.entries == d.entries - {name}
      && r.keys == Without(d.keys, name)
      && |r.keys| == |d.keys| - 1
  {
    WithoutOne(d.keys, name);
  }

  lemma {:induction false} WithoutOne(s: seq<string>, k: string)
    requires Distinct(s) && k in s
    ensures |Without(s, k)| == |s| - 1
    decreases |s|
  {
    if s[0] != k {
      assert k in s[1..];
      WithoutOne(s[1..], k);
    } else {
      assert k !in s[1..];
    }
  }

  // ------------------------------------------------------------ edit lists

  /** Once an edit has raised, later edits cannot undo it. */
  lemma {:induction false} ApplyOpsAppend<V>(d: Dict<V>, ops: seq<Op>, more: seq<Op>)
    requires d.Valid()
    ensures ApplyOps(d, ops).Err? ==> ApplyOps(d, ops + more) == ApplyOps(d, ops)
    ensures ApplyOps(d, ops).Ok? ==> ApplyOps(d, ops + more) == ApplyOps(ApplyOps(d, ops).value, more)
    decreases |more|
  {
    if |more| == 0 {
      assert ops + more == ops;
    } else {
      var init := more[..|more| - 1];
      assert (ops + more)[..|ops + more| - 1] == ops + init;
      ApplyOpsAppend(d, ops, init);
    }
  }

  /** A key no edit mentions keeps its presence and its table. */
  lemma {:induction false} ApplyOpsFrame<V>(d: Dict<V>, ops: seq<Op>, k: string)
    requires d.Valid() && ApplyOps(d, ops).Ok? && k !in Mentioned(ops)
    ensures k in ApplyOps(d, ops).value.entries <==> k in d.entries
    ensures k in d.entries ==> ApplyOps(d, ops).value.entries[k] == d.entries[k]
    decreases |ops|
  {
    if |ops| > 0 {
      ApplyOpsFrame(d, ops[..|ops| - 1], k);
    }
  }

  /** The edits fail exactly when one of them reads a key that is absent at
      that point; without a failure, the result is the last edit applied to
      the result of the others. */
  lemma ApplyOpsStep<V>(d: Dict<V>, ops: seq<Op>, op: Op)
    requires d.Valid()
    ensures ApplyOps(d, ops + [op]) ==
      if ApplyOps(d, ops).Err? then ApplyOps(d, ops) else ApplyOp(ApplyOps(d, ops).value, op)
  {
    assert (ops + [op])[..|ops + [op]| - 1] == ops;
  }

  /** An edit that reads a key the dict lacks and that no earlier edit
      creates makes the whole list raise. */
  lemma ApplyOpsMissing<V>(d: Dict<V>, ops: seq<Op>, i: nat)
    requires d.Valid() && i < |ops|
    requires ops[i].Source() !in d.entries && ops[i].Source() !in Mentioned(ops[..i])
    ensures ApplyOps(d, ops).Err?
  {
    var pre := ops[..i];
    SplitAt(ops, i);
    if ApplyOps(d, pre).Ok? {
      ApplyOpsFrame(d, pre, ops[i].Source());
    }
    ApplyOpsStep(d, pre, ops[i]);
    ApplyOpsAppend(d, pre + [ops[i]], ops[i + 1..]);
  }


  /** Conversely, edits whose keys are all present and none of which an
      earlier edit touches run without error. */
  lemma {:induction false} ApplyOpsPresent<V>(d: Dict<V>, ops: seq<Op>)
    requires d.Valid()
    requires forall i :: 0 <= i < |ops| ==> ops[i].Source() in d.entries
    requires forall i, j :: 0 <= j < i < |ops| ==> ops[i].Source() !in ops[j].Touches()
    ensures ApplyOps(d, ops).Ok?
    decreases |ops|
  {
    if |ops| > 0 {
      var init := ops[..|ops| - 1];
      var last := ops[|ops| - 1];
      ApplyOpsPresent(d, init);
      MentionedIff(init, last.Source());
      ApplyOpsFrame(d, init, last.Source());
    }
  }

  /** A copy `d[to] = d[from]` whose two keys no other edit touches leaves
      both keys holding the table `from` had at the start. */
  lemma AliasSurvives<V>(d: Dict<V>, pre: seq<Op>, from: string, to: string, post: seq<Op>)
    requires d.Valid() && from in d.entries
    requires ApplyOps(d, pre + [Alias(from, to)] + post).Ok?
    requires from !in Mentioned(pre) && to !in Mentioned(pre)
    requires from !in Mentioned(post) && to !in Mentioned(post)
    ensures var r := ApplyOps(d, pre + [Alias(from, to)] + post).value;
      from in r.entries && to in r.entries && r.entries[from] == r.entries[to] == d.entries[from]
  {
    var mid := pre + [Alias(from, to)];
    ApplyOpsAppend(d, mid, post);
    ApplyOpsStep(d, pre, Alias(from, to));
    ApplyOpsFrame(d, pre, from);
    var m := ApplyOps(d, mid).value;
    ApplyOpsFrame(m, post, from);
    ApplyOpsFrame(m, post, to);
  }

  /** A rename `d[to] = d[from]; d.pop(from)` whose two keys no other edit
      touches leaves `to` holding the table `from` had at the start and
      `from` gone. */
  lemma RenameSurvives<V>(d: Dict<V>, pre: seq<Op>, from: string, to: string, post: seq<Op>)
    requires d.Valid() && from in d.entries && from != to
    requires ApplyOps(d, pre + [Rename(from, to)] + post).Ok?
    requires from !in Mentioned(pre) && to !in Mentioned(pre)
    requires from !in Mentioned(post) && to !in Mentioned(post)
    ensures var r := ApplyOps(d, pre + [Rename(from, to)] + post).value;
      to in r.entries && r.entries[to] == d.entries[from] && from !in r.entries
  {
    var mid := pre + [Rename(from, to)];
    ApplyOpsAppend(d, mid, post);
    ApplyOpsStep(d, pre, Rename(from, to));
    ApplyOpsFrame(d, pre, from);
    var before := ApplyOps(d, pre).value;
    RenameEffect(before, from, to);
    var m := ApplyOps(d, mid).value;
    ApplyOpsFrame(m, post, from);
    ApplyOpsFrame(m, post, to);
  }

  /** A key removed by an edit that no later edit touches is absent at the
      end. */
  lemma RemoveSurvives<V>(d: Dict<V>, pre: seq<Op>, name: string, post: seq<Op>)
    requires d.Valid()
    requires ApplyOps(d, pre + [Remove(name)] + post).Ok?
    requires name !in Mentioned(post)
    ensures name !in ApplyOps(d, pre + [Remove(name)] + post).value.entries
  {
    var mid := pre + [Remove(name)];
    ApplyOpsAppend(d, mid, post);
    ApplyOpsStep(d, pre, Remove(name));
    var m := ApplyOps(d, mid).value;
    ApplyOpsFrame(m, post, name);
  }

  /** `Remove` for each of `names`, in order. */
  function Removes(names: seq<string>): (r: seq<Op>)
    ensures |r| == |names|
    ensures forall i :: 0 <= i < |names| ==> r[i] == Remove(names[i])
  {
    seq(|names|, i requires 0 <= i < |names| => Remove(names[i]))
  }

  /** `s` with every key of `names` taken out, in the order of `s`. */
  function WithoutAll(s: seq<string>, names: seq<string>): (r: seq<string>)
    ensures forall x :: x in r <==> x in s && x !in names
    ensures Distinct(s) ==> Distinct(r)
    decreases |s|
  {
    if |s| == 0 then []
    else
      var t := WithoutAll(s[1..], names);
      assert Distinct(s) ==> s[0] !in t by {
        if Distinct(s) { assert s[0] !in s[1..]; }
      }
      assert Distinct(s) && s[0] !in names ==> Distinct([s[0]] + t) by {
        assert forall j :: 0 <= j < |t| ==> ([s[0]] + t)[j + 1] == t[j];
      }
      (if s[0] in names then [] else [s[0]]) + t
  }

  /** Taking out one more key after the others is taking out all of them. */
  lemma {:induction false} WithoutAllSnoc(s: seq<string>, names: seq<string>, n: string)
    ensures Without(WithoutAll(s, names), n) == WithoutAll(s, names + [n])
    decreases |s|
  {
    if |s| > 0 {
      WithoutAllSnoc(s[1..], names, n);
      var t := WithoutAll(s[1..], names);
      var t' := WithoutAll(s[1..], names + [n]);
      assert Without(t, n) == t';
      if s[0] in names {
        assert s[0] in names + [n];
        assert WithoutAll(s, names) == t;
        assert WithoutAll(s, names + [n]) == t';
      } else if s[0] == n {
        assert WithoutAll(s, names) == [s[0]] + t;
        assert ([s[0]] + t)[0] == n && ([s[0]] + t)[1..] == t;
        assert WithoutAll(s, names + [n]) == t';
      } else {
        assert s[0] !in names + [n];
        assert WithoutAll(s, names) == [s[0]] + t;
        assert ([s[0]] + t)[0] != n && ([s[0]] + t)[1..] == t;
        assert WithoutAll(s, names + [n]) == [s[0]] + t';
      }
    }
  }

  /** Taking keys out of two lists one after the other. */
  lemma {:induction false} WithoutAllAppend(a: seq<string>, b: seq<string>, names: seq<string>)
    ensures WithoutAll(a + b, names) == WithoutAll(a, names) + WithoutAll(b, names)
    decreases |a|
  {
    if |a| == 0 {
      assert a + b == b;
    } else {
      assert (a + b)[1..] == a[1..] + b;
      WithoutAllAppend(a[1..], b, names);
    }
  }

  /** Taking out names that include every key leaves nothing. */
  lemma WithoutAllCleared(s: seq<string>, names: seq<string>)
    requires forall i :: 0 <= i < |s| ==> s[i] in names
    ensures WithoutAll(s, names) == []
  {
  }

  /** Removing names around one kept key leaves just that key. */
  lemma KeepOnlyOne(a: seq<string>, x: string, b: seq<string>, names: seq<string>)
    requires WithoutAll(a, names) == [] && WithoutAll(b, names) == [] && x !in names
    ensures WithoutAll(a + [x] + b, names) == [x]
  {
    WithoutAllSingle(x, names);
    WithoutAllAppend(a, [x], names);
    WithoutAllAppend(a + [x], b, names);
    EmptyAround(x);
  }

  /** Removing names around two kept keys leaves just those two, in order. */
  lemma KeepOnlyTwo(a: seq<string>, x: string, b: seq<string>, y: string, names: seq<string>)
    requires WithoutAll(a, names) == [] && WithoutAll(b, names) == [] && x !in names && y !in names
    ensures WithoutAll(a + [x] + b + [y], names) == [x, y]
  {
    KeepOnlyOne(a, x, b, names);
    WithoutAllSingle(y, names);
    WithoutAllAppend(a + [x] + b, [y], names);
    Pair(x, y);
  }

  /** A single key not among the names survives. */
  lemma WithoutAllSingle(x: string, names: seq<string>)
    requires x !in names
    ensures WithoutAll([x], names) == [x]
  {
    assert [x][1..] == [];
  }

  lemma EmptyAround(x: string)
    ensures [] + [x] + [] == [x]
  {
  }

  lemma Pair(x: string, y: string)
    ensures [x] + [y] == [x, y]
  {
  }

  lemma {:induction false} WithoutAllNone(s: seq<string>, names: seq<string>)
    requires |names| == 0
    ensures WithoutAll(s, names) == s
    decreases |s|
  {
    if |s| > 0 {
      WithoutAllNone(s[1..], names);
      assert [s[0]] + s[1..] == s;
    }
  }

  /** Removing distinct keys that are all present deletes exactly them and
      keeps the remaining keys in their order. */
  lemma {:induction false} RemovesEffect<V>(d: Dict<V>, names: seq<string>)
    requires d.Valid() && Distinct(names)
    requires forall i :: 0 <= i < |names| ==> names[i] in d.entries
    ensures ApplyOps(d, Removes(names)) ==
      Ok(Dict(WithoutAll(d.keys, names), map k | k in d.entries && k !in names :: d.entries[k]))
    decreases |names|
  {
    if |names| > 0 {
      var init := names[..|names| - 1];
      var n := names[|names| - 1];
      DistinctSnoc(names);
      RemovesEffect(d, init);
      RemoveOneMore(d, init, n);
    } else {
      WithoutAllNone(d.keys, names);
      assert (map k | k in d.entries && k !in names :: d.entries[k]) == d.entries;
    }
  }

  /** A list of distinct names is its distinct front followed by a last name
      that the front does not hold. */
  lemma DistinctSnoc(names: seq<string>)
    requires |names| > 0 && Distinct(names)
    ensures var init := names[..|names| - 1];
      Distinct(init) && names[|names| - 1] !in init && init + [names[|names| - 1]] == names
    ensures forall i :: 0 <= i < |names| - 1 ==> names[..|names| - 1][i] == names[i]
  {
  }

  lemma RemoveOneMore<V>(d: Dict<V>, init: seq<string>, n: string)
    requires d.Valid() && n in d.entries && n !in init
    requires ApplyOps(d, Removes(init)) ==
      Ok(Dict(WithoutAll(d.keys, init), map k | k in d.entries && k !in init :: d.entries[k]))
    ensures ApplyOps(d, Removes(init + [n])) ==
      Ok(Dict(WithoutAll(d.keys, init + [n]), map k | k in d.entries && k !in init + [n] :: d.entries[k]))
  {
    RemovesSnoc(d, init, n);
    var prev := ApplyOps(d, Removes(init)).value;
    WithoutAllSnoc(d.keys, init, n);
    RestrictMinus(d.entries, init, n);
  }

  lemma RemovesSnoc<V>(d: Dict<V>, init: seq<string>, n: string)
    requires d.Valid() && ApplyOps(d, Removes(init)).Ok?
    ensures ApplyOps(d, Removes(init + [n])) == ApplyOps(d, Removes(init)).value.Pop(n)
  {
    assert Removes(init + [n]) == Removes(init) + [Remove(n)];
    ApplyOpsStep(d, Removes(init), Remove(n));
  }

  lemma RestrictMinus<V>(m: map<string, V>, init: seq<string>, n: string)
    ensures (map k | k in m && k !in init :: m[k]) - {n} == map k | k in m && k !in init + [n] :: m[k]
  {
    assert forall k :: k in init + [n] <==> k in init || k == n;
  }

  // ------------------------------------------------------------ in place

  /** `rename_Dict_Column(d, from, to)` on the mutable table. */
  method RenameDictColumn<V>(d: MutableDict<V>, from: string, to: string) returns (err: Option<PyError>)
    requires d.Valid()
    modifies d
    ensures d.Valid()
    ensures err.None? ==> ApplyOp(old(d.Contents()), Rename(from, to)) == Ok(d.Contents())
    ensures err.Some? ==> ApplyOp(old(d.Contents()), Rename(from, to)) == Err(err.value)
                          && d.Contents() == old(d.Contents())
  {
    var v := d.Lookup(from);
    if v.Err? {
      return Some(v.error);
    }
    d.Assign(to, v.value);
    var _ := d.Pop(from);
    err := None;
  }

  /** `remove_Dict_Column(d, name)`, i.e. `d.pop(name)`, on the mutable table. */
  method RemoveDictColumn<V>(d: MutableDict<V>, name: string) returns (err: Option<PyError>)
    requires d.Valid()
    modifies d
    ensures d.Valid()
    ensures err.None? ==> ApplyOp(old(d.Contents()), Remove(name)) == Ok(d.Contents())
    ensures err.Some? ==> ApplyOp(old(d.Contents()), Remove(name)) == Err(err.value)
                          && d.Contents() == old(d.Contents())
  {
    var r := d.Pop(name);
    err := if r.Err? then Some(r.error) else None;
  }

  /** `d[to] = d[from]` on the mutable table. */
  method AliasDictColumn<V>(d: MutableDict<V>, from: string, to: string) returns (err: Option<PyError>)
    requires d.Valid()
    modifies d
    ensures d.Valid()
    ensures err.None? ==> ApplyOp(old(d.Contents()), Alias(from, to)) == Ok(d.Contents())
    ensures err.Some? ==> ApplyOp(old(d.Contents()), Alias(from, to)) == Err(err.value)
                          && d.Contents() == old(d.Contents())
  {
    var v := d.Lookup(from);
    if v.Err? {
      return Some(v.error);
    }
    d.Assign(to, v.value);
    err := None;
  }

  /** One edit on the mutable table. */
  method RunOp<V>(d: MutableDict<V>, op: Op) returns (err: Option<PyError>)
    requires d.Valid()
    modifies d
    ensures d.Valid()
    ensures ApplyOp(old(d.Contents()), op) == if err.None? then Ok(d.Contents()) else Err(err.value)
  {
    match op {
      case Rename(f, t) => err := RenameDictColumn(d, f, t);
      case Remove(n) => err := RemoveDictColumn(d, n);
      case Alias(f, t) => err := AliasDictColumn(d, f, t);
    }
  }

  /** Runs the edits on `d` in order, stopping at the first that raises. */
  method RunOps<V>(d: MutableDict<V>, ops: seq<Op>) returns (err: Option<PyError>)
    requires d.Valid()
    modifies d
    ensures d.Valid()
    ensures ApplyOps(old(d.Contents()), ops) == if err.None? then Ok(d.Contents()) else Err(err.value)
  {
    ghost var start := d.Contents();
    var i := 0;
    while i < |ops|
      invariant 0 <= i <= |ops|
      invariant d.Valid()
      invariant ApplyOps(start, ops[..i]) == Ok(d.Contents())
      decreases |ops| - i
    {
      ghost var before := d.Contents();
      err := RunOp(d, ops[i]);
      RunStep(start, ops, i, before);
      if err.Some? {
        return;
      }
      i := i + 1;
    }
    PrefixFull(ops);
    err := None;
  }

  /** One more edit of the list extends the prefix run; if it raises, the
      whole list raises with it. */
  lemma RunStep<V>(start: Dict<V>, ops: seq<Op>, i: nat, before: Dict<V>)
    requires start.Valid() && i < |ops| && ApplyOps(start, ops[..i]) == Ok(before)
    ensures ApplyOps(start, ops[..i + 1]) == ApplyOp(before, ops[i])
    ensures ApplyOp(before, ops[i]).Err? ==> ApplyOps(start, ops) == ApplyOp(before, ops[i])
  {
    SliceSnoc(ops, i);
    ApplyOpsStep(start, ops[..i], ops[i]);
    ApplyOpsAppend(start, ops[..i + 1], ops[i + 1..]);
  }

  /** `Mod = CodeColumns.copy()` followed by the edits of one fixer: the
      edits happen on a fresh copy, so `codeColumns` itself is left as it
      was. */
  method FixCopy<V>(codeColumns: MutableDict<V>, ops: seq<Op>) returns (m: MutableDict<V>, err: Option<PyError>)
    requires codeColumns.Valid()
    ensures fresh(m) && m.Valid()
    ensures ApplyOps(codeColumns.Contents(), ops) == if err.None? then Ok(m.Contents()) else Err(err.value)
  {
    m := new MutableDict.Copy(codeColumns.Contents());
    err := RunOps(m, ops);
  }
}
