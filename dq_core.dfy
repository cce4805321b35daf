/** The arithmetic every data-quality (DQ) classifier shares: looking record
    values up in a code table, and the `max`/`min` of the collected
    severities. */
module DqCore {
  import opened Wrappers
  import opened PyText
  import opened SchemaOps

  /** The severities of the values that are keys of `t`, in the order of
      `vals`: what `for codeVal in vals: if codeVal in t: DQ += [t[codeVal]]`
      appends. */
  function Lookups(vals: seq<string>, t: CodeTable): (r: seq<int>)
    ensures |r| <= |vals|
    ensures forall i :: 0 <= i < |vals| && vals[i] in t ==> t[vals[i]] in r
    ensures forall x :: x in r ==> exists i :: 0 <= i < |vals| && vals[i] in t && t[vals[i]] == x
    decreases |vals|
  {
    if |vals| == 0 then []
    else
      var prev := Lookups(vals[..|vals| - 1], t);
      var last := vals[|vals| - 1];
      assert forall i :: 0 <= i < |vals| - 1 ==> vals[..|vals| - 1][i] == vals[i];
      prev + (if last in t then [t[last]] else [])
  }

  /** Looking up a list that no value of which is a key adds nothing. */
  lemma {:induction false} LookupsNone(vals: seq<string>, t: CodeTable)
    requires forall i :: 0 <= i < |vals| ==> vals[i] !in t
    ensures Lookups(vals, t) == []
    decreases |vals|
  {
    if |vals| > 0 {
      LookupsNone(vals[..|vals| - 1], t);
    }
  }

  /** Looking up two lists one after the other. */
  lemma {:induction false} LookupsAppend(a: seq<string>, b: seq<string>, t: CodeTable)
    ensures Lookups(a + b, t) == Lookups(a, t) + Lookups(b, t)
    decreases |b|
  {
    if |b| == 0 {
      assert a + b == a;
    } else {
      assert (a + b)[..|a + b| - 1] == a + b[..|b| - 1];
      LookupsAppend(a, b[..|b| - 1], t);
    }
  }

  /** One-character strings of `s`, as iterating over a Python string gives. */
  function Chars(s: string): (r: seq<string>)
    ensures |r| == |s|
    ensures forall i :: 0 <= i < |s| ==> r[i] == [s[i]]
    decreases |s|
  {
    if |s| == 0 then [] else Chars(s[..|s| - 1]) + [[s[|s| - 1]]]
  }

  /** `max(DQ)`; `None` is the `ValueError` of an empty list. */
  function MaxOf(dq: seq<int>): (r: Option<int>)
    ensures r.None? <==> |dq| == 0
    ensures r.Some? ==> r.value in dq && forall x :: x in dq ==> x <= r.value
    decreases |dq|
  {
    if |dq| == 0 then None
    else
      var m := MaxOf(dq[..|dq| - 1]);
      var last := dq[|dq| - 1];
      assert dq == dq[..|dq| - 1] + [last];
      if m.None? || m.value < last then Some(last) else m
  }

  /** `min(DQ)`; `None` is the `ValueError` of an empty list. */
  function MinOf(dq: seq<int>): (r: Option<int>)
    ensures r.None? <==> |dq| == 0
    ensures r.Some? ==> r.value in dq && forall x :: x in dq ==> r.value <= x
    decreases |dq|
  {
    if |dq| == 0 then None
    else
      var m := MinOf(dq[..|dq| - 1]);
      var last := dq[|dq| - 1];
      assert dq == dq[..|dq| - 1] + [last];
      if m.None? || last < m.value then Some(last) else m
  }

  /** Every code table of the scripts grades with severities of at least 0. */
  predicate NonNegative(dq: seq<int>) {
    forall i :: 0 <= i < |dq| ==> dq[i] >= 0
  }

  /** With non-negative severities, `min(DQ) == 0` says exactly that some
      column contributed a 0. */
  lemma MinIsZero(dq: seq<int>)
    requires NonNegative(dq) && |dq| > 0
    ensures MinOf(dq) == Some(0) <==> 0 in dq
  {
    if 0 in dq {
      var m := MinOf(dq).value;
      var i :| 0 <= i < |dq| && dq[i] == m;
    }
  }

  /** The imperative `for codeVal in vals: if codeVal in t: DQ += [t[codeVal]]`. */
  method AddLookups(dq: seq<int>, vals: seq<string>, t: CodeTable) returns (r: seq<int>)
    ensures r == dq + Lookups(vals, t)
  {
    r := dq;
    var i := 0;
    while i < |vals|
      invariant 0 <= i <= |vals|
      invariant r == dq + Lookups(vals[..i], t)
    {
      assert vals[..i + 1][..i] == vals[..i];
      if vals[i] in t {
        r := r + [t[vals[i]]];
      }
      i := i + 1;
    }
    assert vals[..i] == vals;
  }
}
