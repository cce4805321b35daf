/** Python's `dict` with string keys: an insertion-ordered map. Assigning to a
    key already present keeps its position, a new key goes to the end, and
    `pop` of a missing key raises `KeyError`. */
module PyDict {
  import opened Wrappers
  import opened Seqs

  predicate Distinct(s: seq<string>) {
    forall i, j :: 0 <= i < j < |s| ==> s[i] != s[j]
  }

  /** `s` with every occurrence of `k` taken out, the rest in order. */
  function Without(s: seq<string>, k: string): (r: seq<string>)
    ensures forall x :: x in r <==> x in s && x != k
    ensures Distinct(s) ==> Distinct(r)
    ensures k !in s ==> r == s
    decreases |s|
  {
    if |s| == 0 then []
    else if s[0] == k then Without(s[1..], k)
    else
      var t := Without(s[1..], k);
      assert Distinct(s) ==> Distinct([s[0]] + t) by {
        if Distinct(s) {
          assert s[0] !in s[1..];
          assert s[0] !in t;
          assert forall j :: 0 <= j < |t| ==> ([s[0]] + t)[j + 1] == t[j];
        }
      }
      [s[0]] + t
  }

  datatype Dict<V> = Dict(keys: seq<string>, entries: map<string, V>) {
    /** The order of the keys lists each key of the map exactly once. */
    ghost predicate Valid() {
      Distinct(keys) && (forall k :: k in entries <==> k in keys)
    }

    /** `d[k]`. `Get`, `Set` and `Pop` are Python's own dict operations,
        so their contracts describe them directly in terms of the map and
        the key order; `GetAfterSet` and `GetAfterPop` below state how
        they combine. */
    function Get(k: string): (r: Result<V>)
      ensures r.Ok? <==> k in entries
      ensures r.Ok? ==> r.value == entries[k]
      ensures r.Err? ==> r.error == KeyError(k)
    {
      if k in entries then Ok(entries[k]) else Err(KeyError(k))
    }

    /** `d[k] = v`. */
    function Set(k: string, v: V): (r: Dict<V>)
      requires Valid()
      ensures r.Valid()
      ensures r.entries == entries[k := v]
      ensures k in entries ==> r.keys == keys
      ensures k !in entries ==> r.keys == keys + [k]
    {
      if k in entries then Dict(keys, entries[k := v]) else Dict(keys + [k], entries[k := v])
    }

    /** `d.pop(k)`, keeping the dict and dropping the returned value. */
    function Pop(k: string): (r: Result<Dict<V>>)
      requires Valid()
      ensures r.Ok? <==> k in entries
      ensures r.Err? ==> r.error == KeyError(k)
      ensures r.Ok? ==> r.value.Valid() && r.value.entries == entries - {k}
                        && r.value.keys == Without(keys, k)
    {
      if k in entries then Ok(Dict(Without(keys, k), entries - {k})) else Err(KeyError(k))
    }

    /** `list(d.values())`, in key order. */
    function Values(): (r: seq<V>)
      requires Valid()
      ensures |r| == |keys|
      ensures forall i :: 0 <= i < |keys| ==> r[i] == entries[keys[i]]
    {
      ValuesOf(keys, entries)
    }
  }

  /** The values stored under `ks`, in that order. */
  function ValuesOf<V>(ks: seq<string>, m: map<string, V>): (r: seq<V>)
    requires forall i :: 0 <= i < |ks| ==> ks[i] in m
    ensures |r| == |ks|
    ensures forall i :: 0 <= i < |ks| ==> r[i] == m[ks[i]]
    decreases |ks|
  {
    if |ks| == 0 then [] else ValuesOf(ks[..|ks| - 1], m) + [m[ks[|ks| - 1]]]
  }

  function Empty<V>(): (r: Dict<V>)
    ensures r.Valid() && |r.keys| == 0 && r.entries == map[]
  {
    Dict([], map[])
  }

  /** Reading a key just assigned gives the assigned value, and any other key
      is untouched. */
  lemma GetAfterSet<V>(d: Dict<V>, k: string, v: V, j: string)
    requires d.Valid()
    ensures d.Set(k, v).Get(k) == Ok(v)
    ensures j != k ==> d.Set(k, v).Get(j) == d.Get(j)
  {
  }

  /** A popped key is gone and every other key reads as before. */
  lemma GetAfterPop<V>(d: Dict<V>, k: string, j: string)
    requires d.Valid() && k in d.entries
    ensures d.Pop(k).value.Get(k) == Err(KeyError(k))
    ensures j != k ==> d.Pop(k).value.Get(j) == d.Get(j)
  {
  }

  function Min(a: nat, b: nat): nat { if a <= b then a else b }

  /** `dict(zip(cols, vals))`: pairs up to the shorter of the two, the later
      pair winning when a column name repeats. */
  function FromZip<V>(cols: seq<string>, vals: seq<V>): (r: Dict<V>)
    ensures r.Valid()
    ensures forall k :: k in r.entries <==> k in cols[..Min(|cols|, |vals|)]
    ensures forall i :: 0 <= i < Min(|cols|, |vals|) && cols[i] !in cols[i + 1..Min(|cols|, |vals|)]
                        ==> r.entries[cols[i]] == vals[i]
    ensures Distinct(cols) ==> r.keys == cols[..Min(|cols|, |vals|)]
  {
    var n := Min(|cols|, |vals|);
    ZipPrefixEntries(cols, vals, n);
    ZipEntriesDomain(cols, vals, n);
    ZipPrefixLastWins(cols, vals, n);
    ZipPrefixKeys(cols, vals, n);
    ZipPrefix(cols, vals, n)
  }

  /** With distinct column names, every paired column holds its own value. */
  lemma FromZipAt<V>(cols: seq<string>, vals: seq<V>, i: nat)
    requires Distinct(cols) && i < |cols| && i < |vals|
    ensures cols[i] in FromZip(cols, vals).entries
    ensures FromZip(cols, vals).entries[cols[i]] == vals[i]
  {
    var n := Min(|cols|, |vals|);
    assert cols[..n][i] == cols[i];
    assert cols[i] !in cols[i + 1..n] by {
      forall j | i + 1 <= j < n
        ensures cols[j] != cols[i]
      {
      }
    }
  }

  /** The dict after the first `n` assignments `d[cols[i]] = vals[i]`. */
  function ZipPrefix<V>(cols: seq<string>, vals: seq<V>, n: nat): (r: Dict<V>)
    requires n <= |cols| && n <= |vals|
    ensures r.Valid()
    decreases n
  {
    if n == 0 then Empty()
    else
      ZipPrefix(cols, vals, n - 1).Set(cols[n - 1], vals[n - 1])
  }

  /** A column holds the value paired with its last occurrence. */
  lemma {:induction false} ZipPrefixLastWins<V>(cols: seq<string>, vals: seq<V>, n: nat)
    requires n <= |cols| && n <= |vals|
    ensures forall i :: 0 <= i < n && cols[i] !in cols[i + 1..n] ==>
              cols[i] in ZipPrefix(cols, vals, n).entries && ZipPrefix(cols, vals, n).entries[cols[i]] == vals[i]
  {
    forall i | 0 <= i < n && cols[i] !in cols[i + 1..n]
      ensures cols[i] in ZipPrefix(cols, vals, n).entries && ZipPrefix(cols, vals, n).entries[cols[i]] == vals[i]
    {
      NotLaterIndex(cols, i, n);
      ZipPrefixLastWinsAt(cols, vals, n, i);
    }
  }

  /** A name absent from the slice after it differs from every later name up
      to `n`. */
  lemma NotLaterIndex(cols: seq<string>, i: nat, n: nat)
    requires i < n <= |cols| && cols[i] !in cols[i + 1..n]
    ensures forall j :: i < j < n ==> cols[j] != cols[i]
  {
    forall j | i < j < n
      ensures cols[j] != cols[i]
    {
      assert cols[i + 1..n][j - i - 1] == cols[j];
    }
  }

  lemma {:induction false} ZipPrefixLastWinsAt<V>(cols: seq<string>, vals: seq<V>, n: nat, i: nat)
    requires i < n <= |cols| && n <= |vals|
    requires forall j :: i < j < n ==> cols[j] != cols[i]
    ensures cols[i] in ZipPrefix(cols, vals, n).entries
    ensures ZipPrefix(cols, vals, n).entries[cols[i]] == vals[i]
  {
    ZipPrefixEntries(cols, vals, n);
    ZipEntriesLastWins(cols, vals, n, i);
  }

  /** The map built by assigning the first `n` pairs in turn. */
  function ZipEntries<V>(cols: seq<string>, vals: seq<V>, n: nat): map<string, V>
    requires n <= |cols| && n <= |vals|
  {
    if n == 0 then map[] else ZipEntries(cols, vals, n - 1)[cols[n - 1] := vals[n - 1]]
  }

  lemma {:induction false} ZipPrefixEntries<V>(cols: seq<string>, vals: seq<V>, n: nat)
    requires n <= |cols| && n <= |vals|
    ensures ZipPrefix(cols, vals, n).entries == ZipEntries(cols, vals, n)
  {
    if n > 0 {
      ZipPrefixEntries(cols, vals, n - 1);
    }
  }

  lemma {:induction false} ZipEntriesDomain<V>(cols: seq<string>, vals: seq<V>, n: nat)
    requires n <= |cols| && n <= |vals|
    ensures forall k :: k in ZipEntries(cols, vals, n) <==> k in cols[..n]
  {
    if n > 0 {
      ZipEntriesDomain(cols, vals, n - 1);
      PrefixSnoc(cols, n);
    }
  }

  lemma {:induction false} ZipEntriesLastWins<V>(cols: seq<string>, vals: seq<V>, n: nat, i: nat)
    requires i < n <= |cols| && n <= |vals|
    requires forall j :: i < j < n ==> cols[j] != cols[i]
    ensures cols[i] in ZipEntries(cols, vals, n)
    ensures ZipEntries(cols, vals, n)[cols[i]] == vals[i]
  {
    if i < n - 1 {
      ZipEntriesLastWins(cols, vals, n - 1, i);
      UpdateKeeps(ZipEntries(cols, vals, n - 1), cols[n - 1], vals[n - 1], cols[i], vals[i]);
    }
  }

  /** Assigning one key leaves the value of every other key as it was. */
  lemma UpdateKeeps<V>(m: map<string, V>, k: string, v: V, j: string, w: V)
    requires j != k && j in m && m[j] == w
    ensures j in m[k := v] && m[k := v][j] == w
  {
  }

  /** With distinct column names the keys come in column order. */
  lemma {:induction false} ZipPrefixKeys<V>(cols: seq<string>, vals: seq<V>, n: nat)
    requires n <= |cols| && n <= |vals|
    ensures Distinct(cols) ==> ZipPrefix(cols, vals, n).keys == cols[..n]
    decreases n
  {
    if n > 0 && Distinct(cols) {
      ZipPrefixKeys(cols, vals, n - 1);
      DistinctPrefixLast(cols, n);
      PrefixSnoc(cols, n);
    }
  }

  /** In a list of distinct names, the last name of a prefix is not among the
      names before it. */
  lemma DistinctPrefixLast(cols: seq<string>, n: nat)
    requires Distinct(cols) && 0 < n <= |cols|
    ensures cols[n - 1] !in cols[..n - 1]
  {
  }

  /** A dict whose fields the program assigns in place, as the scripts do with
      their working copy of the code-column table. */
  class MutableDict<V> {
    var keys: seq<string>
    var entries: map<string, V>

    function Contents(): Dict<V>
      reads this
    {
      Dict(keys, entries)
    }

    ghost predicate Valid()
      reads this
    {
      Contents().Valid()
    }

    /** `d.copy()` of a dict value: a new object with the same contents. */
    constructor Copy(d: Dict<V>)
      requires d.Valid()
      ensures Valid() && Contents() == d
    {
      keys := d.keys;
      entries := d.entries;
    }

    /** `d[k] = v`. */
    method Assign(k: string, v: V)
      requires Valid()
      modifies this
      ensures Valid() && Contents() == old(Contents()).Set(k, v)
    {
      if k !in entries {
        keys := keys + [k];
      }
      entries := entries[k := v];
    }

    /** `d.pop(k)`: the value removed, or `KeyError` with nothing changed. */
    method Pop(k: string) returns (r: Result<V>)
      requires Valid()
      modifies this
      ensures Valid()
      ensures r == old(Contents()).Get(k)
      ensures r.Ok? ==> Contents() == old(Contents()).Pop(k).value
      ensures r.Err? ==> Contents() == old(Contents())
    {
      if k !in entries {
        return Err(KeyError(k));
      }
      r := Ok(entries[k]);
      keys := Without(keys, k);
      entries := entries - {k};
    }

    /** `d[k]`. */
    method Lookup(k: string) returns (r: Result<V>)
      ensures r == Contents().Get(k)
    {
      if k in entries {
        r := Ok(entries[k]);
      } else {
        r := Err(KeyError(k));
      }
    }
  }
}
