/** Facts about slicing a sequence. They are stated apart from the functions
    that recurse over prefixes, so that proving them does not unfold those
    functions. */
module Seqs {

  /** The prefix one longer is the prefix followed by the next element, and
      together with the rest it is the whole sequence. */
  lemma SliceSnoc<T>(s: seq<T>, i: nat)
    requires i < |s|
    ensures s[..i + 1] == s[..i] + [s[i]]
    ensures s[..i + 1][..i] == s[..i]
    ensures s[..i + 1] + s[i + 1..] == s
  {
  }

  /** Cutting a sequence around position `i`. */
  lemma SplitAt<T>(s: seq<T>, i: nat)
    requires i < |s|
    ensures s[..i] + [s[i]] + s[i + 1..] == s
  {
  }

  /** A non-empty prefix is the shorter prefix and its last element. */
  lemma PrefixSnoc<T>(s: seq<T>, n: nat)
    requires 0 < n <= |s|
    ensures s[..n] == s[..n - 1] + [s[n - 1]]
  {
  }

  /** A slice `s[i..n]` grows by its last element. */
  lemma WindowSnoc<T>(s: seq<T>, i: nat, n: nat)
    requires i < n <= |s|
    ensures s[i..n] == s[i..n - 1] + [s[n - 1]]
  {
  }

  /** An element before position `n` is in the prefix of length `n`. */
  lemma InPrefix<T>(s: seq<T>, n: nat, i: nat)
    requires i < n <= |s|
    ensures s[i] in s[..n]
  {
    assert s[..n][i] == s[i];
  }

  /** The prefix of full length is the sequence. */
  lemma PrefixFull<T>(s: seq<T>)
    ensures s[..|s|] == s
  {
  }
}
