/**
 * Regrouping facts about sequence concatenation and slicing. The solver
 * finds each of them on its own; stated once here, they keep the larger
 * proofs about descriptions and batches small.
 */
module Seqs {
  /** Concatenation is associative. */
  lemma Associate<T>(a: seq<T>, b: seq<T>, c: seq<T>)
    ensures a + (b + c) == (a + b) + c
  {
  }

  lemma Regroup<T>(a: seq<T>, b: seq<T>, c: seq<T>, d: seq<T>)
    ensures a + (b + c) + d == (a + b) + (c + d)
  {
  }

  /** A sequence is its prefix followed by the matching suffix. */
  lemma Rejoin<T>(s: seq<T>, n: nat)
    requires n <= |s|
    ensures s[..n] + s[n..] == s
  {
  }

  /** The pieces of a five-part concatenation are found again by slicing. */
  lemma FramedPieces<T>(p: seq<T>, a: seq<T>, m: seq<T>, b: seq<T>, q: seq<T>)
    ensures (p + a + m + b + q)[..|p|] == p
    ensures (p + a + m + b + q)[|p| + |a|..|p| + |a| + |m|] == m
    ensures (p + a + m + b + q)[|p| + |a| + |m| + |b|..] == q
  {
  }

  /** A six-part concatenation regrouped around its two `d` pieces. */
  lemma AssembleShape<T>(b: seq<T>, x: seq<T>, d: seq<T>, n: seq<T>, c: seq<T>, t: seq<T>)
    ensures b + (x + d + n + c + n + d) + t == (b + x) + d + (n + c + n) + d + t
  {
  }

  /** A slice of a suffix is a slice of the whole sequence, shifted. */
  lemma SliceOfSuffix<T>(s: seq<T>, n: nat, lo: nat, hi: nat)
    requires n <= |s| && lo <= hi <= |s| - n
    ensures s[n..][lo..hi] == s[n + lo..n + hi]
  {
  }
}
