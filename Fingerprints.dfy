/**
 * The perceptual fingerprint of a card image and the distance that compares two of them.
 *
 * A fingerprint is the 8x8 boolean matrix of a pHash, flattened row by row into 64 bits.
 * Subtracting two hashes counts the positions at which they differ: their Hamming distance.
 */
module Fingerprints {

  /** Number of bits in a fingerprint (an 8x8 hash). */
  const HashBits: nat := 64

  /** A 64-bit fingerprint; bit 0 is the first cell of the flattened matrix. */
  type Fingerprint = b: seq<bool> | |b| == HashBits witness seq(64, _ => false)

  /** Number of positions at which two bit strings of equal length differ. */
  function Hamming(a: seq<bool>, b: seq<bool>): (d: nat)
    requires |a| == |b|
    ensures d <= |a|
    decreases |a|
  {
    if |a| == 0 then 0
    else Hamming(a[..|a| - 1], b[..|b| - 1]) + (if a[|a| - 1] != b[|b| - 1] then 1 else 0)
  }

  /** The positions at which `a` and `b` differ. */
  function DiffPositions(a: seq<bool>, b: seq<bool>): set<nat>
    requires |a| == |b|
  {
    set i: nat | i < |a| && a[i] != b[i]
  }

  /** The distance is the number of differing positions, counted one by one. */
  lemma {:induction false} HammingCountsDifferences(a: seq<bool>, b: seq<bool>)
    requires |a| == |b|
    ensures Hamming(a, b) == |DiffPositions(a, b)|
    decreases |a|
  {
    if |a| > 0 {
      var n := |a| - 1;
      HammingCountsDifferences(a[..n], b[..n]);
      var before := DiffPositions(a[..n], b[..n]);
      assert before == set i: nat | i < n && a[i] != b[i];
      if a[n] != b[n] {
        assert DiffPositions(a, b) == before + {n};
        assert n !in before;
      } else {
        assert DiffPositions(a, b) == before;
      }
    }
  }

  /** Comparing `a` with `b` or `b` with `a` gives the same distance. */
  lemma {:induction false} HammingSymmetric(a: seq<bool>, b: seq<bool>)
    requires |a| == |b|
    ensures Hamming(a, b) == Hamming(b, a)
    decreases |a|
  {
    if |a| > 0 {
      HammingSymmetric(a[..|a| - 1], b[..|b| - 1]);
    }
  }

  /** The distance is zero exactly when the two bit strings are equal bit for bit. */
  lemma {:induction false} HammingZeroIffEqual(a: seq<bool>, b: seq<bool>)
    requires |a| == |b|
    ensures Hamming(a, b) == 0 <==> a == b
    decreases |a|
  {
    if |a| > 0 {
      var n := |a| - 1;
      HammingZeroIffEqual(a[..n], b[..n]);
      assert a == a[..n] + [a[n]];
      assert b == b[..n] + [b[n]];
    }
  }

  /** The distance obeys the triangle inequality, so together with the two lemmas above it is a metric. */
  lemma {:induction false} HammingTriangle(a: seq<bool>, b: seq<bool>, c: seq<bool>)
    requires |a| == |b| == |c|
    ensures Hamming(a, c) <= Hamming(a, b) + Hamming(b, c)
    decreases |a|
  {
    if |a| > 0 {
      var n := |a| - 1;
      HammingTriangle(a[..n], b[..n], c[..n]);
    }
  }
}
