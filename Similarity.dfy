/**
 * The similarity gate: two perceptual fingerprints are "the same scene" when
 * they differ in fewer than HashThreshold of their 64 bits.
 */
module Similarity {
  import opened Wrappers

  /** An average hash is an 8x8 grid of booleans, one per cell. */
  const HashBits: nat := 64

  /** Distances strictly below this count as similar (server.py's HASH_THRESHOLD). */
  const HashThreshold: nat := 5

  type Fingerprint = s: seq<bool> | |s| == HashBits witness seq(64, _ => false)

  /** Number of positions at which two equally long bit patterns differ. */
  function Hamming(a: seq<bool>, b: seq<bool>): (d: nat)
    requires |a| == |b|
    ensures d <= |a|
    ensures d == 0 <==> a == b
  {
    if a == [] then 0
    else
      assert a == [a[0]] + a[1..] && b == [b[0]] + b[1..];
      (if a[0] != b[0] then 1 else 0) + Hamming(a[1..], b[1..])
  }

  /** The gate: false when either fingerprint is absent, else distance below the threshold. */
  predicate ImagesAreSimilar(h1: Option<Fingerprint>, h2: Option<Fingerprint>)
  {
    match (h1, h2)
    case (Some(a), Some(b)) => Hamming(a, b) < HashThreshold
    case _ => false
  }

  lemma {:induction false} HammingSymmetric(a: seq<bool>, b: seq<bool>)
    requires |a| == |b|
    ensures Hamming(a, b) == Hamming(b, a)
  {
    if a != [] {
      HammingSymmetric(a[1..], b[1..]);
    }
  }

  /** The gate is total and says exactly: both present, distance below 5. */
  lemma SimilarIff(h1: Option<Fingerprint>, h2: Option<Fingerprint>)
    ensures ImagesAreSimilar(h1, h2) <==>
            h1.Some? && h2.Some? && Hamming(h1.value, h2.value) < 5
  {
  }

  /** An absent fingerprint (an undecodable image) is similar to nothing. */
  lemma AbsentNeverSimilar(h: Option<Fingerprint>)
    ensures !ImagesAreSimilar(None, h) && !ImagesAreSimilar(h, None)
  {
  }

  lemma SimilarSymmetric(h1: Option<Fingerprint>, h2: Option<Fingerprint>)
    ensures ImagesAreSimilar(h1, h2) == ImagesAreSimilar(h2, h1)
  {
    if h1.Some? && h2.Some? {
      HammingSymmetric(h1.value, h2.value);
    }
  }

  lemma SimilarReflexive(h: Fingerprint)
    ensures Hamming(h, h) == 0
    ensures ImagesAreSimilar(Some(h), Some(h))
  {
  }

  /** h with its first k bits inverted: a fingerprint at a known distance from h. */
  function FlipFirst(h: seq<bool>, k: nat): (r: seq<bool>)
    requires k <= |h|
    ensures |r| == |h|
    ensures r[k..] == h[k..]
    ensures forall i :: 0 <= i < k ==> r[i] == !h[i]
  {
    if k == 0 then h else [!h[0]] + FlipFirst(h[1..], k - 1)
  }

  /** Flipping the first i and the first j bits of h gives patterns |i - j| apart. */
  lemma {:induction false} HammingFlipFirst(h: seq<bool>, i: nat, j: nat)
    requires i <= |h| && j <= |h|
    ensures Hamming(FlipFirst(h, i), FlipFirst(h, j)) == if i <= j then j - i else i - j
  {
    if i == 0 && j == 0 {
    } else {
      var a, b := FlipFirst(h, i), FlipFirst(h, j);
      var a', b' := FlipFirst(h[1..], if i == 0 then 0 else i - 1), FlipFirst(h[1..], if j == 0 then 0 else j - 1);
      assert a[1..] == a' && b[1..] == b';
      assert a[0] == ((i > 0) != h[0]) && b[0] == ((j > 0) != h[0]);
      HammingFlipFirst(h[1..], if i == 0 then 0 else i - 1, if j == 0 then 0 else j - 1);
      assert Hamming(a, b) == (if a[0] != b[0] then 1 else 0) + Hamming(a', b');
    }
  }

  /**
   * The threshold is strict: every fingerprint has a neighbour at distance 4,
   * which passes the gate, and one at distance 5, which does not.
   */
  lemma ThresholdBoundary(h: Fingerprint)
    ensures Hamming(h, FlipFirst(h, 4)) == 4 && ImagesAreSimilar(Some(h), Some(FlipFirst(h, 4)))
    ensures Hamming(h, FlipFirst(h, 5)) == 5 && !ImagesAreSimilar(Some(h), Some(FlipFirst(h, 5)))
  {
    HammingFlipFirst(h, 0, 4);
    HammingFlipFirst(h, 0, 5);
  }

  /** Similarity is not transitive: h ~ b and b ~ c, yet h and c are 6 bits apart. */
  lemma SimilarityNotTransitive(h: Fingerprint)
    ensures ImagesAreSimilar(Some(h), Some(FlipFirst(h, 3)))
    ensures ImagesAreSimilar(Some(FlipFirst(h, 3)), Some(FlipFirst(h, 6)))
    ensures !ImagesAreSimilar(Some(h), Some(FlipFirst(h, 6)))
  {
    HammingFlipFirst(h, 0, 3);
    HammingFlipFirst(h, 3, 6);
    HammingFlipFirst(h, 0, 6);
  }
}
