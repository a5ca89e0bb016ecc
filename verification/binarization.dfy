/**
 * The mask binariser of Inference_informative: the network's confidence buffer
 * becomes a foreground mask by comparing each value against a threshold that is
 * derived once from the `skeleton_threshold` sensitivity setting.
 * Floats are modelled as reals.
 */
module Binarization {

  /** Mathf.Clamp: `v` limited to the interval [lo, hi]. */
  function Clamp(v: real, lo: real, hi: real): real
  {
    if v < lo then lo else if v > hi then hi else v
  }

  /** Mathf.Abs. */
  function Abs(x: real): real
  {
    if x < 0.0 then -x else x
  }

  /**
   * The binarisation threshold derived from the sensitivity `s`. The absolute
   * value in the source never changes anything: the threshold is always
   * `1 - clamp(s, 0, 1)`, a value in [0, 1].
   */
  function Threshold(s: real): (t: real)
    ensures 0.0 <= t <= 1.0
    ensures t == 1.0 - Clamp(s, 0.0, 1.0)
  {
    Abs(1.0 - Clamp(s, 0.0, 1.0))
  }

  /** A higher sensitivity never gives a higher threshold. */
  lemma ThresholdAntitone(s1: real, s2: real)
    requires s1 <= s2
    ensures Threshold(s2) <= Threshold(s1)
  {
  }

  /** The mask of the first `n` values of `floats`: foreground where the value is below `t`. */
  function Binarized(floats: seq<real>, n: nat, t: real): (mask: seq<bool>)
    requires n <= |floats|
    ensures |mask| == n
    ensures forall i :: 0 <= i < n ==> (mask[i] <==> floats[i] < t)
  {
    seq(n, i requires 0 <= i < n => floats[i] < t)
  }

  /** Number of foreground pixels of a mask. */
  function Foreground(mask: seq<bool>): nat
  {
    if mask == [] then 0 else (if mask[0] then 1 else 0) + Foreground(mask[1..])
  }

  /** Raising the threshold keeps every foreground pixel in the foreground. */
  lemma BinarizedMonotone(floats: seq<real>, n: nat, t1: real, t2: real)
    requires n <= |floats|
    requires t1 <= t2
    ensures |Binarized(floats, n, t1)| == |Binarized(floats, n, t2)| == n
    ensures forall i :: 0 <= i < n && Binarized(floats, n, t1)[i] ==> Binarized(floats, n, t2)[i]
  {
  }

  /** A mask that is pointwise below another has no more foreground pixels. */
  lemma {:induction false} ForegroundMonotone(a: seq<bool>, b: seq<bool>)
    requires |a| == |b|
    requires forall i :: 0 <= i < |a| && a[i] ==> b[i]
    ensures Foreground(a) <= Foreground(b)
  {
    if a != [] {
      ForegroundMonotone(a[1..], b[1..]);
    }
  }

  /** Raising the sensitivity never adds foreground pixels. */
  lemma SensitivityMonotone(floats: seq<real>, n: nat, s1: real, s2: real)
    requires n <= |floats|
    requires s1 <= s2
    ensures Foreground(Binarized(floats, n, Threshold(s2))) <= Foreground(Binarized(floats, n, Threshold(s1)))
  {
    ThresholdAntitone(s1, s2);
    BinarizedMonotone(floats, n, Threshold(s2), Threshold(s1));
    ForegroundMonotone(Binarized(floats, n, Threshold(s2)), Binarized(floats, n, Threshold(s1)));
  }

  /** Foreground of a mask that is all one value. */
  lemma {:induction false} ForegroundUniform(mask: seq<bool>, b: bool)
    requires forall i :: 0 <= i < |mask| ==> mask[i] == b
    ensures Foreground(mask) == if b then |mask| else 0
  {
    if mask != [] {
      ForegroundUniform(mask[1..], b);
    }
  }

  /** A buffer holding one value `c` gives an all-foreground mask if `c < t`, an all-background one otherwise. */
  lemma BinarizedUniform(floats: seq<real>, n: nat, c: real, t: real)
    requires n <= |floats|
    requires forall i :: 0 <= i < n ==> floats[i] == c
    ensures Foreground(Binarized(floats, n, t)) == if c < t then n else 0
  {
    ForegroundUniform(Binarized(floats, n, t), c < t);
  }

  /** A 4 x 4 buffer at sensitivity 0.5: the four low values in the middle-left block are foreground. */
  lemma BinarizedExample()
    ensures Threshold(0.5) == 0.5
    ensures Binarized([0.9, 0.9, 0.9, 0.9, 0.1, 0.1, 0.9, 0.9, 0.1, 0.1, 0.9, 0.9, 0.9, 0.9, 0.9, 0.9], 16, Threshold(0.5))
         == [false, false, false, false, true, true, false, false, true, true, false, false, false, false, false, false]
  {
  }
}
