/**
 * The Inference_MNIST component's prediction record: the network's ten scores
 * and the digit they predict, the first index holding the largest score.
 * Floats are modelled as reals.
 */
module InferenceMnist {
  import opened Wrappers

  /** Enumerable.Max: the largest element, scanning from the front. */
  function Max(s: seq<real>): (m: real)
    requires |s| > 0
    ensures m in s
    ensures forall i :: 0 <= i < |s| ==> s[i] <= m
  {
    if |s| == 1 then s[0]
    else
      var m := Max(s[..|s| - 1]);
      if s[|s| - 1] > m then s[|s| - 1] else m
  }

  /** Array.IndexOf: the first index holding `v`, or -1 when there is none. */
  function IndexOf(s: seq<real>, v: real): (k: int)
    ensures -1 <= k < |s|
    ensures k == -1 <==> v !in s
    ensures 0 <= k ==> s[k] == v && forall j :: 0 <= j < k ==> s[j] != v
  {
    if s == [] then -1
    else if s[0] == v then 0
    else
      var k := IndexOf(s[1..], v);
      if k == -1 then -1 else k + 1
  }

  /**
   * `Array.IndexOf(s, s.Max())`: a valid index whose element is at least every
   * element, and every earlier element is strictly smaller.
   */
  function ArgMax(s: seq<real>): (k: nat)
    requires |s| > 0
    ensures k < |s|
    ensures forall i :: 0 <= i < |s| ==> s[i] <= s[k]
    ensures forall j :: 0 <= j < k ==> s[j] < s[k]
  {
    IndexOf(s, Max(s))
  }

  /** The three properties of ArgMax pick out a single index. */
  lemma ArgMaxUnique(s: seq<real>, k: nat)
    requires k < |s|
    requires forall i :: 0 <= i < |s| ==> s[i] <= s[k]
    requires forall j :: 0 <= j < k ==> s[j] < s[k]
    ensures k == ArgMax(s)
  {
  }

  /** The exception Enumerable.Max raises on an empty sequence. */
  datatype PredictionFault = NoElements

  /** The Prediction struct. */
  class Prediction {
    var predictedValue: int
    var predicted: seq<real>

    /** A default struct: no scores, predicted digit 0. */
    constructor ()
      ensures predictedValue == 0 && predicted == []
    {
      predictedValue := 0;
      predicted := [];
    }

    /**
     * SetPrediction: stores the tensor's scores unchanged, then the first index
     * of their maximum. With no scores Max raises before predictedValue is set.
     */
    method SetPrediction(scores: seq<real>) returns (outcome: Outcome<PredictionFault>)
      modifies this
      ensures predicted == scores
      ensures |scores| > 0 ==> outcome == Pass && predictedValue == ArgMax(scores)
      ensures |scores| == 0 ==> outcome == Fail(NoElements) && predictedValue == old(predictedValue)
    {
      predicted := scores;
      if |predicted| == 0 {
        return Fail(NoElements);
      }
      predictedValue := IndexOf(predicted, Max(predicted));
      outcome := Pass;
    }
  }
}
