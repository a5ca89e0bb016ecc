/**
 * The Inference_informative component: on a key press it binarises the network's
 * confidence buffer, traces the mask into pixel chains, projects the chains into
 * the scene, cuts them at distance jumps and hands the pieces to the stroke
 * consumer. A `ready` flag keeps a second run from starting during a run.
 */
module InferenceInformative {
  import opened Wrappers
  import opened Binarization
  import opened Projection
  import opened Segmentation

  /**
   * What one run needs from outside: the thinning and tracing library (with its
   * fixed `trace_c` setting), the screen scaling followed by the physics raycast,
   * the zero vector that the raycast wrapper returns on a miss, Unity's
   * comparison with the zero vector (a tolerance test), and the point distance.
   */
  datatype Scene<!P> = Scene(
    trace: (seq<bool>, nat, nat) -> seq<seq<Pixel>>,
    raycast: Pixel -> Option<P>,
    zero: P,
    isZero: P -> bool,
    dist: (P, P) -> real)

  /** The exceptions that end a run early. */
  datatype Fault =
    | ShortBuffer  // the confidence buffer has fewer than width * height values
    | EmptyStroke  // a kept stroke has no point (possible only when minPoints <= 0)

  /**
   * What a run produces: the strokes handed to the stroke consumer, in order, or
   * the exception that ended it before any stroke was handed over.
   */
  ghost function Run<P>(floats: seq<real>, width: nat, height: nat, threshold: real,
                            minPoints: int, distanceThreshold: real, scene: Scene<P>): (r: Result<seq<seq<P>>, Fault>)
    ensures r == Failure(ShortBuffer) <==> |floats| < width * height
    ensures r == Failure(EmptyStroke) ==> minPoints <= 0
  {
    if |floats| < width * height then Failure(ShortBuffer)
    else
      var chains := scene.trace(Binarized(floats, width * height, threshold), width, height);
      var strokes := KeptStrokes(chains, scene.raycast, scene.zero, scene.isZero, minPoints);
      if !AllNonEmpty(strokes) then Failure(EmptyStroke)
      else Success(SeparatedAll(strokes, distanceThreshold, scene.dist))
  }

  /**
   * A completed run hands over every projected point of every kept chain exactly
   * once and in order, as non-empty smooth segments with no point that counts as
   * the zero vector;
   * it completes whenever the buffer is large enough and minPoints >= 1.
   */
  lemma RunEmits<P>(floats: seq<real>, width: nat, height: nat, threshold: real,
                    minPoints: int, distanceThreshold: real, scene: Scene<P>)
    requires width * height <= |floats|
    requires minPoints >= 1
    ensures Run(floats, width, height, threshold, minPoints, distanceThreshold, scene).Success?
    ensures var segs := Run(floats, width, height, threshold, minPoints, distanceThreshold, scene).value;
      && Flatten(segs) == Flatten(KeptStrokes(scene.trace(Binarized(floats, width * height, threshold), width, height),
                                              scene.raycast, scene.zero, scene.isZero, minPoints))
      && (forall k :: 0 <= k < |segs| ==> segs[k] != [] && Smooth(segs[k], distanceThreshold, scene.dist))
      && (forall k, i :: 0 <= k < |segs| && 0 <= i < |segs[k]| ==> !scene.isZero(segs[k][i]))
  {
    var chains := scene.trace(Binarized(floats, width * height, threshold), width, height);
    var strokes := KeptStrokes(chains, scene.raycast, scene.zero, scene.isZero, minPoints);
    SeparatedAllSplits(strokes, distanceThreshold, scene.dist);
    KeptStrokesOrigin(chains, scene.raycast, scene.zero, scene.isZero, minPoints);
    var segs := SeparatedAll(strokes, distanceThreshold, scene.dist);
    forall k, i | 0 <= k < |segs| && 0 <= i < |segs[k]|
      ensures !scene.isZero(segs[k][i])
    {
      FlattenHolds(segs, k, i);
      FlattenNoZero(strokes, scene);
    }
  }

  /** Each element of a member list occurs in the concatenation. */
  lemma {:induction false} FlattenHolds<T>(ss: seq<seq<T>>, k: nat, i: nat)
    requires k < |ss| && i < |ss[k]|
    ensures ss[k][i] in Flatten(ss)
  {
    if k > 0 {
      FlattenHolds(ss[1..], k - 1, i);
    }
  }

  /** The strokes of a run hold no zero vector, so neither does their concatenation. */
  lemma {:induction false} FlattenNoZero<P>(strokes: seq<seq<P>>, scene: Scene<P>)
    requires forall k :: 0 <= k < |strokes| ==> forall i :: 0 <= i < |strokes[k]| ==> !scene.isZero(strokes[k][i])
    ensures forall p :: p in Flatten(strokes) ==> !scene.isZero(p)
  {
    if strokes != [] {
      FlattenNoZero(strokes[1..], scene);
    }
  }

  /**
   * The component's state: the inspector settings it uses, the derived
   * threshold and the re-entrancy flag.
   */
  class Inference {
    var skeletonThreshold: real
    var minPoints: int
    var distanceThreshold: real
    var thresholdBoolOutput: real
    var ready: bool

    /** Field initialisers: ready starts true, the derived threshold at its default 0. */
    constructor (skeletonThreshold: real, minPoints: int, distanceThreshold: real)
      ensures this.skeletonThreshold == skeletonThreshold
      ensures this.minPoints == minPoints
      ensures this.distanceThreshold == distanceThreshold
      ensures thresholdBoolOutput == 0.0
      ensures ready
    {
      this.skeletonThreshold := skeletonThreshold;
      this.minPoints := minPoints;
      this.distanceThreshold := distanceThreshold;
      thresholdBoolOutput := 0.0;
      ready := true;
    }

    /** Start: derives the binarisation threshold from the sensitivity setting. */
    method Start()
      modifies this`thresholdBoolOutput
      ensures thresholdBoolOutput == Threshold(skeletonThreshold)
      ensures 0.0 <= thresholdBoolOutput <= 1.0
    {
      thresholdBoolOutput := Abs(1.0 - Clamp(skeletonThreshold, 0.0, 1.0));
    }

    /**
     * The mask of a width x height frame: entry i is foreground exactly when
     * floats[i] is below the derived threshold. Reads floats[0 .. width * height)
     * without a bounds check of its own.
     */
    method SetBoolsFromFloats(floats: array<real>, width: nat, height: nat) returns (mask: array<bool>)
      requires width * height <= floats.Length
      ensures fresh(mask)
      ensures mask.Length == width * height
      ensures forall i :: 0 <= i < width * height ==> mask[i] == (floats[i] < thresholdBoolOutput)
    {
      mask := new bool[width * height];
      var i := 0;
      while i < width * height
        invariant 0 <= i <= width * height
        invariant forall j :: 0 <= j < i ==> mask[j] == (floats[j] < thresholdBoolOutput)
      {
        mask[i] := floats[i] < thresholdBoolOutput;
        i := i + 1;
      }
    }

    /** The inner projection loop of DoInference: the world points of one traced chain. */
    method ProjectTrace<P>(chain: seq<Pixel>, scene: Scene<P>) returns (points: seq<P>)
      ensures points == Projected(chain, scene.raycast, scene.zero, scene.isZero)
    {
      points := [];
      var j := 0;
      while j < |chain|
        invariant 0 <= j <= |chain|
        invariant points == Projected(chain[..j], scene.raycast, scene.zero, scene.isZero)
      {
        var point3D := FindWorldSpaceCoords(scene.raycast(chain[j]), scene.zero);
        if !scene.isZero(point3D) {
          points := points + [point3D];
        }
        assert chain[..j + 1][..j] == chain[..j];
        j := j + 1;
      }
      assert chain[..|chain|] == chain;
    }

    /**
     * Cuts a non-empty point list wherever two consecutive points are more than
     * `threshold` apart; the result is the segmentation Separated describes.
     */
    method SeparatePointsByDistance<P>(pointList: seq<P>, threshold: real, dist: (P, P) -> real)
      returns (separated: seq<seq<P>>)
      requires |pointList| > 0
      ensures separated == Separated(pointList, threshold, dist)
    {
      separated := [];
      var currentList: seq<P> := [];
      var i := 0;
      GlueEmpty(Separated(pointList, threshold, dist));
      while i < |pointList| - 1
        invariant 0 <= i <= |pointList| - 1
        invariant separated + Glue(currentList, Separated(pointList[i..], threshold, dist)) == Separated(pointList, threshold, dist)
      {
        ghost var here := Separated(pointList[i..], threshold, dist);
        ghost var rest := Separated(pointList[i + 1..], threshold, dist);
        assert pointList[i..][1..] == pointList[i + 1..];
        assert pointList[i..][0] == pointList[i] && pointList[i..][1] == pointList[i + 1];
        ghost var before := currentList;
        currentList := currentList + [pointList[i]];
        if dist(pointList[i], pointList[i + 1]) > threshold {
          assert here == [[pointList[i]]] + rest;
          assert Glue(before, here) == [currentList] + rest;
          separated := separated + [currentList];
          currentList := [];
          GlueEmpty(rest);
        } else {
          assert here == [[pointList[i]] + rest[0]] + rest[1..];
          assert before + ([pointList[i]] + rest[0]) == currentList + rest[0];
          assert Glue(before, here) == Glue(currentList, rest);
        }
        i := i + 1;
      }
      assert pointList[i..] == [pointList[|pointList| - 1]];
      currentList := currentList + [pointList[|pointList| - 1]];
      separated := separated + [currentList];
    }

    /**
     * The projection loop of DoInference: every traced chain is projected, and
     * the projections with at least minPoints points are kept, in chain order.
     */
    method ProjectTraces<P>(traceOutput: seq<seq<Pixel>>, scene: Scene<P>) returns (originalStrokes: seq<seq<P>>)
      ensures originalStrokes == KeptStrokes(traceOutput, scene.raycast, scene.zero, scene.isZero, minPoints)
    {
      originalStrokes := [];
      var i := 0;
      while i < |traceOutput|
        invariant 0 <= i <= |traceOutput|
        invariant originalStrokes == KeptStrokes(traceOutput[..i], scene.raycast, scene.zero, scene.isZero, minPoints)
      {
        var points := ProjectTrace(traceOutput[i], scene);
        if |points| >= minPoints {
          originalStrokes := originalStrokes + [points];
        }
        assert traceOutput[..i + 1][..i] == traceOutput[..i];
        i := i + 1;
      }
      assert traceOutput[..|traceOutput|] == traceOutput;
    }

    /**
     * The segmentation loop of DoInference: the pieces of every stroke, stroke
     * after stroke; an empty stroke raises the exception of
     * SeparatePointsByDistance.
     */
    method SeparateStrokes<P>(originalStrokes: seq<seq<P>>, dist: (P, P) -> real)
      returns (outcome: Result<seq<seq<P>>, Fault>)
      ensures outcome.Failure? <==> !AllNonEmpty(originalStrokes)
      ensures outcome.Failure? ==> outcome.error == EmptyStroke
      ensures outcome.Success? ==> outcome.value == SeparatedAll(originalStrokes, distanceThreshold, dist)
    {
      var separatedStrokes: seq<seq<P>> := [];
      var i := 0;
      while i < |originalStrokes|
        invariant 0 <= i <= |originalStrokes|
        invariant AllNonEmpty(originalStrokes[..i])
        invariant separatedStrokes == SeparatedAll(originalStrokes[..i], distanceThreshold, dist)
      {
        if originalStrokes[i] == [] {
          // pointList[pointList.Count - 1] on an empty list
          return Failure(EmptyStroke);
        }
        var separatedTempList := SeparatePointsByDistance(originalStrokes[i], distanceThreshold, dist);
        var j := 0;
        while j < |separatedTempList|
          invariant 0 <= j <= |separatedTempList|
          invariant separatedStrokes == SeparatedAll(originalStrokes[..i], distanceThreshold, dist) + separatedTempList[..j]
        {
          separatedStrokes := separatedStrokes + [separatedTempList[j]];
          j := j + 1;
        }
        assert originalStrokes[..i + 1][..i] == originalStrokes[..i];
        assert separatedTempList[..j] == separatedTempList;
        i := i + 1;
      }
      assert originalStrokes[..i] == originalStrokes;
      outcome := Success(separatedStrokes);
    }

    /**
     * One run of the pipeline. `ready` is cleared on entry and set again only when
     * the run completes; an exception leaves it cleared.
     */
    method DoInference<P>(floats: array<real>, width: nat, height: nat, scene: Scene<P>)
      returns (outcome: Result<seq<seq<P>>, Fault>)
      modifies this`ready
      ensures outcome == Run(floats[..], width, height, thresholdBoolOutput, minPoints, distanceThreshold, scene)
      ensures ready == outcome.Success?
    {
      ready := false;
      if floats.Length < width * height {
        // SetBoolsFromFloats reads past the end of the buffer
        return Failure(ShortBuffer);
      }
      var outputBools := SetBoolsFromFloats(floats, width, height);
      assert outputBools[..] == Binarized(floats[..], width * height, thresholdBoolOutput);
      var traceOutput := scene.trace(outputBools[..], width, height);
      var originalStrokes := ProjectTraces(traceOutput, scene);
      outcome := SeparateStrokes(originalStrokes, scene.dist);
      if outcome.Success? {
        ready := true;
      }
    }

    /**
     * One frame: a run starts only when the key is pressed and `ready` is set;
     * otherwise nothing is emitted and nothing changes. `emitted` is what the
     * stroke consumer receives in this frame.
     */
    method Update<P>(keyDown: bool, floats: array<real>, width: nat, height: nat, scene: Scene<P>)
      returns (emitted: seq<seq<P>>)
      modifies this`ready
      ensures !(keyDown && old(ready)) ==> emitted == [] && ready == old(ready)
      ensures keyDown && old(ready) ==>
        var outcome := Run(floats[..], width, height, thresholdBoolOutput, minPoints, distanceThreshold, scene);
        && ready == outcome.Success?
        && emitted == (if outcome.Success? then outcome.value else [])
    {
      emitted := [];
      if keyDown && ready {
        var outcome := DoInference(floats, width, height, scene);
        if outcome.Success? {
          emitted := outcome.value;
        }
      }
    }
  }
}
