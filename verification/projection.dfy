/**
 * The world projector of Inference_informative: every pixel of a traced chain is
 * cast into the scene; misses are dropped, and chains left too short are discarded.
 * The screen-coordinate scaling and Physics.Raycast are one abstract function
 * `raycast` from a pixel to an optional hit point. A miss is reported as the zero
 * vector, and a point is dropped when `isZero` holds of it: Unity's
 * `point == Vector3.zero`, which is a tolerance test, not exact equality.
 */
module Projection {
  import opened Wrappers

  /** A pixel of the traced mask (the `int[2]` of a trace). */
  datatype Pixel = Pixel(x: int, y: int)

  /** FindWorldSpaceCoords: the hit point, or the zero vector when the ray hit nothing. */
  function FindWorldSpaceCoords<P>(hit: Option<P>, zero: P): (p: P)
    ensures hit.None? ==> p == zero
    ensures hit.Some? ==> p == hit.value
  {
    match hit
    case Some(p) => p
    case None => zero
  }

  /** The world points of a chain, in pixel order, leaving out every result that counts as the zero vector. */
  function Projected<P>(chain: seq<Pixel>, raycast: Pixel -> Option<P>, zero: P, isZero: P -> bool): (points: seq<P>)
    ensures |points| <= |chain|
    ensures forall k :: 0 <= k < |points| ==> !isZero(points[k])
  {
    if chain == [] then []
    else
      var p := FindWorldSpaceCoords(raycast(chain[|chain| - 1]), zero);
      Projected(chain[..|chain| - 1], raycast, zero, isZero) + (if !isZero(p) then [p] else [])
  }

  /** Projecting a chain piece by piece gives the same points in the same order. */
  lemma {:induction false} ProjectedAppend<P>(a: seq<Pixel>, b: seq<Pixel>, raycast: Pixel -> Option<P>, zero: P, isZero: P -> bool)
    ensures Projected(a + b, raycast, zero, isZero) == Projected(a, raycast, zero, isZero) + Projected(b, raycast, zero, isZero)
    decreases |b|
  {
    if b == [] {
      assert a + b == a;
    } else {
      var b' := b[..|b| - 1];
      assert (a + b)[..|a + b| - 1] == a + b';
      assert (a + b)[|a + b| - 1] == b[|b| - 1];
      ProjectedAppend(a, b', raycast, zero, isZero);
    }
  }

  /**
   * A single pixel gives its hit point, unless it missed or its hit counts as the
   * zero vector (so a genuine hit at, or within tolerance of, the origin is lost).
   */
  lemma ProjectedPixel<P>(px: Pixel, raycast: Pixel -> Option<P>, zero: P, isZero: P -> bool)
    requires isZero(zero)
    ensures raycast(px).None? ==> Projected([px], raycast, zero, isZero) == []
    ensures raycast(px).Some? && isZero(raycast(px).value) ==> Projected([px], raycast, zero, isZero) == []
    ensures raycast(px).Some? && !isZero(raycast(px).value) ==> Projected([px], raycast, zero, isZero) == [raycast(px).value]
  {
    assert [px][..0] == [];
  }

  /** A point is projected exactly when some pixel of the chain hit it and it does not count as the zero vector. */
  lemma {:induction false} ProjectedMembers<P>(chain: seq<Pixel>, raycast: Pixel -> Option<P>, zero: P, isZero: P -> bool, p: P)
    requires isZero(zero)
    ensures p in Projected(chain, raycast, zero, isZero) <==>
      !isZero(p) && exists j :: 0 <= j < |chain| && raycast(chain[j]) == Some(p)
  {
    if chain != [] {
      var init := chain[..|chain| - 1];
      var px := chain[|chain| - 1];
      ProjectedMembers(init, raycast, zero, isZero, p);
      if !isZero(p) && (exists j :: 0 <= j < |chain| && raycast(chain[j]) == Some(p)) {
        var j :| 0 <= j < |chain| && raycast(chain[j]) == Some(p);
        if j < |chain| - 1 {
          assert init[j] == chain[j];
        }
      }
      if exists j :: 0 <= j < |init| && raycast(init[j]) == Some(p) {
        var j :| 0 <= j < |init| && raycast(init[j]) == Some(p);
        assert chain[j] == init[j];
      }
    }
  }

  /** When every pixel hits somewhere that does not count as the zero vector, no point is dropped or moved. */
  lemma {:induction false} ProjectedAllHit<P>(chain: seq<Pixel>, raycast: Pixel -> Option<P>, zero: P, isZero: P -> bool)
    requires forall j :: 0 <= j < |chain| ==> raycast(chain[j]).Some? && !isZero(raycast(chain[j]).value)
    ensures |Projected(chain, raycast, zero, isZero)| == |chain|
    ensures forall j :: 0 <= j < |chain| ==> Projected(chain, raycast, zero, isZero)[j] == raycast(chain[j]).value
  {
    if chain != [] {
      var init := chain[..|chain| - 1];
      ProjectedAllHit(init, raycast, zero, isZero);
      var points := Projected(chain, raycast, zero, isZero);
      assert points == Projected(init, raycast, zero, isZero) + [raycast(chain[|chain| - 1]).value];
      forall j | 0 <= j < |chain|
        ensures points[j] == raycast(chain[j]).value
      {
        if j < |chain| - 1 {
          assert init[j] == chain[j];
        }
      }
    }
  }

  /** The projected chains that have at least `minPoints` points, in chain order. */
  function KeptStrokes<P>(chains: seq<seq<Pixel>>, raycast: Pixel -> Option<P>, zero: P, isZero: P -> bool, minPoints: int): (strokes: seq<seq<P>>)
    ensures |strokes| <= |chains|
    ensures forall k :: 0 <= k < |strokes| ==> |strokes[k]| >= minPoints
  {
    if chains == [] then []
    else
      var points := Projected(chains[|chains| - 1], raycast, zero, isZero);
      KeptStrokes(chains[..|chains| - 1], raycast, zero, isZero, minPoints) + (if |points| >= minPoints then [points] else [])
  }

  /** A chain is kept, as its projection, exactly when that projection has at least `minPoints` points. */
  lemma KeptChain<P>(chain: seq<Pixel>, raycast: Pixel -> Option<P>, zero: P, isZero: P -> bool, minPoints: int)
    ensures |Projected(chain, raycast, zero, isZero)| >= minPoints ==>
      KeptStrokes([chain], raycast, zero, isZero, minPoints) == [Projected(chain, raycast, zero, isZero)]
    ensures |Projected(chain, raycast, zero, isZero)| < minPoints ==>
      KeptStrokes([chain], raycast, zero, isZero, minPoints) == []
  {
    assert [chain][..0] == [];
  }

  /** Kept chains keep their input order. */
  lemma {:induction false} KeptStrokesAppend<P>(a: seq<seq<Pixel>>, b: seq<seq<Pixel>>, raycast: Pixel -> Option<P>, zero: P, isZero: P -> bool, minPoints: int)
    ensures KeptStrokes(a + b, raycast, zero, isZero, minPoints) ==
      KeptStrokes(a, raycast, zero, isZero, minPoints) + KeptStrokes(b, raycast, zero, isZero, minPoints)
    decreases |b|
  {
    if b == [] {
      assert a + b == a;
    } else {
      var b' := b[..|b| - 1];
      assert (a + b)[..|a + b| - 1] == a + b';
      assert (a + b)[|a + b| - 1] == b[|b| - 1];
      KeptStrokesAppend(a, b', raycast, zero, isZero, minPoints);
    }
  }

  /** Every kept stroke is the projection of one of the input chains. */
  lemma {:induction false} KeptStrokesOrigin<P>(chains: seq<seq<Pixel>>, raycast: Pixel -> Option<P>, zero: P, isZero: P -> bool, minPoints: int)
    ensures forall k :: 0 <= k < |KeptStrokes(chains, raycast, zero, isZero, minPoints)| ==>
      exists j :: 0 <= j < |chains| && KeptStrokes(chains, raycast, zero, isZero, minPoints)[k] == Projected(chains[j], raycast, zero, isZero)
  {
    if chains != [] {
      var init := chains[..|chains| - 1];
      KeptStrokesOrigin(init, raycast, zero, isZero, minPoints);
      var strokes := KeptStrokes(chains, raycast, zero, isZero, minPoints);
      var before := KeptStrokes(init, raycast, zero, isZero, minPoints);
      forall k | 0 <= k < |strokes|
        ensures exists j :: 0 <= j < |chains| && strokes[k] == Projected(chains[j], raycast, zero, isZero)
      {
        if k < |before| {
          var j :| 0 <= j < |init| && before[k] == Projected(init[j], raycast, zero, isZero);
          assert strokes[k] == before[k];
          assert chains[j] == init[j];
        } else {
          var last := |chains| - 1;
          assert strokes == before + [Projected(chains[last], raycast, zero, isZero)];
          assert strokes[k] == Projected(chains[last], raycast, zero, isZero);
        }
      }
    } else {
      assert |KeptStrokes(chains, raycast, zero, isZero, minPoints)| == 0;
    }
  }

  /** Unity's Vector3, with real coordinates. */
  datatype Vector3 = Vector3(x: real, y: real, z: real)

  /**
   * Unity's `v == Vector3.zero`: the squared distance to the origin is below
   * 9.99999944e-11, that is, the distance is below about 1e-5.
   */
  predicate UnityIsZero(v: Vector3)
  {
    v.x * v.x + v.y * v.y + v.z * v.z < 0.0000000000999999944
  }

  /** A hit 3e-6 from the origin is dropped like a miss. */
  lemma NearOriginHitDropped(px: Pixel)
    ensures UnityIsZero(Vector3(0.0, 0.0, 0.0))
    ensures Projected([px], _ => Some(Vector3(0.000003, 0.0, 0.0)), Vector3(0.0, 0.0, 0.0), UnityIsZero) == []
  {
    assert [px][..0] == [];
  }
}
