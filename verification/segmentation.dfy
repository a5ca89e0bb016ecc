/**
 * The stroke segmenter of Inference_informative: a projected point chain is cut
 * wherever two consecutive points lie farther apart than a distance threshold.
 * Points are of an arbitrary type `P`; the distance is an abstract function.
 */
module Segmentation {

  /** Concatenation of a list of lists, in order. */
  function Flatten<T>(ss: seq<seq<T>>): seq<T>
  {
    if ss == [] then [] else ss[0] + Flatten(ss[1..])
  }

  lemma {:induction false} FlattenAppend<T>(a: seq<seq<T>>, b: seq<seq<T>>)
    ensures Flatten(a + b) == Flatten(a) + Flatten(b)
  {
    if a == [] {
      assert a + b == b;
    } else {
      assert (a + b)[1..] == a[1..] + b;
      FlattenAppend(a[1..], b);
    }
  }

  function Last<T>(s: seq<T>): T
    requires s != []
  {
    s[|s| - 1]
  }

  /** Every two neighbouring points of `seg` are at most `t` apart. */
  ghost predicate Smooth<P>(seg: seq<P>, t: real, dist: (P, P) -> real)
  {
    forall i :: 0 < i < |seg| ==> dist(seg[i - 1], seg[i]) <= t
  }

  /**
   * `segs` cuts `pts` exactly at its jumps: the pieces are non-empty, give back
   * `pts` when concatenated, are smooth inside, and every cut separates two
   * points more than `t` apart.
   */
  ghost predicate SplitsAtJumps<P>(segs: seq<seq<P>>, pts: seq<P>, t: real, dist: (P, P) -> real)
  {
    && |segs| > 0
    && Flatten(segs) == pts
    && (forall k :: 0 <= k < |segs| ==> segs[k] != [])
    && (forall k :: 0 <= k < |segs| ==> Smooth(segs[k], t, dist))
    && (forall k :: 0 < k < |segs| ==> dist(Last(segs[k - 1]), segs[k][0]) > t)
  }

  /** Number of indices i with dist(pts[i], pts[i + 1]) > t. */
  function JumpCount<P>(pts: seq<P>, t: real, dist: (P, P) -> real): nat
  {
    if |pts| < 2 then 0
    else (if dist(pts[0], pts[1]) > t then 1 else 0) + JumpCount(pts[1..], t, dist)
  }

  /**
   * Reference definition of the segmentation: the first point either opens a
   * segment of its own (a jump follows it) or is put in front of the first
   * segment of the rest.
   */
  function Separated<P>(pts: seq<P>, t: real, dist: (P, P) -> real): (segs: seq<seq<P>>)
    requires |pts| > 0
    ensures 0 < |segs| <= |pts|
    decreases |pts|
  {
    if |pts| == 1 then [pts]
    else
      var rest := Separated(pts[1..], t, dist);
      if dist(pts[0], pts[1]) > t then [[pts[0]]] + rest
      else [[pts[0]] + rest[0]] + rest[1..]
  }

  /** The open segment `current` put in front of the first of `segs`. */
  function Glue<P>(current: seq<P>, segs: seq<seq<P>>): seq<seq<P>>
    requires |segs| > 0
  {
    [current + segs[0]] + segs[1..]
  }

  lemma GlueEmpty<P>(segs: seq<seq<P>>)
    requires |segs| > 0
    ensures Glue([], segs) == segs
  {
    assert [] + segs[0] == segs[0];
  }

  lemma SeparatedSingle<P>(p: P, t: real, dist: (P, P) -> real)
    ensures Separated([p], t, dist) == [[p]]
  {
  }

  lemma {:induction false} SeparatedSplitsAtJumps<P>(pts: seq<P>, t: real, dist: (P, P) -> real)
    requires |pts| > 0
    ensures SplitsAtJumps(Separated(pts, t, dist), pts, t, dist)
    decreases |pts|
  {
    var segs := Separated(pts, t, dist);
    if |pts| == 1 {
      assert segs == [pts];
      assert Flatten(segs) == pts + Flatten([]);
    } else {
      var rest := Separated(pts[1..], t, dist);
      SeparatedSplitsAtJumps(pts[1..], t, dist);
      assert pts == [pts[0]] + pts[1..];
      if dist(pts[0], pts[1]) > t {
        SplitsAtJumpsCut(pts[0], pts[1..], rest, t, dist);
      } else {
        SplitsAtJumpsJoin(pts[0], pts[1..], rest, t, dist);
      }
    }
  }

  /** A point followed by a jump, in front of a segmentation of the rest, forms a segment of its own. */
  lemma SplitsAtJumpsCut<P>(p: P, tail: seq<P>, rest: seq<seq<P>>, t: real, dist: (P, P) -> real)
    requires SplitsAtJumps(rest, tail, t, dist)
    requires |tail| > 0 && dist(p, tail[0]) > t
    ensures SplitsAtJumps([[p]] + rest, [p] + tail, t, dist)
  {
  }

  /** A point within the threshold of the next one joins the first segment of the rest. */
  lemma SplitsAtJumpsJoin<P>(p: P, tail: seq<P>, rest: seq<seq<P>>, t: real, dist: (P, P) -> real)
    requires SplitsAtJumps(rest, tail, t, dist)
    requires |tail| > 0 && dist(p, tail[0]) <= t
    ensures SplitsAtJumps([[p] + rest[0]] + rest[1..], [p] + tail, t, dist)
  {
  }

  /** A segmentation that cuts exactly at the jumps is the one Separated computes. */
  lemma {:induction false} SplitsAtJumpsUnique<P>(segs: seq<seq<P>>, pts: seq<P>, t: real, dist: (P, P) -> real)
    requires |pts| > 0
    requires SplitsAtJumps(segs, pts, t, dist)
    ensures segs == Separated(pts, t, dist)
    decreases |pts|
  {
    if |pts| == 1 {
      FlattenLength(segs);
      assert segs[1..] == [];
      assert Flatten(segs) == segs[0] + Flatten(segs[1..]);
      assert Flatten(segs[1..]) == [];
      assert segs[0] == pts;
      assert segs == [segs[0]];
    } else if |segs[0]| == 1 {
      // the first point is a segment of its own: a jump follows it
      UniqueCut(segs, pts, t, dist);
      SplitsAtJumpsUnique(segs[1..], pts[1..], t, dist);
    } else {
      // the first segment continues past the first point: no jump there
      UniqueJoin(segs, pts, t, dist);
      SplitsAtJumpsUnique([segs[0][1..]] + segs[1..], pts[1..], t, dist);
    }
  }

  /** Concatenating n non-empty lists gives at least n elements. */
  lemma {:induction false} FlattenLength<T>(ss: seq<seq<T>>)
    requires forall k :: 0 <= k < |ss| ==> ss[k] != []
    ensures |Flatten(ss)| >= |ss|
  {
    if ss != [] {
      FlattenLength(ss[1..]);
    }
  }

  /** A first segment of one point is followed by a jump, and the other segments split the rest. */
  lemma UniqueCut<P>(segs: seq<seq<P>>, pts: seq<P>, t: real, dist: (P, P) -> real)
    requires |pts| > 1 && SplitsAtJumps(segs, pts, t, dist) && |segs[0]| == 1
    ensures segs == [[pts[0]]] + segs[1..]
    ensures dist(pts[0], pts[1]) > t
    ensures SplitsAtJumps(segs[1..], pts[1..], t, dist)
  {
    assert Flatten(segs) == segs[0] + Flatten(segs[1..]);
    assert |segs| > 1;
    assert Flatten(segs[1..]) == pts[1..];
    assert Flatten(segs[1..]) == segs[1] + Flatten(segs[2..]);
    assert segs[1][0] == pts[1];
    assert segs[0] == [pts[0]];
    var tail := segs[1..];
    forall k | 0 < k < |tail|
      ensures dist(Last(tail[k - 1]), tail[k][0]) > t
    {
      assert tail[k - 1] == segs[k] && tail[k] == segs[k + 1];
    }
    forall k | 0 <= k < |tail|
      ensures tail[k] != [] && Smooth(tail[k], t, dist)
    {
      assert tail[k] == segs[k + 1];
    }
  }

  /** A longer first segment means no jump after the first point; without it, the segments split the rest. */
  lemma UniqueJoin<P>(segs: seq<seq<P>>, pts: seq<P>, t: real, dist: (P, P) -> real)
    requires |pts| > 1 && SplitsAtJumps(segs, pts, t, dist) && |segs[0]| > 1
    ensures segs == [[pts[0]] + segs[0][1..]] + segs[1..]
    ensures dist(pts[0], pts[1]) <= t
    ensures SplitsAtJumps([segs[0][1..]] + segs[1..], pts[1..], t, dist)
  {
    assert Flatten(segs) == segs[0] + Flatten(segs[1..]);
    var head := segs[0][1..];
    var tail := [head] + segs[1..];
    assert segs[0] == [pts[0]] + head;
    assert segs[0][1] == pts[1];
    assert dist(pts[0], pts[1]) <= t by {
      assert Smooth(segs[0], t, dist);
    }
    assert tail[1..] == segs[1..];
    assert Flatten(tail) == head + Flatten(segs[1..]);
    assert pts == [pts[0]] + pts[1..];
    assert Smooth(head, t, dist) by {
      forall i | 0 < i < |head|
        ensures dist(head[i - 1], head[i]) <= t
      {
        assert head[i - 1] == segs[0][i] && head[i] == segs[0][i + 1];
      }
    }
    forall k | 0 < k < |tail|
      ensures dist(Last(tail[k - 1]), tail[k][0]) > t
    {
      assert tail[k] == segs[k];
      if k == 1 {
        assert Last(tail[0]) == Last(segs[0]);
      } else {
        assert tail[k - 1] == segs[k - 1];
      }
    }
    forall k | 0 <= k < |tail|
      ensures tail[k] != [] && Smooth(tail[k], t, dist)
    {
      if k > 0 {
        assert tail[k] == segs[k];
      }
    }
  }

  /** There is one segment more than there are jumps. */
  lemma {:induction false} SeparatedCount<P>(pts: seq<P>, t: real, dist: (P, P) -> real)
    requires |pts| > 0
    ensures |Separated(pts, t, dist)| == 1 + JumpCount(pts, t, dist)
    decreases |pts|
  {
    if |pts| > 1 {
      SeparatedCount(pts[1..], t, dist);
    }
  }

  /** A chain without jumps stays one segment. */
  lemma SeparatedWithoutJumps<P>(pts: seq<P>, t: real, dist: (P, P) -> real)
    requires |pts| > 0
    requires Smooth(pts, t, dist)
    ensures Separated(pts, t, dist) == [pts]
  {
    assert SplitsAtJumps([pts], pts, t, dist) by {
      assert Flatten([pts]) == pts + Flatten([]);
    }
    SplitsAtJumpsUnique([pts], pts, t, dist);
  }

  /** Every stroke of `strokes` is non-empty. */
  ghost predicate AllNonEmpty<P>(strokes: seq<seq<P>>)
  {
    forall k :: 0 <= k < |strokes| ==> strokes[k] != []
  }

  /** The segments of all strokes, stroke after stroke. */
  function SeparatedAll<P>(strokes: seq<seq<P>>, t: real, dist: (P, P) -> real): (segs: seq<seq<P>>)
    requires AllNonEmpty(strokes)
    ensures |strokes| <= |segs|
  {
    if strokes == [] then []
    else SeparatedAll(strokes[..|strokes| - 1], t, dist) + Separated(strokes[|strokes| - 1], t, dist)
  }

  /** The pieces of each stroke stay together and in stroke order. */
  lemma {:induction false} SeparatedAllAppend<P>(a: seq<seq<P>>, b: seq<seq<P>>, t: real, dist: (P, P) -> real)
    requires AllNonEmpty(a) && AllNonEmpty(b)
    ensures AllNonEmpty(a + b)
    ensures SeparatedAll(a + b, t, dist) == SeparatedAll(a, t, dist) + SeparatedAll(b, t, dist)
    decreases |b|
  {
    var ab := a + b;
    assert AllNonEmpty(ab) by {
      forall k | 0 <= k < |ab|
        ensures ab[k] != []
      {
        if k >= |a| {
          assert ab[k] == b[k - |a|];
        }
      }
    }
    if b == [] {
      assert ab == a;
    } else {
      var b' := b[..|b| - 1];
      assert ab[..|ab| - 1] == a + b';
      assert ab[|ab| - 1] == b[|b| - 1];
      SeparatedAllAppend(a, b', t, dist);
    }
  }

  /** Segmenting every stroke loses, duplicates and reorders no point, and every segment is smooth. */
  lemma {:induction false} SeparatedAllSplits<P>(strokes: seq<seq<P>>, t: real, dist: (P, P) -> real)
    requires AllNonEmpty(strokes)
    ensures Flatten(SeparatedAll(strokes, t, dist)) == Flatten(strokes)
    ensures forall k :: 0 <= k < |SeparatedAll(strokes, t, dist)| ==>
      SeparatedAll(strokes, t, dist)[k] != [] && Smooth(SeparatedAll(strokes, t, dist)[k], t, dist)
  {
    if strokes != [] {
      var init := strokes[..|strokes| - 1];
      var last := strokes[|strokes| - 1];
      SeparatedAllSplits(init, t, dist);
      SeparatedSplitsAtJumps(last, t, dist);
      var before := SeparatedAll(init, t, dist);
      var pieces := Separated(last, t, dist);
      FlattenAppend(before, pieces);
      assert strokes == init + [last];
      FlattenAppend(init, [last]);
      assert Flatten([last]) == last + Flatten([]);
      var all := SeparatedAll(strokes, t, dist);
      assert all == before + pieces;
      forall k | 0 <= k < |all|
        ensures all[k] != [] && Smooth(all[k], t, dist)
      {
        if k >= |before| {
          assert all[k] == pieces[k - |before|];
        } else {
          assert all[k] == before[k];
        }
      }
    }
  }

  /** Distance of two points of the vertical line x = 0, where it is the difference of the y coordinates. */
  function VerticalDist(a: (real, real), b: (real, real)): real
  {
    if a.1 <= b.1 then b.1 - a.1 else a.1 - b.1
  }

  /** The gap of 1.5 between the second and third point is the only cut at threshold 1. */
  lemma SeparatedExample()
    ensures Separated([(0.0, 0.0), (0.0, 0.5), (0.0, 2.0), (0.0, 2.5)], 1.0, VerticalDist)
         == [[(0.0, 0.0), (0.0, 0.5)], [(0.0, 2.0), (0.0, 2.5)]]
  {
    var p0, p1, p2, p3 := (0.0, 0.0), (0.0, 0.5), (0.0, 2.0), (0.0, 2.5);
    var s3 := Separated([p3], 1.0, VerticalDist);
    assert s3 == [[p3]];
    assert [p2, p3][1..] == [p3];
    var s2 := Separated([p2, p3], 1.0, VerticalDist);
    assert VerticalDist(p2, p3) == 0.5;
    assert [p2] + s3[0] == [p2, p3];
    assert s2 == [[p2, p3]];
    assert [p1, p2, p3][1..] == [p2, p3];
    var s1 := Separated([p1, p2, p3], 1.0, VerticalDist);
    assert VerticalDist(p1, p2) == 1.5;
    assert s1 == [[p1], [p2, p3]];
    assert [p0, p1, p2, p3][1..] == [p1, p2, p3];
    assert VerticalDist(p0, p1) == 0.5;
    assert [p0] + s1[0] == [p0, p1];
  }
}
