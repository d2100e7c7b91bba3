/**
 * Straightening one detected card: put its corners in a canonical order, then pair them with
 * the corners of the fixed-size output image for the perspective warp.
 */
module Perspective {
  import opened Contours

  /** Width and height, in pixels, of a straightened card image. */
  const CardWidth: int := 733
  const CardHeight: int := 1024

  /** A four-corner card outline, as the detector returns it. */
  type Quad = q: seq<Point> | |q| == 4 witness [Point(0, 0), Point(0, 0), Point(0, 0), Point(0, 0)]

  /**
   * Squared Euclidean distance. The source compares Euclidean norms; on integer points the
   * square root is monotone, so comparing squares gives the same answer.
   */
  function SquaredDistance(p: Point, q: Point): nat {
    (p.x - q.x) * (p.x - q.x) + (p.y - q.y) * (p.y - q.y)
  }

  /** The points' coordinates in array memory order: x0, y0, x1, y1, ... */
  function Flatten(ps: seq<Point>): (s: seq<int>)
    ensures |s| == 2 * |ps|
    ensures forall i :: 0 <= i < |ps| ==> s[2 * i] == ps[i].x && s[2 * i + 1] == ps[i].y
    decreases |ps|
  {
    if |ps| == 0 then []
    else [ps[0].x, ps[0].y] + Flatten(ps[1..])
  }

  /** Coordinates read back as points, two at a time. */
  function Unflatten(s: seq<int>): (ps: seq<Point>)
    requires |s| % 2 == 0
    ensures |ps| == |s| / 2
    ensures forall i :: 0 <= i < |ps| ==> ps[i] == Point(s[2 * i], s[2 * i + 1])
    decreases |s|
  {
    if |s| == 0 then []
    else [Point(s[0], s[1])] + Unflatten(s[2..])
  }

  /**
   * `numpy.roll` without an axis: the array is treated as flat and every element moves
   * `shift` places to the right, the last `shift` ones wrapping round to the front.
   */
  function Roll(s: seq<int>, shift: nat): (r: seq<int>)
    requires shift <= |s|
    ensures |r| == |s|
    ensures forall i :: 0 <= i < |s| - shift ==> r[i + shift] == s[i]
    ensures forall i :: |s| - shift <= i < |s| ==> r[i + shift - |s|] == s[i]
  {
    s[|s| - shift..] + s[..|s| - shift]
  }

  /**
   * The corner normaliser: when the edge from corner 0 to corner 1 is shorter than the edge
   * from corner 1 to corner 2 the outline is kept; otherwise its coordinate array is rolled
   * by two entries, which moves every corner one place on.
   */
  function FixContour(contour: Quad): Quad {
    var dist1 := SquaredDistance(contour[0], contour[1]);
    var dist2 := SquaredDistance(contour[1], contour[2]);
    if dist1 < dist2 then contour
    else Unflatten(Roll(Flatten(contour), 2))
  }

  /** A short first edge keeps the outline; otherwise the last corner comes first. */
  lemma FixContourRotates(contour: Quad)
    ensures SquaredDistance(contour[0], contour[1]) < SquaredDistance(contour[1], contour[2]) ==>
      FixContour(contour) == contour
    ensures SquaredDistance(contour[0], contour[1]) >= SquaredDistance(contour[1], contour[2]) ==>
      FixContour(contour) == [contour[3], contour[0], contour[1], contour[2]]
  {
    var f := Flatten(contour);
    var r := Roll(f, 2);
    assert r[0] == f[6] && r[1] == f[7];
    assert r[2] == f[0] && r[3] == f[1] && r[4] == f[2] && r[5] == f[3] && r[6] == f[4] && r[7] == f[5];
    var u := Unflatten(r);
    assert u[0] == Point(r[0], r[1]) && u[1] == Point(r[2], r[3]);
    assert u[2] == Point(r[4], r[5]) && u[3] == Point(r[6], r[7]);
  }

  /** Either way the result is a cyclic rotation of the same four corners. */
  lemma FixContourIsRotation(contour: Quad)
    ensures FixContour(contour) == contour || FixContour(contour) == contour[3..] + contour[..3]
    ensures multiset(FixContour(contour)) == multiset(contour)
  {
    FixContourRotates(contour);
    var rotated := contour[3..] + contour[..3];
    assert rotated == [contour[3], contour[0], contour[1], contour[2]];
    SameCornersAfterRotation(contour);
  }

  lemma SameCornersAfterRotation(q: seq<Point>)
    requires |q| == 4
    ensures multiset(q[3..] + q[..3]) == multiset(q)
  {
    assert q == q[..3] + q[3..];
  }

  /** Opposite sides of the outline are parallel and of equal length. */
  predicate IsParallelogram(q: Quad) {
    q[1].x - q[0].x == q[2].x - q[3].x && q[1].y - q[0].y == q[2].y - q[3].y
  }

  /**
   * On a parallelogram the normaliser achieves what it is for: the first edge of its result
   * is no longer than the second, so corner 0 starts a short side of the card.
   */
  lemma FixContourShortEdgeFirst(contour: Quad)
    requires IsParallelogram(contour)
    ensures SquaredDistance(FixContour(contour)[0], FixContour(contour)[1])
         <= SquaredDistance(FixContour(contour)[1], FixContour(contour)[2])
  {
    FixContourRotates(contour);
    assert SquaredDistance(contour[3], contour[0]) == SquaredDistance(contour[1], contour[2]);
  }

  /** The output corners, in the order the warp lists them: top-left, top-right, bottom-left, bottom-right. */
  const OutputCorners: seq<Point> :=
    [Point(0, 0), Point(CardWidth, 0), Point(0, CardHeight), Point(CardWidth, CardHeight)]

  /**
   * What the warp is asked to do: send `source[i]` to `target[i]` for each i and produce an
   * image `width` by `height`. The homography and the resampling are not modelled.
   */
  datatype Warp = Warp(source: seq<Point>, target: seq<Point>, width: int, height: int)

  /** The warp for one card outline: normalised corners 0, 1, 3, 2 go to the output corners in order. */
  function PerspectiveTransformCard(contour: Quad): (w: Warp)
    ensures w.width == CardWidth && w.height == CardHeight
    ensures |w.source| == |w.target| == 4
  {
    var c := FixContour(contour);
    Warp([c[0], c[1], c[3], c[2]], OutputCorners, CardWidth, CardHeight)
  }

  /**
   * In terms of the detected outline: the corner sent to the top-left is corner 0 when the
   * first edge is the shorter, corner 3 otherwise, and the others follow round the outline.
   */
  lemma WarpCornerPairing(contour: Quad)
    ensures var w := PerspectiveTransformCard(contour);
      && w.target == OutputCorners
      && (SquaredDistance(contour[0], contour[1]) < SquaredDistance(contour[1], contour[2]) ==>
            w.source == [contour[0], contour[1], contour[3], contour[2]])
      && (SquaredDistance(contour[0], contour[1]) >= SquaredDistance(contour[1], contour[2]) ==>
            w.source == [contour[3], contour[0], contour[2], contour[1]])
  {
    FixContourRotates(contour);
  }

  /** The warp uses each corner of the outline exactly once. */
  lemma WarpUsesEveryCorner(contour: Quad)
    ensures multiset(PerspectiveTransformCard(contour).source) == multiset(contour)
  {
    var c := FixContour(contour);
    FixContourIsRotation(contour);
    assert c == [c[0], c[1], c[2], c[3]];
  }

  /**
   * On a parallelogram, the side sent to the output's top edge (733 pixels) is no longer than
   * the side sent to its right edge (1024 pixels): the card's short side becomes its width.
   */
  lemma WarpShortSideIsWidth(contour: Quad)
    requires IsParallelogram(contour)
    ensures var w := PerspectiveTransformCard(contour);
      SquaredDistance(w.source[0], w.source[1]) <= SquaredDistance(w.source[1], w.source[3])
  {
    FixContourShortEdgeFirst(contour);
  }

  /** Builds the warp of every detected outline, in order. */
  method ExtractCardImages(contours: seq<Contour>) returns (warps: seq<Warp>)
    requires forall i :: 0 <= i < |contours| ==> |contours[i]| == CardCorners
    ensures |warps| == |contours|
    ensures forall i :: 0 <= i < |warps| ==>
      warps[i] == PerspectiveTransformCard(contours[i])
      && warps[i].width == CardWidth && warps[i].height == CardHeight
  {
    warps := [];
    for i := 0 to |contours|
      invariant |warps| == i
      invariant forall j :: 0 <= j < i ==> warps[j] == PerspectiveTransformCard(contours[j])
    {
      var extracted := PerspectiveTransformCard(contours[i]);
      warps := warps + [extracted];
    }
  }
}
