/**
 * The rectangle detector: from the contours found in a frame, keep the approximations of
 * those that are large enough and have exactly four corners, in the order they were found.
 */
module Contours {

  /** A pixel position as OpenCV reports it in a contour. */
  datatype Point = Point(x: int, y: int)

  /** A closed boundary: its points in traversal order. */
  type Contour = seq<Point>

  /**
   * The OpenCV routines the detector relies on. Their floating-point geometry is not modelled:
   * the detector is proved correct for whatever these functions compute.
   */
  datatype ContourGeometry = ContourGeometry(
    contourArea: Contour -> real,
    arcLength: Contour -> real,
    approxPolyDP: (Contour, real) -> Contour)

  /** Smallest area, exclusive, of a contour that may hold a card. */
  const MinCardArea: real := 4000.0

  /** Approximation tolerance, as a fraction of the contour's perimeter. */
  const ApproxFraction: real := 0.05

  /** Number of corners of a card outline. */
  const CardCorners: nat := 4

  /** The polygon approximating a closed contour, within 5% of its perimeter. */
  function Approximation(g: ContourGeometry, c: Contour): Contour {
    g.approxPolyDP(c, ApproxFraction * g.arcLength(c))
  }

  /** The detector's test: area strictly above the threshold, then a four-corner approximation. */
  predicate IsCardShaped(g: ContourGeometry, c: Contour) {
    g.contourArea(c) > MinCardArea && |Approximation(g, c)| == CardCorners
  }

  /**
   * The positions of the contours the detector keeps, in increasing order: exactly the
   * card-shaped ones, each once.
   */
  function KeptIndices(g: ContourGeometry, contours: seq<Contour>): (r: seq<nat>)
    ensures forall i :: 0 <= i < |r| ==> r[i] < |contours| && IsCardShaped(g, contours[r[i]])
    ensures forall i, j :: 0 <= i < j < |r| ==> r[i] < r[j]
    ensures forall k :: 0 <= k < |contours| && IsCardShaped(g, contours[k]) ==> k in r
    decreases |contours|
  {
    if |contours| == 0 then []
    else
      var n := |contours| - 1;
      var before := KeptIndices(g, contours[..n]);
      assert forall i :: 0 <= i < |before| ==> contours[..n][before[i]] == contours[before[i]];
      before + (if IsCardShaped(g, contours[n]) then [n] else [])
  }

  /** What the detector returns: the approximation of every kept contour, in input order. */
  function RectangularContours(g: ContourGeometry, contours: seq<Contour>): (r: seq<Contour>)
    ensures |r| == |KeptIndices(g, contours)|
    ensures forall i :: 0 <= i < |r| ==> r[i] == Approximation(g, contours[KeptIndices(g, contours)[i]])
    decreases |contours|
  {
    if |contours| == 0 then []
    else
      var n := |contours| - 1;
      RectangularContours(g, contours[..n]) + (if IsCardShaped(g, contours[n]) then [Approximation(g, contours[n])] else [])
  }

  /**
   * Every returned outline has four corners and approximates an input contour of area above
   * the threshold.
   */
  lemma RectangularContoursAreCards(g: ContourGeometry, contours: seq<Contour>)
    ensures forall i :: 0 <= i < |RectangularContours(g, contours)| ==>
      && |RectangularContours(g, contours)[i]| == CardCorners
      && exists k :: (0 <= k < |contours| && g.contourArea(contours[k]) > MinCardArea
                      && RectangularContours(g, contours)[i] == Approximation(g, contours[k]))
  {
    var r := RectangularContours(g, contours);
    var idx := KeptIndices(g, contours);
    forall i | 0 <= i < |r|
      ensures |r[i]| == CardCorners
      ensures exists k :: (0 <= k < |contours| && g.contourArea(contours[k]) > MinCardArea
                            && r[i] == Approximation(g, contours[k]))
    {
      assert IsCardShaped(g, contours[idx[i]]);
    }
  }

  /** A frame without card-shaped contours yields no candidates. */
  lemma NoCardShapedNoCandidates(g: ContourGeometry, contours: seq<Contour>)
    requires forall k :: 0 <= k < |contours| ==> !IsCardShaped(g, contours[k])
    ensures RectangularContours(g, contours) == []
  {
  }

  /** The detector's loop: test each contour in turn and append the approximation of each one kept. */
  method GetRectangularContours(g: ContourGeometry, contours: seq<Contour>) returns (rectangular: seq<Contour>)
    ensures rectangular == RectangularContours(g, contours)
    ensures forall i :: 0 <= i < |rectangular| ==> |rectangular[i]| == CardCorners
  {
    rectangular := [];
    for i := 0 to |contours|
      invariant rectangular == RectangularContours(g, contours[..i])
    {
      var contour := contours[i];
      var area := g.contourArea(contour);
      if area > MinCardArea {
        var peri := g.arcLength(contour);
        var approx := g.approxPolyDP(contour, ApproxFraction * peri);
        if |approx| == CardCorners {
          rectangular := rectangular + [approx];
        }
      }
      assert contours[..i + 1][..i] == contours[..i];
    }
    assert contours[..|contours|] == contours;
  }
}
