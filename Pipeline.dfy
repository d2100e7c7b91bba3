/**
 * One pass over a frame, from the contours found in it to the warps that straighten the
 * cards: detection, then one warp per detected outline. Binarising the frame, finding its
 * contours and showing the intermediate images are not modelled; the contours come in as
 * the input.
 */
module Pipeline {
  import opened Contours
  import opened Perspective

  /**
   * Every detected outline gets exactly one warp, in detection order, and every warp produces
   * a 733 x 1024 image; a frame with no card-shaped contour produces no warp at all.
   */
  method FindCardWarps(g: ContourGeometry, contours: seq<Contour>) returns (warps: seq<Warp>)
    ensures |warps| == |RectangularContours(g, contours)|
    ensures forall i :: 0 <= i < |warps| ==>
      && warps[i] == PerspectiveTransformCard(RectangularContours(g, contours)[i])
      && warps[i].width == CardWidth && warps[i].height == CardHeight
    ensures (forall k :: 0 <= k < |contours| ==> !IsCardShaped(g, contours[k])) ==> warps == []
  {
    var cardContours := GetRectangularContours(g, contours);
    warps := ExtractCardImages(cardContours);
    if forall k :: 0 <= k < |contours| ==> !IsCardShaped(g, contours[k]) {
      NoCardShapedNoCandidates(g, contours);
    }
  }
}
