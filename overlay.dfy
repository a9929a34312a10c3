/** The AI overlay guard (`apply_ai`): the segmentation network, the 0.5
    threshold, the resizing and the contour search are one oracle, `predict`,
    that says for the frame's pixels which pixels the contours cover, or that
    one of those steps raised. */
module Overlay {
  import opened Frames

  /** What the segmentation steps give for a frame. */
  datatype Prediction =
    | Failed                         // resize, predict or findContours raised
    | Contours(pixels: seq<Point>)   // the pixels `drawContours` colours

  /** A frame the overlay can work on: pixels in three channels, at least one of them. */
  predicate Drawable(rows: nat, cols: nat, chans: nat)
  {
    rows > 0 && cols > 0 && chans == 3
  }

  /** The image `apply_ai` leaves behind for a frame showing `g`. */
  ghost function Annotated(g: Grid, enabled: bool, loaded: bool, predict: Grid -> Prediction): (r: Grid)
    requires IsImage(g)
    ensures !enabled || !loaded ==> r == g
    ensures predict(g).Failed? ==> r == g
    ensures !Drawable(|g|, Width(g), Depth(g)) ==> r == g
    ensures Shaped(r, |g|, Width(g), Depth(g))
    ensures forall i, j :: 0 <= i < |g| && 0 <= j < Width(g) ==> r[i][j] == g[i][j] || r[i][j] == Green
  {
    if enabled && loaded && Drawable(|g|, Width(g), Depth(g)) then
      match predict(g)
      case Failed => g
      case Contours(pts) =>
        PaintShape(g, PointSet(pts), |g|, Width(g));
        Paint(g, PointSet(pts))
    else g
  }

  /** A network that finds nothing (an all-zero probability map gives an empty
      mask and no contours) leaves the frame as it was. */
  lemma NoContoursNoChange(g: Grid, enabled: bool, loaded: bool, predict: Grid -> Prediction)
    requires IsImage(g) && predict(g) == Contours([])
    ensures Annotated(g, enabled, loaded, predict) == g
  {
    assert PointSet([]) == {};
    PaintNothing(g);
  }

  /** `apply_ai(frame)`: returns the frame it was given, drawn on in place when
      the feature is on, a model is loaded and the prediction succeeds. */
  method ApplyAi(frame: Frame, enabled: bool, loaded: bool, predict: Grid -> Prediction) returns (r: Frame)
    modifies frame
    ensures r == frame
    ensures Contents(frame) == Annotated(old(Contents(frame)), enabled, loaded, predict)
  {
    ghost var g := Contents(frame);
    assert IsImage(g) by {
      if frame.Length0 > 0 && frame.Length1 > 0 {
        assert Width(g) == frame.Length1 && Depth(g) == frame.Length2;
      }
    }
    if !enabled || !loaded {
      return frame;
    }
    if Drawable(frame.Length0, frame.Length1, frame.Length2) {
      assert Width(g) == frame.Length1 && Depth(g) == frame.Length2;
      match predict(Contents(frame)) {
        case Failed =>
        case Contours(pts) => DrawContours(frame, pts);
      }
    } else {
      assert !Drawable(|g|, Width(g), Depth(g));
    }
    return frame;
  }
}
