/** Frames: the 8-bit height x width x channels pixel buffers that the camera
    delivers, their copies, the blank placeholder and the in-place contour
    drawing of the AI overlay. */
module Frames {

  type byte = x: int | 0 <= x < 256

  /** A mutable pixel buffer, indexed [row, column, channel]. */
  type Frame = array3<byte>

  /** The value of a frame: rows of pixels, each pixel a sequence of channel values. */
  type Grid = seq<seq<seq<byte>>>

  /** `g` is a rows x cols x chans box. */
  ghost predicate Shaped(g: Grid, rows: nat, cols: nat, chans: nat)
  {
    && |g| == rows
    && (forall i :: 0 <= i < rows ==> |g[i]| == cols)
    && (forall i, j :: 0 <= i < rows && 0 <= j < cols ==> |g[i][j]| == chans)
  }

  function Width(g: Grid): nat
  {
    if |g| == 0 then 0 else |g[0]|
  }

  function Depth(g: Grid): nat
  {
    if |g| == 0 || |g[0]| == 0 then 0 else |g[0][0]|
  }

  /** A grid whose every row and pixel has the size of the first ones. */
  ghost predicate IsImage(g: Grid)
  {
    Shaped(g, |g|, Width(g), Depth(g))
  }

  /** The content of a frame as a value. */
  function Contents(a: Frame): (g: Grid)
    reads a
    ensures Shaped(g, a.Length0, a.Length1, a.Length2)
    ensures forall i, j, k :: 0 <= i < a.Length0 && 0 <= j < a.Length1 && 0 <= k < a.Length2 ==>
      g[i][j][k] == a[i, j, k]
  {
    seq(a.Length0, i requires 0 <= i < a.Length0 reads a =>
      seq(a.Length1, j requires 0 <= j < a.Length1 reads a =>
        seq(a.Length2, k requires 0 <= k < a.Length2 reads a => a[i, j, k])))
  }

  /** A frame depicts exactly one grid: the one of its shape with its bytes. */
  lemma ContentsExt(a: Frame, g: Grid)
    requires Shaped(g, a.Length0, a.Length1, a.Length2)
    requires forall i, j, k :: 0 <= i < a.Length0 && 0 <= j < a.Length1 && 0 <= k < a.Length2 ==>
      g[i][j][k] == a[i, j, k]
    ensures Contents(a) == g
  {
    var c := Contents(a);
    forall i | 0 <= i < a.Length0
      ensures c[i] == g[i]
    {
      forall j | 0 <= j < a.Length1
        ensures c[i][j] == g[i][j]
      {
      }
    }
  }

  /** An independent buffer holding the same pixels (numpy's `copy()`). */
  method Copy(a: Frame) returns (b: Frame)
    ensures fresh(b)
    ensures Contents(b) == Contents(a)
  {
    b := new byte[a.Length0, a.Length1, a.Length2]((i, j, k) reads a =>
      if 0 <= i < a.Length0 && 0 <= j < a.Length1 && 0 <= k < a.Length2 then a[i, j, k] else 0);
    ContentsExt(b, Contents(a));
  }

  /** A fresh buffer holding the pixels of an image value (what a camera read allocates). */
  method FromGrid(g: Grid) returns (b: Frame)
    requires IsImage(g)
    ensures fresh(b)
    ensures Contents(b) == g
  {
    var w, d := Width(g), Depth(g);
    b := new byte[|g|, w, d]((i, j, k) =>
      if 0 <= i < |g| && 0 <= j < w && 0 <= k < d then g[i][j][k] else 0);
    ContentsExt(b, g);
  }

  const BlankRows: nat := 480
  const BlankCols: nat := 640
  const Channels: nat := 3

  /** The all-zero 480 x 640 x 3 image served while no frame has been published. */
  ghost function Blank(): (g: Grid)
  {
    seq(BlankRows, _ => seq(BlankCols, _ => seq(Channels, _ => 0)))
  }

  lemma BlankShape()
    ensures Shaped(Blank(), 480, 640, 3)
    ensures forall i, j, k :: 0 <= i < 480 && 0 <= j < 640 && 0 <= k < 3 ==> Blank()[i][j][k] == 0
  {
  }

  /** `np.zeros((480, 640, 3), np.uint8)`. */
  method NewBlank() returns (b: Frame)
    ensures fresh(b)
    ensures Contents(b) == Blank()
  {
    b := new byte[BlankRows, BlankCols, Channels]((i, j, k) => 0);
    BlankShape();
    ContentsExt(b, Blank());
  }

  /** The colour (0, 255, 0) in OpenCV's blue-green-red channel order. */
  const Green: seq<byte> := [0, 255, 0]

  type Point = (int, int)

  /** The grid with every listed in-range pixel coloured green and every other pixel kept. */
  ghost function Paint(g: Grid, pts: set<Point>): (r: Grid)
  {
    seq(|g|, i requires 0 <= i < |g| =>
      seq(|g[i]|, j requires 0 <= j < |g[i]| => if (i, j) in pts then Green else g[i][j]))
  }

  lemma PaintShape(g: Grid, pts: set<Point>, rows: nat, cols: nat)
    requires Shaped(g, rows, cols, 3)
    ensures Shaped(Paint(g, pts), rows, cols, 3)
  {
  }

  /** Painting no pixel leaves an image unchanged. */
  lemma PaintNothing(g: Grid)
    ensures Paint(g, {}) == g
  {
    var r := Paint(g, {});
    forall i | 0 <= i < |g|
      ensures r[i] == g[i]
    {
    }
  }

  function PointSet(pts: seq<Point>): set<Point>
  {
    set p | p in pts
  }

  /** Colours the listed pixels green directly in `a` (`cv2.drawContours` on the frame itself);
      pixels outside the frame are clipped. */
  method DrawContours(a: Frame, pts: seq<Point>)
    requires a.Length2 == 3
    modifies a
    ensures Contents(a) == Paint(old(Contents(a)), PointSet(pts))
  {
    ghost var g := Contents(a);
    var t := 0;
    while t < |pts|
      invariant 0 <= t <= |pts|
      invariant forall i, j, k :: 0 <= i < a.Length0 && 0 <= j < a.Length1 && 0 <= k < 3 ==>
        a[i, j, k] == (if (i, j) in PointSet(pts[..t]) then Green[k] else g[i][j][k])
    {
      var (r, c) := pts[t];
      if 0 <= r < a.Length0 && 0 <= c < a.Length1 {
        a[r, c, 0], a[r, c, 1], a[r, c, 2] := 0, 255, 0;
      }
      assert pts[..t + 1] == pts[..t] + [pts[t]];
      t := t + 1;
    }
    assert pts[..t] == pts;
    PaintShape(g, PointSet(pts), a.Length0, a.Length1);
    ContentsExt(a, Paint(g, PointSet(pts)));
  }
}
