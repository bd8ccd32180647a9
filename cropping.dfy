/** Cutting each kept box out of the canvas with a 2-pixel inset, using numpy's
    slice semantics, and the whole segmentation pipeline as one function. */
module Cropping {
  import opened Raster
  import opened Regions
  import opened Ordering

  const Margin := 2

  /** Where a Python slice bound lands in a dimension of length `n`: a negative
      bound counts from the end, and the result is clamped to 0 .. n. */
  function SliceBound(i: int, n: nat): (b: nat)
    ensures b <= n
    ensures 0 <= i <= n ==> b == i
  {
    if i < 0 then (if i + n < 0 then 0 else i + n)
    else if i > n then n
    else i
  }

  /** `image[y+2:y+h-2, x+2:x+w-2]`. */
  function Crop(canvas: Image, b: Box): (roi: Image)
    requires canvas.Wellformed()
    ensures roi.Wellformed()
  {
    var r0 := SliceBound(b.y + Margin, canvas.height);
    var r1 := SliceBound(b.y + b.h - Margin, canvas.height);
    var c0 := SliceBound(b.x + Margin, canvas.width);
    var c1 := SliceBound(b.x + b.w - Margin, canvas.width);
    var rows := if r0 <= r1 then r1 - r0 else 0;
    var cols := if c0 <= c1 then c1 - c0 else 0;
    Image(rows, cols,
          seq(rows, i requires 0 <= i < rows =>
            seq(cols, j requires 0 <= j < cols => canvas.pixels[r0 + i][c0 + j])))
  }

  /** The box lies within the canvas, as every bounding rectangle of a contour of it does. */
  predicate Inside(b: Box, canvas: Image) {
    0 <= b.x && 0 <= b.y && b.x + b.w <= canvas.width && b.y + b.h <= canvas.height
  }

  /** For a box inside the canvas, the crop covers rows y+2 .. y+h-3 and
      columns x+2 .. x+w-3: it is (h-4) x (w-4) pixels of the canvas. */
  lemma CropInside(canvas: Image, b: Box)
    requires canvas.Wellformed() && Inside(b, canvas)
    requires b.w >= 2 * Margin && b.h >= 2 * Margin
    ensures Crop(canvas, b).height == b.h - 2 * Margin
    ensures Crop(canvas, b).width == b.w - 2 * Margin
    ensures forall i, j :: 0 <= i < b.h - 2 * Margin && 0 <= j < b.w - 2 * Margin ==>
              Crop(canvas, b).pixels[i][j] == canvas.pixels[b.y + Margin + i][b.x + Margin + j]
  {
  }

  /** A kept box inside the canvas never yields an empty crop, so the
      `roi.size > 0` test always passes for it. */
  lemma KeptCropNonEmpty(canvas: Image, r: Region)
    requires canvas.Wellformed() && Inside(r.box, canvas) && Keep(r)
    ensures Crop(canvas, r.box).Size() > 0
  {
    CropInside(canvas, r.box);
    var roi := Crop(canvas, r.box);
    assert roi.height > 0 && roi.width > 0;
    assert roi.height * roi.width > 0;
  }

  /** The non-empty crops of `boxes`, in order: what the display loop appends. */
  function CropAll(canvas: Image, boxes: seq<Box>): seq<Image>
    requires canvas.Wellformed()
  {
    if boxes == [] then []
    else
      var roi := Crop(canvas, boxes[|boxes| - 1]);
      CropAll(canvas, boxes[..|boxes| - 1]) + (if roi.Size() > 0 then [roi] else [])
  }

  /** One more box appends its crop, unless that crop is empty. */
  lemma CropAllSnoc(canvas: Image, boxes: seq<Box>, b: Box)
    requires canvas.Wellformed()
    ensures CropAll(canvas, boxes + [b]) ==
            CropAll(canvas, boxes) + (if Crop(canvas, b).Size() > 0 then [Crop(canvas, b)] else [])
  {
    assert (boxes + [b])[..|boxes|] == boxes;
  }

  /** The crops of the first i + 1 boxes extend those of the first i by box i's, if non-empty. */
  lemma CropAllPrefix(canvas: Image, boxes: seq<Box>, i: nat)
    requires canvas.Wellformed() && i < |boxes|
    ensures CropAll(canvas, boxes[..i + 1]) ==
            CropAll(canvas, boxes[..i]) +
            (if Crop(canvas, boxes[i]).Size() > 0 then [Crop(canvas, boxes[i])] else [])
  {
    assert boxes[..i + 1] == boxes[..i] + [boxes[i]];
    CropAllSnoc(canvas, boxes[..i], boxes[i]);
  }

  /** The images segmentation produces from a canvas whose contours are `regions`. */
  function Segment(canvas: Image, regions: seq<Region>): seq<Image>
    requires canvas.Wellformed()
  {
    CropAll(canvas, SortByKey(KeptBoxes(regions)))
  }

  lemma {:induction false} CropAllEveryBox(canvas: Image, boxes: seq<Box>)
    requires canvas.Wellformed()
    requires forall k :: 0 <= k < |boxes| ==> Crop(canvas, boxes[k]).Size() > 0
    ensures |CropAll(canvas, boxes)| == |boxes|
    ensures forall k :: 0 <= k < |boxes| ==> CropAll(canvas, boxes)[k] == Crop(canvas, boxes[k])
  {
    if boxes != [] {
      var init, last := boxes[..|boxes| - 1], boxes[|boxes| - 1];
      CropAllEveryBox(canvas, init);
      LastSplit(boxes);
      CropAllSnoc(canvas, init, last);
    }
  }

  lemma LastSplit(boxes: seq<Box>)
    requires boxes != []
    ensures boxes == boxes[..|boxes| - 1] + [boxes[|boxes| - 1]]
  {
  }

  /** When every contour lies inside the canvas, segmentation yields exactly one
      image per kept box, and image k is the crop of the k-th box in reading order. */
  lemma SegmentOnePerKeptBox(canvas: Image, regions: seq<Region>)
    requires canvas.Wellformed()
    requires forall i :: 0 <= i < |regions| ==> Inside(regions[i].box, canvas)
    ensures |Segment(canvas, regions)| == |KeptBoxes(regions)|
    ensures forall k :: 0 <= k < |KeptBoxes(regions)| ==>
              Segment(canvas, regions)[k] == Crop(canvas, SortByKey(KeptBoxes(regions))[k])
  {
    var kept := KeptBoxes(regions);
    var sorted := SortByKey(kept);
    SortByKeySortedPermutation(kept);
    forall k | 0 <= k < |sorted| ensures Crop(canvas, sorted[k]).Size() > 0 {
      assert sorted[k] in multiset(kept);
      KeptBoxesMembership(regions, sorted[k]);
      var i :| 0 <= i < |regions| && Keep(regions[i]) && regions[i].box == sorted[k];
      KeptCropNonEmpty(canvas, regions[i]);
    }
    CropAllEveryBox(canvas, sorted);
  }
}
