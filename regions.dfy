/** Candidate regions found by contour detection, and the size filter that
    keeps only the ones large enough to be a sub-image. */
module Regions {

  /** An OpenCV bounding rectangle: left column, top row, width, height. */
  datatype Box = Box(x: int, y: int, w: int, h: int)

  /** One external contour: its bounding rectangle and its area. */
  datatype Region = Region(box: Box, area: real)

  const MinArea: real := 1000.0
  const MinSide := 50

  /** A region is kept when its area is above 1000 and both sides are above 50. */
  predicate Keep(r: Region) {
    r.area > MinArea && r.box.w > MinSide && r.box.h > MinSide
  }

  /** The boxes of the kept regions, in contour order. */
  function KeptBoxes(regions: seq<Region>): seq<Box> {
    if regions == [] then []
    else
      var last := regions[|regions| - 1];
      KeptBoxes(regions[..|regions| - 1]) + (if Keep(last) then [last.box] else [])
  }

  /** The loop that builds `valid_contours`. */
  method ValidContours(regions: seq<Region>) returns (valid: seq<Box>)
    ensures valid == KeptBoxes(regions)
  {
    valid := [];
    for i := 0 to |regions|
      invariant valid == KeptBoxes(regions[..i])
    {
      assert regions[..i + 1][..i] == regions[..i];
      var region := regions[i];
      if region.area > MinArea {
        var b := region.box;
        if b.w > MinSide && b.h > MinSide {
          valid := valid + [b];
        }
      }
    }
    assert regions[..|regions|] == regions;
  }

  /** A box is in the output exactly when some kept region has it. */
  lemma {:induction false} KeptBoxesMembership(regions: seq<Region>, b: Box)
    ensures b in KeptBoxes(regions) <==>
            exists i :: 0 <= i < |regions| && Keep(regions[i]) && regions[i].box == b
  {
    if regions != [] {
      var init := regions[..|regions| - 1];
      KeptBoxesMembership(init, b);
      if b in KeptBoxes(init) {
        var i :| 0 <= i < |init| && Keep(init[i]) && init[i].box == b;
        assert regions[i] == init[i];
      }
      if exists i :: 0 <= i < |regions| && Keep(regions[i]) && regions[i].box == b {
        var i :| 0 <= i < |regions| && Keep(regions[i]) && regions[i].box == b;
        if i < |init| {
          assert init[i] == regions[i];
        }
      }
    }
  }

  /** Every kept box has both sides above 50. */
  lemma KeptBoxesBounds(regions: seq<Region>)
    ensures forall b :: b in KeptBoxes(regions) ==> b.w > MinSide && b.h > MinSide
  {
    forall b | b in KeptBoxes(regions)
      ensures b.w > MinSide && b.h > MinSide
    {
      KeptBoxesMembership(regions, b);
    }
  }

  /** Filtering distributes over concatenation: kept boxes keep their contour order. */
  lemma {:induction false} KeptBoxesAppend(front: seq<Region>, back: seq<Region>)
    ensures KeptBoxes(front + back) == KeptBoxes(front) + KeptBoxes(back)
  {
    if back == [] {
      assert front + back == front;
    } else {
      var init := back[..|back| - 1];
      KeptBoxesAppend(front, init);
      assert (front + back)[..|front + back| - 1] == front + init;
    }
  }

  /** The thresholds are strict: a region at exactly 1000 area or 50 pixels a side is dropped. */
  lemma BoundaryRejected(r: Region)
    requires r.area == MinArea || r.box.w == MinSide || r.box.h == MinSide
    ensures KeptBoxes([r]) == []
  {
    assert [r][..0] == [];
  }
}
