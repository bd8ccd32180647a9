/** Stacking the pending images top to bottom, left-aligned, into one canvas
    padded with black on the right. */
module Stacking {
  import opened Raster

  /** The sum of the heights. */
  function TotalHeight(images: seq<Image>): nat {
    if images == [] then 0
    else TotalHeight(images[..|images| - 1]) + images[|images| - 1].height
  }

  /** No image is taller than the stack, and the stack of a prefix is no taller than the whole. */
  lemma {:induction false} TotalHeightBounds(images: seq<Image>, n: nat)
    requires n <= |images|
    ensures TotalHeight(images[..n]) <= TotalHeight(images)
    ensures forall k :: 0 <= k < |images| ==> images[k].height <= TotalHeight(images)
    decreases |images|
  {
    if images != [] {
      var init := images[..|images| - 1];
      if n < |images| {
        assert images[..n] == init[..n];
        TotalHeightBounds(init, n);
      } else {
        assert images[..n] == images;
        TotalHeightBounds(init, 0);
      }
      assert forall k :: 0 <= k < |init| ==> images[k] == init[k];
    }
  }

  /** The largest width. */
  function MaxWidth(images: seq<Image>): (w: nat)
    requires |images| > 0
    ensures forall k :: 0 <= k < |images| ==> images[k].width <= w
    ensures exists k :: 0 <= k < |images| && images[k].width == w
  {
    if |images| == 1 then images[0].width
    else
      var rest := MaxWidth(images[1..]);
      assert forall k :: 1 <= k < |images| ==> images[k] == images[1..][k - 1];
      if images[0].width >= rest then images[0].width else rest
  }

  /** The first row of image k in the stack: the sum of the heights before it. */
  function Offset(images: seq<Image>, k: nat): nat
    requires k <= |images|
  {
    TotalHeight(images[..k])
  }

  lemma {:induction false} OffsetBounds(images: seq<Image>, k: nat)
    requires k < |images|
    ensures Offset(images, k + 1) == Offset(images, k) + images[k].height
    ensures Offset(images, k + 1) <= TotalHeight(images)
    decreases |images| - k
  {
    assert images[..k + 1][..k] == images[..k];
    if k + 1 < |images| {
      OffsetBounds(images, k + 1);
    } else {
      assert images[..k + 1] == images;
    }
  }

  /** The stacked image's pixel at row r, column c. */
  function StackedPixel(images: seq<Image>, r: nat, c: nat): Pixel
    requires AllWellformed(images)
    requires r < TotalHeight(images)
  {
    var init := images[..|images| - 1];
    var last := images[|images| - 1];
    if r < TotalHeight(init) then StackedPixel(init, r, c)
    else if c < last.width then last.pixels[r - TotalHeight(init)][c]
    else Black
  }

  /** Row r of image k sits at row Offset(k) + r of the stack, left-aligned, with
      black to the right of the image's width. */
  lemma {:induction false} StackedPixelInBlock(images: seq<Image>, k: nat, r: nat, c: nat)
    requires AllWellformed(images)
    requires k < |images| && r < images[k].height
    ensures Offset(images, k) + r < TotalHeight(images)
    ensures StackedPixel(images, Offset(images, k) + r, c) ==
            if c < images[k].width then images[k].pixels[r][c] else Black
  {
    OffsetBounds(images, k);
    var init := images[..|images| - 1];
    if k == |images| - 1 {
      assert images[..k] == init;
    } else {
      OffsetBounds(init, k);
      assert init[..k] == images[..k];
      StackedPixelInBlock(init, k, r, c);
    }
  }

  lemma {:induction false} OffsetMonotone(images: seq<Image>, j: nat, k: nat)
    requires j <= k <= |images|
    ensures Offset(images, j) <= Offset(images, k)
    decreases k - j
  {
    if j < k {
      OffsetBounds(images, j);
      OffsetMonotone(images, j + 1, k);
    }
  }

  /** The blocks lie top to bottom in list order: block j ends where a later block may start. */
  lemma BlocksOrdered(images: seq<Image>)
    ensures forall j, k :: 0 <= j < k < |images| ==>
              Offset(images, j) + images[j].height <= Offset(images, k)
  {
    forall j, k | 0 <= j < k < |images|
      ensures Offset(images, j) + images[j].height <= Offset(images, k)
    {
      OffsetBounds(images, j);
      OffsetMonotone(images, j + 1, k);
    }
  }

  /** Every row of the stack belongs to exactly one image: the one whose block holds it. */
  function BlockOf(images: seq<Image>, row: nat): (k: nat)
    requires row < TotalHeight(images)
    ensures k < |images| && Offset(images, k) <= row < Offset(images, k) + images[k].height
    ensures forall j :: 0 <= j < |images| && Offset(images, j) <= row < Offset(images, j) + images[j].height ==>
              j == k
  {
    BlocksOrdered(images);
    var init := images[..|images| - 1];
    if row < TotalHeight(init) then
      var k := BlockOf(init, row);
      assert init[..k] == images[..k];
      k
    else
      assert images[..|images|] == images;
      |images| - 1
  }

  /** numpy's `a[top:top+h, :w] = img`: the image is written at row `top`,
      left-aligned, and every other cell keeps its value. */
  method WriteBlock(a: array2<Pixel>, top: nat, img: Image)
    requires img.Wellformed()
    requires top + img.height <= a.Length0 && img.width <= a.Length1
    modifies a
    ensures forall r, c :: 0 <= r < a.Length0 && 0 <= c < a.Length1 ==>
              a[r, c] == if top <= r < top + img.height && c < img.width
                         then img.pixels[r - top][c] else old(a[r, c])
  {
    forall r, c | top <= r < top + img.height && 0 <= c < img.width {
      a[r, c] := img.pixels[r - top][c];
    }
  }

  /** Builds the combined buffer: zero-filled, then each image written at its offset. */
  method Stack(images: seq<Image>) returns (combined: array2<Pixel>)
    requires |images| > 0 && AllWellformed(images)
    ensures fresh(combined)
    ensures combined.Length0 == TotalHeight(images) && combined.Length1 == MaxWidth(images)
    ensures forall r, c :: 0 <= r < combined.Length0 && 0 <= c < combined.Length1 ==>
              combined[r, c] == StackedPixel(images, r, c)
  {
    var totalHeight := TotalHeight(images);
    var maxWidth := MaxWidth(images);
    combined := new Pixel[totalHeight, maxWidth]((r, c) => Black);
    var yOffset := 0;
    for k := 0 to |images|
      invariant yOffset == Offset(images, k) <= totalHeight
      invariant forall r, c :: 0 <= r < totalHeight && 0 <= c < maxWidth ==>
                  combined[r, c] == if r < yOffset then StackedPixel(images, r, c) else Black
    {
      OffsetBounds(images, k);
      WriteBlock(combined, yOffset, images[k]);
      forall r, c | yOffset <= r < yOffset + images[k].height && 0 <= c < maxWidth
        ensures combined[r, c] == StackedPixel(images, r, c)
      {
        StackedPixelInBlock(images, k, r - yOffset, c);
      }
      yOffset := yOffset + images[k].height;
    }
    assert images[..|images|] == images;
  }
}
