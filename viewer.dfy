/** The viewer window: it holds the segmented images and, on a click, replays
    them into the focused application. */
module Viewer {
  import opened Raster
  import opened Regions
  import opened Ordering
  import opened Cropping
  import opened Replay

  class ImageViewer {
    var imageList: seq<Image>

    /** Opening the viewer segments the canvas; `regions` are its external contours. */
    constructor (canvas: Image, regions: seq<Region>)
      requires canvas.Wellformed()
      ensures imageList == Segment(canvas, regions)
    {
      imageList := [];
      new;
      ProcessAndDisplayImages(canvas, regions);
    }

    /** Filters the regions, sorts them into reading order and shows their crops. */
    method ProcessAndDisplayImages(canvas: Image, regions: seq<Region>)
      requires canvas.Wellformed()
      modifies this
      ensures imageList == old(imageList) + Segment(canvas, regions)
    {
      var valid := ValidContours(regions);
      valid := SortByKey(valid);
      DisplayCrops(canvas, valid);
    }

    /** Appends each non-empty inset crop of `boxes`, in order, to the image list. */
    method DisplayCrops(canvas: Image, boxes: seq<Box>)
      requires canvas.Wellformed()
      modifies this
      ensures imageList == old(imageList) + CropAll(canvas, boxes)
    {
      for i := 0 to |boxes|
        invariant imageList == old(imageList) + CropAll(canvas, boxes[..i])
      {
        CropAllPrefix(canvas, boxes, i);
        var roi := Crop(canvas, boxes[i]);
        if roi.Size() > 0 {
          imageList := imageList + [roi];
        }
      }
      assert boxes[..|boxes|] == boxes;
    }

    /** A click on the window: the replay loop, driven by the operator's answer,
        the ESC key and the clipboard's success, as a trace of what it issues. */
    method StartAutoCopy(answerYes: bool, escape: nat -> bool, copyOk: nat -> bool)
      returns (trace: seq<Action>)
      ensures trace == ReplayTrace(|imageList|, answerYes, escape, copyOk)
    {
      if imageList == [] {
        trace := [WarnNoImages];
        return;
      }
      trace := [AskConfirm];
      if answerYes {
        var n := |imageList|;
        var i := 0;
        while i < n
          invariant 0 <= i <= n
          invariant trace + Steps(i, n, escape, copyOk) == [AskConfirm] + Steps(0, n, escape, copyOk)
        {
          if escape(i) {
            assert Steps(i, n, escape, copyOk) == [Stop];
            trace := trace + [Stop];
            break;
          }
          // Copy; on success paste and move right, or down and back to column 0.
          var item;
          if copyOk(i) {
            item := [Copy(i), Paste] + Advance(i);
          } else {
            item := [Copy(i), CopyError(i)];
          }
          assert trace + item + Steps(i + 1, n, escape, copyOk) ==
                 [AskConfirm] + Steps(0, n, escape, copyOk) by {
            StepAt(i, n, escape, copyOk);
            AppendAssoc(trace, item, Steps(i + 1, n, escape, copyOk));
          }
          trace := trace + item;
          i := i + 1;
        }
        assert trace == [AskConfirm] + Steps(0, n, escape, copyOk) by {
          if i == n {
            assert trace + Steps(i, n, escape, copyOk) == trace;
          }
        }
        trace := trace + [Done];
      }
    }
  }
}
