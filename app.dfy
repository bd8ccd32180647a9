/** The main window's state: the image last pasted from the clipboard and the
    list of pending images waiting to be stacked and segmented. */
module App {
  import opened Raster
  import opened Regions
  import opened Cropping
  import opened Stacking
  import opened Viewer

  datatype Option<T> = None | Some(value: T)

  /** The pixels of a buffer, as an image value. */
  function Snapshot(a: array2<Pixel>): (img: Image)
    reads a
    ensures img.Wellformed() && img.height == a.Length0 && img.width == a.Length1
  {
    Image(a.Length0, a.Length1,
          seq(a.Length0, r requires 0 <= r < a.Length0 reads a =>
            seq(a.Length1, c requires 0 <= c < a.Length1 reads a => a[r, c])))
  }

  class MainApp {
    var imageList: seq<Image>
    var currentImage: Option<Image>

    ghost predicate Valid()
      reads this
    {
      AllWellformed(imageList) && (currentImage.Some? ==> currentImage.value.Wellformed())
    }

    constructor ()
      ensures Valid() && imageList == [] && currentImage == None
    {
      imageList := [];
      currentImage := None;
    }

    /** Takes the clipboard's image as the current one; with none there, warns and keeps the old one. */
    method PasteImage(clipboard: Option<Image>) returns (pasted: bool)
      requires Valid()
      requires clipboard.Some? ==> clipboard.value.Wellformed()
      modifies this
      ensures Valid()
      ensures pasted == clipboard.Some?
      ensures currentImage == (if pasted then clipboard else old(currentImage))
      ensures imageList == old(imageList)
    {
      if clipboard.None? {
        return false;
      }
      currentImage := clipboard;
      pasted := true;
    }

    /** Appends a copy of the current image; without one, warns and changes nothing. */
    method AddImage() returns (added: bool)
      requires Valid()
      modifies this
      ensures Valid()
      ensures added == old(currentImage).Some?
      ensures imageList == (if added then old(imageList) + [old(currentImage).value] else old(imageList))
      ensures currentImage == old(currentImage)
    {
      if currentImage.None? {
        return false;
      }
      imageList := imageList + [currentImage.value];
      added := true;
    }

    /** Clears the pending list when it is not empty and the operator confirms. */
    method ResetImages(confirmed: bool) returns (cleared: bool)
      requires Valid()
      modifies this
      ensures Valid()
      ensures cleared == (old(imageList) != [] && confirmed)
      ensures imageList == (if cleared then [] else old(imageList))
      ensures currentImage == old(currentImage)
    {
      if imageList == [] {
        return false;
      }
      cleared := confirmed;
      if cleared {
        imageList := [];
      }
    }

    /** Stacks the pending images, opens a viewer on the result (whose external
        contours are `regions`) and clears the list; with no pending image, warns
        and changes nothing. */
    method ProcessImages(regions: seq<Region>) returns (combined: array2?<Pixel>, viewer: ImageViewer?)
      requires Valid()
      modifies this
      ensures Valid()
      ensures currentImage == old(currentImage)
      ensures old(imageList) == [] ==> combined == null && viewer == null && imageList == []
      ensures old(imageList) != [] ==>
                combined != null && fresh(combined) &&
                combined.Length0 == TotalHeight(old(imageList)) &&
                combined.Length1 == MaxWidth(old(imageList)) &&
                (forall r, c :: 0 <= r < combined.Length0 && 0 <= c < combined.Length1 ==>
                   combined[r, c] == StackedPixel(old(imageList), r, c)) &&
                viewer != null && fresh(viewer) &&
                viewer.imageList == Segment(Snapshot(combined), regions) &&
                imageList == []
    {
      if imageList == [] {
        return null, null;
      }
      var stacked := Stack(imageList);
      combined := stacked;
      viewer := new ImageViewer(Snapshot(stacked), regions);
      imageList := [];
    }
  }
}
