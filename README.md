# Image splitter: a Dafny model of its core

The program takes a composite screenshot and cuts it into sub-images. It then
pastes the sub-images one by one into a spreadsheet-like application, using
the clipboard and simulated key presses. This project models three parts of
`image_splitter.py` and proves what they promise:

- **Segmentation** (`ImageViewer.process_and_display_images`). A contour is
  kept when its area is above 1000 and both sides of its bounding box are
  above 50. The kept boxes are sorted with Python's stable `list.sort` by the
  key `(y // 100, x)`. Each box is cut out with a 2-pixel inset, using
  numpy's slice semantics. Every non-empty crop is appended to the viewer's
  image list.
- **Replay** (`ImageViewer.start_auto_copy`). One click produces a trace of
  dialogs, clipboard writes and key presses. Three inputs drive it: the
  operator's yes/no answer, whether ESC is held before item i, and whether the
  clipboard write of item i succeeds.
- **Stacking and the pending list** (`MainApp`). Pasted images are collected
  in a pending list. They are then stacked top to bottom, left-aligned, into a
  zero-filled buffer. A viewer is opened on the result, and the list is cleared.

Modules: `Raster` (pixels, images), `Regions` (boxes, the keep filter),
`Ordering` (the reading-order sort), `Cropping` (inset crops, the whole
segmentation as `Segment`), `Replay` (the trace and the grid cursor),
`Viewer` (class `ImageViewer`), `Stacking` (the stacked buffer) and `App`
(class `MainApp`).

The model follows the code as written:

- A failed clipboard write does not end the run. The code shows an error and
  goes on with the next item, with no paste and no cursor move for the failed
  one.
- After ESC stops the loop, the "all images copied" dialog is still shown.
- The grid width 3 is fixed, and the wrap is always down, left, left.
- `start_auto_copy` returns nothing. Whether a run stopped early can only be
  read from the trace.

Python's `y // 100` rounds down. Dafny's `/` with the positive divisor 100
rounds down as well (`Ordering.RowBucketIsFloor`), so the model uses `/`.

## Model

| member | source | states |
|---|---|---|
| Regions.Keep | image_splitter.py:125-128 | A region is kept when its area is above 1000 and both sides of its bounding box are above 50. |
| Regions.KeptBoxes | image_splitter.py:121-129 | The boxes of the kept regions, in contour order: the list the filter loop builds. |
| Regions.ValidContours | image_splitter.py:121-129 | The loop builds exactly the boxes of the kept regions, in contour order. |
| Regions.KeptBoxesMembership | image_splitter.py:124-129 | A box is in the output exactly when some region has that box, an area above 1000, and width and height above 50. |
| Regions.KeptBoxesBounds | image_splitter.py:128-129 | Every kept box is more than 50 pixels wide and more than 50 pixels high. |
| Regions.KeptBoxesAppend | image_splitter.py:121-129 | Filtering commutes with concatenation, so kept boxes stay in contour order. |
| Regions.BoundaryRejected | image_splitter.py:122-128 | The thresholds are strict: an area of exactly 1000, or a side of exactly 50, is dropped. |
| Ordering.KeyLe | image_splitter.py:131 | Python's tuple comparison on the keys `(y // 100, x)`: bucket first, then x. |
| Ordering.SortByKey | image_splitter.py:131 | The `list.sort` call: an insertion sort by key that keeps its input's length. It is sorted, a permutation and stable by the lemmas below. |
| Ordering.RowBucketIsFloor | image_splitter.py:131 | The row bucket is the floor of y / 100, matching Python's `//`. |
| Ordering.SortByKeySortedPermutation | image_splitter.py:131 | The sorted list is non-decreasing in `(y // 100, x)` and is a permutation of its input. |
| Ordering.SortByKeyStable | image_splitter.py:131 | For every key, the boxes with that key keep their relative order. |
| Ordering.SortedUnique | image_splitter.py:131 | Two sorted lists with the same boxes per key, in the same order, are equal. |
| Ordering.StableSortIsSortByKey | image_splitter.py:131 | Any sorted, stable rearrangement of the boxes (what `list.sort` returns) equals the model's sort. |
| Cropping.Crop | image_splitter.py:137-138 | The slice `image[y+2:y+h-2, x+2:x+w-2]` with numpy's bounds, as a well-formed image. |
| Cropping.CropAll | image_splitter.py:133-150 | The images the display loop appends for a list of boxes: each crop whose size is positive, in box order. |
| Cropping.Segment | image_splitter.py:115-150 | The whole segmentation: filter, sort, then the crops that are not empty. |
| Cropping.SliceBound | image_splitter.py:138 | A slice bound lands in 0 .. n, and a bound already in 0 .. n is unchanged. |
| Cropping.CropInside | image_splitter.py:137-138 | For a box inside the canvas, the crop is (h-4) x (w-4) pixels. Pixel (i, j) of the crop is canvas pixel (y+2+i, x+2+j). |
| Cropping.KeptCropNonEmpty | image_splitter.py:140 | The crop of a kept box inside the canvas has positive size, so the `roi.size > 0` test always passes. |
| Cropping.CropAllEveryBox | image_splitter.py:133-148 | When no crop is empty, the loop appends one crop per box, in box order. |
| Cropping.SegmentOnePerKeptBox | image_splitter.py:115-148 | When all contours lie in the canvas, segmentation yields one image per kept box. Image k is the crop of the k-th box in sorted order. |
| Viewer.ImageViewer.constructor | image_splitter.py:23-58 | A new viewer's image list is the segmentation of its canvas. |
| Viewer.ImageViewer.ProcessAndDisplayImages | image_splitter.py:115-155 | The image list gains the segmentation of the canvas, appended after what it held. |
| Viewer.ImageViewer.DisplayCrops | image_splitter.py:133-150 | The display loop appends, after what the list held, exactly the non-empty inset crops of the sorted boxes, in their order. |
| Viewer.ImageViewer.StartAutoCopy | image_splitter.py:78-113 | The replay loop issues exactly the trace `ReplayTrace` describes for the list's length, the answer and the two oracles. |
| Replay.Advance | image_splitter.py:103-108 | The cursor moves after item i is pasted: down, left, left when (i+1) % 3 == 0, otherwise right. |
| Replay.ItemActions | image_splitter.py:99-108 | One item past the ESC check: the copy, then either the paste and the move, or the error dialog. |
| Replay.Steps | image_splitter.py:94-110 | The loop from item i on: "stopped" and the end of the loop at the first ESC, otherwise each item's actions in turn. |
| Replay.ReplayTrace | image_splitter.py:78-113 | The whole click: a warning for an empty list, the question, then with yes the loop and the "done" dialog. |
| Replay.FirstEscape | image_splitter.py:94-97 | Returns the first index at which ESC is held, or n if there is none. ESC is not held at any earlier index. |
| Replay.NoReplayWithoutImagesOrConsent | image_splitter.py:79-90 | An empty list, or any answer but yes, issues no clipboard write and no key press. The question is asked only when there are images. |
| Replay.StepsSplit | image_splitter.py:94-110 | Without ESC before item k, running items i..k-1 and then k..n-1 is the same as running i..n-1. |
| Replay.ItemBlock | image_splitter.py:94-110 | Take an item i reached before any ESC. The loop's actions are those of the earlier items, then item i's own actions, then the run from item i+1. A failed copy issues only the copy and the error dialog, with no paste and no move. |
| Replay.EscapeStops | image_splitter.py:94-112 | When ESC is first held before item m < n, the trace is items 0..m-1, then "stopped", then "done". |
| Replay.ReplayCopiesPrefix | image_splitter.py:94-99 | A copy is attempted for exactly items 0..m-1, each once and in order, where m is the first ESC index. |
| Replay.ItemAdvancesCursor | image_splitter.py:99-108 | Pasting item i at grid cell (i / 3, i % 3) and then advancing moves the cursor to the cell of item i+1. |
| Replay.ReplayFillsGridRowMajor | image_splitter.py:99-108 | With no ESC and every copy succeeding, the k-th paste lands in row k / 3, column k % 3 of the table. |
| Replay.MovesOfItem | image_splitter.py:103-108 | A successful item moves the cursor down, left, left when (i+1) % 3 == 0, and right otherwise. |
| Replay.StepsMoves | image_splitter.py:94-108 | With no ESC and every copy succeeding from item i on, the cursor moves are each item's advance, in item order. |
| Replay.FiveItemMoves | image_splitter.py:103-108 | Five successful items give the moves right, right, down, left, left, right, right. |
| Stacking.TotalHeight | image_splitter.py:308 | The sum of the images' heights. |
| Stacking.TotalHeightBounds | image_splitter.py:308 | Every image, and the stack of any prefix of the list, fits within the total height. |
| Stacking.Offset | image_splitter.py:312-317 | The value of `y_offset` when image k is written: the sum of the earlier heights. |
| Stacking.MaxWidth | image_splitter.py:309 | The width is at least every image's width, and equal to one of them. |
| Stacking.OffsetBounds | image_splitter.py:312-317 | Each image's offset is the previous offset plus the previous height, and each block fits within the total height. |
| Stacking.StackedPixel | image_splitter.py:311-316 | The pixel at row r, column c of the stacked buffer: from the image whose rows cover r when c is within its width, and zero otherwise. |
| Stacking.BlocksOrdered | image_splitter.py:312-317 | The blocks lie top to bottom in list order, so no two images overlap. |
| Stacking.StackedPixelInBlock | image_splitter.py:314-316 | Row r of image k sits at row offset_k + r, left-aligned. Columns beyond the image's width stay zero. |
| Stacking.BlockOf | image_splitter.py:308-317 | Every row of the stack lies in the block of exactly one image. |
| Stacking.WriteBlock | image_splitter.py:316 | The slice assignment writes the image at rows top .. top+h-1, columns 0 .. w-1, and leaves every other cell as it was. |
| Stacking.Stack | image_splitter.py:308-317 | The buffer is (sum of heights) x (max width), and every cell equals the stacked pixel. |
| App.MainApp.constructor | image_splitter.py:163-164 | The app starts with no pending images and no current image. |
| App.MainApp.PasteImage | image_splitter.py:246-262 | A clipboard image becomes the current image. Without one, nothing changes. |
| App.MainApp.AddImage | image_splitter.py:264-271 | The current image is appended to the pending list exactly when there is one. |
| App.MainApp.ResetImages | image_splitter.py:292-300 | The list is cleared exactly when it is non-empty and the operator confirms. |
| App.MainApp.ProcessImages | image_splitter.py:302-322 | With pending images: returns the stacked buffer and a viewer whose list is its segmentation, and leaves the pending list empty. Otherwise changes nothing. |

## Left out

- Tk windows, scrolling, thumbnails, labels, the display grid and dialog texts are presentation. The replay's dialogs appear as trace events (`WarnNoImages`, `AskConfirm`, `CopyError`, `Stop`, `Done`). In `MainApp`, the warnings of paste, add and process appear as the methods' `false` or `null` results, and the yes/no of reset is the `confirmed` parameter.
- Grayscale conversion and binarisation are not modelled. `cv2.findContours`, `contourArea` and `boundingRect` are not modelled either. Each region's box and area are inputs; area is a real number, and floating-point rounding is not modelled.
- BGR/RGB channel swaps are left out. The clipboard image is stored exactly as given.
- The clipboard write (BMP encoding, header strip, `win32clipboard`) is left out. It is replaced by a success/failure oracle per item.
- `keyboard.is_pressed` is replaced by a per-item ESC oracle. `pyautogui` key sending becomes trace events. The sleeps, the 3-second countdown and minimising or restoring the window are not modelled.
- `resource_path` and the program's start-up code are not modelled.
- App.MainApp.ProcessImages: the `try`/`except` around stacking is not modelled. With well-formed 3-channel images, nothing in the stacking can fail.
- App.MainApp.PasteImage: a clipboard exception, and a clipboard result that is not an image, are not modelled.
- App.MainApp.ProcessImages: the contours of the stacked canvas are taken as an input (`regions`), because contour detection is not modelled.
