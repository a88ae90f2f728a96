/**
 * The crop window of extract_view (download_building_aerial_images.py):
 * pure integer arithmetic on the centroid's pixel position in the mosaic.
 */
module Crop {
  import opened Common

  /** The square [top, top + size) x [left, left + size) of mosaic pixels. */
  datatype Window = Window(top: int, left: int, size: nat)

  /**
   * With h = outSize // 2 the window runs from centre - h to centre + h on
   * both axes; None is the ValueError raised when the window does not lie
   * strictly inside the height x width mosaic.
   */
  function CropWindow(row: int, col: int, outSize: nat, height: nat, width: nat): (w: Option<Window>)
    ensures w.Some? ==>
      && 0 <= w.value.top && w.value.top + w.value.size < height
      && 0 <= w.value.left && w.value.left + w.value.size < width
    ensures w.Some? ==> w.value.top + w.value.size / 2 == row && w.value.left + w.value.size / 2 == col
  {
    var h := outSize / 2;
    if row - h < 0 || col - h < 0 || row + h >= height || col + h >= width then None
    else Some(Window(row - h, col - h, 2 * h))
  }

  /**
   * Completeness: a centred window that leaves at least one pixel free
   * beyond its far edges is accepted.
   */
  lemma CropAccepted(row: int, col: int, outSize: nat, height: nat, width: nat)
    requires row - outSize / 2 >= 0 && col - outSize / 2 >= 0
    requires row + outSize / 2 < height && col + outSize / 2 < width
    ensures CropWindow(row, col, outSize, height, width).Some?
  {
  }

  /** The crop is outSize wide when outSize is even and one pixel narrower when it is odd. */
  lemma CropSize(row: int, col: int, outSize: nat, height: nat, width: nat)
    requires CropWindow(row, col, outSize, height, width).Some?
    ensures outSize % 2 == 0 ==> CropWindow(row, col, outSize, height, width).value.size == outSize
    ensures outSize % 2 == 1 ==> CropWindow(row, col, outSize, height, width).value.size == outSize - 1
  {
  }

  /**
   * The bounds test is strict: a window that would end exactly at the far
   * edge of the mosaic, and so fit it exactly, is refused.
   */
  lemma ExactFitRefused(outSize: nat)
    ensures CropWindow(outSize / 2, outSize / 2, outSize, 2 * (outSize / 2), 2 * (outSize / 2)).None?
  {
  }

  /** No centroid position can be cropped from a mosaic no taller or wider than the crop. */
  lemma CropNeedsLargerMosaic(row: int, col: int, outSize: nat, height: nat, width: nat)
    requires 2 * (outSize / 2) >= height || 2 * (outSize / 2) >= width
    ensures CropWindow(row, col, outSize, height, width).None?
  {
  }
}
