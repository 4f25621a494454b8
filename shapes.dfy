/**
 * The two OpenCV value types simcrop computes with: `cv::Size` and `cv::Rect`,
 * both with `int` fields.
 */
module Shapes {

  /** A width and a height in pixels (`cv::Size`). */
  datatype Size = Size(width: int, height: int) {

    /** `cv::Size::empty()`: the size has no area. */
    predicate IsEmpty() {
      width <= 0 || height <= 0
    }
  }

  /** The default-constructed `Size()`, which stands for "no geometry was given". */
  const NoGeometry := Size(0, 0)

  /** An axis-aligned rectangle: its top-left corner, its width and its height (`cv::Rect`). */
  datatype Rect = Rect(x: int, y: int, width: int, height: int) {

    /** `cv::Rect::empty()`: the rectangle has no area. An empty selection means "cancelled". */
    predicate IsEmpty() {
      width <= 0 || height <= 0
    }
  }
}
