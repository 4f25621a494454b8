/**
 * `calcOriginalRect`: a rectangle chosen on a resized image, scaled back to the
 * size of the original image.
 *
 * The scale factors are quotients of `int` fields, so they are integer
 * divisions (truncated toward zero, as C++ divides) even though the program
 * stores them in `double`s. Each output field is then an input field times an
 * integer, which the `double` holds exactly and the conversion back to `int`
 * keeps unchanged.
 */
module Rescale {
  import opened Shapes

  /** C++ division of two `int`s: the quotient truncated toward zero. */
  function Quot(a: int, b: int): (q: int)
    requires b != 0
    ensures a >= 0 && b > 0 ==> q == a / b
  {
    var m := (if a < 0 then -a else a) / (if b < 0 then -b else b);
    if (a < 0) == (b < 0) then m else -m
  }

  /** A number divided by itself is 1. */
  lemma QuotSelf(a: int)
    requires a != 0
    ensures Quot(a, a) == 1
  {
    var m := if a < 0 then -a else a;
    assert m / m == 1;
  }

  function CalcOriginalRect(resized: Rect, newSize: Size, origSize: Size): (r: Rect)
    requires newSize.width != 0 && newSize.height != 0
    ensures newSize == origSize ==> r == resized
  {
    var rx := Quot(origSize.width, newSize.width);
    var ry := Quot(origSize.height, newSize.height);
    assert newSize == origSize ==> rx == 1 && ry == 1 by {
      if newSize == origSize {
        QuotSelf(newSize.width);
        QuotSelf(newSize.height);
      }
    }
    Rect(resized.x * rx, resized.y * ry, resized.width * rx, resized.height * ry)
  }

  lemma MulLeft(a: int, b: int, c: nat)
    requires a <= b
    ensures a * c <= b * c
  {
  }

  /** The integer scale factor never overshoots: `(o / n) * n <= o`. */
  lemma ScaleBelowRatio(o: nat, n: int)
    requires n > 0
    ensures (o / n) * n <= o
  {
  }

  /**
   * A rectangle that lies in the resized canvas is mapped into the original canvas:
   * because each scale is rounded down, the mapped far edge stays inside.
   */
  lemma CalcOriginalRectFits(resized: Rect, newSize: Size, origSize: Size)
    requires newSize.width > 0 && newSize.height > 0
    requires origSize.width >= 0 && origSize.height >= 0
    requires resized.x >= 0 && resized.y >= 0 && resized.width >= 0 && resized.height >= 0
    requires resized.x + resized.width <= newSize.width
    requires resized.y + resized.height <= newSize.height
    ensures var r := CalcOriginalRect(resized, newSize, origSize);
      && r.x >= 0 && r.y >= 0 && r.width >= 0 && r.height >= 0
      && r.x + r.width <= origSize.width
      && r.y + r.height <= origSize.height
  {
    var r := CalcOriginalRect(resized, newSize, origSize);
    var rx := origSize.width / newSize.width;
    var ry := origSize.height / newSize.height;
    assert r == Rect(resized.x * rx, resized.y * ry, resized.width * rx, resized.height * ry);
    FitsOneAxis(resized.x, resized.width, newSize.width, origSize.width);
    FitsOneAxis(resized.y, resized.height, newSize.height, origSize.height);
  }

  /** One axis of `CalcOriginalRectFits`. */
  lemma FitsOneAxis(p: nat, len: nat, n: int, o: nat)
    requires n > 0 && p + len <= n
    ensures 0 <= p * (o / n) && 0 <= len * (o / n)
    ensures p * (o / n) + len * (o / n) <= o
  {
    var s := o / n;
    calc {
      p * s + len * s;
    ==
      (p + len) * s;
    <= { MulLeft(p + len, n, s); }
      n * s;
    <= { ScaleBelowRatio(o, n); }
      o;
    }
  }

  /**
   * Each mapped field is at most the exact proportional value `field * orig / new`,
   * and equals it when the new extent divides the original one.
   */
  lemma CalcOriginalRectBelowExact(resized: Rect, newSize: Size, origSize: Size)
    requires newSize.width > 0 && newSize.height > 0
    requires origSize.width >= 0 && origSize.height >= 0
    requires resized.x >= 0 && resized.y >= 0 && resized.width >= 0 && resized.height >= 0
    ensures var r := CalcOriginalRect(resized, newSize, origSize);
      && r.x * newSize.width <= resized.x * origSize.width
      && r.y * newSize.height <= resized.y * origSize.height
      && r.width * newSize.width <= resized.width * origSize.width
      && r.height * newSize.height <= resized.height * origSize.height
    ensures origSize.width % newSize.width == 0 && origSize.height % newSize.height == 0 ==>
      CalcOriginalRect(resized, newSize, origSize).x * newSize.width == resized.x * origSize.width
      && CalcOriginalRect(resized, newSize, origSize).y * newSize.height == resized.y * origSize.height
      && CalcOriginalRect(resized, newSize, origSize).width * newSize.width == resized.width * origSize.width
      && CalcOriginalRect(resized, newSize, origSize).height * newSize.height == resized.height * origSize.height
  {
    BelowExactOneAxis(resized.x, newSize.width, origSize.width);
    BelowExactOneAxis(resized.width, newSize.width, origSize.width);
    BelowExactOneAxis(resized.y, newSize.height, origSize.height);
    BelowExactOneAxis(resized.height, newSize.height, origSize.height);
  }

  /** One field of `CalcOriginalRectBelowExact`. */
  lemma BelowExactOneAxis(v: nat, n: int, o: nat)
    requires n > 0
    ensures v * (o / n) * n <= v * o
    ensures o % n == 0 ==> v * (o / n) * n == v * o
  {
    var s := o / n;
    assert v * s * n == v * (s * n);
    ScaleBelowRatio(o, n);
    MulLeft(s * n, o, v);
    assert v * (s * n) == (s * n) * v;
    assert o == s * n + o % n;
  }

  /** Selecting on a 960x540 preview of a 1920x1080 image doubles every field. */
  lemma CalcOriginalRectHalfScale()
    ensures CalcOriginalRect(Rect(50, 50, 100, 75), Size(960, 540), Size(1920, 1080))
         == Rect(100, 100, 200, 150)
  {
  }
}
