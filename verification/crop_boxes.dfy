/**
 Turning mark rectangles into pixel boxes of a screenshot: all of them or none, each one inside the
 image and non-empty, and separated when the marks are.
 */
module CropBoxes {
  import opened Common

  datatype Rect = Rect(x: real, y: real, width: real, height: real)

  datatype Box = Box(left: int, top: int, right: int, bottom: int)

  /** Python's `round`: to the nearest integer, ties to the even one. */
  function Round(x: real): (n: int)
    ensures -0.5 <= n as real - x <= 0.5
    ensures (n as real - x == 0.5 || x - n as real == 0.5) ==> n % 2 == 0
  {
    var low := x.Floor;
    var rest := x - low as real;
    if rest < 0.5 then low
    else if rest > 0.5 then low + 1
    else if low % 2 == 0 then low else low + 1
  }

  lemma RoundIsMonotone(x: real, y: real)
    requires x <= y
    ensures Round(x) <= Round(y)
  {
  }

  function Larger(a: int, b: int): int
  {
    if a > b then a else b
  }

  function Smaller(a: int, b: int): int
  {
    if a < b then a else b
  }

  /** One axis of a mark: from `start`, `length` long, on an image of `size` pixels. */
  function Near(size: int, start: real, scale: real): int
  {
    Larger(0, Smaller(size, Round(start * scale)))
  }

  function Far(size: int, start: real, length: real, scale: real): int
  {
    Larger(Near(size, start, scale) + 1, Smaller(size, Round((start + length) * scale)))
  }

  /** The factor from viewport to image units, 1 when the viewport is unknown. */
  function Scale(size: int, viewport: (real, real), horizontal: bool): (s: real)
    requires size > 0
    ensures s > 0.0
  {
    if viewport.0 > 1.0 && viewport.1 > 1.0 then size as real / (if horizontal then viewport.0 else viewport.1) else 1.0
  }

  function BoxOf(width: int, height: int, viewport: (real, real), r: Rect): Box
    requires width > 0 && height > 0
  {
    var sx, sy := Scale(width, viewport, true), Scale(height, viewport, false);
    Box(Near(width, r.x, sx), Near(height, r.y, sy), Far(width, r.x, r.width, sx), Far(height, r.y, r.height, sy))
  }

  /** A mark gives a box when it has a positive size and starts left of and above the far edges of
      the image after rounding. */
  predicate Croppable(width: int, height: int, viewport: (real, real), mark: Option<Rect>)
    requires width > 0 && height > 0
  {
    && mark.Some? && mark.value.width > 0.0 && mark.value.height > 0.0
    && Near(width, mark.value.x, Scale(width, viewport, true)) < width
    && Near(height, mark.value.y, Scale(height, viewport, false)) < height
  }

  predicate IsBoxOf(width: int, height: int, viewport: (real, real), mark: Option<Rect>, b: Box)
    requires width > 0 && height > 0
  {
    mark.Some? && b == BoxOf(width, height, viewport, mark.value)
  }

  /** `crop_boxes`; a mark without bounds is None. */
  method Crop(width: int, height: int, marks: seq<Option<Rect>>, viewport: (real, real)) returns (boxes: seq<Box>)
    ensures boxes == [] <==> width <= 0 || height <= 0 || marks == []
                             || exists i :: 0 <= i < |marks| && !Croppable(width, height, viewport, marks[i])
    ensures boxes != [] ==> |boxes| == |marks| && forall i :: 0 <= i < |marks| ==> IsBoxOf(width, height, viewport, marks[i], boxes[i])
  {
    hide Near, Far, Croppable, BoxOf, Scale, IsBoxOf;
    boxes := [];
    if width <= 0 || height <= 0 || marks == [] {
      return;
    }
    var scaleX, scaleY := 1.0, 1.0;
    if viewport.0 > 1.0 && viewport.1 > 1.0 {
      scaleX, scaleY := width as real / viewport.0, height as real / viewport.1;
    }
    ScalesAre(width, height, viewport);
    for i := 0 to |marks|
      invariant |boxes| == i
      invariant forall j :: 0 <= j < i ==> Croppable(width, height, viewport, marks[j])
      invariant forall j :: 0 <= j < i ==> IsBoxOf(width, height, viewport, marks[j], boxes[j])
    {
      CroppableMeans(width, height, viewport, marks[i]);
      if marks[i].None? {
        return [];
      }
      var r := marks[i].value;
      if r.width <= 0.0 || r.height <= 0.0 {
        return [];
      }
      var left := Near(width, r.x, scaleX);
      var top := Near(height, r.y, scaleY);
      var right := Far(width, r.x, r.width, scaleX);
      var bottom := Far(height, r.y, r.height, scaleY);
      if left >= width || top >= height || right <= left || bottom <= top {
        return [];
      }
      boxes := boxes + [Box(left, top, right, bottom)];
    }
  }

  lemma ScalesAre(width: int, height: int, viewport: (real, real))
    requires width > 0 && height > 0
    ensures var known := viewport.0 > 1.0 && viewport.1 > 1.0;
            && Scale(width, viewport, true) == (if known then width as real / viewport.0 else 1.0)
            && Scale(height, viewport, false) == (if known then height as real / viewport.1 else 1.0)
  {
  }

  /** The early exits of the loop are exactly the failures of `Croppable`, and the box it appends
      otherwise is the one of the mark. */
  lemma CroppableMeans(width: int, height: int, viewport: (real, real), mark: Option<Rect>)
    requires width > 0 && height > 0
    ensures mark.None? ==> !Croppable(width, height, viewport, mark)
    ensures mark.Some? ==>
              var r, sx, sy := mark.value, Scale(width, viewport, true), Scale(height, viewport, false);
              var b := Box(Near(width, r.x, sx), Near(height, r.y, sy), Far(width, r.x, r.width, sx), Far(height, r.y, r.height, sy));
              && IsBoxOf(width, height, viewport, mark, b)
              && (Croppable(width, height, viewport, mark)
                  <==> !(r.width <= 0.0 || r.height <= 0.0 || b.left >= width || b.top >= height || b.right <= b.left || b.bottom <= b.top))
  {
  }

  /** Every box that is produced is non-empty and inside the image. */
  lemma BoxesAreInside(width: int, height: int, viewport: (real, real), mark: Option<Rect>)
    requires width > 0 && height > 0 && Croppable(width, height, viewport, mark)
    ensures var b := BoxOf(width, height, viewport, mark.value);
            0 <= b.left < b.right <= width && 0 <= b.top < b.bottom <= height
  {
  }

  /** The box spans at least one pixel of its own, without the one-pixel minimum. */
  predicate SpansPixel(size: int, start: real, length: real, scale: real)
  {
    Smaller(size, Round((start + length) * scale)) > Near(size, start, scale)
  }

  lemma Scaled(a: real, la: real, b: real, scale: real)
    requires scale > 0.0 && la > 0.0 && a + la <= b
    ensures Round(a * scale) <= Round((a + la) * scale) <= Round(b * scale)
  {
    hide Round;
    assert (a + la) * scale == a * scale + la * scale;
    assert (b - (a + la)) * scale >= 0.0;
    assert b * scale == (a + la) * scale + (b - (a + la)) * scale;
    RoundIsMonotone(a * scale, (a + la) * scale);
    RoundIsMonotone((a + la) * scale, b * scale);
  }

  /** Two marks one after the other on an axis: their boxes are separated there if and only if they
      start at different pixels, which they do whenever the first one spans a pixel after rounding. */
  lemma SeparationSurvivesRounding(size: int, a: real, la: real, b: real, scale: real)
    requires size > 0 && scale > 0.0 && la > 0.0 && a + la <= b
    ensures Near(size, a, scale) <= Near(size, b, scale)
    ensures Far(size, a, la, scale) <= Near(size, b, scale) <==> Near(size, a, scale) != Near(size, b, scale)
    ensures SpansPixel(size, a, la, scale) ==> Far(size, a, la, scale) <= Near(size, b, scale)
  {
    hide Round;
    Scaled(a, la, b, scale);
  }

  /** The same about the boxes of two marks, one to the left of the other or one above the other. */
  lemma {:induction false} BoxesStaySeparated(width: int, height: int, viewport: (real, real), r: Rect, s: Rect)
    requires width > 0 && height > 0 && r.width > 0.0 && r.height > 0.0
    ensures var b, c := BoxOf(width, height, viewport, r), BoxOf(width, height, viewport, s);
            && (r.x + r.width <= s.x ==> (b.right <= c.left <==> b.left != c.left))
            && (r.y + r.height <= s.y ==> (b.bottom <= c.top <==> b.top != c.top))
  {
    hide Near, Far, Scale;
    if r.x + r.width <= s.x {
      SeparationSurvivesRounding(width, r.x, r.width, s.x, Scale(width, viewport, true));
    }
    if r.y + r.height <= s.y {
      SeparationSurvivesRounding(height, r.y, r.height, s.y, Scale(height, viewport, false));
    }
  }

  /** A mark has no box exactly when it has no size or its near corner, to the nearest pixel, lies to the
      right of the image or below it. */
  lemma DroppedIffOutside(width: int, height: int, viewport: (real, real), r: Rect, left: real, top: real)
    requires width > 0 && height > 0
    requires left == r.x * Scale(width, viewport, true) && top == r.y * Scale(height, viewport, false)
    ensures Croppable(width, height, viewport, Some(r)) <==> r.width > 0.0 && r.height > 0.0 && Round(left) < width && Round(top) < height
  {
    hide Near, Round, Scale;
    NearIsInside(width, r.x, Scale(width, viewport, true), left);
    NearIsInside(height, r.y, Scale(height, viewport, false), top);
  }

  lemma NearIsInside(size: int, start: real, scale: real, scaled: real)
    requires size > 0 && scaled == start * scale
    ensures Near(size, start, scale) < size <==> Round(scaled) < size
  {
    hide Round;
  }

  /** How exact a box is: an edge that is not clamped to the image lies within half a pixel of the mark's
      own edge, scaled from the viewport to the image, and a box is wider than that only to keep one
      pixel. */
  lemma EdgesAreExact(size: int, start: real, length: real, scale: real)
    requires size > 0 && scale > 0.0 && length > 0.0
    ensures var near, far := Near(size, start, scale), Far(size, start, length, scale);
            var from, to := start * scale, (start + length) * scale;
            && (0.0 <= from <= size as real ==> Abs(near as real - from) <= 0.5)
            && (from <= 0.0 ==> near == 0) && (from >= size as real ==> near == size)
            && far >= near + 1
            && (far == near + 1 || (0.0 <= to <= size as real ==> Abs(far as real - to) <= 0.5))
            && (far == near + 1 || (to >= size as real ==> far == size))
            && (0.0 <= to <= size as real ==> far as real >= to - 0.5) && (to >= size as real ==> far >= size)
  {
    hide Round;
  }

  /** ... in the units of the whole image: for a known viewport a mark is scaled by image size over
      viewport size on each axis, and for an unknown one not at all. */
  lemma BoxFollowsMark(width: int, height: int, viewport: (real, real), r: Rect)
    requires width > 0 && height > 0
    ensures var known := viewport.0 > 1.0 && viewport.1 > 1.0;
            var sx, sy := if known then width as real / viewport.0 else 1.0, if known then height as real / viewport.1 else 1.0;
            BoxOf(width, height, viewport, r)
            == Box(Near(width, r.x, sx), Near(height, r.y, sy), Far(width, r.x, r.width, sx), Far(height, r.y, r.height, sy))
  {
    hide Near, Far;
  }

  /** A mark narrower than a pixel can share its only pixel with its neighbour. */
  lemma TinyMarksCanOverlap()
    ensures Far(10, 0.0, 0.1, 1.0) > Near(10, 0.2, 1.0)
  {
  }
}
