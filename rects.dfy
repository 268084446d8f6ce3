/**
 * The bounding box of the tracker demo: an OpenCV `cv::Rect`, an origin
 * and a size in pixels. While the user drags, the size is signed; on button
 * release the box is normalised so that both extents are non-negative.
 */
module Rects {

  /** Origin (x, y) and signed size (width, height), in frame pixels. */
  datatype Rect = Rect(x: int, y: int, width: int, height: int)

  function Min(a: int, b: int): int { if a <= b then a else b }

  function Max(a: int, b: int): int { if a <= b then b else a }

  function Abs(a: int): nat { if a < 0 then -a else a }

  /** The closed interval [lo, hi] that an origin and a signed extent cover on one axis. */
  datatype Span = Span(lo: int, hi: int)

  function Cover(origin: int, extent: int): Span
  {
    Span(Min(origin, origin + extent), Max(origin, origin + extent))
  }

  /** Both extents are non-negative. */
  predicate IsNormal(r: Rect)
  {
    r.width >= 0 && r.height >= 0
  }

  /** A box with zero width or zero height: the release handler refuses to commit it. */
  predicate IsDegenerate(r: Rect)
  {
    r.width == 0 || r.height == 0
  }

  /**
   * The normalisation performed on left-button release: whenever an extent
   * is negative, the origin moves by that extent and the extent is negated.
   * The result is normal and covers exactly the pixels the dragged box covered.
   */
  function Normalize(b: Rect): (r: Rect)
    ensures IsNormal(r)
    ensures Cover(r.x, r.width) == Cover(b.x, b.width)
    ensures Cover(r.y, r.height) == Cover(b.y, b.height)
    ensures IsDegenerate(r) <==> IsDegenerate(b)
  {
    var x := if b.width < 0 then b.x + b.width else b.x;
    var width := if b.width < 0 then -b.width else b.width;
    var y := if b.height < 0 then b.y + b.height else b.y;
    var height := if b.height < 0 then -b.height else b.height;
    Rect(x, y, width, height)
  }

  /** The closed form of the normalisation: origin' = origin + min(0, size), size' = |size|. */
  lemma NormalizeShiftsOrigin(b: Rect)
    ensures Normalize(b).x == b.x + Min(0, b.width) && Normalize(b).width == Abs(b.width)
    ensures Normalize(b).y == b.y + Min(0, b.height) && Normalize(b).height == Abs(b.height)
  {
  }

  /**
   * Normalize is the only normal box covering the same intervals: it is
   * determined by what the dragged box covers, not by the drag direction.
   */
  lemma NormalizeUnique(b: Rect, r: Rect)
    requires IsNormal(r)
    requires Cover(r.x, r.width) == Cover(b.x, b.width)
    requires Cover(r.y, r.height) == Cover(b.y, b.height)
    ensures r == Normalize(b)
  {
    var n := Normalize(b);
    assert Cover(r.x, r.width) == Cover(n.x, n.width);
    assert Cover(r.y, r.height) == Cover(n.y, n.height);
  }

  /** Normalising a normal box changes nothing; hence normalising twice is normalising once. */
  lemma NormalizeIdempotent(b: Rect)
    ensures IsNormal(b) ==> Normalize(b) == b
    ensures Normalize(Normalize(b)) == Normalize(b)
  {
  }
}
