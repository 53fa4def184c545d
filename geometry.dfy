/** Axis-aligned rectangles as pygame's `Rect` describes them: a top-left
    corner plus a width and a height, covering the half-open area
    [left, left + width) x [top, top + height). */
module Geometry {

  datatype Rect = Rect(left: int, top: int, width: int, height: int) {
    function Right(): int { left + width }
    function Bottom(): int { top + height }
  }

  /** `colliderect`: the two areas share an interior point. Rectangles
      that only touch along an edge do not collide. */
  predicate Collides(a: Rect, b: Rect) {
    a.left < b.Right() && b.left < a.Right() &&
    a.top < b.Bottom() && b.top < a.Bottom()
  }
}
