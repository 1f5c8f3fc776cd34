/** Axis-aligned bounding boxes and the overlap test the game uses to end a run. */
module Geometry {

  /** A rectangle given by its top-left corner and its size, in canvas units. */
  datatype Rect = Rect(x: real, y: real, width: real, height: real)

  /** A rectangle with a positive area (every rectangle the game builds is one). */
  predicate Proper(a: Rect) {
    a.width > 0.0 && a.height > 0.0
  }

  /** The point (px, py) lies strictly inside `a`. */
  predicate Inside(a: Rect, px: real, py: real) {
    a.x < px < a.x + a.width && a.y < py < a.y + a.height
  }

  /** Strict overlap test on both axes, as the game's `collision` helper computes it. */
  predicate Collides(a: Rect, b: Rect) {
    a.x < b.x + b.width &&
    a.x + a.width > b.x &&
    a.y < b.y + b.height &&
    a.y + a.height > b.y
  }

  function Max(p: real, q: real): real { if p < q then q else p }
  function Min(p: real, q: real): real { if p < q then p else q }

  /** For rectangles with area, the four inequalities hold exactly when the two
      rectangles share an interior point: the reference meaning of "overlap". */
  lemma CollidesIffSharedPoint(a: Rect, b: Rect)
    requires Proper(a) && Proper(b)
    ensures Collides(a, b) <==> exists px, py :: Inside(a, px, py) && Inside(b, px, py)
  {
    if Collides(a, b) {
      var px := (Max(a.x, b.x) + Min(a.x + a.width, b.x + b.width)) / 2.0;
      var py := (Max(a.y, b.y) + Min(a.y + a.height, b.y + b.height)) / 2.0;
      assert Inside(a, px, py) && Inside(b, px, py);
    }
    if exists px, py :: Inside(a, px, py) && Inside(b, px, py) {
      var px, py :| Inside(a, px, py) && Inside(b, px, py);
      assert a.x < px < b.x + b.width && b.x < px < a.x + a.width;
      assert a.y < py < b.y + b.height && b.y < py < a.y + a.height;
    }
  }

  /** Overlap does not depend on the order of the arguments. */
  lemma CollidesSymmetric(a: Rect, b: Rect)
    ensures Collides(a, b) <==> Collides(b, a)
  {
  }

  /** Rectangles whose edges merely touch, on either axis, do not collide. */
  lemma TouchingEdgesDoNotCollide(a: Rect, b: Rect)
    requires a.x + a.width == b.x || b.x + b.width == a.x ||
             a.y + a.height == b.y || b.y + b.height == a.y
    ensures !Collides(a, b)
  {
  }

  /** Two worked examples: a diagonal overlap and a shared edge. */
  lemma CollidesExamples()
    ensures Collides(Rect(0.0, 0.0, 10.0, 10.0), Rect(5.0, 5.0, 10.0, 10.0))
    ensures !Collides(Rect(0.0, 0.0, 10.0, 10.0), Rect(10.0, 0.0, 10.0, 10.0))
  {
  }
}
