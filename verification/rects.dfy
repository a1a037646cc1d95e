/** Integer axis-aligned rectangles with the geometry of `pygame.Rect`:
    a top-left corner (x, y) and a size (w, h), with right = x + w and
    bottom = y + h. */
module Rects {

  datatype Rect = Rect(x: int, y: int, w: nat, h: nat) {

    function Left(): int { x }
    function Top(): int { y }
    function Right(): int { x + w }
    function Bottom(): int { y + h }

    /** pygame's `centerx`/`centery`: top-left plus half the size, rounded down. */
    function CenterX(): int { x + w / 2 }
    function CenterY(): int { y + h / 2 }

    /** The pixel (px, py) is covered by the rectangle (right and bottom edges
        are exclusive). */
    predicate ContainsPixel(px: int, py: int) {
      x <= px < x + w && y <= py < y + h
    }
  }

  /** `Rect.colliderect`: the open intervals overlap on both axes; a rectangle
      of zero width or height collides with nothing. */
  predicate Colliderect(a: Rect, b: Rect) {
    a.w > 0 && a.h > 0 && b.w > 0 && b.h > 0 &&
    a.Left() < b.Right() && b.Left() < a.Right() &&
    a.Top() < b.Bottom() && b.Top() < a.Bottom()
  }

  /** Two rectangles collide exactly when some pixel lies in both. */
  lemma ColliderectIffSharedPixel(a: Rect, b: Rect)
    ensures Colliderect(a, b) <==>
            exists px, py :: a.ContainsPixel(px, py) && b.ContainsPixel(px, py)
  {
    if Colliderect(a, b) {
      var px := if a.x >= b.x then a.x else b.x;
      var py := if a.y >= b.y then a.y else b.y;
      assert a.ContainsPixel(px, py) && b.ContainsPixel(px, py);
    }
  }

  /** `get_rect(center=(cx, cy))` on a surface of size w×h: the rectangle of
      that size whose centre is (cx, cy). */
  function CenteredAt(cx: int, cy: int, w: nat, h: nat): (r: Rect)
    ensures r.w == w && r.h == h
    ensures r.CenterX() == cx && r.CenterY() == cy
  {
    Rect(cx - w / 2, cy - h / 2, w, h)
  }
}
