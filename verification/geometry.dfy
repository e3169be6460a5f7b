/**
  Axis-aligned integer rectangles, with the behaviour of pygame's `Rect`
  that the game relies on. pygame itself is not part of this model: the
  definitions below state the library semantics the game assumes
  (integer coordinates, centre computed with integer halving of the size,
  `colliderect` as strict overlap, `collidelist` as first match or -1).
*/
module Geometry {

  /** A rectangle with its top-left corner at (x, y), `w` wide and `h` high. */
  datatype Rect = Rect(x: int, y: int, w: int, h: int)

  function Left(r: Rect): int { r.x }
  function Right(r: Rect): int { r.x + r.w }
  function Top(r: Rect): int { r.y }
  function Bottom(r: Rect): int { r.y + r.h }

  /** pygame halves the size with integer division when it reports a centre. */
  function CenterX(r: Rect): int { r.x + r.w / 2 }
  function CenterY(r: Rect): int { r.y + r.h / 2 }

  /** `Rect.move(dx, dy)`: a copy shifted by (dx, dy), same size. */
  function Move(r: Rect, dx: int, dy: int): (m: Rect)
    ensures Left(m) == Left(r) + dx && Right(m) == Right(r) + dx
    ensures Top(m) == Top(r) + dy && Bottom(m) == Bottom(r) + dy
    ensures m.w == r.w && m.h == r.h
  {
    Rect(r.x + dx, r.y + dy, r.w, r.h)
  }

  /** Assigning `rect.center = (cx, cy)`: the rectangle keeps its size and
      is placed so that its reported centre is (cx, cy). */
  function WithCenter(r: Rect, cx: int, cy: int): (m: Rect)
    ensures CenterX(m) == cx && CenterY(m) == cy
    ensures m.w == r.w && m.h == r.h
  {
    Rect(cx - r.w / 2, cy - r.h / 2, r.w, r.h)
  }

  /** Assigning `rect.midbottom = (cx, b)`: centred on cx, bottom edge at b. */
  function WithMidBottom(r: Rect, cx: int, b: int): (m: Rect)
    ensures CenterX(m) == cx && Bottom(m) == b
    ensures m.w == r.w && m.h == r.h
  {
    Rect(cx - r.w / 2, b - r.h, r.w, r.h)
  }

  /** `colliderect`: both rectangles are non-empty and their interiors overlap
      on both axes. Rectangles that only share an edge do not collide. */
  predicate Collide(a: Rect, b: Rect) {
    && a.w != 0 && a.h != 0 && b.w != 0 && b.h != 0
    && Left(a) < Right(b) && Left(b) < Right(a)
    && Top(a) < Bottom(b) && Top(b) < Bottom(a)
  }

  /** `i` is the position of the first rectangle of `rs` that collides with `a`. */
  predicate FirstCollision(a: Rect, rs: seq<Rect>, i: int) {
    && 0 <= i < |rs|
    && Collide(a, rs[i])
    && forall j :: 0 <= j < i ==> !Collide(a, rs[j])
  }

  /** `collidelist`: the index of the first rectangle of `rs` that collides
      with `a`, or -1 when none does. */
  function CollideList(a: Rect, rs: seq<Rect>): (i: int)
    ensures -1 <= i < |rs|
    ensures i == -1 <==> forall j :: 0 <= j < |rs| ==> !Collide(a, rs[j])
    ensures i != -1 ==> FirstCollision(a, rs, i)
    ensures forall j :: FirstCollision(a, rs, j) ==> j == i
  {
    if |rs| == 0 then -1
    else if Collide(a, rs[0]) then 0
    else
      var k := CollideList(a, rs[1..]);
      if k == -1 then -1 else k + 1
  }

  /** Overlap does not depend on which rectangle is asked. */
  lemma CollideSymmetric(a: Rect, b: Rect)
    ensures Collide(a, b) <==> Collide(b, a)
  {
  }

  /** Rectangles that only share an edge, vertical or horizontal, do not
      collide. */
  lemma TouchingDoesNotCollide(a: Rect, b: Rect)
    requires Right(a) == Left(b) || Right(b) == Left(a) || Bottom(a) == Top(b) || Bottom(b) == Top(a)
    ensures !Collide(a, b) && !Collide(b, a)
  {
    CollideSymmetric(a, b);
  }
}
