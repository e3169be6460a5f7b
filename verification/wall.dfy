/**
  The brick wall: `Wall.build_wall` lays `10 * (1 + level)` equal bricks left
  to right from (30, 60), starting a new row at the left margin whenever the
  next brick would pass `width - 30`. The number of rows is not capped.
*/
module Wall {
  import opened Geometry

  /** Horizontal margin on both sides of the wall. */
  const Margin := 30
  /** y coordinate of the first row. */
  const TopMargin := 60
  /** Bricks per level row: a level-L wall holds `10 * (1 + L)` bricks. */
  const BricksPerRow := 10

  /** Number of bricks for `level`; `range` of a non-positive count is empty. */
  function BrickCount(level: int): nat {
    if BricksPerRow * (1 + level) > 0 then BricksPerRow * (1 + level) else 0
  }

  /** The layout rule between two consecutive bricks: same size; the second
      abuts the first on its row unless it would pass the right margin, in
      which case it starts a new row at the left margin, one brick lower. */
  predicate Follows(width: int, a: Rect, b: Rect) {
    && b.w == a.w && b.h == a.h
    && if Right(a) + a.w > width - Margin
       then b.x == Margin && b.y == a.y + a.h
       else b.x == Right(a) && b.y == a.y
  }

  /** The loop of `build_wall` from a cursor at (x, y), with `n` bricks left. */
  function Lay(width: int, bl: int, bh: int, n: nat, x: int, y: int): (r: seq<Rect>)
    ensures |r| == n
    decreases n
  {
    if n == 0 then []
    else
      var wrap := x + bl > width - Margin;
      var nx := if wrap then Margin else x;
      var ny := if wrap then y + bh else y;
      [Rect(nx, ny, bl, bh)] + Lay(width, bl, bh, n - 1, nx + bl, ny)
  }

  /** Every brick of `r` is `bl` wide and `bh` high. */
  predicate Sized(r: seq<Rect>, bl: int, bh: int) {
    forall i :: 0 <= i < |r| ==> r[i].w == bl && r[i].h == bh
  }

  /** Each brick of `r` follows the one before it by the layout rule. */
  predicate RowsFollow(width: int, r: seq<Rect>) {
    forall i :: 0 <= i < |r| - 1 ==> Follows(width, r[i], r[i + 1])
  }

  /** Along `r`, brick y coordinates never decrease. */
  predicate RowsDescend(r: seq<Rect>) {
    forall i, j :: 0 <= i <= j < |r| ==> r[i].y <= r[j].y
  }

  /** Where the bricks laid from a cursor at (x, y) lie: the brick size, not
      left of the margin (when the cursor is not), not above the cursor's row,
      and not past the right margin when one brick fits between the margins. */
  predicate LaidInside(width: int, bl: int, bh: int, x: int, y: int, r: seq<Rect>) {
    && Sized(r, bl, bh)
    && (x >= Margin ==> forall i :: 0 <= i < |r| ==> r[i].x >= Margin)
    && (forall i :: 0 <= i < |r| ==> r[i].y >= y)
    && (Margin + bl <= width - Margin ==>
          forall i :: 0 <= i < |r| ==> Right(r[i]) <= width - Margin)
  }

  /** Bricks laid from any cursor lie as `LaidInside` describes. */
  lemma {:induction false} LayInside(width: int, bl: int, bh: int, n: nat, x: int, y: int)
    requires bl > 0 && bh > 0
    ensures LaidInside(width, bl, bh, x, y, Lay(width, bl, bh, n, x, y))
    decreases n
  {
    if n > 0 {
      var r := Lay(width, bl, bh, n, x, y);
      var wrap := x + bl > width - Margin;
      var nx := if wrap then Margin else x;
      var ny := if wrap then y + bh else y;
      var rest := Lay(width, bl, bh, n - 1, nx + bl, ny);
      assert r == [Rect(nx, ny, bl, bh)] + rest;
      LayInside(width, bl, bh, n - 1, nx + bl, ny);
      assert forall i :: 1 <= i < |r| ==> r[i] == rest[i - 1];
    }
  }

  /** Bricks laid from any cursor follow each other by the layout rule. */
  lemma {:induction false} LayFollows(width: int, bl: int, bh: int, n: nat, x: int, y: int)
    ensures RowsFollow(width, Lay(width, bl, bh, n, x, y))
    decreases n
  {
    if n > 0 {
      var r := Lay(width, bl, bh, n, x, y);
      var wrap := x + bl > width - Margin;
      var nx := if wrap then Margin else x;
      var ny := if wrap then y + bh else y;
      var rest := Lay(width, bl, bh, n - 1, nx + bl, ny);
      assert r == [Rect(nx, ny, bl, bh)] + rest;
      LayFollows(width, bl, bh, n - 1, nx + bl, ny);
      forall i | 1 <= i < |r| - 1
        ensures Follows(width, r[i], r[i + 1])
      {
        assert r[i] == rest[i - 1] && r[i + 1] == rest[i];
      }
      if n > 1 {
        assert Follows(width, r[0], r[1]);
      }
    }
  }

  /** Along bricks laid from any cursor, rows only go down. */
  lemma {:induction false} LayDescends(width: int, bl: int, bh: int, n: nat, x: int, y: int)
    requires bl > 0 && bh > 0
    ensures RowsDescend(Lay(width, bl, bh, n, x, y))
    decreases n
  {
    if n > 0 {
      var r := Lay(width, bl, bh, n, x, y);
      var wrap := x + bl > width - Margin;
      var nx := if wrap then Margin else x;
      var ny := if wrap then y + bh else y;
      var rest := Lay(width, bl, bh, n - 1, nx + bl, ny);
      assert r == [Rect(nx, ny, bl, bh)] + rest;
      LayInside(width, bl, bh, n - 1, nx + bl, ny);
      LayDescends(width, bl, bh, n - 1, nx + bl, ny);
      forall i, j | 0 <= i <= j < |r|
        ensures r[i].y <= r[j].y
      {
        if i > 0 {
          assert r[i] == rest[i - 1] && r[j] == rest[j - 1];
        } else if j > 0 {
          assert r[j] == rest[j - 1];
        }
      }
    }
  }

  /** `build_wall(width, level)` with bricks `bl` wide and `bh` high: a fresh
      wall that replaces the previous one, with the level's brick count,
      every brick inside the margins. */
  function BuildWall(width: int, level: int, bl: int, bh: int): (r: seq<Rect>)
    requires bl > 0 && bh > 0
    ensures level >= -1 ==> |r| == BricksPerRow * (1 + level)
    ensures Sized(r, bl, bh)
    ensures forall i :: 0 <= i < |r| ==> r[i].x >= Margin && r[i].y >= TopMargin
    ensures Margin + bl <= width - Margin ==>
              forall i :: 0 <= i < |r| ==> Right(r[i]) <= width - Margin
  {
    LayInside(width, bl, bh, BrickCount(level), Margin, TopMargin);
    Lay(width, bl, bh, BrickCount(level), Margin, TopMargin)
  }

  /** Consecutive bricks of a wall abut on a row or wrap to the next one, and
      the bricks' y coordinates never decrease along the wall. */
  lemma BuildWallOrder(width: int, level: int, bl: int, bh: int)
    requires bl > 0 && bh > 0
    ensures RowsFollow(width, BuildWall(width, level, bl, bh))
    ensures RowsDescend(BuildWall(width, level, bl, bh))
  {
    LayFollows(width, bl, bh, BrickCount(level), Margin, TopMargin);
    LayDescends(width, bl, bh, BrickCount(level), Margin, TopMargin);
  }

  /** The first brick sits at the left margin, on the first row when one
      brick fits between the margins and one row lower otherwise. */
  lemma FirstBrick(width: int, level: int, bl: int, bh: int)
    requires bl > 0 && bh > 0 && level >= 0
    ensures |BuildWall(width, level, bl, bh)| > 0
    ensures BuildWall(width, level, bl, bh)[0] ==
              Rect(Margin, if Margin + bl <= width - Margin then TopMargin else TopMargin + bh, bl, bh)
  {
  }

  /** The layout loop in accumulator form, the shape of `build_wall`'s loop:
      the bricks laid so far, how many are left, and the cursor. */
  function LayOnto(width: int, bl: int, bh: int, acc: seq<Rect>, n: nat, x: int, y: int): seq<Rect>
    decreases n
  {
    if n == 0 then acc
    else
      var wrap := x + bl > width - Margin;
      var nx := if wrap then Margin else x;
      var ny := if wrap then y + bh else y;
      LayOnto(width, bl, bh, acc + [Rect(nx, ny, bl, bh)], n - 1, nx + bl, ny)
  }

  /** Appending bricks one at a time gives the bricks already laid followed
      by the bricks `Lay` lays from the same cursor. */
  lemma {:induction false} LayOntoLay(width: int, bl: int, bh: int, acc: seq<Rect>, n: nat, x: int, y: int)
    ensures LayOnto(width, bl, bh, acc, n, x, y) == acc + Lay(width, bl, bh, n, x, y)
    decreases n
  {
    if n == 0 {
      assert acc + [] == acc;
    } else {
      var wrap := x + bl > width - Margin;
      var nx := if wrap then Margin else x;
      var ny := if wrap then y + bh else y;
      var b := Rect(nx, ny, bl, bh);
      LayOntoLay(width, bl, bh, acc + [b], n - 1, nx + bl, ny);
      assert (acc + [b]) + Lay(width, bl, bh, n - 1, nx + bl, ny)
          == acc + ([b] + Lay(width, bl, bh, n - 1, nx + bl, ny));
    }
  }

  /** `build_wall` written as its own loop: a cursor that wraps, and an
      append per brick. */
  method BuildWallLoop(width: int, level: int, bl: int, bh: int) returns (bricks: seq<Rect>)
    requires bl > 0 && bh > 0
    ensures bricks == BuildWall(width, level, bl, bh)
  {
    bricks := [];
    var xpos := Margin;
    var ypos := TopMargin;
    var left := BrickCount(level);
    ghost var wall := LayOnto(width, bl, bh, [], left, xpos, ypos);
    while left > 0
      invariant LayOnto(width, bl, bh, bricks, left, xpos, ypos) == wall
    {
      if xpos + bl > width - Margin {
        xpos := Margin;
        ypos := ypos + bh;
      }
      bricks := bricks + [Rect(xpos, ypos, bl, bh)];
      xpos := xpos + bl;
      left := left - 1;
    }
    LayOntoLay(width, bl, bh, [], BrickCount(level), Margin, TopMargin);
    assert [] + BuildWall(width, level, bl, bh) == BuildWall(width, level, bl, bh);
  }

  // ---------------------------------------------------------------------
  // An independent, closed-form description of the layout.

  /** How many bricks fit on one row between the margins (0 if not one). */
  function PerRow(width: int, bl: int): nat
    requires bl > 0
  {
    if width - 2 * Margin < bl then 0 else (width - 2 * Margin) / bl
  }

  /** Where the i-th brick goes: column `i % k`, row `i / k` for `k` bricks
      per row; when not even one brick fits, every brick starts a new row. */
  function Slot(width: int, bl: int, bh: int, i: nat): Rect
    requires bl > 0
  {
    var k := PerRow(width, bl);
    if k == 0 then Rect(Margin, TopMargin + (i + 1) * bh, bl, bh)
    else Rect(Margin + (i % k) * bl, TopMargin + (i / k) * bh, bl, bh)
  }

  lemma MulSucc(a: int, b: int)
    ensures (a + 1) * b == a * b + b
  {
  }

  lemma DivModOf(q: int, c: int, k: int)
    requires k > 0 && 0 <= c < k
    ensures (q * k + c) / k == q && (q * k + c) % k == c
  {
    var n := q * k + c;
    var d := q - n / k;
    assert n == (n / k) * k + n % k;
    assert d * k == n % k - c;
  }

  /** m bricks fit in `room` exactly when m is at most `room / bl`. */
  lemma FitsIff(m: int, room: int, bl: int)
    requires bl > 0 && room >= 0 && m >= 0
    ensures m * bl <= room <==> m <= room / bl
  {
    var k := room / bl;
    assert room == k * bl + room % bl;
    if m <= k {
      assert m * bl <= k * bl;
    } else {
      assert m * bl >= (k + 1) * bl;
    }
  }

  /** The slot of brick `q * k + c` (column c < k) is column c of row q. */
  lemma SlotAt(width: int, bl: int, bh: int, i: nat, c: int, q: int)
    requires bl > 0 && PerRow(width, bl) > 0
    requires 0 <= c < PerRow(width, bl) && i == q * PerRow(width, bl) + c
    ensures Slot(width, bl, bh, i) == Rect(Margin + c * bl, TopMargin + q * bh, bl, bh)
  {
    DivModOf(q, c, PerRow(width, bl));
  }

  /** With k >= 1 bricks per row, a cursor at column c (0 <= c <= k) of row q
      lays its j-th brick at slot q * k + c + j. */
  lemma {:induction false} LayRows(width: int, bl: int, bh: int, n: nat,
                                   x: int, y: int, c: int, q: int, i0: nat)
    requires bl > 0 && bh > 0 && PerRow(width, bl) > 0
    requires 0 <= c <= PerRow(width, bl) && i0 == q * PerRow(width, bl) + c
    requires x == Margin + c * bl && y == TopMargin + q * bh
    ensures forall j :: 0 <= j < n ==> Lay(width, bl, bh, n, x, y)[j] == Slot(width, bl, bh, i0 + j)
    decreases n
  {
    if n > 0 {
      var k := PerRow(width, bl);
      var r := Lay(width, bl, bh, n, x, y);
      FitsIff(c + 1, width - 2 * Margin, bl);
      MulSucc(c, bl);
      MulSucc(q, bh);
      MulSucc(q, k);
      if c == k {
        assert x + bl > width - Margin;
        SlotAt(width, bl, bh, i0, 0, q + 1);
        var rest := Lay(width, bl, bh, n - 1, Margin + bl, y + bh);
        assert r == [Rect(Margin, y + bh, bl, bh)] + rest;
        LayRows(width, bl, bh, n - 1, Margin + bl, y + bh, 1, q + 1, i0 + 1);
        forall j | 1 <= j < n
          ensures r[j] == Slot(width, bl, bh, i0 + j)
        {
          assert r[j] == rest[j - 1];
          assert i0 + 1 + (j - 1) == i0 + j;
        }
      } else {
        assert x + bl <= width - Margin;
        SlotAt(width, bl, bh, i0, c, q);
        var rest := Lay(width, bl, bh, n - 1, x + bl, y);
        assert r == [Rect(x, y, bl, bh)] + rest;
        LayRows(width, bl, bh, n - 1, x + bl, y, c + 1, q, i0 + 1);
        forall j | 1 <= j < n
          ensures r[j] == Slot(width, bl, bh, i0 + j)
        {
          assert r[j] == rest[j - 1];
          assert i0 + 1 + (j - 1) == i0 + j;
        }
      }
    }
  }

  /** When not even one brick fits between the margins, every brick wraps:
      from a cursor at or right of the margin, one row below row q - 1, the
      j-th brick goes to the left margin of row q + j. */
  lemma {:induction false} LayColumn(width: int, bl: int, bh: int, n: nat, x: int, y: int, q: nat)
    requires bl > 0 && bh > 0 && PerRow(width, bl) == 0
    requires x >= Margin && y == TopMargin + q * bh
    ensures forall j :: 0 <= j < n ==> Lay(width, bl, bh, n, x, y)[j] == Slot(width, bl, bh, q + j)
    decreases n
  {
    if n > 0 {
      var r := Lay(width, bl, bh, n, x, y);
      assert x + bl > width - Margin;
      MulSucc(q, bh);
      var rest := Lay(width, bl, bh, n - 1, Margin + bl, y + bh);
      assert r == [Rect(Margin, y + bh, bl, bh)] + rest;
      LayColumn(width, bl, bh, n - 1, Margin + bl, y + bh, q + 1);
      forall j | 1 <= j < n
        ensures r[j] == Slot(width, bl, bh, q + j)
      {
        assert r[j] == rest[j - 1];
        assert q + 1 + (j - 1) == q + j;
      }
    }
  }

  /** Every brick of `build_wall` sits at its closed-form slot. */
  lemma BuildWallSlots(width: int, level: int, bl: int, bh: int)
    requires bl > 0 && bh > 0
    ensures forall i :: 0 <= i < |BuildWall(width, level, bl, bh)| ==>
              BuildWall(width, level, bl, bh)[i] == Slot(width, bl, bh, i)
  {
    var n := BrickCount(level);
    if PerRow(width, bl) > 0 {
      LayRows(width, bl, bh, n, Margin, TopMargin, 0, 0, 0);
    } else {
      LayColumn(width, bl, bh, n, Margin, TopMargin, 0);
    }
  }

  /** Distinct slots are distinct rectangles. */
  lemma SlotsDistinct(width: int, bl: int, bh: int, i: nat, j: nat)
    requires bl > 0 && bh > 0 && i < j
    ensures Slot(width, bl, bh, i) != Slot(width, bl, bh, j)
  {
    var k := PerRow(width, bl);
    if k == 0 {
      assert (i + 1) * bh < (j + 1) * bh;
    } else if i / k == j / k {
      assert i == (i / k) * k + i % k && j == (j / k) * k + j % k;
      assert i % k != j % k;
      assert (i % k) * bl != (j % k) * bl;
    } else {
      assert (i / k) * bh != (j / k) * bh;
    }
  }

  /** No two bricks of a freshly built wall coincide. */
  lemma BuildWallDistinct(width: int, level: int, bl: int, bh: int)
    requires bl > 0 && bh > 0
    ensures forall i, j :: 0 <= i < j < |BuildWall(width, level, bl, bh)| ==>
              BuildWall(width, level, bl, bh)[i] != BuildWall(width, level, bl, bh)[j]
  {
    var r := BuildWall(width, level, bl, bh);
    BuildWallSlots(width, level, bl, bh);
    forall i, j | 0 <= i < j < |r|
      ensures r[i] != r[j]
    {
      SlotsDistinct(width, bl, bh, i, j);
    }
  }
}
