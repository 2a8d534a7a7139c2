/** The static wall layout and the exit (game.js `createMap`). The grid is
    `w` tiles wide and `h` tiles high; every position is a deterministic
    function of the two. */
module MapBuilder {
  import opened Geometry
  import opened Entities

  /** The TILE x TILE square at grid cell (col, row). */
  function Tile(col: int, row: int): Rect {
    Rect(col as real * TILE, row as real * TILE, TILE, TILE)
  }

  /** `r` is one whole grid cell. */
  ghost predicate IsTile(r: Rect) {
    exists col: int, row: int :: r == Tile(col, row)
  }

  ghost predicate AllTiles(s: seq<Rect>) {
    forall i :: 0 <= i < |s| ==> IsTile(s[i])
  }

  /** Walls pushed by the first `n` rounds of the top/bottom border loop. */
  function BorderRows(w: int, h: int, n: int): seq<Rect>
    decreases n
  {
    if n <= 0 then [] else BorderRows(w, h, n - 1) + [Tile(n - 1, 0), Tile(n - 1, h - 1)]
  }

  /** Walls pushed by the first `n` rounds of the left/right border loop. */
  function BorderCols(w: int, h: int, n: int): seq<Rect>
    decreases n
  {
    if n <= 0 then [] else BorderCols(w, h, n - 1) + [Tile(0, n - 1), Tile(w - 1, n - 1)]
  }

  /** Column x of the three horizontal inner walls (rows 2, 6 and 10), with
      their fixed gaps. */
  function RowSegment(x: int): seq<Rect> {
    (if x != 5 && x != 10 && x != 15 then [Tile(x, 2)] else [])
    + (if x != 6 && x != 13 then [Tile(x, 6)] else [])
    + (if x != 4 && x != 14 then [Tile(x, 10)] else [])
  }

  /** Row y of the three vertical inner walls (columns 4, 9 and 14), with
      their fixed gaps. */
  function ColSegment(y: int): seq<Rect> {
    (if y != 3 && y != 8 then [Tile(4, y)] else [])
    + (if y != 5 && y != 11 then [Tile(9, y)] else [])
    + (if y != 4 && y != 9 then [Tile(14, y)] else [])
  }

  /** Horizontal inner walls for columns 2 .. n-1. */
  function InnerRows(n: int): seq<Rect>
    decreases n
  {
    if n <= 2 then [] else InnerRows(n - 1) + RowSegment(n - 1)
  }

  /** Vertical inner walls for rows 2 .. n-1. */
  function InnerCols(n: int): seq<Rect>
    decreases n
  {
    if n <= 2 then [] else InnerCols(n - 1) + ColSegment(n - 1)
  }

  /** The exit: one tile in from the bottom-right corner of the border. */
  function ExitTile(w: int, h: int): Rect {
    Tile(w - 2, h - 2)
  }

  /** Every wall, in the order the source pushes them. */
  function MapWalls(w: int, h: int): seq<Rect> {
    BorderRows(w, h, w) + BorderCols(w, h, h) + InnerRows(w - 2) + InnerCols(h - 2)
    + [Tile(w - 3, h - 2), Tile(w - 3, h - 3)]
  }

  /** createMap: the push loops, producing exactly the layout above. */
  method CreateMap(w: int, h: int) returns (walls: seq<Rect>, exit: Rect)
    ensures walls == MapWalls(w, h)
    ensures exit == ExitTile(w, h)
  {
    walls := PushBorder(w, h);
    walls := PushInnerRows(walls, w);
    walls := PushInnerCols(walls, h);
    ghost var inner := walls;

    // The exit, one tile in from the bottom-right corner, and the two walls
    // that partially block it.
    exit := Rect((w - 2) as real * TILE, (h - 2) as real * TILE, TILE, TILE);
    walls := walls + [Rect(exit.x - TILE, exit.y, TILE, TILE)];
    walls := walls + [Rect(exit.x - TILE, exit.y - TILE, TILE, TILE)];
    assert walls == inner + [Tile(w - 3, h - 2), Tile(w - 3, h - 3)];
  }

  /** The outer border: top and bottom rows, then left and right columns. */
  method PushBorder(w: int, h: int) returns (walls: seq<Rect>)
    ensures walls == BorderRows(w, h, w) + BorderCols(w, h, h)
  {
    walls := [];
    var col := 0;
    while col < w
      invariant 0 <= col && (col <= w || col == 0)
      invariant walls == BorderRows(w, h, col)
    {
      walls := walls + [Rect(col as real * TILE, 0.0, TILE, TILE)];
      walls := walls + [Rect(col as real * TILE, (h - 1) as real * TILE, TILE, TILE)];
      assert walls == BorderRows(w, h, col) + [Tile(col, 0), Tile(col, h - 1)];
      col := col + 1;
    }
    var row := 0;
    while row < h
      invariant 0 <= row && (row <= h || row == 0)
      invariant walls == BorderRows(w, h, w) + BorderCols(w, h, row)
    {
      walls := walls + [Rect(0.0, row as real * TILE, TILE, TILE)];
      walls := walls + [Rect((w - 1) as real * TILE, row as real * TILE, TILE, TILE)];
      assert walls == BorderRows(w, h, w) + (BorderCols(w, h, row) + [Tile(0, row), Tile(w - 1, row)]);
      row := row + 1;
    }
  }

  /** The three horizontal inner walls, column by column, with their gaps. */
  method PushInnerRows(border: seq<Rect>, w: int) returns (walls: seq<Rect>)
    ensures walls == border + InnerRows(w - 2)
  {
    walls := border;
    var x := 2;
    while x < w - 2
      invariant 2 <= x && (x <= w - 2 || x == 2)
      invariant walls == border + InnerRows(x)
    {
      ghost var before := walls;
      if x != 5 && x != 10 && x != 15 {
        walls := walls + [Rect(x as real * TILE, 2.0 * TILE, TILE, TILE)];
      }
      ghost var gap2 := walls;
      assert gap2 == before + (if x != 5 && x != 10 && x != 15 then [Tile(x, 2)] else []);
      if x != 6 && x != 13 {
        walls := walls + [Rect(x as real * TILE, 6.0 * TILE, TILE, TILE)];
      }
      ghost var gap6 := walls;
      assert gap6 == gap2 + (if x != 6 && x != 13 then [Tile(x, 6)] else []);
      if x != 4 && x != 14 {
        walls := walls + [Rect(x as real * TILE, 10.0 * TILE, TILE, TILE)];
      }
      assert walls == gap6 + (if x != 4 && x != 14 then [Tile(x, 10)] else []);
      AppendThree(before, if x != 5 && x != 10 && x != 15 then [Tile(x, 2)] else [],
                  if x != 6 && x != 13 then [Tile(x, 6)] else [], if x != 4 && x != 14 then [Tile(x, 10)] else []);
      assert walls == before + RowSegment(x);
      assert InnerRows(x + 1) == InnerRows(x) + RowSegment(x);
      AppendAssoc(border, InnerRows(x), RowSegment(x));
      x := x + 1;
    }
  }

  /** The three vertical inner walls, row by row, with their gaps. */
  method PushInnerCols(rows: seq<Rect>, h: int) returns (walls: seq<Rect>)
    ensures walls == rows + InnerCols(h - 2)
  {
    walls := rows;
    var y := 2;
    while y < h - 2
      invariant 2 <= y && (y <= h - 2 || y == 2)
      invariant walls == rows + InnerCols(y)
    {
      ghost var before := walls;
      if y != 3 && y != 8 {
        walls := walls + [Rect(4.0 * TILE, y as real * TILE, TILE, TILE)];
      }
      ghost var col4 := walls;
      assert col4 == before + (if y != 3 && y != 8 then [Tile(4, y)] else []);
      if y != 5 && y != 11 {
        walls := walls + [Rect(9.0 * TILE, y as real * TILE, TILE, TILE)];
      }
      ghost var col9 := walls;
      assert col9 == col4 + (if y != 5 && y != 11 then [Tile(9, y)] else []);
      if y != 4 && y != 9 {
        walls := walls + [Rect(14.0 * TILE, y as real * TILE, TILE, TILE)];
      }
      assert walls == col9 + (if y != 4 && y != 9 then [Tile(14, y)] else []);
      AppendThree(before, if y != 3 && y != 8 then [Tile(4, y)] else [],
                  if y != 5 && y != 11 then [Tile(9, y)] else [], if y != 4 && y != 9 then [Tile(14, y)] else []);
      assert walls == before + ColSegment(y);
      assert InnerCols(y + 1) == InnerCols(y) + ColSegment(y);
      AppendAssoc(rows, InnerCols(y), ColSegment(y));
      y := y + 1;
    }
  }

  lemma AppendAssoc<T>(p: seq<T>, a: seq<T>, b: seq<T>)
    ensures p + a + b == p + (a + b)
  {
  }

  lemma AppendThree<T>(p: seq<T>, a: seq<T>, b: seq<T>, c: seq<T>)
    ensures p + a + b + c == p + (a + b + c)
  {
  }

  // ---------------------------------------------------------------------
  // Properties of the layout

  /** Two grid cells collide exactly when they are the same cell. */
  lemma TileCollides(c1: int, r1: int, c2: int, r2: int)
    ensures Collides(Tile(c1, r1), Tile(c2, r2)) <==> c1 == c2 && r1 == r2
  {
  }

  lemma AllTilesConcat(s: seq<Rect>, t: seq<Rect>)
    requires AllTiles(s) && AllTiles(t)
    ensures AllTiles(s + t)
  {
    forall i | 0 <= i < |s + t|
      ensures IsTile((s + t)[i])
    {
      if i < |s| {
        assert (s + t)[i] == s[i];
      } else {
        assert (s + t)[i] == t[i - |s|];
      }
    }
  }

  lemma {:induction false} BorderRowsAreTiles(w: int, h: int, n: int)
    ensures AllTiles(BorderRows(w, h, n))
    decreases n
  {
    if n > 0 {
      BorderRowsAreTiles(w, h, n - 1);
      var seg := [Tile(n - 1, 0), Tile(n - 1, h - 1)];
      assert IsTile(seg[0]) && IsTile(seg[1]);
      AllTilesConcat(BorderRows(w, h, n - 1), seg);
    }
  }

  lemma {:induction false} BorderColsAreTiles(w: int, h: int, n: int)
    ensures AllTiles(BorderCols(w, h, n))
    decreases n
  {
    if n > 0 {
      BorderColsAreTiles(w, h, n - 1);
      var seg := [Tile(0, n - 1), Tile(w - 1, n - 1)];
      assert IsTile(seg[0]) && IsTile(seg[1]);
      AllTilesConcat(BorderCols(w, h, n - 1), seg);
    }
  }

  lemma RowSegmentAreTiles(x: int)
    ensures AllTiles(RowSegment(x))
  {
    assert IsTile(Tile(x, 2)) && IsTile(Tile(x, 6)) && IsTile(Tile(x, 10));
  }

  lemma ColSegmentAreTiles(y: int)
    ensures AllTiles(ColSegment(y))
  {
    assert IsTile(Tile(4, y)) && IsTile(Tile(9, y)) && IsTile(Tile(14, y));
  }

  lemma {:induction false} InnerRowsAreTiles(n: int)
    ensures AllTiles(InnerRows(n))
    decreases n
  {
    if n > 2 {
      InnerRowsAreTiles(n - 1);
      RowSegmentAreTiles(n - 1);
      AllTilesConcat(InnerRows(n - 1), RowSegment(n - 1));
    }
  }

  lemma {:induction false} InnerColsAreTiles(n: int)
    ensures AllTiles(InnerCols(n))
    decreases n
  {
    if n > 2 {
      InnerColsAreTiles(n - 1);
      ColSegmentAreTiles(n - 1);
      AllTilesConcat(InnerCols(n - 1), ColSegment(n - 1));
    }
  }

  /** Every wall of the layout is a whole TILE x TILE grid cell. */
  lemma MapWallsAreTiles(w: int, h: int)
    ensures forall i :: 0 <= i < |MapWalls(w, h)| ==>
              MapWalls(w, h)[i].width == TILE && MapWalls(w, h)[i].height == TILE && IsTile(MapWalls(w, h)[i])
  {
    BorderRowsAreTiles(w, h, w);
    BorderColsAreTiles(w, h, h);
    InnerRowsAreTiles(w - 2);
    InnerColsAreTiles(h - 2);
    var last := [Tile(w - 3, h - 2), Tile(w - 3, h - 3)];
    assert IsTile(last[0]) && IsTile(last[1]);
    AllTilesConcat(BorderRows(w, h, w), BorderCols(w, h, h));
    AllTilesConcat(BorderRows(w, h, w) + BorderCols(w, h, h), InnerRows(w - 2));
    AllTilesConcat(BorderRows(w, h, w) + BorderCols(w, h, h) + InnerRows(w - 2), InnerCols(h - 2));
    AllTilesConcat(BorderRows(w, h, w) + BorderCols(w, h, h) + InnerRows(w - 2) + InnerCols(h - 2), last);
  }

  /** The exit is at ((w-2)·TILE, (h-2)·TILE), one tile in from the right and
      bottom border, and the last two walls sit left of it and diagonally
      above-left of it. */
  lemma ExitAndBlockers(w: int, h: int)
    ensures var e := ExitTile(w, h);
            && e == Rect((w - 2) as real * TILE, (h - 2) as real * TILE, TILE, TILE)
            && (w >= 3 && h >= 3 ==>
                  TILE <= e.x && e.x + TILE <= (w - 1) as real * TILE && TILE <= e.y && e.y + TILE <= (h - 1) as real * TILE)
    ensures var ws, e := MapWalls(w, h), ExitTile(w, h);
            && ws[|ws| - 2] == Rect(e.x - TILE, e.y, TILE, TILE)
            && ws[|ws| - 1] == Rect(e.x - TILE, e.y - TILE, TILE, TILE)
  {
  }

  lemma {:induction false} BorderRowsAvoidExit(w: int, h: int, n: int)
    requires h >= 3
    ensures !HitsWall(ExitTile(w, h), BorderRows(w, h, n))
    decreases n
  {
    if n > 0 {
      BorderRowsAvoidExit(w, h, n - 1);
      TileCollides(w - 2, h - 2, n - 1, 0);
      TileCollides(w - 2, h - 2, n - 1, h - 1);
      HitsWallConcat(ExitTile(w, h), BorderRows(w, h, n - 1), [Tile(n - 1, 0), Tile(n - 1, h - 1)]);
    }
  }

  lemma {:induction false} BorderColsAvoidExit(w: int, h: int, n: int)
    requires w >= 3
    ensures !HitsWall(ExitTile(w, h), BorderCols(w, h, n))
    decreases n
  {
    if n > 0 {
      BorderColsAvoidExit(w, h, n - 1);
      TileCollides(w - 2, h - 2, 0, n - 1);
      TileCollides(w - 2, h - 2, w - 1, n - 1);
      HitsWallConcat(ExitTile(w, h), BorderCols(w, h, n - 1), [Tile(0, n - 1), Tile(w - 1, n - 1)]);
    }
  }

  lemma {:induction false} InnerRowsAvoidExit(w: int, h: int, n: int)
    requires n <= w - 2
    ensures !HitsWall(ExitTile(w, h), InnerRows(n))
    decreases n
  {
    if n > 2 {
      InnerRowsAvoidExit(w, h, n - 1);
      var x := n - 1;
      TileCollides(w - 2, h - 2, x, 2);
      TileCollides(w - 2, h - 2, x, 6);
      TileCollides(w - 2, h - 2, x, 10);
      assert !HitsWall(ExitTile(w, h), RowSegment(x));
      HitsWallConcat(ExitTile(w, h), InnerRows(x), RowSegment(x));
    }
  }

  lemma {:induction false} InnerColsAvoidExit(w: int, h: int, n: int)
    requires n <= h - 2
    ensures !HitsWall(ExitTile(w, h), InnerCols(n))
    decreases n
  {
    if n > 2 {
      InnerColsAvoidExit(w, h, n - 1);
      var y := n - 1;
      TileCollides(w - 2, h - 2, 4, y);
      TileCollides(w - 2, h - 2, 9, y);
      TileCollides(w - 2, h - 2, 14, y);
      assert !HitsWall(ExitTile(w, h), ColSegment(y));
      HitsWallConcat(ExitTile(w, h), InnerCols(y), ColSegment(y));
    }
  }

  /** On any grid at least 3 x 3 the exit overlaps no wall, so it can be
      stepped on. */
  lemma ExitOverlapsNoWall(w: int, h: int)
    requires w >= 3 && h >= 3
    ensures !HitsWall(ExitTile(w, h), MapWalls(w, h))
  {
    var e := ExitTile(w, h);
    BorderRowsAvoidExit(w, h, w);
    BorderColsAvoidExit(w, h, h);
    InnerRowsAvoidExit(w, h, w - 2);
    InnerColsAvoidExit(w, h, h - 2);
    TileCollides(w - 2, h - 2, w - 3, h - 2);
    TileCollides(w - 2, h - 2, w - 3, h - 3);
    var last := [Tile(w - 3, h - 2), Tile(w - 3, h - 3)];
    assert !HitsWall(e, last);
    var a := BorderRows(w, h, w);
    var b := a + BorderCols(w, h, h);
    var c := b + InnerRows(w - 2);
    var d := c + InnerCols(h - 2);
    HitsWallConcat(e, a, BorderCols(w, h, h));
    HitsWallConcat(e, b, InnerRows(w - 2));
    HitsWallConcat(e, c, InnerCols(h - 2));
    HitsWallConcat(e, d, last);
  }

  lemma {:induction false} BorderRowsStart(w: int, h: int, n: int)
    requires n >= 1
    ensures |BorderRows(w, h, n)| == 2 * n && BorderRows(w, h, n)[0] == Tile(0, 0)
    decreases n
  {
    if n > 1 {
      BorderRowsStart(w, h, n - 1);
    }
  }

  lemma {:induction false} BorderColsStart(w: int, h: int, n: int)
    requires n >= 1
    ensures |BorderCols(w, h, n)| == 2 * n && BorderCols(w, h, n)[0] == Tile(0, 0)
    decreases n
  {
    if n > 1 {
      BorderColsStart(w, h, n - 1);
    }
  }

  /** The two border loops both push the top-left corner, so the wall list
      holds that tile twice. */
  lemma CornerPushedTwice(w: int, h: int)
    requires w >= 1 && h >= 1
    ensures exists i, j :: 0 <= i < j < |MapWalls(w, h)| && MapWalls(w, h)[i] == MapWalls(w, h)[j] == Tile(0, 0)
  {
    BorderRowsStart(w, h, w);
    BorderColsStart(w, h, h);
    var ws := MapWalls(w, h);
    assert ws[0] == Tile(0, 0);
    assert ws[2 * w] == Tile(0, 0);
  }
}
