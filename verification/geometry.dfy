/** Axis-aligned rectangles and the overlap test every subsystem of the game uses. */
module Geometry {

  /** A rectangle in pixel space: top-left corner, width and height. */
  datatype Rect = Rect(x: real, y: real, width: real, height: real)

  /** The game's `collides`: strict open-interval overlap on both axes, so
      rectangles that only share an edge do not collide. */
  predicate Collides(a: Rect, b: Rect) {
    && a.x < b.x + b.width
    && a.x + a.width > b.x
    && a.y < b.y + b.height
    && a.y + a.height > b.y
  }

  /** Some wall of `walls` overlaps `box`. */
  predicate HitsWall(box: Rect, walls: seq<Rect>) {
    exists i :: 0 <= i < |walls| && Collides(box, walls[i])
  }

  /** The point (px, py) lies in the open interior of `r`. */
  predicate Inside(px: real, py: real, r: Rect) {
    r.x < px < r.x + r.width && r.y < py < r.y + r.height
  }

  function Max(a: real, b: real): real { if a < b then b else a }

  function Min(a: real, b: real): real { if a < b then a else b }

  lemma CollidesSymmetric(a: Rect, b: Rect)
    ensures Collides(a, b) <==> Collides(b, a)
  {
  }

  /** All four comparisons are strict: sharing an edge is not a collision. */
  lemma TouchingEdgesDoNotCollide(a: Rect, b: Rect)
    requires a.x + a.width == b.x || b.x + b.width == a.x || a.y + a.height == b.y || b.y + b.height == a.y
    ensures !Collides(a, b)
  {
  }

  lemma SelfCollides(a: Rect)
    requires a.width > 0.0 && a.height > 0.0
    ensures Collides(a, a)
  {
  }

  /** For rectangles of positive size, the four comparisons say exactly that
      the two open rectangles share an interior point. */
  lemma CollidesIffCommonInterior(a: Rect, b: Rect)
    requires a.width > 0.0 && a.height > 0.0 && b.width > 0.0 && b.height > 0.0
    ensures Collides(a, b) <==> exists px, py :: Inside(px, py, a) && Inside(px, py, b)
  {
    if Collides(a, b) {
      var px := (Max(a.x, b.x) + Min(a.x + a.width, b.x + b.width)) / 2.0;
      var py := (Max(a.y, b.y) + Min(a.y + a.height, b.y + b.height)) / 2.0;
      assert Inside(px, py, a) && Inside(px, py, b);
    }
  }

  lemma HitsWallConcat(box: Rect, s: seq<Rect>, t: seq<Rect>)
    ensures HitsWall(box, s + t) <==> HitsWall(box, s) || HitsWall(box, t)
  {
    if HitsWall(box, s + t) {
      var i :| 0 <= i < |s + t| && Collides(box, (s + t)[i]);
      if i >= |s| {
        assert t[i - |s|] == (s + t)[i];
      }
    }
    if HitsWall(box, s) {
      var i :| 0 <= i < |s| && Collides(box, s[i]);
      assert (s + t)[i] == s[i];
    }
    if HitsWall(box, t) {
      var i :| 0 <= i < |t| && Collides(box, t[i]);
      assert (s + t)[|s| + i] == t[i];
    }
  }

  /** The wall scan of the item placer and of the projectile system: stop at
      the first wall that overlaps `box`. */
  method FirstWallHit(box: Rect, walls: seq<Rect>) returns (hit: bool)
    ensures hit <==> HitsWall(box, walls)
  {
    hit := false;
    var i := 0;
    while i < |walls|
      invariant 0 <= i <= |walls|
      invariant !hit
      invariant forall k :: 0 <= k < i ==> !Collides(box, walls[k])
    {
      if Collides(box, walls[i]) {
        hit := true;
        break;
      }
      i := i + 1;
    }
  }

  /** The wall scan of player and guard movement: one pass over all walls that
      tests the X-only and the Y-only candidate boxes side by side. */
  method ScanWalls(boxX: Rect, boxY: Rect, walls: seq<Rect>) returns (collisionX: bool, collisionY: bool)
    ensures collisionX <==> HitsWall(boxX, walls)
    ensures collisionY <==> HitsWall(boxY, walls)
  {
    collisionX, collisionY := false, false;
    for i := 0 to |walls|
      invariant collisionX <==> exists k :: 0 <= k < i && Collides(boxX, walls[k])
      invariant collisionY <==> exists k :: 0 <= k < i && Collides(boxY, walls[k])
    {
      if Collides(boxX, walls[i]) {
        collisionX := true;
      }
      if Collides(boxY, walls[i]) {
        collisionY := true;
      }
    }
  }
}
