/** Player movement (game.js `movePlayer`): held keys give an intended
    position, and each axis is approved separately against the walls, which
    lets the player slide along a wall instead of stopping dead. */
module Movement {
  import opened Geometry
  import opened Entities

  predicate UpHeld(keys: set<string>) { "w" in keys || "ArrowUp" in keys }
  predicate DownHeld(keys: set<string>) { "s" in keys || "ArrowDown" in keys }
  predicate LeftHeld(keys: set<string>) { "a" in keys || "ArrowLeft" in keys }
  predicate RightHeld(keys: set<string>) { "d" in keys || "ArrowRight" in keys }

  /** The facing after a frame: the keys are checked in the order up, down,
      left, right and each held one overwrites the facing, so the last held
      key in that order wins. */
  function Facing(keys: set<string>, current: Direction): (d: Direction)
    ensures RightHeld(keys) ==> d == Right
    ensures !RightHeld(keys) && LeftHeld(keys) ==> d == Left
    ensures !RightHeld(keys) && !LeftHeld(keys) && DownHeld(keys) ==> d == Down
    ensures !RightHeld(keys) && !LeftHeld(keys) && !DownHeld(keys) && UpHeld(keys) ==> d == Up
    ensures !RightHeld(keys) && !LeftHeld(keys) && !DownHeld(keys) && !UpHeld(keys) ==> d == current
  {
    var afterUp := if UpHeld(keys) then Up else current;
    var afterDown := if DownHeld(keys) then Down else afterUp;
    var afterLeft := if LeftHeld(keys) then Left else afterDown;
    if RightHeld(keys) then Right else afterLeft
  }

  /** The intended position (newX, newY) before any wall check. */
  function Intended(p: Player, keys: set<string>): (real, real) {
    var y1 := if UpHeld(keys) then p.y - p.speed else p.y;
    var newY := if DownHeld(keys) then y1 + p.speed else y1;
    var x1 := if LeftHeld(keys) then p.x - p.speed else p.x;
    var newX := if RightHeld(keys) then x1 + p.speed else x1;
    (newX, newY)
  }

  /** The box of `p` moved to x only, and to y only. */
  function ProbeX(p: Player, newX: real): Rect { Rect(newX, p.y, p.width, p.height) }
  function ProbeY(p: Player, newY: real): Rect { Rect(p.x, newY, p.width, p.height) }

  /** The player after one frame of movement. */
  function PlayerAfterMove(p: Player, keys: set<string>, walls: seq<Rect>): (q: Player)
    // each axis takes its intended value exactly when the box moved along
    // that axis alone overlaps no wall, and otherwise stays
    ensures !HitsWall(ProbeX(p, Intended(p, keys).0), walls) ==> q.x == Intended(p, keys).0
    ensures HitsWall(ProbeX(p, Intended(p, keys).0), walls) ==> q.x == p.x
    ensures !HitsWall(ProbeY(p, Intended(p, keys).1), walls) ==> q.y == Intended(p, keys).1
    ensures HitsWall(ProbeY(p, Intended(p, keys).1), walls) ==> q.y == p.y
    // the facing follows the held keys
    ensures q.direction == Facing(keys, p.direction)
    // health, ammo, size and speed are untouched
    ensures q == p.(x := q.x, y := q.y, direction := q.direction)
  {
    var (newX, newY) := Intended(p, keys);
    var canMoveX := !HitsWall(ProbeX(p, newX), walls);
    var canMoveY := !HitsWall(ProbeY(p, newY), walls);
    p.(x := if canMoveX then newX else p.x,
       y := if canMoveY then newY else p.y,
       direction := Facing(keys, p.direction))
  }

  /** A move along one axis only never takes a clear player into a wall. */
  lemma StraightMoveStaysClear(p: Player, keys: set<string>, walls: seq<Rect>)
    requires !HitsWall(p.Box(), walls)
    requires Intended(p, keys).0 == p.x || Intended(p, keys).1 == p.y
    ensures !HitsWall(PlayerAfterMove(p, keys, walls).Box(), walls)
  {
    var q := PlayerAfterMove(p, keys, walls);
    var (newX, newY) := Intended(p, keys);
    if newY == p.y {
      assert ProbeY(p, newY) == p.Box();
      assert q.Box() == (if q.x == p.x then p.Box() else ProbeX(p, newX));
    } else {
      assert ProbeX(p, newX) == p.Box();
      assert q.Box() == (if q.y == p.y then p.Box() else ProbeY(p, newY));
    }
  }

  /** Sliding: on a diagonal move whose x probe hits a wall but whose y probe
      is clear, the player keeps its x and still moves along y. */
  lemma SlidesAlongWall(p: Player, keys: set<string>, walls: seq<Rect>)
    requires HitsWall(ProbeX(p, Intended(p, keys).0), walls)
    requires !HitsWall(ProbeY(p, Intended(p, keys).1), walls)
    ensures PlayerAfterMove(p, keys, walls).x == p.x
    ensures PlayerAfterMove(p, keys, walls).y == Intended(p, keys).1
  {
  }

  /** The per-axis check does not test the diagonal box: a player touching
      only the corner of a wall, moving right and down, ends overlapping it. */
  lemma DiagonalMoveCanClipCorner()
    ensures var p := Player(5.0, 5.0, PLAYER_SIZE, PLAYER_SIZE, PLAYER_SPEED, PLAYER_HEALTH, PLAYER_AMMO, Right);
            var walls := [Rect(TILE, TILE, TILE, TILE)];
            && !HitsWall(p.Box(), walls)
            && HitsWall(PlayerAfterMove(p, {"d", "s"}, walls).Box(), walls)
  {
    var p := Player(5.0, 5.0, PLAYER_SIZE, PLAYER_SIZE, PLAYER_SPEED, PLAYER_HEALTH, PLAYER_AMMO, Right);
    var walls := [Rect(TILE, TILE, TILE, TILE)];
    var keys: set<string> := {"d", "s"};
    assert RightHeld(keys) && DownHeld(keys) && !UpHeld(keys) && !LeftHeld(keys);
    assert Intended(p, keys) == (6.5, 6.5);
    assert !Collides(ProbeX(p, 6.5), walls[0]);
    assert !Collides(ProbeY(p, 6.5), walls[0]);
    var q := PlayerAfterMove(p, keys, walls);
    assert q.x == 6.5 && q.y == 6.5;
    assert Collides(q.Box(), walls[0]);
  }
}
