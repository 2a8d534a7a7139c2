/** One frame of guard behaviour (game.js `moveCops`): cooldown, detection,
    shooting, chasing the player or walking between two patrol points.
    `Math.sqrt` is a parameter `sqrt`; the lemmas that need it to be a square
    root say so in their preconditions. */
module GuardAI {
  import opened Options
  import opened Geometry
  import opened Entities

  function Abs(v: real): real { if v < 0.0 then -v else v }

  /** The facing rule: the dominant component of the unit direction. */
  function Heading(dirX: real, dirY: real): (d: Direction)
    ensures d == Right <==> Abs(dirX) > Abs(dirY) && dirX > 0.0
    ensures d == Left <==> Abs(dirX) > Abs(dirY) && dirX <= 0.0
    ensures d == Down <==> Abs(dirX) <= Abs(dirY) && dirY > 0.0
    ensures d == Up <==> Abs(dirX) <= Abs(dirY) && dirY <= 0.0
  {
    if Abs(dirX) > Abs(dirY) then (if dirX > 0.0 then Right else Left)
    else (if dirY > 0.0 then Down else Up)
  }

  /** A step of length `step` along the unit direction (dirX, dirY). */
  function Step(c: Cop, dirX: real, dirY: real, step: real, walls: seq<Rect>): Cop {
    StepBy(c, dirX, dirY, dirX * step, dirY * step, walls)
  }

  /** A step by (stepX, stepY): each axis is approved alone against the
      walls, and the facing follows the direction (dirX, dirY). */
  function StepBy(c: Cop, dirX: real, dirY: real, stepX: real, stepY: real, walls: seq<Rect>): (r: Cop)
    ensures r == c.(x := r.x, y := r.y, direction := Heading(dirX, dirY))
    // each axis takes its step when the box moved along that axis alone
    // overlaps no wall, and stays when it does
    ensures !HitsWall(Rect(c.x + stepX, c.y, c.width, c.height), walls) ==> r.x == c.x + stepX
    ensures HitsWall(Rect(c.x + stepX, c.y, c.width, c.height), walls) ==> r.x == c.x
    ensures !HitsWall(Rect(c.x, c.y + stepY, c.width, c.height), walls) ==> r.y == c.y + stepY
    ensures HitsWall(Rect(c.x, c.y + stepY, c.width, c.height), walls) ==> r.y == c.y
  {
    var newX := c.x + stepX;
    var newY := c.y + stepY;
    var collisionX := HitsWall(Rect(newX, c.y, c.width, c.height), walls);
    var collisionY := HitsWall(Rect(c.x, newY, c.width, c.height), walls);
    c.(x := if !collisionX then newX else c.x,
       y := if !collisionY then newY else c.y,
       direction := Heading(dirX, dirY))
  }

  /** The bullet a guard fires: from its centre (offset by half the bullet),
      at speed 6 and damage 10, along the unit vector from its centre to the
      player's centre. A zero-length vector, where the source divides 0 by 0,
      is given the direction (0, 0). */
  function AimedShot(c: Cop, p: Player, sqrt: real -> real): (b: CopBullet)
    ensures b.x == c.x + c.width / 2.0 - BULLET_SIZE / 2.0 && b.y == c.y + c.height / 2.0 - BULLET_SIZE / 2.0
    ensures b.width == BULLET_SIZE && b.height == BULLET_SIZE
    ensures b.speed == COP_BULLET_SPEED && b.damage == BULLET_DAMAGE
    // the direction is the centre-to-centre vector scaled down by its length
    ensures var length := AimLength(c, p, sqrt);
            length != 0.0 ==> b.directionX * length == AimX(c, p) && b.directionY * length == AimY(c, p)
    ensures AimLength(c, p, sqrt) == 0.0 ==> b.directionX == 0.0 && b.directionY == 0.0
  {
    var shootDx := AimX(c, p);
    var shootDy := AimY(c, p);
    var length := AimLength(c, p, sqrt);
    CopBullet(c.x + c.width / 2.0 - 2.0, c.y + c.height / 2.0 - 2.0, 4.0, 4.0, 6.0,
              if length != 0.0 then shootDx / length else 0.0,
              if length != 0.0 then shootDy / length else 0.0, 10)
  }

  /** The vector from the guard's centre to the player's centre, and its length. */
  function AimX(c: Cop, p: Player): real {
    p.x + p.width / 2.0 - (c.x + c.width / 2.0)
  }

  function AimY(c: Cop, p: Player): real {
    p.y + p.height / 2.0 - (c.y + c.height / 2.0)
  }

  function AimLength(c: Cop, p: Player, sqrt: real -> real): real {
    sqrt(SquaredLength(AimX(c, p), AimY(c, p)))
  }

  function Other(a: Anchor): Anchor {
    match a
    case FirstAnchor => SecondAnchor
    case SecondAnchor => FirstAnchor
  }

  /** The cooldown after the per-frame decrement. */
  function Cooled(c: Cop): int {
    if c.shootCooldown > 0 then c.shootCooldown - 1 else c.shootCooldown
  }

  /** The squared length of (dx, dy). */
  function SquaredLength(dx: real, dy: real): real {
    dx * dx + dy * dy
  }

  /** Distance from guard to player, and from guard to its patrol target. */
  function PlayerDistance(c: Cop, p: Player, sqrt: real -> real): real {
    sqrt(SquaredLength(p.x - c.x, p.y - c.y))
  }

  function TargetDistance(c: Cop, sqrt: real -> real): real {
    var t := c.TargetPoint();
    sqrt(SquaredLength(t.x - c.x, t.y - c.y))
  }

  /** In range to fire: within 70% of the detection range with the cooldown
      (after its decrement) at zero. */
  predicate Fires(c: Cop, p: Player, sqrt: real -> real) {
    PlayerDistance(c, p, sqrt) < c.detectionRange * 0.7 && Cooled(c) == 0
  }

  datatype CopStep = CopStep(cop: Cop, shot: Option<CopBullet>)

  /** One guard's frame. */
  function CopTick(c: Cop, p: Player, walls: seq<Rect>, sqrt: real -> real): (r: CopStep)
    // a frozen guard does nothing at all
    ensures c.frozen ==> r == CopStep(c, None)
    // what never changes in a frame
    ensures r.cop == c.(x := r.cop.x, y := r.cop.y, direction := r.cop.direction, state := r.cop.state,
                        shootCooldown := r.cop.shootCooldown, target := r.cop.target)
    // detection: chase exactly when the player is within range
    ensures !c.frozen ==> (r.cop.state == Chase <==> PlayerDistance(c, p, sqrt) < c.detectionRange)
    // a shot exactly when in firing range and cooled down; it resets the cooldown
    ensures r.shot.Some? <==> !c.frozen && PlayerDistance(c, p, sqrt) < c.detectionRange && Fires(c, p, sqrt)
    ensures r.shot.Some? ==> r.shot.value == AimedShot(c, p, sqrt) && r.cop.shootCooldown == c.maxShootCooldown
    ensures !c.frozen && r.shot.None? ==> r.cop.shootCooldown == Cooled(c)
    // a chasing guard keeps its patrol target; a patrolling one swaps it
    // exactly when it is closer than 5 to it
    ensures !c.frozen && r.cop.state == Patrol ==>
              r.cop.target == (if TargetDistance(c, sqrt) < 5.0 then Other(c.target) else c.target)
    ensures r.cop.state == Chase ==> r.cop.target == c.target
  {
    if c.frozen then CopStep(c, None)
    else
      var cooled := Cooled(c);
      var dx := p.x - c.x;
      var dy := p.y - c.y;
      var distance := PlayerDistance(c, p, sqrt);
      if distance < c.detectionRange then
        var fire := distance < c.detectionRange * 0.7 && cooled == 0;
        var armed := c.(state := Chase, shootCooldown := if fire then c.maxShootCooldown else cooled);
        var moved := if distance > 0.0 then Step(armed, dx / distance, dy / distance, c.speed, walls) else armed;
        CopStep(moved, if fire then Some(AimedShot(c, p, sqrt)) else None)
      else
        var t := c.TargetPoint();
        var patrolDx := t.x - c.x;
        var patrolDy := t.y - c.y;
        var patrolDistance := TargetDistance(c, sqrt);
        var turned := c.(state := Patrol, shootCooldown := cooled,
                         target := if patrolDistance < 5.0 then Other(c.target) else c.target);
        var moved := if patrolDistance > 0.0
                     then Step(turned, patrolDx / patrolDistance, patrolDy / patrolDistance, c.speed * 0.5, walls)
                     else turned;
        CopStep(moved, None)
  }

  /** `d` is the (non-negative) square root of `v`. */
  predicate IsRootOf(d: real, v: real) {
    d >= 0.0 && d * d == v
  }

  lemma SqrtLess(d: real, v: real, r: real)
    requires IsRootOf(d, v)
    ensures d < r <==> r > 0.0 && v < r * r
  {
    if d < r {
      SquareLess(d, r);
    } else if r > 0.0 {
      SquareLess(r, d);
    }
  }

  /** Squaring is monotone on the non-negative reals. */
  lemma SquareLess(a: real, b: real)
    requires 0.0 <= a <= b
    ensures a * a <= b * b
    ensures a < b ==> a * a < b * b
  {
    assert b * b - a * a == (b - a) * (b + a);
    if a < b {
      PositiveProduct(b - a, b + a);
    }
  }

  lemma PositiveProduct(x: real, y: real)
    requires x > 0.0 && y > 0.0
    ensures x * y > 0.0
  {
  }

  /** When `sqrt` returns the true distance to the player, detection and
      firing range are comparisons of squared distances. */
  lemma RangeBySquares(c: Cop, p: Player, sqrt: real -> real)
    requires IsRootOf(PlayerDistance(c, p, sqrt), SquaredLength(p.x - c.x, p.y - c.y))
    ensures var d2 := SquaredLength(p.x - c.x, p.y - c.y);
            && (PlayerDistance(c, p, sqrt) < c.detectionRange <==>
                  c.detectionRange > 0.0 && d2 < c.detectionRange * c.detectionRange)
            && (PlayerDistance(c, p, sqrt) < c.detectionRange * 0.7 <==>
                  c.detectionRange > 0.0 && d2 < 0.49 * c.detectionRange * c.detectionRange)
  {
    var d2 := SquaredLength(p.x - c.x, p.y - c.y);
    var d := PlayerDistance(c, p, sqrt);
    var r := c.detectionRange;
    SqrtLess(d, d2, r);
    SqrtLess(d, d2, r * 0.7);
    assert (r * 0.7) * (r * 0.7) == 0.49 * r * r;
  }

  /** Firing range lies inside detection range, so a guard that fires is
      always chasing. */
  lemma FiringImpliesChase(c: Cop, p: Player, walls: seq<Rect>, sqrt: real -> real)
    requires c.detectionRange > 0.0
    requires Fires(c, p, sqrt) && !c.frozen
    ensures CopTick(c, p, walls, sqrt).shot.Some?
    ensures CopTick(c, p, walls, sqrt).cop.state == Chase
  {
  }

  /** The cooldown stays within [0, maxShootCooldown] from frame to frame. */
  lemma CooldownBounds(c: Cop, p: Player, walls: seq<Rect>, sqrt: real -> real)
    requires 0 <= c.shootCooldown <= c.maxShootCooldown
    ensures 0 <= CopTick(c, p, walls, sqrt).cop.shootCooldown <= c.maxShootCooldown
  {
  }

  /** A guard that fires cannot fire again for `maxShootCooldown` frames:
      the next frame's cooldown is positive. */
  lemma NoDoubleShot(c: Cop, p: Player, p': Player, walls: seq<Rect>, sqrt: real -> real)
    requires c.maxShootCooldown > 1
    requires CopTick(c, p, walls, sqrt).shot.Some?
    ensures CopTick(CopTick(c, p, walls, sqrt).cop, p', walls, sqrt).shot.None?
  {
  }

  /** Where a guard's frame takes it: a chasing guard steps `speed` along the
      unit vector toward the player, a patrolling one half its speed toward
      the target it held before any swap, and at distance 0 from where it is
      heading a guard neither moves nor turns. */
  lemma CopTickMoves(c: Cop, p: Player, walls: seq<Rect>, sqrt: real -> real)
    requires !c.frozen
    ensures var r := CopTick(c, p, walls, sqrt).cop;
            var d := PlayerDistance(c, p, sqrt);
            0.0 < d < c.detectionRange ==>
              var s := Step(c, (p.x - c.x) / d, (p.y - c.y) / d, c.speed, walls);
              r.x == s.x && r.y == s.y && r.direction == s.direction
    ensures var r := CopTick(c, p, walls, sqrt).cop;
            var d := TargetDistance(c, sqrt);
            var t := c.TargetPoint();
            !(PlayerDistance(c, p, sqrt) < c.detectionRange) && d > 0.0 ==>
              var s := Step(c, (t.x - c.x) / d, (t.y - c.y) / d, c.speed * 0.5, walls);
              r.x == s.x && r.y == s.y && r.direction == s.direction
    ensures var r := CopTick(c, p, walls, sqrt).cop;
            PlayerDistance(c, p, sqrt) < c.detectionRange && !(PlayerDistance(c, p, sqrt) > 0.0) ==>
              r.x == c.x && r.y == c.y && r.direction == c.direction
    ensures var r := CopTick(c, p, walls, sqrt).cop;
            !(PlayerDistance(c, p, sqrt) < c.detectionRange) && !(TargetDistance(c, sqrt) > 0.0) ==>
              r.x == c.x && r.y == c.y && r.direction == c.direction
  {
    var r := CopTick(c, p, walls, sqrt).cop;
    var d := PlayerDistance(c, p, sqrt);
    if d < c.detectionRange {
      if d > 0.0 {
        var fire := d < c.detectionRange * 0.7 && Cooled(c) == 0;
        var armed := c.(state := Chase, shootCooldown := if fire then c.maxShootCooldown else Cooled(c));
        StepKeepsGeometry(c, armed, (p.x - c.x) / d, (p.y - c.y) / d, c.speed, walls);
      }
    } else {
      var td := TargetDistance(c, sqrt);
      var t := c.TargetPoint();
      if td > 0.0 {
        var turned := c.(state := Patrol, shootCooldown := Cooled(c),
                         target := if td < 5.0 then Other(c.target) else c.target);
        StepKeepsGeometry(c, turned, (t.x - c.x) / td, (t.y - c.y) / td, c.speed * 0.5, walls);
      }
    }
  }

  /** A step depends only on the guard's box, not on its other fields. */
  lemma StepKeepsGeometry(c: Cop, c': Cop, dirX: real, dirY: real, step: real, walls: seq<Rect>)
    requires c'.x == c.x && c'.y == c.y && c'.width == c.width && c'.height == c.height
    ensures Step(c', dirX, dirY, step, walls).x == Step(c, dirX, dirY, step, walls).x
    ensures Step(c', dirX, dirY, step, walls).y == Step(c, dirX, dirY, step, walls).y
    ensures Step(c', dirX, dirY, step, walls).direction == Step(c, dirX, dirY, step, walls).direction
  {
  }

  /** A guard only ever moves along an axis onto a position whose box, moved
      along that axis alone, overlaps no wall; a frozen guard stays put. */
  lemma GuardMovesOnlyWhenClear(c: Cop, p: Player, walls: seq<Rect>, sqrt: real -> real)
    ensures var r := CopTick(c, p, walls, sqrt).cop;
            && (r.x != c.x ==> !c.frozen && !HitsWall(Rect(r.x, c.y, c.width, c.height), walls))
            && (r.y != c.y ==> !c.frozen && !HitsWall(Rect(c.x, r.y, c.width, c.height), walls))
  {
  }

  /** The guard pass over all guards, in order: the guards after their frame
      and the shots fired, in guard order. */
  function CopsTick(cops: seq<Cop>, p: Player, walls: seq<Rect>, sqrt: real -> real): (r: (seq<Cop>, seq<CopBullet>))
    ensures |r.0| == |cops| && |r.1| <= |cops|
    ensures forall i :: 0 <= i < |r.1| ==> r.1[i].damage == BULLET_DAMAGE && r.1[i].speed == COP_BULLET_SPEED
    decreases |cops|
  {
    if |cops| == 0 then ([], [])
    else
      var before := CopsTick(cops[..|cops| - 1], p, walls, sqrt);
      var step := CopTick(cops[|cops| - 1], p, walls, sqrt);
      (before.0 + [step.cop], before.1 + (if step.shot.Some? then [step.shot.value] else []))
  }

  /** Guards do not interact within a frame: each guard after the pass is
      what its own frame makes of it. */
  lemma {:induction false} CopsTickPointwise(cops: seq<Cop>, p: Player, walls: seq<Rect>, sqrt: real -> real)
    ensures forall i :: 0 <= i < |cops| ==> CopsTick(cops, p, walls, sqrt).0[i] == CopTick(cops[i], p, walls, sqrt).cop
    decreases |cops|
  {
    if |cops| > 0 {
      var n := |cops| - 1;
      CopsTickPointwise(cops[..n], p, walls, sqrt);
      forall i | 0 <= i < |cops| ensures CopsTick(cops, p, walls, sqrt).0[i] == CopTick(cops[i], p, walls, sqrt).cop {
        if i < n {
          assert cops[..n][i] == cops[i];
        }
      }
    }
  }

  /** The shots actually fired, in order, from one optional shot per guard. */
  function Fired(shots: seq<Option<CopBullet>>): (r: seq<CopBullet>)
    ensures |r| <= |shots|
    decreases |shots|
  {
    if |shots| == 0 then []
    else
      var last := shots[|shots| - 1];
      Fired(shots[..|shots| - 1]) + (if last.Some? then [last.value] else [])
  }

  /** A bullet is among the fired ones exactly when some guard fired it. */
  lemma {:induction false} FiredMembers(shots: seq<Option<CopBullet>>, b: CopBullet)
    ensures b in Fired(shots) <==> exists i :: 0 <= i < |shots| && shots[i] == Some(b)
    decreases |shots|
  {
    if |shots| > 0 {
      var n := |shots| - 1;
      FiredMembers(shots[..n], b);
      if exists i :: 0 <= i < |shots| && shots[i] == Some(b) {
        var i :| 0 <= i < |shots| && shots[i] == Some(b);
        if i < n {
          assert shots[..n][i] == Some(b);
        }
      }
      if exists i :: 0 <= i < n && shots[..n][i] == Some(b) {
        var i :| 0 <= i < n && shots[..n][i] == Some(b);
        assert shots[i] == Some(b);
      }
    }
  }

  /** Each guard's own shot of the frame, in guard order. */
  function ShotsOf(cops: seq<Cop>, p: Player, walls: seq<Rect>, sqrt: real -> real): seq<Option<CopBullet>> {
    seq(|cops|, i requires 0 <= i < |cops| => CopTick(cops[i], p, walls, sqrt).shot)
  }

  /** The pass fires exactly the guards' own shots, in guard order. */
  lemma {:induction false} CopsTickShots(cops: seq<Cop>, p: Player, walls: seq<Rect>, sqrt: real -> real)
    ensures CopsTick(cops, p, walls, sqrt).1 == Fired(ShotsOf(cops, p, walls, sqrt))
    decreases |cops|
  {
    if |cops| > 0 {
      var n := |cops| - 1;
      CopsTickShots(cops[..n], p, walls, sqrt);
      assert ShotsOf(cops, p, walls, sqrt)[..n] == ShotsOf(cops[..n], p, walls, sqrt);
    }
  }

  /** So a guard bullet is new in a frame exactly when some unfrozen guard had
      the player within 70% of its range with its cooldown run out. */
  lemma ShotsOnlyWhenFiring(cops: seq<Cop>, p: Player, walls: seq<Rect>, sqrt: real -> real, b: CopBullet)
    ensures b in CopsTick(cops, p, walls, sqrt).1 <==>
              exists i :: 0 <= i < |cops| && !cops[i].frozen && PlayerDistance(cops[i], p, sqrt) < cops[i].detectionRange
                          && Fires(cops[i], p, sqrt) && b == AimedShot(cops[i], p, sqrt)
  {
    CopsTickShots(cops, p, walls, sqrt);
    FiredMembers(ShotsOf(cops, p, walls, sqrt), b);
    var shots := ShotsOf(cops, p, walls, sqrt);
    if exists i :: 0 <= i < |shots| && shots[i] == Some(b) {
      var i :| 0 <= i < |shots| && shots[i] == Some(b);
      assert CopTick(cops[i], p, walls, sqrt).shot == Some(b);
    }
    if exists i :: 0 <= i < |cops| && !cops[i].frozen && PlayerDistance(cops[i], p, sqrt) < cops[i].detectionRange
                   && Fires(cops[i], p, sqrt) && b == AimedShot(cops[i], p, sqrt) {
      var i :| 0 <= i < |cops| && !cops[i].frozen && PlayerDistance(cops[i], p, sqrt) < cops[i].detectionRange
               && Fires(cops[i], p, sqrt) && b == AimedShot(cops[i], p, sqrt);
      assert shots[i] == Some(b);
    }
  }

  /** While a freeze is in force (every guard frozen) the guard pass changes
      nothing and fires nothing. */
  lemma {:induction false} FrozenGuardsIdle(cops: seq<Cop>, p: Player, walls: seq<Rect>, sqrt: real -> real)
    requires forall i :: 0 <= i < |cops| ==> cops[i].frozen
    ensures CopsTick(cops, p, walls, sqrt) == (cops, [])
    decreases |cops|
  {
    if |cops| > 0 {
      FrozenGuardsIdle(cops[..|cops| - 1], p, walls, sqrt);
      assert cops[..|cops| - 1] + [cops[|cops| - 1]] == cops;
    }
  }

  /** One guard's frame, with the two wall scans of the source. */
  method UpdateCop(c: Cop, p: Player, walls: seq<Rect>, sqrt: real -> real) returns (r: Cop, shot: Option<CopBullet>)
    ensures CopStep(r, shot) == CopTick(c, p, walls, sqrt)
  {
    if c.frozen {
      return c, None;
    }
    r := c;
    if r.shootCooldown > 0 {
      r := r.(shootCooldown := r.shootCooldown - 1);
    }
    var dx := p.x - c.x;
    var dy := p.y - c.y;
    var distance := sqrt(SquaredLength(dx, dy));
    shot := None;
    if distance < c.detectionRange {
      r := r.(state := Chase);
      if distance < c.detectionRange * 0.7 && r.shootCooldown == 0 {
        shot := Some(AimedShot(c, p, sqrt));
        r := r.(shootCooldown := c.maxShootCooldown);
      }
      assert r == c.(state := Chase, shootCooldown := r.shootCooldown);
      if distance > 0.0 {
        r := MoveAlong(r, dx / distance, dy / distance, c.speed, walls);
      }
      assert CopStep(r, shot) == CopTick(c, p, walls, sqrt);
    } else {
      r := r.(state := Patrol);
      var t := c.TargetPoint();
      var patrolDx := t.x - c.x;
      var patrolDy := t.y - c.y;
      var patrolDistance := sqrt(SquaredLength(patrolDx, patrolDy));
      if patrolDistance < 5.0 {
        r := r.(target := Other(r.target));
      }
      if patrolDistance > 0.0 {
        r := MoveAlong(r, patrolDx / patrolDistance, patrolDy / patrolDistance, c.speed * 0.5, walls);
      }
      assert CopStep(r, shot) == CopTick(c, p, walls, sqrt);
    }
  }

  /** The movement block shared by chase and patrol: the step along the
      direction scaled by the speed. */
  method MoveAlong(c: Cop, dirX: real, dirY: real, step: real, walls: seq<Rect>) returns (r: Cop)
    ensures r == Step(c, dirX, dirY, step, walls)
  {
    r := MoveBy(c, dirX, dirY, dirX * step, dirY * step, walls);
  }

  /** One scan over the walls for both axis probes, then the facing. */
  method MoveBy(c: Cop, dirX: real, dirY: real, stepX: real, stepY: real, walls: seq<Rect>) returns (r: Cop)
    ensures r == StepBy(c, dirX, dirY, stepX, stepY, walls)
  {
    var newX := c.x + stepX;
    var newY := c.y + stepY;
    var collisionX, collisionY := ScanWalls(Rect(newX, c.y, c.width, c.height), Rect(c.x, newY, c.width, c.height), walls);
    var x, y := c.x, c.y;
    if !collisionX { x := newX; }
    if !collisionY { y := newY; }
    var direction;
    if Abs(dirX) > Abs(dirY) {
      direction := if dirX > 0.0 then Right else Left;
    } else {
      direction := if dirY > 0.0 then Down else Up;
    }
    r := c.(x := x, y := y, direction := direction);
  }
}
