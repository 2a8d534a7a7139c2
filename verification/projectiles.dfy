/** Projectile resolution (game.js `moveBullets`). Both bullet lists are
    walked from the last index down, each bullet is advanced and then
    resolved first-match-wins: walls before guards (or the player), and among
    guards the highest index first. */
module Projectiles {
  import opened Options
  import opened Geometry
  import opened Entities

  /** A player bullet after one step along its direction. */
  function Advance(b: Bullet): (r: Bullet)
    ensures r == b.(x := r.x, y := r.y)
    ensures b.direction == Right ==> r.x == b.x + b.speed && r.y == b.y
    ensures b.direction == Left ==> r.x == b.x - b.speed && r.y == b.y
    ensures b.direction == Up ==> r.y == b.y - b.speed && r.x == b.x
    ensures b.direction == Down ==> r.y == b.y + b.speed && r.x == b.x
  {
    match b.direction
    case Right => b.(x := b.x + b.speed)
    case Left => b.(x := b.x - b.speed)
    case Up => b.(y := b.y - b.speed)
    case Down => b.(y := b.y + b.speed)
  }

  /** A guard bullet after one step along its direction vector. */
  function AdvanceCop(b: CopBullet): (r: CopBullet)
    ensures r == b.(x := r.x, y := r.y)
    ensures r.x - b.x == b.directionX * b.speed && r.y - b.y == b.directionY * b.speed
  {
    b.(x := b.x + b.directionX * b.speed, y := b.y + b.directionY * b.speed)
  }

  /** The highest index of a guard that `box` overlaps, if any. */
  function LastHitCop(box: Rect, cops: seq<Cop>): (r: Option<nat>)
    ensures r.None? <==> forall j :: 0 <= j < |cops| ==> !Collides(box, cops[j].Box())
    ensures r.Some? ==> r.value < |cops| && Collides(box, cops[r.value].Box())
                        && forall j :: r.value < j < |cops| ==> !Collides(box, cops[j].Box())
    decreases |cops|
  {
    if |cops| == 0 then None
    else if Collides(box, cops[|cops| - 1].Box()) then Some(|cops| - 1)
    else LastHitCop(box, cops[..|cops| - 1])
  }

  /** The scan of game.js over the guards, from the last index down. */
  method FindLastHitCop(box: Rect, cops: seq<Cop>) returns (hit: Option<nat>)
    ensures hit == LastHitCop(box, cops)
  {
    var j := |cops| - 1;
    while j >= 0
      invariant -1 <= j < |cops|
      invariant LastHitCop(box, cops) == LastHitCop(box, cops[..j + 1])
    {
      if Collides(box, cops[j].Box()) {
        return Some(j);
      }
      assert cops[..j + 1][..j] == cops[..j];
      j := j - 1;
    }
    assert cops[..0] == [];
    return None;
  }

  /** What one advanced player bullet does. */
  datatype Impact = WallHit | CopHit(index: nat) | Miss

  function PlayerBulletImpact(box: Rect, walls: seq<Rect>, cops: seq<Cop>): (r: Impact)
    ensures r == WallHit <==> HitsWall(box, walls)
    ensures r.CopHit? ==> !HitsWall(box, walls) && LastHitCop(box, cops) == Some(r.index)
    ensures r == Miss <==> !HitsWall(box, walls) && forall j :: 0 <= j < |cops| ==> !Collides(box, cops[j].Box())
  {
    if HitsWall(box, walls) then WallHit
    else match LastHitCop(box, cops)
      case None => Miss
      case Some(j) => CopHit(j)
  }

  /** Guard `j` takes `damage`; it leaves the active set when its health
      drops to 0 or below. */
  function DamageCop(cops: seq<Cop>, j: nat, damage: int): (r: seq<Cop>)
    requires j < |cops|
    ensures |r| == |cops| - (if cops[j].health - damage <= 0 then 1 else 0)
    ensures forall k :: 0 <= k < j ==> r[k] == cops[k]
    ensures cops[j].health - damage <= 0 ==> forall k :: j < k < |cops| ==> r[k - 1] == cops[k]
    ensures cops[j].health - damage > 0 ==>
              && r[j] == cops[j].(health := cops[j].health - damage)
              && forall k :: j < k < |cops| ==> r[k] == cops[k]
  {
    var hurt := cops[j].(health := cops[j].health - damage);
    if hurt.health <= 0 then cops[..j] + cops[j + 1..] else cops[j := hurt]
  }

  /** The player-bullet pass: the surviving bullets (advanced, in their
      original order) and the guards after all hits. The last bullet is
      resolved first, against the guards as they are; earlier bullets see the
      guards it left. */
  function ResolvePlayerBullets(bs: seq<Bullet>, walls: seq<Rect>, cops: seq<Cop>): (r: (seq<Bullet>, seq<Cop>))
    ensures |r.0| <= |bs| && |r.1| <= |cops|
    decreases |bs|
  {
    if |bs| == 0 then ([], cops)
    else
      var b := Advance(bs[|bs| - 1]);
      var earlier := bs[..|bs| - 1];
      match PlayerBulletImpact(b.Box(), walls, cops)
      case WallHit => ResolvePlayerBullets(earlier, walls, cops)
      case Miss =>
        var rest := ResolvePlayerBullets(earlier, walls, cops);
        (rest.0 + [b], rest.1)
      case CopHit(j) => ResolvePlayerBullets(earlier, walls, DamageCop(cops, j, b.damage))
  }

  /** Every surviving player bullet, already advanced, touches no wall. */
  lemma {:induction false} SurvivorsAreClear(bs: seq<Bullet>, walls: seq<Rect>, cops: seq<Cop>)
    ensures forall i :: 0 <= i < |ResolvePlayerBullets(bs, walls, cops).0| ==>
              !HitsWall(ResolvePlayerBullets(bs, walls, cops).0[i].Box(), walls)
    decreases |bs|
  {
    if |bs| > 0 {
      var b := Advance(bs[|bs| - 1]);
      var earlier := bs[..|bs| - 1];
      match PlayerBulletImpact(b.Box(), walls, cops)
      case WallHit => SurvivorsAreClear(earlier, walls, cops);
      case Miss => SurvivorsAreClear(earlier, walls, cops);
      case CopHit(j) => SurvivorsAreClear(earlier, walls, DamageCop(cops, j, b.damage));
    }
  }

  /** A bullet that hits nothing leaves the guards alone and stays in flight;
      any bullet that hits a wall or a guard is gone. */
  lemma {:induction false} SurvivorCount(bs: seq<Bullet>, walls: seq<Rect>, cops: seq<Cop>)
    requires |bs| > 0
    ensures var b := Advance(bs[|bs| - 1]);
            var r := ResolvePlayerBullets(bs, walls, cops);
            var r' := ResolvePlayerBullets(bs[..|bs| - 1], walls, cops);
            PlayerBulletImpact(b.Box(), walls, cops) == Miss ==> r == (r'.0 + [b], r'.1)
    ensures var b := Advance(bs[|bs| - 1]);
            PlayerBulletImpact(b.Box(), walls, cops) != Miss ==>
              |ResolvePlayerBullets(bs, walls, cops).0| <= |bs| - 1
  {
  }

  /** End to end: one bullet of 10 damage that reaches the only guard, which
      has 10 health, with no wall in between, removes the guard and itself. */
  lemma LethalShot(b: Bullet, c: Cop, walls: seq<Rect>)
    requires b.damage == BULLET_DAMAGE && c.health == 10
    requires !HitsWall(Advance(b).Box(), walls) && Collides(Advance(b).Box(), c.Box())
    ensures ResolvePlayerBullets([b], walls, [c]) == ([], [])
  {
    assert PlayerBulletImpact(Advance(b).Box(), walls, [c]) == CopHit(0);
    assert [b][..0] == [];
  }

  // ---------------------------------------------------------------------
  // Guard bullets against the player

  /** The guard-bullet pass: the surviving bullets, the player's health after
      every hit, and whether some hit left the health at 0 or below (each such
      hit calls `gameOver`). */
  datatype Volley = Volley(survivors: seq<CopBullet>, health: int, fatal: bool)

  /** An advanced guard bullet reaches the player box: no wall first. */
  predicate HitsPlayer(b: CopBullet, walls: seq<Rect>, box: Rect) {
    !HitsWall(AdvanceCop(b).Box(), walls) && Collides(AdvanceCop(b).Box(), box)
  }

  function ResolveCopBullets(bs: seq<CopBullet>, walls: seq<Rect>, box: Rect, health: int): (v: Volley)
    ensures |v.survivors| <= |bs|
    decreases |bs|
  {
    if |bs| == 0 then Volley([], health, false)
    else
      var b := AdvanceCop(bs[|bs| - 1]);
      var earlier := bs[..|bs| - 1];
      if HitsWall(b.Box(), walls) then ResolveCopBullets(earlier, walls, box, health)
      else if Collides(b.Box(), box) then
        var hurt := health - b.damage;
        var rest := ResolveCopBullets(earlier, walls, box, hurt);
        rest.(fatal := rest.fatal || hurt <= 0)
      else
        var rest := ResolveCopBullets(earlier, walls, box, health);
        rest.(survivors := rest.survivors + [b])
  }

  /** Independent account of the damage: the sum over all guard bullets that
      reach the player. */
  function DamageTaken(bs: seq<CopBullet>, walls: seq<Rect>, box: Rect): int
    decreases |bs|
  {
    if |bs| == 0 then 0
    else DamageTaken(bs[..|bs| - 1], walls, box)
         + (if HitsPlayer(bs[|bs| - 1], walls, box) then bs[|bs| - 1].damage else 0)
  }

  predicate AnyHit(bs: seq<CopBullet>, walls: seq<Rect>, box: Rect) {
    exists i :: 0 <= i < |bs| && HitsPlayer(bs[i], walls, box)
  }

  ghost predicate DamagesNonNegative(bs: seq<CopBullet>) {
    forall i :: 0 <= i < |bs| ==> bs[i].damage >= 0
  }

  lemma {:induction false} DamageTakenFacts(bs: seq<CopBullet>, walls: seq<Rect>, box: Rect)
    requires DamagesNonNegative(bs)
    ensures DamageTaken(bs, walls, box) >= 0
    ensures !AnyHit(bs, walls, box) ==> DamageTaken(bs, walls, box) == 0
    decreases |bs|
  {
    if |bs| > 0 {
      var earlier := bs[..|bs| - 1];
      assert DamagesNonNegative(earlier);
      DamageTakenFacts(earlier, walls, box);
      if !AnyHit(bs, walls, box) {
        assert !AnyHit(earlier, walls, box) by {
          forall i | 0 <= i < |earlier| ensures !HitsPlayer(earlier[i], walls, box) {
            assert earlier[i] == bs[i];
          }
        }
      }
    }
  }

  /** The player loses exactly the damage of every guard bullet that reaches
      it. */
  lemma {:induction false} HealthAfterVolley(bs: seq<CopBullet>, walls: seq<Rect>, box: Rect, health: int)
    ensures ResolveCopBullets(bs, walls, box, health).health == health - DamageTaken(bs, walls, box)
    decreases |bs|
  {
    if |bs| > 0 {
      var b := bs[|bs| - 1];
      var earlier := bs[..|bs| - 1];
      if HitsPlayer(b, walls, box) {
        HealthAfterVolley(earlier, walls, box, health - b.damage);
      } else {
        HealthAfterVolley(earlier, walls, box, health);
      }
    }
  }

  /** With non-negative damage the session is lost in this pass exactly when
      some guard bullet reaches the player and the health ends at 0 or below. */
  lemma {:induction false} FatalIffHealthExhausted(bs: seq<CopBullet>, walls: seq<Rect>, box: Rect, health: int)
    requires DamagesNonNegative(bs)
    ensures ResolveCopBullets(bs, walls, box, health).fatal <==>
              AnyHit(bs, walls, box) && ResolveCopBullets(bs, walls, box, health).health <= 0
    decreases |bs|
  {
    if |bs| > 0 {
      var b := bs[|bs| - 1];
      var earlier := bs[..|bs| - 1];
      assert DamagesNonNegative(earlier);
      assert forall i :: 0 <= i < |earlier| ==> earlier[i] == bs[i];
      var h := if HitsPlayer(b, walls, box) then health - b.damage else health;
      FatalIffHealthExhausted(earlier, walls, box, h);
      HealthAfterVolley(earlier, walls, box, h);
      DamageTakenFacts(earlier, walls, box);
      if HitsPlayer(b, walls, box) {
        assert AnyHit(bs, walls, box);
      } else if AnyHit(bs, walls, box) {
        var i :| 0 <= i < |bs| && HitsPlayer(bs[i], walls, box);
        assert i < |earlier|;
        assert AnyHit(earlier, walls, box);
      }
    }
  }
}
