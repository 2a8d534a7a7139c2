/** The plain records of the simulation: player, guards, projectiles and
    pickups, with the game's fixed sizes, speeds and damages. */
module Entities {
  import opened Geometry

  /** Logical tile size in pixels. */
  const TILE: real := 40.0

  /** Player record at session start (game.js `player`). */
  const PLAYER_SIZE: real := TILE - 5.0
  const PLAYER_SPEED: real := 1.5
  const PLAYER_HEALTH: int := 100
  const PLAYER_AMMO: int := 10

  /** Guards are drawn and collide as TILE - 4 squares. */
  const COP_SIZE: real := TILE - 4.0

  /** Both kinds of projectile are 4 x 4 and deal 10 damage. */
  const BULLET_SIZE: real := 4.0
  const BULLET_DAMAGE: int := 10
  const PLAYER_BULLET_SPEED: real := 8.0
  const COP_BULLET_SPEED: real := 6.0

  /** Pickups are half a tile wide; an ammo pack restocks 5 rounds. */
  const ITEM_SIZE: real := TILE / 2.0
  const AMMO_PACK_AMOUNT: int := 5

  /** Ticks a freeze power-up lasts (`freezeEffect.maxDuration`). */
  const FREEZE_TICKS: int := 120

  datatype Direction = Up | Down | Left | Right

  /** The guard's behavioural state, `'patrol'` or `'chase'` in the source. */
  datatype CopState = Patrol | Chase

  /** Which object a guard's `targetPoint` is. The source swaps targets by
      reference identity (`targetPoint === patrolPoint1`); a guard starts with
      a fresh copy of patrol point 2, which behaves exactly like point 2 here. */
  datatype Anchor = FirstAnchor | SecondAnchor

  datatype Point = Point(x: real, y: real)

  datatype Player = Player(x: real, y: real, width: real, height: real, speed: real,
                           health: int, ammo: int, direction: Direction)
  {
    function Box(): Rect { Rect(x, y, width, height) }
  }

  datatype Cop = Cop(x: real, y: real, width: real, height: real, speed: real,
                     health: int, shootCooldown: int, maxShootCooldown: int,
                     state: CopState, patrolPoint1: Point, patrolPoint2: Point,
                     target: Anchor, detectionRange: real, frozen: bool,
                     direction: Direction)
  {
    function Box(): Rect { Rect(x, y, width, height) }

    /** The position of the patrol point the guard currently walks toward. */
    function TargetPoint(): Point {
      match target
      case FirstAnchor => patrolPoint1
      case SecondAnchor => patrolPoint2
    }
  }

  /** A player bullet flies along a discrete direction. */
  datatype Bullet = Bullet(x: real, y: real, width: real, height: real, speed: real,
                           direction: Direction, damage: int)
  {
    function Box(): Rect { Rect(x, y, width, height) }
  }

  /** A guard bullet flies along a (normalised) direction vector. */
  datatype CopBullet = CopBullet(x: real, y: real, width: real, height: real, speed: real,
                                 directionX: real, directionY: real, damage: int)
  {
    function Box(): Rect { Rect(x, y, width, height) }
  }

  /** A freeze power-up carries only its type; an ammo pack its restock amount. */
  datatype Payload = FreezeTag | AmmoRefill(amount: int)

  datatype Item = Item(box: Rect, payload: Payload)
}
