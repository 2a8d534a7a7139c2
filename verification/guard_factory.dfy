/** The ten guards of a session (game.js `createCops`). */
module GuardFactory {
  import opened Entities

  /** One row of the guard table, in tiles: spawn cell, patrol point 1,
      patrol point 2, speed, health, shoot cooldown and detection range. */
  datatype CopDef = CopDef(col: int, row: int, p1Col: int, p1Row: int, p2Col: int, p2Row: int,
                           speed: real, health: int, cooldown: int, range: int)

  /** The fixed table; the last three rows are placed relative to the
      bottom-right corner of a `w` x `h` grid. */
  function CopTable(w: int, h: int): (t: seq<CopDef>)
    ensures |t| == 10
    ensures forall i :: 0 <= i < |t| ==> t[i].cooldown > 0 && t[i].health > 0 && t[i].range > 0
  {
    [ CopDef(6, 1, 6, 1, 10, 1, 0.6, 30, 100, 5),
      CopDef(15, 1, 15, 1, 20, 1, 0.6, 30, 100, 5),
      CopDef(9, 5, 5, 5, 13, 5, 0.6, 30, 100, 5),
      CopDef(15, 4, 15, 1, 15, 5, 0.6, 30, 100, 5),
      CopDef(13, 9, 13, 3, 13, 9, 0.6, 30, 100, 5),
      CopDef(4, 8, 1, 8, 8, 8, 0.6, 30, 100, 5),
      CopDef(3, 5, 3, 3, 3, 5, 0.6, 40, 100, 5),
      CopDef(w - 2, h - 10, w - 2, h - 13, w - 2, h - 8, 0.7, 40, 90, 7),
      CopDef(w - 2, h - 3, w - 2, h - 5, w - 2, h - 3, 0.7, 40, 90, 7),
      CopDef(w - 5, h - 5, w - 7, h - 6, w - 5, h - 6, 0.8, 40, 80, 7) ]
  }

  /** A guard as the table row `d` spawns it: at its spawn cell, patrolling
      toward patrol point 2, unfrozen, facing left, ready to fire. */
  ghost predicate SpawnedFrom(c: Cop, d: CopDef) {
    && c.x == d.col as real * TILE && c.y == d.row as real * TILE
    && c.width == COP_SIZE && c.height == COP_SIZE
    && c.speed == d.speed && c.health == d.health
    && c.patrolPoint1 == Point(d.p1Col as real * TILE, d.p1Row as real * TILE)
    && c.patrolPoint2 == Point(d.p2Col as real * TILE, d.p2Row as real * TILE)
    && c.maxShootCooldown == d.cooldown
    && c.detectionRange == TILE * d.range as real
    && c.state == Patrol && !c.frozen && c.direction == Left
    && c.TargetPoint() == c.patrolPoint2
    && c.shootCooldown == 0
  }

  /** createCops: one guard per table row, in table order. */
  method CreateCops(w: int, h: int) returns (cops: seq<Cop>)
    ensures |cops| == 10
    ensures forall i :: 0 <= i < 10 ==> SpawnedFrom(cops[i], CopTable(w, h)[i])
    ensures forall i :: 0 <= i < 10 ==> 0 == cops[i].shootCooldown < cops[i].maxShootCooldown
  {
    var table := CopTable(w, h);
    cops := [];
    for i := 0 to |table|
      invariant |cops| == i
      invariant forall k :: 0 <= k < i ==> SpawnedFrom(cops[k], table[k])
    {
      var def := table[i];
      cops := cops + [Cop(def.col as real * TILE, def.row as real * TILE, TILE - 4.0, TILE - 4.0,
                          def.speed, def.health, 0, def.cooldown, Patrol,
                          Point(def.p1Col as real * TILE, def.p1Row as real * TILE),
                          Point(def.p2Col as real * TILE, def.p2Row as real * TILE),
                          SecondAnchor, TILE * def.range as real, false, Left)];
    }
  }
}
