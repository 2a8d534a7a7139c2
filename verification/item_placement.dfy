/** Rejection-sampling placement of pickups (game.js `placeRandomItem` and
    `createPowerups`). `Math.random` is replaced by a supplied sequence of
    draws in [0, 1); each attempt consumes two of them (column, then row), and
    placement fails instead of looping forever once the draws run out. */
module ItemPlacement {
  import opened Options
  import opened Geometry
  import opened Entities

  /** The `type` argument: `'freeze'` or anything else (an ammo pack). */
  datatype ItemKind = FreezeKind | AmmoKind

  /** `Math.floor(u * (n - 2) + 1)`: a cell index along an axis of `n` tiles. */
  function Pick(u: real, n: int): int {
    (u * (n - 2) as real + 1.0).Floor
  }

  /** The candidate box of attempt `k`. */
  function Candidate(draws: seq<real>, k: nat, w: int, h: int, size: real): Rect
    requires 2 * k + 1 < |draws|
  {
    Rect(Pick(draws[2 * k], w) as real * TILE, Pick(draws[2 * k + 1], h) as real * TILE, size, size)
  }

  /** The record pushed for an accepted position: a freeze item carries only
      its type, any other item the given ammo payload. */
  function MakeItem(box: Rect, kind: ItemKind, ammo: int): Item {
    Item(box, if kind == FreezeKind then FreezeTag else AmmoRefill(ammo))
  }

  ghost predicate Draws(draws: seq<real>) {
    forall i :: 0 <= i < |draws| ==> 0.0 <= draws[i] < 1.0
  }

  /** A `size` x `size` box whose corner is the corner of cell (col, row). */
  function CellBox(col: int, row: int, size: real): Rect {
    Rect(col as real * TILE, row as real * TILE, size, size)
  }

  /** `box` is a `size` x `size` box on a tile strictly inside the border of a
      `w` x `h` grid, overlapping no wall. */
  ghost predicate OnFloor(box: Rect, size: real, w: int, h: int, walls: seq<Rect>) {
    && (exists col: int, row: int ::
          1 <= col <= w - 2 && 1 <= row <= h - 2 && box == CellBox(col, row, size))
    && !HitsWall(box, walls)
  }

  /** A draw in [0, 1) picks a cell between 1 and n - 2: never the border. */
  lemma PickInRange(u: real, n: int)
    requires 0.0 <= u < 1.0 && n >= 3
    ensures 1 <= Pick(u, n) <= n - 2
  {
    var m := (n - 2) as real;
    assert 0.0 <= u * m by {
      assert 0.0 <= m;
    }
    assert u * m < m by {
      assert (1.0 - u) * m > 0.0;
    }
  }

  lemma CandidateOnGrid(draws: seq<real>, k: nat, w: int, h: int, size: real)
    requires 2 * k + 1 < |draws| && Draws(draws) && w >= 3 && h >= 3
    ensures exists col: int, row: int ::
              1 <= col <= w - 2 && 1 <= row <= h - 2 && Candidate(draws, k, w, h, size) == CellBox(col, row, size)
  {
    PickInRange(draws[2 * k], w);
    PickInRange(draws[2 * k + 1], h);
    var col, row := Pick(draws[2 * k], w), Pick(draws[2 * k + 1], h);
    assert Candidate(draws, k, w, h, size) == CellBox(col, row, size);
  }

  /** placeRandomItem: draw candidate tiles until one overlaps no wall, then
      append the item. `used` is the number of draws consumed. */
  method PlaceRandomItem(items: seq<Item>, kind: ItemKind, size: real, ammo: int,
                         walls: seq<Rect>, w: int, h: int, draws: seq<real>)
    returns (placed: Option<seq<Item>>, used: nat)
    ensures used <= |draws| && used % 2 == 0
    // every attempt before the accepted one was rejected by a wall
    ensures forall k: nat :: k < used / 2 - (if placed.Some? then 1 else 0) ==>
              HitsWall(Candidate(draws, k, w, h, size), walls)
    ensures placed.None? ==> |draws| - used < 2
    ensures placed.Some? ==>
              && used >= 2
              && !HitsWall(Candidate(draws, used / 2 - 1, w, h, size), walls)
              && placed.value == items + [MakeItem(Candidate(draws, used / 2 - 1, w, h, size), kind, ammo)]
  {
    var validPosition := false;
    var x, y := 0.0, 0.0;
    used := 0;
    while !validPosition
      invariant used <= |draws| && used % 2 == 0
      invariant forall k: nat :: k < used / 2 - (if validPosition then 1 else 0) ==>
                  HitsWall(Candidate(draws, k, w, h, size), walls)
      invariant validPosition ==> used >= 2 && Rect(x, y, size, size) == Candidate(draws, used / 2 - 1, w, h, size)
                                  && !HitsWall(Rect(x, y, size, size), walls)
      decreases |draws| - used, if validPosition then 0 else 1
    {
      if |draws| - used < 2 {
        return None, used;
      }
      x := Pick(draws[used], w) as real * TILE;
      y := Pick(draws[used + 1], h) as real * TILE;
      assert Rect(x, y, size, size) == Candidate(draws, used / 2, w, h, size);
      used := used + 2;
      var hit := FirstWallHit(Rect(x, y, size, size), walls);
      validPosition := !hit;
    }
    placed := Some(items + [MakeItem(Rect(x, y, size, size), kind, ammo)]);
  }

  /** Both item lists are well placed: `powerups` holds freeze items only,
      `ammoPacks` ammo packs of 5 only, each `ITEM_SIZE` wide. */
  ghost predicate StockedItems(powerups: seq<Item>, ammoPacks: seq<Item>, walls: seq<Rect>) {
    && (forall it :: it in powerups ==>
          it.payload == FreezeTag && it.box.width == it.box.height == ITEM_SIZE && !HitsWall(it.box, walls))
    && (forall it :: it in ammoPacks ==>
          it.payload == AmmoRefill(AMMO_PACK_AMOUNT) && it.box.width == it.box.height == ITEM_SIZE
          && !HitsWall(it.box, walls))
  }

  /** createPowerups: three freeze items, then five ammo packs of 5. */
  method CreatePowerups(walls: seq<Rect>, w: int, h: int, draws: seq<real>)
    returns (placed: Option<(seq<Item>, seq<Item>)>, used: nat)
    requires Draws(draws)
    ensures used <= |draws|
    ensures placed.Some? ==>
              && |placed.value.0| == 3 && |placed.value.1| == 5
              && StockedItems(placed.value.0, placed.value.1, walls)
              && (w >= 3 && h >= 3 ==>
                    (forall i :: 0 <= i < 3 ==> OnFloor(placed.value.0[i].box, ITEM_SIZE, w, h, walls))
                    && (forall i :: 0 <= i < 5 ==> OnFloor(placed.value.1[i].box, ITEM_SIZE, w, h, walls)))
  {
    var powerups: seq<Item> := [];
    var ammoPacks: seq<Item> := [];
    used := 0;
    for i := 0 to 3
      invariant used <= |draws| && |powerups| == i
      invariant StockedItems(powerups, [], walls)
      invariant w >= 3 && h >= 3 ==> forall k :: 0 <= k < i ==> OnFloor(powerups[k].box, ITEM_SIZE, w, h, walls)
    {
      var r, n := PlaceRandomItem(powerups, FreezeKind, TILE / 2.0, 0, walls, w, h, draws[used..]);
      if r.None? {
        return None, used + n;
      }
      PlacedOnFloor(draws[used..], n, w, h, ITEM_SIZE, walls);
      powerups, used := r.value, used + n;
    }
    for i := 0 to 5
      invariant used <= |draws| && |ammoPacks| == i
      invariant StockedItems(powerups, ammoPacks, walls)
      invariant w >= 3 && h >= 3 ==> forall k :: 0 <= k < 3 ==> OnFloor(powerups[k].box, ITEM_SIZE, w, h, walls)
      invariant w >= 3 && h >= 3 ==> forall k :: 0 <= k < i ==> OnFloor(ammoPacks[k].box, ITEM_SIZE, w, h, walls)
    {
      var r, n := PlaceRandomItem(ammoPacks, AmmoKind, TILE / 2.0, AMMO_PACK_AMOUNT, walls, w, h, draws[used..]);
      if r.None? {
        return None, used + n;
      }
      PlacedOnFloor(draws[used..], n, w, h, ITEM_SIZE, walls);
      ammoPacks, used := r.value, used + n;
    }
    placed := Some((powerups, ammoPacks));
  }

  /** The accepted candidate of a placement is on the floor. */
  lemma PlacedOnFloor(draws: seq<real>, used: nat, w: int, h: int, size: real, walls: seq<Rect>)
    requires Draws(draws) && 2 <= used <= |draws| && used % 2 == 0
    requires !HitsWall(Candidate(draws, used / 2 - 1, w, h, size), walls)
    ensures w >= 3 && h >= 3 ==> OnFloor(Candidate(draws, used / 2 - 1, w, h, size), size, w, h, walls)
  {
    if w >= 3 && h >= 3 {
      CandidateOnGrid(draws, used / 2 - 1, w, h, size);
    }
  }
}
