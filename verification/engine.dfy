/** The game session as game.js keeps it: one object whose fields are the
    closure's `let` variables, updated in place by the subsystems, the key
    handlers and the timer callback. Each method is proved to produce the
    state the matching function of module Frame describes. */
module Engine {
  import opened Options
  import opened Geometry
  import opened Entities
  import opened MapBuilder
  import opened GuardFactory
  import opened ItemPlacement
  import opened Movement
  import opened Projectiles
  import opened GuardAI
  import opened Pickups
  import opened Frame

  class Game {
    /** MAP_WIDTH and MAP_HEIGHT, in tiles. */
    const width: int
    const height: int

    var running: bool
    var paused: bool
    var won: bool
    var timer: int
    var tickerActive: bool
    var soundEnabled: bool
    var keysPressed: set<string>

    var bullets: seq<Bullet>
    var copBullets: seq<CopBullet>
    var cops: seq<Cop>
    var walls: seq<Rect>
    var powerups: seq<Item>
    var ammoPacks: seq<Item>
    var exit: Rect
    var player: Player

    var freezeActive: bool
    var freezeDuration: int

    /** The session as a value. */
    function State(): World
      reads this
    {
      World(running, paused, won, timer, tickerActive, soundEnabled, keysPressed, player,
            bullets, copBullets, cops, walls, powerups, ammoPacks, exit, freezeActive, freezeDuration)
    }

    ghost predicate Valid()
      reads this
    {
      Consistent(State())
    }

    /** Page load: the declared initial values, then `initGame`. */
    constructor (w: int, h: int, draws: seq<real>)
      requires Draws(draws)
      ensures width == w && height == h
      ensures Valid()
      ensures walls == MapWalls(w, h) && exit == ExitTile(w, h)
      ensures |cops| == 10 && forall i :: 0 <= i < 10 ==> SpawnedFrom(cops[i], CopTable(w, h)[i])
      ensures running ==> State() == Started(PageLoad(), walls, exit, cops, powerups, ammoPacks)
      ensures running ==> |powerups| == 3 && |ammoPacks| == 5
      ensures !running ==> State() == Stopped(Started(PageLoad(), walls, exit, cops, [], []))
    {
      width, height := w, h;
      running, paused, won, timer := true, false, false, 0;
      tickerActive, soundEnabled := false, true;
      keysPressed := {};
      bullets, copBullets, cops, walls, powerups, ammoPacks := [], [], [], [], [], [];
      exit := Rect(0.0, 0.0, 0.0, 0.0);
      player := Player(TILE, TILE, TILE - 5.0, TILE - 5.0, 1.5, 100, 10, Right);
      freezeActive, freezeDuration := false, 0;
      new;
      assert State() == PageLoad();
      var started := InitGame(draws);
    }

    /** initGame. `ok` is false when the supplied draws ran out before every
        item found a free tile; the session is then left stopped. */
    method InitGame(draws: seq<real>) returns (ok: bool)
      requires Draws(draws)
      requires freezeActive ==> 1 <= freezeDuration <= FREEZE_TICKS
      modifies this
      ensures Valid() && walls == MapWalls(width, height) && exit == ExitTile(width, height)
      ensures |cops| == 10 && forall i :: 0 <= i < 10 ==> SpawnedFrom(cops[i], CopTable(width, height)[i])
      ensures ok ==> State() == Started(old(State()), walls, exit, cops, powerups, ammoPacks)
      ensures ok ==> |powerups| == 3 && |ammoPacks| == 5
      ensures !ok ==> State() == Stopped(Started(old(State()), walls, exit, cops, [], []))
    {
      var newWalls, newExit, newCops, newPowerups, newAmmoPacks;
      newWalls, newExit, newCops, newPowerups, newAmmoPacks, ok := BuildLevel(width, height, draws);
      ghost var started := Started(State(), newWalls, newExit, newCops, newPowerups, newAmmoPacks);
      StartedConsistent(State(), newWalls, newExit, newCops, newPowerups, newAmmoPacks);
      NewSession(newWalls, newExit, newCops, newPowerups, newAmmoPacks);
      SameWorld(State(), started);
      if !ok {
        GameOver();
        StoppedConsistent(started);
      }
    }

    /** The middle of initGame: createMap, createCops and createPowerups. When
        the draws run out the level has no items. */
    static method BuildLevel(w: int, h: int, draws: seq<real>)
      returns (walls: seq<Rect>, exit: Rect, cops: seq<Cop>, powerups: seq<Item>, ammoPacks: seq<Item>, ok: bool)
      requires Draws(draws)
      ensures walls == MapWalls(w, h) && exit == ExitTile(w, h)
      ensures |cops| == 10 && forall i :: 0 <= i < 10 ==> SpawnedFrom(cops[i], CopTable(w, h)[i])
      ensures forall i :: 0 <= i < |cops| ==> 0 <= cops[i].shootCooldown <= cops[i].maxShootCooldown && !cops[i].frozen
      ensures StockedItems(powerups, ammoPacks, walls)
      ensures ok ==> |powerups| == 3 && |ammoPacks| == 5
      ensures ok && w >= 3 && h >= 3 ==>
                && (forall i :: 0 <= i < 3 ==> OnFloor(powerups[i].box, ITEM_SIZE, w, h, walls))
                && (forall i :: 0 <= i < 5 ==> OnFloor(ammoPacks[i].box, ITEM_SIZE, w, h, walls))
      ensures !ok ==> powerups == [] && ammoPacks == []
    {
      walls, exit := CreateMap(w, h);
      cops := CreateCops(w, h);
      var placed, used := CreatePowerups(walls, w, h, draws);
      ok := placed.Some?;
      powerups, ammoPacks := [], [];
      if ok {
        powerups, ammoPacks := placed.value.0, placed.value.1;
      }
    }

    /** The state initGame leaves behind: a fresh session on the new level,
        with the sound setting and any freeze effect carried over. */
    method NewSession(newWalls: seq<Rect>, newExit: Rect, newCops: seq<Cop>, newPowerups: seq<Item>, newAmmoPacks: seq<Item>)
      modifies this`running, this`won, this`paused, this`timer, this`tickerActive, this`keysPressed
      modifies this`player, this`bullets, this`copBullets
      modifies this`walls, this`exit, this`cops, this`powerups, this`ammoPacks
      ensures running && !won && !paused && timer == 0 && tickerActive && keysPressed == {}
      ensures player == old(player).(x := TILE, y := TILE, health := 100, ammo := 10, direction := Right)
      ensures bullets == [] && copBullets == []
      ensures walls == newWalls && exit == newExit && cops == newCops
      ensures powerups == newPowerups && ammoPacks == newAmmoPacks
    {
      ResetSession();
      Install(newWalls, newExit, newCops, newPowerups, newAmmoPacks);
    }

    /** The session part of initGame: the session runs again from time 0
        with no held keys and no bullets, and the player is back at
        (TILE, TILE) with full health and ammo, facing right. The timer is
        installed. */
    method ResetSession()
      modifies this`running, this`won, this`paused, this`timer, this`tickerActive, this`keysPressed
      modifies this`player, this`bullets, this`copBullets
      ensures running && !won && !paused && timer == 0 && tickerActive && keysPressed == {}
      ensures player == old(player).(x := TILE, y := TILE, health := 100, ammo := 10, direction := Right)
      ensures bullets == [] && copBullets == []
    {
      running, won, paused, timer := true, false, false, 0;
      keysPressed := {};
      player := player.(x := TILE, y := TILE, health := 100, ammo := 10, direction := Right);
      bullets, copBullets := [], [];
      tickerActive := true;
    }

    /** The level part of initGame: the results of createMap, createCops
        and createPowerups become the level. */
    method Install(newWalls: seq<Rect>, newExit: Rect, newCops: seq<Cop>, newPowerups: seq<Item>, newAmmoPacks: seq<Item>)
      modifies this`walls, this`exit, this`cops, this`powerups, this`ammoPacks
      ensures walls == newWalls && exit == newExit && cops == newCops
      ensures powerups == newPowerups && ammoPacks == newAmmoPacks
    {
      walls, exit, cops := newWalls, newExit, newCops;
      powerups, ammoPacks := newPowerups, newAmmoPacks;
    }

    /** gameOver. */
    method GameOver()
      modifies this`running, this`tickerActive
      ensures State() == Stopped(old(State()))
    {
      running := false;
      tickerActive := false;
    }

    /** togglePause. */
    method TogglePause()
      modifies this`paused, this`tickerActive
      ensures State() == Frame.TogglePause(old(State()))
    {
      paused := !paused;
      if paused {
        tickerActive := false;
      } else {
        tickerActive := true;
      }
    }

    /** The `setInterval` callback. */
    method TimerTick()
      requires Valid()
      modifies this`timer
      ensures Valid()
      ensures State() == Frame.TimerTick(old(State()))
    {
      if tickerActive && running && !paused {
        timer := timer + 1;
      }
      KeyConsistent(old(State()), "");
    }

    /** The held keys' intended position and facing, in movePlayer's order of tests. */
    static method Steer(p: Player, keys: set<string>) returns (newX: real, newY: real, direction: Direction)
      ensures (newX, newY) == Intended(p, keys) && direction == Facing(keys, p.direction)
    {
      newX, newY := p.x, p.y;
      direction := p.direction;
      if "w" in keys || "ArrowUp" in keys {
        newY := newY - p.speed;
        direction := Up;
      }
      if "s" in keys || "ArrowDown" in keys {
        newY := newY + p.speed;
        direction := Down;
      }
      if "a" in keys || "ArrowLeft" in keys {
        newX := newX - p.speed;
        direction := Left;
      }
      if "d" in keys || "ArrowRight" in keys {
        newX := newX + p.speed;
        direction := Right;
      }
    }

    /** movePlayer. */
    method MovePlayer()
      modifies this`player
      ensures State() == MoveStep(old(State()))
    {
      var newX, newY, direction := Steer(player, keysPressed);
      var collisionX, collisionY := ScanWalls(ProbeX(player, newX), ProbeY(player, newY), walls);
      player := player.(x := if collisionX then player.x else newX,
                        y := if collisionY then player.y else newY,
                        direction := direction);
    }

    /** playerShoot. */
    method PlayerShoot()
      modifies this`player, this`bullets
      ensures State() == Shoot(old(State()))
    {
      if player.ammo <= 0 {
        return;
      }
      player := player.(ammo := player.ammo - 1);
      var bullet := Bullet(player.x + player.width / 2.0 - 2.0, player.y + player.height / 2.0 - 2.0,
                           4.0, 4.0, 8.0, player.direction, 10);
      bullets := bullets + [bullet];
    }

    /** moveBullets: the player-bullet pass, then the guard-bullet pass. */
    method MoveBullets()
      modifies this`bullets, this`cops, this`copBullets, this`player, this`running, this`tickerActive
      ensures State() == BulletStep(old(State()))
    {
      MovePlayerBullets();
      MoveCopBullets();
    }

    /** The guard loop of the player-bullet pass: the last guard the bullet
        overlaps loses the bullet's damage and is removed at 0 health. */
    static method HitCop(b: Bullet, cops: seq<Cop>) returns (hit: bool, after: seq<Cop>)
      ensures var j := LastHitCop(b.Box(), cops);
              && (hit <==> j.Some?)
              && after == (if j.Some? then DamageCop(cops, j.value, b.damage) else cops)
    {
      var j := FindLastHitCop(b.Box(), cops);
      if j.None? {
        return false, cops;
      }
      var hurt := cops[j.value].(health := cops[j.value].health - b.damage);
      if hurt.health <= 0 {
        after := cops[..j.value] + cops[j.value + 1..];
      } else {
        after := cops[j.value := hurt];
      }
      hit := true;
    }

    /** One iteration of the player-bullet pass, on bullet `i`: it moves, and
        is dropped on a wall or on a guard it hits, or else kept in place. */
    static method PlayerBulletAt(bs: seq<Bullet>, i: nat, walls: seq<Rect>, cops: seq<Cop>,
                                 ghost bs0: seq<Bullet>, ghost goal: (seq<Bullet>, seq<Cop>))
      returns (bs': seq<Bullet>, cops': seq<Cop>)
      requires ShotsLeft(bs0, walls, goal, i, bs, cops)
      ensures ShotsLeft(bs0, walls, goal, i - 1, bs', cops')
    {
      var b := Advance(bs[i]);
      var hitWall := FirstWallHit(b.Box(), walls);
      if hitWall {
        cops' := cops;
        bs' := bs[..i] + bs[i + 1..];
        WallStep(bs, i, walls, cops);
      } else {
        var hit;
        hit, cops' := HitCop(b, cops);
        if hit {
          bs' := bs[..i] + bs[i + 1..];
          HitStep(bs, i, walls, cops);
        } else {
          bs' := bs[i := b];
          MissStep(bs, i, walls, cops);
        }
      }
      ShotsLeftStep(bs0, walls, goal, i, bs, cops, bs', cops');
    }

    /** The player-bullet pass: from the last bullet down, each bullet moves,
        is dropped on a wall, or damages the last guard it overlaps (which is
        removed at 0 health) and is dropped. */
    method MovePlayerBullets()
      modifies this`bullets, this`cops
      ensures State() == ShotStep(old(State()))
    {
      bullets, cops := ResolveShots(bullets, walls, cops);
    }

    /** The loop of the player-bullet pass over values, from the last bullet
        down: the bullets left and the guards after every hit. */
    static method ResolveShots(bs0: seq<Bullet>, walls: seq<Rect>, cops0: seq<Cop>)
      returns (bs: seq<Bullet>, cs: seq<Cop>)
      ensures (bs, cs) == ResolvePlayerBullets(bs0, walls, cops0)
    {
      bs, cs := bs0, cops0;
      ghost var goal := ResolvePlayerBullets(bs0, walls, cops0);
      var i := |bs| - 1;
      ShotsLeftStart(bs0, walls, cops0);
      while i >= 0
        invariant ShotsLeft(bs0, walls, goal, i, bs, cs)
      {
        bs, cs := PlayerBulletAt(bs, i, walls, cs, bs0, goal);
        i := i - 1;
      }
      ShotsLeftDone(bs0, walls, goal, bs, cs);
    }

    /** The guard-bullet pass: from the last bullet down, each bullet moves,
        is dropped on a wall, or hits the player, who loses its damage. A hit
        that leaves 0 health or less ends the session; the pass still runs
        to the end, so the session is stopped once it is over. */
    method MoveCopBullets()
      modifies this`copBullets, this`player, this`running, this`tickerActive
      ensures State() == VolleyStep(old(State()))
    {
      var survivors, health, fatal := ResolveVolley(copBullets, walls, player.Box(), player.health);
      copBullets := survivors;
      player := player.(health := health);
      if fatal {
        GameOver();
      }
    }

    /** The loop of the guard-bullet pass over values, from the last bullet
        down: the bullets left, the player's health, and whether some hit left
        it at 0 or below. */
    static method ResolveVolley(bs: seq<CopBullet>, walls: seq<Rect>, box: Rect, health0: int)
      returns (survivors: seq<CopBullet>, health: int, fatal: bool)
      ensures Volley(survivors, health, fatal) == ResolveCopBullets(bs, walls, box, health0)
    {
      var cbs := bs;
      ghost var goal := ResolveCopBullets(bs, walls, box, health0);
      health, fatal := health0, false;
      var i := |cbs| - 1;
      assert bs[..i + 1] == bs && cbs[i + 1..] == [] && goal.survivors + [] == goal.survivors;
      while i >= 0
        invariant -1 <= i < |bs| && i + 1 <= |cbs|
        invariant cbs[..i + 1] == bs[..i + 1]
        invariant var r := ResolveCopBullets(bs[..i + 1], walls, box, health);
                  goal == Volley(r.survivors + cbs[i + 1..], r.health, r.fatal || fatal)
      {
        assert cbs[..i] == bs[..i] && cbs[..i + 1] == bs[..i + 1] by {
          assert cbs[..i] == cbs[..i + 1][..i] && bs[..i] == bs[..i + 1][..i];
        }
        var killed;
        cbs, health, killed := CopBulletAt(cbs, i, walls, box, health);
        fatal := fatal || killed;
        i := i - 1;
      }
      assert bs[..0] == [] && cbs[0..] == cbs;
      assert goal == Volley(cbs, health, fatal) by {
        assert ResolveCopBullets(bs[..0], walls, box, health) == Volley([], health, false);
        assert [] + cbs == cbs;
      }
      survivors := cbs;
    }

    /** One iteration of the guard-bullet pass, on bullet `i`: it moves, and
        is dropped on a wall, or dropped on reaching the player, who loses its
        damage (`killed` when that leaves 0 health or less), or else kept in
        place. */
    static method CopBulletAt(bs: seq<CopBullet>, i: nat, walls: seq<Rect>, box: Rect, health: int)
      returns (bs': seq<CopBullet>, health': int, killed: bool)
      requires i < |bs|
      ensures VolleySplit(bs, i, walls, box, health, bs', health', killed)
    {
      var b := AdvanceCop(bs[i]);
      var hitWall := FirstWallHit(b.Box(), walls);
      if hitWall {
        bs', health', killed := bs[..i] + bs[i + 1..], health, false;
        CopWallStep(bs, i, walls, box, health);
      } else if Collides(b.Box(), box) {
        health' := health - b.damage;
        bs' := bs[..i] + bs[i + 1..];
        killed := health' <= 0;
        CopHitStep(bs, i, walls, box, health);
      } else {
        bs', health', killed := bs[i := b], health, false;
        CopMissStep(bs, i, walls, box, health);
      }
    }

    /** moveCops: every guard in order takes its frame; a guard that fires
        appends its shot to the guard bullets. */
    method MoveCops(sqrt: real -> real)
      modifies this`cops, this`copBullets
      ensures State() == GuardStep(old(State()), sqrt)
    {
      cops, copBullets := TickGuards(cops, copBullets, player, walls, sqrt);
    }

    /** The loop of moveCops over values: the guards after their frames, and
        the guard bullets with every shot appended in guard order. */
    static method TickGuards(cops: seq<Cop>, copBullets: seq<CopBullet>, p: Player, walls: seq<Rect>, sqrt: real -> real)
      returns (cs: seq<Cop>, shots: seq<CopBullet>)
      ensures cs == CopsTick(cops, p, walls, sqrt).0
      ensures shots == copBullets + CopsTick(cops, p, walls, sqrt).1
    {
      cs, shots := cops, copBullets;
      assert cops[..0] == [] && cs == [] + cops[0..] && shots == copBullets + [];
      for i := 0 to |cops|
        invariant |cs| == |cops|
        invariant cs == CopsTick(cops[..i], p, walls, sqrt).0 + cops[i..]
        invariant shots == copBullets + CopsTick(cops[..i], p, walls, sqrt).1
      {
        var c, shot := UpdateCop(cs[i], p, walls, sqrt);
        GuardLoopStep(cops, copBullets, i, cs, shots, p, walls, sqrt, c, shot);
        cs := cs[i := c];
        if shot.Some? {
          shots := shots + [shot.value];
        }
      }
      assert cops[..|cops|] == cops && cops[|cops|..] == [];
    }

    /** `for (let cop of cops) cop.frozen = f`, over the guards as a value. */
    static method FreezeAll(cops: seq<Cop>, f: bool) returns (r: seq<Cop>)
      ensures r == SetFrozen(cops, f)
    {
      r := cops;
      for k := 0 to |r|
        invariant |r| == |cops|
        invariant forall m :: 0 <= m < k ==> r[m] == cops[m].(frozen := f)
        invariant forall m :: k <= m < |r| ==> r[m] == cops[m]
      {
        r := r[k := r[k].(frozen := f)];
      }
    }

    /** checkPickups. */
    method CheckPickups()
      modifies this`powerups, this`ammoPacks, this`player, this`cops, this`freezeActive, this`freezeDuration
      modifies this`won, this`running, this`tickerActive
      ensures State() == PickupStep(old(State()))
    {
      CollectPowerups();
      CollectAmmo();
      if Collides(player.Box(), exit) {
        won := true;
        GameOver();
      }
    }

    /** The freeze-item loop. */
    method CollectPowerups()
      modifies this`powerups, this`cops, this`freezeActive, this`freezeDuration
      ensures State() == FreezePickup(old(State()))
    {
      var touched;
      powerups, touched := TakePowerups(powerups, player.Box());
      if touched {
        freezeActive, freezeDuration := true, 120;
        cops := FreezeAll(cops, true);
      }
    }

    /** The freeze-item loop over values, from the last item down: the items
        left, and whether any was taken. Taking one sets the freeze (which
        `CollectPowerups` applies once; setting it again changes nothing). */
    static method TakePowerups(items: seq<Item>, box: Rect) returns (left: seq<Item>, touched: bool)
      ensures left == Untouched(items, box)
      ensures touched <==> AnyTouched(items, box)
    {
      left := items;
      touched := false;
      var i := |left| - 1;
      assert items[|items|..] == [];
      while i >= 0
        invariant -1 <= i < |items| && i + 1 <= |left|
        invariant left[..i + 1] == items[..i + 1]
        invariant left[i + 1..] == Untouched(items[i + 1..], box)
        invariant touched <==> AnyTouched(items[i + 1..], box)
      {
        PickupLoopStep(items, left, i, box);
        if Collides(box, left[i].box) {
          touched := true;
          left := left[..i] + left[i + 1..];
        }
        assert left[..i] == items[..i];
        i := i - 1;
      }
      assert items[0..] == items && left[0..] == left;
    }

    /** The ammo-pack loop. */
    method CollectAmmo()
      modifies this`ammoPacks, this`player
      ensures State() == AmmoPickup(old(State()))
    {
      var left, ammo := TakeAmmo(ammoPacks, player.Box(), player.ammo);
      ammoPacks, player := left, player.(ammo := ammo);
    }

    /** The ammo-pack loop over values, from the last pack down: the packs
        left and the ammo count after every touched pack is added. */
    static method TakeAmmo(packs: seq<Item>, box: Rect, ammo0: int) returns (left: seq<Item>, ammo: int)
      ensures left == Untouched(packs, box)
      ensures ammo == ammo0 + AmmoGained(packs, box)
    {
      left, ammo := packs, ammo0;
      var i := |left| - 1;
      assert packs[|packs|..] == [];
      while i >= 0
        invariant -1 <= i < |packs| && i + 1 <= |left|
        invariant left[..i + 1] == packs[..i + 1]
        invariant left[i + 1..] == Untouched(packs[i + 1..], box)
        invariant ammo == ammo0 + AmmoGained(packs[i + 1..], box)
      {
        PickupLoopStep(packs, left, i, box);
        if Collides(box, left[i].box) {
          ammo := ammo + Gain(left[i].payload);
          left := left[..i] + left[i + 1..];
        }
        assert left[..i] == packs[..i];
        i := i - 1;
      }
      assert packs[0..] == packs && left[0..] == left;
    }

    /** updateFreezeEffect. */
    method UpdateFreezeEffect()
      modifies this`freezeActive, this`freezeDuration, this`cops
      ensures State() == FreezeStep(old(State()))
    {
      if freezeActive {
        freezeDuration := freezeDuration - 1;
        if freezeDuration <= 0 {
          freezeActive := false;
          cops := FreezeAll(cops, false);
        }
      }
    }

    /** One `gameLoop` call's update (drawing and rescheduling aside). */
    method Tick(sqrt: real -> real)
      requires Valid()
      modifies this
      ensures Valid()
      ensures State() == FrameStep(old(State()), sqrt)
    {
      if running && !paused {
        MovePlayer();
        MoveBullets();
        MoveCops(sqrt);
        CheckPickups();
        UpdateFreezeEffect();
      }
      FrameStepConsistent(old(State()), sqrt);
    }

    /** The keydown handler. */
    method KeyDown(key: string, draws: seq<real>)
      requires Valid() && Draws(draws)
      modifies this
      ensures Valid()
      ensures var e := Classify(old(running), old(paused), key);
              && (e == NoEffect ==> State() == old(State()))
              && (e == PauseToggle ==> State() == Frame.TogglePause(old(State())))
              && (e == Press ==> State() == Pressed(old(State()), key))
              && (e == Restart && running ==> State() == Started(old(State()), walls, exit, cops, powerups, ammoPacks))
    ensures Classify(old(running), old(paused), key) == Restart ==>
              && walls == MapWalls(width, height) && exit == ExitTile(width, height)
              && |cops| == 10 && (forall i :: 0 <= i < 10 ==> SpawnedFrom(cops[i], CopTable(width, height)[i]))
              && (running ==> |powerups| == 3 && |ammoPacks| == 5)
              && (!running ==> State() == Stopped(Started(old(State()), walls, exit, cops, [], [])))
    {
      LowerIs(key, 'r');
      if key == "p" || key == "P" {
        if running {
          TogglePause();
          KeyConsistent(old(State()), key);
        }
        return;
      }
      if !running {
        if Lower(key) == "r" {
          var started := InitGame(draws);
        }
        return;
      }
      if paused {
        return;
      }
      HoldKey(key);
      KeyConsistent(old(State()), key);
    }

    /** The keydown handler while the session runs unpaused and the key is
        not p: the key is held, space shoots and m toggles the sound. */
    method HoldKey(key: string)
      modifies this`keysPressed, this`player, this`bullets, this`soundEnabled
      ensures State() == Pressed(old(State()), key)
    {
      LowerIs(key, 'm');
      keysPressed := keysPressed + {key};
      if key == " " {
        PlayerShoot();
      }
      if Lower(key) == "m" {
        soundEnabled := !soundEnabled;
      }
      SameWorld(State(), Pressed(old(State()), key));
    }

    /** The keyup handler. */
    method KeyUp(key: string)
      requires Valid()
      modifies this`keysPressed
      ensures Valid()
      ensures State() == Released(old(State()), key)
    {
      keysPressed := keysPressed - {key};
    }
  }

  /** Two sessions are equal when every field is. */
  lemma SameWorld(a: World, b: World)
    requires a.running == b.running && a.paused == b.paused && a.won == b.won && a.timer == b.timer
    requires a.tickerActive == b.tickerActive && a.soundEnabled == b.soundEnabled && a.keys == b.keys
    requires a.player == b.player && a.bullets == b.bullets && a.copBullets == b.copBullets && a.cops == b.cops
    requires a.walls == b.walls && a.powerups == b.powerups && a.ammoPacks == b.ammoPacks && a.exit == b.exit
    requires a.freezeActive == b.freezeActive && a.freezeDuration == b.freezeDuration
    ensures a == b
  {
  }

  /** The pass over `bs[..i + 1]` followed by the bullets after `i` equals
      the pass over `bs[..i]`, against the guards `cops'` left by bullet `i`,
      followed by `bs'[i..]`; and `bs'` keeps the bullets before `i`. */
  ghost predicate PassSplit(bs: seq<Bullet>, i: nat, walls: seq<Rect>, cops: seq<Cop>, bs': seq<Bullet>, cops': seq<Cop>)
    requires i < |bs|
  {
    var pending := ResolvePlayerBullets(bs[..i + 1], walls, cops);
    var rest := ResolvePlayerBullets(bs[..i], walls, cops');
    && i <= |bs'| && bs'[..i] == bs[..i]
    && pending.0 + bs[i + 1..] == rest.0 + bs'[i..] && pending.1 == rest.1
  }

  /** The player-bullet pass with bullets `i + 1..` resolved: `bs` still
      holds the original bullets up to `i`, and resolving them against the
      guards `cs` in front of the bullets kept so far gives the whole pass. */
  ghost predicate ShotsLeft(bs0: seq<Bullet>, walls: seq<Rect>, goal: (seq<Bullet>, seq<Cop>), i: int,
                            bs: seq<Bullet>, cs: seq<Cop>)
  {
    && -1 <= i < |bs0| && i + 1 <= |bs|
    && bs[..i + 1] == bs0[..i + 1]
    && var r := ResolvePlayerBullets(bs0[..i + 1], walls, cs);
       goal.0 == r.0 + bs[i + 1..] && goal.1 == r.1
  }

  /** Before the pass nothing is resolved. */
  lemma ShotsLeftStart(bs0: seq<Bullet>, walls: seq<Rect>, cops0: seq<Cop>)
    ensures ShotsLeft(bs0, walls, ResolvePlayerBullets(bs0, walls, cops0), |bs0| - 1, bs0, cops0)
  {
    assert bs0[..|bs0|] == bs0 && bs0[|bs0|..] == [];
    var goal := ResolvePlayerBullets(bs0, walls, cops0);
    assert goal.0 + [] == goal.0;
  }

  /** After the pass everything is resolved. */
  lemma ShotsLeftDone(bs0: seq<Bullet>, walls: seq<Rect>, goal: (seq<Bullet>, seq<Cop>), bs: seq<Bullet>, cs: seq<Cop>)
    requires ShotsLeft(bs0, walls, goal, -1, bs, cs)
    ensures goal == (bs, cs)
  {
    assert bs0[..0] == [] && bs[0..] == bs;
    assert ResolvePlayerBullets(bs0[..0], walls, cs) == ([], cs);
    assert [] + bs == bs;
  }

  /** Resolving bullet `i` keeps the pass's invariant. */
  lemma ShotsLeftStep(bs0: seq<Bullet>, walls: seq<Rect>, goal: (seq<Bullet>, seq<Cop>), i: int,
                      bs: seq<Bullet>, cs: seq<Cop>, bs': seq<Bullet>, cs': seq<Cop>)
    requires 0 <= i && ShotsLeft(bs0, walls, goal, i, bs, cs)
    requires PassSplit(bs, i, walls, cs, bs', cs')
    ensures ShotsLeft(bs0, walls, goal, i - 1, bs', cs')
  {
    assert bs[..i] == bs0[..i] by {
      assert bs[..i] == bs[..i + 1][..i] && bs0[..i] == bs0[..i + 1][..i];
    }
  }

  /** Bullet `i` stops at a wall: it is dropped and the guards are untouched. */
  lemma WallStep(bs: seq<Bullet>, i: nat, walls: seq<Rect>, cops: seq<Cop>)
    requires i < |bs| && HitsWall(Advance(bs[i]).Box(), walls)
    ensures PassSplit(bs, i, walls, cops, bs[..i] + bs[i + 1..], cops)
  {
    assert bs[..i + 1][..i] == bs[..i];
    var bs' := bs[..i] + bs[i + 1..];
    assert bs'[..i] == bs[..i] && bs'[i..] == bs[i + 1..];
  }

  /** Bullet `i` hits a guard: it is dropped and the last guard it overlaps
      takes its damage. */
  lemma HitStep(bs: seq<Bullet>, i: nat, walls: seq<Rect>, cops: seq<Cop>)
    requires i < |bs| && !HitsWall(Advance(bs[i]).Box(), walls)
    requires LastHitCop(Advance(bs[i]).Box(), cops).Some?
    ensures var b := Advance(bs[i]);
            PassSplit(bs, i, walls, cops, bs[..i] + bs[i + 1..],
                      DamageCop(cops, LastHitCop(b.Box(), cops).value, b.damage))
  {
    assert bs[..i + 1][..i] == bs[..i];
    var bs' := bs[..i] + bs[i + 1..];
    assert bs'[..i] == bs[..i] && bs'[i..] == bs[i + 1..];
  }

  /** Bullet `i` hits nothing: it is kept, advanced, in its place. */
  lemma MissStep(bs: seq<Bullet>, i: nat, walls: seq<Rect>, cops: seq<Cop>)
    requires i < |bs| && !HitsWall(Advance(bs[i]).Box(), walls)
    requires LastHitCop(Advance(bs[i]).Box(), cops).None?
    ensures PassSplit(bs, i, walls, cops, bs[i := Advance(bs[i])], cops)
  {
    assert bs[..i + 1][..i] == bs[..i];
    var b := Advance(bs[i]);
    var bs' := bs[i := b];
    var rest := ResolvePlayerBullets(bs[..i], walls, cops);
    assert ResolvePlayerBullets(bs[..i + 1], walls, cops) == (rest.0 + [b], rest.1);
    assert bs'[..i] == bs[..i] && bs'[i..] == [b] + bs[i + 1..];
    assert rest.0 + [b] + bs[i + 1..] == rest.0 + bs'[i..];
  }

  /** Replacing the element between `a` and `b`. */
  lemma ReplaceAt<T>(a: seq<T>, x: T, y: T, b: seq<T>)
    ensures (a + [x] + b)[|a| := y] == a + [y] + b
  {
  }

  /** One step of a pickup loop, seen from the loop: item `i` is resolved in
      front of the items after it. */
  lemma PickupLoopStep(items: seq<Item>, current: seq<Item>, i: int, box: Rect)
    requires 0 <= i < |items| && i < |current|
    requires current[..i + 1] == items[..i + 1]
    ensures current[i] == items[i]
    ensures Untouched(items[i..], box) == (if Touches(box, items[i]) then [] else [items[i]]) + Untouched(items[i + 1..], box)
    ensures AmmoGained(items[i..], box) == (if Touches(box, items[i]) then Gain(items[i].payload) else 0) + AmmoGained(items[i + 1..], box)
    ensures AnyTouched(items[i..], box) <==> Touches(box, items[i]) || AnyTouched(items[i + 1..], box)
  {
    assert current[i] == current[..i + 1][i];
    UntouchedCons(items, i, box);
  }

  /** One step of the guard pass, seen from the loop: the pass over
      `cops[..i + 1]` is the pass over `cops[..i]` and then guard `i`'s frame. */
  lemma GuardLoopStep(cops: seq<Cop>, copBullets: seq<CopBullet>, i: nat, cs: seq<Cop>, shots: seq<CopBullet>,
                      p: Player, walls: seq<Rect>, sqrt: real -> real, c: Cop, shot: Option<CopBullet>)
    requires i < |cops|
    requires cs == CopsTick(cops[..i], p, walls, sqrt).0 + cops[i..]
    requires shots == copBullets + CopsTick(cops[..i], p, walls, sqrt).1
    requires CopStep(c, shot) == CopTick(cops[i], p, walls, sqrt)
    ensures cs[i := c] == CopsTick(cops[..i + 1], p, walls, sqrt).0 + cops[i + 1..]
    ensures (if shot.Some? then shots + [shot.value] else shots) == copBullets + CopsTick(cops[..i + 1], p, walls, sqrt).1
  {
    assert cops[..i + 1][..i] == cops[..i];
    var done := CopsTick(cops[..i], p, walls, sqrt);
    var next := CopsTick(cops[..i + 1], p, walls, sqrt);
    assert cops[i..] == [cops[i]] + cops[i + 1..];
    assert cs == done.0 + [cops[i]] + cops[i + 1..];
    ReplaceAt(done.0, cops[i], c, cops[i + 1..]);
    assert next.0 == done.0 + [c];
    if shot.Some? {
      assert next.1 == done.1 + [shot.value];
    } else {
      assert next.1 == done.1 + [];
    }
  }

  /** The guard-bullet pass over `bs[..i + 1]` from `health`, followed by the
      bullets after `i`, equals the pass over `bs[..i]` from `health'`
      followed by `bs'[i..]`, and is fatal exactly when that pass is or
      bullet `i` was; `bs'` keeps the bullets before `i`. */
  ghost predicate VolleySplit(bs: seq<CopBullet>, i: nat, walls: seq<Rect>, box: Rect, health: int,
                              bs': seq<CopBullet>, health': int, killed: bool)
    requires i < |bs|
  {
    var pending := ResolveCopBullets(bs[..i + 1], walls, box, health);
    var rest := ResolveCopBullets(bs[..i], walls, box, health');
    && i <= |bs'| && bs'[..i] == bs[..i]
    && pending.survivors + bs[i + 1..] == rest.survivors + bs'[i..]
    && pending.health == rest.health
    && (pending.fatal <==> rest.fatal || killed)
  }

  /** Guard bullet `i` stops at a wall and is dropped. */
  lemma CopWallStep(bs: seq<CopBullet>, i: nat, walls: seq<Rect>, box: Rect, health: int)
    requires i < |bs| && HitsWall(AdvanceCop(bs[i]).Box(), walls)
    ensures VolleySplit(bs, i, walls, box, health, bs[..i] + bs[i + 1..], health, false)
  {
    assert bs[..i + 1][..i] == bs[..i];
    var bs' := bs[..i] + bs[i + 1..];
    assert bs'[..i] == bs[..i] && bs'[i..] == bs[i + 1..];
  }

  /** Guard bullet `i` reaches the player, who loses its damage; it is dropped. */
  lemma CopHitStep(bs: seq<CopBullet>, i: nat, walls: seq<Rect>, box: Rect, health: int)
    requires i < |bs| && !HitsWall(AdvanceCop(bs[i]).Box(), walls) && Collides(AdvanceCop(bs[i]).Box(), box)
    ensures var hurt := health - AdvanceCop(bs[i]).damage;
            VolleySplit(bs, i, walls, box, health, bs[..i] + bs[i + 1..], hurt, hurt <= 0)
  {
    assert bs[..i + 1][..i] == bs[..i];
    var bs' := bs[..i] + bs[i + 1..];
    assert bs'[..i] == bs[..i] && bs'[i..] == bs[i + 1..];
  }

  /** Guard bullet `i` hits nothing: it is kept, advanced, in its place. */
  lemma CopMissStep(bs: seq<CopBullet>, i: nat, walls: seq<Rect>, box: Rect, health: int)
    requires i < |bs| && !HitsWall(AdvanceCop(bs[i]).Box(), walls) && !Collides(AdvanceCop(bs[i]).Box(), box)
    ensures VolleySplit(bs, i, walls, box, health, bs[i := AdvanceCop(bs[i])], health, false)
  {
    assert bs[..i + 1][..i] == bs[..i];
    var b := AdvanceCop(bs[i]);
    var bs' := bs[i := b];
    var rest := ResolveCopBullets(bs[..i], walls, box, health);
    assert ResolveCopBullets(bs[..i + 1], walls, box, health) == rest.(survivors := rest.survivors + [b]);
    assert bs'[..i] == bs[..i] && bs'[i..] == [b] + bs[i + 1..];
    assert rest.survivors + [b] + bs[i + 1..] == rest.survivors + bs'[i..];
  }
}
