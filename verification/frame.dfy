/** The whole session state of game.js as one value, and each operation of
    the game as a function on it: the per-frame subsystems in `gameLoop`
    order, shooting, pausing, the timer and the key dispatch. The `Game`
    class in module Engine implements these in place. */
module Frame {
  import opened Geometry
  import opened Entities
  import opened Movement
  import opened Projectiles
  import opened GuardAI
  import opened Pickups
  import opened ItemPlacement

  /** The closure's `let` state. `tickerActive` stands for the one-second
      `setInterval` timer being installed; `freezeActive`/`freezeDuration`
      are the fields of `freezeEffect`. */
  datatype World = World(
    running: bool, paused: bool, won: bool, timer: int, tickerActive: bool, soundEnabled: bool,
    keys: set<string>, player: Player,
    bullets: seq<Bullet>, copBullets: seq<CopBullet>, cops: seq<Cop>,
    walls: seq<Rect>, powerups: seq<Item>, ammoPacks: seq<Item>, exit: Rect,
    freezeActive: bool, freezeDuration: int)

  // ---------------------------------------------------------------------
  // The invariant every reachable session keeps

  /** A guard's cooldown is within its bounds and its frozen flag is `f`. */
  ghost predicate CopOk(c: Cop, f: bool) {
    0 <= c.shootCooldown <= c.maxShootCooldown && c.frozen == f
  }

  ghost predicate CopsOk(cops: seq<Cop>, f: bool) {
    forall i :: 0 <= i < |cops| ==> CopOk(cops[i], f)
  }

  /** The frozen flag all guards share. */
  function FrozenFlag(cops: seq<Cop>): bool {
    |cops| > 0 && cops[0].frozen
  }

  ghost predicate Consistent(wd: World) {
    // the timer is installed exactly while the session runs unpaused
    && (wd.tickerActive <==> wd.running && !wd.paused)
    && (wd.paused ==> wd.running)
    && (wd.won ==> !wd.running)
    && wd.timer >= 0
    && wd.player.ammo >= 0
    && StockedItems(wd.powerups, wd.ammoPacks, wd.walls)
    && (forall i :: 0 <= i < |wd.copBullets| ==> wd.copBullets[i].damage >= 0)
    // guards freeze and thaw together, and only under a freeze effect
    && CopsOk(wd.cops, FrozenFlag(wd.cops))
    && (!wd.freezeActive ==> !FrozenFlag(wd.cops))
    && (wd.freezeActive ==> 1 <= wd.freezeDuration <= FREEZE_TICKS)
  }

  // ---------------------------------------------------------------------
  // Session control

  /** gameOver: the session stops and the timer is cleared. */
  function Stopped(wd: World): (r: World)
    ensures !r.running && !r.tickerActive
    ensures r == wd.(running := r.running, tickerActive := r.tickerActive)
  {
    wd.(running := false, tickerActive := false)
  }

  /** togglePause: flip `paused`; pausing clears the timer, resuming installs it. */
  function TogglePause(wd: World): (r: World)
    ensures r.paused == !wd.paused && r.tickerActive == !r.paused
    ensures r == wd.(paused := r.paused, tickerActive := r.tickerActive)
  {
    wd.(paused := !wd.paused, tickerActive := wd.paused)
  }

  /** The timer callback: one second more while running and not paused. */
  function TimerTick(wd: World): (r: World)
    ensures r.timer == wd.timer + (if wd.tickerActive && wd.running && !wd.paused then 1 else 0)
    ensures r == wd.(timer := r.timer)
  {
    if wd.tickerActive && wd.running && !wd.paused then wd.(timer := wd.timer + 1) else wd
  }

  /** The bullet `playerShoot` fires: centred on the player, 4 x 4, speed 8,
      damage 10, in the player's facing. */
  function MuzzleBullet(p: Player): (b: Bullet)
    ensures b.x + BULLET_SIZE / 2.0 == p.x + p.width / 2.0 && b.y + BULLET_SIZE / 2.0 == p.y + p.height / 2.0
    ensures b.width == BULLET_SIZE && b.height == BULLET_SIZE
    ensures b.speed == PLAYER_BULLET_SPEED && b.damage == BULLET_DAMAGE && b.direction == p.direction
  {
    Bullet(p.x + p.width / 2.0 - 2.0, p.y + p.height / 2.0 - 2.0, 4.0, 4.0, 8.0, p.direction, 10)
  }

  /** playerShoot: nothing without ammo; otherwise one round fewer and one
      bullet more. */
  function Shoot(wd: World): (r: World)
    ensures wd.player.ammo <= 0 ==> r == wd
    ensures wd.player.ammo > 0 ==>
              && r.player == wd.player.(ammo := wd.player.ammo - 1)
              && r.bullets == wd.bullets + [MuzzleBullet(wd.player)]
              && r == wd.(player := r.player, bullets := r.bullets)
  {
    if wd.player.ammo <= 0 then wd
    else wd.(player := wd.player.(ammo := wd.player.ammo - 1),
             bullets := wd.bullets + [MuzzleBullet(wd.player)])
  }

  /** ASCII lower-casing: what `toLowerCase` does to the keys it is compared
      with here. */
  function Lower(s: string): (r: string)
    ensures |r| == |s|
    ensures forall i :: 0 <= i < |s| ==> r[i] == (if 'A' <= s[i] <= 'Z' then (s[i] as int + 32) as char else s[i])
  {
    seq(|s|, i requires 0 <= i < |s| => if 'A' <= s[i] <= 'Z' then (s[i] as int + 32) as char else s[i])
  }

  /** `key.toLowerCase() === c` for a lower-case letter `c` holds exactly for
      `c` and its capital. */
  lemma LowerIs(key: string, c: char)
    requires 'a' <= c <= 'z'
    ensures Lower(key) == [c] <==> key == [c] || key == [(c as int - 32) as char]
  {
    if Lower(key) == [c] {
      assert |key| == 1;
      assert key == [key[0]];
    }
  }

  /** What a keydown does, by the handler's order of tests. */
  datatype KeyEffect = PauseToggle | Restart | NoEffect | Press

  function Classify(running: bool, paused: bool, key: string): (e: KeyEffect)
    // p toggles pause, and only while the session runs
    ensures (key == "p" || key == "P") ==> e == (if running then PauseToggle else NoEffect)
    // a stopped session reacts to r alone
    ensures !running ==> (e == Restart <==> key == "r" || key == "R")
    ensures !running ==> e != Press && e != PauseToggle
    // a paused session ignores everything but p
    ensures running && paused ==> (e == PauseToggle <==> key == "p" || key == "P") && e != Press
    ensures running && !paused ==> (e == Press <==> key != "p" && key != "P")
    ensures running ==> e != Restart
  {
    LowerIs(key, 'r');
    if key == "p" || key == "P" then (if running then PauseToggle else NoEffect)
    else if !running then (if Lower(key) == "r" then Restart else NoEffect)
    else if paused then NoEffect
    else Press
  }

  /** A key press in a running, unpaused session: the key is held, space
      shoots and m toggles sound. */
  function Pressed(wd: World, key: string): (r: World)
    ensures r.keys == wd.keys + {key}
    ensures r.soundEnabled == (wd.soundEnabled != (key == "m" || key == "M"))
  {
    LowerIs(key, 'm');
    // playerShoot does not read or write the held keys or the sound flag, so
    // the key can be recorded after the shot
    var fired := if key == " " then Shoot(wd) else wd;
    fired.(keys := wd.keys + {key}, soundEnabled := if Lower(key) == "m" then !wd.soundEnabled else wd.soundEnabled)
  }

  /** Space is the one key that shoots, m and M the keys that toggle the
      sound; every other key is only held. */
  lemma PressedEffect(wd: World, key: string)
    ensures var r := Pressed(wd, key);
            && (key == " " ==> r == Shoot(wd).(keys := r.keys))
            && (key == "m" || key == "M" ==> r == wd.(keys := r.keys, soundEnabled := !wd.soundEnabled))
            && (key != " " && key != "m" && key != "M" ==> r == wd.(keys := r.keys))
  {
  }

  /** keyup: the key is no longer held. */
  function Released(wd: World, key: string): (r: World)
    ensures r.keys == wd.keys - {key} && key !in r.keys
    ensures r == wd.(keys := r.keys)
  {
    wd.(keys := wd.keys - {key})
  }

  /** The session as declared before page load: sound on, a running
      session with no level yet, the player at (TILE, TILE) and no freeze. */
  function PageLoad(): World {
    World(true, false, false, 0, false, true, {},
          Player(TILE, TILE, TILE - 5.0, TILE - 5.0, 1.5, PLAYER_HEALTH, PLAYER_AMMO, Right),
          [], [], [], [], [], [], Rect(0.0, 0.0, 0.0, 0.0), false, 0)
  }

  /** initGame, once the map, guards and items are built: a fresh running
      session with the player back at (TILE, TILE). The freeze effect and the
      sound setting are carried over. */
  function Started(wd: World, walls: seq<Rect>, exit: Rect, cops: seq<Cop>,
                   powerups: seq<Item>, ammoPacks: seq<Item>): (r: World)
    ensures r.running && !r.paused && !r.won && r.tickerActive && r.timer == 0 && r.keys == {}
    ensures r.bullets == [] && r.copBullets == []
    ensures r.player == wd.player.(x := TILE, y := TILE, health := PLAYER_HEALTH, ammo := PLAYER_AMMO, direction := Right)
    ensures r.freezeActive == wd.freezeActive && r.freezeDuration == wd.freezeDuration
    ensures r.soundEnabled == wd.soundEnabled
  {
    World(true, false, false, 0, true, wd.soundEnabled, {},
          wd.player.(x := TILE, y := TILE, health := 100, ammo := 10, direction := Right),
          [], [], cops, walls, powerups, ammoPacks, exit, wd.freezeActive, wd.freezeDuration)
  }

  // ---------------------------------------------------------------------
  // The frame, subsystem by subsystem

  /** movePlayer: the player after the frame's move; nothing else changes. */
  function MoveStep(wd: World): (r: World)
    ensures r.player == PlayerAfterMove(wd.player, wd.keys, wd.walls)
    ensures r == wd.(player := r.player)
  {
    wd.(player := PlayerAfterMove(wd.player, wd.keys, wd.walls))
  }

  /** The player-bullet loop of moveBullets. */
  function ShotStep(wd: World): (r: World)
    ensures |r.bullets| <= |wd.bullets| && |r.cops| <= |wd.cops|
    ensures r == wd.(bullets := r.bullets, cops := r.cops)
  {
    var resolved := ResolvePlayerBullets(wd.bullets, wd.walls, wd.cops);
    wd.(bullets := resolved.0, cops := resolved.1)
  }

  /** The guard-bullet loop of moveBullets: hits lower the player's health
      and a fatal one ends the session. */
  function VolleyStep(wd: World): (r: World)
    ensures var v := ResolveCopBullets(wd.copBullets, wd.walls, wd.player.Box(), wd.player.health);
            (r.running <==> wd.running && !v.fatal) &&
            r.player == wd.player.(health := v.health) &&
            (r.tickerActive <==> wd.tickerActive && !v.fatal)
    ensures r == wd.(copBullets := r.copBullets, player := r.player, running := r.running, tickerActive := r.tickerActive)
  {
    var v := ResolveCopBullets(wd.copBullets, wd.walls, wd.player.Box(), wd.player.health);
    var after := wd.(copBullets := v.survivors, player := wd.player.(health := v.health));
    if v.fatal then Stopped(after) else after
  }

  /** moveBullets: both bullet passes; a fatal hit ends the session. */
  function BulletStep(wd: World): (r: World)
    ensures var v := ResolveCopBullets(wd.copBullets, wd.walls, wd.player.Box(), wd.player.health);
            (r.running <==> wd.running && !v.fatal) &&
            r.player == wd.player.(health := v.health) &&
            (r.tickerActive <==> wd.tickerActive && !v.fatal)
    ensures |r.bullets| <= |wd.bullets| && |r.cops| <= |wd.cops|
    ensures r == wd.(bullets := r.bullets, cops := r.cops, copBullets := r.copBullets, player := r.player,
                     running := r.running, tickerActive := r.tickerActive)
  {
    VolleyStep(ShotStep(wd))
  }

  /** moveCops: every guard takes its frame; shots are appended in guard order. */
  function GuardStep(wd: World, sqrt: real -> real): (r: World)
    ensures |r.cops| == |wd.cops| && |wd.copBullets| <= |r.copBullets| <= |wd.copBullets| + |wd.cops|
    ensures r.copBullets[..|wd.copBullets|] == wd.copBullets
    ensures r == wd.(cops := r.cops, copBullets := r.copBullets)
  {
    var ticked := CopsTick(wd.cops, wd.player, wd.walls, sqrt);
    wd.(cops := ticked.0, copBullets := wd.copBullets + ticked.1)
  }

  function SetFrozen(cops: seq<Cop>, f: bool): (r: seq<Cop>)
    ensures |r| == |cops| && forall i :: 0 <= i < |r| ==> r[i] == cops[i].(frozen := f)
  {
    seq(|cops|, i requires 0 <= i < |cops| => cops[i].(frozen := f))
  }

  /** The freeze-item loop of checkPickups: touched items are taken, and
      any touch starts a full-length freeze of every guard. */
  function FreezePickup(wd: World): (r: World)
    ensures AnyTouched(wd.powerups, wd.player.Box()) ==>
              r.freezeActive && r.freezeDuration == FREEZE_TICKS && r.cops == SetFrozen(wd.cops, true)
    ensures !AnyTouched(wd.powerups, wd.player.Box()) ==>
              r.freezeActive == wd.freezeActive && r.freezeDuration == wd.freezeDuration && r.cops == wd.cops
    ensures r == wd.(powerups := Untouched(wd.powerups, wd.player.Box()), freezeActive := r.freezeActive,
                     freezeDuration := r.freezeDuration, cops := r.cops)
  {
    var box := wd.player.Box();
    var taken := wd.(powerups := Untouched(wd.powerups, box));
    if AnyTouched(wd.powerups, box)
    then taken.(freezeActive := true, freezeDuration := 120, cops := SetFrozen(wd.cops, true))
    else taken
  }

  /** The ammo-pack loop of checkPickups: touched packs are taken and their
      rounds added. */
  function AmmoPickup(wd: World): (r: World)
    ensures r.player.ammo == wd.player.ammo + AmmoGained(wd.ammoPacks, wd.player.Box())
    ensures r == wd.(ammoPacks := Untouched(wd.ammoPacks, wd.player.Box()), player := r.player)
    ensures r.player == wd.player.(ammo := r.player.ammo)
  {
    var box := wd.player.Box();
    wd.(ammoPacks := Untouched(wd.ammoPacks, box),
        player := wd.player.(ammo := wd.player.ammo + AmmoGained(wd.ammoPacks, box)))
  }

  /** The exit test of checkPickups: reaching the exit wins and stops. */
  function ExitCheck(wd: World): (r: World)
    ensures Collides(wd.player.Box(), wd.exit) ==> r == Stopped(wd.(won := true))
    ensures !Collides(wd.player.Box(), wd.exit) ==> r == wd
  {
    if Collides(wd.player.Box(), wd.exit) then Stopped(wd.(won := true)) else wd
  }

  /** checkPickups: freeze items, then ammo packs, then the exit. */
  function PickupStep(wd: World): (r: World)
    // a freeze item starts a full-length freeze of every guard
    ensures AnyTouched(wd.powerups, wd.player.Box()) ==>
              r.freezeActive && r.freezeDuration == FREEZE_TICKS && forall i :: 0 <= i < |r.cops| ==> r.cops[i].frozen
    ensures !AnyTouched(wd.powerups, wd.player.Box()) ==>
              r.freezeActive == wd.freezeActive && r.freezeDuration == wd.freezeDuration && r.cops == wd.cops
    // every touched item is gone, the rest stay
    ensures forall it :: it in r.powerups <==> it in wd.powerups && !Touches(wd.player.Box(), it)
    ensures forall it :: it in r.ammoPacks <==> it in wd.ammoPacks && !Touches(wd.player.Box(), it)
    ensures r.player == wd.player.(ammo := wd.player.ammo + AmmoGained(wd.ammoPacks, wd.player.Box()))
    // reaching the exit wins and stops the session in the same frame
    ensures r.won <==> wd.won || Collides(wd.player.Box(), wd.exit)
    ensures Collides(wd.player.Box(), wd.exit) ==> !r.running && !r.tickerActive
    ensures !Collides(wd.player.Box(), wd.exit) ==> r.running == wd.running && r.tickerActive == wd.tickerActive
    ensures |r.cops| == |wd.cops|
  {
    var box := wd.player.Box();
    forall it ensures it in Untouched(wd.powerups, box) <==> it in wd.powerups && !Touches(box, it) {
      UntouchedMembers(wd.powerups, box, it);
    }
    forall it ensures it in Untouched(wd.ammoPacks, box) <==> it in wd.ammoPacks && !Touches(box, it) {
      UntouchedMembers(wd.ammoPacks, box, it);
    }
    ExitCheck(AmmoPickup(FreezePickup(wd)))
  }

  /** updateFreezeEffect: one tick of the freeze; at zero it ends and every
      guard thaws. */
  function FreezeStep(wd: World): (r: World)
    ensures r.freezeActive <==> wd.freezeActive && wd.freezeDuration > 1
    ensures wd.freezeActive ==> r.freezeDuration == wd.freezeDuration - 1
    ensures wd.freezeActive && !r.freezeActive ==> forall i :: 0 <= i < |r.cops| ==> !r.cops[i].frozen
    ensures r.freezeActive || !wd.freezeActive ==> r.cops == wd.cops
    ensures r == wd.(freezeActive := r.freezeActive, freezeDuration := r.freezeDuration, cops := r.cops)
    ensures |r.cops| == |wd.cops|
  {
    if !wd.freezeActive then wd
    else if wd.freezeDuration - 1 <= 0 then
      wd.(freezeActive := false, freezeDuration := wd.freezeDuration - 1, cops := SetFrozen(wd.cops, false))
    else wd.(freezeDuration := wd.freezeDuration - 1)
  }

  /** gameLoop's update: the five subsystems in order, only while running
      and not paused. */
  function FrameStep(wd: World, sqrt: real -> real): (r: World)
    ensures !(wd.running && !wd.paused) ==> r == wd
  {
    if wd.running && !wd.paused
    then FreezeStep(PickupStep(GuardStep(BulletStep(MoveStep(wd)), sqrt)))
    else wd
  }

  // ---------------------------------------------------------------------
  // Guards keep their invariant through every step

  lemma CopsOkFlag(cops: seq<Cop>, f: bool)
    requires CopsOk(cops, f)
    ensures CopsOk(cops, FrozenFlag(cops))
    ensures FrozenFlag(cops) ==> f
  {
  }

  lemma {:induction false} ResolveKeepsCops(bs: seq<Bullet>, walls: seq<Rect>, cops: seq<Cop>, f: bool)
    requires CopsOk(cops, f)
    ensures CopsOk(ResolvePlayerBullets(bs, walls, cops).1, f)
    decreases |bs|
  {
    if |bs| > 0 {
      var b := Advance(bs[|bs| - 1]);
      var earlier := bs[..|bs| - 1];
      match PlayerBulletImpact(b.Box(), walls, cops)
      case WallHit => ResolveKeepsCops(earlier, walls, cops, f);
      case Miss => ResolveKeepsCops(earlier, walls, cops, f);
      case CopHit(j) =>
        var hurt := DamageCop(cops, j, b.damage);
        assert CopsOk(hurt, f) by {
          forall k | 0 <= k < |hurt| ensures CopOk(hurt[k], f) {
            if k < j {
            } else if cops[j].health - b.damage <= 0 {
              assert hurt[k] == cops[k + 1];
            }
          }
        }
        ResolveKeepsCops(earlier, walls, hurt, f);
    }
  }

  lemma TickKeepsCops(cops: seq<Cop>, p: Player, walls: seq<Rect>, sqrt: real -> real, f: bool)
    requires CopsOk(cops, f)
    ensures CopsOk(CopsTick(cops, p, walls, sqrt).0, f)
  {
    var r := CopsTick(cops, p, walls, sqrt).0;
    CopsTickPointwise(cops, p, walls, sqrt);
    forall i | 0 <= i < |r| ensures CopOk(r[i], f) {
      CooldownBounds(cops[i], p, walls, sqrt);
    }
  }

  /** Every surviving guard bullet has the damage it was fired with. */
  lemma {:induction false} SurvivorsKeepDamage(bs: seq<CopBullet>, walls: seq<Rect>, box: Rect, health: int)
    requires DamagesNonNegative(bs)
    ensures DamagesNonNegative(ResolveCopBullets(bs, walls, box, health).survivors)
    decreases |bs|
  {
    if |bs| > 0 {
      var b := AdvanceCop(bs[|bs| - 1]);
      var earlier := bs[..|bs| - 1];
      assert DamagesNonNegative(earlier);
      if HitsWall(b.Box(), walls) {
        SurvivorsKeepDamage(earlier, walls, box, health);
      } else if Collides(b.Box(), box) {
        SurvivorsKeepDamage(earlier, walls, box, health - b.damage);
      } else {
        SurvivorsKeepDamage(earlier, walls, box, health);
      }
    }
  }

  // ---------------------------------------------------------------------
  // Each step keeps the invariant

  lemma MoveStepConsistent(wd: World)
    requires Consistent(wd)
    ensures Consistent(MoveStep(wd))
  {
  }

  lemma BulletStepConsistent(wd: World)
    requires Consistent(wd) && !wd.paused
    ensures Consistent(BulletStep(wd)) && !BulletStep(wd).paused
  {
    var r := BulletStep(wd);
    ResolveKeepsCops(wd.bullets, wd.walls, wd.cops, FrozenFlag(wd.cops));
    CopsOkFlag(r.cops, FrozenFlag(wd.cops));
    SurvivorsKeepDamage(wd.copBullets, wd.walls, wd.player.Box(), wd.player.health);
  }

  lemma GuardStepConsistent(wd: World, sqrt: real -> real)
    requires Consistent(wd) && !wd.paused
    ensures Consistent(GuardStep(wd, sqrt)) && !GuardStep(wd, sqrt).paused
  {
    var r := GuardStep(wd, sqrt);
    var ticked := CopsTick(wd.cops, wd.player, wd.walls, sqrt);
    TickKeepsCops(wd.cops, wd.player, wd.walls, sqrt, FrozenFlag(wd.cops));
    CopsOkFlag(r.cops, FrozenFlag(wd.cops));
    forall i | 0 <= i < |r.copBullets| ensures r.copBullets[i].damage >= 0 {
      if i >= |wd.copBullets| {
        assert r.copBullets[i] == ticked.1[i - |wd.copBullets|];
      }
    }
  }

  lemma PickupStepConsistent(wd: World)
    requires Consistent(wd) && !wd.paused
    ensures Consistent(PickupStep(wd)) && !PickupStep(wd).paused
  {
    var box := wd.player.Box();
    var r := PickupStep(wd);
    AmmoGainedNonNegative(wd.ammoPacks, box);
    if AnyTouched(wd.powerups, box) {
      assert CopsOk(r.cops, true);
      CopsOkFlag(r.cops, true);
    }
  }

  lemma FreezeStepConsistent(wd: World)
    requires Consistent(wd) && !wd.paused
    ensures Consistent(FreezeStep(wd)) && !FreezeStep(wd).paused
  {
    var r := FreezeStep(wd);
    if wd.freezeActive && !r.freezeActive {
      assert CopsOk(r.cops, false);
    }
  }

  /** The frame keeps the session invariant. */
  lemma FrameStepConsistent(wd: World, sqrt: real -> real)
    requires Consistent(wd)
    ensures Consistent(FrameStep(wd, sqrt))
  {
    if wd.running && !wd.paused {
      var w1 := MoveStep(wd);
      MoveStepConsistent(wd);
      var w2 := BulletStep(w1);
      BulletStepConsistent(w1);
      var w3 := GuardStep(w2, sqrt);
      GuardStepConsistent(w2, sqrt);
      var w4 := PickupStep(w3);
      PickupStepConsistent(w3);
      FreezeStepConsistent(w4);
    }
  }

  // ---------------------------------------------------------------------
  // What a frame promises

  /** A frame never adds guards, never adds player bullets, never restocks
      less than nothing and never heals. */
  lemma FrameMonotone(wd: World, sqrt: real -> real)
    requires Consistent(wd)
    ensures |FrameStep(wd, sqrt).cops| <= |wd.cops|
    ensures |FrameStep(wd, sqrt).bullets| <= |wd.bullets|
    ensures FrameStep(wd, sqrt).player.ammo >= wd.player.ammo
    ensures FrameStep(wd, sqrt).player.health <= wd.player.health
    ensures FrameStep(wd, sqrt).timer == wd.timer
  {
    if wd.running && !wd.paused {
      var w1 := MoveStep(wd);
      var w2 := BulletStep(w1);
      var w3 := GuardStep(w2, sqrt);
      HealthAfterVolley(w1.copBullets, w1.walls, w1.player.Box(), w1.player.health);
      DamageTakenFacts(w1.copBullets, w1.walls, w1.player.Box());
      BulletStepConsistent(w1);
      GuardStepConsistent(w2, sqrt);
      AmmoGainedNonNegative(w3.ammoPacks, w3.player.Box());
    }
  }

  /** The session is lost in the bullet pass exactly when a guard bullet
      reaches the player and the health ends at 0 or below. */
  lemma BulletStepLoss(wd: World)
    requires Consistent(wd) && wd.running
    ensures var box := wd.player.Box();
            !BulletStep(wd).running <==>
              AnyHit(wd.copBullets, wd.walls, box) && BulletStep(wd).player.health <= 0
  {
    FatalIffHealthExhausted(wd.copBullets, wd.walls, wd.player.Box(), wd.player.health);
  }

  /** A frame that ends in a win had the moved player on the exit tile. */
  lemma WinNeedsExit(wd: World, sqrt: real -> real)
    requires !wd.won && FrameStep(wd, sqrt).won
    ensures wd.running && !wd.paused
    ensures Collides(PlayerAfterMove(wd.player, wd.keys, wd.walls).Box(), wd.exit)
  {
    var w3 := GuardStep(BulletStep(MoveStep(wd)), sqrt);
    assert w3.player.Box() == PlayerAfterMove(wd.player, wd.keys, wd.walls).Box();
  }

  /** The pickup pass runs even after a fatal hit in the same frame, so a
      player killed on the frame they reach the exit is still reported as
      escaped. */
  lemma DeathOnExitStillWins(wd: World, sqrt: real -> real)
    requires wd.running && !wd.paused && !wd.won
    requires ResolveCopBullets(MoveStep(wd).copBullets, wd.walls, MoveStep(wd).player.Box(), wd.player.health).fatal
    requires Collides(PlayerAfterMove(wd.player, wd.keys, wd.walls).Box(), wd.exit)
    ensures FrameStep(wd, sqrt).won && !FrameStep(wd, sqrt).running
    ensures FrameStep(wd, sqrt).player.health <= 0 || !DamagesNonNegative(wd.copBullets)
  {
    var w1 := MoveStep(wd);
    var w2 := BulletStep(w1);
    var w3 := GuardStep(w2, sqrt);
    assert w3.player.Box() == w1.player.Box();
    if DamagesNonNegative(wd.copBullets) {
      FatalIffHealthExhausted(w1.copBullets, w1.walls, w1.player.Box(), w1.player.health);
    }
  }

  /** While every guard is frozen the guard pass moves nobody and fires nothing. */
  lemma FrozenFrameFiresNothing(wd: World, sqrt: real -> real)
    requires forall i :: 0 <= i < |wd.cops| ==> wd.cops[i].frozen
    ensures GuardStep(wd, sqrt) == wd
  {
    FrozenGuardsIdle(wd.cops, wd.player, wd.walls, sqrt);
    assert wd.copBullets + [] == wd.copBullets;
  }

  /** A freeze picked up on a frame lasts `FREEZE_TICKS` frames: the same
      frame's countdown leaves `FREEZE_TICKS - 1` to go. */
  lemma FreezeFromPickup(wd: World, sqrt: real -> real)
    requires wd.running && !wd.paused
    requires AnyTouched(GuardStep(BulletStep(MoveStep(wd)), sqrt).powerups,
                        GuardStep(BulletStep(MoveStep(wd)), sqrt).player.Box())
    ensures FrameStep(wd, sqrt).freezeActive && FrameStep(wd, sqrt).freezeDuration == FREEZE_TICKS - 1
    ensures forall i :: 0 <= i < |FrameStep(wd, sqrt).cops| ==> FrameStep(wd, sqrt).cops[i].frozen
  {
  }

  /** Pausing twice restores the session. */
  lemma PauseRoundTrip(wd: World)
    requires Consistent(wd) && wd.running
    ensures TogglePause(TogglePause(wd)) == wd
    ensures Consistent(TogglePause(wd))
  {
  }

  /** Shooting keeps the invariant and conserves rounds: ammo plus bullets
      fired is unchanged. */
  lemma ShootConsistent(wd: World)
    requires Consistent(wd)
    ensures Consistent(Shoot(wd))
    ensures Shoot(wd).player.ammo + |Shoot(wd).bullets| == wd.player.ammo + |wd.bullets|
  {
  }

  lemma KeyConsistent(wd: World, key: string)
    requires Consistent(wd)
    ensures Consistent(TimerTick(wd)) && Consistent(Released(wd, key))
    ensures wd.running && !wd.paused ==> Consistent(Pressed(wd, key))
    ensures wd.running ==> Consistent(TogglePause(wd))
  {
  }

  lemma StoppedConsistent(wd: World)
    requires Consistent(wd) && !wd.paused
    ensures Consistent(Stopped(wd))
  {
  }

  /** A started session is consistent once its guards are freshly spawned
      and its items well placed. */
  lemma StartedConsistent(wd: World, walls: seq<Rect>, exit: Rect, cops: seq<Cop>,
                          powerups: seq<Item>, ammoPacks: seq<Item>)
    requires wd.freezeActive ==> 1 <= wd.freezeDuration <= FREEZE_TICKS
    requires forall i :: 0 <= i < |cops| ==> 0 <= cops[i].shootCooldown <= cops[i].maxShootCooldown && !cops[i].frozen
    requires StockedItems(powerups, ammoPacks, walls)
    ensures Consistent(Started(wd, walls, exit, cops, powerups, ammoPacks))
  {
    assert CopsOk(cops, false);
  }
}
