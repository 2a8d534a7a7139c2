# Prison Escape: the simulation core in Dafny

Prison Escape is a top-down browser game. The player starts in the top-left
cell of a walled prison grid and must reach the exit tile near the
bottom-right corner. Ten guards patrol between two points. A guard chases
the player once the player is within its detection range, and fires at the
player within 70% of that range when its cooldown has run out. The player
moves with WASD or the arrow keys and shoots with space. Ammo packs restock
rounds. A freeze item stops every guard for the next 119 frames. The player loses
when a guard bullet brings their health to 0, and wins on reaching the exit.

All of the game lives in `Prison-Escape-Game/static/game.js`: one closure
whose `let` variables are the session state, and whose functions update
that state in place once per animation frame (`gameLoop`), from the key
handlers and from a one-second timer. This project models that core.

Module layout:

- `Geometry` (geometry.dfy): rectangles, the strict overlap test
  `collides`, and the two wall-scan loops of the source.
- `Entities` (entities.dfy): the constants and the value types (player,
  guard, both bullet kinds, items).
- `MapBuilder` (map_builder.dfy): `createMap`. It is the push loops as
  methods, proved equal to a recursive definition of the wall list.
- `GuardFactory` (guard_factory.dfy): `createCops` and its ten-row table.
- `ItemPlacement` (item_placement.dfy): `placeRandomItem` and
  `createPowerups`. This is rejection sampling over a supplied sequence of
  random draws.
- `Movement` (movement.dfy): `movePlayer`, with its per-axis wall check.
- `Projectiles` (projectiles.dfy): the two loops of `moveBullets`, as
  functions on values.
- `GuardAI` (guard_ai.dfy): one guard's frame of `moveCops` (cooldown,
  detection, firing, chase, patrol, target swap). It is written both as a
  function and as the source's imperative method.
- `Pickups` (pickups.dfy): what the `checkPickups` loops take and leave.
- `Frame` (frame.dfy): the whole session as one value `World`, each
  operation as a function on it, and the session invariant `Consistent`.
  Every frame stage, key and timer event keeps that invariant.
- `Engine` (engine.dfy): class `Game`. It has one field per `let` of the
  closure, and one method per function of the source, updating the fields
  in place. Each method is proved to leave exactly the state the matching
  `Frame` function describes. The frame method `Tick` and the key handlers
  keep `Valid()`.

## Model

| member | source | states |
|---|---|---|
| Geometry.CollidesSymmetric | Prison-Escape-Game/static/game.js:91-98 | the overlap test gives the same answer with its arguments swapped |
| Geometry.TouchingEdgesDoNotCollide | Prison-Escape-Game/static/game.js:91-98 | all four comparisons are strict, so boxes that only share an edge do not collide |
| Geometry.SelfCollides | Prison-Escape-Game/static/game.js:91-98 | a box of positive size collides with itself |
| Geometry.CollidesIffCommonInterior | Prison-Escape-Game/static/game.js:91-98 | for boxes of positive size, the four comparisons hold exactly when some point lies in the open interior of both |
| Geometry.FirstWallHit | Prison-Escape-Game/static/game.js:203-209 | the early-exit wall loop reports a hit exactly when some wall overlaps the box |
| Geometry.ScanWalls | Prison-Escape-Game/static/game.js:276-284 | the single pass over the walls sets each axis flag exactly when some wall overlaps that axis probe |
| MapBuilder.CreateMap | Prison-Escape-Game/static/game.js:100-152 | the walls are exactly the recursively defined layout, in push order, and the exit is the tile one in from the bottom-right corner |
| MapBuilder.PushBorder | Prison-Escape-Game/static/game.js:103-112 | the two border loops push the top and bottom rows, then the left and right columns |
| MapBuilder.PushInnerRows | Prison-Escape-Game/static/game.js:115-126 | the inner-row loop appends rows 2, 6 and 10 column by column, skipping the gap columns |
| MapBuilder.PushInnerCols | Prison-Escape-Game/static/game.js:128-138 | the inner-column loop appends columns 4, 9 and 14 row by row, skipping the gap rows |
| MapBuilder.TileCollides | Prison-Escape-Game/static/game.js:91-98 | two grid cells collide exactly when they are the same cell |
| MapBuilder.MapWallsAreTiles | Prison-Escape-Game/static/game.js:100-152 | every wall is one whole TILE x TILE grid cell |
| MapBuilder.ExitAndBlockers | Prison-Escape-Game/static/game.js:141-151 | the exit is at ((w-2)·TILE, (h-2)·TILE), inside the border, and the last two walls sit left of it and diagonally above-left of it |
| MapBuilder.ExitOverlapsNoWall | Prison-Escape-Game/static/game.js:100-152 | on any grid of at least 3 x 3 tiles no wall overlaps the exit |
| MapBuilder.CornerPushedTwice | Prison-Escape-Game/static/game.js:103-112 | the top-left corner tile is pushed by both border loops, so the wall list holds it twice |
| GuardFactory.CopTable | Prison-Escape-Game/static/game.js:159-170 | the table has ten rows, each with positive cooldown, health and detection range |
| GuardFactory.CreateCops | Prison-Escape-Game/static/game.js:155-192 | ten guards in table order, each spawned from its row, patrolling toward point 2, unfrozen, with cooldown 0 below its maximum |
| ItemPlacement.PickInRange | Prison-Escape-Game/static/game.js:199-200 | a draw in [0, 1) picks a cell index between 1 and n-2, never the border |
| ItemPlacement.CandidateOnGrid | Prison-Escape-Game/static/game.js:199-200 | every candidate position is the corner of an inner grid cell |
| ItemPlacement.PlaceRandomItem | Prison-Escape-Game/static/game.js:194-223 | each rejected attempt overlapped a wall; the accepted one overlaps none and is appended as a freeze item or an ammo pack; running out of draws gives no item |
| ItemPlacement.PlacedOnFloor | Prison-Escape-Game/static/game.js:198-210 | the accepted candidate lies on an inner floor tile and overlaps no wall |
| ItemPlacement.CreatePowerups | Prison-Escape-Game/static/game.js:225-236 | three freeze items and then five ammo packs of 5, each ITEM_SIZE wide, on the floor and clear of every wall |
| Movement.Facing | Prison-Escape-Game/static/game.js:242-257 | keys are checked in the order up, down, left, right, and the last one held wins; with none held the facing is unchanged |
| Movement.PlayerAfterMove | Prison-Escape-Game/static/game.js:238-288 | each axis takes its intended value exactly when the box moved along that axis alone overlaps no wall; health, ammo, size and speed are unchanged |
| Movement.StraightMoveStaysClear | Prison-Escape-Game/static/game.js:259-287 | a move along one axis never takes a player who is clear of the walls into a wall |
| Movement.SlidesAlongWall | Prison-Escape-Game/static/game.js:259-287 | on a diagonal move blocked only along x, the player keeps its x and still moves along y |
| Movement.DiagonalMoveCanClipCorner | Prison-Escape-Game/static/game.js:259-287 | the per-axis check does not test the diagonal box: a player next to a wall corner, moving right and down, ends overlapping it |
| Projectiles.Advance | Prison-Escape-Game/static/game.js:312-317 | a player bullet moves by its speed along its facing axis only |
| Projectiles.LastHitCop | Prison-Escape-Game/static/game.js:329-338 | returns the highest index of a guard the box overlaps, or none exactly when it overlaps no guard |
| Projectiles.FindLastHitCop | Prison-Escape-Game/static/game.js:329-338 | the downward guard loop finds that same guard |
| Projectiles.PlayerBulletImpact | Prison-Escape-Game/static/game.js:319-338 | a wall hit exactly when a wall overlaps; otherwise the last guard overlapped; a miss exactly when neither |
| Projectiles.DamageCop | Prison-Escape-Game/static/game.js:331-336 | the hit guard loses the damage and is removed, keeping the order of the others, exactly when its health reaches 0 or below |
| Projectiles.ResolvePlayerBullets | Prison-Escape-Game/static/game.js:309-339 | the pass never adds bullets or guards |
| Projectiles.SurvivorsAreClear | Prison-Escape-Game/static/game.js:319-327 | every bullet left in flight overlaps no wall |
| Projectiles.SurvivorCount | Prison-Escape-Game/static/game.js:309-339 | a bullet that hits nothing stays in flight, advanced, and leaves the guards alone; a bullet that hits a wall or a guard is removed |
| Projectiles.LethalShot | Prison-Escape-Game/static/game.js:329-336 | one 10-damage bullet reaching the only guard, which has health 10, removes both |
| Projectiles.AdvanceCop | Prison-Escape-Game/static/game.js:344-345 | a guard bullet moves by its direction vector times its speed, and nothing else changes |
| Projectiles.ResolveCopBullets | Prison-Escape-Game/static/game.js:341-363 | the guard-bullet pass never adds bullets |
| Projectiles.DamageTakenFacts | Prison-Escape-Game/static/game.js:357-358 | with non-negative damage, the damage taken is non-negative, and 0 when no bullet reaches the player |
| Projectiles.HealthAfterVolley | Prison-Escape-Game/static/game.js:341-363 | the player loses exactly the summed damage of every guard bullet that reaches them without hitting a wall |
| Projectiles.FatalIffHealthExhausted | Prison-Escape-Game/static/game.js:357-361 | the pass calls gameOver exactly when some bullet reaches the player and the health ends at 0 or below |
| GuardAI.Heading | Prison-Escape-Game/static/game.js:435-439 | a guard faces right exactly when the x component dominates and is positive, left exactly when it dominates and is not, down exactly when y is at least as large and positive, up otherwise |
| GuardAI.StepBy | Prison-Escape-Game/static/game.js:402-433 | each axis takes its step exactly when the box moved along that axis alone overlaps no wall; the facing follows the direction |
| GuardAI.AimedShot | Prison-Escape-Game/static/game.js:380-392 | the shot starts at the guard's centre less half the bullet size, is 4 x 4, has speed 6 and damage 10, and its direction times the centre-to-centre length is the vector from the guard's centre to the player's |
| GuardAI.CopTick | Prison-Escape-Game/static/game.js:366-499 | a frozen guard does nothing; otherwise it chases exactly when the player is within range, fires exactly when within 70% of range with the cooldown at 0 (resetting it), patrols and swaps its target within 5 of it, and changes nothing else; the lemma CopTickMoves beside it states the step it takes |
| GuardAI.CopTickMoves | Prison-Escape-Game/static/game.js:397-496 | a chasing guard takes a step of its speed along the unit vector to the player; a patrolling guard takes a step of half its speed toward the target it had before any swap; at distance 0 it neither moves nor turns |
| GuardAI.RangeBySquares | Prison-Escape-Game/static/game.js:373-380 | when the supplied square root is exact, detection and firing range are comparisons of squared distances |
| GuardAI.FiringImpliesChase | Prison-Escape-Game/static/game.js:377-395 | firing range lies inside detection range, so a guard that fires is chasing |
| GuardAI.CooldownBounds | Prison-Escape-Game/static/game.js:369-394 | the cooldown stays within [0, maxShootCooldown] from frame to frame |
| GuardAI.NoDoubleShot | Prison-Escape-Game/static/game.js:371-394 | a guard that fires cannot fire again on the next frame |
| GuardAI.GuardMovesOnlyWhenClear | Prison-Escape-Game/static/game.js:402-489 | a guard moves along an axis only when not frozen and onto a position whose single-axis probe overlaps no wall |
| GuardAI.CopsTick | Prison-Escape-Game/static/game.js:366-499 | the guard pass keeps the number of guards and fires no more shots than there are guards, each of damage 10 and speed 6 |
| GuardAI.CopsTickPointwise | Prison-Escape-Game/static/game.js:366-499 | guards do not interact within a frame: each guard after the pass is its own one-guard frame |
| GuardAI.Fired | Prison-Escape-Game/static/game.js:391 | the bullets pushed are at most the guards' shot slots |
| GuardAI.FiredMembers | Prison-Escape-Game/static/game.js:391 | a bullet is pushed exactly when some guard's frame produced it |
| GuardAI.CopsTickShots | Prison-Escape-Game/static/game.js:366-499 | the pass's new bullets are exactly each guard's CopTick shot, in guard order |
| GuardAI.ShotsOnlyWhenFiring | Prison-Escape-Game/static/game.js:377-392 | a bullet is new exactly when some unfrozen guard in detection and firing range fires it, aimed from that guard |
| GuardAI.FrozenGuardsIdle | Prison-Escape-Game/static/game.js:367-369 | when every guard is frozen the pass changes no guard and fires nothing |
| GuardAI.UpdateCop | Prison-Escape-Game/static/game.js:366-499 | the imperative guard frame, with its mutations in source order, yields exactly CopTick |
| GuardAI.MoveAlong | Prison-Escape-Game/static/game.js:397-440 | the shared movement block steps by direction times speed |
| GuardAI.MoveBy | Prison-Escape-Game/static/game.js:402-439 | one wall scan for both probes plus the facing rule yields exactly StepBy |
| Pickups.Untouched | Prison-Escape-Game/static/game.js:502-520 | the items left are items that were there and that the player does not touch |
| Pickups.UntouchedMembers | Prison-Escape-Game/static/game.js:502-520 | an item is kept exactly when it was there and is not touched |
| Pickups.UntouchedCount | Prison-Escape-Game/static/game.js:502-520 | items left plus items taken equals items there were; some item is taken exactly when the count taken is positive |
| Pickups.UntouchedIdentity | Prison-Escape-Game/static/game.js:502-520 | nothing is taken when nothing is touched |
| Pickups.AmmoGainedNonNegative | Prison-Escape-Game/static/game.js:514-520 | packs of non-negative size never lower the ammo |
| Pickups.AmmoGainedUniform | Prison-Escape-Game/static/game.js:514-520 | touching k packs of the same size restocks k times that size |
| Frame.Stopped | Prison-Escape-Game/static/game.js:558-563 | gameOver stops the session and clears the timer, and changes nothing else |
| Frame.TogglePause | Prison-Escape-Game/static/game.js:542-555 | pause flips, the timer is cleared on pausing and installed on resuming, and nothing else changes |
| Frame.TimerTick | Prison-Escape-Game/static/game.js:701-703 | the timer callback adds one second exactly while the timer is installed and the session runs unpaused |
| Frame.MuzzleBullet | Prison-Escape-Game/static/game.js:295-301 | the bullet is centred on the player, 4 x 4, speed 8, damage 10, in the player's facing |
| Frame.Shoot | Prison-Escape-Game/static/game.js:290-306 | without ammo nothing happens; otherwise one round fewer and the muzzle bullet appended |
| Frame.Lower | Prison-Escape-Game/static/game.js:717 | lower-casing maps A-Z to a-z and keeps every other character |
| Frame.LowerIs | Prison-Escape-Game/static/game.js:729 | a key lower-cases to a letter exactly when it is that letter or its capital |
| Frame.Classify | Prison-Escape-Game/static/game.js:710-721 | p toggles pause only while running; a stopped session reacts to r alone; a paused one ignores all but p; otherwise the key is pressed |
| Frame.Pressed | Prison-Escape-Game/static/game.js:723-736 | the key becomes held, and the sound flag flips exactly for m or M |
| Frame.PressedEffect | Prison-Escape-Game/static/game.js:723-736 | space shoots, m and M toggle the sound, every other key is only held |
| Frame.Released | Prison-Escape-Game/static/game.js:739-741 | keyup removes the key from the held set and changes nothing else |
| Frame.Started | Prison-Escape-Game/static/game.js:680-703 | initGame runs from time 0 with no keys or bullets, resets the player's position, health, ammo and facing, and keeps the freeze state and the sound flag |
| Frame.MoveStep | Prison-Escape-Game/static/game.js:238-288 | the player becomes PlayerAfterMove of the held keys and walls; nothing else changes |
| Frame.ShotStep | Prison-Escape-Game/static/game.js:309-339 | the player-bullet pass never adds bullets or guards, and changes only the bullets and the guards |
| Frame.VolleyStep | Prison-Escape-Game/static/game.js:341-363 | the session and its timer keep running exactly when no guard bullet is fatal; the player's health becomes the pass's health and nothing else of the player changes; only the guard bullets, the player, running and the timer flag change |
| Frame.BulletStep | Prison-Escape-Game/static/game.js:308-364 | both passes: the session and its timer stop exactly on a fatal hit, the player's health becomes the guard-bullet pass's health, bullets and guards never increase, and nothing outside the bullets, guards, player, running and the timer flag changes |
| Frame.GuardStep | Prison-Escape-Game/static/game.js:366-499 | guards keep their number; new guard bullets are appended after the old ones, no more of them than there are guards, and nothing else changes |
| Frame.SetFrozen | Prison-Escape-Game/static/game.js:508 | every guard gets the frozen flag, nothing else changes |
| Frame.FreezePickup | Prison-Escape-Game/static/game.js:502-512 | touched freeze items are removed, and any touch starts a 120-frame freeze of every guard |
| Frame.AmmoPickup | Prison-Escape-Game/static/game.js:514-520 | touched packs are removed and their rounds added to the ammo |
| Frame.ExitCheck | Prison-Escape-Game/static/game.js:522-528 | touching the exit wins and stops the session; otherwise nothing changes |
| Frame.PickupStep | Prison-Escape-Game/static/game.js:501-529 | a freeze item starts a full-length freeze of every guard; exactly the untouched items stay; ammo grows by the packs taken; reaching the exit wins and stops in the same frame |
| Frame.FreezeStep | Prison-Escape-Game/static/game.js:531-540 | an active freeze counts down and ends at 0, thawing every guard; otherwise nothing changes |
| Frame.FrameStep | Prison-Escape-Game/static/game.js:666-677 | a stopped or paused session does not change |
| Frame.ResolveKeepsCops | Prison-Escape-Game/static/game.js:329-336 | bullet hits keep every guard's cooldown bounds and frozen flag |
| Frame.TickKeepsCops | Prison-Escape-Game/static/game.js:366-499 | the guard pass keeps every guard's cooldown bounds and frozen flag |
| Frame.SurvivorsKeepDamage | Prison-Escape-Game/static/game.js:341-363 | the guard bullets left in flight keep non-negative damage |
| Frame.MoveStepConsistent | Prison-Escape-Game/static/game.js:238-288 | movePlayer keeps the session invariant |
| Frame.BulletStepConsistent | Prison-Escape-Game/static/game.js:308-364 | moveBullets keeps the session invariant |
| Frame.GuardStepConsistent | Prison-Escape-Game/static/game.js:366-499 | moveCops keeps the session invariant |
| Frame.PickupStepConsistent | Prison-Escape-Game/static/game.js:501-529 | checkPickups keeps the session invariant |
| Frame.FreezeStepConsistent | Prison-Escape-Game/static/game.js:531-540 | updateFreezeEffect keeps the session invariant |
| Frame.FrameStepConsistent | Prison-Escape-Game/static/game.js:666-677 | a whole frame keeps the session invariant |
| Frame.FrameMonotone | Prison-Escape-Game/static/game.js:666-677 | a frame never adds guards or player bullets, never lowers ammo, never raises health and never moves the timer |
| Frame.BulletStepLoss | Prison-Escape-Game/static/game.js:357-361 | the bullet pass ends the session exactly when a guard bullet reaches the player and the health ends at 0 or below |
| Frame.WinNeedsExit | Prison-Escape-Game/static/game.js:522-528 | a frame that wins was run on a running, unpaused session whose moved player touches the exit |
| Frame.DeathOnExitStillWins | Prison-Escape-Game/static/game.js:666-677 | a fatal hit does not stop the rest of the frame, so a player killed on the exit frame still wins |
| Frame.FrozenFrameFiresNothing | Prison-Escape-Game/static/game.js:367-369 | while every guard is frozen the guard pass changes nothing |
| Frame.FreezeFromPickup | Prison-Escape-Game/static/game.js:502-512 | a freeze picked up in a frame leaves every guard frozen with 119 frames to go after that frame's countdown |
| Frame.PauseRoundTrip | Prison-Escape-Game/static/game.js:542-555 | pausing twice restores the session, and pausing keeps the invariant |
| Frame.ShootConsistent | Prison-Escape-Game/static/game.js:290-306 | shooting keeps the invariant and conserves rounds: ammo plus bullets in flight |
| Frame.KeyConsistent | Prison-Escape-Game/static/game.js:710-741 | the timer tick, keyup, a held key and a pause toggle keep the invariant |
| Frame.StoppedConsistent | Prison-Escape-Game/static/game.js:558-563 | gameOver keeps the invariant |
| Frame.StartedConsistent | Prison-Escape-Game/static/game.js:680-703 | a started session is consistent once its guards are fresh and its items well placed |
| Engine.Game.constructor | Prison-Escape-Game/static/game.js:750-753 | page load runs initGame on the declared initial values: the defined walls and exit, the ten table guards, and either a started session with three freeze items and five packs or, when the draws run out, a stopped one with no items; the session is consistent |
| Engine.Game.InitGame | Prison-Escape-Game/static/game.js:680-708 | the map, guards and items are rebuilt and the session restarted; if placement runs out of draws the session is left stopped |
| Engine.Game.BuildLevel | Prison-Escape-Game/static/game.js:696-698 | createMap, createCops and createPowerups give the defined walls and exit, the ten table guards, and three freeze items and five packs on the floor |
| Engine.Game.NewSession | Prison-Escape-Game/static/game.js:680-703 | the session flags, timer, keys, player and bullets are reset and the new level installed |
| Engine.Game.ResetSession | Prison-Escape-Game/static/game.js:681-694 | the session flags, timer, keys, player and bullets are reset |
| Engine.Game.Install | Prison-Escape-Game/static/game.js:696-698 | the new walls, exit, guards and items replace the old ones |
| Engine.Game.GameOver | Prison-Escape-Game/static/game.js:558-563 | the fields become Stopped of the old session |
| Engine.Game.TogglePause | Prison-Escape-Game/static/game.js:542-555 | the fields become TogglePause of the old session |
| Engine.Game.TimerTick | Prison-Escape-Game/static/game.js:701-703 | the fields become TimerTick of the old session, and the invariant holds |
| Engine.Game.Steer | Prison-Escape-Game/static/game.js:239-257 | the key tests in source order give the intended position and the Facing rule |
| Engine.Game.MovePlayer | Prison-Escape-Game/static/game.js:238-288 | the player field becomes PlayerAfterMove, nothing else changes |
| Engine.Game.PlayerShoot | Prison-Escape-Game/static/game.js:290-306 | the fields become Shoot of the old session |
| Engine.Game.MoveBullets | Prison-Escape-Game/static/game.js:308-364 | the fields become BulletStep of the old session |
| Engine.Game.HitCop | Prison-Escape-Game/static/game.js:329-338 | the downward guard loop damages the last guard the bullet overlaps, removing it at 0 health, and reports whether it hit |
| Engine.Game.PlayerBulletAt | Prison-Escape-Game/static/game.js:310-338 | one iteration on bullet i keeps the pass invariant with one bullet fewer left to resolve |
| Engine.Game.MovePlayerBullets | Prison-Escape-Game/static/game.js:309-339 | the fields become ShotStep of the old session |
| Engine.Game.ResolveShots | Prison-Escape-Game/static/game.js:309-339 | the downward splice loop yields exactly ResolvePlayerBullets |
| Engine.Game.MoveCopBullets | Prison-Escape-Game/static/game.js:341-363 | the fields become VolleyStep of the old session |
| Engine.Game.ResolveVolley | Prison-Escape-Game/static/game.js:341-363 | the downward splice loop yields exactly ResolveCopBullets |
| Engine.Game.CopBulletAt | Prison-Escape-Game/static/game.js:342-362 | one iteration on guard bullet i: dropped on a wall, dropped with the damage taken on reaching the player, or kept advanced |
| Engine.Game.MoveCops | Prison-Escape-Game/static/game.js:366-499 | the fields become GuardStep of the old session |
| Engine.Game.TickGuards | Prison-Escape-Game/static/game.js:367-498 | the loop over the guards yields exactly CopsTick, with shots appended in guard order |
| Engine.Game.FreezeAll | Prison-Escape-Game/static/game.js:508 | setting every guard's frozen flag yields exactly SetFrozen |
| Engine.Game.CheckPickups | Prison-Escape-Game/static/game.js:501-529 | the fields become PickupStep of the old session |
| Engine.Game.CollectPowerups | Prison-Escape-Game/static/game.js:502-512 | the fields become FreezePickup of the old session |
| Engine.Game.TakePowerups | Prison-Escape-Game/static/game.js:502-512 | the downward splice loop leaves exactly the untouched items, and reports a touch exactly when some item is touched |
| Engine.Game.CollectAmmo | Prison-Escape-Game/static/game.js:514-520 | the fields become AmmoPickup of the old session |
| Engine.Game.TakeAmmo | Prison-Escape-Game/static/game.js:514-520 | the downward splice loop leaves exactly the untouched packs and adds the rounds of every touched one |
| Engine.Game.UpdateFreezeEffect | Prison-Escape-Game/static/game.js:531-540 | the fields become FreezeStep of the old session |
| Engine.Game.Tick | Prison-Escape-Game/static/game.js:666-677 | one gameLoop update gives FrameStep of the old session and keeps the invariant |
| Engine.Game.KeyDown | Prison-Escape-Game/static/game.js:710-737 | the handler does exactly what Classify picks: nothing, a pause toggle, a held key (with shot or sound toggle), or a restart that installs the defined walls and exit and the ten table guards and either starts with three freeze items and five packs or, when the draws run out, stops with none; it keeps the invariant |
| Engine.Game.HoldKey | Prison-Escape-Game/static/game.js:723-736 | the fields become Pressed of the old session |
| Engine.Game.KeyUp | Prison-Escape-Game/static/game.js:739-741 | the fields become Released of the old session, and the invariant holds |
| Engine.WallStep | Prison-Escape-Game/static/game.js:319-327 | a player bullet that hits a wall is dropped and the guards are untouched |
| Engine.HitStep | Prison-Escape-Game/static/game.js:329-337 | a player bullet that hits a guard is dropped and that guard is damaged |
| Engine.MissStep | Prison-Escape-Game/static/game.js:310-338 | a player bullet that hits nothing is kept, advanced, in its place |
| Engine.CopWallStep | Prison-Escape-Game/static/game.js:347-355 | a guard bullet that hits a wall is dropped |
| Engine.CopHitStep | Prison-Escape-Game/static/game.js:357-361 | a guard bullet that reaches the player is dropped and the player loses its damage |
| Engine.CopMissStep | Prison-Escape-Game/static/game.js:341-363 | a guard bullet that hits nothing is kept, advanced, in its place |

## Left out

- `Prison-Escape-Game/app.py` only serves the page. It is not part of this model.
- Not modelled: drawing (`draw`), images, the canvas, sounds and music (`playSound`, `startBackgroundMusic`, `sounds.backgroundMusic`), and the `requestAnimationFrame` rescheduling. They affect no state the game reads. The sound flag itself is modelled.
- Not modelled: the timer display format at game.js:628.
- Not modelled: the `preventDefault` listener for space and the arrow keys, and the registration of the listeners. `KeyDown` and `KeyUp` are the handler bodies.
- Not modelled: JavaScript floating point. Positions, speeds and distances are exact reals, so rounding is out of scope.
- `Math.sqrt` is a parameter `sqrt`. Lemmas that need the true root say so in their `requires` (`IsRootOf`).
- GuardAI.AimedShot: when the guard's and the player's centres coincide, the source divides 0 by 0 and gets a NaN direction; such a bullet never collides with anything and never leaves the list. The model gives it the direction (0, 0) instead: it stays on the guard's centre, which overlaps the player, so on the next guard-bullet pass it hits the player for 10 damage and is removed, unless it touches a wall first.
- `Math.random` is a supplied sequence of draws in [0, 1). The source's loop never gives up. The model's placement fails once the draws run out. `InitGame` then leaves the session stopped.
- `MAP_WIDTH` and `MAP_HEIGHT` are integer tile counts. The source divides the canvas size by TILE without rounding.
- `toLowerCase` is modelled for ASCII letters only. Only the keys r and m are compared after lower-casing.
- `cop.targetPoint === cop.patrolPoint1` compares object identities. The model tags the target as the first or the second anchor. The initial target is a copy of point 2, so it counts as "not point 1", which the tag reproduces.
- A `gameOver` call inside the guard-bullet loop is recorded as a `fatal` flag and applied after the pass. The loop does not read `running`, so the rest of the pass is the same.
- Kept as the code has it:
  - `initGame` resets neither `freezeEffect` nor `soundEnabled`, so a freeze in force when the player restarts carries over into the new session (`Frame.Started`).
  - The two border loops both push the corner tiles (`MapBuilder.CornerPushedTwice`).
  - The per-axis wall check lets a diagonal move clip a wall corner (`Movement.DiagonalMoveCanClipCorner`).
  - A player killed on the frame they reach the exit still wins (`Frame.DeathOnExitStillWins`).
- Frame.FrameStep: its own contract covers only the stopped and paused cases. The running case is stated by the lemmas beside it (FrameStepConsistent, FrameMonotone, WinNeedsExit, DeathOnExitStillWins, FreezeFromPickup) rather than in one ensures.
- GuardAI.CopsTick and Frame.GuardStep: their contracts do not state the guards' exact new positions. CopsTickPointwise makes each guard its own one-guard frame, CopTickMoves gives that frame's move through Step and StepBy, and CopsTickShots gives the new bullets.
