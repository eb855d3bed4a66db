# Gem Digger — a Dafny model of the game core

Gem Digger is a Frogger-style browser game. The player first picks one of
five characters on a select screen. Then they walk across a board of stone
rows, where four bugs run from left to right. Touching a bug costs a life,
and the last life ends the game. Walking over a gem collects it, and the gem
reappears on a free tile. Every seventh gem brings out a key. Picking up the
key makes the player invincible for five seconds; a star is drawn over them
while this lasts. A heart appears when the player is down to two lives, and
picking it up gives one life back. Once the game is over, space goes back to
the select screen.

This project models the game's state and its frame-by-frame logic:

- `board.dfy` (module `Board`):
  - the playfield constants and the tile grid;
  - the already-floored random draws that pick a row, a column, a speed or a sprite;
  - `FirstFree`, the search that every "redraw until the tile is free" loop performs.
- `entities.dfy` (module `Entities`), the objects of `app.js`:
  - `Enemy`, `Player`, `Gem`, `Pickup` (heart and key share one class) and `Star`, each a class with the source's fields;
  - value-level functions (`Advance`, `Step`, `Asleep`, …) that specify each method;
  - the key-code table.
- `collision.dfy` (module `Collision`): the arithmetic of the engine's proximity tests, what one or several bug hits do to the player, and when a gem count earns the key.
- `seeding.dfy` (module `Seeding`): the page-load loop that fills the list of five gems. It comes in two versions: the acceptance test as written, and the corrected test (see Findings).
- `engine.dfy` (module `Engine`), the functions of `engine.js` over one `World` object that owns every entity:
  - `update` and its checks;
  - the game-over cleanup in `render`;
  - the keydown listener;
  - the star's time-out.

Modelling choices:

- Random draws are parameters. Every `Math.random()` result is handed in already floored, with a range predicate (`EnemyDraw.Valid`, `GemDraw.Valid`, `ItemDraw.Valid`).
- Retry loops get a finite supply of draws. The source loops that redraw a gem, the heart or the key "until free" never stop if no free draw ever comes. The model hands each such loop a finite sequence of draws. It proves that the loop stops at the first free one. If the supply has no free draw, the world is marked `hung`: the page's script would never return, so every later operation is a no-op.
- Time is a parameter. The frame time `dt` and an enemy's `x` are `real`; the source's floating-point arithmetic is not modelled.
- `World.Valid()` is the invariant every operation keeps:
  - the world has its fixed shape: four distinct enemies, five distinct gem objects, a heart and a key;
  - the player is well formed: selector in 0..4, position on the board and below the water line, at least one life, and standing over a select-screen slot before play starts;
  - every enemy roams a stone row at a speed in 100..400;
  - gems, heart and key sit on grid tiles;
  - unless the world hung, an active heart or key shares a tile with no gem and not with the other.
- `World.GemsApart()` says that no two gems share a tile. It is not part of `Valid()`, because the seeding loop as written can stack two gems at page load (see Findings). The corrected seeding starts the gems apart, and every frame keeps them apart (`CheckGemCollection`, `PlayTurnApart`).
- The checks of `update` are also written as functions on a `Scene` value: the player, the gem tiles, the heart, the key and the star. `PlayTurn` is one frame of checks, built from `EnemyTurn`, `GemsTurn`, `HeartTurn`, `KeyTurn` and the star's move. Each method of the chain, from `World.Update` down to `ShowHeart` and `ShowKey`, ensures that its new scene is the turn's result. It also ensures that the world hung exactly when the turn has no result, which happens when a redraw loop runs out of draws.
- Space after a game over sets `start` back to false (`ArcadeGameGemDigger/js/app.js:155`), so the player returns to the select screen with a fresh character choice. `Entities.SpaceRestarts` proves that the restarted player equals a brand-new player.

## Model

| member | source | states |
|---|---|---|
| Board.CellAtInjective | ArcadeGameGemDigger/js/app.js:247-251 | two row/column pairs give the same pixel cell if and only if they are the same pair |
| Board.CellAtDecodes | ArcadeGameGemDigger/js/app.js:250-251 | the pixel cell of a row and column decodes back to that row and column |
| Board.GemDrawOnGrid | ArcadeGameGemDigger/js/app.js:248-251 | a gem draw in range lands on a tile of one of the five stone rows |
| Board.ItemDrawOnGrid | ArcadeGameGemDigger/js/app.js:290-293 | a heart or key draw in range lands on a tile of rows 1..7 |
| Board.InWithout | ArcadeGameGemDigger/js/engine.js:197-203 | the scan that skips index i finds a cell exactly when some other gem holds it |
| Board.DistinctUpdate | ArcadeGameGemDigger/js/engine.js:191-217 | a gem moved to a tile that no other gem holds keeps all gems on distinct tiles |
| Board.MovedApart | ArcadeGameGemDigger/js/engine.js:191-217 | a gem moved to a tile that no other gem and no active pickup holds keeps the gems distinct and clear of the pickups |
| Board.FirstFreeIsFirst | ArcadeGameGemDigger/js/engine.js:229-246 | every candidate before the first free one is blocked, and the first free one is not |
| Board.SearchStep | ArcadeGameGemDigger/js/engine.js:229-246 | one more turn of a redraw loop keeps it on the search: it goes on exactly when the draw it tried is blocked |
| Board.SearchDone | ArcadeGameGemDigger/js/engine.js:229-246 | a stopped redraw loop has used the draws up to and including the first free one, or all of them when none is free, and its last draw is free |
| Entities.InputOfCodeInverse | ArcadeGameGemDigger/js/app.js:417-424 | key code c maps to symbol k if and only if k's code is c; every other code maps to no key |
| Entities.Spawn | ArcadeGameGemDigger/js/app.js:22-28 | a new bug starts at x = -101 on the drawn stone row with the drawn speed 100..400 |
| Entities.Advance | ArcadeGameGemDigger/js/app.js:45-64 | a paused bug stays put; past the right border it restarts at x = -101 on some stone row; otherwise it moves by speed·dt on its row; roaming is preserved |
| Entities.Enemy.constructor | ArcadeGameGemDigger/js/app.js:13-30 | the new bug's state is the spawn state of the draw |
| Entities.Enemy.Reset | ArcadeGameGemDigger/js/app.js:33-41 | the bug is back at its spawn state for the new draw |
| Entities.Enemy.Update | ArcadeGameGemDigger/js/app.js:45-67 | the bug's new state is one tick of Advance from its old state |
| Entities.Character | ArcadeGameGemDigger/js/app.js:99-119 | exactly the slots 0..4 have a character, and none of them is the selector sprite |
| Entities.CharacterInjective | ArcadeGameGemDigger/js/app.js:99-119 | different slots hold different characters |
| Entities.NewPlayer | ArcadeGameGemDigger/js/app.js:77-88 | a new player is well formed, on the select screen, not game over, with 3 lives and no gems |
| Entities.Respawn | ArcadeGameGemDigger/js/app.js:91-96 | reset puts the player on the spawn tile (303, 551) with slot 2 selected and changes nothing else |
| Entities.Step | ArcadeGameGemDigger/js/app.js:122-216 | after any input the selector is in 0..4, y lies between the water line and the bottom border, x stays on the board, and a well-formed player stays well formed |
| Entities.IdleStepIsIdentity | ArcadeGameGemDigger/js/engine.js:136 | the engine's key-less player.update() leaves a well-formed player unchanged |
| Entities.SelectKeepsSlot | ArcadeGameGemDigger/js/app.js:132-148 | on the select screen, left, right and unknown keys keep the frame over a character slot and do not start play |
| Entities.SelectRunKeepsSlot | ArcadeGameGemDigger/js/app.js:124-148 | any sequence of inputs without enter keeps the select screen up, with the frame over a slot |
| Entities.EnterStartsPlay | ArcadeGameGemDigger/js/app.js:127-131 | enter starts play as the character of the selected slot, at the spawn tile, with lives, gems and game-over flag kept |
| Entities.SpaceRestarts | ArcadeGameGemDigger/js/app.js:152-162 | space after a game over yields exactly a brand-new player on the select screen |
| Entities.SpaceWhilePlayingIgnored | ArcadeGameGemDigger/js/app.js:152-162 | space during play changes nothing |
| Entities.GameOverFreezesPlayer | ArcadeGameGemDigger/js/app.js:163-193 | once the game is over, every key but space leaves the player as they are |
| Entities.Player.constructor | ArcadeGameGemDigger/js/app.js:77-88 | the new player's state is NewPlayer |
| Entities.Player.Reset | ArcadeGameGemDigger/js/app.js:91-96 | the player's state becomes the respawned old state |
| Entities.Player.Change | ArcadeGameGemDigger/js/app.js:99-119 | the sprite becomes the selected slot's character; an out-of-range selector keeps the sprite |
| Entities.Player.Update | ArcadeGameGemDigger/js/app.js:122-216 | the player's new state is Step of the old state and the key |
| Entities.Player.SelectInput | ArcadeGameGemDigger/js/app.js:124-148 | the select-screen branch moves the frame and selector, or starts play with the chosen character |
| Entities.Player.PlayInput | ArcadeGameGemDigger/js/app.js:149-197 | the play branch restarts after a game over, or moves 5 pixels unless the game is over, clamping x to the board |
| Entities.Player.Clamp | ArcadeGameGemDigger/js/app.js:199-214 | the selector is clamped to 0..4 and y to the band between the water line and the bottom border |
| Entities.Player.HandleInput | ArcadeGameGemDigger/js/app.js:223-225 | handling a key is one Step with that key |
| Entities.Gem.constructor | ArcadeGameGemDigger/js/app.js:228-252 | the gem takes the drawn colour (blue for an unknown variant) and the drawn tile |
| Entities.Gem.Update | ArcadeGameGemDigger/js/app.js:254-278 | the gem takes the new draw's colour and tile |
| Entities.Asleep | ArcadeGameGemDigger/js/app.js:308-311 | a sleeping pickup is hidden and inactive and keeps its tile |
| Entities.AsleepIdempotent | ArcadeGameGemDigger/js/app.js:359-362 | putting a pickup to sleep twice is the same as once |
| Entities.Pickup.constructor | ArcadeGameGemDigger/js/app.js:285-294 | a new heart (or key, app.js:336-345) is hidden and inactive on the drawn tile |
| Entities.Pickup.Update | ArcadeGameGemDigger/js/app.js:296-302 | the pickup moves to the drawn tile (the key's update, app.js:347-353, is the same) and keeps its flags |
| Entities.Pickup.Sleep | ArcadeGameGemDigger/js/app.js:308-311 | the pickup's state becomes Asleep of its old state |
| Entities.Star.constructor | ArcadeGameGemDigger/js/app.js:314-320 | the star starts off at (0, 0) |
| Entities.Star.Update | ArcadeGameGemDigger/js/app.js:322-325 | the star moves to the given point and keeps its on/off flag |
| Entities.Star.Sleep | ArcadeGameGemDigger/js/app.js:331-333 | the star goes off and stays where it is |
| Collision.EnemyHit | ArcadeGameGemDigger/js/engine.js:144-153 | the centre-distance test holds if and only if the bug's corner lies strictly within 70 pixels horizontally and between -45 and +65 vertically of the player's corner |
| Collision.ItemHit | ArcadeGameGemDigger/js/engine.js:172-182 | the gem, heart and key test holds if and only if the item's corner is within 50 pixels horizontally and between -30 and +70 vertically of the player's corner |
| Collision.ItemHitsShareColumn | ArcadeGameGemDigger/js/engine.js:172-182 | all grid items the player touches at one moment are in the same column |
| Collision.HurtTimesClosedForm | ArcadeGameGemDigger/js/engine.js:153-165 | after n hits: life is max(1, life - n); the game is over once n reaches the lives; the heart shows once life came down to 2; any hit that cost a life respawned the player; no hit, or a last-life hit, leaves the position |
| Collision.EnemiesHitting | ArcadeGameGemDigger/js/engine.js:147-166 | the number of hitting bugs is at most the number of bugs, and zero exactly when no bug touches the player |
| Collision.CellsHit | ArcadeGameGemDigger/js/engine.js:175-182 | the number of touched gems is at most the number of gems, and zero exactly when the player touches none |
| Collision.KeyEarnedStep | ArcadeGameGemDigger/js/engine.js:183-188 | counting one more gem earns the key exactly when it was earned before or the new count is due |
| Collision.KeyEarnedWitness | ArcadeGameGemDigger/js/engine.js:186-188 | counting from c0 to c1 earns the key if and only if some count after c0 and up to c1 is a positive multiple of 7 |
| Collision.KeyEarnedClosedForm | ArcadeGameGemDigger/js/engine.js:186-188 | for counts from 0 up, the key was earned between c0 and c1 if and only if c1 / 7 > c0 / 7 |
| Seeding.NextAccepted | ArcadeGameGemDigger/js/app.js:388-402 | the redraw stops at the first draw the test accepts: every earlier draw is rejected, and it is the supply's length when none is accepted |
| Seeding.AcceptedAppend | ArcadeGameGemDigger/js/app.js:389-395 | pushing a gem the test accepted keeps every gem accepted against the gems before it |
| Seeding.SeedFromSound | ArcadeGameGemDigger/js/app.js:378-405 | from any point of the loop, a finished loop extends the gems so far with the right number of accepted draws of the supply |
| Seeding.SeedFirstSound | ArcadeGameGemDigger/js/app.js:383-384 | the first gem is pushed as drawn, and the rest of the loop stays sound |
| Seeding.SeedLaterSound | ArcadeGameGemDigger/js/app.js:385-402 | a later gem is the next accepted draw, and the rest of the loop stays sound |
| Seeding.SeedSound | ArcadeGameGemDigger/js/app.js:376-405 | a finished seeding yields five gems, all drawn from the supply, each accepted against the gems before it |
| Seeding.SeedNoOverlapDistinct | ArcadeGameGemDigger/js/app.js:388-402 | with the corrected test no two seeded gems share a tile |
| Seeding.AsWrittenStacksGems | ArcadeGameGemDigger/js/app.js:390 | with the test as written, five accepted draws can put the third gem on the first gem's tile |
| Seeding.ScanAccepts | ArcadeGameGemDigger/js/app.js:389-396 | the inner scan accepts exactly when the acceptance test holds |
| Seeding.RedrawUntilAccepted | ArcadeGameGemDigger/js/app.js:388-402 | the do-while stops at the first accepted draw, or reports that the supply ran out |
| Seeding.SeedOne | ArcadeGameGemDigger/js/app.js:379-404 | one turn of the loop adds one gem and leaves the same remaining seeding, or reports that no seeding exists |
| Seeding.SeedGems | ArcadeGameGemDigger/js/app.js:376-405 | the loop succeeds exactly when the seeding exists, and then returns its gems |
| Engine.SeededGems | ArcadeGameGemDigger/js/app.js:376-405 | gems on the tiles of seeded draws are on the gem grid, and on distinct tiles when the draws' tiles are distinct |
| Engine.ScanPassStep | ArcadeGameGemDigger/js/engine.js:175-182 | an untouched gem is passed over and the scan so far still holds one gem further on |
| Engine.ScanTakeStep | ArcadeGameGemDigger/js/engine.js:175-217 | a touched gem counted once, the key shown when due, and only that gem moved, keep the scan so far one gem further on |
| Engine.GemScanKeeps | ArcadeGameGemDigger/js/engine.js:175-217 | the scan keeps the number of gems, leaves untouched and already passed gems where they were, and puts every touched one clear of the active heart and key |
| Engine.GemScanApart | ArcadeGameGemDigger/js/engine.js:191-217 | the scan never puts two gems that stood on distinct tiles onto one tile |
| Engine.PlacedAt | ArcadeGameGemDigger/js/engine.js:225-250 | an unplaced pickup with a free draw goes to a tile clear of its blockers |
| Engine.OccupiedBy | ArcadeGameGemDigger/js/engine.js:205-215 | a pickup occupies its tile exactly when it is active, and no other tile |
| Engine.PickupTurn | ArcadeGameGemDigger/js/engine.js:223-314 | a placed pickup stays on its tile and an unplaced one goes to a free tile; it is taken exactly when the player touches it, and then it sleeps; there is no outcome exactly when it is unplaced and no draw is free |
| Engine.WithVitals | ArcadeGameGemDigger/js/engine.js:153-164 | writing the vitals back into the scene leaves the gems, the key and the star alone, and reading them gives the vitals written |
| Engine.CollectTurnKeeps | ArcadeGameGemDigger/js/engine.js:98-113 | the collection checks keep the player's mode, sprite, game-over flag and position, never lower the lives or the gem count, and leave an on star on where it was |
| Engine.PlayTurnKeeps | ArcadeGameGemDigger/js/engine.js:92-121 | a frame of checks never changes the mode or sprite nor lowers the count; while the star is on the player neither loses a life nor moves; an on star stays on and ends on the player |
| Engine.PlayTurnApart | ArcadeGameGemDigger/js/engine.js:92-121 | a frame of checks keeps gems on distinct tiles apart |
| Engine.SpawnEnemies | ArcadeGameGemDigger/js/app.js:367-374 | one new, distinct bug per draw, each in its spawn state |
| Engine.PlaceGems | ArcadeGameGemDigger/js/app.js:376-405 | one new, distinct gem per seeded draw, on its tile and with its colour |
| Engine.NewPieces | ArcadeGameGemDigger/js/app.js:407-410 | the player is new, the star off, and the heart and the key two distinct hidden, inactive pickups on their drawn tiles |
| Engine.World.constructor | ArcadeGameGemDigger/js/app.js:367-410 | the page-load world is valid: bugs in spawn state, gems on the seeded tiles, heart and key hidden, star off, player new; its gems are apart exactly when the seeded tiles are distinct |
| Engine.World.StartValid | ArcadeGameGemDigger/js/app.js:367-410 | a world with gems on seeded tiles and both pickups hidden on grid tiles is valid; its gems are apart exactly when the seeded tiles are distinct |
| Engine.World.UpdateEntities | ArcadeGameGemDigger/js/engine.js:132-137 | every bug advances one tick with its own draw, paused once the game is over; the player is unchanged; the world stays valid |
| Engine.World.MoveEnemies | ArcadeGameGemDigger/js/engine.js:133-135 | each bug advances once with its own draw, and all keep roaming |
| Engine.World.Hit | ArcadeGameGemDigger/js/engine.js:153-164 | one hit changes the vitals as Hurt says, keeps the player well formed and leaves mode, sprite, gem count and heart tile alone |
| Engine.World.CheckCollisions | ArcadeGameGemDigger/js/engine.js:142-168 | the vitals suffer one hit per bug that touches the player's position from before the scan; nothing else in the scene changes; the world stays valid |
| Engine.World.ScanEnemies | ArcadeGameGemDigger/js/engine.js:147-166 | the forEach applies one hit per touching bug, against the position read before it |
| Engine.World.VisitEnemy | ArcadeGameGemDigger/js/engine.js:148-165 | one bug is tested and, if it touches, applied as one more hit |
| Engine.World.GemClash | ArcadeGameGemDigger/js/engine.js:197-215 | the scan finds a clash if and only if another gem or an active pickup holds the tile |
| Engine.World.TryGem | ArcadeGameGemDigger/js/engine.js:193-215 | one turn redraws the gem and reports whether its new tile is blocked, the blockers unchanged |
| Engine.World.RedrawGem | ArcadeGameGemDigger/js/engine.js:191-217 | the do-while stops at the first draw on a free tile and leaves the gem there, or reports that none is free |
| Engine.World.ReplaceGem | ArcadeGameGemDigger/js/engine.js:191-217 | the collected gem moves to the first free draw and takes its colour, and only it moves; the world hangs exactly when no draw is free, and stays valid |
| Engine.World.GemMovedValid | ArcadeGameGemDigger/js/engine.js:191-217 | moving one gem to a free grid tile keeps the world valid |
| Engine.World.CollectGem | ArcadeGameGemDigger/js/engine.js:182-217 | a touched gem adds one to the count and the key shows at a positive multiple of 7; the gem moves to the first draw clear of the other gems and the active pickups and takes its colour, the other gems keep tile and colour; the world hangs exactly when no draw is clear |
| Engine.World.CountGem | ArcadeGameGemDigger/js/engine.js:183-188 | the count goes up by one, and the key shows when the count is a positive multiple of 7 |
| Engine.World.VisitGem | ArcadeGameGemDigger/js/engine.js:176-218 | one gem is tested against the position read before the scan and collected if touched; this is one step of GemScan, and the scan so far stays as ScanSoFar states it |
| Engine.World.TakeGem | ArcadeGameGemDigger/js/engine.js:182-217 | a touched gem is counted and re-placed with the rest of the supply, which is one step of GemScan; only that gem changes tile and colour |
| Engine.World.CheckGemCollection | ArcadeGameGemDigger/js/engine.js:170-221 | the count grows by the number of gems touched; the key shows if a multiple of 7 was passed; untouched gems stay put; the gem tiles become GemScan's outcome, or the world hangs exactly when GemScan fails; gems apart stay apart |
| Engine.World.ScanGems | ArcadeGameGemDigger/js/engine.js:175-219 | the for-loop over every gem ends with the scan done as ScanSoFar states it and the gem tiles equal to GemScan's outcome, or hangs only when GemScan fails |
| Engine.World.ItemClash | ArcadeGameGemDigger/js/engine.js:234-244 | the scan finds a clash if and only if a gem or the other, active pickup holds the tile |
| Engine.World.TryItem | ArcadeGameGemDigger/js/engine.js:230-244 | one turn redraws the pickup and reports whether its new tile is blocked |
| Engine.World.RedrawItem | ArcadeGameGemDigger/js/engine.js:229-246 | the do-while stops at the first draw on a free tile and leaves the pickup there, or reports that none is free |
| Engine.World.PlaceItem | ArcadeGameGemDigger/js/engine.js:225-250 | a pickup already placed stays put; otherwise it moves to the first free draw and becomes active, or the world hangs |
| Engine.World.ItemPlacedValid | ArcadeGameGemDigger/js/engine.js:223-252 | a pickup kept in place, or newly placed on a free grid tile, keeps the world valid |
| Engine.World.CheckHeartPosition | ArcadeGameGemDigger/js/engine.js:223-252 | an unplaced heart goes to the first draw clear of the gems and the active key and becomes active; a placed heart is left alone |
| Engine.World.CheckKeyLocation | ArcadeGameGemDigger/js/engine.js:271-299 | an unplaced key goes to the first draw clear of the gems and the active heart and becomes active; a placed key is left alone |
| Engine.World.CheckHeartCollection | ArcadeGameGemDigger/js/engine.js:254-269 | touching the heart gives one life and puts the heart to sleep; otherwise nothing changes |
| Engine.World.CheckKeyCollection | ArcadeGameGemDigger/js/engine.js:301-314 | touching the key turns the star on and puts the key to sleep; otherwise nothing changes |
| Engine.World.Update | ArcadeGameGemDigger/js/engine.js:90-123 | a hung world stays as it is; the bugs advance; on the select screen nothing else changes; once play has started the new scene is PlayTurn's result, and the world hangs exactly when PlayTurn has none; the mode and sprite never change, the gem count never drops; while the star is on the player neither loses a life nor moves; an active star ends on the player |
| Engine.World.PlayChecks | ArcadeGameGemDigger/js/engine.js:92-121 | the checks of play give the scene PlayTurn describes, or hang exactly when it has none; they keep the world valid, the bugs, the mode and the sprite, never lower the gem count, and protect the player while the star is on |
| Engine.World.EnemyCheck | ArcadeGameGemDigger/js/engine.js:93-96 | bug hits are checked only while the star is off; the new scene is EnemyTurn's |
| Engine.World.ItemChecks | ArcadeGameGemDigger/js/engine.js:98-118 | the gem, heart and key checks and the star's move give the scene ItemsTurn describes, or hang exactly when it has none; they never move the player or lower the count or the lives, and an active star ends on the player |
| Engine.World.Collect | ArcadeGameGemDigger/js/engine.js:98-113 | the gem, heart and key checks give the scene CollectTurn describes, or hang exactly when it has none; they leave the player's mode, flag, sprite, position and slot alone, never lower the count or the lives, and never turn the star off |
| Engine.World.GemChecks | ArcadeGameGemDigger/js/engine.js:98-99 | the gem check gives the scene GemsTurn describes, or hangs exactly when it has none; only the player's gem count changes, upwards |
| Engine.World.PickupChecks | ArcadeGameGemDigger/js/engine.js:100-113 | the heart and key checks give the scene PickupsTurn describes, or hang exactly when it has none; they change the player's lives only, upwards |
| Engine.World.HeartChecks | ArcadeGameGemDigger/js/engine.js:100-105 | a hidden heart is skipped; otherwise the scene is HeartTurn's, or the world hangs exactly when it has none; only the lives change, upwards |
| Engine.World.ShowHeart | ArcadeGameGemDigger/js/engine.js:101-104 | a showing heart ends as PickupTurn says, against the gems and the active key; taking it gives exactly one life, and nothing else of the player changes |
| Engine.World.KeyChecks | ArcadeGameGemDigger/js/engine.js:108-113 | a hidden key is skipped; otherwise the scene is KeyTurn's, or the world hangs exactly when it has none; the star is never turned off or moved |
| Engine.World.ShowKey | ArcadeGameGemDigger/js/engine.js:109-112 | a showing key ends as PickupTurn says, against the gems and the active heart; taking it turns the star on, which otherwise keeps its flag; the star does not move |
| Engine.World.FollowStar | ArcadeGameGemDigger/js/engine.js:116-118 | the star moves onto the player |
| Engine.World.GameOverStep | ArcadeGameGemDigger/js/engine.js:417-439 | once the game is over, the heart and the key sleep and the star goes off; otherwise they are untouched; the new scene is AfterRender of the old one |
| Engine.AfterRender | ArcadeGameGemDigger/js/engine.js:417-439 | the cleanup keeps the player, the gem tiles and every pickup's tile; once the game is over the heart and the key are hidden and inactive and the star is off; otherwise the scene is untouched |
| Engine.AfterRenderIdempotent | ArcadeGameGemDigger/js/engine.js:417-439 | a second cleanup changes nothing |
| Engine.World.Render | ArcadeGameGemDigger/js/engine.js:322-439 | render on a world that has not hung leaves the scene AfterRender made of it and moves no enemy; on a hung world it changes nothing |
| Engine.World.Frame | ArcadeGameGemDigger/js/engine.js:51-52 | one frame is update then render: the enemies take their Moved states; on the select screen the scene becomes AfterRender of the old one; in play the world hangs exactly when PlayTurn gives None and otherwise the scene is AfterRender of PlayTurn's result; after a frame of a game that is over, heart, key and star are all hidden and inactive |
| Engine.World.KeyDown | ArcadeGameGemDigger/js/app.js:416-431 | a key press is translated through the key table and applied as one player Step |
| Engine.World.ExpireStar | ArcadeGameGemDigger/js/engine.js:55-57 | the timer callback turns the star off |
| Engine.NewGame | ArcadeGameGemDigger/js/app.js:367-410 | with either acceptance test, a world comes out exactly when the seeding succeeds, and it is valid, with a new player and the seeded gems; its gems are apart exactly when the seeded tiles are distinct, which the corrected test guarantees |

## Left out

- Rendering is not modelled. `render`, `renderEntities`, every `render` method, the canvas, the HUD text and `Resources` loading only draw. The state changes inside `render`, the game-over cleanup, are modelled by `GameOverStep`, which `Render` runs and `AfterRender` specifies.
- Clocks are not modelled. `Date.now`, `lastTime` and `requestAnimationFrame` only produce `dt`, which is a parameter of `Update` and `Frame`.
- `setTimeout` is not modelled as a timer. The callback it schedules is the event `ExpireStar`, which can happen at any time. The source schedules a new five-second timer on every frame while the star is on. How such stacked timers interleave is not modelled.
- The browser event object is left out. `e.preventDefault()` (app.js:426-428) only stops the page from scrolling, so it is left out. `KeyDown` takes the key code directly.
- `Math.random` is not modelled. Each draw is a parameter with its range (`EnemyDraw`, `GemDraw`, `ItemDraw`).
- The unbounded retry loops get a finite supply. An endless redraw is modelled by the supply running out and the world becoming `hung`.
- Floating point is not modelled. An enemy's `x` and `dt` are reals.
- Sprite paths are modelled as the enumerations `Avatar` and `GemColor`.
- JavaScript numbers are modelled as unbounded integers. The counts and lives never get near 2^53.
- The engine's `reset` (engine.js:485-487) does nothing, and `init` only starts the loop, so both are left out.
- `Enemy.reset` (app.js:33-41) is never called in the source. It is modelled as `Enemy.Reset` for completeness.
- Entities.Pickup.Update: one member stands for both `Heart.update` and `Key.update`, whose bodies are identical.
- Engine.World.Update: the `Scene` holds the gems' tiles, not their colours. The colour a re-placed gem takes is stated on `CollectGem` and `TakeGem`.
- Engine.World.Update: that the gems stay apart over a frame is stated on the scene, by `PlayTurnApart`, and not as a clause of `Update`.
- Engine.World.Update: a world that hung is not described beyond the fact that it hung. The page's script would never return from the endless redraw loop, so no later state exists.

## Findings

| source | as written | input that shows it | evidently intended | confidence | as-written member | corrected member |
|---|---|---|---|---|---|---|
| ArcadeGameGemDigger/js/app.js:390 | a new gem is accepted as soon as SOME earlier gem differs from it in both x and y | gem draws (variant, row, col) = (0,1,0), (1,2,1), (2,1,0), (0,3,2), (1,4,3): the third gem differs from the second in both coordinates, so it is accepted on the first gem's tile | no earlier gem on the same tile (the test the engine's re-placement uses, engine.js:197-203) | not executed | Seeding.AsWrittenStacksGems | Seeding.SeedNoOverlapDistinct |

`Engine.NewGame` takes the acceptance test as a parameter. With the test as written (`Seeding.AsWritten`), the page-load world is valid, but its gems are apart only when the seeded tiles happen to be distinct, and `AsWrittenStacksGems` shows a supply where they are not. With the corrected test (`Seeding.NoOverlap`), the gems start apart, and `PlayTurnApart` shows that every frame keeps them apart.
