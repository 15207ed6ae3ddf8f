# Game-programming exercises, modelled in Dafny

This project models the game logic of a collection of small C++ games. It also
proves what that logic promises. The games come from two books: the SDL "Game
Programming in C++" series (making_3d_games_book, 2d_graphics, pong) and the
SFML "Beginning C++ Game Programming" series (Timber, Pong, Zombie Arena,
Run). Rendering, audio, fonts, windows and the operating system are left out.
What remains is the bookkeeping the games do between frames.

Modules:

- `Wrappers`: `Option`, the 2-D vector `Vec2` with `Add`/`Scale`, and `Rect`.
- `Timing`: SDL's unsigned 32-bit millisecond counter, the wrapping tick
  difference, and the per-frame delta time clamped to 0.05 s.
- `Sequences`: the list operations the engine performs on `std::vector`.
  These are sorted stable insertion by a key, erase of the first occurrence,
  and swap-with-last-and-pop removal. Each comes with its properties: shape,
  sortedness, multiset and duplicate-freedom.
- `Engine`: the actor/component engine of making_3d_games_book. It covers:
  - `Component`: self-registration with its owner and deregistration.
  - `Actor`: sorted component list, update and input gating on `EActive`,
    the world-transform dirty flag, and the destructor.
  - `World`: the Game class, with the actor and pending lists, the
    `mUpdatingActors` flag, the frame phases (input, update, merge, reap),
    sprites, asteroids, the texture cache and unloading.
  - The asteroids game's Ship (laser cooldown), Laser (death timer and
    first-hit kill) and Asteroid (registration).

  The three Game.cpp variants (vectors_physics, opengl, 2d_graphics) share
  one `World` class. Three of their differences have one member per variant:
  `RemoveSprite`/`RemoveSpriteGuarded`, `UnloadData`/`UnloadDataPopping`, and
  the `computeTransforms` switch of `UpdateGame`. Two are not modelled
  separately (see "Left out"): the 2d_graphics `ProcessInput` has no actor
  input loop, and the 2d_graphics reap deletes without deregistering.
- `AIStates`: the AI component's state machine (register, change, update).
- `RunGame`: the Run game's GameObject (flag-filtered update/draw dispatch),
  PlayerGraphics (four vertices appended to the canvas) and LevelUpdate (the
  ring of recycled platforms and the lagging-behind rule).
- `ZombieArena`: the player, zombies, bullets, the tiled background and the
  horde spawner, the texture cache, and the Game. The Game covers the
  key-press rules for each state, reload and fire, the per-frame movement,
  bullet-zombie collision and scoring, and the HUD frame counter.
- `Timber`: the column of branches that shifts down one slot per
  UpdateBranches call, and a drifting actor that is retired once it passes
  its restart line.
- `Pong`: the SFML Pong ball, bat and the frame loop of main.cpp, which
  covers lives, score and rebound dispatch.
- `SdlPong`: the SDL Pong game. It covers paddle steering and clamping,
  delta time, and the bounce chain for each ball.

Floats are modelled as mathematical reals and C++ `int` as unbounded
integers. Unsigned wrap-around is written out where the code relies on it:
the Uint32 tick difference and the `unsigned int` Pong score.

Inputs from outside the program are parameters:
- random numbers;
- key and mouse state;
- clock readings;
- rectangle-intersection results;
- square roots;
- the outcome of a texture load.

Callbacks into code that is not modelled (component hooks, AI state hooks)
are recorded as a trace of calls (`hooks`, `calls`, `trace`), so contracts
can state which hooks ran and in what order.

Where the books' prose and the code disagree, two cases follow the code:
- Run's `PositionLevelAtStart` stacks every platform at the same x.
- PlayerGraphics uses `position + position` rather than the size.

Zombie Arena's Enter key is the exception. As written, it cannot pause a
game in play. `AfterEnterAsWritten` models the code as written, and `Game`
uses the corrected toggle `AfterEnter`, which follows the evident intent
(see Findings).

## Model

| member | source | states |
|---|---|---|
| Timing.ElapsedMs | making_3d_games_book/vectors_physics/src/Game.cpp:102 | the Uint32 tick difference: now − last, or now + 2^32 − last once the counter has wrapped |
| Timing.DeltaTime | making_3d_games_book/vectors_physics/src/Game.cpp:102-105 | delta time is in [0, 0.05] and, below the cap, equals the elapsed milliseconds / 1000 |
| Timing.DeltaTimeClamp | making_3d_games_book/opengl/src/Game.cpp:99-102 | frames up to 50 ms keep their length; longer ones are cut to exactly 0.05 s |
| Sequences.IndexOf | making_3d_games_book/basic_with_components/src/Actor.cpp:67 | std::find: the first index holding the element |
| Sequences.InsertionPoint | making_3d_games_book/basic_with_components/src/Actor.cpp:54-60 | the insertion scan stops at the first element with a strictly greater key; every earlier key is at most the new one |
| Sequences.InsertionPointUnique | making_3d_games_book/basic_with_components/src/Actor.cpp:54-60 | any index with the scan's two properties is the scan's result |
| Sequences.InsertSortedShape | making_3d_games_book/basic_with_components/src/Actor.cpp:51-64 | insertion grows the list by one, keeps the prefix and suffix in order around the new element, and adds exactly it to the multiset |
| Sequences.InsertSortedKeepsSorted | making_3d_games_book/basic_with_components/src/Actor.cpp:51-64 | insertion keeps a sorted list sorted; later elements have strictly greater keys (ties keep insertion order) |
| Sequences.InsertSortedAppends | making_3d_games_book/vectors_physics/src/Game.cpp:176-187 | an element whose key is at least every present key goes at the end |
| Sequences.InsertSortedPrepends | making_3d_games_book/vectors_physics/src/Game.cpp:176-187 | an element whose key is below every present key goes at the front |
| Sequences.RemoveAfterInsert | making_3d_games_book/2d_graphics/src/Component.cpp:5-11 | removing an element just inserted restores the original list |
| Sequences.IndexOfIs | making_3d_games_book/basic_with_components/src/Actor.cpp:67 | an index of the element with no earlier occurrence is std::find's result |
| Sequences.RemoveFirstCount | making_3d_games_book/basic_with_components/src/Actor.cpp:66-71 | erase-first is a no-op on an absent element; otherwise it removes one occurrence and nothing else (multiset) |
| Sequences.RemoveFirstNoDup | making_3d_games_book/basic_with_components/src/Actor.cpp:66-71 | on a duplicate-free list the element is gone afterwards, so removing twice equals removing once |
| Sequences.SwapRemoveCount | making_3d_games_book/vectors_physics/src/Game.cpp:158-174 | swap-and-pop is a no-op on an absent element; otherwise it removes exactly one occurrence (multiset) |
| Sequences.SwapPopMultiset | making_3d_games_book/vectors_physics/src/Game.cpp:163-164 | iter_swap with the last element then pop_back removes exactly the swapped-out element |
| Sequences.SwapPopShape | making_3d_games_book/vectors_physics/src/Game.cpp:163-164 | after swap-and-pop the last element stands in the removed slot and the rest keep their places |
| Sequences.SwapRemoveNoDup | making_3d_games_book/vectors_physics/src/Game.cpp:158-174 | swap-and-pop on a duplicate-free list keeps it duplicate-free and removes exactly that actor |
| Sequences.AppendNoDup | making_3d_games_book/vectors_physics/src/Game.cpp:150-156 | appending a new actor keeps the list duplicate-free |
| Sequences.InsertNoDup | making_3d_games_book/basic_with_components/src/Actor.cpp:63 | inserting a new component keeps the list duplicate-free |
| Sequences.ConcatNoDup | making_3d_games_book/vectors_physics/src/Game.cpp:116-119 | appending a disjoint duplicate-free list keeps the whole duplicate-free |
| Sequences.RemoveFirstKeepsSorted | making_3d_games_book/vectors_physics/src/Game.cpp:189-192 | erasing any element keeps a sorted list sorted |
| Engine.UpdateCalls | making_3d_games_book/basic_with_components/src/Actor.cpp:33-37 | one Update hook per component, in list order |
| Engine.InputCalls | making_3d_games_book/basic_with_components/src/Actor.cpp:41-43 | one ProcessInput hook per component, in list order |
| Engine.FirstHit | making_3d_games_book/vectors_physics/src/Laser.cpp:30-37 | the scan stops at the first asteroid that intersects the laser; none before it does |
| Engine.DeadOf | making_3d_games_book/vectors_physics/src/Game.cpp:121-127 | the collected list holds exactly the dead actors of the live list |
| Engine.DeadOfNoDup | making_3d_games_book/vectors_physics/src/Game.cpp:121-127 | collecting from a duplicate-free list gives a duplicate-free list, so no actor is deleted twice |
| Engine.CachedLoadGrows | making_3d_games_book/vectors_physics/src/Game.cpp:227-253 | the texture map only grows, by the requested name at most, never changes an entry, and a name is cached exactly when a texture is returned |
| Engine.CachedLoadHit | making_3d_games_book/vectors_physics/src/Game.cpp:230-232 | once a texture has been returned, later lookups return it again without loading and leave the map alone |
| Engine.Component.constructor | making_3d_games_book/vectors_physics/src/Component.cpp:5-9 | the component records owner and order and sits in the owner's list at its sorted slot |
| Engine.Component.Destroy | making_3d_games_book/vectors_physics/src/Component.cpp:11 | the destructor erases the component from its owner's list, so it no longer appears there |
| Engine.ComponentRoundTrip | making_3d_games_book/2d_graphics/src/Component.cpp:5-11 | constructing then destroying a component leaves the owner's list as it was |
| Engine.Actor.constructor | making_3d_games_book/opengl/src/Actor.cpp:8-12 | a new actor is active, scale 1, rotation 0, transform dirty, no components, and is registered through AddActor (pending during an update pass, live otherwise) |
| Engine.Actor.AddComponent | making_3d_games_book/basic_with_components/src/Actor.cpp:51-64 | the list becomes the sorted stable insertion of the component |
| Engine.Actor.RemoveComponent | making_3d_games_book/basic_with_components/src/Actor.cpp:66-71 | the list loses the first occurrence of the component, or is unchanged when absent |
| Engine.Actor.SetState | making_3d_games_book/opengl/include/Actor.hpp:42 | any state is stored, with no transition check (EDead is not terminal) |
| Engine.Actor.SetPosition | making_3d_games_book/opengl/include/Actor.hpp:32 | stores the position |
| Engine.Actor.SetRotation | making_3d_games_book/opengl/include/Actor.hpp:36 | stores the rotation |
| Engine.Actor.SetScale | making_3d_games_book/opengl/include/Actor.hpp:34 | stores the scale |
| Engine.Actor.ComputeWorldTransform | making_3d_games_book/opengl/src/Actor.cpp:73-75 | recomputes only while the dirty flag is set and clears it, so an actor's transform is computed at most once |
| Engine.Actor.UpdateComponents | making_3d_games_book/basic_with_components/src/Actor.cpp:33-37 | every component's Update hook runs, in list order |
| Engine.Actor.LaserUpdateActor | making_3d_games_book/vectors_physics/src/Laser.cpp:24-39 | the death timer drops by dt; a spent laser dies without a collision check; otherwise the first intersecting asteroid dies with it and no other asteroid changes |
| Engine.Actor.Update | making_3d_games_book/basic_with_components/src/Actor.cpp:24-29 | nothing happens unless active; otherwise the component hooks run in order, then the actor hook once (Ship cooldown −= dt; Laser step) |
| Engine.Actor.InputComponents | making_3d_games_book/basic_with_components/src/Actor.cpp:41-43 | every component's ProcessInput hook runs, in list order |
| Engine.Actor.ProcessInput | making_3d_games_book/vectors_physics/src/Ship.cpp:24-33 | gated on active: component hooks, then the actor hook; a ship with Space held and cooldown ≤ 0 spawns exactly one laser at its position and rotation into the pending list and resets the cooldown to 0.5 |
| Engine.Actor.DeleteComponents | making_3d_games_book/basic_with_components/src/Actor.cpp:19-21 | deleting from the back empties the list, because each component deregisters itself |
| Engine.Actor.Destroy | making_3d_games_book/opengl/src/Actor.cpp:14-22 | the destructor swap-removes the actor from both game lists (and the asteroid list), then leaves it with no components |
| Engine.World.constructor | making_3d_games_book/vectors_physics/src/Game.cpp:16-18 | a new game is running, not updating, with empty lists |
| Engine.World.AddActor | making_3d_games_book/vectors_physics/src/Game.cpp:150-156 | appends to the pending list exactly when an update pass is running, to the live list otherwise |
| Engine.World.RemoveActor | 2d_graphics/src/Game.cpp:141-157 | swap-and-pop from the pending and the live list; others are kept, and an absent actor is a no-op |
| Engine.World.AddAsteroid | making_3d_games_book/vectors_physics/src/Game.cpp:194-196 | appends the asteroid |
| Engine.World.AddSprite | making_3d_games_book/vectors_physics/src/Game.cpp:176-187 | sorted stable insertion by draw order |
| Engine.World.RemoveSprite | making_3d_games_book/vectors_physics/src/Game.cpp:189-192 | unguarded erase: requires membership and removes exactly that sprite |
| Engine.World.RemoveSpriteGuarded | 2d_graphics/src/Game.cpp:172-177 | guarded erase: an absent sprite leaves the list unchanged |
| Engine.World.UnloadData | making_3d_games_book/vectors_physics/src/Game.cpp:216-225 | deleting the back actor until empty terminates, destroys every live actor, and clears the texture map |
| Engine.World.UnloadDataPopping | 2d_graphics/src/Game.cpp:65-70 | delete-back then pop runs exactly once per live actor and empties the list |
| Engine.World.GetTexture | making_3d_games_book/vectors_physics/src/Game.cpp:227-253 | a cached name returns its texture without loading; a failed load returns null and caches nothing; a successful load is cached |
| Engine.World.ProcessInput | making_3d_games_book/vectors_physics/src/Game.cpp:68-89 | quit or Escape stops the game; every live actor processes input under the updating flag; spawned lasers land in the pending list only |
| Engine.World.InputActors | making_3d_games_book/vectors_physics/src/Game.cpp:84-88 | each live actor takes its input step; the live list is unchanged and the pending list only grows |
| Engine.World.UpdateGame | making_3d_games_book/vectors_physics/src/Game.cpp:91-133 | after a frame the pending list is empty and the live list holds exactly the old live and pending actors that are not dead; dead ones are destroyed, and asteroids killed this frame leave the asteroid list |
| Engine.World.UpdateActors | making_3d_games_book/vectors_physics/src/Game.cpp:108-113 | every live actor has taken its update step; pending actors are at most killed |
| Engine.World.UpdateTurn | making_3d_games_book/vectors_physics/src/Game.cpp:110-112 | one actor's update leaves every other actor at most killed |
| Engine.World.MergePending | making_3d_games_book/opengl/src/Game.cpp:112-117 | pending actors are appended to the live list in order (with their transform computed in the opengl variant) and the pending list is cleared |
| Engine.World.ReapDead | making_3d_games_book/vectors_physics/src/Game.cpp:121-132 | after the reap no dead actor remains in the live list, and each dead actor is destroyed |
| Engine.World.DeleteDead | making_3d_games_book/vectors_physics/src/Game.cpp:130-132 | deleting the collected actors removes exactly them from the live and asteroid lists |
| Engine.World.DeleteOne | making_3d_games_book/vectors_physics/src/Game.cpp:131 | deleting one actor swap-removes it and nothing else |
| Engine.World.CollectDead | making_3d_games_book/vectors_physics/src/Game.cpp:121-127 | the collected list is the dead actors of the live list, in order |
| Engine.World.RemoveAsteroid | making_3d_games_book/vectors_physics/src/Game.cpp:198-203 | erases the asteroid if present, else no-op |
| Engine.BodyOrder | making_3d_games_book/vectors_physics/src/Laser.cpp:10-22 | sprite (100), move (10) and circle (100) end up ordered move, sprite, circle |
| Engine.ShipOrder | making_3d_games_book/vectors_physics/src/Ship.cpp:9-20 | the ship's input component (order 10) comes before its sprite |
| Engine.NewSprite | making_3d_games_book/vectors_physics/src/Ship.cpp:10-11 | a sprite joins its owner at its sorted slot, with the cached texture |
| Engine.AttachBody | making_3d_games_book/opengl/src/Asteroid.cpp:18-25 | the actor owns sprite, move (given speed) and circle (given radius), in update order |
| Engine.AttachShipBody | making_3d_games_book/vectors_physics/src/Ship.cpp:10-19 | the ship owns a draw-order-150 sprite and an input component with forward speed 300 |
| Engine.NewShip | making_3d_games_book/vectors_physics/src/Ship.cpp:9-20 | a new ship is active with cooldown 0 and is registered through AddActor |
| Engine.NewLaser | making_3d_games_book/vectors_physics/src/Laser.cpp:10-22 | a new laser has death timer 1.0, forward speed 800 and radius 11 |
| Engine.PlacedActor | making_3d_games_book/vectors_physics/src/Ship.cpp:27-29 | a new actor placed at the given position and rotation |
| Engine.AimedLaser | making_3d_games_book/vectors_physics/src/Ship.cpp:27-29 | the laser copies the ship's position and rotation |
| Engine.NewAsteroid | making_3d_games_book/opengl/src/Asteroid.cpp:11-28 | a new asteroid at the drawn position and rotation, speed 150, radius 40, in both the actor list and the asteroid list |
| Engine.SpawnAsteroids | making_3d_games_book/vectors_physics/src/Game.cpp:210-213 | each draw adds one fresh asteroid, appended in order to the asteroid list |
| Engine.LoadData | making_3d_games_book/vectors_physics/src/Game.cpp:205-214 | the ship at (512, 384) facing π/2, then 20 asteroids, all registered in creation order |
| AIStates.AIState.constructor | AI/include/AIState.hpp:7-15 | a state carries the name GetName reports, under which it is registered |
| AIStates.Lookup | making_3d_games_book/AI/src/AIComponent.cpp:23-31 | a name is found exactly when registered, and then gives its state |
| AIStates.AIComponent.constructor | making_3d_games_book/AI/src/AIComponent.cpp:8-9 | a new component has no current state and an empty map |
| AIStates.AIComponent.Update | making_3d_games_book/AI/src/AIComponent.cpp:11-15 | no-op without a current state; otherwise the state's Update runs once |
| AIStates.AIComponent.ChangeState | making_3d_games_book/AI/src/AIComponent.cpp:17-32 | the old state exits first; the new current state is the registered one (OnEnter once) or null (no OnEnter) |
| AIStates.AIComponent.RegisterState | making_3d_games_book/AI/src/AIComponent.cpp:34-36 | emplace: adds the state only when its name is new |
| AIStates.FirstRegistrationWins | making_3d_games_book/AI/src/AIComponent.cpp:34-36 | a later state with the same name never replaces the first |
| AIStates.ChangeToSelf | making_3d_games_book/AI/src/AIComponent.cpp:17-27 | changing to the current state's name exits it, then enters it again |
| AIStates.ChangeToUnknown | making_3d_games_book/AI/src/AIComponent.cpp:28-31 | an unknown name exits the current state (if any) and enters nothing |
| RunGame.RunComponent.constructor | beggining_game_programming_third_edition/run/src/GameObject.cpp:14-22 | a component carries its two dispatch flags, mIsUpdate and mIsGraphics |
| RunGame.UpdateHooksSnoc | beggining_game_programming_third_edition/run/src/GameObject.cpp:12-18 | one more component adds exactly its own Updatefn call, at the end |
| RunGame.UpdateHooksAt | beggining_game_programming_third_edition/run/src/GameObject.cpp:12-18 | the i-th call of an Updatefn pass is the i-th component's Updatefn with the same elapsed time |
| RunGame.DrawHooksAt | beggining_game_programming_third_edition/run/src/GameObject.cpp:20-26 | the i-th call of a Draw pass is the i-th component's Draw |
| RunGame.DrawHooksSnoc | beggining_game_programming_third_edition/run/src/GameObject.cpp:20-26 | one more component adds exactly its own Draw call, at the end |
| RunGame.FlaggedSnoc | beggining_game_programming_third_edition/run/src/GameObject.cpp:12-18 | the filtered list of a longer list extends by the new component exactly when it carries the flag |
| RunGame.FlaggedExactly | beggining_game_programming_third_edition/run/src/GameObject.cpp:12-26 | the filtered list holds exactly the flagged components, each as often as in the list |
| RunGame.FlaggedMembers | beggining_game_programming_third_edition/run/src/GameObject.cpp:12-26 | a component is dispatched to exactly when it is in the list and carries the flag |
| RunGame.FlaggedNone | beggining_game_programming_third_edition/run/src/GameObject.cpp:12-26 | with no flagged component nothing is dispatched |
| RunGame.GameObject.AddComponent | beggining_game_programming_third_edition/run/src/GameObject.cpp:7-10 | appends at the end |
| RunGame.GameObject.Updatefn | beggining_game_programming_third_edition/run/src/GameObject.cpp:12-18 | Updatefn runs, in insertion order, on exactly the components with mIsUpdate; the list is unchanged |
| RunGame.GameObject.Draw | beggining_game_programming_third_edition/run/src/GameObject.cpp:20-26 | Draw runs, in insertion order, on exactly the components with mIsGraphics; the list is unchanged |
| RunGame.GameObject.constructor | beggining_game_programming_third_edition/run/include/GameObject.h:9-11 | a new game object has no components and has dispatched nothing |
| RunGame.Canvas.constructor | beggining_game_programming_third_edition/run/src/main.cpp:13 | the shared vertex array starts empty |
| RunGame.Canvas.Grow | beggining_game_programming_third_edition/run/src/PlayerGraphics.cpp:11 | resize grows the vertex array, keeps old vertices and adds blank ones |
| RunGame.Canvas.SetTexCoords | beggining_game_programming_third_edition/run/src/PlayerGraphics.cpp:13-24 | writes one vertex's texture coordinates and nothing else |
| RunGame.FloatRect.constructor | beggining_game_programming_third_edition/run/src/LevelUpdate.cpp:29-36 | a rectangle holds the given left, top, width and height |
| RunGame.FloatRect.Set | beggining_game_programming_third_edition/run/src/LevelUpdate.cpp:29-36 | overwrites all four of left, top, width and height |
| RunGame.PlayerGraphics.constructor | beggining_game_programming_third_edition/run/include/PlayerGraphics.h:10-11 | before Assemble the start index is the unset marker −999 and no position is shared |
| RunGame.PlayerGraphics.Assemble | beggining_game_programming_third_edition/run/src/PlayerGraphics.cpp:4-25 | the start index is the old vertex count; the canvas grows by 4; old vertices are untouched; the new ones get (px,py), (2px,py), (2px,2py), (px,2py) |
| RunGame.Gap | beggining_game_programming_third_edition/run/src/LevelUpdate.cpp:83-94 | the gap is in [20,40] when the new platform is lower and in [0,20] otherwise |
| RunGame.PlaceAfter | beggining_game_programming_third_edition/run/src/LevelUpdate.cpp:77-99 | the recycled platform goes past the previous one's right edge plus the gap, at its height ± the drawn offset, with the drawn size |
| RunGame.LevelUpdate.constructor | beggining_game_programming_third_edition/run/include/LevelUpdate.h:9-18 | starts unpaused, game over, with no platforms |
| RunGame.LevelUpdate.Assemble | beggining_game_programming_third_edition/run/src/LevelUpdate.cpp:6-12 | records the player's position rectangle |
| RunGame.LevelUpdate.AddPlatformPosition | beggining_game_programming_third_edition/run/src/LevelUpdate.cpp:18-21 | appends and increments the count, which stays equal to the list length |
| RunGame.LevelUpdate.PositionLevelAtStart | beggining_game_programming_third_edition/run/src/LevelUpdate.cpp:25-48 | every platform at x = 100 + startOffset, y 0, 100×20; the player at (x+2, −22); relative index N−1, next index 0 |
| RunGame.LevelUpdate.RecyclePlatform | beggining_game_programming_third_edition/run/src/LevelUpdate.cpp:76-114 | the recycled platform (the old next index) is placed after the old relative platform as PlaceAfter states; the relative index becomes the old next index; next advances and wraps at N; the interval becomes width/90 and the timer resets |
| RunGame.LevelUpdate.IsLaggingBehind | beggining_game_programming_third_edition/run/src/LevelUpdate.cpp:116-123 | the player lags exactly when no platform is left of it |
| RunGame.LevelUpdate.Restart | beggining_game_programming_third_edition/run/src/LevelUpdate.cpp:66-71 | a game-over restart clears the flag, zeroes camera time and timer, sets the relative index to N−1 and next to 0, puts every platform at its start position from the old first platform, and the player 2 units right of that and at height −22 with its size kept |
| RunGame.LevelUpdate.Updatefn | beggining_game_programming_third_edition/run/src/LevelUpdate.cpp:64-132 | paused: nothing changes; otherwise the camera time and timer advance, a platform is recycled exactly when the timer exceeds the interval and is then placed after the relative platform, every other platform and the player keep their rectangles (after a game over: sit at the start positions), the indices stay a ring in [0,N), and the game pauses exactly when the player lags behind |
| RunGame.LevelUpdate.Advance | beggining_game_programming_third_edition/run/src/LevelUpdate.cpp:75-130 | after any restart: camera time and timer advance by the elapsed time; a platform is recycled exactly when the timer passes the interval, placed after the old relative platform, with every other platform kept; the game pauses and ends exactly when the player lags behind |
| RunGame.LevelUpdate.Elapse | beggining_game_programming_third_edition/run/src/LevelUpdate.cpp:75-114 | camera time and timer advance; past the interval the next platform is recycled after the old relative one, the interval becomes its width / 90 and the timer restarts; every other platform is kept |
| ZombieArena.Clamp | beggining_game_programming_third_edition/zombie-arena/src/player.cpp:107-112 | std::clamp: the result lies in [lo, hi], equals v inside and the nearer bound outside |
| ZombieArena.WalkInsideWalls | beggining_game_programming_third_edition/zombie-arena/src/player.cpp:95-112 | after a move the player lies between the walls, one tile in from the arena edge; without net movement it stays put |
| ZombieArena.WalkAxis | beggining_game_programming_third_edition/zombie-arena/src/player.cpp:96-112 | the sequential ifs and the clamp compute the per-axis walk |
| ZombieArena.Player.constructor | beggining_game_programming_third_edition/zombie-arena/src/player.cpp:8-14 | no key pressed, health and max health 100, start speed, last hit 0 |
| ZombieArena.Player.Spawn | beggining_game_programming_third_edition/zombie-arena/src/player.cpp:32-44 | the player is placed at the arena centre |
| ZombieArena.SpawnInsideWalls | beggining_game_programming_third_edition/zombie-arena/src/player.cpp:38-39 | the arena centre lies inside the walls |
| ZombieArena.Player.ResetPlayerStats | beggining_game_programming_third_edition/zombie-arena/src/player.cpp:46-50 | speed, health and max health return to their start values |
| ZombieArena.Player.Hit | beggining_game_programming_third_edition/zombie-arena/src/player.cpp:52-59 | a hit lands exactly when more than 200 ms have passed since the last one, and then costs 10 health |
| ZombieArena.Player.Move | beggining_game_programming_third_edition/zombie-arena/src/player.cpp:61-76 | sets that direction's flag and no other |
| ZombieArena.Player.Stop | beggining_game_programming_third_edition/zombie-arena/src/player.cpp:78-93 | clears that direction's flag and no other |
| ZombieArena.Player.Update | beggining_game_programming_third_edition/zombie-arena/src/player.cpp:95-114 | the position walks per pressed keys and stays inside the walls |
| ZombieArena.Player.UpgradeSpeed | beggining_game_programming_third_edition/zombie-arena/src/player.cpp:122 | speed grows by a fifth of the start speed |
| ZombieArena.Player.UpgradeMaxHealth | beggining_game_programming_third_edition/zombie-arena/src/player.cpp:124-126 | max health grows by 20 |
| ZombieArena.Player.IncreaseHealthLevel | beggining_game_programming_third_edition/zombie-arena/src/player.cpp:128-133 | health grows by the amount, capped at max health |
| ZombieArena.StatsOf | beggining_game_programming_third_edition/zombie-arena/src/zombie.cpp:23-26 | each zombie type has positive speed and at least 1 health |
| ZombieArena.SpeedModifier | beggining_game_programming_third_edition/zombie-arena/src/zombie.cpp:53-55 | the speed modifier (rand() % 30 + 70 + 1) / 100 lies in [0.71, 1.0] |
| ZombieArena.ChaseSteps | beggining_game_programming_third_edition/zombie-arena/src/zombie.cpp:64-84 | per axis a zombie moves by at most one step, never away from the player when it starts level with it, and approaching from behind never passes the player |
| ZombieArena.ChaseMayPassBackwards | beggining_game_programming_third_edition/zombie-arena/src/zombie.cpp:72-84 | a zombie just ahead of the player can step back past it: the two opposite tests both fire |
| ZombieArena.Zombie.constructor | beggining_game_programming_third_edition/zombie-arena/src/zombie.cpp:6-8 | a new zombie is dead, at the origin, with no speed or health |
| ZombieArena.Zombie.Hit | beggining_game_programming_third_edition/zombie-arena/src/zombie.cpp:10-21 | health drops by one; the zombie dies, and the hit reports a kill, exactly when health goes below zero |
| ZombieArena.Zombie.Spawn | beggining_game_programming_third_edition/zombie-arena/src/zombie.cpp:28-62 | alive at the start point with its type's health and its type's speed scaled into [71%, 100%] |
| ZombieArena.Zombie.Update | beggining_game_programming_third_edition/zombie-arena/src/zombie.cpp:64-86 | the zombie takes one chase step per axis towards the player |
| ZombieArena.DiesOnHit | beggining_game_programming_third_edition/zombie-arena/src/zombie.cpp:10-21 | after k hits a zombie is dead exactly when k exceeds the hits its type survives |
| ZombieArena.Bullet.constructor | beggining_game_programming_third_edition/zombie-arena/src/bullet.cpp:3-5 | a new bullet is not in flight |
| ZombieArena.Bullet.Stop | beggining_game_programming_third_edition/zombie-arena/src/bullet.cpp:49 | the bullet is no longer in flight |
| ZombieArena.Bullet.Shoot | beggining_game_programming_third_edition/zombie-arena/src/bullet.cpp:7-33 | in flight from the start point with no distance travelled, range 1000; a shot at its own start point stays put; with a positive length the velocity is the direction times the positive factor 1000/length, so its squared length is 1000² |
| ZombieArena.Bullet.Update | beggining_game_programming_third_edition/zombie-arena/src/bullet.cpp:35-47 | idle bullets do nothing; a flying one moves by velocity·dt, adds the length √|velocity·dt|² to its distance, and stays in flight exactly while that distance is below the range |
| ZombieArena.Aims | beggining_game_programming_third_edition/zombie-arena/src/bullet.cpp:16-28 | the velocity is parallel to the aim direction, and zero for a zero direction |
| ZombieArena.AimsAtSpeed | beggining_game_programming_third_edition/zombie-arena/src/bullet.cpp:21-28 | for a true positive length, the aimed velocity is the direction scaled by the positive factor 1000/length and has squared length 1000² |
| ZombieArena.TextureRegistry.constructor | beggining_game_programming_third_edition/zombie-arena/src/textureHolder.cpp:5-8 | the singleton slot starts empty |
| ZombieArena.TextureHolder.constructor | beggining_game_programming_third_edition/zombie-arena/src/textureHolder.cpp:10-16 | the first holder becomes the singleton, with an empty map |
| ZombieArena.TextureHolder.GetTexture | beggining_game_programming_third_edition/zombie-arena/src/textureHolder.cpp:18-46 | a cached name returns its texture with no load; a new name is loaded once and cached even when the load fails (empty texture) |
| ZombieArena.TileRow | beggining_game_programming_third_edition/zombie-arena/src/arena.cpp:54-57 | the tile row is one of the three texture rows |
| ZombieArena.WriteQuad | beggining_game_programming_third_edition/zombie-arena/src/arena.cpp:45-69 | writes six vertices after the filled prefix |
| ZombieArena.ColumnLength | beggining_game_programming_third_edition/zombie-arena/src/arena.cpp:31-72 | a column of h cells has 6h vertices |
| ZombieArena.GridLength | beggining_game_programming_third_edition/zombie-arena/src/arena.cpp:25 | the grid has width·height·6 vertices, matching the resize |
| ZombieArena.GridGrows | beggining_game_programming_third_edition/zombie-arena/src/arena.cpp:30 | more columns never shorten the grid |
| ZombieArena.CellFits | beggining_game_programming_third_edition/zombie-arena/src/arena.cpp:45-51 | every cell's six writes stay inside the resized array |
| ZombieArena.GridPrefix | beggining_game_programming_third_edition/zombie-arena/src/arena.cpp:30-73 | the grid of fewer columns is a prefix of the full grid |
| ZombieArena.ColumnPrefix | beggining_game_programming_third_edition/zombie-arena/src/arena.cpp:31-72 | a shorter column is a prefix of the longer |
| ZombieArena.GridCell | beggining_game_programming_third_edition/zombie-arena/src/arena.cpp:29-73 | cell (w, h) occupies vertices 6(w·H+h) .. +6 and holds its quad |
| ZombieArena.CellStart | beggining_game_programming_third_edition/zombie-arena/src/arena.cpp:29-73 | the cells before cell (w, h), column by column, take 6(w·H+h) vertices, and the next six are that cell's quad |
| ZombieArena.FillColumn | beggining_game_programming_third_edition/zombie-arena/src/arena.cpp:31-72 | the inner loop fills one more column of the grid |
| ZombieArena.CreateBackground | beggining_game_programming_third_edition/zombie-arena/src/arena.cpp:9-76 | returns tile size 50 and an array of (W/50)(H/50)·6 vertices equal to the grid layout |
| ZombieArena.CellQuadLayout | beggining_game_programming_third_edition/zombie-arena/src/arena.cpp:33-69 | two triangles share the diagonal corners, positions are the tile corners, texture coordinates lie in the tile's row |
| ZombieArena.BorderIsWall | beggining_game_programming_third_edition/zombie-arena/src/arena.cpp:54-56 | border cells always use the wall row |
| ZombieArena.InsetOf | beggining_game_programming_third_edition/zombie-arena/src/arena.cpp:89-92 | the spawn box is the arena inset by 20 on each side |
| ZombieArena.SpawnOnInsetEdge | beggining_game_programming_third_edition/zombie-arena/src/arena.cpp:97-119 | each zombie spawns on the chosen edge of the inset box, inside the box |
| ZombieArena.CreateHorde | beggining_game_programming_third_edition/zombie-arena/src/arena.cpp:78-133 | numZombies fresh, distinct, live zombies, each spawned from its draw |
| ZombieArena.AfterEnterAsWritten | beggining_game_programming_third_edition/zombie-arena/src/game.cpp:234-248 | the three sequential Enter tests as written |
| ZombieArena.EnterCannotPauseAsWritten | beggining_game_programming_third_edition/zombie-arena/src/game.cpp:234-243 | as written, Enter while playing leaves the game playing: it can never pause |
| ZombieArena.EnterToggles | beggining_game_programming_third_edition/zombie-arena/src/game.cpp:234-248 | corrected: Enter toggles Playing/Paused and moves GameOver to LevelingUp; it differs from the as-written rule only while playing |
| ZombieArena.NewWaveTakesTwoKeys | beggining_game_programming_third_edition/zombie-arena/src/game.cpp:245-248 | from game over, Enter leads to levelling up, and only a digit 1–6 then starts the wave |
| ZombieArena.NextSlot | beggining_game_programming_third_edition/zombie-arena/src/game.cpp:296-299 | the bullet index advances and wraps after 99 |
| ZombieArena.AllAlive | beggining_game_programming_third_edition/zombie-arena/src/game.cpp:342-344 | a freshly spawned horde has as many live zombies as zombies |
| ZombieArena.Game.constructor | beggining_game_programming_third_edition/zombie-arena/src/game.cpp:7-21 | game over, 24 spare, 6 in clip, clip 6, fire rate 1, zero scores and wave, no bullet in flight |
| ZombieArena.Game.HandleStateKeys | beggining_game_programming_third_edition/zombie-arena/src/game.cpp:230-248 | Escape closes the window; Enter applies the corrected state toggle; unpausing restarts the clock |
| ZombieArena.Game.Steer | beggining_game_programming_third_edition/zombie-arena/src/game.cpp:251-273 | after a key press while playing exactly the pressed direction's flag is set |
| ZombieArena.Game.PressMovementKeys | beggining_game_programming_third_edition/zombie-arena/src/game.cpp:251-273 | each of W, S, A, D sets its own direction's flag when pressed and clears it otherwise, so exactly the pressed direction is held |
| ZombieArena.Game.Reload | beggining_game_programming_third_edition/zombie-arena/src/game.cpp:275-285 | a full clip when spare ammo suffices, else all spare, else nothing; no spare round is created or lost; rounds left in the clip are discarded; the result is ClipAfterReload/SpareAfterReload of the old counts |
| ZombieArena.ReloadKeepsRounds | beggining_game_programming_third_edition/zombie-arena/src/game.cpp:275-285 | a reload never makes the spare count negative or larger, never fills the clip beyond a clip's worth unless it held more, and with spare rounds left keeps every one of them, with at least one in the clip |
| ZombieArena.Game.Fire | beggining_game_programming_third_edition/zombie-arena/src/game.cpp:287-303 | fires only when the button is down, the fire interval has passed and the clip is not empty: one bullet shot from the player at the mouse, the ring index advances, the clip loses one |
| ZombieArena.Game.Trigger | beggining_game_programming_third_edition/zombie-arena/src/game.cpp:275-303 | R reloads first, then the fire rule runs on the resulting clip (Triggered): the ammunition and the fired bullet end as the reload and fire rules say, judged from the counts before the key |
| ZombieArena.Game.StartWave | beggining_game_programming_third_edition/zombie-arena/src/game.cpp:331-348 | a 500×500 arena, its background, the player at its centre, 10 fresh live zombies on the inset edges spawned from the draws, the clock restarted |
| ZombieArena.Game.BuildArena | beggining_game_programming_third_edition/zombie-arena/src/game.cpp:332-340 | builds the arena and background and spawns the player in it |
| ZombieArena.Game.BuildHorde | beggining_game_programming_third_edition/zombie-arena/src/game.cpp:342-344 | spawns the 10-zombie horde with all of them alive |
| ZombieArena.Game.OnKeyPress | beggining_game_programming_third_edition/zombie-arena/src/game.cpp:229-350 | the state follows the key rules and Escape closes the window; in the state the Enter rule leaves (including Paused → Playing): while playing, the steering flags follow the key, R reloads as Reload does and the fire rule then shoots or not as Fire does; on the level-up screen a digit starts a wave as StartWave does; otherwise ammunition, flags, arena and horde are unchanged and the clock restarts only on resuming |
| ZombieArena.Game.StateKeys | beggining_game_programming_third_edition/zombie-arena/src/game.cpp:250-349 | from Playing the Playing block's effect (PlayedKeys); from LevelingUp with a digit the new wave (WaveStarted); ammunition, flags, arena, horde and clock are untouched by the block that does not run |
| ZombieArena.Game.PlayingKeys | beggining_game_programming_third_edition/zombie-arena/src/game.cpp:250-304 | steering flags follow the key; R reloads as Reload does; the fire rule, judged on the reloaded clip, shoots the current slot's bullet at the mouse and advances the ring and spends a round, or leaves slot, clip, shot time and bullet unchanged |
| ZombieArena.Game.LevelUpKeys | beggining_game_programming_third_edition/zombie-arena/src/game.cpp:306-349 | a digit 1–6 returns to play and starts a new wave as StartWave does; any other key changes nothing |
| ZombieArena.Game.UpdateZombies | beggining_game_programming_third_edition/zombie-arena/src/game.cpp:141-145 | every live zombie chases the player; dead ones stay put |
| ZombieArena.Game.UpdateBullets | beggining_game_programming_third_edition/zombie-arena/src/game.cpp:147-151 | every bullet flies one step as Bullet.Update states, distance included |
| ZombieArena.Game.Update | beggining_game_programming_third_edition/zombie-arena/src/game.cpp:126-176 | nothing happens unless playing; otherwise the clock and mouse are read, the player walks inside the walls, every zombie reaches its chase destination and every bullet travels (Moved), and for the frame's kills the score rises by 10 each, the live count falls by as many, the high score is the maximum of the old one and the score, the last kill opens the level-up screen (Scored), and the HUD counter ticks |
| ZombieArena.Game.PlayFrame | beggining_game_programming_third_edition/zombie-arena/src/game.cpp:128-174 | the clock restarts and the play time grows by the elapsed milliseconds; the mouse is read; the frame moves everything by that many seconds (Moved) and scores its kills (Scored); the HUD counter ticks |
| ZombieArena.Game.Tick | beggining_game_programming_third_edition/zombie-arena/src/game.cpp:128-135 | the clock restarts, the game time grows by the elapsed time, and the mouse is read |
| ZombieArena.Game.Resolve | beggining_game_programming_third_edition/zombie-arena/src/game.cpp:153-174 | the horde ends as the bullets' passes, taken in slot order from the bullets and horde as they were, leave it (Volley); for the returned kill count: the score rises by 10 per kill, the live count falls by as many, the high score is the maximum of the old one and the score, the last kill opens the level-up screen; the HUD counter ticks |
| ZombieArena.Game.Step | beggining_game_programming_third_edition/zombie-arena/src/game.cpp:137-174 | the moving part (Moved) followed by the scoring part (Scored) and the HUD tick |
| ZombieArena.Game.Move | beggining_game_programming_third_edition/zombie-arena/src/game.cpp:137-151 | the player walks each axis as Walk states and stays inside the walls, every live zombie reaches Pursue's destination towards the player's new position and the dead stay put, every bullet flies as Bullet.Update states |
| ZombieArena.Game.UpdateHUD | beggining_game_programming_third_edition/zombie-arena/src/game.cpp:100-124 | the frame counter advances and resets once it exceeds the interval |
| ZombieArena.Game.Collide | beggining_game_programming_third_edition/zombie-arena/src/game.cpp:153-172 | the horde ends as the passes of bullets 0 to 99, each over the horde the earlier passes left, leave it (Volley of the bullets' and the horde's starting states); each kill adds 10 points and removes one live zombie; the high score is the maximum; the last kill starts levelling up |
| ZombieArena.Game.CollideBullet | beggining_game_programming_third_edition/zombie-arena/src/game.cpp:154-171 | one bullet against the horde: only while in flight does it strike, and then only the first live zombie it overlaps (Fly); that zombie takes one hit and every other zombie is unchanged; the bullet stays in flight exactly when it struck none; at most one kill, none when it struck none; 10 points per kill as in Collide |
| ZombieArena.Game.CollideSlot | beggining_game_programming_third_edition/zombie-arena/src/game.cpp:153-171 | bullet i's pass over the horde the earlier passes left: the horde takes the next Volley step, bullet i stays in flight only when its pass struck nothing, and no other bullet's flag changes |
| ZombieArena.FirstTarget | beggining_game_programming_third_edition/zombie-arena/src/game.cpp:154-157 | the zombie loop's first match: no live target before it is overlapped, and the one found (if any) is live and overlapped |
| ZombieArena.FlyStrikesOne | beggining_game_programming_third_edition/zombie-arena/src/game.cpp:154-159 | a pass strikes at most one target, the first live one it overlaps and only when the bullet is in flight; that target loses one health and dies below zero; no other target and no position changes; the live set loses at most that target |
| ZombieArena.VolleyKeeps | beggining_game_programming_third_edition/zombie-arena/src/game.cpp:153-172 | over the whole loop no zombie moves, a dead zombie is never struck, and each zombie loses at most one health per bullet |
| ZombieArena.Game.Strike | beggining_game_programming_third_edition/zombie-arena/src/game.cpp:158-168 | a strike stops the bullet and applies Zombie::Hit to the zombie (HitTarget); a kill scores 10, raises the high score to match, counts one zombie fewer and, for the last one, opens the level-up screen |
| ZombieArena.Game.CountKill | beggining_game_programming_third_edition/zombie-arena/src/game.cpp:160-167 | +10 score, high score updated, one fewer alive, levelling up at zero |
| ZombieArena.HitInHorde | beggining_game_programming_third_edition/zombie-arena/src/game.cpp:159 | the zombie loses one health and dies below zero (HitTarget); a kill removes exactly that zombie from the live set |
| ZombieArena.ChaseIfAlive | beggining_game_programming_third_edition/zombie-arena/src/game.cpp:142-144 | a live zombie chases, a dead one stays put |
| ZombieArena.HudCycle | beggining_game_programming_third_edition/zombie-arena/src/game.cpp:103-123 | from zero the counter counts frames and wraps to 0 on frame 1001 |
| Timber.SpawnOdds | beggining_game_programming_third_edition/timber/src/branch.cpp:33-45 | roll 0 gives a left branch, roll 1 a right one, any other roll none |
| Timber.Shifted | beggining_game_programming_third_edition/timber/src/branch.cpp:26-46 | six slots; the new branch is on top and every other slot holds the one above it |
| Timber.BranchesDescend | beggining_game_programming_third_edition/timber/src/branch.cpp:26-46 | after k updates, the branch spawned j updates ago sits in slot j and the old column is pushed down k slots |
| Timber.Branch.constructor | beggining_game_programming_third_edition/timber/src/branch.cpp:6-14 | a new branch sprite ends at (20, 20) |
| Timber.Branches.constructor | beggining_game_programming_third_edition/timber/src/branch.cpp:17-18 | six zero-initialised slots, each holding its own fresh branch |
| Timber.Branches.CreateBranches | beggining_game_programming_third_edition/timber/src/branch.cpp:20-24 | each slot gets its own fresh branch at (20, 20) |
| Timber.Branches.UpdateBranches | beggining_game_programming_third_edition/timber/src/branch.cpp:26-46 | the in-place shift plus spawn produces exactly the shifted column |
| Timber.DriftMonotone | beggining_game_programming_third_edition/timber/src/actor.cpp:39-49 | a left drift never increases x, a right drift never decreases it |
| Timber.StaysPast | beggining_game_programming_third_edition/timber/src/actor.cpp:51-54 | an actor past its restart line and drifting towards it stays past it |
| Timber.Remainder | beggining_game_programming_third_edition/timber/src/actor.cpp:19-23 | C++ % on a non-negative value lies in [0, abs(m)−1] and is a true remainder |
| Timber.Actor.constructor | beggining_game_programming_third_edition/timber/src/actor.cpp:5-13 | inactive, speed 0, at the start position |
| Timber.Actor.InitializeWithOverflow | beggining_game_programming_third_edition/timber/src/actor.cpp:15-26 | active; speed in [overflow, overflow+top−1], height rand % max + overflow, at (x, height) |
| Timber.Actor.Initialize | beggining_game_programming_third_edition/timber/src/actor.cpp:28-37 | active; speed in [0, top−1], height rand % max − overflow, at (x, height) |
| Timber.Actor.Move | beggining_game_programming_third_edition/timber/src/actor.cpp:39-55 | x drifts by speed·dt in the given direction, y is kept, and the actor retires once past its restart line |
| Pong.ReboundKeepsMagnitudes | beggining_game_programming_third_edition/pong/src/ball.cpp:19-35 | a rebound only flips signs: Top sends the ball down, Bat and Bottom up, Sides flips x only |
| Pong.ReboundTwice | beggining_game_programming_third_edition/pong/src/ball.cpp:19-35 | a side rebound is its own inverse; the others are idempotent |
| Pong.TravelFollowsRebound | beggining_game_programming_third_edition/pong/src/ball.cpp:11-17 | after a top rebound the ball moves down the screen, after a bat rebound up |
| Pong.Ball.constructor | beggining_game_programming_third_edition/pong/src/ball.cpp:4-9 | speed 300, direction (1, 1), at the start point |
| Pong.Ball.Update | beggining_game_programming_third_edition/pong/src/ball.cpp:11-17 | the ball moves by direction·speed·dt |
| Pong.Ball.Rebound | beggining_game_programming_third_edition/pong/src/ball.cpp:19-35 | the direction is reflected per rebound kind; Bottom also recentres the ball |
| Pong.BatVelocityCases | beggining_game_programming_third_edition/pong/src/bat.cpp:10-23 | the bat moves left exactly when steered left and not at the left edge, right likewise, otherwise not at all |
| Pong.Bat.constructor | beggining_game_programming_third_edition/pong/src/bat.cpp:3-8 | speed 1000, no direction, at the start point |
| Pong.Bat.Move | beggining_game_programming_third_edition/pong/include/bat.h:10 | stores the direction |
| Pong.Bat.Stop | beggining_game_programming_third_edition/pong/include/bat.h:11 | clears the direction |
| Pong.Bat.Update | beggining_game_programming_third_edition/pong/src/bat.cpp:10-23 | the bat moves horizontally by its gated velocity·dt |
| Pong.TallyBounds | beggining_game_programming_third_edition/pong/src/main.cpp:64-77 | lives stay in [1,3] and the score in unsigned range; a miss costs a life or restarts at three; a point adds one |
| Pong.ThreeMissesRestart | beggining_game_programming_third_edition/pong/src/main.cpp:64-71 | three misses from full lives restart the game at score 0 with three lives |
| Pong.BounceDirections | beggining_game_programming_third_edition/pong/src/main.cpp:64-90 | after a bat contact the ball heads up; after scoring without contact it heads down; x flips exactly on a side hit |
| Pong.Game.constructor | beggining_game_programming_third_edition/pong/src/main.cpp:8-13 | bat at (w/2, h/2+150), ball at (w/2, 0), score 0, three lives |
| Pong.Game.KeyPress | beggining_game_programming_third_edition/pong/src/main.cpp:26-37 | Escape closes the window; the arrows steer the bat |
| Pong.Game.KeyRelease | beggining_game_programming_third_edition/pong/src/main.cpp:39-46 | releasing either arrow stops the bat |
| Pong.Game.Frame | beggining_game_programming_third_edition/pong/src/main.cpp:49-95 | one frame: lives and score per Tally, the ball's direction per the rebound chain, then bat and ball move by dt |
| Pong.Game.Collide | beggining_game_programming_third_edition/pong/src/main.cpp:57-90 | the rebound chain in source order: bottom, top, sides, bat |
| SdlPong.PaddleLimits | pong/src/Game.cpp:118-121 | the paddle centre is clamped to [65, 703] |
| SdlPong.Steering | pong/src/Game.cpp:85-93 | W alone gives −1, S alone +1, both or neither 0 |
| SdlPong.ClampPaddle | pong/src/Game.cpp:118-122 | the paddle lies in [65, 703] and is unchanged when already inside |
| SdlPong.PaddleStepBounded | pong/src/Game.cpp:112-123 | a paddle step moves at most 300·dt and stays on screen |
| SdlPong.ContactConditions | pong/src/Game.cpp:131-150 | the paddle contact and the losing condition, exactly as the else-if chain tests them |
| SdlPong.BounceFlipsOneComponent | pong/src/Game.cpp:135-150 | a bounce flips at most one velocity component and keeps its magnitude |
| SdlPong.WallsTurnApproachingBalls | pong/src/Game.cpp:135-150 | every wall or paddle bounce turns an approaching ball away |
| SdlPong.BallXRangeEmptyAsWritten | pong/src/Game.cpp:43 | as written, the serve's x range [550, 512) is empty: no x is in it |
| SdlPong.BallXRangeServes | pong/src/Game.cpp:43 | corrected: the range [512, 550) is non-empty and lies between the paddle and the right wall |
| SdlPong.Game.constructor | pong/src/Game.cpp:12-14 | ticks 0, running, paddle direction 0, no balls |
| SdlPong.Game.Initialize | pong/src/Game.cpp:16-50 | succeeds exactly when SDL and the window start; then the paddle is at (20, 384) and one ball is served |
| SdlPong.Game.ProcessInput | pong/src/Game.cpp:69-94 | quit or Escape stops the game; the paddle direction follows W and S |
| SdlPong.Game.UpdateGame | pong/src/Game.cpp:96-152 | ticks advance; a steered paddle moves and is clamped; every ball steps and bounces; the game stops exactly when some ball is lost |
| SdlPong.Game.MoveBalls | pong/src/Game.cpp:125-151 | each ball steps in turn; the game stops exactly when some ball is lost |
| SdlPong.Game.StepOne | pong/src/Game.cpp:126-150 | one ball moves, then bounces per the else-if chain |

## Left out

- Rendering, windows, fonts, audio, sprites and textures are not modelled, apart from the texture caches.
- Floats are modelled as reals, so rounding is not modelled.
- `int` is unbounded, except where the model writes wrap-around out (ticks, the Pong score).
- Random numbers, `std::sqrt`, `atan2`, rectangle intersections, the mouse and the clock are parameters.
- Mouse aim and sprite rotation are left out.
- The frame-pacing busy wait of the SDL games is left out.
- Engine: SpriteComponent drawing and texture binding are left out as renderer calls. A sprite is a component with a draw order.
- Engine: MoveComponent, InputComponent and CircleComponent physics are left out. Only their update orders and parameters are recorded.
- Engine: the opengl renderer, meshes, shaders and vertex arrays are left out.
- Engine: the world matrix is not modelled. A counter records how often it was recomputed.
- Engine.World.UpdateGame: the per-actor hooks are stated by `UpdateActors`; `UpdateGame` states the list phases.
- Engine.World.UpdateGame: both SDL_GetTicks reads of a frame (making_3d_games_book/vectors_physics/src/Game.cpp:102 and :106) are one reading `now`, so the stored tick count is the one the delta time was computed from.
- Engine.NewSprite: the sprite is not registered with the world's sorted sprite list (SpriteComponent's constructor calls AddSprite, making_3d_games_book/opengl/src/SpriteComponent.cpp:15). Registering it would thread the world's sprite list through every actor constructor. `World.AddSprite` is modelled and proved on its own.
- Engine.Component.Destroy: a sprite's destructor does not call RemoveSprite (making_3d_games_book/opengl/src/SpriteComponent.cpp:18), for the same reason. `World.RemoveSprite` is modelled and proved on its own.
- Engine.Actor.Destroy: the 2d_graphics Actor destructor is declared but never defined. `UnloadDataPopping` therefore marks the actor destroyed without deregistering it.
- Engine.World.ProcessInput: models the vectors_physics loop only. The 2d_graphics variant (2d_graphics/src/Game.cpp:74-89) handles quit and Escape but runs no actor input loop, and has no member of its own.
- Engine.World.ReapDead: in 2d_graphics (2d_graphics/src/Game.cpp:117-119) dead actors are deleted through the undefined Actor destructor, so nothing removes them from the live list. The shared `ReapDead` models the deregistering reap of vectors_physics and opengl only.
- AIStates: the states' own behaviour (OnEnter/Update/OnExit bodies) is recorded as calls, not modelled.
- AIStates: registration of the AI component with its owner is left out.
- RunGame: the SoundEngine calls and the camera-time pointer target are left out. Camera time is a field.
- RunGame.LevelUpdate.constructor: the header's mGameOver/mIsPaused initialisers are taken as the constructor's.
- ZombieArena: the level-up choices 1–6 only change the state in the source, so no upgrade effect is modelled.
- ZombieArena: the HUD strings are left out; only the frame counter is modelled.
- ZombieArena: pickups and the window view are left out.
- ZombieArena: the vertex array is a fresh array built by `CreateBackground`, not resized in place.
- ZombieArena.Game.Fire: the 100 bullet slots are a fixed sequence of bullet objects whose fields change; the array itself never changes.
- ZombieArena.TextureHolder.GetTexture: modelled on the holder instance rather than a static call, with the singleton pointer as a registry object.
- ZombieArena.TextureHolder.constructor: the source points the singleton at its file-static holder, which is the only holder ever built; the model points it at the holder being constructed.
- ZombieArena.Game.PlayFrame: the clock and mouse fields are written after the world has moved rather than before. The moving and scoring parts neither read nor write them, so the frame's outcome is the same.
- ZombieArena.Game.Update: player health and the player-zombie hit are not called by the source's Update and are left out there.
- ZombieArena.Game.Collide: states the horde after the loop but not each bullet's final in-flight flag. CollideSlot and CollideBullet state that flag pass by pass.
- ZombieArena.Game.Step: states the collisions' score side only. The horde after the collisions is stated by Resolve and Collide. Update and PlayFrame inherit this through Step.
- Timber: the sprite textures are left out.
- Timber: the Branch and Actor heights that the source leaves uninitialised are not modelled.
- Timber: game.hpp is not part of this model, so the zero-initialised side of a branch slot is the constructor parameter `blank`.
- Pong: game.h is not part of this model, so the screen size is a constructor parameter.
- Pong: `window.getSize().x` is taken to equal the screen width.
- Pong: the bat intersection is a parameter `overlap` (the height of the overlap, if any), taken from the bounds at the start of the frame.
- Pong: the HUD text and the SFML clock are left out; dt is a parameter.
- SdlPong: both SDL_GetTicks reads of a frame are one reading `now`.
- SdlPong: GenerateOutput and Shutdown are left out.
- SdlPong: a renderer creation failure is only logged in the source, so it is not modelled.

## Findings

| source | as written | input that shows it | evidently intended | confidence | as-written member | corrected member |
|---|---|---|---|---|---|---|
| beggining_game_programming_third_edition/zombie-arena/src/game.cpp:234-248 | three sequential `if`s: Enter while Playing sets Paused, and the next `if` immediately sets Playing again | state Playing, key Enter: the state stays Playing | an else-if chain, so Enter toggles Playing/Paused | not executed; high | ZombieArena.EnterCannotPauseAsWritten | ZombieArena.EnterToggles |
| pong/src/Game.cpp:43 | `generate_random_float(550, SCREEN_W / 2)` gives bounds 550 > 512, an inverted range that `uniform_real_distribution` does not allow | any serve: no x satisfies 550 ≤ x < 512 | the range [512, 550), between the screen centre and x = 550 | not executed; medium | SdlPong.BallXRangeEmptyAsWritten | SdlPong.BallXRangeServes |
