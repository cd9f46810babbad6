# Alien Invasion — a verified model of the game class

This project models the game logic of `AlienInvasion`, the class that runs the
Alien Invasion arcade game in `main.py`, with the graphics library taken out.

- **Fleet layout.** `_create_fleet` and `_create_alien` fill the screen with a grid of aliens.
- **Bullets.** `_fire_bullet` respects the bullet cap. `_update_bullets` removes bullets that have left the top of the screen.
- **Collisions.** `_check_bullet_alien_collisions` scores the hits and moves to the next level when the fleet is gone.
- **Lives.** `_ship_hit` and `_check_aliens_bottom` use up ships and end the game.
- **Fleet direction.** `_check_fleet_edges` and `_change_fleet_direction` drop the fleet and reverse it.
- **Play/pause state machine.** `_check_keydown_events`, `_check_keyup_events`, `_check_play_button`, `_p_for_play`, `_pause_game` and the update guard of `run_game`.

The project has four modules:

- `Fleet` (`fleet.dfy`): the grid `_create_fleet` builds, as pure functions, with lemmas that pin down every alien's slot.
- `Rules` (`rules.dfy`): the whole game state as one value (`State`) and one function per method of the class.
- `Properties` (`properties.dfy`): what the game promises, proved as lemmas about those functions. This covers the bullet cap, scoring, level-up, the lives, the direction changes and the state transitions. It also proves that every operation keeps the invariant `Inv`: the ship count, score and level stay in range, the bullet cap holds, the direction is ±1, and a fleet is on screen while a game runs (given a screen with room for one alien).
- `Game` (`game.dfy`): class `AlienInvasion`. Its fields are updated in place by methods that keep the source's loops: the nested `while` loops of `_create_fleet`, and the `for` loops over the bullet copy, over the aliens and over the events. Each method that the event dispatch and the main loop call is proved to change the state exactly as the `Rules` function of the same name says, and to keep `Valid()`. For those methods, `Rules.X` is the specification of `Game.AlienInvasion.X`; the "## Model" rows of the methods describe both, and the `Properties` rows say what is proved about them. Six helper methods neither require nor ensure `Valid()`, and the method that calls each one restores it:
  - `CreateAlien` and `CreateFleet` are stated against the fleet layout `NewFleet`;
  - `RemoveOldBullets` against the filter `OnScreen`;
  - `ScoreHits` against the key count `HitCount`;
  - `ResolveHits` against `Collide`; its result can have an empty fleet, which `CheckBulletAlienCollisions` then rebuilds;
  - `PauseGame` sets `paused` alone.

## How the unseen collaborators are represented

- **Settings.** The dynamic settings are the fleet direction and a counter `speedUps` of the calls to `increase_speed` since the last `initialize_dynamic_settings`. The static settings are the constants of `Config`.
- **Statistics.** `reset_stats` restores the full number of ships, a score of 0 and level 1. The scoreboard's `check_high_score` raises the high score to the score.
- **Sprites.** A bullet is its bottom edge. A fresh bullet's bottom is the constant `Config.firedBottom`: bullets are placed relative to the ship, and the ship only moves sideways, so every fresh bullet starts at the same height. No property depends on the value. An alien is its top-left corner; every alien has the sprite's width and height.
- **Library inputs.** Each main-loop pass is a `Frame`, which supplies what the graphics library would compute:
  - the bullets' movement (`Bullet.update`);
  - which bullet's rectangle overlaps which alien's (the test `groupcollide` applies), as a relation `overlap` on bullet and alien indices;
  - which aliens touch an edge (`check_edges`);
  - the aliens' movement (`Alien.update`);
  - whether an alien touches the ship (`spritecollideany`).
- **The collision dictionary.** `groupcollide` with both kill flags set walks the bullets in group order. Each bullet at once destroys every alien it overlaps that is still alive, and it becomes a key of the dictionary when it destroyed at least one. So a bullet whose only overlapped aliens an earlier bullet already destroyed is no key: it stays on screen and scores nothing. `Rules.BulletHits` states this order. An alien is destroyed when any bullet overlaps it (`Rules.AlienHit`).
- **Process exit.** `sys.exit()` becomes an `exit` result: the event that ends the process stops the loop and leaves the state as it was.
- **Pause loop.** The blocking loop in `_pause_game` becomes the state `paused`. While it is set, events go to the pause loop's handler, where only 'r' resumes and 'q' or closing the window exits, and the world does not move.

## Behaviour of the code worth knowing

The model follows the code in each case below.

- The score rises by `alien_points` once per entry of the dictionary `groupcollide` returns, that is once per bullet that destroyed at least one alien (main.py:194-195). It does not rise once per destroyed alien: one bullet overlapping two aliens removes both and scores once (`Properties.OneBulletTwoAliens`).
- One bullet destroys every alien it overlaps, not just one, because `groupcollide` is called with both kill flags set (main.py:191; `Properties.CollisionLevel`, `Properties.OneBulletTwoAliens`).
- `_check_keyup_events` tests the event type in its second branch, and that test always holds. So releasing any key other than Right stops the ship's leftward move (`Properties.KeyUpStopsMoves`).
- Starting with 's' does not call `initialize_dynamic_settings`, while the play button does. A game started with 's' keeps the previous game's direction and speed (`Properties.StartOnlyWhenInactive`).
- `_ship_hit` ends the game only on a hit that arrives when `ships_left` is already 0 (main.py:143, 157-158). So a game survives `ship_limit` hits and the next hit ends it; it does not end when `ships_left` reaches 0 (`Properties.ShipHitsSpec`, `Properties.LastHitEndsGame`).

## Model

| member | source | states |
|---|---|---|
| Game.AlienInvasion.constructor | main.py:15-40 | The new game is in the initial state: full ships, score 0, level 1, inactive and unpaused, base direction, no bullets and a full fleet; the invariant holds |
| Game.AlienInvasion.CreateAlien | main.py:237-243 | Exactly one alien, at (x, y), is appended to the group |
| Game.AlienInvasion.CreateFleet | main.py:221-235 | The nested loops append exactly `FleetLayout` to the group, row by row |
| Fleet.StripAt | main.py:228-235 | A position loop visits its i-th slot start + step·i exactly when that slot is below the limit |
| Fleet.GridAt | main.py:229-233 | In the grid the loops build, column i of row j sits at index j·columns + i with x = xs[i], y = ys[j] |
| Fleet.FleetLayoutSize | main.py:221-235 | The fleet holds columns × rows aliens |
| Fleet.FleetLayoutAt | main.py:221-235 | There is an alien in column i and row j iff w + 2w·i < screen_width − 2w and h + 2h·j < screen_height − 3h, and it is at index j·columns + i with exactly that position |
| Fleet.FleetLayoutMembers | main.py:228-232 | Every alien of the fleet sits on a slot inside the margins |
| Game.AlienInvasion.FireBullet | main.py:170-174 | A bullet is added only while fewer than `bullets_allowed` are live; the invariant, including the cap, is kept |
| Properties.FiredTimesSpec | main.py:170-174 | After k presses of Space there are min(n + k, bullets_allowed) bullets; the earlier ones are unchanged, every new one is a fresh bullet, and nothing else changes |
| Game.AlienInvasion.RemoveOldBullets | main.py:181-184 | The loop over the copy leaves exactly the on-screen bullets, in order |
| Properties.RemovalStep | main.py:182-184 | Each pass of the removal loop finds the current bullet at the running index, and removing or keeping it extends the filtered prefix by one bullet |
| Properties.OnScreenSpec | main.py:181-184 | Every remaining bullet has its bottom below the top edge; each bullet with a positive bottom remains with its multiplicity; there are never more than before |
| Game.AlienInvasion.UpdateBullets | main.py:176-186 | The bullets are moved, the old ones removed and the collisions resolved, as `Rules.UpdateBullets` says; the invariant is kept |
| Properties.UpdateBulletsKeepsInv | main.py:176-186 | Updating the bullets keeps the invariant |
| Game.AlienInvasion.ScoreHits | main.py:193-195 | The loop over the dictionary's entries adds `alien_points` once per key, that is per bullet that destroyed an alien still alive when its turn came |
| Game.AlienInvasion.ResolveHits | main.py:191-197 | Every alien some bullet overlaps is removed, and so is every key bullet; the score rises once per key, and the high score follows only when there was a key |
| Game.AlienInvasion.CheckBulletAlienCollisions | main.py:188-207 | Collisions, then the next level when the fleet is gone, as `Rules.CheckBulletAlienCollisions` says; the invariant is kept |
| Properties.CountBound | main.py:193-195 | At most one score award per bullet |
| Properties.KeepLength | main.py:191 | Removing the colliding sprites shortens a group by exactly the number of colliding members |
| Properties.KeepMembers | main.py:191 | A sprite survives the collision step iff it collided with nothing |
| Properties.CollisionScore | main.py:191-197 | The score rises by `alien_points` × (keys of the collision dictionary), which equals the number of bullets removed and never exceeds the bullets present. The score never falls. The high score becomes max(high score, score) if anything was hit, and is unchanged otherwise |
| Properties.OneBulletTwoAliens | main.py:191-195 | One bullet overlapping two of three aliens removes both and the bullet, scores `alien_points` once, and leaves the level unchanged |
| Properties.TwoBulletsOneAlien | main.py:191-195 | Two bullets overlapping only the first of two aliens: the first bullet destroys it and scores once; the second bullet stays, the other alien stays, the level is unchanged |
| Properties.KeysAtMostDestroyed | main.py:191-195 | The collision dictionary never has more keys than there are destroyed aliens |
| Properties.ScoreAtMostDestroyed | main.py:191-197 | One collision step raises the score by at most `alien_points` per destroyed alien |
| Properties.CollisionLevel | main.py:191-206 | The surviving aliens are exactly those no bullet touched. If none survives, the level rises by exactly one, the bullets are emptied, a fresh fleet is built and the speed-up count rises by one. Otherwise the level and speed stay, and the bullets left are exactly those that are no key |
| Properties.CollisionsKeepInv | main.py:188-207 | Resolving collisions keeps the invariant |
| Game.AlienInvasion.ShipHit | main.py:140-159 | With ships left: one fewer ship, no bullets, a fresh fleet. Otherwise the game becomes inactive. The invariant is kept |
| Properties.ShipHitSpec | main.py:140-159 | The ship count never goes negative. A hit with a ship in reserve changes only ships, bullets and aliens. A hit with none only deactivates the game |
| Properties.ShipHitsSpec | main.py:140-159 | k hits leave max(0, ships − k) ships. The game stays active for exactly `ships_left` hits. Score, level and high score are untouched |
| Properties.LastHitEndsGame | main.py:140-159 | From a full set of ships, the game is still active after `ship_limit` hits with no ship left, and the next hit ends it |
| Properties.ShipHitKeepsInv | main.py:140-159 | A hit keeps the invariant |
| Game.AlienInvasion.CheckAliensBottom | main.py:161-167 | The first alien whose bottom reaches the screen's bottom causes exactly one ship hit, and the search stops |
| Game.AlienInvasion.ChangeFleetDirection | main.py:252-256 | Every alien drops by `fleet_drop_speed`, then the direction is negated |
| Properties.ChangeFleetDirectionSpec | main.py:252-256 | The direction is negated. Each alien keeps its x and drops by `fleet_drop_speed`. The count and everything else are unchanged |
| Properties.ChangeFleetDirectionTwice | main.py:252-256 | Two changes restore the direction and lower the fleet by two drops |
| Game.AlienInvasion.CheckFleetEdges | main.py:245-250 | The first alien at an edge triggers one change of direction and the loop stops |
| Properties.CheckFleetEdgesAtMostOnce | main.py:245-250 | One check drops the fleet by one `fleet_drop_speed` and negates the direction if some alien is at an edge, and otherwise changes nothing: at most one change per tick |
| Game.AlienInvasion.UpdateAliens | main.py:209-219 | In this order: the edge check, the movement, a ship hit on contact, the bottom check; the invariant is kept |
| Properties.UpdateAliensKeepsInv | main.py:209-219 | Updating the aliens keeps the invariant |
| Game.AlienInvasion.InitializeDynamicSettings | main.py:72 | The direction is reset to 1 and the speed-ups to 0 |
| Game.AlienInvasion.PForPlay | main.py:76-91 | The statistics are reset; the game is active and unpaused; both groups are emptied and a fresh fleet is built |
| Game.AlienInvasion.CheckPlayButton | main.py:67-74 | A click on the button of an inactive game resets the dynamic settings and starts a game. Any other click changes nothing |
| Properties.StartOnlyWhenInactive | main.py:67-105 | 's' or a click on the button starts a game only when inactive, and then yields an active, unpaused game with fresh statistics, no bullets and a fresh fleet, keeping the high score. Only the button resets direction and speed. In an active game both do nothing |
| Game.AlienInvasion.PauseGame | main.py:110-117 | Entering the pause loop sets `paused` and nothing else |
| Properties.PauseOnlyWhenActive | main.py:106-112 | 'p' pauses exactly when the game is active and changes nothing else |
| Game.AlienInvasion.PausedKeyDown | main.py:117-126 | In the pause loop 'r' unpauses, 'q' exits and every other key is ignored |
| Properties.ResumeOnlyOnR | main.py:117-126 | While paused, only 'r' changes the state, and it only clears `paused` |
| Game.AlienInvasion.CheckKeyDownEvents | main.py:95-108 | Right is handled on its own, then the Left/q/Space/s/p chain runs as `Rules.CheckKeyDownEvents` says. `exit` holds exactly for q |
| Properties.KeyDownStartsMoves | main.py:95-99 | Pressing Left or Right only starts the move that way |
| Game.AlienInvasion.CheckKeyUpEvents | main.py:133-137 | Releasing Right clears the right move; releasing any other key clears the left move |
| Properties.KeyUpStopsMoves | main.py:133-137 | After a key-up, the right move stays set iff the key was not Right, and the left move stays set iff the key was Right; nothing else changes |
| Game.AlienInvasion.HandleEvent | main.py:54-65 | Each event is dispatched to its handler, or to the pause loop while paused. `exit` holds exactly for closing the window and for q |
| Game.AlienInvasion.CheckEvents | main.py:54-65 | The events are handled in order up to the first that exits. `exit` says whether one did |
| Properties.EventKeepsInv | main.py:54-65 | Every event keeps the invariant |
| Properties.HandleEventsKeepsInv | main.py:54-65 | Any sequence of events keeps the invariant |
| Game.AlienInvasion.UpdateWorld | main.py:46-49 | The world is updated only in an active, unpaused game |
| Properties.TickOnlyWhenRunning | main.py:46-49 | In an inactive or paused game a pass leaves the state unchanged |
| Properties.TickKeepsInv | main.py:46-49 | One update of the world keeps the invariant |
| Game.AlienInvasion.RunGame | main.py:42-51 | Passes of the main loop run until an event exits; `exited` says whether one did |
| Properties.InitialInv | main.py:15-40 | The initial state satisfies the invariant |
| Properties.RunGameKeepsInv | main.py:42-51 | Any run of the main loop keeps the invariant |
| Fleet.FleetLayoutNonEmpty | main.py:228-230 | The fleet has an alien iff the screen is wider than three alien widths and higher than four alien heights |
| Properties.FleetWhileRunning | main.py:42-51 | On a screen with room for one alien, a fleet is on screen whenever the game is running after any run of the main loop |

## Left out

- Drawing: `_update_screen`, the play button's image, the scoreboard's `prep_*` and `show_score` calls, the pause text, and mouse-cursor visibility. They only render.
- The frame clocks `clock.tick(60)` and `clock.tick(10)`, and `sleep(0.5)` in `_ship_hit`. They only delay.
- Polling: `pygame.event.get` and `pygame.mouse.get_pos` become inputs. A click is given as whether it lies on the play button.
- Event batches across the pause: `_pause_game` runs its own polling loop, and each of its polls is handled in full in pause mode, so events that follow 'r' in the same poll are swallowed: only 'r' and 'q' act there, and a key-up or a click after 'r' is lost. Once it returns, the rest of the main loop's batch from before the pause is dispatched normally. The model has one event sequence per pass. Every event after 'p' goes to the pause handler until an 'r', and every event after that 'r' goes to the main dispatcher. So it does not capture the poll boundaries. It misses the swallowed events after 'r', and it sends the main batch's remaining events to the pause handler when they come before the 'r'. For example, with [KeyDown(r), KeyUp(Left)] in one pause-loop poll, the source keeps `moving_left` set, while the model clears it.
- The ship: its x position, `Ship.update`, `center_ship` and the screen-edge limits on its movement. Only the moving flags are modelled, because the game logic here never reads the ship's position; the contact with an alien is an input.
- Sprite geometry: `Bullet.update`, `Alien.update`, `Alien.check_edges`, `groupcollide`'s rectangle test and `spritecollideany` are parameters supplied per pass. Float positions and the speed factors they use are not modelled.
- `Settings.increase_speed`: it is modelled only as the `speedUps` counter, because the speeds it scales only feed the sprite movement, which is a parameter here. `alien_points` stays static: nothing in main.py changes it, and `settings.py`, where `increase_speed` lives, is not part of this model.
- `run_game`: it loops forever; it is modelled over a finite sequence of passes.
- Process exit: `sys.exit()` is modelled as the `exit`/`exited` result, and `pygame.quit()` is left out.
- Game.AlienInvasion.PauseGame: it models only the state the pause loop enters. The loop itself is the `paused` state handled by `HandleEvent`.
