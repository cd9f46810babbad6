/** The game rules of `AlienInvasion` as functions on a value of the whole game
    state, one function per method of the game class. What the game promises is
    proved about them in module Properties; the class in module Game updates its
    fields in place and is proved to follow these functions step by step. */
module Rules {
  import opened Fleet

  /** The values that stay fixed during a run: the screen, the alien sprite's size,
      and the static settings. `firedBottom` is the bottom edge of a freshly fired
      bullet. A bullet is placed relative to the ship, and the ship only moves
      sideways, so this edge is the same fixed value for every bullet. */
  datatype Config = Config(
    screenWidth: int,
    screenHeight: int,
    alienWidth: int,
    alienHeight: int,
    bulletsAllowed: int,
    alienPoints: int,
    fleetDropSpeed: int,
    shipLimit: int,
    firedBottom: int)

  /** A positive sprite size makes the fleet-building loops terminate; the rest are
      the non-negative settings that the statistics rely on. */
  predicate ValidConfig(c: Config)
  {
    && c.alienWidth > 0
    && c.alienHeight > 0
    && c.bulletsAllowed >= 0
    && c.alienPoints >= 0
    && c.shipLimit >= 0
  }

  /** The fleet that `_create_fleet` adds to an empty alien group. */
  function NewFleet(c: Config): seq<Alien>
    requires ValidConfig(c)
  {
    FleetLayout(c.alienWidth, c.alienHeight, c.screenWidth, c.screenHeight)
  }

  /** The whole game state. `fleetDirection` and `speedUps` are the dynamic settings:
      `speedUps` counts the calls of `increase_speed` since the last
      `initialize_dynamic_settings`. A bullet is its bottom edge; an alien its rectangle. */
  datatype State = State(
    shipsLeft: int,
    score: int,
    level: int,
    highScore: int,
    gameActive: bool,
    paused: bool,
    fleetDirection: int,
    speedUps: nat,
    movingLeft: bool,
    movingRight: bool,
    bullets: seq<int>,
    aliens: seq<Alien>)

  /** The keys the game reacts to; every other key is `OtherKey`. */
  datatype Key = Left | Right | Space | KeyQ | KeyS | KeyP | KeyR | OtherKey

  /** The events `_check_events` dispatches. `MouseDown` carries whether the click
      falls inside the play button's rectangle. */
  datatype Event = Quit | KeyDown(key: Key) | KeyUp(key: Key) | MouseDown(onPlayButton: bool)

  /** One pass of the main loop: the events `pygame.event.get` returns, and what the
      library computes during the update: the new bottom of each bullet
      (`Bullet.update`), which pairs (bullet index, alien index) have overlapping
      rectangles (the test `groupcollide` applies), which aliens touch a screen edge (`Alien.check_edges`), the
      new rectangle of each alien given the fleet direction (`Alien.update`), and
      whether an alien touches the ship (`spritecollideany`). */
  datatype Frame = Frame(
    events: seq<Event>,
    bulletMove: int -> int,
    overlap: (nat, nat) -> bool,
    atEdge: Alien -> bool,
    alienMove: (Alien, int) -> Alien,
    shipCollides: bool)

  /** What holds in every reachable state. The last clause: while a game is running,
      a fleet is on screen, provided the screen has room for one alien at all. This
      holds even with no ship in reserve, because the hit that uses up the last
      reserve ship also builds a fresh fleet. */
  predicate Inv(c: Config, s: State)
  {
    && 0 <= s.shipsLeft <= c.shipLimit
    && 0 <= s.score <= s.highScore
    && 1 <= s.level
    && |s.bullets| <= c.bulletsAllowed
    && (s.fleetDirection == 1 || s.fleetDirection == -1)
    && (ValidConfig(c) && NewFleet(c) != [] && s.gameActive ==> s.aliens != [])
  }

  function Max(a: int, b: int): int
  {
    if a < b then b else a
  }

  /** The state after `__init__`: fresh statistics and dynamic settings, an inactive
      game, no bullets and a full fleet. */
  function Initial(c: Config): State
    requires ValidConfig(c)
  {
    State(c.shipLimit, 0, 1, 0, false, false, 1, 0, false, false, [], NewFleet(c))
  }

  // ---------------------------------------------------------------------------
  // Settings and statistics

  /** `initialize_dynamic_settings`: the fleet moves right again at base speed. */
  function InitializeDynamicSettings(s: State): State
  {
    s.(fleetDirection := 1, speedUps := 0)
  }

  /** `reset_stats`: a full set of ships, no score, level one. */
  function ResetStats(c: Config, s: State): State
  {
    s.(shipsLeft := c.shipLimit, score := 0, level := 1)
  }

  /** `_p_for_play`: reset the statistics, activate and unpause the game, drop all
      bullets and aliens and build a fresh fleet. */
  function PForPlay(c: Config, s: State): State
    requires ValidConfig(c)
  {
    ResetStats(c, s).(gameActive := true, paused := false, bullets := [], aliens := NewFleet(c))
  }

  /** `_check_play_button`: a click on the button of an inactive game resets the
      dynamic settings and starts a game. */
  function CheckPlayButton(c: Config, s: State, onPlayButton: bool): State
    requires ValidConfig(c)
  {
    if onPlayButton && !s.gameActive then PForPlay(c, InitializeDynamicSettings(s)) else s
  }

  // ---------------------------------------------------------------------------
  // Input

  /** `_fire_bullet`: a new bullet only while fewer than `bullets_allowed` are live. */
  function FireBullet(c: Config, s: State): State
  {
    if |s.bullets| < c.bulletsAllowed then s.(bullets := s.bullets + [c.firedBottom]) else s
  }

  /** `_check_keydown_events`. Right is tested on its own; Left heads an if/elif
      chain, so Right never reaches the chain's other branches. The q key ends the
      process, which leaves the state as it was. 's' starts a game without resetting
      the dynamic settings. */
  function CheckKeyDownEvents(c: Config, s: State, key: Key): State
    requires ValidConfig(c)
  {
    var s1 := if key == Right then s.(movingRight := true) else s;
    if key == Left then s1.(movingLeft := true)
    else if key == KeyQ then s1
    else if key == Space then FireBullet(c, s1)
    else if key == KeyS && !s1.gameActive then PForPlay(c, s1)
    else if key == KeyP then (if s1.gameActive then s1.(paused := true) else s1)
    else s1
  }

  /** `_check_keyup_events`: releasing Right stops the move to the right; releasing
      ANY other key stops the move to the left, because the second test checks the
      event type, which is always key-up here. */
  function CheckKeyUpEvents(s: State, key: Key): State
  {
    if key == Right then s.(movingRight := false) else s.(movingLeft := false)
  }

  /** A key pressed inside the blocking loop of `_pause_game`: 'r' resumes. */
  function PausedKeyDown(s: State, key: Key): State
  {
    if key == KeyR then s.(paused := false) else s
  }

  /** The events that end the process: the window's close event and the q key,
      both in the main loop and in the pause loop. */
  predicate Exits(e: Event)
  {
    e == Quit || e == KeyDown(KeyQ)
  }

  /** One event. While paused, events are read by the pause loop, which reacts only
      to key presses; otherwise `_check_events` dispatches them. */
  function HandleEvent(c: Config, s: State, e: Event): State
    requires ValidConfig(c)
  {
    if s.paused then
      match e
      case KeyDown(k) => PausedKeyDown(s, k)
      case _ => s
    else
      match e
      case Quit => s
      case KeyDown(k) => CheckKeyDownEvents(c, s, k)
      case KeyUp(k) => CheckKeyUpEvents(s, k)
      case MouseDown(on) => CheckPlayButton(c, s, on)
  }

  // ---------------------------------------------------------------------------
  // Bullets and collisions

  /** The number of indices i < n with p(i). */
  function Count(n: nat, p: nat -> bool): nat
  {
    if n == 0 then 0 else Count(n - 1, p) + (if p(n - 1) then 1 else 0)
  }

  /** The elements of xs whose index is not `gone`, in order. */
  function Keep<T>(xs: seq<T>, gone: nat -> bool): seq<T>
  {
    if xs == [] then []
    else Keep(xs[..|xs| - 1], gone) + (if gone(|xs| - 1) then [] else [xs[|xs| - 1]])
  }

  /** The bullets still on screen: those whose bottom is above the top edge. */
  function OnScreen(bullets: seq<int>): seq<int>
  {
    if bullets == [] then []
    else OnScreen(bullets[..|bullets| - 1])
         + (if bullets[|bullets| - 1] <= 0 then [] else [bullets[|bullets| - 1]])
  }

  /** `bullets.update()`: every bullet moves as `Bullet.update` says. */
  function MoveBullets(bullets: seq<int>, move: int -> int): seq<int>
  {
    seq(|bullets|, i requires 0 <= i < |bullets| => move(bullets[i]))
  }

  /** Bullet b is a key of the dictionary `groupcollide` returns. The bullets are
      taken in group order, and each one at once destroys every alien it overlaps,
      so bullet b only finds the aliens that it overlaps and no earlier bullet did.
      It is a key when one such alien is left. */
  predicate BulletHits(overlap: (nat, nat) -> bool, b: nat, aliens: nat)
  {
    exists a: nat :: a < aliens && overlap(b, a) && forall e: nat :: e < b ==> !overlap(e, a)
  }

  /** Alien a overlaps one of the first `bullets` bullets; the first of them
      destroys it. */
  predicate AlienHit(overlap: (nat, nat) -> bool, a: nat, bullets: nat)
  {
    exists b: nat :: b < bullets && overlap(b, a)
  }

  function Hitting(overlap: (nat, nat) -> bool, aliens: nat): nat -> bool
  {
    (b: nat) => BulletHits(overlap, b, aliens)
  }

  function Struck(overlap: (nat, nat) -> bool, bullets: nat): nat -> bool
  {
    (a: nat) => AlienHit(overlap, a, bullets)
  }

  /** The number of keys of the collision dictionary: bullets that hit an alien. */
  function HitCount(overlap: (nat, nat) -> bool, bullets: nat, aliens: nat): nat
  {
    Count(bullets, Hitting(overlap, aliens))
  }

  /** The first half of `_check_bullet_alien_collisions`: every alien that some
      bullet overlaps vanishes, and so does every bullet that is a key of the
      collision dictionary; the score rises by `alien_points` once per key, and then
      the high score is updated. */
  function Collide(c: Config, s: State, overlap: (nat, nat) -> bool): State
  {
    var nb, na := |s.bullets|, |s.aliens|;
    var keys := HitCount(overlap, nb, na);
    var s1 := s.(bullets := Keep(s.bullets, Hitting(overlap, na)),
                 aliens := Keep(s.aliens, Struck(overlap, nb)),
                 score := s.score + c.alienPoints * keys);
    if keys > 0 then s1.(highScore := Max(s1.highScore, s1.score)) else s1
  }

  /** The second half: with the fleet gone, the bullets go, a new fleet is built,
      the game speeds up and the level rises. */
  function NextLevel(c: Config, s: State): State
    requires ValidConfig(c)
  {
    s.(bullets := [], aliens := NewFleet(c), speedUps := s.speedUps + 1, level := s.level + 1)
  }

  /** `_check_bullet_alien_collisions`. */
  function CheckBulletAlienCollisions(c: Config, s: State, overlap: (nat, nat) -> bool): State
    requires ValidConfig(c)
  {
    var s1 := Collide(c, s, overlap);
    if |s1.aliens| == 0 then NextLevel(c, s1) else s1
  }

  /** `_update_bullets`: move the bullets, drop those off the top, resolve collisions. */
  function UpdateBullets(c: Config, s: State, move: int -> int, overlap: (nat, nat) -> bool): State
    requires ValidConfig(c)
  {
    CheckBulletAlienCollisions(c, s.(bullets := OnScreen(MoveBullets(s.bullets, move))), overlap)
  }

  // ---------------------------------------------------------------------------
  // Aliens and the ship

  /** Every alien moved down by d. */
  function Dropped(aliens: seq<Alien>, d: int): seq<Alien>
  {
    seq(|aliens|, i requires 0 <= i < |aliens| => aliens[i].(y := aliens[i].y + d))
  }

  /** `aliens.update()`: every alien moves as `Alien.update` says for the direction. */
  function MoveAliens(aliens: seq<Alien>, direction: int, move: (Alien, int) -> Alien): seq<Alien>
  {
    seq(|aliens|, i requires 0 <= i < |aliens| => move(aliens[i], direction))
  }

  /** `_change_fleet_direction`: drop the fleet and reverse its direction. */
  function ChangeFleetDirection(c: Config, s: State): State
  {
    s.(aliens := Dropped(s.aliens, c.fleetDropSpeed), fleetDirection := -s.fleetDirection)
  }

  predicate AnyAtEdge(aliens: seq<Alien>, atEdge: Alien -> bool)
  {
    exists i :: 0 <= i < |aliens| && atEdge(aliens[i])
  }

  /** `_check_fleet_edges`: one change of direction if any alien touches an edge. */
  function CheckFleetEdges(c: Config, s: State, atEdge: Alien -> bool): State
  {
    if AnyAtEdge(s.aliens, atEdge) then ChangeFleetDirection(c, s) else s
  }

  /** `_ship_hit`: with a ship in reserve, use it up and restart the board;
      otherwise the game is over. */
  function ShipHit(c: Config, s: State): State
    requires ValidConfig(c)
  {
    if s.shipsLeft > 0 then s.(shipsLeft := s.shipsLeft - 1, bullets := [], aliens := NewFleet(c))
    else s.(gameActive := false)
  }

  /** Some alien's bottom edge is at or below the bottom of the screen. */
  predicate ReachedBottom(c: Config, aliens: seq<Alien>)
  {
    exists i :: 0 <= i < |aliens| && aliens[i].y + c.alienHeight >= c.screenHeight
  }

  /** `_check_aliens_bottom`: reaching the bottom counts as one hit of the ship. */
  function CheckAliensBottom(c: Config, s: State): State
    requires ValidConfig(c)
  {
    if ReachedBottom(c, s.aliens) then ShipHit(c, s) else s
  }

  /** `_update_aliens`: edges, movement, a collision with the ship, the bottom. */
  function UpdateAliens(c: Config, s: State, atEdge: Alien -> bool,
                        move: (Alien, int) -> Alien, shipCollides: bool): State
    requires ValidConfig(c)
  {
    var s1 := CheckFleetEdges(c, s, atEdge);
    var s2 := s1.(aliens := MoveAliens(s1.aliens, s1.fleetDirection, move));
    var s3 := if shipCollides then ShipHit(c, s2) else s2;
    CheckAliensBottom(c, s3)
  }

  /** One pass of the main loop after the events: the world moves only in an
      active, unpaused game. */
  function Tick(c: Config, s: State, f: Frame): State
    requires ValidConfig(c)
  {
    if s.gameActive && !s.paused then
      UpdateAliens(c, UpdateBullets(c, s, f.bulletMove, f.overlap), f.atEdge, f.alienMove, f.shipCollides)
    else s
  }

  /** `_check_events`: the events of one pass, in order, up to the first that ends
      the process. */
  function HandleEvents(c: Config, s: State, events: seq<Event>): State
    requires ValidConfig(c)
    decreases |events|
  {
    if events == [] || Exits(events[0]) then s
    else HandleEvents(c, HandleEvent(c, s, events[0]), events[1..])
  }

  predicate AnyExits(events: seq<Event>)
  {
    exists i :: 0 <= i < |events| && Exits(events[i])
  }

  /** `run_game`: passes of the main loop until an event ends the process. Each pass
      handles its events and then, in an active and unpaused game, moves the world. */
  function RunGame(c: Config, s: State, frames: seq<Frame>): State
    requires ValidConfig(c)
    decreases |frames|
  {
    if frames == [] then s
    else if AnyExits(frames[0].events) then HandleEvents(c, s, frames[0].events)
    else RunGame(c, Tick(c, HandleEvents(c, s, frames[0].events), frames[0]), frames[1..])
  }

  /** k hits of the ship in a row. */
  function ShipHits(c: Config, s: State, k: nat): State
    requires ValidConfig(c)
  {
    if k == 0 then s else ShipHit(c, ShipHits(c, s, k - 1))
  }
}
