/** The game class `AlienInvasion` with its state held in fields that its methods
    update in place, as the source does. Every method keeps the invariant Valid()
    and is proved to change the state exactly as the matching function of module
    Rules says; what those functions promise is proved in module Properties. */
module Game {
  import opened Fleet
  import opened Rules
  import Properties

  class AlienInvasion {
    /** The screen, the sprite sizes and the static settings. */
    const cfg: Config

    // stats
    var shipsLeft: int
    var score: int
    var level: int
    var highScore: int
    // the play/pause state machine
    var gameActive: bool
    var paused: bool
    // the dynamic settings
    var fleetDirection: int
    var speedUps: nat
    // the ship's moving flags
    var movingLeft: bool
    var movingRight: bool
    // the sprite groups: each bullet by its bottom edge, each alien by its rectangle
    var bullets: seq<int>
    var aliens: seq<Alien>

    /** The fields as one value of the game state. */
    function Snapshot(): State
      reads this
    {
      State(shipsLeft, score, level, highScore, gameActive, paused,
            fleetDirection, speedUps, movingLeft, movingRight, bullets, aliens)
    }

    ghost predicate Valid()
      reads this
    {
      ValidConfig(cfg) && Inv(cfg, Snapshot())
    }

    /** `__init__`: fresh statistics and settings, an inactive game and a full fleet. */
    constructor (c: Config)
      requires ValidConfig(c)
      ensures cfg == c
      ensures Valid() && Snapshot() == Initial(c)
    {
      cfg := c;
      shipsLeft, score, level, highScore := c.shipLimit, 0, 1, 0;
      fleetDirection, speedUps := 1, 0;
      movingLeft, movingRight := false, false;
      bullets, aliens := [], [];
      gameActive, paused := false, false;
      new;
      CreateFleet();
    }

    /** `_create_alien`: one more alien with its top-left corner at (x, y). */
    method CreateAlien(x: int, y: int)
      modifies this`aliens
      ensures aliens == old(aliens) + [Alien(x, y)]
    {
      aliens := aliens + [Alien(x, y)];
    }

    /** `_create_fleet`: fill the screen with aliens, row by row, leaving one alien
        width between neighbours and one alien height between rows. */
    method CreateFleet()
      requires ValidConfig(cfg)
      modifies this`aliens
      ensures aliens == old(aliens) + NewFleet(cfg)
    {
      var w, h := cfg.alienWidth, cfg.alienHeight;
      var right, bottom := cfg.screenWidth - 2 * w, cfg.screenHeight - 3 * h;
      ghost var xs, ys := Strip(w, 2 * w, right), Strip(h, 2 * h, bottom);
      ghost var doneRows: seq<int> := [];
      var currentX, currentY := w, h;
      while currentY < bottom
        invariant currentX == w
        invariant ys == doneRows + Strip(currentY, 2 * h, bottom)
        invariant aliens == old(aliens) + Grid(xs, doneRows)
        decreases bottom - currentY
      {
        ghost var rowStart := aliens;
        ghost var doneColumns: seq<int> := [];
        while currentX < right
          invariant xs == doneColumns + Strip(currentX, 2 * w, right)
          invariant aliens == rowStart + Row(doneColumns, currentY)
          decreases right - currentX
        {
          ColumnStep(xs, doneColumns, currentX, 2 * w, right, rowStart, currentY);
          CreateAlien(currentX, currentY);
          doneColumns := doneColumns + [currentX];
          currentX := currentX + 2 * w;
        }
        assert doneColumns == xs;
        StripStep(doneRows, currentY, 2 * h, bottom);
        RowStep(xs, doneRows, currentY, old(aliens));
        doneRows := doneRows + [currentY];
        currentX := w;
        currentY := currentY + 2 * h;
      }
      assert doneRows == ys;
      assert NewFleet(cfg) == Grid(xs, ys);
    }

    /** `_fire_bullet`: a new bullet only while fewer than `bullets_allowed` are live. */
    method FireBullet()
      requires Valid()
      modifies this`bullets
      ensures Valid()
      ensures Snapshot() == Rules.FireBullet(cfg, old(Snapshot()))
    {
      if |bullets| < cfg.bulletsAllowed {
        bullets := bullets + [cfg.firedBottom];
      }
    }

    /** The removal loop of `_update_bullets`: walk a copy of the group and remove
        every bullet whose bottom is at or above the top of the screen. */
    method RemoveOldBullets()
      modifies this`bullets
      ensures bullets == OnScreen(old(bullets))
    {
      var copy := bullets;
      var i, k := 0, 0;
      while i < |copy|
        invariant 0 <= i <= |copy|
        invariant k == |OnScreen(copy[..i])|
        invariant bullets == OnScreen(copy[..i]) + copy[i..]
      {
        Properties.RemovalStep(copy, i, bullets, k);
        if copy[i] <= 0 {
          bullets := bullets[..k] + bullets[k + 1..];
        } else {
          k := k + 1;
        }
        i := i + 1;
      }
      assert copy[..i] == copy;
    }

    /** `_update_bullets`: move every bullet, drop the old ones, resolve collisions. */
    method UpdateBullets(move: int -> int, overlap: (nat, nat) -> bool)
      requires Valid()
      modifies this
      ensures Valid()
      ensures Snapshot() == Rules.UpdateBullets(cfg, old(Snapshot()), move, overlap)
    {
      ghost var moved := Snapshot().(bullets := OnScreen(MoveBullets(bullets, move)));
      Properties.OnScreenSpec(MoveBullets(bullets, move));
      bullets := MoveBullets(bullets, move);
      RemoveOldBullets();
      assert Snapshot() == moved;
      CheckBulletAlienCollisions(overlap);
    }

    /** The scoring loop of `_check_bullet_alien_collisions`: `alien_points` for
        every bullet that hit an alien, that is for every entry of the dictionary. */
    method ScoreHits(overlap: (nat, nat) -> bool, nb: nat, na: nat)
      modifies this`score
      ensures score == old(score) + cfg.alienPoints * HitCount(overlap, nb, na)
    {
      var b := 0;
      while b < nb
        invariant 0 <= b <= nb
        invariant score == old(score) + cfg.alienPoints * Count(b, Hitting(overlap, na))
      {
        MulStep(cfg.alienPoints, Count(b, Hitting(overlap, na)));
        if BulletHits(overlap, b, na) {
          score := score + cfg.alienPoints;
        }
        b := b + 1;
      }
    }

    /** The first half of `_check_bullet_alien_collisions`. `overlap(b, a)` says
        whether bullet b meets alien a; `groupcollide` removes both sides of every
        overlap, the score rises once per entry of the dictionary it returns, that is
        per bullet, and the high score follows. */
    method ResolveHits(overlap: (nat, nat) -> bool)
      modifies this`bullets, this`aliens, this`score, this`highScore
      ensures Snapshot() == Collide(cfg, old(Snapshot()), overlap)
    {
      var nb, na := |bullets|, |aliens|;
      bullets := Keep(bullets, Hitting(overlap, na));
      aliens := Keep(aliens, Struck(overlap, nb));
      if HitCount(overlap, nb, na) > 0 {
        ScoreHits(overlap, nb, na);
        highScore := Max(highScore, score);
      }
    }

    /** `_check_bullet_alien_collisions`: resolve the hits, and start the next level
        when the fleet is gone. */
    method CheckBulletAlienCollisions(overlap: (nat, nat) -> bool)
      requires Valid()
      modifies this
      ensures Valid()
      ensures Snapshot() == Rules.CheckBulletAlienCollisions(cfg, old(Snapshot()), overlap)
    {
      Properties.CollisionsKeepInv(cfg, Snapshot(), overlap);
      ResolveHits(overlap);
      if |aliens| == 0 {
        bullets := [];
        CreateFleet();
        speedUps := speedUps + 1;
        level := level + 1;
      }
    }

    /** `_ship_hit`: use up a ship and restart the board, or end the game. */
    method ShipHit()
      requires Valid()
      modifies this
      ensures Valid()
      ensures Snapshot() == Rules.ShipHit(cfg, old(Snapshot()))
    {
      if shipsLeft > 0 {
        shipsLeft := shipsLeft - 1;
        bullets := [];
        aliens := [];
        CreateFleet();
      } else {
        gameActive := false;
      }
    }

    /** `_check_aliens_bottom`: the first alien found at the bottom counts as a hit,
        and the search stops there. */
    method CheckAliensBottom()
      requires Valid()
      modifies this
      ensures Valid()
      ensures Snapshot() == Rules.CheckAliensBottom(cfg, old(Snapshot()))
    {
      var fleet := aliens;
      var i := 0;
      while i < |fleet|
        invariant 0 <= i <= |fleet|
        invariant fleet == old(aliens) && Snapshot() == old(Snapshot())
        invariant forall k :: 0 <= k < i ==> fleet[k].y + cfg.alienHeight < cfg.screenHeight
      {
        if fleet[i].y + cfg.alienHeight >= cfg.screenHeight {
          ShipHit();
          break;
        }
        i := i + 1;
      }
    }

    /** `_change_fleet_direction`: drop every alien, then reverse the direction. */
    method ChangeFleetDirection()
      requires Valid()
      modifies this`aliens, this`fleetDirection
      ensures Valid()
      ensures Snapshot() == Rules.ChangeFleetDirection(cfg, old(Snapshot()))
    {
      var i := 0;
      while i < |aliens|
        invariant 0 <= i <= |aliens| == |old(aliens)|
        invariant forall k :: 0 <= k < i ==>
                    aliens[k] == old(aliens)[k].(y := old(aliens)[k].y + cfg.fleetDropSpeed)
        invariant forall k :: i <= k < |aliens| ==> aliens[k] == old(aliens)[k]
        invariant fleetDirection == old(fleetDirection)
      {
        aliens := aliens[i := aliens[i].(y := aliens[i].y + cfg.fleetDropSpeed)];
        i := i + 1;
      }
      assert aliens == Dropped(old(aliens), cfg.fleetDropSpeed);
      fleetDirection := -fleetDirection;
    }

    /** `_check_fleet_edges`: change direction once, at the first alien that
        touches an edge. */
    method CheckFleetEdges(atEdge: Alien -> bool)
      requires Valid()
      modifies this`aliens, this`fleetDirection
      ensures Valid()
      ensures Snapshot() == Rules.CheckFleetEdges(cfg, old(Snapshot()), atEdge)
    {
      var fleet := aliens;
      var i := 0;
      while i < |fleet|
        invariant 0 <= i <= |fleet|
        invariant fleet == old(aliens) && Snapshot() == old(Snapshot())
        invariant forall k :: 0 <= k < i ==> !atEdge(fleet[k])
      {
        if atEdge(fleet[i]) {
          ChangeFleetDirection();
          break;
        }
        i := i + 1;
      }
    }

    /** `_update_aliens`: edges, movement, a collision with the ship, the bottom. */
    method UpdateAliens(atEdge: Alien -> bool, move: (Alien, int) -> Alien, shipCollides: bool)
      requires Valid()
      modifies this
      ensures Valid()
      ensures Snapshot() == Rules.UpdateAliens(cfg, old(Snapshot()), atEdge, move, shipCollides)
    {
      CheckFleetEdges(atEdge);
      aliens := MoveAliens(aliens, fleetDirection, move);
      if shipCollides {
        ShipHit();
      }
      CheckAliensBottom();
    }

    /** `initialize_dynamic_settings`: base direction and speed. */
    method InitializeDynamicSettings()
      requires Valid()
      modifies this`fleetDirection, this`speedUps
      ensures Valid()
      ensures Snapshot() == Rules.InitializeDynamicSettings(old(Snapshot()))
    {
      fleetDirection := 1;
      speedUps := 0;
    }

    /** `_p_for_play`: reset the statistics, activate and unpause the game, empty both
        groups and build a fresh fleet. */
    method PForPlay()
      requires Valid()
      modifies this
      ensures Valid()
      ensures Snapshot() == Rules.PForPlay(cfg, old(Snapshot()))
    {
      shipsLeft, score, level := cfg.shipLimit, 0, 1;
      gameActive := true;
      paused := false;
      bullets := [];
      aliens := [];
      CreateFleet();
    }

    /** `_check_play_button`. */
    method CheckPlayButton(onPlayButton: bool)
      requires Valid()
      modifies this
      ensures Valid()
      ensures Snapshot() == Rules.CheckPlayButton(cfg, old(Snapshot()), onPlayButton)
    {
      if onPlayButton && !gameActive {
        InitializeDynamicSettings();
        PForPlay();
      }
    }

    /** The effect of `_pause_game`: the game is paused until 'r' is pressed. */
    method PauseGame()
      modifies this`paused
      ensures Snapshot() == old(Snapshot()).(paused := true)
    {
      paused := true;
    }

    /** `_check_keydown_events`; `exit` reports the q key, which ends the process. */
    method CheckKeyDownEvents(key: Key) returns (exit: bool)
      requires Valid()
      modifies this
      ensures Valid()
      ensures exit == (key == KeyQ)
      ensures Snapshot() == Rules.CheckKeyDownEvents(cfg, old(Snapshot()), key)
    {
      exit := false;
      if key == Right {
        movingRight := true;
      }
      if key == Left {
        movingLeft := true;
      } else if key == KeyQ {
        exit := true;
      } else if key == Space {
        FireBullet();
      } else if key == KeyS && !gameActive {
        PForPlay();
      } else if key == KeyP {
        if gameActive {
          PauseGame();
        }
      }
    }

    /** `_check_keyup_events`. */
    method CheckKeyUpEvents(key: Key)
      requires Valid()
      modifies this`movingLeft, this`movingRight
      ensures Valid()
      ensures Snapshot() == Rules.CheckKeyUpEvents(old(Snapshot()), key)
    {
      if key == Right {
        movingRight := false;
      } else {
        movingLeft := false;
      }
    }

    /** A key pressed inside the pause loop: 'r' resumes, q ends the process. */
    method PausedKeyDown(key: Key) returns (exit: bool)
      requires Valid()
      modifies this`paused
      ensures Valid()
      ensures exit == (key == KeyQ)
      ensures Snapshot() == Rules.PausedKeyDown(old(Snapshot()), key)
    {
      exit := false;
      if key == KeyR {
        paused := false;
      }
      if key == KeyQ {
        exit := true;
      }
    }

    /** One event, read by the pause loop while paused and by `_check_events` otherwise. */
    method HandleEvent(e: Event) returns (exit: bool)
      requires Valid()
      modifies this
      ensures Valid()
      ensures exit == Exits(e)
      ensures Snapshot() == Rules.HandleEvent(cfg, old(Snapshot()), e)
    {
      if paused {
        match e
        case Quit => exit := true;
        case KeyDown(k) => exit := PausedKeyDown(k);
        case _ => exit := false;
      } else {
        match e
        case Quit => exit := true;
        case KeyDown(k) => exit := CheckKeyDownEvents(k);
        case KeyUp(k) => CheckKeyUpEvents(k); exit := false;
        case MouseDown(on) => CheckPlayButton(on); exit := false;
      }
    }

    /** `_check_events`: the events of one pass in order, stopping at one that ends
        the process. */
    method CheckEvents(events: seq<Event>) returns (exit: bool)
      requires Valid()
      modifies this
      ensures Valid()
      ensures exit == AnyExits(events)
      ensures Snapshot() == Rules.HandleEvents(cfg, old(Snapshot()), events)
    {
      var i := 0;
      while i < |events|
        invariant 0 <= i <= |events| && Valid()
        invariant forall k :: 0 <= k < i ==> !Exits(events[k])
        invariant Rules.HandleEvents(cfg, Snapshot(), events[i..])
                  == Rules.HandleEvents(cfg, old(Snapshot()), events)
      {
        assert events[i..][1..] == events[i + 1..];
        exit := HandleEvent(events[i]);
        if exit {
          return;
        }
        i := i + 1;
      }
      exit := false;
    }

    /** The guarded update of `run_game`: the world moves only in an active,
        unpaused game. */
    method UpdateWorld(f: Frame)
      requires Valid()
      modifies this
      ensures Valid()
      ensures Snapshot() == Rules.Tick(cfg, old(Snapshot()), f)
    {
      if gameActive && !paused {
        UpdateBullets(f.bulletMove, f.overlap);
        UpdateAliens(f.atEdge, f.alienMove, f.shipCollides);
      }
    }

    /** `run_game` over a finite sequence of passes; `exited` reports that an event
        ended the process. */
    method RunGame(frames: seq<Frame>) returns (exited: bool)
      requires Valid()
      modifies this
      ensures Valid()
      ensures exited == exists k :: 0 <= k < |frames| && AnyExits(frames[k].events)
      ensures Snapshot() == Rules.RunGame(cfg, old(Snapshot()), frames)
    {
      var i := 0;
      while i < |frames|
        invariant 0 <= i <= |frames| && Valid()
        invariant forall k :: 0 <= k < i ==> !AnyExits(frames[k].events)
        invariant Rules.RunGame(cfg, Snapshot(), frames[i..])
                  == Rules.RunGame(cfg, old(Snapshot()), frames)
      {
        assert frames[i..][1..] == frames[i + 1..];
        var exit := CheckEvents(frames[i].events);
        if exit {
          exited := true;
          return;
        }
        UpdateWorld(frames[i]);
        i := i + 1;
      }
      exited := false;
    }
  }
}
