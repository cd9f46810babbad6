/** What the game promises, stated and proved about the rule functions of module
    Rules: the bullet cap, off-screen removal, scoring per hitting bullet, levels,
    lives, fleet direction, the input state machine, and the state invariant. */
module Properties {
  import opened Fleet
  import opened Rules

  // ---------------------------------------------------------------------------
  // Counting and filtering

  lemma {:induction false} CountBound(n: nat, p: nat -> bool)
    ensures Count(n, p) <= n
  {
    if n > 0 {
      CountBound(n - 1, p);
    }
  }

  /** Keep drops exactly the elements whose index is gone. */
  lemma {:induction false} KeepLength<T>(xs: seq<T>, gone: nat -> bool)
    ensures |Keep(xs, gone)| == |xs| - Count(|xs|, gone)
  {
    if xs != [] {
      KeepLength(xs[..|xs| - 1], gone);
    }
  }

  /** An element survives Keep exactly when it stands at an index that is not gone. */
  lemma {:induction false} KeepMembers<T>(xs: seq<T>, gone: nat -> bool, x: T)
    ensures x in Keep(xs, gone) <==> exists i :: 0 <= i < |xs| && !gone(i) && xs[i] == x
  {
    if xs != [] {
      var n := |xs|;
      var front := xs[..n - 1];
      KeepMembers(front, gone, x);
      if exists i :: 0 <= i < n && !gone(i) && xs[i] == x {
        var i :| 0 <= i < n && !gone(i) && xs[i] == x;
        if i < n - 1 {
          assert front[i] == x;
        }
      }
      if x in Keep(front, gone) {
        var i :| 0 <= i < |front| && !gone(i) && front[i] == x;
        assert xs[i] == x;
      }
    }
  }

  // ---------------------------------------------------------------------------
  // Bullets

  /** The removal loop of `_update_bullets` leaves no bullet whose bottom is at or
      above the top edge, keeps every other bullet, and never adds one. */
  lemma {:induction false} OnScreenSpec(bullets: seq<int>)
    ensures forall b :: b in OnScreen(bullets) ==> b > 0
    ensures forall b :: multiset(OnScreen(bullets))[b] == if b > 0 then multiset(bullets)[b] else 0
    ensures |OnScreen(bullets)| <= |bullets|
  {
    if bullets != [] {
      var n := |bullets|;
      var front := bullets[..n - 1];
      OnScreenSpec(front);
      assert bullets == front + [bullets[n - 1]];
    }
  }

  /** Walking one more bullet past the removal test. */
  lemma OnScreenSnoc(bullets: seq<int>, b: int)
    ensures OnScreen(bullets + [b]) == OnScreen(bullets) + (if b <= 0 then [] else [b])
  {
    assert (bullets + [b])[..|bullets|] == bullets;
  }

  /** One pass of the removal loop of `_update_bullets`: with the first i bullets of
      the copy already filtered in place, bullet i sits at index k, and either
      removing it or stepping over it leaves the first i + 1 filtered. */
  lemma RemovalStep(copy: seq<int>, i: nat, bullets: seq<int>, k: nat)
    requires i < |copy|
    requires k == |OnScreen(copy[..i])|
    requires bullets == OnScreen(copy[..i]) + copy[i..]
    ensures k < |bullets| && bullets[k] == copy[i]
    ensures copy[i] <= 0 ==>
      && k == |OnScreen(copy[..i + 1])|
      && bullets[..k] + bullets[k + 1..] == OnScreen(copy[..i + 1]) + copy[i + 1..]
    ensures copy[i] > 0 ==>
      && k + 1 == |OnScreen(copy[..i + 1])|
      && bullets == OnScreen(copy[..i + 1]) + copy[i + 1..]
  {
    var kept := OnScreen(copy[..i]);
    assert copy[..i + 1] == copy[..i] + [copy[i]];
    OnScreenSnoc(copy[..i], copy[i]);
    assert copy[i..] == [copy[i]] + copy[i + 1..];
    assert bullets[..k] == kept;
    assert bullets[k + 1..] == copy[i + 1..];
  }

  /** Space pressed k times in a row. */
  function FiredTimes(c: Config, s: State, k: nat): State
  {
    if k == 0 then s else FireBullet(c, FiredTimes(c, s, k - 1))
  }

  /** Firing adds one bullet per press until `bullets_allowed` bullets are live, and
      then nothing: however often the player fires, the cap is never exceeded, and
      the earlier bullets stay as they were. */
  lemma {:induction false} FiredTimesSpec(c: Config, s: State, k: nat)
    requires |s.bullets| <= c.bulletsAllowed
    ensures var r := FiredTimes(c, s, k);
      && |r.bullets| == (if |s.bullets| + k <= c.bulletsAllowed then |s.bullets| + k else c.bulletsAllowed)
      && r.bullets[..|s.bullets|] == s.bullets
      && (forall i :: |s.bullets| <= i < |r.bullets| ==> r.bullets[i] == c.firedBottom)
      && r.(bullets := s.bullets) == s
  {
    if k > 0 {
      FiredTimesSpec(c, s, k - 1);
      var p := FiredTimes(c, s, k - 1);
      if |p.bullets| < c.bulletsAllowed {
        assert (p.bullets + [c.firedBottom])[..|s.bullets|] == p.bullets[..|s.bullets|];
      }
    }
  }

  // ---------------------------------------------------------------------------
  // Collisions, score and level

  /** The score rises by `alien_points` once per key of the collision dictionary,
      that is once per bullet removed, however many aliens each bullet destroyed;
      it never falls. */
  lemma CollisionScore(c: Config, s: State, overlap: (nat, nat) -> bool)
    requires ValidConfig(c)
    ensures var r := CheckBulletAlienCollisions(c, s, overlap);
      var hits := HitCount(overlap, |s.bullets|, |s.aliens|);
      var spent := |s.bullets| - |Keep(s.bullets, Hitting(overlap, |s.aliens|))|;
      && r.score == s.score + c.alienPoints * hits
      && hits == spent
      && 0 <= hits <= |s.bullets|
      && s.score <= r.score
      && (hits > 0 ==> r.highScore == Max(s.highScore, r.score))
      && (hits == 0 ==> r.highScore == s.highScore)
  {
    KeepLength(s.bullets, Hitting(overlap, |s.aliens|));
    CountBound(|s.bullets|, Hitting(overlap, |s.aliens|));
  }

  /** One bullet that overlaps two aliens destroys both but scores only once. */
  lemma OneBulletTwoAliens(c: Config, s: State)
    requires ValidConfig(c)
    requires |s.bullets| == 1 && |s.aliens| == 3
    ensures var r := CheckBulletAlienCollisions(c, s, (b: nat, a: nat) => b == 0 && a < 2);
      && r.score == s.score + c.alienPoints
      && r.aliens == [s.aliens[2]]
      && r.bullets == []
      && r.level == s.level
  {
    var overlap := (b: nat, a: nat) => b == 0 && a < 2;
    assert BulletHits(overlap, 0, 3) by { assert overlap(0, 0); }
    assert AlienHit(overlap, 0, 1) by { assert overlap(0, 0); }
    assert AlienHit(overlap, 1, 1) by { assert overlap(0, 1); }
    assert Count(1, Hitting(overlap, 3)) == 1;
    assert s.aliens[..2][..1] == s.aliens[..1];
    assert s.aliens[..3] == s.aliens;
    assert Keep(s.aliens[..1], Struck(overlap, 1)) == [];
    assert Keep(s.aliens[..2], Struck(overlap, 1)) == [];
    assert s.bullets[..0] == [];
    assert Keep(s.bullets, Hitting(overlap, 3)) == [];
  }

  /** Counting a weaker predicate gives no more; one index where only the stronger
      holds gives strictly fewer. */
  lemma {:induction false} CountMono(n: nat, p: nat -> bool, q: nat -> bool, k: int)
    requires forall i: nat :: i < n && p(i) ==> q(i)
    ensures Count(n, p) <= Count(n, q)
    ensures 0 <= k < n && q(k) && !p(k) ==> Count(n, p) < Count(n, q)
    decreases n
  {
    if n > 0 {
      CountMono(n - 1, p, q, k);
    }
  }

  /** Every key of the collision dictionary owns an alien that no earlier bullet
      destroyed, so there are never more keys than destroyed aliens. */
  lemma {:induction false} KeysAtMostDestroyed(overlap: (nat, nat) -> bool, nb: nat, na: nat)
    ensures HitCount(overlap, nb, na) <= Count(na, Struck(overlap, nb))
    decreases nb
  {
    if nb > 0 {
      KeysAtMostDestroyed(overlap, nb - 1, na);
      var p, q := Struck(overlap, nb - 1), Struck(overlap, nb);
      forall i: nat | i < na && p(i)
        ensures q(i)
      {
        var b: nat :| b < nb - 1 && overlap(b, i);
        assert b < nb && overlap(b, i);
      }
      if BulletHits(overlap, nb - 1, na) {
        var a: nat :| a < na && overlap(nb - 1, a) && forall e: nat :: e < nb - 1 ==> !overlap(e, a);
        assert q(a) by { assert overlap(nb - 1, a); }
        CountMono(na, p, q, a);
      } else {
        CountMono(na, p, q, -1);
      }
    }
  }

  /** The score never rises by more than `alien_points` per destroyed alien. */
  lemma ScoreAtMostDestroyed(c: Config, s: State, overlap: (nat, nat) -> bool)
    requires ValidConfig(c)
    ensures var r := Collide(c, s, overlap);
      r.score <= s.score + c.alienPoints * (|s.aliens| - |r.aliens|)
  {
    var nb, na := |s.bullets|, |s.aliens|;
    KeysAtMostDestroyed(overlap, nb, na);
    KeepLength(s.aliens, Struck(overlap, nb));
    MulMono(HitCount(overlap, nb, na), Count(na, Struck(overlap, nb)), c.alienPoints);
    assert HitCount(overlap, nb, na) * c.alienPoints == c.alienPoints * HitCount(overlap, nb, na);
    assert Count(na, Struck(overlap, nb)) * c.alienPoints == c.alienPoints * Count(na, Struck(overlap, nb));
  }

  /** Two bullets that both overlap the first of two aliens: the first bullet
      destroys it, so the second finds nothing left to hit; it is no key of the
      collision dictionary, stays on screen and scores nothing. */
  lemma TwoBulletsOneAlien(c: Config, s: State)
    requires ValidConfig(c)
    requires |s.bullets| == 2 && |s.aliens| == 2
    ensures var r := CheckBulletAlienCollisions(c, s, (b: nat, a: nat) => a == 0);
      && r.score == s.score + c.alienPoints
      && r.bullets == [s.bullets[1]]
      && r.aliens == [s.aliens[1]]
      && r.level == s.level
  {
    var overlap := (b: nat, a: nat) => a == 0;
    assert BulletHits(overlap, 0, 2) by { assert overlap(0, 0); }
    assert !BulletHits(overlap, 1, 2) by {
      forall a: nat | a < 2 && overlap(1, a)
        ensures !(forall e: nat :: e < 1 ==> !overlap(e, a))
      {
        assert overlap(0, a);
      }
    }
    assert AlienHit(overlap, 0, 2) by { assert overlap(0, 0); }
    assert !AlienHit(overlap, 1, 2);
    assert Count(2, Hitting(overlap, 2)) == 1;
    assert s.bullets[..1] == [s.bullets[0]];
    assert Keep(s.bullets[..1], Hitting(overlap, 2)) == [];
    assert Keep(s.bullets, Hitting(overlap, 2)) == [s.bullets[1]];
    assert s.aliens[..1] == [s.aliens[0]];
    assert Keep(s.aliens[..1], Struck(overlap, 2)) == [];
    assert Keep(s.aliens, Struck(overlap, 2)) == [s.aliens[1]];
  }

  /** The aliens that survive are exactly those no bullet touched. When none is
      left, the bullets go, a fresh fleet is built, the game speeds up and the level
      rises by exactly one; otherwise the level stays. */
  lemma CollisionLevel(c: Config, s: State, overlap: (nat, nat) -> bool)
    requires ValidConfig(c)
    ensures var r := CheckBulletAlienCollisions(c, s, overlap);
      var left := Keep(s.aliens, Struck(overlap, |s.bullets|));
      && (forall a :: a in left <==>
            exists i :: 0 <= i < |s.aliens| && !AlienHit(overlap, i, |s.bullets|) && s.aliens[i] == a)
      && |left| == |s.aliens| - Count(|s.aliens|, Struck(overlap, |s.bullets|))
      && (left == [] ==>
            && r.level == s.level + 1
            && r.bullets == []
            && r.aliens == NewFleet(c)
            && r.speedUps == s.speedUps + 1)
      && (left != [] ==>
            && r.level == s.level
            && r.aliens == left
            && r.bullets == Keep(s.bullets, Hitting(overlap, |s.aliens|))
            && r.speedUps == s.speedUps)
  {
    var nb := |s.bullets|;
    KeepLength(s.aliens, Struck(overlap, nb));
    forall a
      ensures a in Keep(s.aliens, Struck(overlap, nb)) <==>
              exists i :: 0 <= i < |s.aliens| && !AlienHit(overlap, i, nb) && s.aliens[i] == a
    {
      KeepMembers(s.aliens, Struck(overlap, nb), a);
    }
  }

  // ---------------------------------------------------------------------------
  // Lives

  /** One hit: with a ship in reserve it is used up and the board restarts; with
      none the game ends and nothing else changes. */
  lemma ShipHitSpec(c: Config, s: State)
    requires ValidConfig(c) && s.shipsLeft >= 0
    ensures var r := ShipHit(c, s);
      && r.shipsLeft >= 0
      && (s.shipsLeft > 0 ==>
            r == s.(shipsLeft := s.shipsLeft - 1, bullets := [], aliens := NewFleet(c)))
      && (s.shipsLeft == 0 ==> !r.gameActive && r.(gameActive := s.gameActive) == s)
  {
  }

  /** k hits in a row leave max(0, ships_left - k) ships; the game stays active for
      exactly ships_left hits and the next one ends it. Score and level are kept. */
  lemma {:induction false} ShipHitsSpec(c: Config, s: State, k: nat)
    requires ValidConfig(c) && s.shipsLeft >= 0
    ensures var r := ShipHits(c, s, k);
      && r.shipsLeft == Max(0, s.shipsLeft - k)
      && r.gameActive == (s.gameActive && k <= s.shipsLeft)
      && r.score == s.score && r.level == s.level && r.highScore == s.highScore
  {
    if k > 0 {
      ShipHitsSpec(c, s, k - 1);
    }
  }

  /** A game that starts with a full set of ships survives `ship_limit` hits, and
      the next hit ends it: the game does not end when the last reserve ship is
      used up, only at the hit after that. */
  lemma LastHitEndsGame(c: Config, s: State)
    requires ValidConfig(c) && s.gameActive && s.shipsLeft == c.shipLimit
    ensures ShipHits(c, s, c.shipLimit).gameActive
    ensures ShipHits(c, s, c.shipLimit).shipsLeft == 0
    ensures !ShipHits(c, s, c.shipLimit + 1).gameActive
  {
    ShipHitsSpec(c, s, c.shipLimit);
    ShipHitsSpec(c, s, c.shipLimit + 1);
  }

  // ---------------------------------------------------------------------------
  // Fleet direction

  /** One change of direction: the direction is negated, every alien drops by
      `fleet_drop_speed`, x positions and the number of aliens stay. */
  lemma ChangeFleetDirectionSpec(c: Config, s: State)
    ensures var r := ChangeFleetDirection(c, s);
      && r.fleetDirection == -s.fleetDirection
      && |r.aliens| == |s.aliens|
      && (forall i :: 0 <= i < |s.aliens| ==>
            r.aliens[i].x == s.aliens[i].x && r.aliens[i].y == s.aliens[i].y + c.fleetDropSpeed)
      && r.(aliens := s.aliens, fleetDirection := s.fleetDirection) == s
  {
  }

  /** Changing direction twice restores the direction and leaves the fleet two drops lower. */
  lemma ChangeFleetDirectionTwice(c: Config, s: State)
    ensures var r := ChangeFleetDirection(c, ChangeFleetDirection(c, s));
      && r.fleetDirection == s.fleetDirection
      && r.aliens == Dropped(s.aliens, 2 * c.fleetDropSpeed)
  {
  }

  /** `_check_fleet_edges` changes direction at most once: the fleet drops by one
      `fleet_drop_speed` and turns if some alien touches an edge, and else nothing moves. */
  lemma CheckFleetEdgesAtMostOnce(c: Config, s: State, atEdge: Alien -> bool)
    ensures var r := CheckFleetEdges(c, s, atEdge);
      var drop := if AnyAtEdge(s.aliens, atEdge) then c.fleetDropSpeed else 0;
      && |r.aliens| == |s.aliens|
      && (forall i :: 0 <= i < |s.aliens| ==>
            r.aliens[i].x == s.aliens[i].x && r.aliens[i].y == s.aliens[i].y + drop)
      && r.fleetDirection == (if AnyAtEdge(s.aliens, atEdge) then -s.fleetDirection else s.fleetDirection)
  {
  }

  // ---------------------------------------------------------------------------
  // Input and the play/pause state machine

  /** Starting (the 's' key or a click on the play button) only happens in an
      inactive game, and it leaves an active, unpaused game with fresh statistics,
      no bullets and a fresh fleet. Only the button resets the dynamic settings. */
  lemma StartOnlyWhenInactive(c: Config, s: State, e: Event)
    requires ValidConfig(c) && !s.paused
    requires e == KeyDown(KeyS) || e == MouseDown(true)
    ensures var r := HandleEvent(c, s, e);
      && (s.gameActive ==> r == s)
      && (!s.gameActive ==>
            && r.gameActive && !r.paused
            && r.bullets == [] && r.aliens == NewFleet(c)
            && r.shipsLeft == c.shipLimit && r.score == 0 && r.level == 1
            && r.highScore == s.highScore)
      && (!s.gameActive && e == KeyDown(KeyS) ==>
            r.fleetDirection == s.fleetDirection && r.speedUps == s.speedUps)
      && (!s.gameActive && e == MouseDown(true) ==>
            r.fleetDirection == 1 && r.speedUps == 0)
  {
  }

  /** 'p' pauses an active game and does nothing else. */
  lemma PauseOnlyWhenActive(c: Config, s: State)
    requires ValidConfig(c) && !s.paused
    ensures var r := HandleEvent(c, s, KeyDown(KeyP));
      && r.paused == s.gameActive
      && r.(paused := s.paused) == s
  {
  }

  /** While paused, only 'r' changes the state, and it only unpauses. */
  lemma ResumeOnlyOnR(c: Config, s: State, e: Event)
    requires ValidConfig(c) && s.paused
    ensures var r := HandleEvent(c, s, e);
      && r.paused == (e != KeyDown(KeyR))
      && r.(paused := s.paused) == s
  {
  }

  /** Releasing Right stops only the move right; releasing any other key, not just
      Left, stops only the move left. */
  lemma KeyUpStopsMoves(c: Config, s: State, k: Key)
    requires ValidConfig(c) && !s.paused
    ensures var r := HandleEvent(c, s, KeyUp(k));
      && r.movingRight == (s.movingRight && k != Right)
      && r.movingLeft == (s.movingLeft && k == Right)
      && r.(movingLeft := s.movingLeft, movingRight := s.movingRight) == s
  {
  }

  /** Pressing Left or Right only starts the move that way. */
  lemma KeyDownStartsMoves(c: Config, s: State, k: Key)
    requires ValidConfig(c) && !s.paused
    requires k == Left || k == Right
    ensures var r := HandleEvent(c, s, KeyDown(k));
      && r.movingRight == (s.movingRight || k == Right)
      && r.movingLeft == (s.movingLeft || k == Left)
      && r.(movingLeft := s.movingLeft, movingRight := s.movingRight) == s
  {
  }

  /** The world only moves in an active, unpaused game. */
  lemma TickOnlyWhenRunning(c: Config, s: State, f: Frame)
    requires ValidConfig(c)
    requires !s.gameActive || s.paused
    ensures Tick(c, s, f) == s
  {
  }

  // ---------------------------------------------------------------------------
  // The invariant

  lemma InitialInv(c: Config)
    requires ValidConfig(c)
    ensures Inv(c, Initial(c))
  {
  }

  /** Every event keeps the invariant; in particular no event takes the number of
      live bullets above `bullets_allowed` or ships_left below zero. */
  lemma EventKeepsInv(c: Config, s: State, e: Event)
    requires ValidConfig(c) && Inv(c, s)
    ensures Inv(c, HandleEvent(c, s, e))
  {
    if !s.paused {
      match e
      case KeyDown(k) => PForPlayKeepsInv(c, s);
      case MouseDown(on) => PForPlayKeepsInv(c, InitializeDynamicSettings(s));
      case _ =>
    }
  }

  /** Starting a game keeps the invariant. */
  lemma PForPlayKeepsInv(c: Config, s: State)
    requires ValidConfig(c) && Inv(c, s)
    ensures Inv(c, PForPlay(c, s))
  {
  }

  lemma CollisionsKeepInv(c: Config, s: State, overlap: (nat, nat) -> bool)
    requires ValidConfig(c) && Inv(c, s)
    ensures var r := CheckBulletAlienCollisions(c, s, overlap);
      Inv(c, r) && s.score <= r.score && s.level <= r.level && r.shipsLeft == s.shipsLeft
  {
    CollisionScore(c, s, overlap);
  }

  lemma UpdateBulletsKeepsInv(c: Config, s: State, move: int -> int, overlap: (nat, nat) -> bool)
    requires ValidConfig(c) && Inv(c, s)
    ensures var r := UpdateBullets(c, s, move, overlap);
      Inv(c, r) && s.score <= r.score && s.level <= r.level && r.shipsLeft == s.shipsLeft
  {
    OnScreenSpec(MoveBullets(s.bullets, move));
    CollisionsKeepInv(c, s.(bullets := OnScreen(MoveBullets(s.bullets, move))), overlap);
  }

  lemma ShipHitKeepsInv(c: Config, s: State)
    requires ValidConfig(c) && Inv(c, s)
    ensures var r := ShipHit(c, s);
      && Inv(c, r)
      && r.score == s.score && r.level == s.level && r.shipsLeft <= s.shipsLeft
  {
  }

  lemma UpdateAliensKeepsInv(c: Config, s: State, atEdge: Alien -> bool,
                             move: (Alien, int) -> Alien, shipCollides: bool)
    requires ValidConfig(c) && Inv(c, s)
    ensures var r := UpdateAliens(c, s, atEdge, move, shipCollides);
      && Inv(c, r)
      && r.score == s.score && r.level == s.level && r.shipsLeft <= s.shipsLeft
  {
    var s1 := CheckFleetEdges(c, s, atEdge);
    assert Inv(c, s1) && s1.(aliens := s.aliens, fleetDirection := s.fleetDirection) == s;
    var s2 := s1.(aliens := MoveAliens(s1.aliens, s1.fleetDirection, move));
    var s3 := if shipCollides then ShipHit(c, s2) else s2;
    ShipHitKeepsInv(c, s2);
    ShipHitKeepsInv(c, s3);
  }

  /** A tick keeps the invariant, never lowers the score or the level and never
      raises the number of ships left. */
  lemma TickKeepsInv(c: Config, s: State, f: Frame)
    requires ValidConfig(c) && Inv(c, s)
    ensures var r := Tick(c, s, f);
      Inv(c, r) && s.score <= r.score && s.level <= r.level && r.shipsLeft <= s.shipsLeft
  {
    if s.gameActive && !s.paused {
      UpdateBulletsKeepsInv(c, s, f.bulletMove, f.overlap);
      var mid := UpdateBullets(c, s, f.bulletMove, f.overlap);
      UpdateAliensKeepsInv(c, mid, f.atEdge, f.alienMove, f.shipCollides);
    }
  }

  /** The events of one pass keep the invariant. */
  lemma {:induction false} HandleEventsKeepsInv(c: Config, s: State, events: seq<Event>)
    requires ValidConfig(c) && Inv(c, s)
    ensures Inv(c, HandleEvents(c, s, events))
    decreases |events|
  {
    if events != [] && !Exits(events[0]) {
      EventKeepsInv(c, s, events[0]);
      HandleEventsKeepsInv(c, HandleEvent(c, s, events[0]), events[1..]);
    }
  }

  /** However many passes the main loop makes, whenever the game is running a fleet
      is on screen, provided the screen holds one alien. */
  lemma FleetWhileRunning(c: Config, s: State, frames: seq<Frame>)
    requires ValidConfig(c) && Inv(c, s)
    requires 3 * c.alienWidth < c.screenWidth && 4 * c.alienHeight < c.screenHeight
    ensures var r := RunGame(c, s, frames);
      r.gameActive ==> |r.aliens| > 0
  {
    RunGameKeepsInv(c, s, frames);
    FleetLayoutNonEmpty(c.alienWidth, c.alienHeight, c.screenWidth, c.screenHeight);
  }

  /** However many passes the main loop makes, the invariant holds after each of
      them: never more than `bullets_allowed` live bullets, never fewer than zero ships. */
  lemma {:induction false} RunGameKeepsInv(c: Config, s: State, frames: seq<Frame>)
    requires ValidConfig(c) && Inv(c, s)
    ensures Inv(c, RunGame(c, s, frames))
    decreases |frames|
  {
    if frames != [] {
      HandleEventsKeepsInv(c, s, frames[0].events);
      if !AnyExits(frames[0].events) {
        var mid := HandleEvents(c, s, frames[0].events);
        TickKeepsInv(c, mid, frames[0]);
        RunGameKeepsInv(c, Tick(c, mid, frames[0]), frames[1..]);
      }
    }
  }
}
