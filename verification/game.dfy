/**
 The game scene's rules in src/main.js as one session: the stored
 leaderboard, the player's global variables, and the current scene. The
 engine reports what happened — a frame with its delta, a contact with the
 enemy or with a collectible, a spawn wave, the positions for the fall-off
 check, a restart key or click — and `Step` applies the matching handler.

 Switching scenes is deferred by the engine to the end of the frame, so a
 handler that asks for the game-over scene only counts one more request in
 `requests`; the other handlers of that frame still run. At `FrameEnd` each
 request sets up the game-over scene once, in turn, and each set-up records
 the final score on the leaderboard again.
 */
module Game {
  import opened PlayerState
  import opened Collectibles
  import opened Leaderboard
  import opened Sorting

  datatype Scene =
    | Playing(items: seq<Collectible>, requests: nat)
    | GameOver(board: seq<int>)

  datatype Session = Session(stored: Stored, player: Player, scene: Scene)

  /** What the engine reports to the game's handlers. */
  datatype Event =
    | Frame(dt: real)
    | FallCheck(playerY: real, enemyY: real, height: real)
    | EnemyContact
    | Touch(index: nat)
    | Spawn(withPowerUp: bool)
    | FrameEnd
    | Restart(withPowerUp: bool)

  /** The engine's frame delta is never negative. */
  predicate Admissible(e: Event) {
    e.Frame? ==> e.dt >= 0.0
  }

  predicate AllAdmissible(events: seq<Event>) {
    forall i :: 0 <= i < |events| ==> Admissible(events[i])
  }

  /**
   Entering the game scene: no collectibles but the first spawn wave, no
   game over pending, and the player's globals as they stand.
   */
  function EnterGame(stored: Stored, player: Player, withPowerUp: bool): (s: Session)
    ensures s.scene.Playing? && s.scene.requests == 0
    ensures s.scene.items ==
      if withPowerUp then [Collectible(Heart, HeartLifetime), Collectible(PowerUp, PowerUpLifetime)]
      else [Collectible(Heart, HeartLifetime)]
    ensures s.player == player && s.stored == stored
  {
    Session(stored, player, Playing(SpawnWave([], withPowerUp), 0))
  }

  /** The first game of a page load starts from the declared values of the globals. */
  function Begin(stored: Stored, withPowerUp: bool): (s: Session)
    ensures s.player.health == MaxHealth && s.player.score == 0 && !s.player.isImmune
    ensures s.player.immuneTimer == 0.0 && s.player.healthDepletionTimer == 0.0 && s.player.scoreTimer == 0.0
    ensures Valid(s)
  {
    EnterGame(stored, Initial, withPowerUp)
  }

  /**
   Contact with the enemy asks for the game-over scene exactly when the
   player is not immune; it costs nothing else.
   */
  function OnEnemyContact(s: Session): (r: Session)
    requires s.scene.Playing?
    ensures r.scene.Playing? && r.scene.items == s.scene.items
    ensures r.scene.requests == s.scene.requests + (if s.player.isImmune then 0 else 1)
    ensures r.player == s.player && r.stored == s.stored
  {
    s.(scene := s.scene.(requests := s.scene.requests + (if s.player.isImmune then 0 else 1)))
  }

  /** Either body at or below the bottom edge of the screen. */
  predicate FellOff(playerY: real, enemyY: real, height: real) {
    playerY >= height || enemyY >= height
  }

  /**
   The fall-off check asks for the game-over scene when the player or the
   enemy has dropped to the bottom edge, immune or not.
   */
  function OnFallCheck(s: Session, playerY: real, enemyY: real, height: real): (r: Session)
    requires s.scene.Playing?
    ensures r.scene.Playing? && r.scene.items == s.scene.items
    ensures r.scene.requests == s.scene.requests + (if playerY >= height || enemyY >= height then 1 else 0)
    ensures r.player == s.player && r.stored == s.stored
  {
    s.(scene := s.scene.(requests := s.scene.requests + (if FellOff(playerY, enemyY, height) then 1 else 0)))
  }

  /**
   Touching the collectible at `index` destroys it and applies its effect:
   a heart heals and scores, a power-up grants immunity and scores. An index
   naming no live collectible has no handler and changes nothing.
   */
  function OnTouch(s: Session, index: nat): (r: Session)
    requires s.scene.Playing?
    ensures index >= |s.scene.items| ==> r == s
    ensures index < |s.scene.items| ==>
      && r.scene == Playing(Remove(s.scene.items, index), s.scene.requests)
      && r.stored == s.stored
      && (s.scene.items[index].kind == Heart ==> r.player == HeartPickup(s.player))
      && (s.scene.items[index].kind == PowerUp ==> r.player == PowerUpPickup(s.player))
  {
    var items := s.scene.items;
    if index < |items| then
      var taken := items[index];
      var player := match taken.kind
        case Heart => HeartPickup(s.player)
        case PowerUp => PowerUpPickup(s.player);
      Session(s.stored, player, Playing(Remove(items, index), s.scene.requests))
    else s
  }

  /** A spawn wave adds a heart, and a power-up when the wave brings one. */
  function OnSpawn(s: Session, withPowerUp: bool): (r: Session)
    requires s.scene.Playing?
    ensures r.scene == Playing(SpawnWave(s.scene.items, withPowerUp), s.scene.requests)
    ensures r.player == s.player && r.stored == s.stored
  {
    s.(scene := s.scene.(items := SpawnWave(s.scene.items, withPowerUp)))
  }

  /**
   The frame's update handlers: the player's timers advance, the
   collectibles age, and a drain that empties health asks for the game-over
   scene.
   */
  function OnFrame(s: Session, dt: real): (r: Session)
    requires s.scene.Playing?
    ensures r.player == Update(s.player, dt).player
    ensures r.scene.Playing? && r.scene.items == Age(s.scene.items, dt)
    ensures r.scene.requests == s.scene.requests + (if Update(s.player, dt).gameOver then 1 else 0)
    ensures r.stored == s.stored
  {
    var t := Update(s.player, dt);
    Session(s.stored, t.player, Playing(Age(s.scene.items, dt), s.scene.requests + (if t.gameOver then 1 else 0)))
  }

  /**
   The end of a frame: if handlers asked for it, the game-over scene opens
   once per request. Each opening records the player's score as it stands
   after every handler of the frame and stores the resulting board, and the
   last opening's board is the one shown. With no request nothing happens.
   */
  function OnFrameEnd(s: Session): (r: Session)
    requires s.scene.Playing?
    ensures s.scene.requests == 0 ==> r == s
    ensures s.scene.requests > 0 ==>
      && r.stored == RecordTimes(s.stored, s.player.score, s.scene.requests)
      && r.scene == GameOver(r.stored.scores)
      && r.player == s.player
    ensures s.scene.requests == 1 ==> r.scene == GameOver(UpdateTopScores(s.stored, s.player.score))
  {
    if s.scene.requests > 0 then
      var stored := RecordTimes(s.stored, s.player.score, s.scene.requests);
      Session(stored, s.player, GameOver(stored.scores))
    else s
  }

  /**
   Restarting from the game-over scene resets health and score and enters
   the game scene again; immunity and both timers carry over.
   */
  function OnRestart(s: Session, withPowerUp: bool): (r: Session)
    requires s.scene.GameOver?
    ensures r.player.health == MaxHealth && r.player.score == 0
    ensures r.player.isImmune == s.player.isImmune && r.player.immuneTimer == s.player.immuneTimer
    ensures r.player.scoreTimer == s.player.scoreTimer
    ensures r.player.healthDepletionTimer == s.player.healthDepletionTimer
    ensures r == EnterGame(s.stored, r.player, withPowerUp)
  {
    EnterGame(s.stored, s.player.(health := MaxHealth, score := 0), withPowerUp)
  }

  /**
   Applies one reported event. The game scene has handlers for everything
   but the restart; the game-over scene only for the restart. Only the end
   of a frame leaves the game scene or writes the storage, and only a
   restart leaves the game-over scene.
   */
  function Step(s: Session, e: Event): (r: Session)
    ensures s.scene.Playing? && e.Restart? ==> r == s
    ensures s.scene.Playing? && !e.FrameEnd? ==> r.scene.Playing? && r.stored == s.stored
    ensures s.scene.GameOver? && !e.Restart? ==> r == s
    ensures s.scene.GameOver? && e.Restart? ==>
      && r.scene.Playing? && r.scene.requests == 0
      && r.player.health == MaxHealth && r.player.score == 0
      && r.stored == s.stored
  {
    match s.scene
    case Playing(_, _) =>
      (match e
       case Frame(dt) => OnFrame(s, dt)
       case FallCheck(py, ey, h) => OnFallCheck(s, py, ey, h)
       case EnemyContact => OnEnemyContact(s)
       case Touch(i) => OnTouch(s, i)
       case Spawn(w) => OnSpawn(s, w)
       case FrameEnd => OnFrameEnd(s)
       case Restart(_) => s)
    case GameOver(_) =>
      (match e
       case Restart(w) => OnRestart(s, w)
       case _ => s)
  }

  /** Applies the events in order. */
  function Run(s: Session, events: seq<Event>): Session
    decreases |events|
  {
    if |events| == 0 then s else Run(Step(s, events[0]), events[1..])
  }

  /**
   What holds between events: the player's globals are valid, every
   collectible on the ground is live, and the game-over scene shows the
   board that was just stored, ordered and at most three long.
   */
  predicate Valid(s: Session) {
    && PlayerState.Valid(s.player)
    && (s.scene.Playing? ==> AllLive(s.scene.items))
    && (s.scene.GameOver? ==>
          && s.stored == Present(s.scene.board)
          && SortedDesc(s.scene.board)
          && 1 <= |s.scene.board| <= Slots)
  }

  /** Every handler keeps a valid session valid. */
  lemma StepPreservesValid(s: Session, e: Event)
    requires Valid(s) && Admissible(e)
    ensures Valid(Step(s, e))
  {
  }

  /**
   Health stays within 0..100, the accumulators below their periods, and
   immunity within one power-up's window, whatever the engine reports.
   */
  lemma {:induction false} RunPreservesValid(s: Session, events: seq<Event>)
    requires Valid(s) && AllAdmissible(events)
    ensures Valid(Run(s, events))
    decreases |events|
  {
    if |events| > 0 {
      StepPreservesValid(s, events[0]);
      assert AllAdmissible(events[1..]) by {
        forall i | 0 <= i < |events[1..]|
          ensures Admissible(events[1..][i])
        {
          assert events[1..][i] == events[i + 1];
        }
      }
      RunPreservesValid(Step(s, events[0]), events[1..]);
    }
  }

  /** No handler other than the restart lowers the score. */
  lemma StepNeverLowersScore(s: Session, e: Event)
    requires !e.Restart?
    ensures Step(s, e).player.score >= s.player.score
  {
  }

  /** Within a game — between restarts — the score never decreases. */
  lemma {:induction false} ScoreNeverDecreasesDuringGame(s: Session, events: seq<Event>)
    requires forall i :: 0 <= i < |events| ==> !events[i].Restart?
    ensures Run(s, events).player.score >= s.player.score
    decreases |events|
  {
    if |events| > 0 {
      StepNeverLowersScore(s, events[0]);
      ScoreNeverDecreasesDuringGame(Step(s, events[0]), events[1..]);
    }
  }

  /**
   While a game runs with no game over pending, touching the enemy ends it
   at the frame's end exactly when the player is not immune; falling off
   ends it always.
   */
  lemma LossConditions(s: Session, playerY: real, enemyY: real, height: real)
    requires s.scene.Playing? && s.scene.requests == 0
    ensures Step(Step(s, EnemyContact), FrameEnd).scene.GameOver? <==> !s.player.isImmune
    ensures Step(Step(s, FallCheck(playerY, enemyY, height)), FrameEnd).scene.GameOver? <==> FellOff(playerY, enemyY, height)
  {
  }

  /**
   A frame whose drain empties health and in which an unprotected player
   also touches the enemy makes two requests, so the frame's end records
   the final score twice.
   */
  lemma DrainAndContactInOneFrame(s: Session, dt: real)
    requires s.scene.Playing? && s.scene.requests == 0
    requires Update(s.player, dt).gameOver && !Update(s.player, dt).player.isImmune
    ensures var r := Run(s, [Frame(dt), EnemyContact, FrameEnd]);
      && r.stored == RecordTimes(s.stored, Update(s.player, dt).player.score, 2)
      && r.scene == GameOver(r.stored.scores)
  {
    var s1 := Step(s, Frame(dt));
    assert s1.scene.Playing? && s1.scene.requests == 1 && s1.player == Update(s.player, dt).player
      && s1.stored == s.stored;
    var s2 := Step(s1, EnemyContact);
    assert s2.scene.Playing? && s2.scene.requests == 2 && s2.player == s1.player && s2.stored == s.stored;
    FrameEndRecords(s2);
    RunThree(s, Frame(dt), EnemyContact, FrameEnd);
  }

  /** The end of a frame with pending requests records the score once per request. */
  lemma FrameEndRecords(s: Session)
    requires s.scene.Playing? && s.scene.requests > 0
    ensures Step(s, FrameEnd).stored == RecordTimes(s.stored, s.player.score, s.scene.requests)
    ensures Step(s, FrameEnd).scene == GameOver(Step(s, FrameEnd).stored.scores)
  {
    assert Step(s, FrameEnd) == OnFrameEnd(s);
  }

  /** Running three events is stepping through them in order. */
  lemma RunThree(s: Session, a: Event, b: Event, c: Event)
    ensures Run(s, [a, b, c]) == Step(Step(Step(s, a), b), c)
  {
    var es := [a, b, c];
    assert es[1..] == [b, c];
    assert [b, c][1..] == [c];
    assert [c][1..] == [];
    calc {
      Run(s, es);
      Run(Step(s, a), [b, c]);
      Run(Step(Step(s, a), b), [c]);
      Run(Step(Step(Step(s, a), b), c), []);
    }
  }

  /** The game-over scene reacts to nothing but a restart. */
  lemma GameOverIgnoresPlay(s: Session, e: Event)
    requires s.scene.GameOver? && !e.Restart?
    ensures Step(s, e) == s
  {
  }

  /**
   Five one-second frames from a fresh start: both passive score handlers
   fire every frame, so the score is ten; the drain fires once, at the
   third frame, and its reset to zero loses the half second of excess, so
   health is ninety.
   */
  lemma FiveOneSecondFrames(stored: Stored, withPowerUp: bool)
    ensures var s := Run(Begin(stored, withPowerUp), [Frame(1.0), Frame(1.0), Frame(1.0), Frame(1.0), Frame(1.0)]);
      s.player.score == 10 && s.player.health == 90 && s.player.healthDepletionTimer == 2.0
  {
    var s0 := Begin(stored, withPowerUp);
    var s1 := Step(s0, Frame(1.0));
    assert s1.player.score == 2 && s1.player.healthDepletionTimer == 1.0;
    var s2 := Step(s1, Frame(1.0));
    assert s2.player.score == 4 && s2.player.healthDepletionTimer == 2.0;
    var s3 := Step(s2, Frame(1.0));
    assert s3.player.score == 6 && s3.player.health == 90 && s3.player.healthDepletionTimer == 0.0;
    var s4 := Step(s3, Frame(1.0));
    var s5 := Step(s4, Frame(1.0));
    assert s5.player.score == 10 && s5.player.health == 90;
    assert Run(s0, [Frame(1.0), Frame(1.0), Frame(1.0), Frame(1.0), Frame(1.0)]) == s5 by {
      var fs := [Frame(1.0), Frame(1.0), Frame(1.0), Frame(1.0), Frame(1.0)];
      assert fs[1..] == [Frame(1.0), Frame(1.0), Frame(1.0), Frame(1.0)];
      assert fs[1..][1..] == [Frame(1.0), Frame(1.0), Frame(1.0)];
      assert fs[1..][1..][1..] == [Frame(1.0), Frame(1.0)];
      assert fs[1..][1..][1..][1..] == [Frame(1.0)];
    }
  }
}
