/**
 The player's global game variables of src/main.js and the handlers that
 change them: heart and power-up pickups, and the two per-frame update
 handlers (passive score, immunity countdown, health drain). Timers and the
 frame delta are exact reals; the game logic only compares them with
 thresholds.
 */
module PlayerState {

  const MaxHealth: int := 100
  const HeartHealing: int := 10
  const HeartPoints: int := 1
  const PowerUpPoints: int := 5
  const DrainAmount: int := 10
  /** Seconds of play between two health drains. */
  const DrainPeriod: real := 2.5
  /** Seconds of play between two passive score points (per update handler). */
  const ScorePeriod: real := 1.0
  /** Seconds of immunity a power-up grants. */
  const ImmunityDuration: real := 5.0

  /** The six global variables the game scene reads and writes. */
  datatype Player = Player(
    health: int,
    isImmune: bool,
    immuneTimer: real,
    healthDepletionTimer: real,
    score: int,
    scoreTimer: real)

  /** The values the globals are declared with. */
  const Initial: Player := Player(MaxHealth, false, 0.0, 0.0, 0, 0.0)

  /** The outcome of a handler that may call for the game-over scene. */
  datatype Tick = Tick(player: Player, gameOver: bool)

  function Min(a: int, b: int): int { if a <= b then a else b }
  function Max(a: int, b: int): int { if a >= b then a else b }

  /**
   What holds of the globals between handlers: health within its bounds,
   score non-negative, each accumulator below its period, and an active
   immunity with time left that is at most one power-up's worth.
   */
  predicate Valid(p: Player) {
    && 0 <= p.health <= MaxHealth
    && 0 <= p.score
    && 0.0 <= p.scoreTimer < ScorePeriod
    && 0.0 <= p.healthDepletionTimer < DrainPeriod
    && (p.isImmune ==> 0.0 < p.immuneTimer <= ImmunityDuration)
  }

  /**
   Taking a heart heals by ten without passing the maximum and scores one
   point; nothing else about the player changes.
   */
  function HeartPickup(p: Player): (r: Player)
    ensures r.score == p.score + HeartPoints
    ensures r.health <= MaxHealth && r.health <= p.health + HeartHealing
    ensures r.health == MaxHealth || r.health == p.health + HeartHealing
    ensures p.health <= MaxHealth ==> r.health >= p.health
    ensures r == p.(health := r.health, score := r.score)
    ensures Valid(p) ==> Valid(r)
  {
    p.(health := Min(p.health + HeartHealing, MaxHealth), score := p.score + HeartPoints)
  }

  /**
   Taking a power-up starts a full immunity window whatever was left of the
   previous one, and scores five points; health and the accumulators are
   untouched.
   */
  function PowerUpPickup(p: Player): (r: Player)
    ensures r.isImmune && r.immuneTimer == ImmunityDuration
    ensures r.score == p.score + PowerUpPoints
    ensures r.health == p.health
    ensures r.scoreTimer == p.scoreTimer && r.healthDepletionTimer == p.healthDepletionTimer
    ensures Valid(p) ==> Valid(r)
  {
    p.(isImmune := true, immuneTimer := ImmunityDuration, score := p.score + PowerUpPoints)
  }

  /** The remaining immunity plays no part in a power-up's effect: it is reset, not extended. */
  lemma PowerUpResetsImmunity(p: Player, q: Player)
    requires p.health == q.health && p.score == q.score
    requires p.scoreTimer == q.scoreTimer && p.healthDepletionTimer == q.healthDepletionTimer
    ensures PowerUpPickup(p) == PowerUpPickup(q)
  {
  }

  /**
   One passive-score handler: the accumulator gains `dt`; reaching a whole
   period scores a point and empties the accumulator (the excess is
   dropped), otherwise the score stays.
   */
  function ScoreTick(p: Player, dt: real): (r: Player)
    ensures r.score == p.score || (r.score == p.score + 1 && r.scoreTimer == 0.0)
    ensures r.score == p.score + 1 <==> p.scoreTimer + dt >= ScorePeriod
    ensures r.score == p.score ==> r.scoreTimer == p.scoreTimer + dt
    ensures r == p.(score := r.score, scoreTimer := r.scoreTimer)
  {
    var t := p.scoreTimer + dt;
    if t >= ScorePeriod then p.(score := p.score + 1, scoreTimer := 0.0)
    else p.(scoreTimer := t)
  }

  /**
   The immunity countdown: an active window loses `dt` and closes exactly
   when no time is left; the timer is not clamped at zero. A closed window
   is left alone.
   */
  function ImmunityTick(p: Player, dt: real): (r: Player)
    ensures !p.isImmune ==> r == p
    ensures p.isImmune ==> r.immuneTimer == p.immuneTimer - dt
    ensures p.isImmune ==> (r.isImmune <==> p.immuneTimer - dt > 0.0)
    ensures r == p.(isImmune := r.isImmune, immuneTimer := r.immuneTimer)
  {
    if p.isImmune then
      var left := p.immuneTimer - dt;
      p.(immuneTimer := left, isImmune := !(left <= 0.0))
    else p
  }

  /**
   The health drain: the accumulator gains `dt`; once it reaches the drain
   period, health falls by ten (never below zero), the accumulator empties,
   and the game ends exactly when health is then gone. Before the period
   nothing but the accumulator changes.
   */
  function DrainTick(p: Player, dt: real): (t: Tick)
    ensures p.healthDepletionTimer + dt < DrainPeriod ==>
      t.player == p.(healthDepletionTimer := p.healthDepletionTimer + dt) && !t.gameOver
    ensures p.healthDepletionTimer + dt >= DrainPeriod ==>
      && t.player.healthDepletionTimer == 0.0
      && t.player.health >= 0
      && (t.player.health == p.health - DrainAmount || (t.player.health == 0 && p.health < DrainAmount))
    ensures t.gameOver <==> p.healthDepletionTimer + dt >= DrainPeriod && t.player.health == 0
    ensures t.player == p.(health := t.player.health, healthDepletionTimer := t.player.healthDepletionTimer)
  {
    var acc := p.healthDepletionTimer + dt;
    if acc >= DrainPeriod then
      var h := Max(p.health - DrainAmount, 0);
      Tick(p.(health := h, healthDepletionTimer := 0.0), h <= 0)
    else
      Tick(p.(healthDepletionTimer := acc), false)
  }

  /**
   Everything the two per-frame update handlers do to the player, in the
   order they were registered: the first handler's score tick, then the
   second handler's score tick, immunity countdown and health drain.
   A frame scores at most two passive points, drains at most once, never
   grants immunity, and keeps a valid player valid.
   */
  function Update(p: Player, dt: real): (t: Tick)
    ensures p.score <= t.player.score <= p.score + 2
    ensures t.player.health == p.health || t.player.health == Max(p.health - DrainAmount, 0)
    ensures !p.isImmune ==> !t.player.isImmune && t.player.immuneTimer == p.immuneTimer
    ensures p.isImmune ==> t.player.immuneTimer == p.immuneTimer - dt
    ensures p.isImmune ==> (t.player.isImmune <==> p.immuneTimer - dt > 0.0)
    ensures t.gameOver ==> t.player.health == 0
    ensures Valid(p) && dt >= 0.0 ==> Valid(t.player)
  {
    var first := ScoreTick(p, dt);
    var second := ScoreTick(first, dt);
    DrainTick(ImmunityTick(second, dt), dt)
  }

  /** Total time elapsed over a run of frames. */
  function Sum(dts: seq<real>): real {
    if |dts| == 0 then 0.0 else dts[0] + Sum(dts[1..])
  }

  /** Frame deltas supplied by the engine are never negative. */
  predicate NonNegative(dts: seq<real>) {
    forall i :: 0 <= i < |dts| ==> dts[i] >= 0.0
  }

  /** Elapsed time over frames is never negative. */
  lemma {:induction false} SumNonNegative(dts: seq<real>)
    requires NonNegative(dts)
    ensures Sum(dts) >= 0.0
  {
    if |dts| > 0 {
      SumNonNegative(dts[1..]);
    }
  }

  /** The player after a run of frames' updates, one delta per frame. */
  function Updates(p: Player, dts: seq<real>): Player
    decreases |dts|
  {
    if |dts| == 0 then p else Updates(Update(p, dts[0]).player, dts[1..])
  }

  /** Updates alone never open an immunity window. */
  lemma {:induction false} NoImmunityFromUpdates(p: Player, dts: seq<real>)
    requires !p.isImmune
    ensures !Updates(p, dts).isImmune
    decreases |dts|
  {
    if |dts| > 0 {
      NoImmunityFromUpdates(Update(p, dts[0]).player, dts[1..]);
    }
  }

  /**
   An immunity window with `T` seconds left stays open through a run of
   frames exactly while the run's total time is below `T`, and the timer
   then shows `T` minus that time.
   */
  lemma {:induction false} ImmunityLastsItsTimer(p: Player, dts: seq<real>)
    requires p.isImmune && p.immuneTimer > 0.0
    requires NonNegative(dts)
    ensures Updates(p, dts).isImmune <==> Sum(dts) < p.immuneTimer
    ensures Updates(p, dts).isImmune ==> Updates(p, dts).immuneTimer == p.immuneTimer - Sum(dts)
    decreases |dts|
  {
    if |dts| > 0 {
      var q := Update(p, dts[0]).player;
      assert NonNegative(dts[1..]);
      SumNonNegative(dts[1..]);
      if q.isImmune {
        ImmunityLastsItsTimer(q, dts[1..]);
      } else {
        NoImmunityFromUpdates(q, dts[1..]);
      }
    }
  }

  /** After a power-up, the player is immune exactly until five seconds of frames have passed. */
  lemma PowerUpShieldsFiveSeconds(p: Player, dts: seq<real>)
    requires NonNegative(dts)
    ensures Updates(PowerUpPickup(p), dts).isImmune <==> Sum(dts) < ImmunityDuration
  {
    ImmunityLastsItsTimer(PowerUpPickup(p), dts);
  }

  /** The health text's colour band. */
  datatype Colour = Red | Orange | Green

  /** Red at thirty or less, orange up to sixty, green above. */
  function HealthColour(health: int): (c: Colour)
    ensures c == Red <==> health <= 30
    ensures c == Green <==> health > 60
  {
    if health <= 30 then Red
    else if health <= 60 then Orange
    else Green
  }

  /** Position of a colour from most to least alarming. */
  function Calmness(c: Colour): nat {
    match c
    case Red => 0
    case Orange => 1
    case Green => 2
  }

  /** More health never shows a more alarming colour. */
  lemma HealthColourMonotone(a: int, b: int)
    requires a <= b
    ensures Calmness(HealthColour(a)) <= Calmness(HealthColour(b))
  {
  }
}
