/**
 The timed collectibles of src/main.js: hearts and power-ups that appear
 with a lifetime, lose each frame's delta, and disappear once their time is
 up or when the player takes them. The live objects are kept as a sequence
 in spawn order; the engine's random spawn schedule is left to the caller,
 which says when a wave spawns and whether it brings a power-up.
 */
module Collectibles {

  datatype Kind = Heart | PowerUp

  datatype Collectible = Collectible(kind: Kind, timeLeft: real)

  /** Seconds a heart stays on the ground. */
  const HeartLifetime: real := 20.0
  /** Seconds a power-up stays on the ground. */
  const PowerUpLifetime: real := 10.0

  function Lifetime(k: Kind): real {
    match k
    case Heart => HeartLifetime
    case PowerUp => PowerUpLifetime
  }

  /** A live collectible has time left, and no more than it was spawned with. */
  predicate Live(c: Collectible) {
    0.0 < c.timeLeft <= Lifetime(c.kind)
  }

  predicate AllLive(items: seq<Collectible>) {
    forall i :: 0 <= i < |items| ==> Live(items[i])
  }

  /**
   One spawn wave: a heart with its full lifetime always, then a power-up
   with its full lifetime when the wave brings one; the collectibles already
   on the ground are kept as they are.
   */
  function SpawnWave(items: seq<Collectible>, withPowerUp: bool): (r: seq<Collectible>)
    ensures |r| == |items| + (if withPowerUp then 2 else 1)
    ensures r[..|items|] == items
    ensures r[|items|] == Collectible(Heart, HeartLifetime)
    ensures withPowerUp ==> r[|items| + 1] == Collectible(PowerUp, PowerUpLifetime)
    ensures AllLive(items) ==> AllLive(r)
  {
    var heart := [Collectible(Heart, HeartLifetime)];
    if withPowerUp then items + heart + [Collectible(PowerUp, PowerUpLifetime)]
    else items + heart
  }

  /** A collectible after losing `dt` seconds. */
  function Aged(c: Collectible, dt: real): Collectible {
    c.(timeLeft := c.timeLeft - dt)
  }

  /**
   One frame of ageing: every collectible loses exactly `dt`, and one is
   destroyed exactly when its time left is then zero or less; the survivors
   keep their order.
   */
  function Age(items: seq<Collectible>, dt: real): (r: seq<Collectible>)
    ensures |r| <= |items|
    ensures forall j :: 0 <= j < |r| ==> r[j].timeLeft > 0.0
    ensures AllLive(items) && dt >= 0.0 ==> AllLive(r)
  {
    if |items| == 0 then []
    else
      var c := Aged(items[0], dt);
      var rest := Age(items[1..], dt);
      if c.timeLeft <= 0.0 then rest
      else
        assert AllLive(items) && dt >= 0.0 ==> Live(c) by {
          if AllLive(items) && dt >= 0.0 {
            assert Live(items[0]);
          }
        }
        assert AllLive(items) ==> AllLive(items[1..]) by {
          if AllLive(items) {
            forall j | 0 <= j < |items[1..]|
              ensures Live(items[1..][j])
            {
              assert items[1..][j] == items[j + 1];
            }
          }
        }
        [c] + rest
  }

  /**
   A collectible is on the ground after a frame exactly when it has time
   left and, with the frame's `dt` given back, it was on the ground before.
   */
  lemma {:induction false} AgeKeepsExactlySurvivors(items: seq<Collectible>, dt: real, c: Collectible)
    ensures c in Age(items, dt) <==> c.timeLeft > 0.0 && c.(timeLeft := c.timeLeft + dt) in items
  {
    if |items| > 0 {
      AgeKeepsExactlySurvivors(items[1..], dt, c);
      assert items == [items[0]] + items[1..];
      var before := c.(timeLeft := c.timeLeft + dt);
      assert before == items[0] <==> c == Aged(items[0], dt);
    }
  }

  /**
   Ageing treats every collectible on its own: ageing a concatenation ages
   each part. Together with AgeOne this fixes `Age` completely.
   */
  lemma {:induction false} AgeDistributes(a: seq<Collectible>, b: seq<Collectible>, dt: real)
    ensures Age(a + b, dt) == Age(a, dt) + Age(b, dt)
  {
    if |a| == 0 {
      assert a + b == b;
    } else {
      var ab := a + b;
      assert ab[0] == a[0];
      assert ab[1..] == a[1..] + b;
      AgeDistributes(a[1..], b, dt);
      var c := Aged(a[0], dt);
      if c.timeLeft <= 0.0 {
        assert Age(ab, dt) == Age(ab[1..], dt);
        assert Age(a, dt) == Age(a[1..], dt);
      } else {
        assert Age(ab, dt) == [c] + Age(ab[1..], dt);
        assert Age(a, dt) == [c] + Age(a[1..], dt);
      }
    }
  }

  /** A single collectible survives a frame exactly when time is left after losing `dt`. */
  lemma AgeOne(c: Collectible, dt: real)
    ensures Age([c], dt) == if c.timeLeft - dt > 0.0 then [Aged(c, dt)] else []
  {
  }

  /** Taking the collectible at `i` removes it and only it; the others keep their order. */
  function Remove(items: seq<Collectible>, i: nat): (r: seq<Collectible>)
    requires i < |items|
    ensures |r| == |items| - 1
    ensures r[..i] == items[..i] && r[i..] == items[i + 1..]
    ensures multiset(r) + multiset{items[i]} == multiset(items)
    ensures AllLive(items) ==> AllLive(r)
  {
    assert items == items[..i] + [items[i]] + items[i + 1..];
    items[..i] + items[i + 1..]
  }
}
