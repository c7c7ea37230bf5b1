/** The difficulty curve: how the bomb probability, the fall speed and the
    spawn interval depend on the current score. */
module Difficulty {

  const MinFallSpeed: real := 1.0
  const MaxFallSpeed: real := 3.0
  /** The spawn interval at the start of a session, in milliseconds. */
  const SpawnIntervalMs: real := 1000.0
  /** The floor the spawn interval never goes below. */
  const MinSpawnIntervalMs: real := 500.0

  /** A value drawn from Math.random(). */
  type Random = r: real | 0.0 <= r < 1.0

  /** The factor by which items spawned at this score fall faster. */
  function SpeedMultiplier(score: int): (m: real)
    ensures score >= 0 ==> m >= 1.0
  {
    1.0 + score as real / 200.0
  }

  /** Fall speed, in pixels per frame, of an item spawned at this score. */
  function FallSpeed(r: Random, score: int): (v: real)
    ensures score >= 0 ==> MinFallSpeed * SpeedMultiplier(score) <= v < MaxFallSpeed * SpeedMultiplier(score)
    ensures score >= 0 ==> v >= MinFallSpeed
  {
    var m := SpeedMultiplier(score);
    var base := r * (MaxFallSpeed - MinFallSpeed) + MinFallSpeed;
    ScaledBetween(base, m);
    base * m
  }

  /** A factor in [1, 3) times a multiplier of at least 1 lies in [m, 3m). */
  lemma ScaledBetween(base: real, m: real)
    requires 1.0 <= base < 3.0
    ensures m >= 1.0 ==> m <= base * m < 3.0 * m
  {
    if m >= 1.0 {
      assert base * m - m == (base - 1.0) * m;
      assert 3.0 * m - base * m == (3.0 - base) * m;
    }
  }

  /** Probability that a newly spawned item is a bomb. */
  function BombChance(score: int): (p: real)
    ensures p <= 0.5
    ensures score >= 0 ==> 0.2 <= p
  {
    var grown := 0.2 + score as real / 500.0;
    if grown < 0.5 then grown else 0.5
  }

  /** The spawn interval re-armed when the score reaches a milestone. */
  function SpawnIntervalFor(score: int): (ms: real)
    ensures MinSpawnIntervalMs <= ms
    ensures score >= 0 ==> ms <= SpawnIntervalMs
    ensures score == 0 ==> ms == SpawnIntervalMs
  {
    var shrunk := SpawnIntervalMs - score as real / 10.0;
    if shrunk > MinSpawnIntervalMs then shrunk else MinSpawnIntervalMs
  }

  /** More score never means fewer bombs. */
  lemma BombChanceMonotone(a: int, b: int)
    requires a <= b
    ensures BombChance(a) <= BombChance(b)
  {
  }

  /** More score never means slower items. */
  lemma SpeedMultiplierMonotone(a: int, b: int)
    requires a <= b
    ensures SpeedMultiplier(a) <= SpeedMultiplier(b)
  {
  }

  /** More score never means a longer spawn interval. */
  lemma SpawnIntervalMonotone(a: int, b: int)
    requires a <= b
    ensures SpawnIntervalFor(b) <= SpawnIntervalFor(a)
  {
  }

  /** The bomb chance reaches its cap of one half at score 150 and stays there. */
  lemma BombChanceCapped(score: int)
    ensures BombChance(score) == 0.5 <==> score >= 150
  {
  }
}
