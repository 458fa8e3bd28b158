/** Whole runs of the play scene: the events that drive it, the invariant every reachable
    state keeps, and the cadence of the score and spawn timers over many frames. */
module Runs {
  import opened Decimal
  import opened World
  import opened Play

  /** What reaches the scene: a frame with its elapsed time and the random draws a spawn
      would use, an obstacle collision, the restart press, the start-trigger overlap, and a
      tick of the ramp timer. */
  datatype Event =
    | Frame(delta: nat, draw: Draw)
    | Collision
    | RestartPressed
    | TriggerOverlap
    | RampTimer

  predicate ValidEvent(cfg: Config, e: Event) {
    e.Frame? ==> ValidDraw(cfg, e.draw)
  }

  predicate ValidEvents(cfg: Config, events: seq<Event>) {
    forall i :: 0 <= i < |events| ==> ValidEvent(cfg, events[i])
  }

  /** Dispatch of one event to its handler. A ramp tick only arrives while the ramp timer is
      registered. */
  function Apply(cfg: Config, s: PlayState, e: Event): PlayState
    requires cfg.Valid() && ValidEvent(cfg, e)
  {
    match e
    case Frame(delta, draw) => Step(cfg, s, delta, draw)
    case Collision => GameOver(s)
    case RestartPressed => Restart(s)
    case TriggerOverlap => StartOverlap(cfg, s)
    case RampTimer => if s.rolling then RampTick(cfg, s) else s
  }

  function Run(cfg: Config, s: PlayState, events: seq<Event>): PlayState
    requires cfg.Valid() && ValidEvents(cfg, events)
    decreases |events|
  {
    if events == [] then s else Run(cfg, Apply(cfg, s, events[0]), events[1..])
  }

  /** Every event keeps the invariant. */
  lemma ApplyPreservesValid(cfg: Config, s: PlayState, e: Event)
    requires cfg.Valid() && ValidEvent(cfg, e) && Valid(s)
    ensures Valid(Apply(cfg, s, e))
  {
    match e
    case Frame(delta, draw) => StepPreservesValid(cfg, s, delta, draw);
    case Collision => GameOverPreservesValid(s);
    case RestartPressed => RestartPreservesValid(s);
    case TriggerOverlap => StartPreservesValid(cfg, s);
    case RampTimer => StartPreservesValid(cfg, s);
  }

  /** Along any sequence of events the invariant holds; in particular the modifier always
      stands at 1 + 0.2 * floor(score / 100), the timers stay below their intervals and the
      base speed is never changed. */
  lemma {:induction false} RunPreservesValid(cfg: Config, s: PlayState, events: seq<Event>)
    requires cfg.Valid() && ValidEvents(cfg, events) && Valid(s)
    ensures Valid(Run(cfg, s, events))
    ensures var r := Run(cfg, s, events);
            && r.modifier == BaseModifier + ModifierStep * (r.score / Milestone)
            && r.scoreDeltaTime < ScoreInterval && r.spawnTime < SpawnInterval
            && r.gameSpeed == InitialGameSpeed
    decreases |events|
  {
    if events != [] {
      ApplyPreservesValid(cfg, s, events[0]);
      RunPreservesValid(cfg, Apply(cfg, s, events[0]), events[1..]);
    }
  }

  /** Every state reachable from the created scene satisfies the invariant. */
  lemma ReachableValid(cfg: Config, events: seq<Event>)
    requires cfg.Valid() && ValidEvents(cfg, events)
    ensures Valid(Run(cfg, Init(cfg), events))
  {
    InitValid(cfg);
    RunPreservesValid(cfg, Init(cfg), events);
  }

  /** The score display holds five digits in this state and in every state the events lead
      through. */
  predicate FiveDigitsThroughout(cfg: Config, s: PlayState, events: seq<Event>)
    requires cfg.Valid() && ValidEvents(cfg, events)
    decreases |events|
  {
    && |s.scoreText| == Width
    && (events != [] ==> FiveDigitsThroughout(cfg, Apply(cfg, s, events[0]), events[1..]))
  }

  /** While the score display stays at five digits, no event lowers the high score. */
  lemma {:induction false} HighScoreNeverDecreases(cfg: Config, s: PlayState, events: seq<Event>)
    requires cfg.Valid() && ValidEvents(cfg, events) && Valid(s)
    requires FiveDigitsThroughout(cfg, s, events)
    ensures HighWellFormed(Run(cfg, s, events).highScoreText)
    ensures HighScoreValue(Run(cfg, s, events).highScoreText) >= HighScoreValue(s.highScoreText)
    decreases |events|
  {
    RunPreservesValid(cfg, s, events);
    if events != [] {
      var t := Apply(cfg, s, events[0]);
      ApplyPreservesValid(cfg, s, events[0]);
      if events[0].Collision? {
        GameOverHighScore(s);
      }
      assert HighScoreValue(t.highScoreText) >= HighScoreValue(s.highScoreText);
      HighScoreNeverDecreases(cfg, t, events[1..]);
    }
  }

  // ---------------------------------------------------------------------------------------
  // Timer cadence at a constant frame time

  /** n frames of the same length, with the same draws. */
  function Frames(cfg: Config, s: PlayState, delta: nat, draw: Draw, n: nat): PlayState
    requires cfg.Valid() && ValidDraw(cfg, draw)
  {
    if n == 0 then s else Step(cfg, Frames(cfg, s, delta, draw, n - 1), delta, draw)
  }

  /** The number of frames of `delta` milliseconds a drop-excess timer needs to fire:
      the interval divided by the frame time, rounded up. */
  function FramesPerFire(delta: nat, interval: nat): (k: nat)
    requires delta >= 1 && interval >= 1
    ensures k >= 1
    ensures k * delta >= interval && (k - 1) * delta < interval
  {
    var k := (interval + delta - 1) / delta;
    assert k * delta > interval + delta - 1 - delta;
    k
  }

  lemma {:induction false} MulMonotone(a: nat, b: nat, c: nat)
    requires a <= b
    ensures a * c <= b * c
    decreases b - a
  {
    if a < b {
      MulMonotone(a, b - 1, c);
      assert b * c == (b - 1) * c + c;
    }
  }

  lemma DivModUnique(n: nat, k: nat, q: nat, m: nat)
    requires k >= 1 && m < k && n == k * q + m
    ensures n / k == q && n % k == m
  {
    var q', m' := n / k, n % k;
    assert n == k * q' + m';
    if q' < q {
      MulMonotone(q' + 1, q, k);
    } else if q < q' {
      MulMonotone(q + 1, q', k);
    }
  }

  lemma FramesPerFireLeast(delta: nat, interval: nat, j: nat)
    requires delta >= 1 && interval >= 1
    ensures j * delta >= interval <==> j >= FramesPerFire(delta, interval)
  {
    var k := FramesPerFire(delta, interval);
    if j >= k {
      MulMonotone(k, j, delta);
    } else {
      MulMonotone(j, k - 1, delta);
    }
  }

  /** Counting frames: one more frame either completes a group of k or extends it. */
  lemma NextFrameCount(n: nat, k: nat)
    requires n >= 1 && k >= 1
    ensures (n - 1) % k + 1 == k ==> n % k == 0 && n / k == (n - 1) / k + 1
    ensures (n - 1) % k + 1 < k ==> n % k == (n - 1) % k + 1 && n / k == (n - 1) / k
  {
    var q, m := (n - 1) / k, (n - 1) % k;
    assert n - 1 == k * q + m;
    if m + 1 == k {
      assert n == k * (q + 1) + 0;
      DivModUnique(n, k, q + 1, 0);
    } else {
      DivModUnique(n, k, q, m + 1);
    }
  }

  /** One frame of a drop-excess timer that holds m whole frames' worth of time: it fires
      exactly when m + 1 frames reach the interval. */
  lemma TimerFrame(m: nat, delta: nat, interval: nat)
    requires delta >= 1 && interval >= 1 && m < FramesPerFire(delta, interval)
    ensures Fires(m * delta, delta, interval) <==> m + 1 == FramesPerFire(delta, interval)
  {
    FramesPerFireLeast(delta, interval, m + 1);
    assert m * delta + delta == (m + 1) * delta;
  }

  /** A drop-excess timer after n frames of `delta` milliseconds, starting from `acc`. */
  function TimerAfter(acc: nat, delta: nat, interval: nat, n: nat): nat {
    if n == 0 then acc else Elapse(TimerAfter(acc, delta, interval, n - 1), delta, interval)
  }

  /** How many of those n frames the timer fired in. */
  function FiredIn(acc: nat, delta: nat, interval: nat, n: nat): nat {
    if n == 0 then 0
    else FiredIn(acc, delta, interval, n - 1)
         + (if Fires(TimerAfter(acc, delta, interval, n - 1), delta, interval) then 1 else 0)
  }

  /** While running, n equal frames keep the scene running and move the score timer as a
      drop-excess timer; the score counts its firings. */
  lemma {:induction false} FramesScoreTimer(cfg: Config, s: PlayState, delta: nat, draw: Draw, n: nat)
    requires cfg.Valid() && ValidDraw(cfg, draw) && s.running
    ensures var r := Frames(cfg, s, delta, draw, n);
            && r.running
            && r.scoreDeltaTime == TimerAfter(s.scoreDeltaTime, delta, ScoreInterval, n)
            && r.score == s.score + FiredIn(s.scoreDeltaTime, delta, ScoreInterval, n)
  {
    if n > 0 {
      var p := Frames(cfg, s, delta, draw, n - 1);
      FramesScoreTimer(cfg, s, delta, draw, n - 1);
      StepClock(cfg, p, delta, draw);
    }
  }

  /** While running, n equal frames move the spawn timer as an independent drop-excess
      timer. */
  lemma {:induction false} FramesSpawnTimer(cfg: Config, s: PlayState, delta: nat, draw: Draw, n: nat)
    requires cfg.Valid() && ValidDraw(cfg, draw) && s.running
    ensures var r := Frames(cfg, s, delta, draw, n);
            r.running && r.spawnTime == TimerAfter(s.spawnTime, delta, SpawnInterval, n)
  {
    if n > 0 {
      var p := Frames(cfg, s, delta, draw, n - 1);
      FramesSpawnTimer(cfg, s, delta, draw, n - 1);
      StepClock(cfg, p, delta, draw);
    }
  }

  /** From zero, a drop-excess timer fires once every ceil(interval / delta) frames and holds
      the time of the frames since it last fired. */
  lemma {:induction false} TimerCadence(delta: nat, interval: nat, n: nat)
    requires delta >= 1 && interval >= 1
    ensures TimerAfter(0, delta, interval, n) == (n % FramesPerFire(delta, interval)) * delta
    ensures FiredIn(0, delta, interval, n) == n / FramesPerFire(delta, interval)
  {
    var k := FramesPerFire(delta, interval);
    if n == 0 {
      DivModUnique(0, k, 0, 0);
    } else {
      TimerCadence(delta, interval, n - 1);
      var m := (n - 1) % k;
      NextFrameCount(n, k);
      TimerFrame(m, delta, interval);
      assert (m + 1) * delta == m * delta + delta;
    }
  }

  /** At a constant frame time the timers drop their excess: starting from zero, the score
      rises once every ceil(100 / delta) frames and the spawn timer restarts every
      ceil(1500 / delta) frames, so that after n frames the score is up by n / ceil(100 / delta)
      and each timer holds the frames since it last fired. */
  lemma Cadence(cfg: Config, s: PlayState, delta: nat, draw: Draw, n: nat)
    requires cfg.Valid() && ValidDraw(cfg, draw)
    requires s.running && s.scoreDeltaTime == 0 && s.spawnTime == 0 && delta >= 1
    ensures var r := Frames(cfg, s, delta, draw, n);
            var scoreFrames := FramesPerFire(delta, ScoreInterval);
            var spawnFrames := FramesPerFire(delta, SpawnInterval);
            && r.running
            && r.score == s.score + n / scoreFrames
            && r.scoreDeltaTime == (n % scoreFrames) * delta
            && r.spawnTime == (n % spawnFrames) * delta
  {
    FramesScoreTimer(cfg, s, delta, draw, n);
    FramesSpawnTimer(cfg, s, delta, draw, n);
    TimerCadence(delta, ScoreInterval, n);
    TimerCadence(delta, SpawnInterval, n);
  }
}
