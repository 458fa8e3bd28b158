/** The play-loop state machine of the play scene: the per-frame step, the collision that
    ends a run, the restart, and the start sequence (trigger overlap and ground ramp).

    Units: times in whole milliseconds; the speed modifier in tenths (1.0 is 10, a step of
    0.2 is 2); horizontal positions in tenths of a pixel (see `World.Unit`), so one frame
    moves obstacles and the ground by `gameSpeed * modifier` tenths of a pixel. */
module Play {
  import opened Decimal
  import opened World

  const ScoreInterval: nat := 100
  const SpawnInterval: nat := 1500
  const InitialGameSpeed: nat := 5

  /** `gameSpeedModifier` 1.0, in tenths. */
  const BaseModifier: nat := 10
  /** The 0.2 added to the modifier at each milestone, in tenths. */
  const ModifierStep: nat := 2
  /** The modifier rises whenever the score reaches a multiple of this. */
  const Milestone: nat := 100

  /** Ground strip width at scene creation, and its growth per ramp tick, in pixels. */
  const StartGroundWidth: int := 88
  const GroundStep: int := 34
  /** Player velocity while the ramp runs. */
  const RollVelocity: int := 80

  /** Height at which the start trigger is created, and where it is parked once used. */
  const TriggerStartY: int := 10
  const TriggerParked: int := 9999

  datatype Point = Point(x: int, y: int)

  /** The scene's numbers and flags, with the Phaser objects reduced to the values the loop
      reads and writes. */
  datatype PlayState = PlayState(
    running: bool,              // isGameRunning
    score: nat,
    scoreDeltaTime: nat,
    spawnTime: nat,
    gameSpeed: nat,
    modifier: nat,              // gameSpeedModifier, in tenths
    obstacles: seq<Obstacle>,
    clouds: seq<Cloud>,
    groundScroll: int,          // ground.tilePositionX, in tenths of a pixel
    groundWidth: int,           // ground.width, in pixels
    scoreText: string,
    highScoreText: string,
    trigger: Point,             // startTrigger position
    rolling: bool,              // the ramp's repeating timer is registered
    velocityX: int,             // player velocity
    velocityY: int)

  /** The state `create` builds: nothing running, score and timers zero, the three clouds,
      the 88-pixel ground strip, both displays "00000" and the trigger at height 10. The third
      cloud's x, `gameWidth / 1.3`, is rounded down to the tenth of a pixel. */
  function Init(cfg: Config): (r: PlayState)
    ensures !r.running && !r.rolling && r.obstacles == [] && |r.clouds| == 3
    ensures r.groundWidth == StartGroundWidth && r.trigger.y == TriggerStartY
    ensures r.score == 0 && r.modifier == BaseModifier
    ensures r.scoreText == ScoreText(r.score)
    ensures HighWellFormed(r.highScoreText) && HighScoreValue(r.highScoreText) == 0
  {
    assert Zeros(Width) == "00000";
    ValueOfZeros(Width);
    ScoreTextOfValue("00000");
    assert SliceLast("00000", Width) == "00000";
    PlayState(
      running := false,
      score := 0,
      scoreDeltaTime := 0,
      spawnTime := 0,
      gameSpeed := InitialGameSpeed,
      modifier := BaseModifier,
      obstacles := [],
      clouds := [
        Cloud(cfg.gameWidth * Unit / 2, 170, cfg.cloudWidth),
        Cloud((cfg.gameWidth - 80) * Unit, 80, cfg.cloudWidth),
        Cloud(cfg.gameWidth * Unit * 10 / 13, 100, cfg.cloudWidth)],
      groundScroll := 0,
      groundWidth := StartGroundWidth,
      scoreText := "00000",
      highScoreText := "00000",
      trigger := Point(0, TriggerStartY),
      rolling := false,
      velocityX := 0,
      velocityY := 0)
  }

  /** A drop-excess timer fires in a frame when the time it held plus the frame time reaches
      the interval. */
  predicate Fires(acc: nat, delta: nat, interval: nat) {
    acc + delta >= interval
  }

  /** The timer after the frame: back to zero when it fired, with the excess dropped. */
  function Elapse(acc: nat, delta: nat, interval: nat): nat {
    if Fires(acc, delta, interval) then 0 else acc + delta
  }

  /** `update(time, delta)`: one frame. */
  function Step(cfg: Config, s: PlayState, delta: nat, draw: Draw): (r: PlayState)
    requires cfg.Valid() && ValidDraw(cfg, draw)
    // Not running: nothing changes at all.
    ensures !s.running ==> r == s
    // Running: lifecycle, base speed, high score and start-sequence fields are untouched.
    ensures s.running ==> && r.running && r.gameSpeed == s.gameSpeed
                          && r.highScoreText == s.highScoreText
                          && r.groundWidth == s.groundWidth && r.trigger == s.trigger
                          && r.rolling == s.rolling
                          && r.velocityX == s.velocityX && r.velocityY == s.velocityY
    // Score: up by at most one, exactly when the score timer reaches 100 ms.
    ensures r.score == s.score || r.score == s.score + 1
    ensures r.score == s.score + 1 <==> s.running && s.scoreDeltaTime + delta >= ScoreInterval
    ensures s.running && r.score > s.score ==> r.scoreDeltaTime == 0
    ensures s.running && r.score == s.score ==> r.scoreDeltaTime == s.scoreDeltaTime + delta
    // Modifier: up by 0.2 exactly when the new score is a multiple of 100, never down.
    ensures r.modifier == s.modifier || r.modifier == s.modifier + ModifierStep
    ensures r.modifier == s.modifier + ModifierStep <==> r.score > s.score && r.score % Milestone == 0
    // Spawning: at most one obstacle, only when the spawn timer reaches 1500 ms.
    ensures s.running && s.spawnTime + delta >= SpawnInterval ==> r.spawnTime == 0
    ensures s.running && s.spawnTime + delta < SpawnInterval ==> r.spawnTime == s.spawnTime + delta
    ensures |r.obstacles| <= |s.obstacles| + (if s.running && s.spawnTime + delta >= SpawnInterval then 1 else 0)
    // Clouds: never created or destroyed.
    ensures |r.clouds| == |s.clouds|
    // Displays and ground.
    ensures s.running ==> r.scoreText == ScoreText(r.score)
    ensures s.running ==> r.groundScroll == s.groundScroll + s.gameSpeed * r.modifier
  {
    if !s.running then s
    else
      var scored := Fires(s.scoreDeltaTime, delta, ScoreInterval);
      var score := if scored then s.score + 1 else s.score;
      var modifier := if scored && score % Milestone == 0 then s.modifier + ModifierStep else s.modifier;
      var spawned := Fires(s.spawnTime, delta, SpawnInterval);
      var pending := if spawned then s.obstacles + [Spawn(cfg, draw)] else s.obstacles;
      var shift := s.gameSpeed * modifier;
      s.(spawnTime := Elapse(s.spawnTime, delta, SpawnInterval),
         scoreDeltaTime := Elapse(s.scoreDeltaTime, delta, ScoreInterval),
         score := score,
         modifier := modifier,
         obstacles := AdvanceObstacles(pending, shift),
         clouds := AdvanceClouds(cfg, s.clouds),
         scoreText := ScoreText(score),
         groundScroll := s.groundScroll + shift)
  }

  /** The score and spawn timers of a running frame are two independent drop-excess timers,
      and the score counts the firings of the first. */
  lemma StepClock(cfg: Config, s: PlayState, delta: nat, draw: Draw)
    requires cfg.Valid() && ValidDraw(cfg, draw) && s.running
    ensures var r := Step(cfg, s, delta, draw);
            && r.running
            && r.scoreDeltaTime == Elapse(s.scoreDeltaTime, delta, ScoreInterval)
            && r.spawnTime == Elapse(s.spawnTime, delta, SpawnInterval)
            && r.score == s.score + (if Fires(s.scoreDeltaTime, delta, ScoreInterval) then 1 else 0)
  {
  }

  /** The obstacles after a running frame: every obstacle moves left by gameSpeed * modifier
      (with the modifier just updated), exactly the ones still on screen are kept, and
      nothing else appears but the obstacle spawned in this frame, if any. */
  lemma StepObstacles(cfg: Config, s: PlayState, delta: nat, draw: Draw)
    requires cfg.Valid() && ValidDraw(cfg, draw) && s.running
    ensures var r := Step(cfg, s, delta, draw);
            var shift := s.gameSpeed * r.modifier;
            var spawned := s.spawnTime + delta >= SpawnInterval;
            && (forall o :: o in r.obstacles ==> !OffScreen(o))
            && (forall i :: 0 <= i < |s.obstacles| ==>
                  (Moved(s.obstacles[i], -shift) in r.obstacles <==> !OffScreen(Moved(s.obstacles[i], -shift))))
            && (forall o :: o in r.obstacles ==>
                  Moved(o, shift) in s.obstacles || (spawned && Moved(o, shift) == Spawn(cfg, draw)))
            && (spawned ==>
                  (Moved(Spawn(cfg, draw), -shift) in r.obstacles <==> !OffScreen(Moved(Spawn(cfg, draw), -shift))))
  {
    var r := Step(cfg, s, delta, draw);
    var spawned := s.spawnTime + delta >= SpawnInterval;
    var added := if spawned then [Spawn(cfg, draw)] else [];
    assert r.obstacles == AdvanceObstacles(s.obstacles + added, s.gameSpeed * r.modifier) by {
      assert spawned ==> s.obstacles + added == s.obstacles + [Spawn(cfg, draw)];
      assert !spawned ==> s.obstacles + added == s.obstacles;
    }
    AdvanceWithArrivals(s.obstacles, added, s.gameSpeed * r.modifier);
    assert spawned ==> added[0] == Spawn(cfg, draw);
  }

  /** How many of each obstacle a running frame leaves: an obstacle on screen occurs as often
      as its unmoved position did before, plus once more if it is the one spawned in this
      frame; an off-screen one does not occur at all. */
  lemma StepObstacleCounts(cfg: Config, s: PlayState, delta: nat, draw: Draw)
    requires cfg.Valid() && ValidDraw(cfg, draw) && s.running
    ensures var r := Step(cfg, s, delta, draw);
            var shift := s.gameSpeed * r.modifier;
            var spawned := s.spawnTime + delta >= SpawnInterval;
            forall o :: multiset(r.obstacles)[o] ==
              if OffScreen(o) then 0
              else multiset(s.obstacles)[Moved(o, shift)]
                   + (if spawned && Moved(o, shift) == Spawn(cfg, draw) then 1 else 0)
  {
    var r := Step(cfg, s, delta, draw);
    var shift := s.gameSpeed * r.modifier;
    var spawned := s.spawnTime + delta >= SpawnInterval;
    var added := if spawned then [Spawn(cfg, draw)] else [];
    assert r.obstacles == AdvanceObstacles(s.obstacles + added, shift) by {
      assert spawned ==> s.obstacles + added == s.obstacles + [Spawn(cfg, draw)];
      assert !spawned ==> s.obstacles + added == s.obstacles;
    }
    var all := s.obstacles + added;
    AdvanceObstacleCounts(all, shift);
    assert multiset(all) == multiset(s.obstacles) + multiset(added);
  }

  /** The clouds after a running frame: each drifts half a pixel left and, once its right
      edge has passed the left edge of the screen, reappears 30 pixels beyond the right edge
      at the same height. */
  lemma StepClouds(cfg: Config, s: PlayState, delta: nat, draw: Draw)
    requires cfg.Valid() && ValidDraw(cfg, draw) && s.running
    ensures var r := Step(cfg, s, delta, draw);
            && |r.clouds| == |s.clouds|
            && forall i :: 0 <= i < |s.clouds| ==>
                 && r.clouds[i].y == s.clouds[i].y
                 && (CloudRightEdge(s.clouds[i]) - CloudDrift < 0 ==>
                       r.clouds[i].x == (cfg.gameWidth + CloudRespawnGap) * Unit)
                 && (CloudRightEdge(s.clouds[i]) - CloudDrift >= 0 ==>
                       r.clouds[i].x == s.clouds[i].x - CloudDrift)
  {
  }

  /** The obstacle-collision handler: the run stops, the high score becomes the larger of the
      displayed score and the last five characters of the high-score display (compared as
      numbers), and score, timers and modifier go back to their initial values. The base
      speed is not reset. */
  function GameOver(s: PlayState): (r: PlayState)
    ensures !r.running
    ensures r.score == 0 && r.spawnTime == 0 && r.scoreDeltaTime == 0 && r.modifier == BaseModifier
    ensures r.gameSpeed == s.gameSpeed
    ensures r.obstacles == s.obstacles && r.clouds == s.clouds && r.scoreText == s.scoreText
    ensures r.groundScroll == s.groundScroll && r.groundWidth == s.groundWidth
    ensures r.trigger == s.trigger && r.rolling == s.rolling
    ensures r.velocityX == s.velocityX && r.velocityY == s.velocityY
    ensures || r.highScoreText == HighScoreLabel(s.scoreText)
            || r.highScoreText == HighScoreLabel(SliceLast(s.highScoreText, Width))
  {
    var previous := SliceLast(s.highScoreText, Width);
    var best := if Greater(ParseNumber(s.scoreText), ParseNumber(previous)) then s.scoreText else previous;
    s.(running := false,
       highScoreText := HighScoreLabel(best),
       spawnTime := 0,
       score := 0,
       scoreDeltaTime := 0,
       modifier := BaseModifier)
  }

  /** The restart handler: obstacles cleared, vertical velocity zeroed, running again. It does
      not look at the current state and leaves score, timers and modifier as they are. */
  function Restart(s: PlayState): (r: PlayState)
    ensures r.running && r.obstacles == [] && r.velocityY == 0
    ensures r.score == s.score && r.scoreDeltaTime == s.scoreDeltaTime && r.spawnTime == s.spawnTime
    ensures r.modifier == s.modifier && r.gameSpeed == s.gameSpeed
    ensures r.clouds == s.clouds && r.scoreText == s.scoreText && r.highScoreText == s.highScoreText
    ensures r.groundScroll == s.groundScroll && r.groundWidth == s.groundWidth
    ensures r.trigger == s.trigger && r.rolling == s.rolling && r.velocityX == s.velocityX
  {
    s.(running := true, obstacles := [], velocityY := 0)
  }

  /** The start-trigger overlap handler: while the trigger is at its creation height the
      overlap only moves it down to the ground line; any later overlap parks it far away and
      registers the ramp timer. Nothing else changes. */
  function StartOverlap(cfg: Config, s: PlayState): (r: PlayState)
    ensures r.rolling <==> s.rolling || s.trigger.y != TriggerStartY
    ensures s.trigger.y == TriggerStartY ==> r.trigger == Point(0, cfg.gameHeight)
    ensures s.trigger.y != TriggerStartY ==> r.trigger == Point(TriggerParked, TriggerParked)
    ensures r.(trigger := s.trigger, rolling := s.rolling) == s
  {
    if s.trigger.y == TriggerStartY then s.(trigger := Point(0, cfg.gameHeight))
    else s.(trigger := Point(TriggerParked, TriggerParked), rolling := true)
  }

  /** How far the ramp still has to widen the ground. */
  function RampMeasure(cfg: Config, s: PlayState): nat {
    if s.groundWidth < cfg.gameWidth then cfg.gameWidth - s.groundWidth else 0
  }

  /** One tick of the ramp timer: the ground widens by 34 and the player runs; once the width
      reaches the screen width it is clamped to it, the timer is removed, the player stops
      and the run begins. */
  function RampTick(cfg: Config, s: PlayState): (r: PlayState)
    requires s.rolling
    ensures r.groundWidth <= cfg.gameWidth
    ensures r.rolling <==> s.groundWidth + GroundStep < cfg.gameWidth
    ensures r.rolling ==> && r.groundWidth == s.groundWidth + GroundStep
                          && r.velocityX == RollVelocity && r.running == s.running
                          && RampMeasure(cfg, r) + GroundStep == RampMeasure(cfg, s)
    ensures !r.rolling ==> r.groundWidth == cfg.gameWidth && r.velocityX == 0 && r.running
    ensures r.(groundWidth := s.groundWidth, velocityX := s.velocityX, running := s.running, rolling := true) == s
  {
    var width := s.groundWidth + GroundStep;
    if width >= cfg.gameWidth then
      s.(groundWidth := cfg.gameWidth, velocityX := 0, running := true, rolling := false)
    else
      s.(groundWidth := width, velocityX := RollVelocity)
  }

  /** The ramp run to completion. It always ends, with the ground exactly as wide as the
      screen, the player standing and the run started; nothing outside the ramp changes. */
  function Ramp(cfg: Config, s: PlayState): (r: PlayState)
    requires s.rolling
    ensures !r.rolling && r.running && r.groundWidth == cfg.gameWidth && r.velocityX == 0
    ensures r.(groundWidth := s.groundWidth, velocityX := s.velocityX, running := s.running, rolling := true) == s
    decreases RampMeasure(cfg, s)
  {
    var t := RampTick(cfg, s);
    if t.rolling then Ramp(cfg, t) else t
  }

  /** The ramp with its ticks counted: it takes the least number of 34-pixel steps that
      carries the ground from its starting width to the screen width (one tick when it is
      already that wide). */
  method RunRamp(cfg: Config, s: PlayState) returns (r: PlayState, ticks: nat)
    requires s.rolling
    ensures r == Ramp(cfg, s)
    ensures ticks >= 1
    ensures cfg.gameWidth <= s.groundWidth + GroundStep * ticks
    ensures ticks > 1 ==> s.groundWidth + GroundStep * (ticks - 1) < cfg.gameWidth
  {
    r := s;
    ticks := 0;
    while r.rolling
      invariant r.rolling ==> r.groundWidth == s.groundWidth + GroundStep * ticks
      invariant r.rolling ==> Ramp(cfg, r) == Ramp(cfg, s)
      invariant r.rolling && ticks > 0 ==> r.groundWidth < cfg.gameWidth
      invariant !r.rolling ==> && r == Ramp(cfg, s) && ticks >= 1
                               && cfg.gameWidth <= s.groundWidth + GroundStep * ticks
                               && (ticks > 1 ==> s.groundWidth + GroundStep * (ticks - 1) < cfg.gameWidth)
      decreases if r.rolling then RampMeasure(cfg, r) + 1 else 0
    {
      r := RampTick(cfg, r);
      ticks := ticks + 1;
    }
  }

  // ---------------------------------------------------------------------------------------
  // The invariant every reachable state keeps

  /** Timers below their intervals, the modifier raised once per 100 points of the current
      score, the base speed never changed, a score display of at least five digits, and a
      high-score display whose last five characters are digits. */
  predicate Valid(s: PlayState) {
    && s.scoreDeltaTime < ScoreInterval
    && s.spawnTime < SpawnInterval
    && s.modifier == BaseModifier + ModifierStep * (s.score / Milestone)
    && s.gameSpeed == InitialGameSpeed
    && IsDigitString(s.scoreText) && |s.scoreText| >= Width
    && HighWellFormed(s.highScoreText)
  }

  lemma InitValid(cfg: Config)
    ensures Valid(Init(cfg))
    ensures !Init(cfg).running && !Init(cfg).rolling && Init(cfg).obstacles == []
  {
    assert SliceLast("00000", Width) == "00000";
  }

  lemma StepPreservesValid(cfg: Config, s: PlayState, delta: nat, draw: Draw)
    requires cfg.Valid() && ValidDraw(cfg, draw) && Valid(s)
    ensures Valid(Step(cfg, s, delta, draw))
  {
    var r := Step(cfg, s, delta, draw);
    if s.running && r.score > s.score {
      assert r.score / Milestone == s.score / Milestone + (if r.score % Milestone == 0 then 1 else 0);
    }
  }

  /** The high score kept by a game-over whose score display holds at least five digits is
      again a five-digit text. */
  lemma GameOverKeepsHighWellFormed(s: PlayState)
    requires IsDigitString(s.scoreText) && |s.scoreText| >= Width && HighWellFormed(s.highScoreText)
    ensures HighWellFormed(GameOver(s).highScoreText)
  {
    var h := GameOver(s).highScoreText;
    var previous := SliceLast(s.highScoreText, Width);
    if h == HighScoreLabel(s.scoreText) {
      var d := SliceLast(h, Width);
      assert forall i :: 0 <= i < |d| ==> d[i] == s.scoreText[|s.scoreText| - Width + i];
    } else {
      assert h == HighScoreLabel(previous);
    }
  }

  lemma GameOverPreservesValid(s: PlayState)
    requires Valid(s)
    ensures Valid(GameOver(s))
  {
    GameOverKeepsHighWellFormed(s);
  }

  lemma RestartPreservesValid(s: PlayState)
    requires Valid(s)
    ensures Valid(Restart(s))
  {
  }

  lemma StartPreservesValid(cfg: Config, s: PlayState)
    requires Valid(s)
    ensures Valid(StartOverlap(cfg, s))
    ensures s.rolling ==> Valid(RampTick(cfg, s)) && Valid(Ramp(cfg, s))
  {
  }

  // ---------------------------------------------------------------------------------------
  // Game-over and restart

  /** With a five-digit score display, game-over keeps the larger of the old high score and
      the displayed score, so the high score never decreases. */
  lemma GameOverHighScore(s: PlayState)
    requires IsDigitString(s.scoreText) && |s.scoreText| == Width && HighWellFormed(s.highScoreText)
    ensures HighWellFormed(GameOver(s).highScoreText)
    ensures var before := HighScoreValue(s.highScoreText);
            var current := Value(s.scoreText);
            HighScoreValue(GameOver(s).highScoreText) == if current > before then current else before
    ensures HighScoreValue(GameOver(s).highScoreText) >= HighScoreValue(s.highScoreText)
  {
    GameOverKeepsHighWellFormed(s);
    var previous := SliceLast(s.highScoreText, Width);
    assert SliceLast(HighScoreLabel(s.scoreText), Width) == s.scoreText;
    assert SliceLast(HighScoreLabel(previous), Width) == previous;
  }

  /** A second collision before any frame has run changes nothing more. */
  lemma GameOverIdempotent(s: PlayState)
    requires IsDigitString(s.scoreText) && |s.scoreText| == Width && HighWellFormed(s.highScoreText)
    ensures GameOver(GameOver(s)) == GameOver(s)
  {
    var previous := SliceLast(s.highScoreText, Width);
    assert SliceLast(HighScoreLabel(s.scoreText), Width) == s.scoreText;
    assert SliceLast(HighScoreLabel(previous), Width) == previous;
  }

  /** Past 99999 the displayed score has six digits and is written into the high score whole:
      a run ending at 100000 over a high score of 99999 leaves the label "HI 100000", which
      the next game-over reads back through its last five characters as 0. */
  lemma HighScoreTruncatedPast99999(s: PlayState)
    requires s.scoreText == ScoreText(100000) && s.highScoreText == "HI 99999"
    ensures HighScoreValue(s.highScoreText) == 99999
    ensures GameOver(s).highScoreText == "HI 100000"
    ensures HighWellFormed(GameOver(s).highScoreText)
    ensures HighScoreValue(GameOver(s).highScoreText) == 0
  {
    DisplayOf99999And100000();
    ScoreTextValue(100000);
    assert SliceLast("HI 99999", Width) == "99999";
    assert ParseNumber(s.scoreText) == Some(100000);
    assert ParseNumber("99999") == Some(99999);
    assert GameOver(s).highScoreText == "HI 100000";
    assert SliceLast("HI 100000", Width) == "00000" == Zeros(5);
    ValueOfZeros(5);
  }

  /** A high-score label that reads back as 0 ("HI 100000" among them) is replaced by whatever
      five-digit score the next game-over shows, however small. */
  lemma ZeroHighScoreReplaced(s: PlayState)
    requires IsDigitString(s.scoreText) && |s.scoreText| == Width
    requires HighWellFormed(s.highScoreText) && HighScoreValue(s.highScoreText) == 0
    ensures HighScoreValue(GameOver(s).highScoreText) == Value(s.scoreText)
  {
    GameOverHighScore(s);
  }

  /** Restart is a no-op when repeated. */
  lemma RestartIdempotent(s: PlayState)
    ensures Restart(Restart(s)) == Restart(s)
  {
  }

  /** Restarting after a game-over resumes an empty world with score, timers and modifier at
      their initial values, the base speed kept and the high score carried over. */
  lemma RestartAfterGameOver(s: PlayState)
    requires Valid(s)
    ensures var r := Restart(GameOver(s));
            && r.running && r.obstacles == [] && Valid(r)
            && r.score == 0 && r.scoreDeltaTime == 0 && r.spawnTime == 0
            && r.modifier == BaseModifier && r.gameSpeed == s.gameSpeed
            && r.highScoreText == GameOver(s).highScoreText
  {
    GameOverPreservesValid(s);
  }

  // ---------------------------------------------------------------------------------------
  // Start sequence

  /** From the created scene, the first overlap only moves the trigger (no ramp, not
      running); the second parks it and starts the ramp, which ends with the run started, the
      ground exactly as wide as the screen and the player standing. */
  lemma StartSequence(cfg: Config)
    requires cfg.gameHeight != TriggerStartY
    ensures var first := StartOverlap(cfg, Init(cfg));
            && !first.rolling && !first.running && first.trigger == Point(0, cfg.gameHeight)
            && first.groundWidth == StartGroundWidth
    ensures var second := StartOverlap(cfg, StartOverlap(cfg, Init(cfg)));
            && second.rolling && !second.running && second.trigger == Point(TriggerParked, TriggerParked)
    ensures var r := Ramp(cfg, StartOverlap(cfg, StartOverlap(cfg, Init(cfg))));
            && r.running && r.groundWidth == cfg.gameWidth && r.velocityX == 0
            && r.score == 0 && r.obstacles == [] && Valid(r)
  {
    InitValid(cfg);
    StartPreservesValid(cfg, Init(cfg));
    StartPreservesValid(cfg, StartOverlap(cfg, Init(cfg)));
  }
}
