/** The session and wave director (GameManagerSystem.cs): score, high score,
    the started/over/paused flags, escalating wave sizes, the spawn coroutine
    as a counter, and the inter-wave timer that only runs while nothing is
    spawning and no enemies remain. Time is scaled: a paused game's frames
    last 0 seconds of game time. */
module GameSession {
  import opened Mathf

  /** Inspector settings of the manager. */
  datatype Config = Config(
    timeBetweenWaves: real,
    baseEnemiesPerWave: int,
    waveMultiplier: real,
    enemySpawnDelay: real)

  /** The spawn coroutine: not running, or having spawned `spawned` of
      `total` enemies and waited `waited` seconds since its last yield. It
      runs exactly while the manager's spawningWave flag is set. */
  datatype Spawner = Idle | Spawning(spawned: nat, total: int, waited: real)

  datatype State = State(
    gameStarted: bool,
    gameOver: bool,
    gamePaused: bool,
    currentScore: int,
    highScore: int,
    currentWave: int,
    waveTimer: real,
    spawner: Spawner,
    enemiesRemaining: int)

  /** A state change and the number of enemies it spawned. */
  datatype Step = Step(state: State, spawned: nat)

  /** The wave number never drops below the first wave. */
  predicate Valid(s: State) {
    s.currentWave >= 1
  }

  /** The field initialisers, with the high score loaded from storage. */
  function Fresh(storedHighScore: int): (s: State)
    ensures Valid(s) && s.spawner.Idle? && s.highScore == storedHighScore
    ensures s.currentWave == 1 && s.currentScore == 0 && s.waveTimer == 0.0
    ensures !s.gameStarted && !s.gameOver && !s.gamePaused && s.enemiesRemaining == 0
  {
    State(false, false, false, 0, storedHighScore, 1, 0.0, Idle, 0)
  }

  /** StartGame: a new session at wave 1 with score 0. It does not start a
      wave, reset the timer or touch the pause flag. */
  function StartGame(s: State): (r: State)
    ensures r.gameStarted && !r.gameOver && r.currentScore == 0 && r.currentWave == 1
    ensures Valid(r)
    ensures r.gamePaused == s.gamePaused && r.highScore == s.highScore
    ensures r.waveTimer == s.waveTimer && r.spawner == s.spawner
    ensures r.enemiesRemaining == s.enemiesRemaining
  {
    s.(gameStarted := true, gameOver := false, currentScore := 0, currentWave := 1)
  }

  /** Start: load the high score, then StartGame. */
  function Start(storedHighScore: int): (s: State)
    ensures Valid(s) && s.gameStarted && !s.gameOver && !s.gamePaused
    ensures s.currentScore == 0 && s.currentWave == 1 && s.highScore == storedHighScore
    ensures s.waveTimer == 0.0 && s.spawner.Idle? && s.enemiesRemaining == 0
  {
    StartGame(Fresh(storedHighScore))
  }

  /** GameOver: the session ends and the high score becomes the larger of
      itself and the current score. */
  function GameOver(s: State): (r: State)
    ensures r.gameOver && !r.gameStarted
    ensures r.highScore >= s.highScore && r.highScore >= s.currentScore
    ensures r.highScore == s.highScore || r.highScore == s.currentScore
    ensures r == s.(gameOver := true, gameStarted := false, highScore := r.highScore)
  {
    s.(gameOver := true, gameStarted := false,
       highScore := if s.currentScore > s.highScore then s.currentScore else s.highScore)
  }

  /** AddScore: ignored once the game is over, otherwise adds exactly `points`. */
  function AddScore(s: State, points: int): (r: State)
    ensures s.gameOver ==> r == s
    ensures !s.gameOver ==> r.currentScore - s.currentScore == points
    ensures r == s.(currentScore := r.currentScore)
  {
    if s.gameOver then s else s.(currentScore := s.currentScore + points)
  }

  /** TogglePause: flips the pause flag (and with it the time scale). */
  function TogglePause(s: State): (r: State)
    ensures r.gamePaused != s.gamePaused
    ensures r == s.(gamePaused := r.gamePaused)
  {
    s.(gamePaused := !s.gamePaused)
  }

  /** The number of enemies of a wave: base * multiplier^(wave-1), rounded
      half to even. */
  function WaveSize(c: Config, wave: int): (n: int)
    requires wave >= 1
    ensures wave == 1 ==> n == c.baseEnemiesPerWave
  {
    FirstWaveIsBase(c);
    RoundToInt(Growth(c, wave - 1))
  }

  lemma FirstWaveIsBase(c: Config)
    ensures RoundToInt(Growth(c, 0)) == c.baseEnemiesPerWave
  {
    RoundToIntOfInt(c.baseEnemiesPerWave);
  }

  /** The unrounded enemy count after `steps` waves of growth. */
  function Growth(c: Config, steps: nat): real {
    c.baseEnemiesPerWave as real * Pow(c.waveMultiplier, steps)
  }

  /** One resumption of the spawn coroutine: spawn the next enemy while some
      are left, otherwise finish, clearing spawningWave and arming the
      inter-wave timer. */
  function Resume(c: Config, s: State): (r: Step)
    ensures s.spawner.Idle? ==> r == Step(s, 0)
    ensures s.spawner.Spawning? && s.spawner.spawned < s.spawner.total ==>
              r.spawned == 1 && r.state.spawner == Spawning(s.spawner.spawned + 1, s.spawner.total, 0.0)
              && r.state.waveTimer == s.waveTimer
    ensures s.spawner.Spawning? && s.spawner.spawned >= s.spawner.total ==>
              r.spawned == 0 && r.state.spawner.Idle? && r.state.waveTimer == c.timeBetweenWaves
    ensures r.state == s.(spawner := r.state.spawner, waveTimer := r.state.waveTimer)
  {
    match s.spawner
    case Idle => Step(s, 0)
    case Spawning(spawned, total, _) =>
      if spawned < total then Step(s.(spawner := Spawning(spawned + 1, total, 0.0)), 1)
      else Step(s.(spawner := Idle, waveTimer := c.timeBetweenWaves), 0)
  }

  /** StartWave: sets spawningWave and starts the coroutine for the current
      wave's size, which runs up to its first yield at once. */
  function StartWave(c: Config, s: State): (r: Step)
    requires Valid(s)
    ensures var n := WaveSize(c, s.currentWave);
            && (n > 0 ==> r.state.spawner == Spawning(1, n, 0.0) && r.spawned == 1)
            && (n <= 0 ==> r.state.spawner.Idle? && r.spawned == 0 && r.state.waveTimer == c.timeBetweenWaves)
    ensures r.state.currentWave == s.currentWave && r.state.currentScore == s.currentScore
  {
    Resume(c, s.(spawner := Spawning(0, WaveSize(c, s.currentWave), 0.0)))
  }

  /** NextWave: exactly one wave further, then StartWave. */
  function NextWave(c: Config, s: State): (r: Step)
    requires Valid(s)
    ensures r.state.currentWave == s.currentWave + 1 && Valid(r.state)
    ensures r.state.currentScore == s.currentScore && r.state.gameOver == s.gameOver
  {
    StartWave(c, s.(currentWave := s.currentWave + 1))
  }

  /** The wave gate of Update: is the session waiting for the next wave? */
  predicate GateOpen(s: State) {
    s.gameStarted && s.spawner.Idle? && s.enemiesRemaining <= 0
  }

  /** The timer part of the gate: count down, and start the next wave once
      the timer reaches 0 or below. */
  function CountDown(c: Config, s: State, dt: real): (r: Step)
    requires Valid(s)
    ensures Valid(r.state)
    ensures s.waveTimer - dt <= 0.0 ==> r.state.currentWave == s.currentWave + 1
    ensures s.waveTimer - dt > 0.0 ==>
              r == Step(s.(waveTimer := s.waveTimer - dt), 0)
  {
    var t := s.waveTimer - dt;
    if t <= 0.0 then NextWave(c, s.(waveTimer := t)) else Step(s.(waveTimer := t), 0)
  }

  /** Update, with `dt` the frame's scaled delta time and `liveEnemies` the
      enemy count seen at its end: nothing once the game is over; otherwise
      Escape toggles pause, the wave gate (which reads the previous frame's
      enemy count) may count down, and the enemy count is refreshed. */
  function Update(c: Config, s: State, escape: bool, dt: real, liveEnemies: nat): (r: Step)
    requires Valid(s)
    ensures Valid(r.state)
    ensures s.gameOver ==> r == Step(s, 0)
    ensures !s.gameOver ==> r.state.enemiesRemaining == liveEnemies
    ensures !s.gameOver ==> r.state.gamePaused == (s.gamePaused != escape)
    ensures !s.gameOver ==> r.state.currentScore == s.currentScore
    ensures !s.gameOver && !GateOpen(s) ==>
              r.state.waveTimer == s.waveTimer && r.state.currentWave == s.currentWave
              && r.state.spawner == s.spawner && r.spawned == 0
    ensures !s.gameOver && GateOpen(s) && s.waveTimer - dt > 0.0 ==>
              r.state.waveTimer == s.waveTimer - dt && r.state.currentWave == s.currentWave
    ensures !s.gameOver && GateOpen(s) && s.waveTimer - dt <= 0.0 ==>
              r.state.currentWave == s.currentWave + 1
  {
    if s.gameOver then Step(s, 0)
    else
      var p := if escape then TogglePause(s) else s;
      var g := if GateOpen(p) then CountDown(c, p, dt) else Step(p, 0);
      Step(g.state.(enemiesRemaining := liveEnemies), g.spawned)
  }

  /** The coroutine's part of a frame: its wait accumulates the scaled time
      and it resumes once enemySpawnDelay has elapsed. A frame spawns at most
      one enemy, and only when the wait has reached the delay. */
  function AdvanceSpawner(c: Config, s: State, dt: real): (r: Step)
    ensures s.spawner.Idle? ==> r == Step(s, 0)
    ensures r.spawned <= 1
    ensures r.spawned == 1 ==>
              s.spawner.Spawning? && s.spawner.waited + dt >= c.enemySpawnDelay
              && s.spawner.spawned < s.spawner.total
    ensures s.spawner.Spawning? && s.spawner.waited + dt < c.enemySpawnDelay ==>
              r == Step(s.(spawner := s.spawner.(waited := s.spawner.waited + dt)), 0)
    ensures s.spawner.Spawning? && s.spawner.waited + dt >= c.enemySpawnDelay ==>
              r.spawned == Resume(c, s).spawned && r.state.spawner == Resume(c, s).state.spawner
    ensures r.state.currentWave == s.currentWave && r.state.currentScore == s.currentScore
    ensures r.state.gameOver == s.gameOver && r.state.gamePaused == s.gamePaused
  {
    match s.spawner
    case Idle => Step(s, 0)
    case Spawning(spawned, total, waited) =>
      var s1 := s.(spawner := Spawning(spawned, total, waited + dt));
      if waited + dt >= c.enemySpawnDelay then Resume(c, s1) else Step(s1, 0)
  }

  /** One frame's input: Escape pressed, the unscaled frame time, and the
      number of Enemy objects in the scene. */
  datatype FrameInput = FrameInput(escape: bool, unscaledDt: real, liveEnemies: nat)

  /** Game time of a frame: none while paused (time scale 0). */
  function ScaledDt(s: State, unscaledDt: real): (dt: real)
    ensures s.gamePaused ==> dt == 0.0
    ensures !s.gamePaused ==> dt == unscaledDt
  {
    if s.gamePaused then 0.0 else unscaledDt
  }

  /** A whole frame: Update, then the spawn coroutine if it was already
      running. The coroutine keeps running after the game is over, since
      only Update returns early. */
  function Frame(c: Config, s: State, input: FrameInput): (r: Step)
    requires Valid(s)
    ensures Valid(r.state)
    ensures r.state.currentWave == Update(c, s, input.escape, ScaledDt(s, input.unscaledDt), input.liveEnemies).state.currentWave
  {
    var dt := ScaledDt(s, input.unscaledDt);
    var u := Update(c, s, input.escape, dt, input.liveEnemies);
    if s.spawner.Spawning? then
      var a := AdvanceSpawner(c, u.state, dt);
      Step(a.state, u.spawned + a.spawned)
    else u
  }

  /** GameOver twice is GameOver once. */
  lemma GameOverIdempotent(s: State)
    ensures GameOver(GameOver(s)) == GameOver(s)
  {
  }

  /** Two toggles restore the session exactly. */
  lemma TogglePauseTwice(s: State)
    ensures TogglePause(TogglePause(s)) == s
  {
  }

  /** Base 3, multiplier 1.2, wave 3: round(4.32) = 4 enemies. */
  lemma WaveSizeExample()
    ensures WaveSize(Config(5.0, 3, 1.2, 1.0), 3) == 4
  {
    assert Pow(1.2, 2) == 1.44;
    assert Growth(Config(5.0, 3, 1.2, 1.0), 2) == 4.32;
    RoundToIntUnique(4.32, 4);
  }

  /** With a multiplier of at least 1, later waves are never smaller. */
  lemma WaveSizeMonotone(c: Config, w1: int, w2: int)
    requires 1 <= w1 <= w2
    requires c.baseEnemiesPerWave >= 0 && c.waveMultiplier >= 1.0
    ensures WaveSize(c, w1) <= WaveSize(c, w2)
  {
    GrowthMonotone(c, w1 - 1, w2 - 1);
    RoundToIntMonotone(Growth(c, w1 - 1), Growth(c, w2 - 1));
  }

  lemma GrowthMonotone(c: Config, e1: nat, e2: nat)
    requires e1 <= e2
    requires c.baseEnemiesPerWave >= 0 && c.waveMultiplier >= 1.0
    ensures Growth(c, e1) <= Growth(c, e2)
  {
    PowMonotone(c.waveMultiplier, e1, e2);
    MulMonotone(c.baseEnemiesPerWave as real, Pow(c.waveMultiplier, e1), Pow(c.waveMultiplier, e2));
  }

  /** The first expiry of the gate after Start moves straight to wave 2,
      since StartGame arms no wave and leaves the timer at 0. */
  lemma FirstExpiryIsWaveTwo(c: Config, high: int, dt: real, live: nat)
    requires dt >= 0.0
    ensures Update(c, Start(high), false, dt, live).state.currentWave == 2
  {
  }

  /** Start as its own comment describes it, starting the first wave too. */
  function StartWithFirstWave(c: Config, storedHighScore: int): (r: Step)
    ensures r.state.currentWave == 1 && r.state.currentScore == 0 && r.state.gameStarted
  {
    StartWave(c, Start(storedHighScore))
  }

  /** With that start the first wave is wave 1 and spawns exactly
      baseEnemiesPerWave enemies (its first one at once). */
  lemma FirstWaveIsWaveOne(c: Config, high: int)
    requires c.baseEnemiesPerWave > 0
    ensures var r := StartWithFirstWave(c, high);
            r.spawned == 1 && r.state.spawner == Spawning(1, c.baseEnemiesPerWave, 0.0)
            && Left(r.state.spawner) == c.baseEnemiesPerWave - 1
  {
  }

  /** While the previous frame saw enemies, no frame advances the wave. */
  lemma NoWaveWhileEnemiesRemain(c: Config, s: State, input: FrameInput)
    requires Valid(s) && s.enemiesRemaining > 0
    ensures Frame(c, s, input).state.currentWave == s.currentWave
  {
  }

  /** While paused, with a running timer, a coroutine still inside its wait
      and no Escape, a frame moves neither the timer nor the wave. */
  lemma PauseFreezesTimer(c: Config, s: State, input: FrameInput)
    requires Valid(s) && s.gamePaused && !input.escape && s.waveTimer > 0.0
    requires s.spawner.Spawning? ==> s.spawner.waited < c.enemySpawnDelay
    ensures Frame(c, s, input).state.waveTimer == s.waveTimer
    ensures Frame(c, s, input).state.currentWave == s.currentWave
  {
  }

  /** Once over, a frame changes nothing but the spawn coroutine, which may
      still spawn. */
  lemma FrameAfterGameOver(c: Config, s: State, input: FrameInput)
    requires Valid(s) && s.gameOver
    ensures var r := Frame(c, s, input).state;
            r == s.(spawner := r.spawner, waveTimer := r.waveTimer)
    ensures s.spawner.Idle? ==> Frame(c, s, input) == Step(s, 0)
  {
  }

  /** How many more enemies the coroutine will spawn. */
  function Left(sp: Spawner): nat {
    if sp.Spawning? && sp.total > sp.spawned then sp.total - sp.spawned else 0
  }

  /** k resumptions of the spawn coroutine. */
  function Resumes(c: Config, s: State, k: nat): Step
    decreases k
  {
    if k == 0 then Step(s, 0)
    else
      var first := Resume(c, s);
      var rest := Resumes(c, first.state, k - 1);
      Step(rest.state, first.spawned + rest.spawned)
  }

  /** The coroutine as a counter: spawningWave stays set through the first
      Left resumptions, each spawning one enemy; the next one finishes it,
      clearing spawningWave and arming the inter-wave timer, after exactly
      Left enemies in all. */
  lemma {:induction false} SpawnCounter(c: Config, s: State, k: nat)
    requires s.spawner.Spawning?
    ensures var r := Resumes(c, s, k);
            && (k <= Left(s.spawner) ==>
                  r.state.spawner.Spawning? && r.spawned == k
                  && r.state.spawner.spawned == s.spawner.spawned + k)
            && (k > Left(s.spawner) ==>
                  r.state.spawner.Idle? && r.spawned == Left(s.spawner)
                  && r.state.waveTimer == c.timeBetweenWaves)
    decreases k
  {
    if k > 0 {
      var first := Resume(c, s);
      if first.state.spawner.Spawning? {
        SpawnCounter(c, first.state, k - 1);
      } else {
        IdleResumes(c, first.state, k - 1);
      }
    }
  }

  /** A finished coroutine stays finished. */
  lemma {:induction false} IdleResumes(c: Config, s: State, k: nat)
    requires s.spawner.Idle?
    ensures Resumes(c, s, k) == Step(s, 0)
    decreases k
  {
    if k > 0 {
      IdleResumes(c, s, k - 1);
    }
  }

  /** One frame of a running coroutine: the wait grows by the frame's game
      time, and once it reaches enemySpawnDelay the frame is one resumption. */
  lemma FrameAdvancesSpawner(c: Config, s: State, input: FrameInput)
    requires Valid(s) && s.spawner.Spawning?
    ensures var w := s.spawner.waited + ScaledDt(s, input.unscaledDt);
            var r := Frame(c, s, input);
            && (w < c.enemySpawnDelay ==> r.spawned == 0 && r.state.spawner == s.spawner.(waited := w))
            && (w >= c.enemySpawnDelay ==>
                  r.spawned == Resume(c, s).spawned && r.state.spawner == Resume(c, s).state.spawner)
  {
    var u := Update(c, s, input.escape, ScaledDt(s, input.unscaledDt), input.liveEnemies);
    assert u.state.spawner == s.spawner && u.spawned == 0;
  }

  /** Frames in order, with the enemies they spawned. */
  function Frames(c: Config, s: State, inputs: seq<FrameInput>): (r: Step)
    requires Valid(s)
    ensures Valid(r.state)
    decreases |inputs|
  {
    if inputs == [] then Step(s, 0)
    else
      var first := Frame(c, s, inputs[0]);
      var rest := Frames(c, first.state, inputs[1..]);
      Step(rest.state, first.spawned + rest.spawned)
  }

  /** The spawn cadence: while the game runs unpaused and every frame lasts
      at least enemySpawnDelay, each frame resumes the coroutine once, so
      frames spawn exactly as SpawnCounter's resumptions do until the wave
      is finished. */
  lemma {:induction false} FramesFollowResumes(c: Config, s: State, inputs: seq<FrameInput>)
    requires Valid(s) && s.spawner.Spawning? && s.spawner.waited >= 0.0 && !s.gamePaused
    requires |inputs| <= Left(s.spawner) + 1
    requires forall i :: 0 <= i < |inputs| ==> !inputs[i].escape && inputs[i].unscaledDt >= c.enemySpawnDelay
    ensures Frames(c, s, inputs).spawned == Resumes(c, s, |inputs|).spawned
    ensures Frames(c, s, inputs).state.spawner == Resumes(c, s, |inputs|).state.spawner
    decreases |inputs|
  {
    if inputs != [] {
      var first := Frame(c, s, inputs[0]);
      var res := Resume(c, s);
      FrameAdvancesSpawner(c, s, inputs[0]);
      assert first.spawned == res.spawned && first.state.spawner == res.state.spawner;
      assert !first.state.gamePaused;
      if res.state.spawner.Spawning? {
        FramesFollowResumes(c, first.state, inputs[1..]);
        ResumesSpawner(c, first.state, res.state, |inputs| - 1);
      } else {
        assert inputs[1..] == [];
      }
    }
  }

  /** Resumptions depend on the session only through its spawner. */
  lemma {:induction false} ResumesSpawner(c: Config, s: State, t: State, k: nat)
    requires s.spawner == t.spawner
    ensures Resumes(c, s, k).spawned == Resumes(c, t, k).spawned
    ensures Resumes(c, s, k).state.spawner == Resumes(c, t, k).state.spawner
    decreases k
  {
    if k > 0 {
      ResumesSpawner(c, Resume(c, s).state, Resume(c, t).state, k - 1);
    }
  }
}
