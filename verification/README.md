# RecoilGunner combat rules in Dafny

A model of the gameplay core of RecoilGunner, a 2D Unity arena shooter. The
player moves only by the recoil of a charge shotgun. Enemies chase and strike
the player. A game manager counts score and sends escalating waves.

The model covers these scripts:

- **PlayerHealth**: integer health clamped to `[0, maxHealth]`.
  - A hit that leaves health opens an invulnerability window.
  - Health 0 is death.
  - Enemy contact deals 10.
- **Enemy**: unclamped health.
  - An `isDead` guard makes death and its score award happen once.
  - Each frame the enemy chases or halts by comparing its distance to the player with `attackRange`.
  - Melee attacks are spaced by a cooldown timestamp.
- **Bullet**:
  - a lifetime;
  - exclusion from player collisions at creation;
  - contact dispatch on the other collider's tag.
- **RecoilPlayerController**: the idle/charging machine.
  - The charge time is clamped, and a release fires only with at least 0.1 s of charge.
  - Bullet count, recoil, spread and speed come from the charge fraction.
  - Bullets fan out at evenly spaced angular offsets.
- **GameManager** (`GameManagerSystem.cs`):
  - score, high score and the started/over/paused flags;
  - wave size `round(base * multiplier^(wave-1))`;
  - the spawn coroutine, as a counter;
  - the inter-wave timer gate.
- **SpriteHealthBar**: the health-to-sprite index mapping and the bar's update.
- **Cross-component calls**:
  - a bullet/enemy contact runs both objects' trigger handlers;
  - an enemy attack reaches the player and a kill reaches the score;
  - the player's death reaches GameOver.

## How the model is built

- Every component is a module of pure functions over immutable datatypes. A handler returns the new state, plus the calls it makes on other components as a list of notices or effects.
- Coroutines become timestamps or counters:
  - the invulnerability window is `invulnerableUntil`;
  - the enemy cooldown is `nextAttackTime`;
  - the spawn coroutine is `Spawning(spawned, total, waited)`.
- The game clock, delta times, input and distances are parameters.
- Game time is scaled: a paused frame lasts 0 seconds of game time.
- Unity's `Mathf` routines are modelled exactly, in `mathf.dfy`:
  - `Clamp` tests the lower bound first;
  - `Lerp` clamps `t` to `[0, 1]`;
  - `RoundToInt` rounds half to even;
  - `Pow` is restricted to a natural exponent.
- Floats are modelled as exact reals. Ints are modelled as unbounded integers.

Files:

- `engine.dfy`: `Option` and collider tags.
- `mathf.dfy`: the `Mathf` routines.
- `player_health.dfy`
- `enemy.dfy`
- `bullet.dfy`
- `charge_weapon.dfy`
- `game_session.dfy`
- `sprite_health_bar.dfy`
- `combat.dfy`: the cross-component calls.

## Model

Paths are relative to the repository root.

| member | source | states |
|---|---|---|
| Mathf.Clamp | RecoilGunner/Assets/Script/PlayerHealth.cs:49 | Mathf.Clamp. The result lies in range when the range is non-empty and is unchanged when already in range. Below the minimum it gives the minimum; above the maximum it gives the maximum. |
| Mathf.ClampReal | RecoilGunner/Assets/Script/RecoilPlayerController.cs:175 | The float Clamp, with the same four cases. |
| Mathf.Lerp | RecoilGunner/Assets/Script/RecoilPlayerController.cs:220 | Lerp gives a at t <= 0 and b at t >= 1. It always lies between a and b. |
| Mathf.RoundToInt | RecoilGunner/Assets/Script/GameManagerSystem.cs:150 | The result is within 0.5 of x. On a tie it is the even neighbour. |
| Mathf.Pow | RecoilGunner/Assets/Script/GameManagerSystem.cs:150 | A non-negative base gives a non-negative power. A base of at least 1 gives a power of at least 1. |
| Mathf.RoundToIntUnique | RecoilGunner/Assets/Script/GameManagerSystem.cs:150 | The integer within one half of x (the even one on a tie) is the rounding. |
| Mathf.RoundToIntOfInt | RecoilGunner/Assets/Script/SpriteHealthBar.cs:90 | An integer-valued real rounds to itself. |
| Mathf.RoundToIntMonotone | RecoilGunner/Assets/Script/SpriteHealthBar.cs:90 | Rounding preserves order. |
| Mathf.LerpMonotone | RecoilGunner/Assets/Script/RecoilPlayerController.cs:219-221 | For a <= b, Lerp grows with t. |
| Mathf.LerpIsAffine | RecoilGunner/Assets/Script/RecoilPlayerController.cs:234 | Lerp equals a + (b - a) * Clamp01(t) for every t. |
| Mathf.PowMonotone | RecoilGunner/Assets/Script/GameManagerSystem.cs:150 | For a base of at least 1, a larger exponent gives a larger power. |
| PlayerHealth.Start | RecoilGunner/Assets/Script/PlayerHealth.cs:27-42 | Start: full health, no window open from time 0 on, and one OnHealthChanged(maxHealth). |
| PlayerHealth.TakeDamage | RecoilGunner/Assets/Script/PlayerHealth.cs:44-68 | Ignored while invulnerable (in the model, before the window's end). Otherwise health drops by the damage, clamped into [0, maxHealth], which it then never leaves. OnHealthChanged comes first. Remaining health opens a window of invulnerabilityDuration; zero health announces death. There is no dead guard. |
| PlayerHealth.Heal | RecoilGunner/Assets/Script/PlayerHealth.cs:70-76 | Health rises by the amount, clamped into range, and OnHealthChanged fires. The window is untouched, and there is no alive check. |
| PlayerHealth.OnContact | RecoilGunner/Assets/Script/PlayerHealth.cs:133-139 | Only an Enemy-tagged contact outside the window hurts, and it hurts for ContactDamage = 10. A player with at most 10 health drops to 0 and death is announced after the health change. A contact the player survives opens the window. Every other tag, including Bullet, changes nothing. |
| PlayerHealth.WindowAfterHit | RecoilGunner/Assets/Script/PlayerHealth.cs:84-98 | In the model, after a non-lethal hit, a hit strictly inside the window is ignored, and a hit from the window's end on is taken. The game keeps the window one frame longer; see "## Left out". |
| PlayerHealth.DieRepeats | RecoilGunner/Assets/Script/PlayerHealth.cs:60-67 | A lethal hit opens no window, so the next hit is taken again and announces death a second time. |
| PlayerHealth.HealRevives | RecoilGunner/Assets/Script/PlayerHealth.cs:70-76 | Healing a player at 0 health by a positive amount brings health back above 0. |
| PlayerHealth.ThreeHitsScenario | RecoilGunner/Assets/Script/PlayerHealth.cs:44-68 | maxHealth 5, window 1 s. Hits at 0, 1.5 and 3 s give 4, 3, 2. A hit at 3.5 s, inside the last window, is ignored. |
| EnemyAgent.Start | RecoilGunner/Assets/Script/Enemy.cs:66-67 | Start: health is maxHealth, alive, at rest, and the first attack is allowed at once. |
| EnemyAgent.Update | RecoilGunner/Assets/Script/Enemy.cs:105-152 | Game over halts the enemy. A dead enemy, or one with no player, does nothing. It chases exactly beyond attackRange (at a non-zero distance) and halts within it. It attacks within range once the cooldown has passed, re-arms the cooldown, and strikes only a player with health. |
| EnemyAgent.Die | RecoilGunner/Assets/Script/Enemy.cs:209-247 | Guarded by isDead. A living enemy becomes dead, halts, and awards scoreValue once. |
| EnemyAgent.TakeDamage | RecoilGunner/Assets/Script/Enemy.cs:165-191 | A no-op when dead. Otherwise health drops by exactly the damage, unclamped. The enemy dies, with its award, iff health reaches 0 or below. |
| EnemyAgent.BulletDamage | RecoilGunner/Assets/Script/Enemy.cs:280-297 | The Bullet component's damage, or 1 without one. |
| EnemyAgent.OnContact | RecoilGunner/Assets/Script/Enemy.cs:274-301 | Ignored when dead or for a non-Bullet tag. Otherwise health drops by the bullet's damage. |
| EnemyAgent.ScoreAwardedOnce | RecoilGunner/Assets/Script/Enemy.cs:209-212 | Over any run of hits, the score is awarded exactly once if the enemy died during the run, and never otherwise. A dead enemy stays dead. |
| EnemyAgent.AttacksSpacedByCooldown | RecoilGunner/Assets/Script/Enemy.cs:137-149 | Over any run of frames, the attack times start no earlier than the pending cooldown. Successive attacks are at least attackCooldown apart. |
| EnemyAgent.SpacedFromPairwise | RecoilGunner/Assets/Script/Enemy.cs:137-149 | The same spacing, stated for each pair of consecutive attack times. |
| Projectile.Spawn | RecoilGunner/Assets/Script/Bullet.cs:19-37 | Destroy fires exactly lifetime seconds after creation. Player collisions are ignored exactly when the player and both colliders exist. |
| Projectile.OnContact | RecoilGunner/Assets/Script/Bullet.cs:69-129 | Enemy tag: the damage goes to an Enemy component when there is one, and the bullet is destroyed iff destroyOnHit. Wall or Obstacle: destroyed without damage. Any other tag: nothing. |
| Projectile.ExpiresAfterLifetime | RecoilGunner/Assets/Script/Bullet.cs:23-24 | A bullet is gone exactly from creation time plus lifetime. |
| Projectile.PlayerExcluded | RecoilGunner/Assets/Script/Bullet.cs:26-37 | With the player and both colliders present, a bullet never touches the player. |
| ChargeWeapon.Init | RecoilGunner/Assets/Script/RecoilPlayerController.cs:36-38 | At Start the weapon is idle, with no charge and a zero aim. |
| ChargeWeapon.InitInv | RecoilGunner/Assets/Script/RecoilPlayerController.cs:36-38 | The start state satisfies the weapon invariant: idle means no charge, and a charge that could fire is at most maxChargeTime. |
| ChargeWeapon.ShotFor | RecoilGunner/Assets/Script/RecoilPlayerController.cs:216-221 | Bullet count, spread and speed each lie between the base and charged settings. |
| ChargeWeapon.RoundedLerpBetween | RecoilGunner/Assets/Script/RecoilPlayerController.cs:219 | A rounded Lerp between two integers stays between them. |
| ChargeWeapon.Offset | RecoilGunner/Assets/Script/RecoilPlayerController.cs:230-234 | Bullet i of n is turned by the Lerp from -spread/2 to +spread/2 at i/(n-1), and a lone bullet by 0. Its geometry is stated by the lemmas and SpreadOffsets below. |
| ChargeWeapon.SpreadOffsets | RecoilGunner/Assets/Script/RecoilPlayerController.cs:228-235 | One offset per bullet. A lone bullet gets offset 0. Several bullets run from exactly -spread/2 to exactly +spread/2 in equal steps of spread/(n-1). With a non-negative spread the offsets are in ascending order. |
| ChargeWeapon.Fire | RecoilGunner/Assets/Script/RecoilPlayerController.cs:208-254 | No aim: nothing. Otherwise: one recoil impulse, then one volley for the fraction chargeTime/maxChargeTime, which lies in (0, 1]. |
| ChargeWeapon.StartCharging | RecoilGunner/Assets/Script/RecoilPlayerController.cs:143-163 | Charging starts from 0 and the aim line shows. A half-strength impulse is applied iff the aim is non-zero. |
| ChargeWeapon.ContinueCharging | RecoilGunner/Assets/Script/RecoilPlayerController.cs:165-176 | Charge time grows by the frame time, clamped into [0, maxChargeTime]. The invariant is kept. |
| ChargeWeapon.Release | RecoilGunner/Assets/Script/RecoilPlayerController.cs:178-206 | Always back to idle with no charge and nothing shown. It fires iff the charge is at least 0.1 (and there is an aim). |
| ChargeWeapon.HandleInput | RecoilGunner/Assets/Script/RecoilPlayerController.cs:87-109 | Press, hold and release are handled in that order within one frame. A release while charging (or in the frame of the press) ends the charge at 0. Without a release, a pressed or charging weapon is charging afterwards. A press with an aim puts the half-strength impulse first. Without an aim nothing is fired or pushed. The invariant is kept, and an idle, unpressed weapon does nothing. |
| ChargeWeapon.HandleAiming | RecoilGunner/Assets/Script/RecoilPlayerController.cs:111-141 | Mouse aim always replaces the direction. Key aim replaces it only when an axis is pressed. |
| ChargeWeapon.Tick | RecoilGunner/Assets/Script/RecoilPlayerController.cs:52-73 | Game over only hides the aim line and charge circle. Input is handled before aiming, so a frame without a previous aim fires and pushes nothing, whatever this frame aims at. The aim stored at the end of the frame is the new one. The invariant and the charge bounds are kept, and an idle, unpressed weapon fires nothing. |
| ChargeWeapon.ShotAtNoCharge | RecoilGunner/Assets/Script/RecoilPlayerController.cs:216-221 | Fraction 0 gives exactly the base count, spread, speed and recoil. |
| ChargeWeapon.ShotAtFullCharge | RecoilGunner/Assets/Script/RecoilPlayerController.cs:216-221 | Fraction 1 gives exactly the charged settings. Recoil is recoilForce * (1 + chargedRecoilMultiplier). |
| ChargeWeapon.CountMonotone | RecoilGunner/Assets/Script/RecoilPlayerController.cs:219 | More charge never gives fewer bullets. |
| ChargeWeapon.SpreadSpeedMonotone | RecoilGunner/Assets/Script/RecoilPlayerController.cs:220-221 | More charge never gives less spread or less speed. |
| ChargeWeapon.RecoilMonotone | RecoilGunner/Assets/Script/RecoilPlayerController.cs:218 | More charge never gives less recoil. |
| ChargeWeapon.RecoilAtLeastBase | RecoilGunner/Assets/Script/RecoilPlayerController.cs:218 | Recoil is never below recoilForce. |
| ChargeWeapon.OffsetStep | RecoilGunner/Assets/Script/RecoilPlayerController.cs:234 | Consecutive offsets differ by spread/(n-1). |
| ChargeWeapon.OffsetEnds | RecoilGunner/Assets/Script/RecoilPlayerController.cs:232-234 | For two or more bullets, the first offset is -spread/2 and the last is +spread/2. |
| ChargeWeapon.OffsetMonotone | RecoilGunner/Assets/Script/RecoilPlayerController.cs:234 | With a non-negative spread, a later bullet never has a smaller offset. |
| ChargeWeapon.Hold | RecoilGunner/Assets/Script/RecoilPlayerController.cs:98-102 | Holding through any number of frames keeps the weapon charging and keeps the invariant. |
| ChargeWeapon.HoldAccumulates | RecoilGunner/Assets/Script/RecoilPlayerController.cs:174-175 | Clamping the charge every frame equals clamping the total held time once. |
| GameSession.Fresh | RecoilGunner/Assets/Script/GameManagerSystem.cs:6-36 | The field initialisers: not started, not over, not paused, score 0, wave 1, timer 0, no enemies counted and no spawning. The high score is the stored one. |
| GameSession.StartGame | RecoilGunner/Assets/Script/GameManagerSystem.cs:100-112 | Started, not over, score 0, wave 1. Pause, timer, spawner and high score are untouched, and no wave starts. |
| GameSession.Start | RecoilGunner/Assets/Script/GameManagerSystem.cs:55-74 | The stored high score is loaded, then StartGame runs. The timer is 0 and nothing is spawning. |
| GameSession.GameOver | RecoilGunner/Assets/Script/GameManagerSystem.cs:114-131 | The game is over and not started. The high score becomes the larger of itself and the score. Nothing else changes. |
| GameSession.AddScore | RecoilGunner/Assets/Script/GameManagerSystem.cs:139-145 | Ignored once the game is over. Otherwise it adds exactly the points, and only the score changes. |
| GameSession.TogglePause | RecoilGunner/Assets/Script/GameManagerSystem.cs:301-308 | Flips the pause flag, and only that. |
| GameSession.WaveSize | RecoilGunner/Assets/Script/GameManagerSystem.cs:147-151 | Wave 1 has exactly baseEnemiesPerWave enemies. |
| GameSession.FirstWaveIsBase | RecoilGunner/Assets/Script/GameManagerSystem.cs:150 | With no growth steps, the rounded count is the base count. |
| GameSession.Resume | RecoilGunner/Assets/Script/GameManagerSystem.cs:157-167 | One coroutine step. It spawns the next enemy while some are left. Otherwise it finishes, clears spawning, and arms the timer with timeBetweenWaves. |
| GameSession.StartWave | RecoilGunner/Assets/Script/GameManagerSystem.cs:147-155 | The spawn coroutine starts with the wave's size and spawns its first enemy at once. An empty wave finishes at once and arms the timer. |
| GameSession.NextWave | RecoilGunner/Assets/Script/GameManagerSystem.cs:271-276 | Exactly one wave further. Score and game-over are unchanged. |
| GameSession.CountDown | RecoilGunner/Assets/Script/GameManagerSystem.cs:86-94 | The timer drops by the frame time. Reaching 0 or below starts the next wave; otherwise only the timer changes. |
| GameSession.Update | RecoilGunner/Assets/Script/GameManagerSystem.cs:76-98 | Nothing happens once over. Escape flips the pause flag. The gate counts down only when started, not spawning, and no enemies were seen. The enemy count is refreshed, and the score is untouched. |
| GameSession.AdvanceSpawner | RecoilGunner/Assets/Script/GameManagerSystem.cs:157-167 | The coroutine's wait grows by the frame's game time. While the wait is short of enemySpawnDelay, only the wait changes. Once it reaches the delay, the frame is one resumption. A frame spawns at most one enemy, and only at the delay while enemies are left. Wave, score and flags never change. |
| GameSession.ScaledDt | RecoilGunner/Assets/Script/GameManagerSystem.cs:301-305 | A paused frame lasts 0 seconds of game time. |
| GameSession.Frame | RecoilGunner/Assets/Script/GameManagerSystem.cs:76-98 | A whole frame (Update, then the coroutine) moves the wave only through Update. |
| GameSession.GameOverIdempotent | RecoilGunner/Assets/Script/GameManagerSystem.cs:114-131 | GameOver twice is GameOver once. |
| GameSession.TogglePauseTwice | RecoilGunner/Assets/Script/GameManagerSystem.cs:301-308 | Two toggles restore the session exactly. |
| GameSession.WaveSizeExample | RecoilGunner/Assets/Script/GameManagerSystem.cs:150 | Base 3, multiplier 1.2, wave 3 gives round(4.32) = 4 enemies. |
| GameSession.WaveSizeMonotone | RecoilGunner/Assets/Script/GameManagerSystem.cs:150 | With a multiplier of at least 1, later waves are never smaller. |
| GameSession.GrowthMonotone | RecoilGunner/Assets/Script/GameManagerSystem.cs:150 | The unrounded count never shrinks from wave to wave. |
| GameSession.FirstExpiryIsWaveTwo | RecoilGunner/Assets/Script/GameManagerSystem.cs:71-73 | After Start, the first frame's gate moves straight to wave 2. |
| GameSession.StartWithFirstWave | RecoilGunner/Assets/Script/GameManagerSystem.cs:71-73 | Start as its comment describes it: a started session at wave 1, score 0. |
| GameSession.FirstWaveIsWaveOne | RecoilGunner/Assets/Script/GameManagerSystem.cs:71-73 | With that start, wave 1 spawns exactly baseEnemiesPerWave enemies. |
| GameSession.NoWaveWhileEnemiesRemain | RecoilGunner/Assets/Script/GameManagerSystem.cs:86-94 | While the previous frame saw enemies, no frame advances the wave. |
| GameSession.PauseFreezesTimer | RecoilGunner/Assets/Script/GameManagerSystem.cs:301-305 | While paused, neither the timer nor the wave moves. |
| GameSession.FrameAfterGameOver | RecoilGunner/Assets/Script/GameManagerSystem.cs:78 | Once over, a frame changes nothing but the still-running spawn coroutine. |
| GameSession.SpawnCounter | RecoilGunner/Assets/Script/GameManagerSystem.cs:157-167 | The coroutine spawns one enemy per resumption while enemies are left. The next resumption finishes it, after exactly the wave's count, and arms the timer. |
| GameSession.FrameAdvancesSpawner | RecoilGunner/Assets/Script/GameManagerSystem.cs:157-167 | A whole frame of a running coroutine spawns nothing while its wait stays below enemySpawnDelay. The coroutine then keeps its count and only its wait grows. Once the wait reaches the delay, the frame is one resumption. |
| GameSession.FramesFollowResumes | RecoilGunner/Assets/Script/GameManagerSystem.cs:157-167 | In an unpaused game whose frames each last at least enemySpawnDelay, frames spawn exactly as resumptions do until the wave finishes: one enemy per frame. With SpawnCounter, this gives the frame-level spawn cadence. |
| GameSession.ResumesSpawner | RecoilGunner/Assets/Script/GameManagerSystem.cs:157-167 | The coroutine's spawns depend only on its own counter, never on the rest of the session. |
| GameSession.IdleResumes | RecoilGunner/Assets/Script/GameManagerSystem.cs:165-166 | A finished coroutine stays finished. |
| SpriteHealthBar.CalculateSpriteIndex | RecoilGunner/Assets/Script/SpriteHealthBar.cs:81-94 | A non-positive maximum gives 0. With sprites, the index is a valid one. With no sprites, the result is 0 or -1. |
| SpriteHealthBar.UpdateHealth | RecoilGunner/Assets/Script/SpriteHealthBar.cs:45-79 | Stored health is clamped into [0, max]. The picked sprite is shown when its slot exists and is assigned; otherwise the old one stays. The text is rewritten when enabled. With hideAtFullHealth, the bar is active exactly below full health. |
| SpriteHealthBar.SetHealth | RecoilGunner/Assets/Script/SpriteHealthBar.cs:97-100 | Updates against the stored maximum. |
| SpriteHealthBar.UpdateHealthIdempotent | RecoilGunner/Assets/Script/SpriteHealthBar.cs:45-79 | Repeating an update changes nothing further. |
| SpriteHealthBar.ScaledMonotone | RecoilGunner/Assets/Script/SpriteHealthBar.cs:86-90 | The scaled health fraction rises with health when there are sprites. |
| SpriteHealthBar.IndexMonotone | RecoilGunner/Assets/Script/SpriteHealthBar.cs:81-94 | More health never picks an earlier sprite. |
| SpriteHealthBar.FullHealthShowsLast | RecoilGunner/Assets/Script/SpriteHealthBar.cs:81-94 | Full health or more picks the last sprite. |
| SpriteHealthBar.NoHealthShowsFirst | RecoilGunner/Assets/Script/SpriteHealthBar.cs:81-94 | No health picks the first sprite. |
| SpriteHealthBar.OneSpritePerPoint | RecoilGunner/Assets/Script/SpriteHealthBar.cs:86-93 | With max + 1 sprites, the index is the health itself. |
| SpriteHealthBar.SixSpritesShowHealth | RecoilGunner/Assets/Script/SpriteHealthBar.cs:7-9 | With the six designed sprites and a maximum of 5, health h shows sprite h. |
| SpriteHealthBar.CountDown | RecoilGunner/Assets/Script/SpriteHealthBar.cs:113-117 | Counting down from n gives n + 1 views. |
| SpriteHealthBar.TestHealthSequence | RecoilGunner/Assets/Script/SpriteHealthBar.cs:109-121 | The test sequence makes seven updates. |
| SpriteHealthBar.CountDownShows | RecoilGunner/Assets/Script/SpriteHealthBar.cs:113-117 | The k-th update of the count-down stores health n - k. |
| SpriteHealthBar.CountDownStep | RecoilGunner/Assets/Script/SpriteHealthBar.cs:113-117 | Each view of the count-down is an update of the one before it. |
| SpriteHealthBar.TestSequenceShowsEveryLevel | RecoilGunner/Assets/Script/SpriteHealthBar.cs:109-121 | With six assigned sprites, the test shows sprites 5 down to 0, then 5 again. |
| Combat.BulletSide | RecoilGunner/Assets/Script/Bullet.cs:77-109 | The bullet's handler damages an enemy that has an Enemy component, and is destroyed iff destroyOnHit. |
| Combat.EnemySide | RecoilGunner/Assets/Script/Enemy.cs:274-301 | The enemy's handler deals the bullet's damage (1 without a component) unless the enemy is dead. |
| Combat.BulletHitsEnemy | RecoilGunner/Assets/Script/Bullet.cs:69-129 | A contact runs both handlers. It does nothing to a dead enemy, and the bullet goes iff destroyOnHit. |
| Combat.EnemyHitFirst | RecoilGunner/Assets/Script/Enemy.cs:274-301 | The same contact with the enemy's handler first. |
| Combat.DamageAppliedTwice | RecoilGunner/Assets/Script/Enemy.cs:278-283 | A bullet that does not kill with its first application takes twice its damage off the enemy. |
| Combat.BulletHitsEnemyOnce | RecoilGunner/Assets/Script/Bullet.cs:77-82 | The intended single application. The bullet goes iff destroyOnHit. |
| Combat.DamageAppliedOnce | RecoilGunner/Assets/Script/Bullet.cs:77-82 | With one application, the enemy loses exactly the damage and dies iff that uses up its health. Its score is awarded iff it died. |
| Combat.ContactScoresOnce | RecoilGunner/Assets/Script/Enemy.cs:209-212 | Even with the double application, a kill's score is awarded exactly once. |
| Combat.ContactOrderIrrelevant | RecoilGunner/Assets/Script/Enemy.cs:274-301 | When both handlers deal the same damage, their order does not matter. |
| Combat.OnPlayerNotice | RecoilGunner/Assets/Script/PlayerHealth.cs:116-131 | Player death runs GameOver through the listener and again directly. The result equals one GameOver. Health changes do not touch the session. |
| Combat.OnPlayerNotices | RecoilGunner/Assets/Script/PlayerHealth.cs:124-130 | Player notices never change the score and never lift a game-over. A death among them ends the game. Without a death the session is left unchanged. |
| Combat.Deliver | RecoilGunner/Assets/Script/Enemy.cs:139-142 | An enemy's calls reach the player's TakeDamage and the manager's AddScore (Enemy.cs:234-238). Once the game is over, no call changes the score. In a running game, calls that are all score awards add exactly their points and leave the player alone. |
| Combat.LethalAttackEndsGame | RecoilGunner/Assets/Script/PlayerHealth.cs:116-131 | A lethal enemy attack ends the game, whether or not the listener is wired. |
| Combat.SameFrameSecondAttackIgnored | RecoilGunner/Assets/Script/PlayerHealth.cs:84-89 | Of two attacks in one frame, the second is ignored once the first opened a window. |
| Combat.KillScoresOnce | RecoilGunner/Assets/Script/Enemy.cs:234-238 | An enemy killed by a run of hits adds its scoreValue exactly once; a survivor adds nothing. |
| Combat.HitNoticesAreScores | RecoilGunner/Assets/Script/Enemy.cs:234-238 | Every call a run of hits makes is an award of scoreValue. |

## Left out

- Physics, vectors and trigonometry are not modelled:
  - rigidbody forces and velocities are reduced to their scalar magnitudes;
  - bullet directions and the player's rotation are left out;
  - `LimitSpeed` and the `RecoilMovement` script are left out;
  - movement toward the player is reduced to "chasing at moveSpeed".
- Floats are modelled as exact reals, so float rounding is not modelled:
  - `0.1f` is taken as exactly 0.1;
  - a float tie in `RoundToInt` may fall differently in the game.
- Ints are modelled as unbounded: score, health and wave counters do not wrap around at 32 bits.
- `Vector2.normalized` returns zero below a length of 1e-5; the model treats only an exact zero distance as zero.
- PlayerHealth.TakeDamage: the window is `now < invulnerableUntil`, for every duration. In the game, `isInvulnerable` is cleared only when the coroutine resumes after the Update calls of the first frame whose time reaches the window's end. Attacks and contacts in that frame's physics and Update phases are still ignored. A zero `invulnerabilityDuration` therefore still blocks the rest of the frame.
- WindowAfterHit: its clause that a hit from the window's end on is taken holds in the model only. In the game, it holds from the frame after the first frame at or past the end.
- ThreeHitsScenario: its hits are half a second past each window's end. In the game they are taken only when some frame fell between the window's end and the hit, as it does at any normal frame rate.
- Coroutine timing is approximate:
  - `WaitForSeconds` is modelled as a wait that resumes on the first frame whose accumulated scaled time reaches the delay;
  - the order of coroutines against `Update` within a frame is fixed as Update first.
- Scene queries and I/O become inputs:
  - the player's distance, the live enemy count and the presence of components are inputs;
  - the high score is the loaded `PlayerPrefs` value;
  - saving it is not modelled.
- Spawn-position selection (`SpawnRandomEnemy`) is left out; only the number of spawns is modelled.
- `OnBecameInvisible`, which destroys a bullet that leaves the screen, is left out because camera visibility is outside the model.
- `RestartGame`, which reloads the scene, is left out.
- UI is left out: menus, text contents other than the health-bar label, camera shake, hit and death effects, colour flashes, the aim line's geometry, charge-circle animation, audio and debug logging.
- Redundant guards are left out: the inner `gameOver` checks inside the controller's handlers cannot fire, because `Update` returns early when the game is over.
- The Unity lifecycle is left out: `Awake` and the singleton, object destruction, and `DontDestroyOnLoad`.
- The bullet's self-added `CircleCollider2D` is left out: it is created after the player exclusion is set up, so it is not excluded.
- `PlayerHealth.Heal` has no alive check: a player at 0 health is healed back above 0 (`PlayerHealth.HealRevives`).
- `PlayerHealth.TakeDamage` has no dead guard, so a second lethal hit announces `Died` again (`PlayerHealth.DieRepeats`).

## Findings

| source | as written | input that shows it | evidently intended | confidence | as-written member | corrected member |
|---|---|---|---|---|---|---|
| RecoilGunner/Assets/Script/Enemy.cs:274-301 | The bullet's handler and the enemy's handler both apply the bullet's damage on one contact. | An enemy with health 3 hit by a bullet of damage 1 drops to 1, not 2. | One contact applies the bullet's damage once. | not executed; high | Combat.DamageAppliedTwice | Combat.DamageAppliedOnce |
| RecoilGunner/Assets/Script/GameManagerSystem.cs:71-73 | Start calls StartGame, which starts no wave and leaves the timer at 0. The first frame therefore jumps to wave 2. | Base 3, multiplier 1.2: the first wave played is wave 2, with round(3.6) = 4 enemies. | Start runs the first wave: wave 1 with baseEnemiesPerWave enemies. | not executed; medium | GameSession.FirstExpiryIsWaveTwo | GameSession.FirstWaveIsWaveOne |
