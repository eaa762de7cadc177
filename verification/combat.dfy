/** How the components reach each other: a bullet/enemy contact runs the
    trigger handlers of both objects; an enemy's attack calls the player's
    TakeDamage and its death calls the manager's AddScore; the player's death
    reaches the manager's GameOver both through the OnPlayerDied listener and
    through a direct call. */
module Combat {
  import opened Engine
  import PlayerHealth
  import EnemyAgent
  import Projectile
  import GameSession

  /** The outcome of one bullet/enemy contact: the enemy's step and whether
      the bullet destroys itself. */
  datatype Hit = Hit(enemy: EnemyAgent.Step, bulletDestroyed: bool)

  /** The bullet's handler: an Enemy-tagged collider with an Enemy component
      takes the bullet's damage. */
  function BulletSide(bc: Projectile.Config, ec: EnemyAgent.Config, es: EnemyAgent.State, enemyHasComponent: bool): (r: Hit)
    ensures enemyHasComponent ==> r.enemy == EnemyAgent.TakeDamage(ec, es, bc.damage)
    ensures !enemyHasComponent ==> r.enemy == EnemyAgent.Step(es, [])
    ensures r.bulletDestroyed == bc.destroyOnHit
  {
    var contact := Projectile.OnContact(bc, EnemyTag, enemyHasComponent);
    var step := if contact.enemyDamage.Some? then EnemyAgent.TakeDamage(ec, es, contact.enemyDamage.value)
                else EnemyAgent.Step(es, []);
    Hit(step, contact.destroyed)
  }

  /** The enemy's handler: a Bullet-tagged collider deals its Bullet
      component's damage (1 without one). */
  function EnemySide(bc: Projectile.Config, ec: EnemyAgent.Config, es: EnemyAgent.State, bulletHasComponent: bool): (r: EnemyAgent.Step)
    ensures !es.isDead ==> r.state.health == es.health - (if bulletHasComponent then bc.damage else 1)
    ensures es.isDead ==> r == EnemyAgent.Step(es, [])
  {
    EnemyAgent.OnContact(ec, es, BulletTag, if bulletHasComponent then Some(bc.damage) else None)
  }

  /** A contact between a bullet (tagged Bullet) and an enemy (tagged Enemy):
      both objects receive OnTriggerEnter2D, here the bullet's first. The
      bullet's Destroy takes effect only after the frame, so the enemy's
      handler still finds the Bullet component. */
  function BulletHitsEnemy(bc: Projectile.Config, ec: EnemyAgent.Config, es: EnemyAgent.State,
                           enemyHasComponent: bool, bulletHasComponent: bool): (r: Hit)
    ensures r.bulletDestroyed == bc.destroyOnHit
    ensures es.isDead ==> r.enemy == EnemyAgent.Step(es, [])
  {
    var first := BulletSide(bc, ec, es, enemyHasComponent);
    var second := EnemySide(bc, ec, first.enemy.state, bulletHasComponent);
    Hit(EnemyAgent.Step(second.state, first.enemy.notices + second.notices), first.bulletDestroyed)
  }

  /** The same contact with the enemy's handler running first. */
  function EnemyHitFirst(bc: Projectile.Config, ec: EnemyAgent.Config, es: EnemyAgent.State,
                         enemyHasComponent: bool, bulletHasComponent: bool): (r: Hit)
    ensures r.bulletDestroyed == bc.destroyOnHit
  {
    var first := EnemySide(bc, ec, es, bulletHasComponent);
    var second := BulletSide(bc, ec, first.state, enemyHasComponent);
    Hit(EnemyAgent.Step(second.enemy.state, first.notices + second.enemy.notices), second.bulletDestroyed)
  }

  /** Both handlers deal the bullet's damage, so a bullet that does not kill
      with its first application takes twice its damage off the enemy. */
  lemma DamageAppliedTwice(bc: Projectile.Config, ec: EnemyAgent.Config, es: EnemyAgent.State)
    requires !es.isDead && es.health - bc.damage > 0
    ensures BulletHitsEnemy(bc, ec, es, true, true).enemy.state.health == es.health - 2 * bc.damage
  {
  }

  /** The contact as evidently intended: one application of the bullet's
      damage, dealt by the bullet's handler alone. */
  function BulletHitsEnemyOnce(bc: Projectile.Config, ec: EnemyAgent.Config, es: EnemyAgent.State,
                               enemyHasComponent: bool): (r: Hit)
    ensures r.bulletDestroyed == bc.destroyOnHit
  {
    BulletSide(bc, ec, es, enemyHasComponent)
  }

  /** With a single application, a living enemy loses exactly the bullet's
      damage and dies exactly when that damage uses up its health. */
  lemma DamageAppliedOnce(bc: Projectile.Config, ec: EnemyAgent.Config, es: EnemyAgent.State)
    requires !es.isDead
    ensures var r := BulletHitsEnemyOnce(bc, ec, es, true).enemy;
            && r.state.health == es.health - bc.damage
            && (r.state.isDead <==> es.health - bc.damage <= 0)
            && EnemyAgent.ScoreCount(r.notices) == (if r.state.isDead then 1 else 0)
  {
    EnemyAgent.ScoreAwardedOnce(ec, es, [bc.damage]);
    assert EnemyAgent.ApplyHits(ec, es, [bc.damage]).notices == BulletHitsEnemyOnce(bc, ec, es, true).enemy.notices;
  }

  /** The double application still awards the kill's score once. */
  lemma ContactScoresOnce(bc: Projectile.Config, ec: EnemyAgent.Config, es: EnemyAgent.State,
                          enemyHasComponent: bool, bulletHasComponent: bool)
    ensures var r := BulletHitsEnemy(bc, ec, es, enemyHasComponent, bulletHasComponent).enemy;
            EnemyAgent.ScoreCount(r.notices) == (if !es.isDead && r.state.isDead then 1 else 0)
  {
    var first := BulletSide(bc, ec, es, enemyHasComponent);
    var second := EnemySide(bc, ec, first.enemy.state, bulletHasComponent);
    EnemyAgent.ScoreCountAppend(first.enemy.notices, second.notices);
    if enemyHasComponent {
      EnemyAgent.ScoreAwardedOnce(ec, es, [bc.damage]);
      assert EnemyAgent.ApplyHits(ec, es, [bc.damage]) == first.enemy;
    }
    if bulletHasComponent {
      EnemyAgent.ScoreAwardedOnce(ec, first.enemy.state, [bc.damage]);
      assert EnemyAgent.ApplyHits(ec, first.enemy.state, [bc.damage]) == second;
    } else {
      EnemyAgent.ScoreAwardedOnce(ec, first.enemy.state, [1]);
      assert EnemyAgent.ApplyHits(ec, first.enemy.state, [1]) == second;
    }
  }

  /** When both handlers deal the same damage (the bullet carries its
      component), the order in which they run does not matter. */
  lemma ContactOrderIrrelevant(bc: Projectile.Config, ec: EnemyAgent.Config, es: EnemyAgent.State,
                               enemyHasComponent: bool)
    ensures BulletHitsEnemy(bc, ec, es, enemyHasComponent, true).enemy
            == EnemyHitFirst(bc, ec, es, enemyHasComponent, true).enemy
  {
  }

  /** The whole scene as the cross-component calls see it. */
  datatype World = World(session: GameSession.State, player: PlayerHealth.State)

  /** The manager's reaction to one player notice. OnHealthChanged only
      refreshes UI. Died runs GameOver through the OnPlayerDied listener (when
      the manager found the player at Start) and then again by the direct call. */
  function OnPlayerNotice(g: GameSession.State, n: PlayerHealth.Notice, listening: bool): (r: GameSession.State)
    ensures n.HealthChanged? ==> r == g
    ensures n.Died? ==> r == GameSession.GameOver(g)
  {
    match n
    case HealthChanged(_) => g
    case Died =>
      var heard := if listening then GameSession.GameOver(g) else g;
      GameSession.GameOverIdempotent(g);
      GameSession.GameOver(heard)
  }

  /** Player notices delivered in order: they never touch the score; a death
      among them ends the game, a game-over is never lifted, and without a
      death the session is left as it was. */
  function OnPlayerNotices(g: GameSession.State, ns: seq<PlayerHealth.Notice>, listening: bool): (r: GameSession.State)
    ensures r.currentScore == g.currentScore
    ensures g.gameOver ==> r.gameOver
    ensures PlayerHealth.Died in ns ==> r.gameOver
    ensures PlayerHealth.Died !in ns ==> r == g
    decreases |ns|
  {
    if ns == [] then g else OnPlayerNotices(OnPlayerNotice(g, ns[0], listening), ns[1..], listening)
  }

  /** The calls an enemy makes, delivered in order at time `now`:
      AttackedPlayer reaches the player's TakeDamage (and its notices the
      manager); ScoreAwarded reaches the manager's AddScore. Once the game
      is over no call changes the score; in a running game, calls that are
      all score awards add exactly their points and leave the player alone. */
  function Deliver(pc: PlayerHealth.Config, w: World, now: real, ns: seq<EnemyAgent.Notice>, listening: bool): (r: World)
    ensures w.session.gameOver ==>
              r.session.gameOver && r.session.currentScore == w.session.currentScore
    ensures !w.session.gameOver && (forall i :: 0 <= i < |ns| ==> ns[i].ScoreAwarded?) ==>
              r.session.currentScore == w.session.currentScore + Points(ns) && r.player == w.player
    decreases |ns|
  {
    if ns == [] then w
    else
      var w' := match ns[0]
        case AttackedPlayer(d) =>
          var hit := PlayerHealth.TakeDamage(pc, w.player, now, d);
          World(OnPlayerNotices(w.session, hit.notices, listening), hit.state)
        case ScoreAwarded(p) =>
          w.(session := GameSession.AddScore(w.session, p));
      Deliver(pc, w', now, ns[1..], listening)
  }

  /** The total of the scores awarded among some notices. */
  function Points(ns: seq<EnemyAgent.Notice>): int
    decreases |ns|
  {
    if ns == [] then 0
    else (if ns[0].ScoreAwarded? then ns[0].points else 0) + Points(ns[1..])
  }

  /** A lethal attack ends the game, whether or not the listener is wired. */
  lemma LethalAttackEndsGame(pc: PlayerHealth.Config, w: World, now: real, d: int, listening: bool)
    requires PlayerHealth.ValidConfig(pc) && !PlayerHealth.IsInvulnerable(w.player, now)
    requires w.player.current - d <= 0
    ensures Deliver(pc, w, now, [EnemyAgent.AttackedPlayer(d)], listening).session
            == GameSession.GameOver(w.session)
  {
    var ns := [EnemyAgent.AttackedPlayer(d)];
    var hit := PlayerHealth.TakeDamage(pc, w.player, now, d);
    assert hit.notices == [PlayerHealth.HealthChanged(0), PlayerHealth.Died];
    var g1 := OnPlayerNotice(w.session, hit.notices[0], listening);
    assert g1 == w.session;
    assert hit.notices[1..] == [PlayerHealth.Died];
    var g2 := OnPlayerNotice(g1, PlayerHealth.Died, listening);
    assert OnPlayerNotices(g1, hit.notices[1..], listening) == OnPlayerNotices(g2, [], listening);
    var w' := World(OnPlayerNotices(w.session, hit.notices, listening), hit.state);
    assert Deliver(pc, w, now, ns, listening) == Deliver(pc, w', now, [], listening);
  }

  /** Two enemies striking in the same frame: once the first blow leaves
      health and opens a window of positive length, the second is ignored. */
  lemma SameFrameSecondAttackIgnored(pc: PlayerHealth.Config, w: World, now: real, d1: int, d2: int, listening: bool)
    requires pc.invulnerabilityDuration > 0.0 && !PlayerHealth.IsInvulnerable(w.player, now)
    requires PlayerHealth.TakeDamage(pc, w.player, now, d1).state.current > 0
    ensures Deliver(pc, w, now, [EnemyAgent.AttackedPlayer(d1), EnemyAgent.AttackedPlayer(d2)], listening).player
            == PlayerHealth.TakeDamage(pc, w.player, now, d1).state
  {
    var ns := [EnemyAgent.AttackedPlayer(d1), EnemyAgent.AttackedPlayer(d2)];
    var hit1 := PlayerHealth.TakeDamage(pc, w.player, now, d1);
    var w1 := World(OnPlayerNotices(w.session, hit1.notices, listening), hit1.state);
    assert PlayerHealth.IsInvulnerable(hit1.state, now);
    var hit2 := PlayerHealth.TakeDamage(pc, w1.player, now, d2);
    assert hit2 == PlayerHealth.Step(hit1.state, []);
    var w2 := World(OnPlayerNotices(w1.session, hit2.notices, listening), hit2.state);
    assert ns[1..] == [EnemyAgent.AttackedPlayer(d2)];
    assert Deliver(pc, w, now, ns, listening) == Deliver(pc, w1, now, ns[1..], listening);
    assert Deliver(pc, w1, now, ns[1..], listening) == Deliver(pc, w2, now, [], listening);
  }

  /** An enemy killed by a run of hits in a running game adds its score
      value exactly once; an enemy that survives adds nothing. */
  lemma KillScoresOnce(pc: PlayerHealth.Config, ec: EnemyAgent.Config, es: EnemyAgent.State,
                       hits: seq<int>, w: World, now: real, listening: bool)
    requires !es.isDead && !w.session.gameOver
    ensures var r := EnemyAgent.ApplyHits(ec, es, hits);
            Deliver(pc, w, now, r.notices, listening).session.currentScore
            == w.session.currentScore + (if r.state.isDead then ec.scoreValue else 0)
  {
    var r := EnemyAgent.ApplyHits(ec, es, hits);
    HitNoticesAreScores(ec, es, hits);
    EnemyAgent.ScoreAwardedOnce(ec, es, hits);
    PointsOfScores(r.notices, ec.scoreValue);
  }

  /** Every notice is an award of the value v. */
  predicate AllAwards(ns: seq<EnemyAgent.Notice>, v: int) {
    forall i :: 0 <= i < |ns| ==> ns[i] == EnemyAgent.ScoreAwarded(v)
  }

  /** Every notice a run of hits raises is an award of the enemy's score value. */
  lemma {:induction false} HitNoticesAreScores(ec: EnemyAgent.Config, es: EnemyAgent.State, hits: seq<int>)
    ensures AllAwards(EnemyAgent.ApplyHits(ec, es, hits).notices, ec.scoreValue)
    decreases |hits|
  {
    if hits != [] {
      var first := EnemyAgent.TakeDamage(ec, es, hits[0]);
      var rest := EnemyAgent.ApplyHits(ec, first.state, hits[1..]);
      HitNoticesAreScores(ec, first.state, hits[1..]);
      var ns := first.notices + rest.notices;
      assert EnemyAgent.ApplyHits(ec, es, hits).notices == ns;
      forall i | 0 <= i < |ns|
        ensures ns[i] == EnemyAgent.ScoreAwarded(ec.scoreValue)
      {
        if i >= |first.notices| {
          var j := i - |first.notices|;
          assert ns[i] == rest.notices[j];
          assert rest.notices[j] == EnemyAgent.ScoreAwarded(ec.scoreValue);
        } else {
          assert first.notices == [EnemyAgent.ScoreAwarded(ec.scoreValue)];
          assert ns[i] == first.notices[i];
        }
      }
    }
  }

  /** Notices that all award the same value v total v times their number. */
  lemma {:induction false} PointsOfScores(ns: seq<EnemyAgent.Notice>, v: int)
    requires AllAwards(ns, v)
    ensures Points(ns) == v * EnemyAgent.ScoreCount(ns)
    decreases |ns|
  {
    if ns != [] {
      PointsOfScores(ns[1..], v);
    }
  }
}
