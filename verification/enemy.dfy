/** One enemy (Enemy.cs): unclamped integer health, an isDead flag that makes
    death (and its score award) happen once, a per-frame pursue-or-halt
    decision against attackRange, and a melee attack gated by a cooldown
    timestamp. The distance to the player is an input of each frame. */
module EnemyAgent {
  import opened Engine

  /** Inspector settings of the component. */
  datatype Config = Config(
    maxHealth: int,
    moveSpeed: real,
    scoreValue: int,
    attackRange: real,
    attackCooldown: real,
    attackDamage: int)

  /** The rigidbody's linear velocity as the AI sets it: at rest, or heading
      for the player at `speed`. */
  datatype Motion = Halted | Chasing(speed: real)

  datatype State = State(
    health: int,
    isDead: bool,
    nextAttackTime: real,
    motion: Motion,
    angularVelocity: real)

  /** The player as an enemy sees it in one frame: absent, or at a distance,
      with or without a PlayerHealth component. */
  datatype Target = NoPlayer | Player(distance: real, hasHealth: bool)

  /** Calls an enemy makes on other scripts: PlayerHealth.TakeDamage and
      GameManager.AddScore. */
  datatype Notice = AttackedPlayer(damage: int) | ScoreAwarded(points: int)

  datatype Step = Step(state: State, notices: seq<Notice>)

  /** Start: health set to maxHealth, alive, at rest, first attack allowed at once. */
  function Start(c: Config): (s: State)
    ensures s.health == c.maxHealth && !s.isDead
    ensures s.motion == Halted
    ensures s.nextAttackTime <= 0.0
  {
    State(c.maxHealth, false, 0.0, Halted, 0.0)
  }

  /** Whether the frame's Update strikes the player. */
  predicate Attacks(c: Config, s: State, gameOver: bool, target: Target, now: real) {
    && !gameOver && !s.isDead && target.Player?
    && target.distance <= c.attackRange && now >= s.nextAttackTime
  }

  /** Update: halts everything once the game is over; does nothing when dead
      or without a player; otherwise chases beyond attackRange, halts within
      it, and attacks within it when the cooldown has run out. */
  function Update(c: Config, s: State, gameOver: bool, target: Target, now: real): (r: Step)
    ensures gameOver ==>
              r.state == s.(motion := Halted, angularVelocity := 0.0) && r.notices == []
    ensures !gameOver && (s.isDead || target.NoPlayer?) ==> r == Step(s, [])
    ensures r.state.health == s.health && r.state.isDead == s.isDead
    ensures !gameOver && !s.isDead && target.Player? ==>
              (target.distance > c.attackRange && target.distance > 0.0 <==> r.state.motion == Chasing(c.moveSpeed))
              && (target.distance <= c.attackRange ==> r.state.motion == Halted)
    ensures Attacks(c, s, gameOver, target, now) ==> r.state.nextAttackTime == now + c.attackCooldown
    ensures !Attacks(c, s, gameOver, target, now) ==>
              r.state.nextAttackTime == s.nextAttackTime && r.notices == []
    ensures r.notices != [] <==> Attacks(c, s, gameOver, target, now) && target.hasHealth
    ensures r.notices != [] ==> r.notices == [AttackedPlayer(c.attackDamage)]
  {
    if gameOver then Step(s.(motion := Halted, angularVelocity := 0.0), [])
    else if s.isDead || target.NoPlayer? then Step(s, [])
    else
      var d := target.distance;
      // Vector2.normalized of a zero offset is the zero vector.
      var motion := if d > c.attackRange && d > 0.0 then Chasing(c.moveSpeed) else Halted;
      if d <= c.attackRange && now >= s.nextAttackTime then
        Step(s.(motion := motion, nextAttackTime := now + c.attackCooldown),
             if target.hasHealth then [AttackedPlayer(c.attackDamage)] else [])
      else
        Step(s.(motion := motion), [])
  }

  /** Die: guarded by isDead, so its body (flag, halt, score) runs once. */
  function Die(c: Config, s: State): (r: Step)
    ensures s.isDead ==> r == Step(s, [])
    ensures !s.isDead ==> r.state.isDead && r.state.motion == Halted
                          && r.state.health == s.health
                          && r.notices == [ScoreAwarded(c.scoreValue)]
  {
    if s.isDead then Step(s, [])
    else Step(s.(isDead := true, motion := Halted), [ScoreAwarded(c.scoreValue)])
  }

  /** TakeDamage: a no-op once dead; otherwise health drops by exactly the
      damage, without a clamp, and Die runs when it reaches 0 or below. */
  function TakeDamage(c: Config, s: State, damage: int): (r: Step)
    ensures s.isDead ==> r == Step(s, [])
    ensures !s.isDead ==> r.state.health == s.health - damage
    ensures !s.isDead ==> (r.state.isDead <==> s.health - damage <= 0)
    ensures !s.isDead && s.health - damage <= 0 ==> r.notices == [ScoreAwarded(c.scoreValue)]
    ensures !s.isDead && s.health - damage > 0 ==> r.notices == [] && r.state.motion == s.motion
    ensures r.state.nextAttackTime == s.nextAttackTime
  {
    if s.isDead then Step(s, [])
    else
      var hurt := s.(health := s.health - damage);
      if hurt.health <= 0 then Die(c, hurt) else Step(hurt, [])
  }

  /** The damage a Bullet-tagged trigger deals: the Bullet component's damage,
      or 1 when the collider has none. */
  function BulletDamage(bullet: Option<int>): (d: int)
    ensures bullet.None? ==> d == 1
    ensures bullet.Some? ==> d == bullet.value
  {
    bullet.GetOr(1)
  }

  /** OnTriggerEnter2D: ignored once dead; a Bullet-tagged collider deals its
      bullet's damage (1 without a Bullet component); other tags are ignored. */
  function OnContact(c: Config, s: State, tag: Tag, bullet: Option<int>): (r: Step)
    ensures s.isDead || tag != BulletTag ==> r == Step(s, [])
    ensures !s.isDead && tag == BulletTag ==>
              r.state.health == s.health - BulletDamage(bullet)
  {
    if s.isDead then Step(s, [])
    else if tag == BulletTag then TakeDamage(c, s, BulletDamage(bullet))
    else Step(s, [])
  }

  /** The number of score awards among some notices. */
  function ScoreCount(ns: seq<Notice>): nat {
    if ns == [] then 0
    else (if ns[0].ScoreAwarded? then 1 else 0) + ScoreCount(ns[1..])
  }

  lemma {:induction false} ScoreCountAppend(a: seq<Notice>, b: seq<Notice>)
    ensures ScoreCount(a + b) == ScoreCount(a) + ScoreCount(b)
  {
    if a == [] {
      assert a + b == b;
    } else {
      assert (a + b)[1..] == a[1..] + b;
      ScoreCountAppend(a[1..], b);
    }
  }

  /** A run of TakeDamage calls, with every notice they raise. */
  function ApplyHits(c: Config, s: State, hits: seq<int>): Step
    decreases |hits|
  {
    if hits == [] then Step(s, [])
    else
      var first := TakeDamage(c, s, hits[0]);
      var rest := ApplyHits(c, first.state, hits[1..]);
      Step(rest.state, first.notices + rest.notices)
  }

  /** However many hits land, score is awarded once if the enemy died during
      them and never otherwise; a dead enemy stays dead. */
  lemma {:induction false} ScoreAwardedOnce(c: Config, s: State, hits: seq<int>)
    ensures var r := ApplyHits(c, s, hits);
            && (s.isDead ==> r.state.isDead)
            && ScoreCount(r.notices) == (if !s.isDead && r.state.isDead then 1 else 0)
    decreases |hits|
  {
    if hits != [] {
      var first := TakeDamage(c, s, hits[0]);
      var rest := ApplyHits(c, first.state, hits[1..]);
      ScoreAwardedOnce(c, first.state, hits[1..]);
      ScoreCountAppend(first.notices, rest.notices);
      if !s.isDead && first.state.isDead {
        assert ScoreCount(first.notices) == 1;
      } else {
        assert ScoreCount(first.notices) == 0;
      }
    }
  }

  /** One frame as an enemy's Update sees it. */
  datatype Frame = Frame(now: real, gameOver: bool, target: Target)

  /** The state after a run of Updates, and the times at which it attacked. */
  function RunFrames(c: Config, s: State, frames: seq<Frame>): (State, seq<real>)
    decreases |frames|
  {
    if frames == [] then (s, [])
    else
      var f := frames[0];
      var next := Update(c, s, f.gameOver, f.target, f.now).state;
      var rest := RunFrames(c, next, frames[1..]);
      (rest.0, (if Attacks(c, s, f.gameOver, f.target, f.now) then [f.now] else []) + rest.1)
  }

  /** Each time is no earlier than `earliest`, and every later one is at
      least `gap` after its predecessor. */
  predicate SpacedFrom(times: seq<real>, earliest: real, gap: real)
    decreases |times|
  {
    times == [] || (times[0] >= earliest && SpacedFrom(times[1..], times[0] + gap, gap))
  }

  /** Attack times of a run start no earlier than the cooldown the run began
      with, and successive ones are at least attackCooldown apart. */
  lemma {:induction false} AttacksSpacedByCooldown(c: Config, s: State, frames: seq<Frame>)
    ensures SpacedFrom(RunFrames(c, s, frames).1, s.nextAttackTime, c.attackCooldown)
    decreases |frames|
  {
    if frames != [] {
      var f := frames[0];
      var next := Update(c, s, f.gameOver, f.target, f.now).state;
      var rest := RunFrames(c, next, frames[1..]).1;
      AttacksSpacedByCooldown(c, next, frames[1..]);
      var times := RunFrames(c, s, frames).1;
      if Attacks(c, s, f.gameOver, f.target, f.now) {
        assert times == [f.now] + rest;
        assert times[1..] == rest;
      } else {
        assert times == rest;
      }
    }
  }

  /** The spacing, stated index by index. */
  lemma {:induction false} SpacedFromPairwise(times: seq<real>, earliest: real, gap: real)
    requires SpacedFrom(times, earliest, gap)
    ensures |times| > 0 ==> times[0] >= earliest
    ensures forall i :: 0 <= i < |times| - 1 ==> times[i + 1] >= times[i] + gap
    decreases |times|
  {
    if times != [] {
      SpacedFromPairwise(times[1..], times[0] + gap, gap);
      forall i | 0 <= i < |times| - 1
        ensures times[i + 1] >= times[i] + gap
      {
        if i > 0 {
          assert times[i + 1] == times[1..][i] && times[i] == times[1..][i - 1];
        }
      }
    }
  }
}
