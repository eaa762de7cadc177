/** The player's hit points (PlayerHealth.cs): integer health clamped to
    [0, maxHealth], an invulnerability window after each non-lethal hit, and
    death at zero. The window coroutine is replaced by a timestamp: the player
    is invulnerable while the clock is before `invulnerableUntil`. */
module PlayerHealth {
  import opened Mathf
  import opened Engine

  /** Inspector settings of the component. */
  datatype Config = Config(maxHealth: int, invulnerabilityDuration: real)

  /** The damage an Enemy-tagged trigger contact deals. */
  const ContactDamage: int := 10

  datatype State = State(current: int, invulnerableUntil: real)

  /** What the component announces: OnHealthChanged with the new value,
      and OnPlayerDied (which also ends the session). */
  datatype Notice = HealthChanged(current: int) | Died

  datatype Step = Step(state: State, notices: seq<Notice>)

  /** A configuration whose health range is non-empty. */
  predicate ValidConfig(c: Config) {
    c.maxHealth >= 0
  }

  /** Health lies in [0, maxHealth]. */
  predicate InRange(c: Config, s: State) {
    0 <= s.current <= c.maxHealth
  }

  /** Whether a hit at time `now` would be ignored. */
  predicate IsInvulnerable(s: State, now: real) {
    now < s.invulnerableUntil
  }

  /** Start: full health, no window open (the game clock starts at 0), and a
      first OnHealthChanged carrying the full value. */
  function Start(c: Config): (r: Step)
    ensures r.state.current == c.maxHealth
    ensures ValidConfig(c) ==> InRange(c, r.state)
    ensures forall now :: now >= 0.0 ==> !IsInvulnerable(r.state, now)
    ensures r.notices == [HealthChanged(c.maxHealth)]
  {
    Step(State(c.maxHealth, 0.0), [HealthChanged(c.maxHealth)])
  }

  /** TakeDamage: ignored while invulnerable; otherwise health drops by the
      damage, clamped to [0, maxHealth], OnHealthChanged fires, and either a
      window opens (health left) or Die runs (no health left). There is no
      check for an already dead player. */
  function TakeDamage(c: Config, s: State, now: real, damage: int): (r: Step)
    ensures IsInvulnerable(s, now) ==> r == Step(s, [])
    ensures !IsInvulnerable(s, now) ==>
              |r.notices| >= 1 && r.notices[0] == HealthChanged(r.state.current)
    ensures ValidConfig(c) && !IsInvulnerable(s, now) ==> InRange(c, r.state)
    ensures ValidConfig(c) && InRange(c, s) ==> InRange(c, r.state)
    ensures !IsInvulnerable(s, now) && 0 <= s.current - damage <= c.maxHealth ==>
              r.state.current == s.current - damage
    ensures ValidConfig(c) && !IsInvulnerable(s, now) && s.current - damage <= 0 ==>
              r.state.current == 0
    ensures !IsInvulnerable(s, now) && r.state.current > 0 ==>
              r.state.invulnerableUntil == now + c.invulnerabilityDuration
              && r.notices == [HealthChanged(r.state.current)]
    ensures !IsInvulnerable(s, now) && r.state.current <= 0 ==>
              r.state.invulnerableUntil == s.invulnerableUntil
              && r.notices == [HealthChanged(r.state.current), Died]
  {
    if IsInvulnerable(s, now) then Step(s, [])
    else
      var h := Clamp(s.current - damage, 0, c.maxHealth);
      if h > 0 then Step(State(h, now + c.invulnerabilityDuration), [HealthChanged(h)])
      else Step(s.(current := h), [HealthChanged(h), Died])
  }

  /** Heal: health rises by the amount, clamped to [0, maxHealth], and
      OnHealthChanged fires. There is no alive check and no window change. */
  function Heal(c: Config, s: State, amount: int): (r: Step)
    ensures ValidConfig(c) ==> InRange(c, r.state)
    ensures 0 <= s.current + amount <= c.maxHealth ==> r.state.current == s.current + amount
    ensures ValidConfig(c) && s.current + amount > c.maxHealth ==> r.state.current == c.maxHealth
    ensures r.state.invulnerableUntil == s.invulnerableUntil
    ensures r.notices == [HealthChanged(r.state.current)]
  {
    var h := Clamp(s.current + amount, 0, c.maxHealth);
    Step(s.(current := h), [HealthChanged(h)])
  }

  /** OnTriggerEnter2D: an Enemy-tagged collider hurts for ContactDamage unless
      the player is invulnerable; any other contact is ignored. */
  function OnContact(c: Config, s: State, now: real, tag: Tag): (r: Step)
    ensures tag != EnemyTag || IsInvulnerable(s, now) ==> r == Step(s, [])
    ensures tag == EnemyTag && !IsInvulnerable(s, now) && ContactDamage <= s.current <= c.maxHealth ==>
              r.state.current == s.current - ContactDamage
    ensures tag == EnemyTag && !IsInvulnerable(s, now) ==>
              |r.notices| >= 1 && r.notices[0] == HealthChanged(r.state.current)
    ensures ValidConfig(c) && tag == EnemyTag && !IsInvulnerable(s, now) && s.current <= ContactDamage ==>
              r.state.current == 0 && r.notices == [HealthChanged(0), Died]
    ensures tag == EnemyTag && !IsInvulnerable(s, now) && r.state.current > 0 ==>
              r.state.invulnerableUntil == now + c.invulnerabilityDuration
  {
    if tag == EnemyTag && !IsInvulnerable(s, now) then TakeDamage(c, s, now, ContactDamage)
    else Step(s, [])
  }

  /** In the model, a non-lethal hit opens a window of exactly
      invulnerabilityDuration: hits strictly inside it are ignored, hits from
      its end on are taken. The game keeps the window one frame longer (see
      the README). */
  lemma WindowAfterHit(c: Config, s: State, t: real, d: int, t': real, d': int)
    requires !IsInvulnerable(s, t) && TakeDamage(c, s, t, d).state.current > 0
    ensures var s' := TakeDamage(c, s, t, d).state;
            (t <= t' < t + c.invulnerabilityDuration ==> TakeDamage(c, s', t', d') == Step(s', []))
            && (t' >= t + c.invulnerabilityDuration ==> !IsInvulnerable(s', t'))
  {
  }

  /** A lethal hit opens no window, so with nothing else changing the next
      hit is taken again: health stays 0 and Die runs a second time. */
  lemma DieRepeats(c: Config, s: State, t: real, d: int, t': real, d': int)
    requires ValidConfig(c) && d' >= 0
    requires !IsInvulnerable(s, t) && TakeDamage(c, s, t, d).state.current == 0
    requires t' >= t
    ensures var s' := TakeDamage(c, s, t, d).state;
            TakeDamage(c, s', t', d').notices == [HealthChanged(0), Died]
  {
  }

  /** Healing a dead player with a positive amount brings health back above 0. */
  lemma HealRevives(c: Config, s: State, amount: int)
    requires s.current == 0 && amount > 0 && c.maxHealth > 0
    ensures Heal(c, s, amount).state.current > 0
  {
  }

  /** maxHealth 5, one-second window: three 1-damage hits, each half a
      second after the previous window has closed, give 4, 3, 2; a fourth hit
      inside the last window leaves 2. */
  lemma ThreeHitsScenario()
    ensures var c := Config(5, 1.0);
            var s0 := Start(c).state;
            var s1 := TakeDamage(c, s0, 0.0, 1).state;
            var s2 := TakeDamage(c, s1, 1.5, 1).state;
            var s3 := TakeDamage(c, s2, 3.0, 1).state;
            var r4 := TakeDamage(c, s3, 3.5, 1);
            s1.current == 4 && s2.current == 3 && s3.current == 2
            && r4.state.current == 2 && r4.notices == []
  {
  }
}
