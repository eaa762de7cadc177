/** The player's charge shotgun (RecoilPlayerController.cs): an idle/charging
    machine driven by the fire button, with a clamped charge time, a minimum
    charge below which a release fires nothing, and shot parameters that are
    interpolated from the charge fraction. Impulses and bullets are reported
    as effects carrying their scalar magnitudes; directions (trigonometry)
    and the physics engine are not modelled. */
module ChargeWeapon {
  import opened Mathf

  /** Inspector settings of the controller that the weapon reads. */
  datatype Config = Config(
    recoilForce: real,
    bulletSpeed: real,
    bulletsPerShot: int,
    spreadAngle: real,
    maxChargeTime: real,
    chargedRecoilMultiplier: real,
    chargedBulletsPerShot: int,
    chargedSpreadAngle: real,
    chargedBulletSpeed: real)

  /** A release with less charge than this fires nothing. */
  const MinCharge: real := 0.1

  /** `aimNonZero` says whether the stored aim direction is non-zero; the two
      display flags are the aim line's `enabled` and the charge circle's
      `activeSelf`. */
  datatype State = State(
    isCharging: bool,
    chargeTime: real,
    aimNonZero: bool,
    aimLineShown: bool,
    chargeCircleShown: bool)

  /** The aim input of one frame: mouse aiming always replaces the direction
      (zero when the cursor sits on the player); keyboard aiming only replaces
      it when an axis is pressed. */
  datatype Aim = MouseAim(nonZero: bool) | KeyAim(nonZero: bool)

  /** The input of one frame: Fire1 down/held/up, the frame's delta time, and the aim. */
  datatype Input = Input(pressed: bool, held: bool, released: bool, dt: real, aim: Aim)

  /** The parameters of one shotgun blast. */
  datatype Shot = Shot(fraction: real, bulletCount: int, recoil: real, spread: real, speed: real)

  /** An impulse against the aim direction, or a volley of bullets with their
      angular offsets from the aim direction, in degrees. */
  datatype Effect = Impulse(magnitude: real) | Volley(shot: Shot, offsets: seq<real>)

  datatype Step = Step(state: State, effects: seq<Effect>)

  /** The state every reachable configuration keeps: an idle weapon holds no
      charge, and a charge that could fire never exceeds maxChargeTime. */
  predicate Inv(c: Config, s: State) {
    && (!s.isCharging ==> s.chargeTime == 0.0)
    && (s.chargeTime < MinCharge || s.chargeTime <= c.maxChargeTime)
  }

  /** The state at Start: idle, no charge, zero aim, nothing shown. */
  function Init(): (s: State)
    ensures !s.isCharging && s.chargeTime == 0.0 && !s.aimNonZero
  {
    State(false, 0.0, false, false, false)
  }

  lemma InitInv(c: Config)
    ensures Inv(c, Init())
  {
  }

  /** The shot parameters for charge fraction m: bullet count, spread and
      speed are Mathf.Lerp between the base and charged settings (the count
      rounded), and recoil grows linearly by chargedRecoilMultiplier. */
  function ShotFor(c: Config, m: real): (shot: Shot)
    ensures shot.fraction == m
    ensures c.bulletsPerShot <= c.chargedBulletsPerShot ==>
              c.bulletsPerShot <= shot.bulletCount <= c.chargedBulletsPerShot
    ensures c.spreadAngle <= c.chargedSpreadAngle ==>
              c.spreadAngle <= shot.spread <= c.chargedSpreadAngle
    ensures c.bulletSpeed <= c.chargedBulletSpeed ==>
              c.bulletSpeed <= shot.speed <= c.chargedBulletSpeed
  {
    var count := RoundToInt(Lerp(c.bulletsPerShot as real, c.chargedBulletsPerShot as real, m));
    RoundedLerpBetween(c.bulletsPerShot, c.chargedBulletsPerShot, m);
    Shot(
      m,
      count,
      c.recoilForce + c.chargedRecoilMultiplier * c.recoilForce * m,
      Lerp(c.spreadAngle, c.chargedSpreadAngle, m),
      Lerp(c.bulletSpeed, c.chargedBulletSpeed, m))
  }

  /** A rounded interpolation between two integers stays between them. */
  lemma RoundedLerpBetween(a: int, b: int, m: real)
    ensures a <= b ==> a <= RoundToInt(Lerp(a as real, b as real, m)) <= b
  {
    if a <= b {
      var x := Lerp(a as real, b as real, m);
      RoundToIntOfInt(a);
      RoundToIntOfInt(b);
      RoundToIntMonotone(a as real, x);
      RoundToIntMonotone(x, b as real);
    }
  }



  /** The angular offset of bullet i out of n: Mathf.Lerp from -spread/2 to
      +spread/2 at i/(n-1), or 0 for a lone bullet. */
  function Offset(i: nat, n: int, spread: real): real {
    if n > 1 then Lerp(-spread / 2.0, spread / 2.0, i as real / (n - 1) as real) else 0.0
  }

  /** The offsets of all bullets of a volley of n (none when n <= 0): a lone
      bullet flies straight; several fan out from exactly -spread/2 to
      +spread/2 in equal steps of spread/(n-1), in ascending order when the
      spread is non-negative. */
  function SpreadOffsets(n: int, spread: real): (offsets: seq<real>)
    ensures |offsets| == if n > 0 then n else 0
    ensures forall i :: 0 <= i < |offsets| ==> offsets[i] == Offset(i, n, spread)
    ensures n == 1 ==> offsets == [0.0]
    ensures n > 1 ==> offsets[0] == -spread / 2.0 && offsets[n - 1] == spread / 2.0
    ensures n > 1 ==> forall i :: 0 <= i < n - 1 ==> offsets[i + 1] - offsets[i] == spread / (n - 1) as real
    ensures spread >= 0.0 ==> forall i, j :: 0 <= i <= j < |offsets| ==> offsets[i] <= offsets[j]
  {
    var offsets := seq(if n > 0 then n else 0, i requires 0 <= i => Offset(i, n, spread));
    assert n > 1 ==> forall i :: 0 <= i < n - 1 ==> offsets[i + 1] - offsets[i] == spread / (n - 1) as real by {
      if n > 1 {
        forall i | 0 <= i < n - 1
          ensures offsets[i + 1] - offsets[i] == spread / (n - 1) as real
        {
          OffsetStep(i, n, spread);
        }
      }
    }
    assert spread >= 0.0 ==> forall i, j :: 0 <= i <= j < |offsets| ==> offsets[i] <= offsets[j] by {
      if spread >= 0.0 {
        forall i, j | 0 <= i <= j < |offsets|
          ensures offsets[i] <= offsets[j]
        {
          OffsetMonotone(i, j, n, spread);
        }
      }
    }
    OffsetEnds(n, spread);
    offsets
  }

  /** FireChargedShotgun: nothing without an aim direction; otherwise one
      recoil impulse and one volley for the fraction chargeTime/maxChargeTime. */
  function Fire(c: Config, s: State): (effects: seq<Effect>)
    requires MinCharge <= s.chargeTime <= c.maxChargeTime
    ensures !s.aimNonZero ==> effects == []
    ensures s.aimNonZero ==>
              && |effects| == 2 && effects[1].Volley?
              && effects[0] == Impulse(effects[1].shot.recoil)
              && effects[1].shot == ShotFor(c, s.chargeTime / c.maxChargeTime)
              && 0.0 < effects[1].shot.fraction <= 1.0
              && effects[1].offsets == SpreadOffsets(effects[1].shot.bulletCount, effects[1].shot.spread)
  {
    if !s.aimNonZero then []
    else
      var m := s.chargeTime / c.maxChargeTime;
      assert m <= 1.0;
      var shot := ShotFor(c, m);
      [Impulse(shot.recoil), Volley(shot, SpreadOffsets(shot.bulletCount, shot.spread))]
  }

  /** StartCharging: charging from zero, aim line shown, and a half-strength
      recoil impulse when the aim direction is non-zero. */
  function StartCharging(c: Config, s: State): (r: Step)
    ensures r.state.isCharging && r.state.chargeTime == 0.0 && r.state.aimLineShown
    ensures Inv(c, r.state)
    ensures s.aimNonZero ==> r.effects == [Impulse(0.5 * c.recoilForce)]
    ensures !s.aimNonZero ==> r.effects == []
  {
    Step(s.(isCharging := true, chargeTime := 0.0, aimLineShown := true),
         if s.aimNonZero then [Impulse(c.recoilForce * 0.5)] else [])
  }

  /** ContinueCharging: the frame's time is added, clamped to [0, maxChargeTime]. */
  function ContinueCharging(c: Config, s: State, dt: real): (r: State)
    requires Inv(c, s) && s.isCharging
    ensures Inv(c, r) && r.isCharging
    ensures c.maxChargeTime >= 0.0 ==> 0.0 <= r.chargeTime <= c.maxChargeTime
    ensures 0.0 <= s.chargeTime + dt <= c.maxChargeTime ==> r.chargeTime == s.chargeTime + dt
  {
    s.(chargeTime := ClampReal(s.chargeTime + dt, 0.0, c.maxChargeTime))
  }

  /** ReleaseShotgun: always back to idle with no charge and nothing shown;
      fires only with at least MinCharge. */
  function Release(c: Config, s: State): (r: Step)
    requires Inv(c, s)
    ensures !r.state.isCharging && r.state.chargeTime == 0.0
    ensures !r.state.aimLineShown && !r.state.chargeCircleShown
    ensures r.state.aimNonZero == s.aimNonZero
    ensures s.chargeTime < MinCharge || !s.aimNonZero ==> r.effects == []
    ensures s.chargeTime >= MinCharge ==> r.effects == Fire(c, s)
  {
    var idle := s.(isCharging := false, aimLineShown := false, chargeCircleShown := false, chargeTime := 0.0);
    Step(idle, if s.chargeTime >= MinCharge then Fire(c, s) else [])
  }

  /** HandleInput: press starts charging, holding while charging accumulates,
      release while charging shoots; all three may happen in one frame. */
  function HandleInput(c: Config, s: State, input: Input): (r: Step)
    requires Inv(c, s)
    ensures Inv(c, r.state)
    ensures r.state.aimNonZero == s.aimNonZero
    ensures !input.pressed && !s.isCharging ==> r == Step(s, [])
    ensures input.released && (input.pressed || s.isCharging) ==>
              !r.state.isCharging && r.state.chargeTime == 0.0
    ensures !input.released && (input.pressed || s.isCharging) ==> r.state.isCharging
    ensures input.pressed && s.aimNonZero ==>
              |r.effects| >= 1 && r.effects[0] == Impulse(0.5 * c.recoilForce)
    ensures !s.aimNonZero ==> r.effects == []
  {
    var p := if input.pressed then StartCharging(c, s) else Step(s, []);
    var h := if input.held && p.state.isCharging then ContinueCharging(c, p.state, input.dt) else p.state;
    if input.released && h.isCharging then
      var rel := Release(c, h);
      Step(rel.state, p.effects + rel.effects)
    else
      Step(h, p.effects)
  }

  /** HandleAiming, reduced to whether the stored aim direction is non-zero. */
  function HandleAiming(s: State, aim: Aim): (r: State)
    ensures r == s.(aimNonZero := r.aimNonZero)
    ensures aim.MouseAim? || aim.nonZero ==> r.aimNonZero == aim.nonZero
    ensures aim.KeyAim? && !aim.nonZero ==> r.aimNonZero == s.aimNonZero
  {
    match aim
    case MouseAim(nonZero) => s.(aimNonZero := nonZero)
    case KeyAim(nonZero) => if nonZero then s.(aimNonZero := true) else s
  }

  /** Update: once the game is over only the aim line and charge circle are
      hidden; otherwise input is handled before aiming, so a shot uses the
      previous frame's aim, and the charge circle is shown while charging. */
  function Tick(c: Config, s: State, gameOver: bool, input: Input): (r: Step)
    requires Inv(c, s)
    ensures Inv(c, r.state)
    ensures gameOver ==>
              r.state == s.(aimLineShown := false, chargeCircleShown := false) && r.effects == []
    ensures c.maxChargeTime >= 0.0 && 0.0 <= s.chargeTime <= c.maxChargeTime ==>
              0.0 <= r.state.chargeTime <= c.maxChargeTime
    ensures !gameOver && !input.pressed && !s.isCharging ==>
              r.effects == [] && !r.state.isCharging && r.state.chargeTime == 0.0
    ensures !s.aimNonZero ==> r.effects == []
    ensures !gameOver && (input.aim.MouseAim? || input.aim.nonZero) ==>
              r.state.aimNonZero == input.aim.nonZero
  {
    if gameOver then
      Step(s.(aimLineShown := false, chargeCircleShown := false), [])
    else
      var h := HandleInput(c, s, input);
      var a := HandleAiming(h.state, input.aim);
      Step(a.(chargeCircleShown := a.chargeCircleShown || a.isCharging), h.effects)
  }

  /** Fraction 0 gives exactly the base settings. */
  lemma ShotAtNoCharge(c: Config)
    ensures var shot := ShotFor(c, 0.0);
            && shot.bulletCount == c.bulletsPerShot
            && shot.spread == c.spreadAngle
            && shot.speed == c.bulletSpeed
            && shot.recoil == c.recoilForce
  {
    RoundToIntOfInt(c.bulletsPerShot);
  }

  /** Fraction 1 gives exactly the charged settings, with recoil multiplied
      by 1 + chargedRecoilMultiplier. */
  lemma ShotAtFullCharge(c: Config)
    ensures var shot := ShotFor(c, 1.0);
            && shot.bulletCount == c.chargedBulletsPerShot
            && shot.spread == c.chargedSpreadAngle
            && shot.speed == c.chargedBulletSpeed
            && shot.recoil == c.recoilForce * (1.0 + c.chargedRecoilMultiplier)
  {
    RoundToIntOfInt(c.chargedBulletsPerShot);
  }

  /** More charge never gives fewer bullets, when the charged count is at
      least the base one. */
  lemma CountMonotone(c: Config, m1: real, m2: real)
    requires m1 <= m2 && c.bulletsPerShot <= c.chargedBulletsPerShot
    ensures ShotFor(c, m1).bulletCount <= ShotFor(c, m2).bulletCount
  {
    var lo, hi := c.bulletsPerShot as real, c.chargedBulletsPerShot as real;
    LerpMonotone(lo, hi, m1, m2);
    RoundToIntMonotone(Lerp(lo, hi, m1), Lerp(lo, hi, m2));
  }

  /** More charge never gives less spread or less speed, when the charged
      settings are at least the base ones. */
  lemma SpreadSpeedMonotone(c: Config, m1: real, m2: real)
    requires m1 <= m2
    requires c.spreadAngle <= c.chargedSpreadAngle && c.bulletSpeed <= c.chargedBulletSpeed
    ensures ShotFor(c, m1).spread <= ShotFor(c, m2).spread
    ensures ShotFor(c, m1).speed <= ShotFor(c, m2).speed
  {
    LerpMonotone(c.spreadAngle, c.chargedSpreadAngle, m1, m2);
    LerpMonotone(c.bulletSpeed, c.chargedBulletSpeed, m1, m2);
  }

  /** More charge never gives less recoil, for a non-negative force and multiplier. */
  lemma RecoilMonotone(c: Config, m1: real, m2: real)
    requires m1 <= m2 && c.recoilForce >= 0.0 && c.chargedRecoilMultiplier >= 0.0
    ensures ShotFor(c, m1).recoil <= ShotFor(c, m2).recoil
  {
    var k := c.chargedRecoilMultiplier * c.recoilForce;
    MulNonNeg(c.chargedRecoilMultiplier, c.recoilForce);
    MulNonNeg(k, m2 - m1);
    assert k * m2 - k * m1 == k * (m2 - m1);
  }

  /** Recoil is never below recoilForce for a non-negative fraction. */
  lemma RecoilAtLeastBase(c: Config, m: real)
    requires m >= 0.0 && c.recoilForce >= 0.0 && c.chargedRecoilMultiplier >= 0.0
    ensures ShotFor(c, m).recoil >= c.recoilForce
  {
    MulNonNeg(c.chargedRecoilMultiplier, c.recoilForce);
    MulNonNeg(c.chargedRecoilMultiplier * c.recoilForce, m);
  }

  /** The first bullet of a fan sits at -spread/2 and the last at +spread/2. */
  lemma OffsetEnds(n: int, spread: real)
    ensures n > 1 ==> Offset(0, n, spread) == -spread / 2.0 && Offset(n - 1, n, spread) == spread / 2.0
  {
    if n > 1 {
      DivSelf((n - 1) as real);
    }
  }

  /** Consecutive offsets differ by spread/(n-1). */
  lemma OffsetStep(i: nat, n: int, spread: real)
    requires n > 1 && i < n - 1
    ensures Offset(i + 1, n, spread) - Offset(i, n, spread) == spread / (n - 1) as real
  {
    var d := (n - 1) as real;
    var t0, t1 := i as real / d, (i + 1) as real / d;
    assert 0.0 <= t0 <= 1.0 && 0.0 <= t1 <= 1.0 by {
      DivMonotone(0.0, i as real, d);
      DivMonotone((i + 1) as real, d, d);
      DivMonotone(i as real, (i + 1) as real, d);
      DivSelf(d);
    }
    assert t1 - t0 == 1.0 / d;
    var a, b := -spread / 2.0, spread / 2.0;
    assert Lerp(a, b, t0) == a + (b - a) * t0;
    assert Lerp(a, b, t1) == a + (b - a) * t1;
    assert (b - a) * t1 - (b - a) * t0 == (b - a) * (t1 - t0);
    assert (b - a) * (1.0 / d) == spread / d;
  }

  /** With a non-negative spread a later bullet never has a smaller offset. */
  lemma OffsetMonotone(i: nat, j: nat, n: int, spread: real)
    requires spread >= 0.0 && i <= j
    ensures Offset(i, n, spread) <= Offset(j, n, spread)
  {
    if n > 1 {
      var d := (n - 1) as real;
      DivMonotone(i as real, j as real, d);
      LerpMonotone(-spread / 2.0, spread / 2.0, i as real / d, j as real / d);
    }
  }

  /** Sum of a sequence of frame times. */
  function Sum(dts: seq<real>): real
    decreases |dts|
  {
    if dts == [] then 0.0 else dts[0] + Sum(dts[1..])
  }

  /** Holding the button through frames of the given lengths. */
  function Hold(c: Config, s: State, dts: seq<real>): (r: State)
    requires Inv(c, s) && s.isCharging
    ensures Inv(c, r) && r.isCharging
    decreases |dts|
  {
    if dts == [] then s else Hold(c, ContinueCharging(c, s, dts[0]), dts[1..])
  }

  /** Holding from a charge of 0 accumulates the frame times, capped once at
      maxChargeTime: clamping each frame is the same as clamping the total. */
  lemma {:induction false} HoldAccumulates(c: Config, s: State, dts: seq<real>)
    requires Inv(c, s) && s.isCharging
    requires c.maxChargeTime >= 0.0 && 0.0 <= s.chargeTime <= c.maxChargeTime
    requires forall i :: 0 <= i < |dts| ==> dts[i] >= 0.0
    ensures Hold(c, s, dts).chargeTime == ClampReal(s.chargeTime + Sum(dts), 0.0, c.maxChargeTime)
    decreases |dts|
  {
    if dts != [] {
      var next := ContinueCharging(c, s, dts[0]);
      HoldAccumulates(c, next, dts[1..]);
      assert Sum(dts) == dts[0] + Sum(dts[1..]);
      SumNonNeg(dts[1..]);
    }
  }

  lemma {:induction false} SumNonNeg(dts: seq<real>)
    requires forall i :: 0 <= i < |dts| ==> dts[i] >= 0.0
    ensures Sum(dts) >= 0.0
    decreases |dts|
  {
    if dts != [] {
      SumNonNeg(dts[1..]);
    }
  }
}
