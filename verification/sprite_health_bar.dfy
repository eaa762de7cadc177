/** The sprite health bar (SpriteHealthBar.cs): the player's health picks one
    sprite of a row by rounding the health fraction onto the sprite indices;
    the bar can show "current/max" and can hide itself at full health. */
module SpriteHealthBar {
  import opened Mathf
  import opened Engine

  /** Inspector settings: the sprite slots (a sprite is identified by a
      number; None is an unassigned slot), whether the numbers are shown and
      a text component exists, and whether the bar hides at full health. */
  datatype Config = Config(
    sprites: seq<Option<nat>>,
    showHealthNumbers: bool,
    hasText: bool,
    hideAtFullHealth: bool)

  /** The text "current/max". */
  datatype Label = Label(current: int, max: int)

  /** What the bar holds and shows: the stored health pair, the sprite on its
      image, whether its object is active, and its text. */
  datatype View = View(currentHealth: int, maxHealth: int, image: Option<nat>, active: bool, text: Option<Label>)

  /** CalculateSpriteIndex: 0 for a non-positive maximum; otherwise the health
      fraction scaled to count - 1, rounded half to even, and clamped to
      [0, count - 1]. With no sprites at all that clamp range is empty and
      the result is 0 or -1. */
  function CalculateSpriteIndex(health: int, max: int, count: nat): (i: int)
    ensures max <= 0 ==> i == 0
    ensures count >= 1 ==> 0 <= i < count
    ensures count == 0 ==> i == 0 || i == -1
  {
    if max <= 0 then 0
    else
      Clamp(RoundToInt(Scaled(health, max, count)), 0, count - 1)
  }

  /** The health fraction scaled onto the sprite indices, before rounding. */
  function Scaled(health: int, max: int, count: nat): real
    requires max > 0
  {
    health as real / max as real * (count - 1) as real
  }

  /** For a fixed maximum, the scaled fraction rises with health when there
      are sprites, and falls with it when there are none. */
  lemma ScaledMonotone(h1: int, h2: int, max: int, count: nat)
    requires h1 <= h2 && max > 0
    ensures count >= 1 ==> Scaled(h1, max, count) <= Scaled(h2, max, count)
    ensures count == 0 ==> Scaled(h2, max, count) <= Scaled(h1, max, count)
  {
    var f1, f2 := h1 as real / max as real, h2 as real / max as real;
    var k := (count - 1) as real;
    DivMonotone(h1 as real, h2 as real, max as real);
    MulNonNeg(f2 - f1, if count >= 1 then k else -k);
    assert f2 * k - f1 * k == (f2 - f1) * k;
  }

  /** The sprite slot CalculateSpriteIndex picks, when it is a real, assigned slot. */
  function Picked(c: Config, health: int, max: int): Option<nat> {
    var i := CalculateSpriteIndex(health, max, |c.sprites|);
    if 0 <= i < |c.sprites| then c.sprites[i] else None
  }

  /** UpdateHealth: stores health clamped to [0, max] and max itself; shows
      the sprite at the computed index when that slot exists and is assigned
      (and keeps the old one otherwise); rewrites the text when enabled; and,
      when hideAtFullHealth is set, is active exactly below full health. */
  function UpdateHealth(c: Config, v: View, health: int, max: int): (r: View)
    ensures r.maxHealth == max
    ensures max >= 0 ==> 0 <= r.currentHealth <= max
    ensures 0 <= health <= max ==> r.currentHealth == health
    ensures max >= 0 && health > max ==> r.currentHealth == max
    ensures health < 0 ==> r.currentHealth == 0
    ensures Picked(c, r.currentHealth, max).Some? ==> r.image == Picked(c, r.currentHealth, max)
    ensures Picked(c, r.currentHealth, max).None? ==> r.image == v.image
    ensures c.hideAtFullHealth ==> (r.active <==> r.currentHealth < max)
    ensures !c.hideAtFullHealth ==> r.active == v.active
    ensures c.showHealthNumbers && c.hasText ==> r.text == Some(Label(r.currentHealth, max))
    ensures !(c.showHealthNumbers && c.hasText) ==> r.text == v.text
  {
    var current := Clamp(health, 0, max);
    var picked := Picked(c, current, max);
    View(current,
         max,
         if picked.Some? then picked else v.image,
         if c.hideAtFullHealth then current < max else v.active,
         if c.showHealthNumbers && c.hasText then Some(Label(current, max)) else v.text)
  }

  /** SetHealth: UpdateHealth against the stored maximum. */
  function SetHealth(c: Config, v: View, health: int): (r: View)
    ensures r.maxHealth == v.maxHealth
    ensures 0 <= health <= v.maxHealth ==> r.currentHealth == health
  {
    UpdateHealth(c, v, health, v.maxHealth)
  }

  /** Repeating an update changes nothing further. */
  lemma UpdateHealthIdempotent(c: Config, v: View, health: int, max: int)
    ensures var once := UpdateHealth(c, v, health, max);
            UpdateHealth(c, once, health, max) == once
  {
  }

  /** More health never selects an earlier sprite. */
  lemma IndexMonotone(h1: int, h2: int, max: int, count: nat)
    requires h1 <= h2
    ensures CalculateSpriteIndex(h1, max, count) <= CalculateSpriteIndex(h2, max, count)
  {
    if max > 0 {
      ScaledMonotone(h1, h2, max, count);
      if count >= 1 {
        RoundToIntMonotone(Scaled(h1, max, count), Scaled(h2, max, count));
      } else {
        // With no sprites the scaled fraction falls as health rises, and the
        // empty clamp range turns that fall into a rise from -1 to 0.
        RoundToIntMonotone(Scaled(h2, max, count), Scaled(h1, max, count));
      }
    }
  }

  /** With a positive maximum and some sprites, full health (or more) shows the last one. */
  lemma FullHealthShowsLast(health: int, max: int, count: nat)
    requires max > 0 && count >= 1 && health >= max
    ensures CalculateSpriteIndex(health, max, count) == count - 1
  {
    var f := health as real / max as real;
    var k := (count - 1) as real;
    DivMonotone(max as real, health as real, max as real);
    DivSelf(max as real);
    MulMonotone(k, 1.0, f);
    assert k <= f * k;
    RoundToIntOfInt(count - 1);
    RoundToIntMonotone(k, f * k);
  }

  /** With a positive maximum and some sprites, no health (or less) shows the first one. */
  lemma NoHealthShowsFirst(health: int, max: int, count: nat)
    requires max > 0 && count >= 1 && health <= 0
    ensures CalculateSpriteIndex(health, max, count) == 0
  {
    var f := health as real / max as real;
    var k := (count - 1) as real;
    DivMonotone(health as real, 0.0, max as real);
    MulMonotone(k, f, 0.0);
    assert f * k <= 0.0;
    RoundToIntOfInt(0);
    RoundToIntMonotone(f * k, 0.0);
  }

  /** One sprite per health point (count = max + 1): the index is the health. */
  lemma OneSpritePerPoint(health: int, max: int)
    requires max > 0 && 0 <= health <= max
    ensures CalculateSpriteIndex(health, max, max + 1) == health
  {
    DivMulCancel(health as real, max as real);
    RoundToIntOfInt(health);
  }

  /** Every slot of the row is assigned. */
  predicate AllAssigned(c: Config) {
    forall i :: 0 <= i < |c.sprites| ==> c.sprites[i].Some?
  }

  /** With the six assigned sprites the bar is designed for and a maximum of
      5, health h in [0, 5] shows sprite h. */
  lemma SixSpritesShowHealth(c: Config, v: View, health: int)
    requires |c.sprites| == 6 && AllAssigned(c) && 0 <= health <= 5
    ensures UpdateHealth(c, v, health, 5).image == c.sprites[health]
  {
    OneSpritePerPoint(health, 5);
  }

  /** The views after UpdateHealth(i, max) for i = from, from - 1, ..., 0. */
  function CountDown(c: Config, v: View, from: int, max: int): (views: seq<View>)
    ensures |views| == if from >= 0 then from + 1 else 0
    decreases from + 1
  {
    if from < 0 then []
    else
      var next := UpdateHealth(c, v, from, max);
      [next] + CountDown(c, next, from - 1, max)
  }

  /** TestHealthSequence: counts health down from 5 to 0 against a maximum
      of 5, then resets to full; the views after each update. */
  function TestHealthSequence(c: Config, v: View): (views: seq<View>)
    ensures |views| == 7
  {
    var down := CountDown(c, v, 5, 5);
    down + [UpdateHealth(c, down[5], 5, 5)]
  }

  /** Counting down from `from`, the k-th update shows health from - k. */
  lemma {:induction false} CountDownShows(c: Config, v: View, from: int, max: int, k: nat)
    requires from <= max && k <= from
    ensures CountDown(c, v, from, max)[k].currentHealth == from - k
    decreases from + 1
  {
    var next := UpdateHealth(c, v, from, max);
    if k > 0 {
      CountDownShows(c, next, from - 1, max, k - 1);
      assert CountDown(c, v, from, max)[k] == CountDown(c, next, from - 1, max)[k - 1];
    }
  }

  /** With six assigned sprites the test sequence shows sprites 5, 4, ..., 0
      and then 5 again. */
  lemma TestSequenceShowsEveryLevel(c: Config, v: View)
    requires |c.sprites| == 6 && AllAssigned(c)
    ensures var views := TestHealthSequence(c, v);
            (forall k :: 0 <= k < 6 ==> views[k].image == c.sprites[5 - k])
            && views[6].image == c.sprites[5]
  {
    var views := TestHealthSequence(c, v);
    var down := CountDown(c, v, 5, 5);
    forall k | 0 <= k < 6
      ensures views[k].image == c.sprites[5 - k]
    {
      CountDownShows(c, v, 5, 5, k);
      OneSpritePerPoint(5 - k, 5);
      if k == 0 {
        assert down[0] == UpdateHealth(c, v, 5, 5);
      } else {
        assert down[k] == UpdateHealth(c, down[k - 1], 5 - k, 5) by {
          CountDownStep(c, v, 5, 5, k);
        }
      }
    }
    OneSpritePerPoint(5, 5);
  }

  /** Each view of a count-down is an update of the one before it. */
  lemma {:induction false} CountDownStep(c: Config, v: View, from: int, max: int, k: nat)
    requires 0 < k <= from
    ensures CountDown(c, v, from, max)[k]
            == UpdateHealth(c, CountDown(c, v, from, max)[k - 1], from - k, max)
    decreases from + 1
  {
    var next := UpdateHealth(c, v, from, max);
    if k > 1 {
      CountDownStep(c, next, from - 1, max, k - 1);
    }
  }
}
