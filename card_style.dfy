/**
 * The render parameters the carousel gives each card on every frame. Every
 * one is a function of the card's signed circular distance `diff` from the
 * focus and nothing else.
 */
module CardStyle {
  import opened JsNumber
  import opened CarouselGeometry

  /** What one frame sets on one card (its transform) and on its inner image (`panX`). */
  datatype CardParams = CardParams(
    diff: real,
    z: real,
    xPercent: real,
    rotateY: real,
    scale: real,
    opacity: real,
    zIndex: int,
    panX: real)

  /** Depth: the card is pushed back 400 units per card of distance. */
  function Depth(diff: real): (z: real)
    ensures z <= 0.0
    ensures z == 0.0 <==> diff == 0.0
  {
    -Abs(diff) * 400.0
  }

  /**
   * Horizontal placement in percent of the card's width: centred at -50, and
   * 75 per card of distance to the right for positive `diff`.
   */
  function XPercent(diff: real): (x: real)
    ensures x > -50.0 <==> diff > 0.0
    ensures x < -50.0 <==> diff < 0.0
  {
    -50.0 + (diff * 50.0) * 1.5
  }

  /**
   * Turn about the vertical axis: -45 degrees per card of distance, clamped to
   * 60 degrees either way; cards to the right turn negatively.
   */
  function RotateY(diff: real): (r: real)
    ensures -60.0 <= r <= 60.0
    ensures diff >= 0.0 ==> r <= 0.0
    ensures diff <= 0.0 ==> r >= 0.0
    ensures Abs(diff) <= 4.0 / 3.0 ==> r == -45.0 * diff
    ensures Abs(diff) >= 4.0 / 3.0 ==> Abs(r) == 60.0
  {
    var r0 := diff * -45.0;
    var r1 := if r0 > 60.0 then 60.0 else r0;
    if r1 < -60.0 then -60.0 else r1
  }

  /** Scale: shrinks by a tenth per card of distance down to a floor of 0.6. */
  function Scale(diff: real): (s: real)
    ensures 0.6 <= s <= 1.0
    ensures s == 1.0 <==> diff == 0.0
    ensures Abs(diff) >= 4.0 ==> s == 0.6
    ensures Abs(diff) <= 4.0 ==> s == 1.0 - 0.1 * Abs(diff)
  {
    1.0 - Min(Abs(diff) * 0.1, 0.4)
  }

  /** Opacity: fades by 0.3 per card of distance down to a floor of 0.4. */
  function Opacity(diff: real): (o: real)
    ensures 0.4 <= o <= 1.0
    ensures o == 1.0 <==> diff == 0.0
    ensures Abs(diff) >= 2.0 ==> o == 0.4
    ensures Abs(diff) <= 2.0 ==> o == 1.0 - 0.3 * Abs(diff)
  {
    1.0 - Min(Abs(diff) * 0.3, 0.6)
  }

  /**
   * Stacking order: 100 for the centred card, one less per tenth of a card of
   * distance, rounded the way `Math.round` does.
   */
  function ZIndex(diff: real): (z: int)
    ensures z <= 100
    ensures z == 100 <==> Abs(diff) < 0.05
    ensures 100.0 - 10.0 * Abs(diff) - 0.5 <= z as real < 100.0 - 10.0 * Abs(diff) + 0.5
  {
    100 - Round(Abs(diff) * 10.0)
  }

  /**
   * Pan of the card's inner image in percent: 15 per card of distance,
   * clamped to 20 either way, against the direction of `diff`.
   */
  function PanX(diff: real): (p: real)
    ensures -20.0 <= p <= 20.0
    ensures diff > 0.0 ==> p < 0.0
    ensures diff < 0.0 ==> p > 0.0
    ensures diff == 0.0 ==> p == 0.0
    ensures Abs(diff) <= 4.0 / 3.0 ==> p == -15.0 * diff
  {
    -Max(Min(diff * 15.0, 20.0), -20.0)
  }

  /**
   * All parameters of one card at distance `diff`: each within its range,
   * and the flat, frontmost, full-size record for the centred card.
   */
  function ParamsAt(diff: real): (c: CardParams)
    ensures c.diff == diff
    ensures c.z <= 0.0
    ensures -60.0 <= c.rotateY <= 60.0
    ensures 0.6 <= c.scale <= 1.0
    ensures 0.4 <= c.opacity <= 1.0
    ensures c.zIndex <= 100
    ensures -20.0 <= c.panX <= 20.0
    ensures diff == 0.0 ==> c == CardParams(0.0, 0.0, -50.0, 0.0, 1.0, 1.0, 100, 0.0)
  {
    CardParams(diff, Depth(diff), XPercent(diff), RotateY(diff), Scale(diff),
               Opacity(diff), ZIndex(diff), PanX(diff))
  }

  /** The centred card is flat, frontmost, full size and fully opaque. */
  lemma CentredCard()
    ensures ParamsAt(0.0) == CardParams(0.0, 0.0, -50.0, 0.0, 1.0, 1.0, 100, 0.0)
  {
  }

  /**
   * Falloff: a card further from the focus (either side) is never larger,
   * more opaque, nearer or stacked higher than a closer one.
   */
  lemma FalloffMonotone(near: real, far: real)
    requires Abs(near) <= Abs(far)
    ensures Scale(far) <= Scale(near)
    ensures Opacity(far) <= Opacity(near)
    ensures Depth(far) <= Depth(near)
    ensures ZIndex(far) <= ZIndex(near)
  {
    RoundMonotone(Abs(near) * 10.0, Abs(far) * 10.0);
  }

  /**
   * Cards at the same distance on either side look alike except for mirrored
   * rotation, placement and pan.
   */
  lemma MirrorSymmetric(diff: real)
    ensures Scale(-diff) == Scale(diff) && Opacity(-diff) == Opacity(diff)
    ensures Depth(-diff) == Depth(diff) && ZIndex(-diff) == ZIndex(diff)
    ensures RotateY(-diff) == -RotateY(diff) && PanX(-diff) == -PanX(diff)
    ensures XPercent(-diff) + 50.0 == -(XPercent(diff) + 50.0)
  {
  }

  /**
   * The stacking order is only non-strict: two cards at different distances
   * can share a z-index, for example the centred card and one a twentieth of
   * a card away.
   */
  lemma ZIndexCanTie()
    ensures Abs(0.0) < Abs(0.04) && ZIndex(0.0) == ZIndex(0.04)
  {
  }

  /** The parameters of card `i` when the carousel's focus is `progress`. */
  function CardAt(progress: real, count: nat, i: nat): (c: CardParams)
    requires count >= 1 && i < count
    ensures c.diff == DiffFromFocus(progress, count, i)
    ensures c == ParamsAt(c.diff)
    ensures Abs(c.diff) <= count as real / 2.0
  {
    ParamsAt(CircularDiff(FloorMod(progress, count as real), count, i))
  }

  /** Turning the focus by whole turns gives every card the same parameters. */
  lemma {:induction false} CardAtPeriodic(progress: real, count: nat, i: nat, k: int)
    requires count >= 1 && i < count
    ensures CardAt(progress + count as real * k as real, count, i) == CardAt(progress, count, i)
  {
    DiffFromFocusPeriodic(progress, count, i, k);
  }
}
