/**
 * The infinite 3D carousel: a floating focus `progress` over a ring of
 * category cards, moved by pointer drags, thrown on release to the nearest
 * whole card, and moved or used for selection when a card is tapped.
 *
 * The animation library's tweens on the focus are modelled by their end
 * points. Starting a tween does not stop one already running on the focus:
 * both run side by side, the one started later writing the focus last on
 * every frame. A pointer down stops every tween, and every gesture begins
 * with one, so at most one throw (started on release) and one navigation
 * (started by tapping an off-centre card) run at a time. `AnimationFrame`
 * moves the focus along the running tweens, and `CompleteThrow` and
 * `CompleteNavigation` run what happens when each ends.
 */
module CarouselEngine {
  import opened JsNumber
  import opened Types
  import opened CarouselGeometry
  import opened CardStyle

  /** Pixels of horizontal drag that move the focus by one card. */
  const PixelsPerCard: real := 300.0

  /** Converts the smoothed velocity (cards per millisecond) into a throw distance in cards. */
  const InertiaFactor: real := 300.0

  /** A tapped card closer than this to the focus counts as centred. */
  const CentredThreshold: real := 0.1

  /** A throw started on release; when it ends the focus is reduced and the index published. */
  datatype ThrowTween = ThrowTween(from: real, target: int)

  /** A navigation started by tapping an off-centre card; it has no completion step. */
  datatype NavTween = NavTween(from: real, destination: real)

  /** What tapping a card does. */
  datatype TapOutcome = SelectCard | ScrollTo(target: real)

  /**
   * The velocity estimate after a pointer move of `indexDelta` cards taken
   * `dt` milliseconds after the previous sample: it moves a fifth of the way
   * toward the new sample, and is left alone when no time has passed (or the
   * clock went backwards).
   */
  function SmoothedVelocity(velocity: real, indexDelta: real, dt: int): (v: real)
    ensures dt <= 0 ==> v == velocity
    ensures dt > 0 ==> v == velocity + 0.2 * (indexDelta / dt as real - velocity)
    ensures dt > 0 ==> Min(velocity, indexDelta / dt as real) <= v <= Max(velocity, indexDelta / dt as real)
  {
    if dt > 0 then
      var sample := indexDelta / dt as real;
      velocity * 0.8 + sample * 0.2
    else
      velocity
  }

  /**
   * Where a release sends the focus: the current focus pushed against the
   * velocity by `InertiaFactor`, rounded to the nearest whole card with halves
   * going up (`Math.round`).
   */
  function ThrowTarget(progress: real, velocity: real): (target: int)
    ensures var projected := progress - velocity * InertiaFactor;
      projected - 0.5 < target as real <= projected + 0.5
  {
    var projectedDelta := -velocity * InertiaFactor;
    Round(progress + projectedDelta)
  }

  /** Releasing a still carousel that rests on a whole card keeps it there. */
  lemma ThrowAtRest(k: int)
    ensures ThrowTarget(k as real, 0.0) == k
  {
    RoundOfInt(k);
  }

  /** A still release snaps to the nearest card, and a half goes up, not away from zero. */
  lemma ReleaseToNearest()
    ensures ThrowTarget(2.6, 0.0) == 3
    ensures ThrowTarget(2.4, 0.0) == 2
    ensures ThrowTarget(-2.5, 0.0) == -2
  {
  }

  /**
   * The throw follows the drag: a negative velocity (the focus was rising)
   * never lands below where a still release would, and a positive one never
   * above.
   */
  lemma ThrowFollowsDrag(progress: real, velocity: real)
    ensures velocity <= 0.0 ==> ThrowTarget(progress, velocity) >= ThrowTarget(progress, 0.0)
    ensures velocity >= 0.0 ==> ThrowTarget(progress, velocity) <= ThrowTarget(progress, 0.0)
  {
    var projected := progress - velocity * InertiaFactor;
    if velocity <= 0.0 {
      assert progress <= projected;
      RoundMonotone(progress, projected);
    }
    if velocity >= 0.0 {
      assert projected <= progress;
      RoundMonotone(projected, progress);
    }
  }

  /**
   * The completion step of a throw: the target reduced onto the ring, and the
   * card index published for it (`Math.round` of the reduced value).
   */
  function SettleIndex(target: int, count: nat): (idx: int)
    requires count >= 1
    ensures 0 <= idx < count
    ensures idx as real == NormProgress(target as real, count)
    ensures idx == target % count
  {
    var norm := NormProgress(target as real, count);
    FocusOfInt(target, count);
    RoundOfInt(target % count);
    Round(norm)
  }

  /**
   * Tapping card `index`: select it when it is within `CentredThreshold` of
   * the focus, otherwise move the focus by the card's distance, which brings
   * exactly that card to the centre the short way round.
   */
  function TapDecision(progress: real, count: nat, index: nat): (o: TapOutcome)
    requires count >= 1 && index < count
    ensures o == SelectCard <==> Abs(DiffFromFocus(progress, count, index)) < CentredThreshold
    ensures o.ScrollTo? ==> o.target == progress + DiffFromFocus(progress, count, index)
    ensures o.ScrollTo? ==> FloorMod(o.target, count as real) == index as real
    ensures o.ScrollTo? ==> Abs(o.target - progress) <= count as real / 2.0
  {
    var normProgress := NormProgress(progress, count);
    var diff := CircularDiff(normProgress, count, index);
    DiffTargetLandsOnCard(progress, count, index);
    if Abs(diff) < CentredThreshold then SelectCard else ScrollTo(progress + diff)
  }

  /** With a single card, a tap selects exactly when the focus rests on a whole number. */
  lemma SingleCardTap(progress: real)
    ensures TapDecision(progress, 1, 0) == SelectCard
        <==> (FloorMod(progress, 1.0) < 0.1 || FloorMod(progress, 1.0) > 0.9)
  {
  }

  class Carousel {
    /** The cards, in ring order. */
    const categories: seq<Category>
    /** The number of cards. */
    const count: nat

    /** The index published when a throw settles. */
    var currentIndex: int
    /** The floating focus; not kept inside `[0, count)` while dragging or tweening. */
    var progress: real
    /** Where the current drag started (recorded, never read). */
    var startX: real
    var isDragging: bool
    /** Smoothed focus velocity, in cards per millisecond. */
    var velocity: real
    var lastX: real
    var lastTime: int
    /** The running throw, if any. */
    var throwing: Option<ThrowTween>
    /** The running navigation, if any. */
    var navigating: Option<NavTween>

    predicate Valid()
      reads this
    {
      count == |categories| && count >= 1 && 0 <= currentIndex < count
    }

    /** Mounting: the focus and every piece of gesture state start at zero. */
    constructor (categories: seq<Category>)
      requires |categories| >= 1
      ensures Valid() && this.categories == categories
      ensures progress == 0.0 && currentIndex == 0
      ensures !isDragging && velocity == 0.0
      ensures throwing == None && navigating == None
      ensures startX == 0.0 && lastX == 0.0 && lastTime == 0
    {
      this.categories := categories;
      count := |categories|;
      currentIndex := 0;
      progress := 0.0;
      startX := 0.0;
      isDragging := false;
      velocity := 0.0;
      lastX := 0.0;
      lastTime := 0;
      throwing := None;
      navigating := None;
    }

    /**
     * Pointer down at horizontal position `x` at time `now`: a drag begins,
     * velocity is reset and every running tween is stopped where it stands.
     */
    method PointerDown(x: real, now: int)
      requires Valid()
      modifies this
      ensures Valid()
      ensures isDragging && startX == x && lastX == x && lastTime == now
      ensures velocity == 0.0 && throwing == None && navigating == None
      ensures progress == old(progress) && currentIndex == old(currentIndex)
    {
      isDragging := true;
      startX := x;
      lastX := x;
      lastTime := now;
      velocity := 0.0;
      throwing := None;
      navigating := None;
    }

    /**
     * Pointer move to `x`. The clock is read twice: `now` for the elapsed time
     * and `later` for the stored timestamp. Outside a drag nothing happens;
     * during one the focus moves against the pointer by one card per
     * `PixelsPerCard` pixels.
     */
    method PointerMove(x: real, now: int, later: int)
      requires Valid()
      modifies this
      ensures Valid()
      ensures !old(isDragging) ==> unchanged(this)
      ensures old(isDragging) ==>
        && progress == old(progress) - (x - old(lastX)) / PixelsPerCard
        && velocity == SmoothedVelocity(old(velocity), (x - old(lastX)) / PixelsPerCard, now - old(lastTime))
        && lastX == x && lastTime == later
        && isDragging && startX == old(startX) && currentIndex == old(currentIndex)
        && throwing == old(throwing) && navigating == old(navigating)
    {
      if !isDragging {
        return;
      }
      var dx := x - lastX;
      var dt := now - lastTime;
      var indexDelta := dx / PixelsPerCard;
      progress := progress - indexDelta;
      if dt > 0 {
        var v := indexDelta / dt as real;
        velocity := velocity * 0.8 + v * 0.2;
      }
      lastX := x;
      lastTime := later;
    }

    /**
     * Pointer up: the drag ends and a throw starts from the current focus
     * toward `ThrowTarget`. The up listener exists only during a drag: the
     * pointer down that starts it adds the listener, and this first pointer
     * up removes it.
     */
    method PointerUp()
      requires Valid() && isDragging
      modifies this
      ensures Valid()
      ensures !isDragging
      ensures throwing == Some(ThrowTween(old(progress), ThrowTarget(old(progress), old(velocity))))
      ensures navigating == old(navigating)
      ensures progress == old(progress) && velocity == old(velocity) && currentIndex == old(currentIndex)
      ensures lastX == old(lastX) && lastTime == old(lastTime) && startX == old(startX)
    {
      isDragging := false;
      var projectedDelta := -velocity * InertiaFactor;
      var target := progress + projectedDelta;
      throwing := Some(ThrowTween(progress, Round(target)));
    }

    /**
     * One animation frame: each running tween writes the focus at its eased
     * fraction of the way from its start to its end (the easing curve is the
     * animation library's business), the throw first and the navigation,
     * started later, last, so a running navigation decides the focus.
     */
    method AnimationFrame(throwEased: real, navEased: real)
      requires Valid() && 0.0 <= throwEased <= 1.0 && 0.0 <= navEased <= 1.0
      modifies this
      ensures Valid()
      ensures throwing == old(throwing) && navigating == old(navigating)
      ensures currentIndex == old(currentIndex) && isDragging == old(isDragging)
      ensures velocity == old(velocity) && lastX == old(lastX) && lastTime == old(lastTime)
      ensures startX == old(startX)
      ensures throwing.None? && navigating.None? ==> progress == old(progress)
      ensures navigating.Some? ==>
        Min(navigating.value.from, navigating.value.destination) <= progress
        <= Max(navigating.value.from, navigating.value.destination)
      ensures navigating.Some? && navEased == 1.0 ==> progress == navigating.value.destination
      ensures navigating.None? && throwing.Some? ==>
        Min(throwing.value.from, throwing.value.target as real) <= progress
        <= Max(throwing.value.from, throwing.value.target as real)
      ensures navigating.None? && throwing.Some? && throwEased == 1.0 ==>
        progress == throwing.value.target as real
    {
      if throwing.Some? {
        progress := Between(throwing.value.from, throwing.value.target as real, throwEased);
      }
      if navigating.Some? {
        progress := Between(navigating.value.from, navigating.value.destination, navEased);
      }
    }

    /**
     * The throw reaches its end: its target is reduced onto the ring and the
     * card index published for it, which is then centred. Any navigation
     * still running is left alone.
     */
    method CompleteThrow()
      requires Valid()
      modifies this
      ensures Valid()
      ensures throwing == None && navigating == old(navigating)
      ensures isDragging == old(isDragging) && velocity == old(velocity)
      ensures lastX == old(lastX) && lastTime == old(lastTime) && startX == old(startX)
      ensures old(throwing).None? ==> progress == old(progress) && currentIndex == old(currentIndex)
      ensures old(throwing).Some? ==>
        && 0.0 <= progress < count as real
        && progress == currentIndex as real
        && progress == FloorMod(old(throwing).value.target as real, count as real)
        && currentIndex == old(throwing).value.target % count
        && DiffFromFocus(progress, count, currentIndex) == 0.0
    {
      if throwing.Some? {
        var target := throwing.value.target;
        var norm := NormProgress(target as real, count);
        progress := norm;
        currentIndex := SettleIndex(target, count);
        FocusOfCard(progress, count, currentIndex, 0);
      }
      throwing := None;
    }

    /**
     * The navigation reaches its end: the focus is left at its unreduced
     * destination and the published index as it was.
     */
    method CompleteNavigation()
      requires Valid()
      modifies this
      ensures Valid()
      ensures navigating == None && throwing == old(throwing)
      ensures currentIndex == old(currentIndex) && isDragging == old(isDragging) && velocity == old(velocity)
      ensures lastX == old(lastX) && lastTime == old(lastTime) && startX == old(startX)
      ensures old(navigating).None? ==> progress == old(progress)
      ensures old(navigating).Some? ==> progress == old(navigating).value.destination
    {
      if navigating.Some? {
        progress := navigating.value.destination;
      }
      navigating := None;
    }

    /**
     * Tapping card `index`: the card is selected when it is centred, and
     * otherwise a navigation toward it starts beside the running throw, if
     * any; nothing else changes.
     */
    method Tap(index: nat) returns (selected: Option<Category>)
      requires Valid() && index < count
      modifies this
      ensures Valid()
      ensures TapDecision(old(progress), count, index) == SelectCard ==>
        selected == Some(categories[index]) && navigating == old(navigating)
      ensures TapDecision(old(progress), count, index).ScrollTo? ==>
        selected == None
        && navigating == Some(NavTween(old(progress), TapDecision(old(progress), count, index).target))
      ensures throwing == old(throwing)
      ensures progress == old(progress) && currentIndex == old(currentIndex) && isDragging == old(isDragging)
      ensures velocity == old(velocity) && lastX == old(lastX) && lastTime == old(lastTime)
      ensures startX == old(startX)
    {
      var normProgress := NormProgress(progress, count);
      var diff := CircularDiff(normProgress, count, index);
      if Abs(diff) < CentredThreshold {
        selected := Some(categories[index]);
      } else {
        selected := None;
        var target := progress + diff;
        navigating := Some(NavTween(progress, target));
      }
    }

    /**
     * Tapping card `index` with the throw of the tap's own release stopped
     * before the navigation starts, so that nothing overrides the
     * navigation: after it ends the tapped card is centred.
     */
    method TapStoppingThrow(index: nat) returns (selected: Option<Category>)
      requires Valid() && index < count
      modifies this
      ensures Valid()
      ensures TapDecision(old(progress), count, index) == SelectCard ==>
        selected == Some(categories[index]) && navigating == old(navigating) && throwing == old(throwing)
      ensures TapDecision(old(progress), count, index).ScrollTo? ==>
        && selected == None && throwing == None
        && navigating == Some(NavTween(old(progress), TapDecision(old(progress), count, index).target))
        && FloorMod(navigating.value.destination, count as real) == index as real
      ensures progress == old(progress) && currentIndex == old(currentIndex) && isDragging == old(isDragging)
      ensures velocity == old(velocity) && lastX == old(lastX) && lastTime == old(lastTime)
      ensures startX == old(startX)
    {
      var normProgress := NormProgress(progress, count);
      var diff := CircularDiff(normProgress, count, index);
      if Abs(diff) < CentredThreshold {
        selected := Some(categories[index]);
      } else {
        selected := None;
        var target := progress + diff;
        throwing := None;
        navigating := Some(NavTween(progress, target));
      }
    }

    /**
     * One frame: the focus is reduced once and every card gets its
     * parameters from its distance to it.
     */
    method UpdateCards() returns (frame: seq<CardParams>)
      requires Valid()
      ensures |frame| == count
      ensures forall i :: 0 <= i < count ==> frame[i] == CardAt(progress, count, i)
    {
      var normProgress := NormProgress(progress, count);
      frame := [];
      var i := 0;
      while i < count
        invariant 0 <= i <= count
        invariant |frame| == i
        invariant forall j :: 0 <= j < i ==> frame[j] == CardAt(progress, count, j)
      {
        frame := frame + [ParamsAt(CircularDiff(normProgress, count, i))];
        i := i + 1;
      }
    }
  }

  /** The point the fraction `t` of the way from `a` to `b`. */
  function Between(a: real, b: real, t: real): (r: real)
    requires 0.0 <= t <= 1.0
    ensures Min(a, b) <= r <= Max(a, b)
    ensures t == 0.0 ==> r == a
    ensures t == 1.0 ==> r == b
  {
    LerpBounds(a, b - a, t);
    Lerp(a, b - a, t)
  }

  /** The fraction `t` of a step `span` taken from `from`. */
  function Lerp(from: real, span: real, t: real): real
  {
    from + span * t
  }

  lemma LerpBounds(from: real, span: real, t: real)
    requires 0.0 <= t <= 1.0
    ensures span >= 0.0 ==> from <= Lerp(from, span, t) <= from + span
    ensures span <= 0.0 ==> from + span <= Lerp(from, span, t) <= from
    ensures t == 0.0 ==> Lerp(from, span, t) == from
    ensures t == 1.0 ==> Lerp(from, span, t) == from + span
  {
    assert Lerp(from, span, t) == from + span * t;
    if span >= 0.0 {
      FractionOfStep(span, t);
      assert 0.0 <= span * t <= span;
    } else {
      var back := -span;
      FractionOfStep(back, t);
      assert span * t == -(back * t);
    }
  }

  /** A fraction `t` of a non-negative `c` lies between zero and `c`. */
  lemma FractionOfStep(c: real, t: real)
    requires 0.0 <= t <= 1.0 && c >= 0.0
    ensures 0.0 <= c * t <= c
  {
    assert c - c * t == c * (1.0 - t);
  }

  /**
   * Six cards at rest: dragging the pointer 300 pixels to the left over 100
   * milliseconds moves the focus one card on, and the release throws it one
   * card further, where it settles.
   */
  method DragScenario(categories: seq<Category>) returns (settled: int)
    requires |categories| == 6
    ensures settled == 2
  {
    var c := new Carousel(categories);
    c.PointerDown(0.0, 0);
    c.PointerMove(-300.0, 100, 100);
    assert c.progress == 1.0;
    c.PointerUp();
    assert c.throwing == Some(ThrowTween(1.0, 2));
    c.CompleteThrow();
    FocusOfCard(2.0, 6, 2, 0);
    settled := c.currentIndex;
  }

  /**
   * A tap on an off-centre card, as the handlers are written: the tap's
   * pointer down and up reach the carousel first, so a throw to the nearest
   * whole card is running when the navigation starts. The navigation ends
   * first (it is shorter and starts later), and the throw's completion then
   * puts the focus back on its own target, whatever the navigation reached.
   */
  method TapThenSettle(c: Carousel, x: real, now: int, index: nat) returns (selected: Option<Category>)
    requires c.Valid() && index < c.count
    modifies c
    ensures c.Valid()
    ensures var start := old(c.progress);
      && c.progress == FloorMod(Round(start) as real, c.count as real)
      && c.currentIndex == Round(start) % c.count
  {
    c.PointerDown(x, now);
    c.PointerUp();
    assert c.throwing == Some(ThrowTween(old(c.progress), Round(old(c.progress))));
    selected := c.Tap(index);
    c.CompleteNavigation();
    c.CompleteThrow();
  }

  /**
   * Six cards resting on card 0: tapping card 1 navigates to it, and the
   * throw of the tap's own release then brings the focus back to card 0,
   * leaving the tapped card one card off centre.
   */
  method TapUndoneScenario(categories: seq<Category>) returns (selected: Option<Category>, reached: real, settled: real)
    requires |categories| == 6
    ensures selected == None
    ensures reached == 1.0 && FloorMod(reached, 6.0) == 1.0
    ensures settled == 0.0 && DiffFromFocus(settled, 6, 1) == 1.0
  {
    var c := new Carousel(categories);
    c.PointerDown(0.0, 0);
    c.PointerUp();
    RoundOfInt(0);
    assert c.throwing == Some(ThrowTween(0.0, 0));
    FocusOfCard(0.0, 6, 0, 0);
    assert TapDecision(0.0, 6, 1) == ScrollTo(1.0);
    selected := c.Tap(1);
    c.CompleteNavigation();
    reached := c.progress;
    FocusOfCard(1.0, 6, 1, 0);
    c.CompleteThrow();
    settled := c.progress;
  }

  /**
   * The same tap with the throw stopped when the navigation starts: once
   * the navigation and any throw have ended, the tapped card is centred.
   */
  method TapThenSettleStoppingThrow(c: Carousel, x: real, now: int, index: nat) returns (selected: Option<Category>)
    requires c.Valid() && index < c.count
    modifies c
    ensures c.Valid()
    ensures TapDecision(old(c.progress), c.count, index).ScrollTo? ==>
      && FloorMod(c.progress, c.count as real) == index as real
      && DiffFromFocus(c.progress, c.count, index) == 0.0
    ensures TapDecision(old(c.progress), c.count, index) == SelectCard ==>
      selected == Some(c.categories[index])
  {
    c.PointerDown(x, now);
    c.PointerUp();
    selected := c.TapStoppingThrow(index);
    c.CompleteNavigation();
    c.CompleteThrow();
    if TapDecision(old(c.progress), c.count, index).ScrollTo? {
      FocusedCardAtZero(FloorMod(c.progress, c.count as real), c.count, index);
    }
  }
}
