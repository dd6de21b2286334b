# Infinite 3D carousel of the 212 city guide, in Dafny

This project models the interactive core of the city-guide front end
(`App.tsx`). The core is the infinite 3D carousel of category cards:

- A floating focus `progress` runs over a ring of `count` cards.
- Each frame reduces the focus onto `[0, count)` and gives every card its signed
  wrap-around distance `diff` from the focus.
- Each card's transform (depth, placement, rotation, scale, opacity, stacking
  order and inner-image pan) is then a pure function of `diff`.
- Pointer drags move the focus, 300 pixels per card, and keep a smoothed velocity.
- A release throws the focus to a whole card. When that throw completes, the
  focus is reduced and the card index is published.
- Tapping a card selects it when it is centred. Otherwise a navigation toward
  that card, the short way round, starts. Every tap's own pointer down and up
  also reach the carousel, so the throw started by that release is still
  running beside the navigation. The throw ends last, and its completion puts
  the focus back on the throw's target (see "## Findings").

The model also covers two small pure pieces of the same file:

- the category and place image pickers;
- the loading screen's progress counter and status-line choice.

Modules:

- `JsNumber` (`js_number.dfy`): the JavaScript arithmetic the code relies on,
  over exact reals. This covers the truncating `%`, `Math.round`, `Math.abs`,
  `Math.min` and `Math.max`, and the floored remainder that
  `((p % n) + n) % n` computes.
- `Types` (`types.dfy`): the `Place` and `Category` records.
- `CarouselGeometry` (`carousel_geometry.dfy`): focus reduction and the
  circular distance.
- `CardStyle` (`card_style.dfy`): the per-card render parameters.
- `CarouselEngine` (`carousel.dfy`): the class `Carousel`, holding the
  carousel's mutable state and its gesture handlers, plus the pure decisions
  those handlers make.
- `Images` (`images.dfy`): `getCategoryImage` and `getPlaceImage`.
- `Loading` (`loading.dfy`): the loading counter. Progress is counted in
  half-percent units, so every value is a natural number.

Behaviour worth knowing:

- With two or more cards the distance range is the closed interval
  `[-count/2, count/2]`, and both ends are reached (`DiffRangeIsClosed`).
- With a single card, the distance is `-norm` or `1 - norm`, so it lies in
  `[-1/2, 1/2)` and `+1/2` is never reached. The card is centred only when the
  reduced focus is zero (`SingleCardDiff`).
- `Math.round` sends halves toward positive infinity (`Math.round(-2.5) == -2`).
- The stacking order falls off non-strictly: different distances can share a
  z-index (`ZIndexCanTie`).

## Model

| member | source | states |
|---|---|---|
| JsNumber.Abs | App.tsx:428 | `Math.abs(x)` is non-negative and is `x` or `-x` |
| JsNumber.Min | App.tsx:446-447 | `Math.min(a, b)` is at most both arguments and is one of them |
| JsNumber.Max | App.tsx:469 | `Math.max(a, b)` is at least both arguments and is one of them |
| JsNumber.Rem | App.tsx:416 | JavaScript `%` on a positive divisor lies in `[0, b)` for a non-negative dividend and in `(-b, 0]` for a negative one |
| JsNumber.Round | App.tsx:448 | `Math.round(x)` is the integer `n` with `x - 0.5 < n <= x + 0.5`, so halves go up |
| JsNumber.DoubleRemIsFloorMod | App.tsx:416 | `((p % n) + n) % n` equals the floored remainder of `p` by `n` for every real `p` |
| CarouselGeometry.NormProgress | App.tsx:416 | the reduced focus lies in `[0, count)` and is the floored remainder of `progress`, so it differs from it by whole turns |
| CarouselGeometry.CircularDiff | App.tsx:422-424 | the distance lies in `[-count/2, count/2]` and is `i - norm` moved by at most one whole turn |
| CarouselGeometry.DiffFromFocus | App.tsx:555-558 | the tap handler's distance is the same distance taken from the unreduced focus, within `[-count/2, count/2]` |
| CarouselGeometry.DiffFromFocusPeriodic | App.tsx:416-424 | turning the focus by any whole number of turns leaves every card's distance unchanged |
| CarouselGeometry.FocusOfCard | App.tsx:544 | a focus equal to card `i` plus whole turns reduces exactly to `i` |
| CarouselGeometry.FocusOfInt | App.tsx:544 | an integer focus reduces to its Euclidean remainder by `count` |
| CarouselGeometry.CircularDiffIsShortest | App.tsx:422-424 | for every whole number of turns `k`, the distance is no further from zero than `i - norm` plus `k` turns |
| CarouselGeometry.NearestCandidate | App.tsx:422-424 | of the three positions the wrap-around chooses from, `i - norm` and one turn either side, the chosen one is nearest to zero |
| CarouselGeometry.RepresentativeIsTurns | App.tsx:422-424 | the position `k` turns round is `i - norm + count·k` |
| CarouselGeometry.FurtherTurns | App.tsx:422-424 | one or more turns round lies at least one whole turn beyond `i - norm`, either way |
| CarouselGeometry.DiffRangeIsClosed | App.tsx:422-424 | with two or more cards both `-count/2` and `+count/2` are reached |
| CarouselGeometry.FocusedCardAtZero | App.tsx:422 | the card the reduced focus rests on has distance zero |
| CarouselGeometry.SingleCardDiff | App.tsx:422-424 | with one card the distance is zero exactly when the reduced focus is zero, and lies in `[-0.5, 0.5)` |
| CarouselGeometry.DiffTargetLandsOnCard | App.tsx:555-565 | moving the focus by card `i`'s distance makes the reduced focus exactly `i` |
| CarouselGeometry.DiffTurns | App.tsx:422-424 | the distance equals `i - norm` plus `j` whole turns with `j` in `{-1, 0, 1}` |
| CardStyle.Depth | App.tsx:428-431 | depth is never positive and is zero exactly for the centred card |
| CardStyle.XPercent | App.tsx:436-452 | placement is right of centre (-50) exactly for positive distance and left of it exactly for negative distance |
| CardStyle.RotateY | App.tsx:441-443 | rotation lies in `[-60, 60]`, opposes the sign of the distance, is -45 degrees per card up to 4/3 cards and is 60 in magnitude beyond |
| CardStyle.Scale | App.tsx:446 | scale lies in `[0.6, 1]`, is 1 exactly when centred, falls 0.1 per card and is 0.6 from four cards on |
| CardStyle.Opacity | App.tsx:447 | opacity lies in `[0.4, 1]`, is 1 exactly when centred, falls 0.3 per card and is 0.4 from two cards on |
| CardStyle.ZIndex | App.tsx:448 | stacking order is at most 100, is 100 exactly within a twentieth of a card, and is within half a step of `100 - 10·distance` |
| CardStyle.PanX | App.tsx:469 | pan lies in `[-20, 20]`, has the sign opposite to the distance, is zero when centred and is `-15·diff` up to 4/3 cards |
| CardStyle.ParamsAt | App.tsx:428-469 | the record carries its distance; depth is never positive, rotation within 60 degrees, scale in `[0.6, 1]`, opacity in `[0.4, 1]`, z-index at most 100 and pan within 20; the centred card gets the flat, frontmost, full-size record |
| CardStyle.CentredCard | App.tsx:428-469 | the centred card is flat, at depth 0, placement -50, scale 1, opacity 1, z-index 100 and pan 0 |
| CardStyle.FalloffMonotone | App.tsx:431-448 | a card further from the focus is never larger, more opaque, nearer or stacked higher than a closer one |
| CardStyle.MirrorSymmetric | App.tsx:428-469 | cards at opposite distances share scale, opacity, depth and z-index and have mirrored rotation, placement and pan |
| CardStyle.ZIndexCanTie | App.tsx:448 | the centred card and one 0.04 cards away share z-index 100 |
| CardStyle.CardAt | App.tsx:416-469 | card `i`'s record carries its distance from the focus, at most half a turn, and depends on that distance alone |
| CardStyle.CardAtPeriodic | App.tsx:416-469 | turning the focus by whole turns leaves every card's parameters unchanged |
| CarouselEngine.SmoothedVelocity | App.tsx:507-511 | velocity is unchanged when no time passed and otherwise moves a fifth of the way to the new sample, staying between old value and sample |
| CarouselEngine.ThrowTarget | App.tsx:529-533 | the throw target is the whole number nearest to `progress - 300·velocity`, halves going up |
| CarouselEngine.ThrowAtRest | App.tsx:529-533 | a still release on a whole card targets that card |
| CarouselEngine.ReleaseToNearest | App.tsx:533 | a still release at 2.6 goes to 3, at 2.4 to 2, and at -2.5 to -2 |
| CarouselEngine.ThrowFollowsDrag | App.tsx:529-533 | a negative velocity never targets below a still release and a positive one never above |
| CarouselEngine.SettleIndex | App.tsx:544-546 | the published index lies in `[0, count)`, equals the reduced target and is the target's remainder by `count` |
| CarouselEngine.TapDecision | App.tsx:555-571 | a tap selects exactly when the card is within 0.1 of the focus; otherwise the new target reduces to the card and is at most half a turn away |
| CarouselEngine.SingleCardTap | App.tsx:555-562 | with one card a tap selects exactly when the reduced focus is within 0.1 of a whole number |
| CarouselEngine.Carousel.constructor | App.tsx:388-394 | a new carousel has its focus, index, velocity and pointer state at zero and no tween running |
| CarouselEngine.Carousel.PointerDown | App.tsx:482-490 | a drag starts at `x`, the velocity is reset, every running tween is stopped and the focus stays put |
| CarouselEngine.Carousel.PointerMove | App.tsx:496-514 | outside a drag nothing changes; during one the focus drops by exactly `dx/300`, the velocity is smoothed and the pointer sample is stored |
| CarouselEngine.Carousel.PointerUp | App.tsx:519-536 | during a drag, the up handler ends it and records a throw from the current focus toward `ThrowTarget`; nothing else changes |
| CarouselEngine.Carousel.AnimationFrame | App.tsx:535-541 | a running navigation puts the focus between its start and end, otherwise a running throw puts it between its own; each reaches its end at fraction 1 |
| CarouselEngine.Carousel.CompleteThrow | App.tsx:542-548 | a finished throw leaves the focus reduced into `[0, count)`, equal to the published index, with that card at distance zero; a running navigation is untouched |
| CarouselEngine.Carousel.CompleteNavigation | App.tsx:566-571 | a finished navigation leaves the focus at its unreduced destination and the index unchanged; a running throw is untouched |
| CarouselEngine.Carousel.Tap | App.tsx:553-573 | a centred card is returned as the selection; otherwise nothing is selected and a navigation to `progress + diff` starts while any running throw keeps running |
| CarouselEngine.Carousel.TapStoppingThrow | App.tsx:553-573 | like `Tap`, but a navigation stops the running throw first; its destination reduces to the tapped card |
| CarouselEngine.TapThenSettle | App.tsx:482-573 | after a tap's pointer down, pointer up, tap and both tweens ending, the focus is the reduced nearest whole card to where it started and the index is published for it, whichever card was tapped |
| CarouselEngine.TapUndoneScenario | App.tsx:482-573 | six cards resting on card 0: tapping card 1 navigates to focus 1, then the throw's completion returns the focus to 0, leaving card 1 one card off centre |
| CarouselEngine.TapThenSettleStoppingThrow | App.tsx:553-573 | with the throw stopped by the tap, an off-centre tap ends with the tapped card centred |
| CarouselEngine.Carousel.UpdateCards | App.tsx:412-472 | the frame holds one parameter record per card, card `i` getting `CardAt(progress, count, i)` |
| CarouselEngine.Between | App.tsx:535-536 | a tween frame lies between start and end, is the start at fraction 0 and the end at fraction 1 |
| CarouselEngine.DragScenario | App.tsx:482-548 | on six cards a 300-pixel leftward drag over 100 ms followed by a release settles on card 2 |
| Images.ImagesFor | App.tsx:66 | the list used is the title's own, or the "Views" list for an unknown title, and is never empty |
| Images.CategoryImage | App.tsx:65-68 | the picked image always belongs to the list used for the title |
| Images.CategoryImageInOrder | App.tsx:67 | on the first lap index `k` picks the `k`-th entry |
| Images.CategoryImagePeriodic | App.tsx:67 | the pick repeats after a full lap of the list |
| Images.CategoryImageCoversList | App.tsx:65-68 | every entry of the list is picked by some index |
| Images.UnknownTitleFallsBack | App.tsx:66 | a title without its own list picks exactly what "Views" picks |
| Images.SingleImageCategory | App.tsx:65-68 | a one-image list gives that image for every index |
| Images.DanceCycle | App.tsx:11-34 | "Dance" cycles through five images and every other title has one |
| Images.PlaceImage | App.tsx:70-73 | a non-empty own image is used; an absent or empty one falls back to the category image at the name's length |
| Images.PlaceImageByNameLength | App.tsx:72 | without an own image, names whose lengths differ by a full lap of the list show the same image |
| Loading.Step | App.tsx:252-263 | a tick finishes exactly when ready at 100% or more, pinning 100%; other ready ticks add one percent; waiting ticks add half a percent below 85% and pin 85% otherwise |
| Loading.Run | App.tsx:250-266 | ticks run until one finishes; a finished run ends at 100% and saw a ready tick; without a ready tick the run never finishes |
| Loading.CappedRun | App.tsx:250-266 | the same run with capped ticks: a finished run ends at 100% and saw a ready tick; without a ready tick it never finishes |
| Loading.WaitingClimbsToCap | App.tsx:259-260 | from at most 85%, `k` waiting ticks reach `min(h + k, 85%)` and never finish |
| Loading.ReadyClimbs | App.tsx:253-258 | ready ticks starting below 100% climb one percent each |
| Loading.ReadyFinishes | App.tsx:253-257 | from at most 100.5%, enough ready ticks always finish with the counter at 100% |
| Loading.DisplayedPercent | App.tsx:292 | the shown percentage is the counter rounded with halves going up |
| Loading.MessageIndex | App.tsx:268-272 | the status line is a valid index, the first exactly below 40% and the third exactly from 80% |
| Loading.MessageIndexMonotone | App.tsx:268-272 | the status line never goes back as the counter rises |
| Loading.RunOvershootsByAtMostHalf | App.tsx:252-263 | from at most 100.5%, any sequence of ticks keeps the counter at most 100.5% |
| Loading.OvershootAsWritten | App.tsx:253-258 | 169 waiting ticks from 0 reach 84.5%, 16 ready ticks from there reach 100.5%, shown as 101% |
| Loading.CappedStep | App.tsx:252-263 | the capped tick finishes on the same condition and never takes a counter at or below 100% above it |
| Loading.CappedStepAgrees | App.tsx:252-263 | the capped tick differs from the written one only on a ready tick from 99.5%, which it takes to 100% |
| Loading.CappedRunBounded | App.tsx:252-263 | with capped ticks, any sequence of readiness keeps the counter and the shown percentage at most 100 |

## Left out

- The animation library's tweens are not modelled beyond their start and end
  points. The easing curve (`power2.out`) and the 0.8 s and 0.6 s durations are
  left out. `AnimationFrame` takes each tween's eased fraction as an input.
  The order in which the tweens end is the order in which the caller runs
  `CompleteThrow` and `CompleteNavigation`. In a tap the navigation starts just
  after the throw and is shorter, so it ends first (`TapThenSettle`).
- Overlapping tweens follow the animation library's default. A new tween on
  the focus does not stop one already running; App.tsx sets no overwrite mode.
  Both write the focus on every frame, the later one last. Every tap overlaps
  the throw of its own release, so the model's tap ends where the program's
  does only under this default.
- DOM effects are not modelled: `gsap.set` on the card elements, the
  inner-image `querySelector`, and the window event listeners. `UpdateCards`
  returns the values that would be set.
- Missing card elements are not modelled. The model has exactly one card per
  category, and the carousel needs at least one category. With none, the code
  divides by zero and skips its frames.
- `Date.now()`, `requestAnimationFrame`, `setInterval` and `setTimeout` are not
  modelled. Timestamps are method inputs (the move handler reads the clock
  twice, so it takes two). Loading ticks are the entries of a sequence, and the
  hand-over after the counter finishes is only the `finished` flag.
- Card selection goes through an `onSelect` callback in the code.
  `Carousel.Tap` returns the selected category instead.
- The empty inertia-decay block has no behaviour, so it is not modelled.
- IEEE-754 rounding is not modelled. All arithmetic is on exact reals.
- `Images.PlaceImage` uses the name's length in characters. The code uses the
  UTF-16 length, which can differ for characters outside the Basic Multilingual
  Plane.
- `Images.ImagesFor`: prototype keys are not modelled. A category title such as
  `constructor` finds an inherited object property in the code, not the "Views"
  fallback. The model treats every title without a list as unknown.
- `Images.CategoryImage`: indices are natural numbers. Every call site passes
  an array index, a string length or the default 0.
- The loading screen's background rotator, the intro sequence, the city-suffix
  animation, the place and reward modals, and all rendering are not modelled.
  They are view plumbing with no arithmetic beyond a modulo counter.
- The guide data service and its fixed delay are not modelled. The record
  shapes in `types.ts` are mirrored only as far as the modelled code reads them.

## Findings

| source | as written | input that shows it | evidently intended | confidence | as-written member | corrected member |
|---|---|---|---|---|---|---|
| App.tsx:553-573 | an off-centre tap starts a navigation but leaves running the throw that the tap's own pointer up started (App.tsx:519-549), whose completion resets the focus to the reduced throw target | six cards at rest on card 0, tap card 1: the navigation reaches focus 1, then the throw completes and returns the focus to 0 | the tapped card ends centred | low, not executed; relies on the animation library's default of letting tweens on the same value overlap | CarouselEngine.TapUndoneScenario (with CarouselEngine.TapThenSettle) | CarouselEngine.Carousel.TapStoppingThrow (with CarouselEngine.TapThenSettleStoppingThrow) |
| App.tsx:253-260 | ready ticks add one percent until the counter is at least 100, so a counter at an odd half-percent climbs to 100.5 before the pin | data becomes ready when the counter is 84.5% (169 waiting ticks): 16 ready ticks give 100.5%, displayed as "101%" | the counter never passes 100% | medium, not executed | Loading.OvershootAsWritten | Loading.CappedStep (with Loading.CappedRunBounded) |
