/**
 * The loading screen's progress counter. Every timer tick replaces the
 * percentage by a step of it: while the guide data is not ready it creeps up
 * by half a percent and waits at 85; once the data is ready it climbs by a
 * whole percent and, at 100 or more, pins itself to 100 and finishes (the
 * timer stops and the screen hands over shortly after).
 *
 * Percentages are counted in half-percent units, so every value the counter
 * takes is a natural number: `h` half-units is `h / 2` percent.
 */
module Loading {
  import opened JsNumber

  /** 85% and 100%, in half-percent units. */
  const WaitCap: nat := 170
  const Full: nat := 200

  /** The status lines, chosen by `MessageIndex`. */
  const Messages: seq<string> := [
    "Mapping your Barcelona-NYC twins...",
    "Curating spots with 212 energy...",
    "Polishing your city guide..."
  ]

  /** The counter after one tick, and whether that tick stopped the timer. */
  datatype Tick = Tick(next: nat, finished: bool)

  /**
   * One tick of the counter exactly as written: ready ticks add 2 half-units
   * until the counter is at 100% or more and then pin it to 100% and finish;
   * waiting ticks add 1 half-unit and pin anything at 85% or more to 85%.
   */
  function Step(prev: nat, ready: bool): (t: Tick)
    ensures t.finished <==> ready && prev >= Full
    ensures t.finished ==> t.next == Full
    ensures ready && !t.finished ==> t.next == prev + 2
    ensures !ready && prev < WaitCap ==> t.next == prev + 1
    ensures !ready && prev >= WaitCap ==> t.next == WaitCap
  {
    if ready then
      if prev >= Full then Tick(Full, true) else Tick(prev + 2, false)
    else
      if prev >= WaitCap then Tick(WaitCap, false) else Tick(prev + 1, false)
  }

  /**
   * The counter after one tick per entry of `readies`, each entry saying
   * whether the data was ready at that tick; no tick runs once one finished.
   */
  function Run(h: nat, readies: seq<bool>): (t: Tick)
    ensures t.finished ==> t.next == Full && true in readies
    ensures true !in readies ==> !t.finished
    ensures readies == [] ==> t.next == h
    decreases |readies|
  {
    if readies == [] then Tick(h, false)
    else
      var t := Step(h, readies[0]);
      if t.finished then t else Run(t.next, readies[1..])
  }

  /** `k` ticks that all see the same readiness. */
  function Same(k: nat, ready: bool): (s: seq<bool>)
    ensures |s| == k
    ensures forall i :: 0 <= i < k ==> s[i] == ready
  {
    if k == 0 then [] else [ready] + Same(k - 1, ready)
  }

  /** While waiting the counter climbs one half-unit a tick and stops at 85%. */
  lemma {:induction false} WaitingClimbsToCap(h: nat, k: nat)
    requires h <= WaitCap
    decreases k
    ensures Run(h, Same(k, false)) == Tick(if h + k <= WaitCap then h + k else WaitCap, false)
  {
    if k > 0 {
      assert Same(k, false)[1..] == Same(k - 1, false);
      var next := if h < WaitCap then h + 1 else WaitCap;
      WaitingClimbsToCap(next, k - 1);
    }
  }

  /**
   * Ready ticks climb a whole percent each as long as every one of them
   * starts below 100%.
   */
  lemma {:induction false} ReadyClimbs(h: nat, k: nat)
    requires h + 2 * k <= Full + 1
    decreases k
    ensures Run(h, Same(k, true)) == Tick(h + 2 * k, false)
  {
    if k > 0 {
      assert Same(k, true)[1..] == Same(k - 1, true);
      ReadyClimbs(h + 2, k - 1);
    }
  }

  /**
   * Once the data is ready the counter always finishes, pinned at 100%: from
   * any value up to 100.5% a bounded number of ready ticks stops the timer.
   */
  lemma {:induction false} ReadyFinishes(h: nat)
    requires h <= Full + 1
    decreases Full + 1 - h
    ensures Run(h, Same((Full + 1 - h) / 2 + 1, true)) == Tick(Full, true)
  {
    var k := (Full + 1 - h) / 2 + 1;
    assert Same(k, true)[1..] == Same(k - 1, true);
    if h < Full {
      ReadyFinishes(h + 2);
    }
  }

  /**
   * The percentage shown: `Math.round` of the counter, halves going up.
   */
  function DisplayedPercent(h: nat): (p: int)
    ensures h as real / 2.0 - 0.5 < p as real <= h as real / 2.0 + 0.5
    ensures h % 2 == 0 ==> p == h / 2
    ensures h % 2 == 1 ==> p == h / 2 + 1
  {
    Round(h as real / 2.0)
  }

  /**
   * The status line: the first below 40%, the second below 80%, the third
   * from 80% on.
   */
  function MessageIndex(h: nat): (m: nat)
    ensures m < |Messages|
    ensures m == 0 <==> h < 80
    ensures m == 2 <==> h >= 160
  {
    if h < 80 then 0 else if h < 160 then 1 else 2
  }

  /** The status line never goes back as the counter rises. */
  lemma MessageIndexMonotone(h: nat, h2: nat)
    requires h <= h2
    ensures MessageIndex(h) <= MessageIndex(h2)
  {
  }

  /**
   * As written, the counter can pass 100%: data that becomes ready while the
   * counter waits at an odd number of half-units (84.5%, reached after 169
   * waiting ticks) is followed by whole-percent steps 85.5%, ..., 99.5%,
   * 100.5%, and the screen shows "101%" for one tick before the pin.
   */
  lemma OvershootAsWritten()
    ensures Run(0, Same(169, false)) == Tick(169, false)
    ensures Run(169, Same(16, true)) == Tick(Full + 1, false)
    ensures DisplayedPercent(Full + 1) == 101
  {
    WaitingClimbsToCap(0, 169);
    ReadyClimbs(169, 16);
  }

  /** One tick with the ready climb capped at 100%. */
  function CappedStep(prev: nat, ready: bool): (t: Tick)
    ensures t.finished <==> ready && prev >= Full
    ensures prev <= Full ==> t.next <= Full
    ensures t.next <= Full ==> DisplayedPercent(t.next) <= 100
  {
    if ready then
      if prev >= Full then Tick(Full, true)
      else Tick(if prev + 2 > Full then Full else prev + 2, false)
    else
      if prev >= WaitCap then Tick(WaitCap, false) else Tick(prev + 1, false)
  }

  /** The capped step differs from the written one only on the overshooting tick. */
  lemma CappedStepAgrees(prev: nat, ready: bool)
    ensures Step(prev, ready) != CappedStep(prev, ready) <==> ready && prev == Full - 1
    ensures ready && prev == Full - 1 ==> CappedStep(prev, ready) == Tick(Full, false)
  {
  }

  /** The counter with capped ticks. */
  function CappedRun(h: nat, readies: seq<bool>): (t: Tick)
    ensures t.finished ==> t.next == Full && true in readies
    ensures true !in readies ==> !t.finished
    ensures readies == [] ==> t.next == h
    decreases |readies|
  {
    if readies == [] then Tick(h, false)
    else
      var t := CappedStep(h, readies[0]);
      if t.finished then t else CappedRun(t.next, readies[1..])
  }

  /**
   * With capped ticks the counter never passes 100%, and the shown
   * percentage never passes 100, whatever the order in which readiness
   * changes.
   */
  lemma {:induction false} CappedRunBounded(h: nat, readies: seq<bool>)
    requires h <= Full
    ensures CappedRun(h, readies).next <= Full
    ensures DisplayedPercent(CappedRun(h, readies).next) <= 100
    decreases |readies|
  {
    if readies != [] {
      var t := CappedStep(h, readies[0]);
      if !t.finished {
        CappedRunBounded(t.next, readies[1..]);
      }
    }
  }

  /** The written counter, started at 100% or below, overshoots by at most half a percent. */
  lemma {:induction false} RunOvershootsByAtMostHalf(h: nat, readies: seq<bool>)
    requires h <= Full + 1
    ensures Run(h, readies).next <= Full + 1
    decreases |readies|
  {
    if readies != [] {
      var t := Step(h, readies[0]);
      if !t.finished {
        RunOvershootsByAtMostHalf(t.next, readies[1..]);
      }
    }
  }
}
