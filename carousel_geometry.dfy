/**
 * Where each card sits relative to the carousel's floating focus: the focus
 * `progress` is reduced onto the circle `[0, count)` and every card index gets
 * the signed, shortest way round distance to it.
 */
module CarouselGeometry {
  import opened JsNumber

  /**
   * The focus reduced onto the circle, computed as the carousel does with two
   * JavaScript remainders: `((progress % count) + count) % count`. It lies in
   * `[0, count)` and differs from `progress` by a whole number of turns.
   */
  function NormProgress(progress: real, count: nat): (norm: real)
    requires count >= 1
    ensures 0.0 <= norm < count as real
    ensures norm == FloorMod(progress, count as real)
  {
    var n := count as real;
    DoubleRemIsFloorMod(progress, n);
    Rem(Rem(progress, n) + n, n)
  }

  /**
   * Signed distance from the reduced focus `norm` to card `i`: `i - norm`, then
   * brought back by one turn when it is more than half a turn away in either
   * direction (the two tests run one after the other, the second on the
   * already corrected value).
   */
  function CircularDiff(norm: real, count: nat, i: nat): (diff: real)
    requires count >= 1 && i < count
    requires 0.0 <= norm < count as real
    ensures -(count as real) / 2.0 <= diff <= count as real / 2.0
    ensures var d := i as real - norm;
      diff == d || diff == d - count as real || diff == d + count as real
  {
    var n := count as real;
    var d := i as real - norm;
    var d1 := if d > n / 2.0 then d - n else d;
    if d1 < -n / 2.0 then d1 + n else d1
  }

  /**
   * The distance of card `i` from an unreduced focus, stated on the floored
   * remainder that `NormProgress` is proved to compute.
   */
  function DiffFromFocus(progress: real, count: nat, i: nat): (diff: real)
    requires count >= 1 && i < count
    ensures -(count as real) / 2.0 <= diff <= count as real / 2.0
  {
    CircularDiff(FloorMod(progress, count as real), count, i)
  }

  /** Shifting the focus by whole turns does not move any card. */
  lemma {:induction false} DiffFromFocusPeriodic(progress: real, count: nat, i: nat, k: int)
    requires count >= 1 && i < count
    ensures DiffFromFocus(progress + count as real * k as real, count, i) == DiffFromFocus(progress, count, i)
  {
    FloorModPeriodic(progress, count as real, k);
  }

  /**
   * A focus that is card `i` plus whole turns reduces to exactly `i`: this is
   * how a settled or navigated focus names a card.
   */
  lemma {:induction false} FocusOfCard(p: real, count: nat, i: int, k: int)
    requires count >= 1 && 0 <= i < count
    requires p == i as real + count as real * k as real
    ensures FloorMod(p, count as real) == i as real
  {
    FloorModUnique(p, count as real, k, i as real);
  }

  /**
   * An integer focus reduces to its Euclidean remainder, a whole card index
   * in `[0, count)`.
   */
  lemma {:induction false} FocusOfInt(t: int, count: nat)
    requires count >= 1
    ensures FloorMod(t as real, count as real) == (t % count) as real
  {
    var turns := t / count;
    var idx := t % count;
    IntToRealMul(count, turns);
    assert t as real == idx as real + count as real * turns as real;
    FocusOfCard(t as real, count, idx, turns);
  }

  lemma IntToRealMul(a: int, b: int)
    ensures (a * b) as real == a as real * b as real
  {
  }

  /**
   * Card `i`'s position relative to the reduced focus, taken `k` whole turns
   * round: `i - norm` with `count` added `k` times (subtracted for negative `k`).
   */
  function Representative(norm: real, count: nat, i: nat, k: int): real
    decreases if k < 0 then -k else k
  {
    if k == 0 then i as real - norm
    else if k > 0 then Representative(norm, count, i, k - 1) + count as real
    else Representative(norm, count, i, k + 1) - count as real
  }

  /** The position `k` turns round is `i - norm + count * k`. */
  lemma {:induction false} RepresentativeIsTurns(norm: real, count: nat, i: nat, k: int)
    ensures Representative(norm, count, i, k) == i as real - norm + count as real * k as real
    decreases if k < 0 then -k else k
  {
    var n := count as real;
    if k > 0 {
      RepresentativeIsTurns(norm, count, i, k - 1);
      assert n * k as real == n * (k - 1) as real + n;
    } else if k < 0 {
      RepresentativeIsTurns(norm, count, i, k + 1);
      assert n * k as real == n * (k + 1) as real - n;
    }
  }

  /** One turn or more round lies at least a whole turn beyond `i - norm`. */
  lemma {:induction false} FurtherTurns(norm: real, count: nat, i: nat, k: int)
    ensures k >= 1 ==> Representative(norm, count, i, k) >= i as real - norm + count as real
    ensures k <= -1 ==> Representative(norm, count, i, k) <= i as real - norm - count as real
    decreases if k < 0 then -k else k
  {
    if k > 1 {
      FurtherTurns(norm, count, i, k - 1);
    } else if k < -1 {
      FurtherTurns(norm, count, i, k + 1);
    }
  }

  /**
   * The distance is the shortest way round: no position of card `i` relative
   * to the focus, `i - norm` plus any whole number of turns, is nearer to
   * zero than the chosen one.
   */
  lemma {:induction false} CircularDiffIsShortest(norm: real, count: nat, i: nat)
    requires count >= 1 && i < count
    requires 0.0 <= norm < count as real
    ensures forall k: int ::
      Abs(CircularDiff(norm, count, i)) <= Abs(Representative(norm, count, i, k))
  {
    forall k: int
      ensures Abs(CircularDiff(norm, count, i)) <= Abs(Representative(norm, count, i, k))
    {
      NearestCandidate(norm, count, i);
      FurtherTurns(norm, count, i, k);
    }
  }

  /**
   * Of the three positions the wrap-around chooses from, `i - norm` and one
   * turn either side of it, the chosen one is nearest to zero.
   */
  lemma NearestCandidate(norm: real, count: nat, i: nat)
    requires count >= 1 && i < count
    requires 0.0 <= norm < count as real
    ensures var d, n := i as real - norm, count as real;
      && Abs(CircularDiff(norm, count, i)) <= Abs(d)
      && Abs(CircularDiff(norm, count, i)) <= Abs(d - n)
      && Abs(CircularDiff(norm, count, i)) <= Abs(d + n)
  {
  }

  /**
   * Both ends of the range are reached, so it is the closed interval
   * `[-count/2, count/2]`: the card opposite a half-way focus sits at
   * `-count/2`, and with two or more cards another one sits at `+count/2`.
   */
  lemma DiffRangeIsClosed(count: nat)
    requires count >= 2
    ensures CircularDiff(count as real / 2.0, count, 0) == -(count as real) / 2.0
    ensures CircularDiff(count as real / 2.0 - 1.0, count, count - 1) == count as real / 2.0
  {
  }

  /** The card the focus rests on is at distance zero. */
  lemma FocusedCardAtZero(norm: real, count: nat, i: nat)
    requires count >= 1 && i < count
    requires norm == i as real
    ensures CircularDiff(norm, count, i) == 0.0
  {
  }

  /**
   * With a single card the distance is zero exactly when the reduced focus is
   * zero; a fractional focus leaves the lone card off centre.
   */
  lemma SingleCardDiff(norm: real)
    requires 0.0 <= norm < 1.0
    ensures CircularDiff(norm, 1, 0) == 0.0 <==> norm == 0.0
    ensures -0.5 <= CircularDiff(norm, 1, 0) < 0.5
  {
  }

  /**
   * Moving the focus by a card's distance lands it exactly on that card: the
   * navigation target of a tap reduces to the tapped index.
   */
  lemma {:induction false} DiffTargetLandsOnCard(progress: real, count: nat, i: nat)
    requires count >= 1 && i < count
    ensures FloorMod(progress + DiffFromFocus(progress, count, i), count as real) == i as real
  {
    var n := count as real;
    var norm := FloorMod(progress, n);
    var j := DiffTurns(norm, count, i);
    FloorModSplits(progress, n);
    var q := (progress / n).Floor;
    var k := q + j;
    assert n * k as real == n * q as real + n * j as real;
    var diff := DiffFromFocus(progress, count, i);
    assert diff == i as real - norm + n * j as real;
    var target := progress + diff;
    assert target == i as real + n * k as real;
    FocusOfCard(target, count, i, k);
  }

  /** The whole number of turns `CircularDiff` adds to `i - norm`. */
  lemma DiffTurns(norm: real, count: nat, i: nat) returns (j: int)
    requires count >= 1 && i < count
    requires 0.0 <= norm < count as real
    ensures -1 <= j <= 1
    ensures CircularDiff(norm, count, i) == i as real - norm + count as real * j as real
  {
    var d := i as real - norm;
    var diff := CircularDiff(norm, count, i);
    j := if diff == d then 0 else if diff == d - count as real then -1 else 1;
  }
}
