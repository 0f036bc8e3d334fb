/** Values printed above bars: which bars get one, and what the printed ones keep clear of. */
module BarLabels {
  import opened NiceScale
  import CategoryAxis

  /** Positions from `from` on with a bar to show. */
  function Filled(values: seq<int>, from: nat): seq<nat>
    requires from <= |values|
    decreases |values| - from
  {
    if from == |values| then []
    else (if values[from] > 0 then [from] else []) + Filled(values, from + 1)
  }

  predicate Within(indices: seq<nat>, n: nat) {
    forall k :: 0 <= k < |indices| ==> indices[k] < n
  }

  predicate Increasing(indices: seq<nat>) {
    forall k, l :: 0 <= k < l < |indices| ==> indices[k] < indices[l]
  }

  predicate AllFit(filled: seq<nat>, widths: seq<real>, slot: real)
    requires Within(filled, |widths|)
  {
    forall k :: 0 <= k < |filled| ==> widths[filled[k]] + 4.0 <= slot
  }

  /** The first of the tallest among `best` and the rest. */
  function Tallest(values: seq<int>, rest: seq<nat>, best: nat): (peak: nat)
    requires best < |values| && Within(rest, |values|)
    ensures peak < |values|
  {
    if rest == [] then best
    else Tallest(values, rest[1..], if values[rest[0]] > values[best] then rest[0] else best)
  }

  /** How many slots half a label spans. */
  function Reach(width: real, slot: real): int
    requires slot > 0.0
  {
    Ceiling(width / 2.0 / slot)
  }

  predicate Clear(values: seq<int>, latest: nat, reach: int)
    requires latest < |values|
  {
    forall k :: 0 <= k < latest && k >= latest - reach ==> values[k] <= values[latest]
  }

  function BarLabelIndices(values: seq<int>, slot: real, widths: seq<real>): set<nat>
    requires slot > 0.0 && |widths| == |values|
  {
    FilledIncrease(values, 0);
    var filled := Filled(values, 0);
    if AllFit(filled, widths, slot) then (set i | i in filled)
    else
      var peak, latest := Tallest(values, filled, filled[0]), filled[|filled| - 1];
      if Clear(values, latest, Reach(widths[latest], slot)) then {peak, latest} else {peak}
  }

  lemma {:induction false} FilledIncrease(values: seq<int>, from: nat)
    requires from <= |values|
    ensures Within(Filled(values, from), |values|) && Increasing(Filled(values, from))
    ensures Filled(values, from) != [] ==> Filled(values, from)[0] >= from
    decreases |values| - from
  {
    if from < |values| {
      FilledIncrease(values, from + 1);
      if values[from] > 0 {
        PrependKeepsIncreasing(from, Filled(values, from + 1));
      }
    }
  }

  lemma PrependKeepsIncreasing(first: nat, rest: seq<nat>)
    requires Increasing(rest) && (rest != [] ==> first < rest[0])
    ensures Increasing([first] + rest)
  {
    forall k, l | 0 <= k < l <= |rest| ensures ([first] + rest)[k] < ([first] + rest)[l] {
      assert ([first] + rest)[l] == rest[l - 1] >= rest[0];
    }
  }

  // ----- Which bars are labelled -----

  predicate NonEmpty(values: seq<int>, i: int) {
    0 <= i < |values| && values[i] > 0
  }

  ghost predicate FirstTallest(values: seq<int>, i: int) {
    && NonEmpty(values, i)
    && (forall k :: 0 <= k < i ==> values[k] < values[i])
    && (forall k :: i < k < |values| ==> values[k] <= values[i])
  }

  ghost predicate Latest(values: seq<int>, i: int) {
    NonEmpty(values, i) && forall k :: i < k < |values| ==> values[k] <= 0
  }

  ghost predicate EveryLabelFits(values: seq<int>, slot: real, widths: seq<real>)
    requires |widths| == |values|
  {
    forall i :: NonEmpty(values, i) ==> widths[i] + 4.0 <= slot
  }

  /** A taller bar before `i` whose centre is less than one slot past the near edge of the label of `i`. */
  ghost predicate CrowdedBy(values: seq<int>, slot: real, widths: seq<real>, i: nat, k: nat)
    requires |widths| == |values| && i < |values|
  {
    k < i && values[k] > values[i] && Times((i - k - 1) as real, slot) < widths[i] / 2.0
  }

  lemma {:induction false} FilledAreNonEmpty(values: seq<int>, from: nat)
    requires from <= |values|
    ensures forall i :: i in Filled(values, from) <==> from <= i && NonEmpty(values, i)
    decreases |values| - from
  {
    if from < |values| {
      FilledAreNonEmpty(values, from + 1);
    }
  }

  /** The running maximum is at least what came before it, and more than what it passed on the way. */
  lemma {:induction false} TallestIsTallest(values: seq<int>, rest: seq<nat>, best: nat)
    requires best < |values| && Within(rest, |values|) && Increasing(rest)
    ensures var peak := Tallest(values, rest, best);
            && values[best] <= values[peak] && (peak == best || (peak in rest && values[best] < values[peak]))
            && forall k :: 0 <= k < |rest| ==>
                 values[rest[k]] <= values[peak] && (peak != best && rest[k] < peak ==> values[rest[k]] < values[peak])
  {
    if rest != [] {
      var next := if values[rest[0]] > values[best] then rest[0] else best;
      TallestIsTallest(values, rest[1..], next);
      assert forall k :: 0 <= k < |rest[1..]| ==> rest[1..][k] == rest[k + 1];
    }
  }

  lemma PeakIsFirstTallest(values: seq<int>)
    requires Filled(values, 0) != []
    ensures var filled := Filled(values, 0);
            && Within(filled, |values|) && FirstTallest(values, Tallest(values, filled, filled[0]))
  {
    FilledIncrease(values, 0);
    FilledAreNonEmpty(values, 0);
    var filled := Filled(values, 0);
    var peak := Tallest(values, filled, filled[0]);
    TallestIsTallest(values, filled, filled[0]);
    assert filled[0] in filled;
    forall k | NonEmpty(values, k)
      ensures values[k] <= values[peak] && (k < peak ==> values[k] < values[peak])
    {
      assert k in filled;
    }
    forall k: nat | k < |values| && values[k] <= 0 ensures values[k] < values[peak] {
    }
  }

  lemma LastFilledIsLatest(values: seq<int>)
    requires Filled(values, 0) != []
    ensures var filled := Filled(values, 0);
            Latest(values, filled[|filled| - 1])
  {
    FilledIncrease(values, 0);
    FilledAreNonEmpty(values, 0);
    var filled := Filled(values, 0);
    assert filled[|filled| - 1] in filled;
    forall k | filled[|filled| - 1] < k < |values| ensures values[k] <= 0 {
      assert NonEmpty(values, k) ==> k in filled;
    }
  }

  lemma AllFitMeansEveryLabelFits(values: seq<int>, slot: real, widths: seq<real>)
    requires |widths| == |values|
    ensures Within(Filled(values, 0), |values|)
    ensures AllFit(Filled(values, 0), widths, slot) <==> EveryLabelFits(values, slot, widths)
  {
    FilledIncrease(values, 0);
    FilledAreNonEmpty(values, 0);
    var filled := Filled(values, 0);
    forall k | 0 <= k < |filled| ensures NonEmpty(values, filled[k]) {
      assert filled[k] in filled;
    }
  }

  lemma WithinReachIff(width: real, slot: real, d: int)
    requires slot > 0.0
    ensures d <= Reach(width, slot) <==> Times((d - 1) as real, slot) < width / 2.0
  {
    var q := width / 2.0 / slot;
    assert q * slot == width / 2.0;
    if (d - 1) as real < q {
      Below((d - 1) as real, q, slot);
    } else {
      Scaled(q, (d - 1) as real, slot);
    }
  }

  lemma CrowdedIff(values: seq<int>, slot: real, widths: seq<real>, latest: nat, k: nat)
    requires slot > 0.0 && |widths| == |values| && latest < |values|
    ensures CrowdedBy(values, slot, widths, latest, k) <==>
            k < latest && k >= latest - Reach(widths[latest], slot) && values[k] > values[latest]
  {
    WithinReachIff(widths[latest], slot, latest - k);
  }

  lemma ClearIff(values: seq<int>, slot: real, widths: seq<real>, latest: nat)
    requires slot > 0.0 && |widths| == |values| && latest < |values|
    ensures Clear(values, latest, Reach(widths[latest], slot)) <==>
            forall k: nat :: !CrowdedBy(values, slot, widths, latest, k)
  {
    forall k: nat
      ensures CrowdedBy(values, slot, widths, latest, k) <==>
              k < latest && k >= latest - Reach(widths[latest], slot) && values[k] > values[latest]
    {
      CrowdedIff(values, slot, widths, latest, k);
    }
  }

  /**
   * Which bars get a value: every bar that is not empty when all labels fit; otherwise the first of the tallest, and
   * the latest unless a taller bar crowds it.
   */
  lemma LabelledIff(values: seq<int>, slot: real, widths: seq<real>, i: nat)
    requires slot > 0.0 && |widths| == |values|
    ensures i in BarLabelIndices(values, slot, widths) <==>
            && NonEmpty(values, i)
            && (|| EveryLabelFits(values, slot, widths)
                || FirstTallest(values, i)
                || (Latest(values, i) && forall k: nat :: !CrowdedBy(values, slot, widths, i, k)))
  {
    AllFitMeansEveryLabelFits(values, slot, widths);
    if EveryLabelFits(values, slot, widths) {
      FilledAreNonEmpty(values, 0);
    } else {
      ThinnedIff(values, slot, widths, i);
    }
  }

  lemma ThinnedIff(values: seq<int>, slot: real, widths: seq<real>, i: nat)
    requires slot > 0.0 && |widths| == |values| && !EveryLabelFits(values, slot, widths)
    ensures i in BarLabelIndices(values, slot, widths) <==>
            FirstTallest(values, i) || (Latest(values, i) && forall k: nat :: !CrowdedBy(values, slot, widths, i, k))
  {
    AllFitMeansEveryLabelFits(values, slot, widths);
    var filled := Filled(values, 0);
    var peak, latest := Tallest(values, filled, filled[0]), filled[|filled| - 1];
    PeakIsFirstTallest(values);
    LastFilledIsLatest(values);
    ClearIff(values, slot, widths, latest);
    assert FirstTallest(values, i) <==> i == peak;
    assert Latest(values, i) <==> i == latest;
  }

  // ----- What printed values keep clear of -----

  function BarWidth(slot: real): real {
    var width := if 0.68 * slot < 44.0 then 0.68 * slot else 44.0;
    if width > 2.0 then width else 2.0
  }

  /** A bar takes 68 of 100 parts of its slot, at most 44 pixels and at least 2. */
  lemma WidthOfBar(slot: real)
    ensures 2.0 <= BarWidth(slot) <= 44.0
    ensures 2.0 <= 0.68 * slot <= 44.0 ==> BarWidth(slot) == 0.68 * slot
    ensures 0.68 * slot < 2.0 ==> BarWidth(slot) == 2.0
    ensures 0.68 * slot > 44.0 ==> BarWidth(slot) == 44.0
  {
  }

  /** No horizontal overlap between two stretches given by their middles and widths. */
  predicate Beside(c: real, width: real, d: real, other: real) {
    c + width / 2.0 <= d - other / 2.0 || d + other / 2.0 <= c - width / 2.0
  }

  predicate Inside(x: real, middle: real, width: real) {
    middle - x < 0.5 * width && x - middle < 0.5 * width
  }

  /** Two stretches lie beside each other exactly when no point is inside both. */
  lemma BesideIff(c: real, width: real, d: real, other: real)
    requires width > 0.0 && other > 0.0
    ensures Beside(c, width, d, other) <==> forall x: real :: !(Inside(x, c, width) && Inside(x, d, other))
  {
    if !Beside(c, width, d, other) {
      var from := if c - width / 2.0 > d - other / 2.0 then c - width / 2.0 else d - other / 2.0;
      var to := if c + width / 2.0 < d + other / 2.0 then c + width / 2.0 else d + other / 2.0;
      assert from < to;
      var x := (from + to) / 2.0;
      assert Inside(x, c, width) && Inside(x, d, other);
    }
  }

  lemma CentersAtLeast(left: real, slot: real, i: int, j: int)
    requires slot > 0.0 && i < j
    ensures CategoryAxis.Center(left, slot, j) - CategoryAxis.Center(left, slot, i)
            >= Times((j - i - 1) as real, slot) + slot >= slot
  {
    CategoryAxis.CentersApart(left, slot, i, j, j - i);
    assert Times((j - i) as real, slot) == Times((j - i - 1) as real, slot) + slot;
  }

  /** When all labels fit, neighbouring labels leave at least 4 pixels between them. */
  lemma FittingLabelsKeepApart(values: seq<int>, slot: real, widths: seq<real>, left: real, i: nat, j: nat)
    requires slot > 0.0 && |widths| == |values| && EveryLabelFits(values, slot, widths)
    requires i < j && NonEmpty(values, i) && NonEmpty(values, j)
    ensures CategoryAxis.Center(left, slot, i) + widths[i] / 2.0 + 4.0
            <= CategoryAxis.Center(left, slot, j) - widths[j] / 2.0
  {
    CentersAtLeast(left, slot, i, j);
  }

  /** No bar taller than a labelled one reaches, left to right, into its label. */
  lemma TallerBarsStayClear(values: seq<int>, slot: real, widths: seq<real>, left: real, i: nat, k: nat)
    requires slot >= 1.0 && |widths| == |values|
    requires i < |values| && i in BarLabelIndices(values, slot, widths) && k < |values| && values[k] > values[i]
    ensures Beside(CategoryAxis.Center(left, slot, i), widths[i], CategoryAxis.Center(left, slot, k), BarWidth(slot))
  {
    LabelledIff(values, slot, widths, i);
    assert BarWidth(slot) <= 2.0 * slot && (slot >= 2.0 ==> BarWidth(slot) <= slot);
    if i < k {
      CentersAtLeast(left, slot, i, k);
    } else {
      CentersAtLeast(left, slot, k, i);
      if !EveryLabelFits(values, slot, widths) {
        assert !CrowdedBy(values, slot, widths, i, k);
      }
    }
  }

  /**
   * Two values that are printed without all fitting: they collide, left to right, exactly when the bars are closer
   * than half of both labels and nothing taller than the latest bar crowds it.
   */
  lemma ThinnedLabelsCollideIff(values: seq<int>, slot: real, widths: seq<real>, left: real, peak: nat, latest: nat)
    requires slot > 0.0 && |widths| == |values| && !EveryLabelFits(values, slot, widths)
    requires FirstTallest(values, peak) && Latest(values, latest) && peak < latest
    requires widths[peak] >= 0.0 && widths[latest] >= 0.0
    ensures (&& peak in BarLabelIndices(values, slot, widths) && latest in BarLabelIndices(values, slot, widths)
             && !Beside(CategoryAxis.Center(left, slot, peak), widths[peak], CategoryAxis.Center(left, slot, latest),
                        widths[latest]))
            <==>
            (&& Times((latest - peak) as real, slot) < (widths[peak] + widths[latest]) / 2.0
             && forall k: nat :: !CrowdedBy(values, slot, widths, latest, k))
  {
    LabelledIff(values, slot, widths, peak);
    LabelledIff(values, slot, widths, latest);
    CenterDistance(left, slot, peak, latest);
    Below(0.0, (latest - peak) as real, slot);
  }

  lemma CenterDistance(left: real, slot: real, i: int, j: int)
    ensures CategoryAxis.Center(left, slot, j) == CategoryAxis.Center(left, slot, i) + Times((j - i) as real, slot)
  {
    assert slot * (j as real + 0.5) - slot * (i as real + 0.5) == (j - i) as real * slot;
  }

  /**
   * Two equally tall bars in narrow slots both get their value printed, at one height, and the two run into each other.
   */
  lemma TiedLabelsCollide(left: real)
    ensures var width := CategoryAxis.TextWidth("50");
            && BarLabelIndices([50, 50], 10.0, [width, width]) == {0, 1}
            && !Beside(CategoryAxis.Center(left, 10.0, 0), width, CategoryAxis.Center(left, 10.0, 1), width)
  {
    var width := CategoryAxis.TextWidth("50");
    assert width == 13.2;
    var values, widths := [50, 50], [width, width];
    assert NonEmpty(values, 0);
    LabelledIff(values, 10.0, widths, 0);
    LabelledIff(values, 10.0, widths, 1);
    forall i: nat | i >= 2 ensures i !in BarLabelIndices(values, 10.0, widths) {
      LabelledIff(values, 10.0, widths, i);
    }
  }
}
