/** Labels under a chart: thinned so that they do not collide, and never gone for long. */
module CategoryAxis {
  import opened Text
  import opened NiceScale

  /** Approximate advance of one figure, in pixels. */
  const LABEL_CHAR_PX := 6.6

  function TextWidth(text: string): (w: real)
    ensures w >= 0.0
  {
    |text| as real * LABEL_CHAR_PX
  }

  /** The middle of a category's slot, in pixels from the plot's left edge. */
  function Center(left: real, slot: real, index: int): real {
    left + slot * (index as real + 0.5)
  }

  lemma CentersApart(left: real, slot: real, i: int, j: int, k: int)
    requires slot > 0.0 && k <= j - i
    ensures Center(left, slot, j) - Center(left, slot, i) >= Times(k as real, slot)
  {
    assert Center(left, slot, j) - Center(left, slot, i) == slot * (j - i) as real;
    Scaled(k as real, (j - i) as real, slot);
  }

  /** In a plot of n slots the first middle is as far from the left edge as the last is from the right one. */
  lemma CentersMirror(left: real, slot: real, n: nat, index: nat)
    requires index < n
    ensures Center(left, slot, index) - left == left + Times(n as real, slot) - Center(left, slot, n - 1 - index)
  {
    var k, rest := index as real + 0.5, (n - 1 - index) as real + 0.5;
    assert k + rest == n as real;
    assert slot * k + slot * rest == slot * (k + rest);
  }

  // ----- Category axis -----

  datatype AxisLabel = AxisLabel(text: string, year: Option<string>)

  function WidestText(labels: seq<AxisLabel>): (w: real)
    ensures w >= 0.0
  {
    if labels == [] then 0.0
    else
      var rest := WidestText(labels[1..]);
      if TextWidth(labels[0].text) > rest then TextWidth(labels[0].text) else rest
  }

  lemma {:induction false} WidestIsWidest(labels: seq<AxisLabel>, i: nat)
    requires i < |labels|
    ensures TextWidth(labels[i].text) <= WidestText(labels)
  {
    if i > 0 {
      WidestIsWidest(labels[1..], i - 1);
    }
  }

  /** How many slots a label needs, with 12 pixels to spare. */
  function Every(labels: seq<AxisLabel>, slot: real): (every: int)
    requires slot > 0.0
    ensures every >= 1
  {
    var n := Ceiling((WidestText(labels) + 12.0) / slot);
    if n > 1 then n else 1
  }

  predicate OpensYear(labels: seq<AxisLabel>, i: int) {
    0 <= i < |labels| && labels[i].year.Some?
  }

  /** Positions from `from` on whose label opens a year. */
  function YearStarts(labels: seq<AxisLabel>, from: nat): (starts: seq<nat>)
    requires from <= |labels|
    decreases |labels| - from
  {
    if from == |labels| then []
    else (if labels[from].year.Some? then [from] else []) + YearStarts(labels, from + 1)
  }

  /** A year start too close to the next one yields to it. */
  function Kept(starts: seq<nat>, every: int): seq<nat> {
    if starts == [] then []
    else
      (if |starts| == 1 || starts[1] - starts[0] >= every then [starts[0]] else []) + Kept(starts[1..], every)
  }

  function KeptYearStarts(labels: seq<AxisLabel>, slot: real): seq<nat>
    requires slot > 0.0
  {
    Kept(YearStarts(labels, 0), Every(labels, slot))
  }

  predicate FarFromAll(starts: seq<nat>, index: int, every: int) {
    forall s :: s in starts ==> Distance(s, index) >= every
  }

  function Distance(i: int, j: int): nat {
    if i <= j then j - i else i - j
  }

  predicate Shown(labels: seq<AxisLabel>, slot: real, index: nat)
    requires slot > 0.0 && index < |labels|
  {
    var every, starts := Every(labels, slot), KeptYearStarts(labels, slot);
    index in starts || ((|labels| - 1 - index) % every == 0 && FarFromAll(starts, index, every))
  }

  predicate Increasing(starts: seq<nat>) {
    forall k, l :: 0 <= k < l < |starts| ==> starts[k] < starts[l]
  }

  lemma {:induction false} YearStartsAreAll(labels: seq<AxisLabel>, from: nat)
    requires from <= |labels|
    ensures forall i :: i in YearStarts(labels, from) <==> from <= i && OpensYear(labels, i)
    ensures Increasing(YearStarts(labels, from))
    decreases |labels| - from
  {
    if from < |labels| {
      YearStartsAreAll(labels, from + 1);
      var rest := YearStarts(labels, from + 1);
      assert forall k :: 0 <= k < |rest| ==> rest[k] in rest;
    }
  }

  predicate ClearAfter(starts: seq<nat>, every: int, i: nat) {
    forall j :: j in starts && j > i ==> j - i >= every
  }

  /** Kept are the starts that no later start is too close to. */
  lemma {:induction false} KeptAreClear(starts: seq<nat>, every: int, i: nat)
    requires Increasing(starts)
    ensures i in Kept(starts, every) <==> i in starts && ClearAfter(starts, every, i)
  {
    if starts != [] {
      var rest := starts[1..];
      KeptAreClear(rest, every, i);
      FirstIsLeast(starts);
      if i == starts[0] {
        assert i !in rest;
        if |starts| > 1 {
          FirstIsLeast(rest);
          assert starts[1] in starts;
        }
      }
    }
  }

  lemma FirstIsLeast(starts: seq<nat>)
    requires Increasing(starts) && starts != []
    ensures forall j :: j in starts <==> j == starts[0] || j in starts[1..]
    ensures forall j :: j in starts[1..] ==> j > starts[0]
  {
    assert starts == [starts[0]] + starts[1..];
  }

  /** A year start keeps its year exactly when no later one opens within a label's width of it. */
  lemma YearStartKeptIffClear(labels: seq<AxisLabel>, slot: real, i: nat)
    requires slot > 0.0
    ensures i in KeptYearStarts(labels, slot) <==>
            OpensYear(labels, i) && forall j :: OpensYear(labels, j) && j > i ==> j - i >= Every(labels, slot)
  {
    YearStartsAreAll(labels, 0);
    KeptAreClear(YearStarts(labels, 0), Every(labels, slot), i);
    forall j: int | OpensYear(labels, j) ensures j in YearStarts(labels, 0) {
    }
  }

  lemma {:induction false} LastStartIsKept(starts: seq<nat>, every: int)
    requires starts != []
    ensures starts[|starts| - 1] in Kept(starts, every)
  {
    if |starts| > 1 {
      LastStartIsKept(starts[1..], every);
    }
  }

  /** Any two labels shown are at least `every` slots apart. */
  lemma ShownAreApart(labels: seq<AxisLabel>, slot: real, i: nat, j: nat)
    requires slot > 0.0 && i < j < |labels| && Shown(labels, slot, i) && Shown(labels, slot, j)
    ensures j - i >= Every(labels, slot)
  {
    var every, starts := Every(labels, slot), KeptYearStarts(labels, slot);
    if i in starts && j in starts {
      YearStartKeptIffClear(labels, slot, i);
      YearStartKeptIffClear(labels, slot, j);
    } else if i !in starts && j !in starts {
      MultiplesAreApart(|labels| - 1 - j, |labels| - 1 - i, every);
    } else {
      assert Distance(i, j) == Distance(j, i) == j - i;
    }
  }

  lemma MultiplesAreApart(a: int, b: int, m: int)
    requires m > 0 && a % m == 0 && b % m == 0 && a < b
    ensures b - a >= m
  {
    var p, q := a / m, b / m;
    assert a == m * p && b == m * q;
    assert q - p >= 1;
  }

  lemma CeilingCovers(width: real, slot: real, n: int)
    requires slot > 0.0 && n >= Ceiling(width / slot)
    ensures Times(n as real, slot) >= width
  {
    var q := width / slot;
    assert q * slot == width;
    Scaled(q, n as real, slot);
  }

  lemma EveryFits(labels: seq<AxisLabel>, slot: real)
    requires slot > 0.0
    ensures Times(Every(labels, slot) as real, slot) >= WidestText(labels) + 12.0
  {
    CeilingCovers(WidestText(labels) + 12.0, slot, Every(labels, slot));
  }

  /** No fewer slots would do: with one slot less, the widest text and its 12 pixels do not fit. */
  lemma EveryIsLeast(labels: seq<AxisLabel>, slot: real, n: int)
    requires slot > 0.0 && 1 <= n && Times(n as real, slot) >= WidestText(labels) + 12.0
    ensures Every(labels, slot) <= n
  {
    CeilingIsLeast(WidestText(labels) + 12.0, slot, n);
  }

  lemma CeilingIsLeast(width: real, slot: real, n: int)
    requires slot > 0.0 && Times(n as real, slot) >= width
    ensures Ceiling(width / slot) <= n
  {
    var q := width / slot;
    assert q * slot == width;
    if n < Ceiling(q) {
      Below(n as real, q, slot);
    }
  }

  /** Some label is as wide as the widest; with none the width is nothing. */
  lemma {:induction false} WidestIsReached(labels: seq<AxisLabel>)
    ensures labels == [] ==> WidestText(labels) == 0.0
    ensures WidestText(labels) > 0.0 ==>
              exists i :: 0 <= i < |labels| && TextWidth(labels[i].text) == WidestText(labels)
  {
    if labels != [] {
      WidestIsReached(labels[1..]);
      if WidestText(labels[1..]) == WidestText(labels) > 0.0 {
        var i :| 0 <= i < |labels[1..]| && TextWidth(labels[1..][i].text) == WidestText(labels);
        assert labels[i + 1] == labels[1..][i];
      } else {
        assert TextWidth(labels[0].text) == WidestText(labels);
      }
    }
  }

  /** A text is 6.6 pixels wide for each of its characters. */
  lemma WidthOfText(text: string, c: char)
    ensures TextWidth("") == 0.0 && TextWidth(text + [c]) == TextWidth(text) + 6.6
  {
  }

  /** Keeps its year: it opens one, and no later label within `every` slots does. */
  ghost predicate KeepsYear(labels: seq<AxisLabel>, slot: real, i: int)
    requires slot > 0.0
  {
    OpensYear(labels, i) && forall j :: OpensYear(labels, j) && j > i ==> j - i >= Every(labels, slot)
  }

  /**
   * A label is shown exactly when it keeps its year, or when it stands a whole number of `every` slots before the
   * latest and every label that keeps its year is at least `every` slots away.
   */
  lemma ShownIff(labels: seq<AxisLabel>, slot: real, index: nat)
    requires slot > 0.0 && index < |labels|
    ensures Shown(labels, slot, index) <==>
            || KeepsYear(labels, slot, index)
            || ((|labels| - 1 - index) % Every(labels, slot) == 0
                && forall s :: KeepsYear(labels, slot, s) ==>
                     s - index >= Every(labels, slot) || index - s >= Every(labels, slot))
  {
    var every, starts := Every(labels, slot), KeptYearStarts(labels, slot);
    forall s: nat ensures s in starts <==> KeepsYear(labels, slot, s) {
      YearStartKeptIffClear(labels, slot, s);
    }
    forall s | KeepsYear(labels, slot, s)
      ensures Distance(s, index) >= every <==> s - index >= every || index - s >= every
    {
    }
  }

  /** Before they are clamped to the edges, the texts of any two labels shown leave 12 pixels between them. */
  lemma ShownTextsDoNotCollide(labels: seq<AxisLabel>, left: real, slot: real, i: nat, j: nat)
    requires slot > 0.0 && i < j < |labels| && Shown(labels, slot, i) && Shown(labels, slot, j)
    ensures Center(left, slot, i) + TextWidth(labels[i].text) / 2.0 + 12.0
            <= Center(left, slot, j) - TextWidth(labels[j].text) / 2.0
  {
    ShownAreApart(labels, slot, i, j);
    EveryFits(labels, slot);
    CentersApart(left, slot, i, j, Every(labels, slot));
    WidestIsWidest(labels, i);
    WidestIsWidest(labels, j);
  }

  /** The last label that opens a year is shown, with its year. */
  lemma LastYearStartIsShown(labels: seq<AxisLabel>, slot: real, i: nat)
    requires slot > 0.0 && OpensYear(labels, i) && forall j :: OpensYear(labels, j) ==> j <= i
    ensures i in KeptYearStarts(labels, slot) && Shown(labels, slot, i)
  {
    YearStartKeptIffClear(labels, slot, i);
  }

  /** No index is further than `2 * (every - 1)` slots from a label shown. */
  lemma NeverFarFromALabel(labels: seq<AxisLabel>, slot: real, index: nat) returns (shown: nat)
    requires slot > 0.0 && index < |labels|
    ensures shown < |labels| && Shown(labels, slot, shown) && Distance(shown, index) <= 2 * (Every(labels, slot) - 1)
  {
    var every, starts := Every(labels, slot), KeptYearStarts(labels, slot);
    shown := index + (|labels| - 1 - index) % every;
    Remainder(|labels| - 1 - index, every);
    if !FarFromAll(starts, shown, every) {
      var start :| start in starts && Distance(start, shown) < every;
      YearStartKeptIffClear(labels, slot, start);
      shown := start;
    }
  }

  lemma {:induction false} Remainder(a: nat, m: int)
    requires m > 0
    ensures a % m <= a && (a - a % m) % m == 0
  {
    if a >= m {
      Remainder(a - m, m);
      ModShift(a - m, m);
      ModShift((a - m) - (a - m) % m, m);
    }
  }

  lemma ModShift(a: int, m: int)
    requires m > 0
    ensures (a + m) % m == a % m
  {
    var k := (a + m) / m - a / m - 1;
    assert m * k == a % m - (a + m) % m;
    SmallMultiple(m, k);
  }

  lemma SmallMultiple(m: int, k: int)
    requires -m < m * k < m
    ensures k == 0
  {
  }

  /** The latest label is shown exactly when it opens a year or no year opens within `every` slots of it. */
  lemma LatestIsShownIff(labels: seq<AxisLabel>, slot: real)
    requires slot > 0.0 && labels != []
    ensures var latest := |labels| - 1;
            Shown(labels, slot, latest) <==>
            OpensYear(labels, latest) || forall j :: OpensYear(labels, j) ==> latest - j >= Every(labels, slot)
  {
    var latest, every, starts := |labels| - 1, Every(labels, slot), YearStarts(labels, 0);
    YearStartsAreAll(labels, 0);
    YearStartKeptIffClear(labels, slot, latest);
    forall j | j in Kept(starts, every) ensures OpensYear(labels, j) {
      YearStartKeptIffClear(labels, slot, j);
    }
    if starts != [] {
      LastStartIsKept(starts, every);
      var last := starts[|starts| - 1];
      forall j: nat | OpensYear(labels, j) ensures j <= last {
        assert j in starts;
      }
      assert OpensYear(labels, last);
    }
  }

  /** With two months in narrow slots, the year that opens on the first leaves no room for the latest label. */
  lemma LatestLabelCanVanish()
    ensures !Shown([AxisLabel("ene", Some("2026")), AxisLabel("feb", None)], 20.0, 1)
  {
    var labels := [AxisLabel("ene", Some("2026")), AxisLabel("feb", None)];
    WidestIsWidest(labels, 0);
    EveryFits(labels, 20.0);
    assert OpensYear(labels, 0) && !OpensYear(labels, 1);
    LatestIsShownIff(labels, 20.0);
  }
}
