/**
 * The data side of the two chart builders: which samples become chart
 * entries (`plotFrequencyResponse`, `plotTransientResponse`) and how an
 * x-axis value is labelled (the two `ValueFormatter`s). Doubles are `real`;
 * `log10`, `pow`, the narrowing to `Float` and the `%.2f`/`%.2e` renderings
 * are not interpreted and arrive as function parameters.
 */
module Plot {
  import opened Text

  /** A chart point. */
  datatype Entry = Entry(x: real, y: real)

  /** The entries built for a chart, or the `IllegalArgumentException` that `require` throws. */
  datatype Plotted = Entries(entries: seq<Entry>) | IllegalArgument

  /** Frequency sweeps keep strictly positive frequencies; transients keep non-negative times. */
  datatype Axis = Frequency | Time

  predicate Keeps(axis: Axis, x: real) {
    match axis
    case Frequency => x > 0.0
    case Time => x >= 0.0
  }

  /* ------------------------------------------------------------------ */
  /* Entry filtering                                                     */
  /* ------------------------------------------------------------------ */

  /** The indices of `xs` whose value the axis keeps, in index order. */
  function KeptIndices(xs: seq<real>, axis: Axis): (r: seq<nat>)
    ensures |r| <= |xs|
  {
    if xs == [] then []
    else KeptIndices(xs[..|xs| - 1], axis) + (if Keeps(axis, xs[|xs| - 1]) then [|xs| - 1] else [])
  }

  /**
   * The kept indices are exactly the indices whose value passes the axis
   * test, each once and in increasing order.
   */
  lemma {:induction false} KeptIndicesExact(xs: seq<real>, axis: Axis)
    ensures forall k :: 0 <= k < |KeptIndices(xs, axis)| ==>
      KeptIndices(xs, axis)[k] < |xs| && Keeps(axis, xs[KeptIndices(xs, axis)[k]])
    ensures forall k1, k2 :: 0 <= k1 < k2 < |KeptIndices(xs, axis)| ==>
      KeptIndices(xs, axis)[k1] < KeptIndices(xs, axis)[k2]
    ensures forall i :: 0 <= i < |xs| && Keeps(axis, xs[i]) ==> i in KeptIndices(xs, axis)
    decreases |xs|
  {
    if xs != [] {
      var last := |xs| - 1;
      var init := xs[..last];
      KeptIndicesExact(init, axis);
      var a := KeptIndices(init, axis);
      var r := KeptIndices(xs, axis);
      assert r == a + (if Keeps(axis, xs[last]) then [last] else []);
      assert forall k :: 0 <= k < |a| ==> r[k] == a[k] && a[k] < last && xs[a[k]] == init[a[k]];
      assert forall i :: 0 <= i < last ==> xs[i] == init[i];
    }
  }

  /**
   * The entries a chart receives: for each sample the axis keeps, in order,
   * the transformed x value paired with the sample's y value.
   */
  function Points(xs: seq<real>, ys: seq<real>, axis: Axis, fx: real -> real): (r: seq<Entry>)
    requires |xs| == |ys|
    ensures |r| == |KeptIndices(xs, axis)|
  {
    if xs == [] then []
    else
      var last := |xs| - 1;
      Points(xs[..last], ys[..last], axis, fx)
        + (if Keeps(axis, xs[last]) then [Entry(fx(xs[last]), ys[last])] else [])
  }

  /** Entry `k` comes from the `k`-th kept index: its x is the transformed x there, its y the y there. */
  lemma {:induction false} PointsFromKept(xs: seq<real>, ys: seq<real>, axis: Axis, fx: real -> real)
    requires |xs| == |ys|
    ensures forall k :: 0 <= k < |Points(xs, ys, axis, fx)| ==>
      KeptIndices(xs, axis)[k] < |xs|
      && Points(xs, ys, axis, fx)[k] == Entry(fx(xs[KeptIndices(xs, axis)[k]]), ys[KeptIndices(xs, axis)[k]])
    decreases |xs|
  {
    if xs != [] {
      var last := |xs| - 1;
      PointsFromKept(xs[..last], ys[..last], axis, fx);
      KeptIndicesExact(xs[..last], axis);
      var a := KeptIndices(xs[..last], axis);
      assert forall k :: 0 <= k < |a| ==> a[k] < last && xs[..last][a[k]] == xs[a[k]] && ys[..last][a[k]] == ys[a[k]];
    }
  }

  /**
   * The loop of both chart builders: walks the samples in index order and
   * appends an entry for each one the axis keeps.
   */
  method CollectEntries(xs: seq<real>, ys: seq<real>, axis: Axis, fx: real -> real) returns (entries: seq<Entry>)
    requires |xs| == |ys|
    ensures entries == Points(xs, ys, axis, fx)
  {
    entries := [];
    for i := 0 to |xs|
      invariant entries == Points(xs[..i], ys[..i], axis, fx)
    {
      assert xs[..i + 1][..i] == xs[..i] && ys[..i + 1][..i] == ys[..i];
      var v := xs[i];
      if Keeps(axis, v) {
        entries := entries + [Entry(fx(v), ys[i])];
      }
    }
    assert xs[..|xs|] == xs && ys[..|ys|] == ys;
  }

  /**
   * `plotFrequencyResponse`, data part: the two arrays must have the same
   * length; each strictly positive frequency gives the entry `(log10 f, y)`.
   */
  method FrequencyEntries(freqHz: seq<real>, y: seq<real>, log10: real -> real) returns (r: Plotted)
    ensures r.IllegalArgument? <==> |freqHz| != |y|
    ensures r.Entries? ==> r.entries == Points(freqHz, y, Frequency, log10)
  {
    if |freqHz| != |y| {
      return IllegalArgument;
    }
    var entries := CollectEntries(freqHz, y, Frequency, log10);
    r := Entries(entries);
  }

  function Identity(x: real): real { x }

  /**
   * `plotTransientResponse`, data part: the two arrays must have the same
   * length; each non-negative time gives the entry `(t, y)`.
   */
  method TransientEntries(timeSec: seq<real>, y: seq<real>) returns (r: Plotted)
    ensures r.IllegalArgument? <==> |timeSec| != |y|
    ensures r.Entries? ==> r.entries == Points(timeSec, y, Time, Identity)
  {
    if |timeSec| != |y| {
      return IllegalArgument;
    }
    var entries := CollectEntries(timeSec, y, Time, Identity);
    r := Entries(entries);
  }

  /** Frequency entries: only strictly positive frequencies, in order, dropped rather than clamped. */
  lemma FrequencyPointsSpec(freqHz: seq<real>, y: seq<real>, log10: real -> real)
    requires |freqHz| == |y|
    ensures |Points(freqHz, y, Frequency, log10)| <= |freqHz|
    ensures forall i :: 0 <= i < |freqHz| ==> (freqHz[i] > 0.0 <==> i in KeptIndices(freqHz, Frequency))
    ensures forall k :: 0 <= k < |Points(freqHz, y, Frequency, log10)| ==>
      KeptIndices(freqHz, Frequency)[k] < |freqHz|
      && freqHz[KeptIndices(freqHz, Frequency)[k]] > 0.0
      && Points(freqHz, y, Frequency, log10)[k]
        == Entry(log10(freqHz[KeptIndices(freqHz, Frequency)[k]]), y[KeptIndices(freqHz, Frequency)[k]])
  {
    KeptIndicesExact(freqHz, Frequency);
    PointsFromKept(freqHz, y, Frequency, log10);
  }

  /** Transient entries: only non-negative times, in order, with x the time itself. */
  lemma TransientPointsSpec(timeSec: seq<real>, y: seq<real>)
    requires |timeSec| == |y|
    ensures |Points(timeSec, y, Time, Identity)| <= |timeSec|
    ensures forall i :: 0 <= i < |timeSec| ==> (timeSec[i] >= 0.0 <==> i in KeptIndices(timeSec, Time))
    ensures forall k :: 0 <= k < |Points(timeSec, y, Time, Identity)| ==>
      KeptIndices(timeSec, Time)[k] < |timeSec|
      && timeSec[KeptIndices(timeSec, Time)[k]] >= 0.0
      && Points(timeSec, y, Time, Identity)[k]
        == Entry(timeSec[KeptIndices(timeSec, Time)[k]], y[KeptIndices(timeSec, Time)[k]])
  {
    KeptIndicesExact(timeSec, Time);
    PointsFromKept(timeSec, y, Time, Identity);
  }

  /** When every time is non-negative, nothing is dropped and the entries are the samples themselves. */
  lemma {:induction false} AllTimesKept(timeSec: seq<real>, y: seq<real>)
    requires |timeSec| == |y|
    requires forall i :: 0 <= i < |timeSec| ==> timeSec[i] >= 0.0
    ensures Points(timeSec, y, Time, Identity) == seq(|timeSec|, i requires 0 <= i < |timeSec| => Entry(timeSec[i], y[i]))
    decreases |timeSec|
  {
    if timeSec != [] {
      var last := |timeSec| - 1;
      AllTimesKept(timeSec[..last], y[..last]);
    }
  }

  /* ------------------------------------------------------------------ */
  /* Double.toInt                                                        */
  /* ------------------------------------------------------------------ */

  const INT_MIN: int := -0x8000_0000
  const INT_MAX: int := 0x7fff_ffff

  /** Rounding toward zero. */
  function Truncate(x: real): (t: int)
    ensures x >= 0.0 ==> 0.0 <= t as real <= x < t as real + 1.0
    ensures x < 0.0 ==> t as real - 1.0 < x <= t as real <= 0.0
  {
    if x >= 0.0 then x.Floor else -((-x).Floor)
  }

  /** Kotlin's `Double.toInt()`: rounds toward zero and saturates at the `Int` range. */
  function DoubleToInt(x: real): (r: int)
    ensures INT_MIN <= r <= INT_MAX
    ensures INT_MIN <= Truncate(x) <= INT_MAX ==> r == Truncate(x)
    ensures Truncate(x) > INT_MAX ==> r == INT_MAX
    ensures Truncate(x) < INT_MIN ==> r == INT_MIN
  {
    var t := Truncate(x);
    if t > INT_MAX then INT_MAX else if t < INT_MIN then INT_MIN else t
  }

  /* ------------------------------------------------------------------ */
  /* Frequency axis labels                                               */
  /* ------------------------------------------------------------------ */

  datatype FreqUnit = GHz | MHz | KHz | Hz

  function FreqScale(u: FreqUnit): real {
    match u
    case GHz => 1e9
    case MHz => 1e6
    case KHz => 1e3
    case Hz => 1.0
  }

  function FreqSuffix(u: FreqUnit): string {
    match u
    case GHz => "GHz"
    case MHz => "MHz"
    case KHz => "kHz"
    case Hz => "Hz"
  }

  /** The first threshold of the chain that `hz` clears picks the unit; each unit holds one band. */
  function FreqUnitOf(hz: real): (u: FreqUnit)
    ensures u == GHz <==> hz >= 1e9
    ensures u == MHz <==> 1e6 <= hz < 1e9
    ensures u == KHz <==> 1e3 <= hz < 1e6
    ensures u == Hz <==> hz < 1e3
    ensures u != Hz ==> hz >= FreqScale(u)
  {
    if hz >= 1e9 then GHz
    else if hz >= 1e6 then MHz
    else if hz >= 1e3 then KHz
    else Hz
  }

  /** The number shown: the frequency in the chosen unit, truncated by `toInt()`. */
  function FrequencyCount(hz: real): int {
    DoubleToInt(hz / FreqScale(FreqUnitOf(hz)))
  }

  /** The label text: the decimal count followed by the unit. */
  function FrequencyLabel(hz: real): string {
    DecimalString(FrequencyCount(hz)) + FreqSuffix(FreqUnitOf(hz))
  }

  /** The frequency formatter: the axis carries `log10 f`, and `10^value` is labelled. */
  function FrequencyAxisLabel(value: real, pow10: real -> real): string {
    FrequencyLabel(pow10(value))
  }

  /**
   * Below GHz, a frequency of at least 1 kHz shows a count from 1 to 999
   * in its unit; in every unit a non-negative frequency shows the whole
   * number of units it holds, short of saturation.
   */
  lemma FrequencyCountBounds(hz: real)
    ensures 1e3 <= hz < 1e9 ==> 1 <= FrequencyCount(hz) <= 999
    ensures 1e9 <= hz ==> 1 <= FrequencyCount(hz)
    ensures 0.0 <= hz && FrequencyCount(hz) < INT_MAX ==>
      FrequencyCount(hz) as real * FreqScale(FreqUnitOf(hz)) <= hz
      < (FrequencyCount(hz) + 1) as real * FreqScale(FreqUnitOf(hz))
  {
    var u := FreqUnitOf(hz);
    var q := hz / FreqScale(u);
    assert q * FreqScale(u) == hz;
    if 0.0 <= hz {
      assert 0.0 <= q;
      if Truncate(q) <= INT_MAX {
        assert FrequencyCount(hz) == Truncate(q);
      }
    }
  }

  /** The numeric part of a label reads back as the truncated count, and the label ends in `Hz`. */
  lemma FrequencyLabelReadsBack(hz: real)
    ensures var u := FreqUnitOf(hz); var l := FrequencyLabel(hz);
      |l| > |FreqSuffix(u)|
      && l[|l| - |FreqSuffix(u)|..] == FreqSuffix(u)
      && l[|l| - 2..] == "Hz"
      && IsDecimal(l[..|l| - |FreqSuffix(u)|])
      && ParseDecimal(l[..|l| - |FreqSuffix(u)|]) == FrequencyCount(hz)
  {
    var u := FreqUnitOf(hz);
    var d := DecimalString(FrequencyCount(hz));
    var l := FrequencyLabel(hz);
    assert l[..|l| - |FreqSuffix(u)|] == d;
    assert l[|l| - |FreqSuffix(u)|..] == FreqSuffix(u);
    assert l[|l| - 2..] == FreqSuffix(u)[|FreqSuffix(u)| - 2..];
    DecimalRoundTrip(FrequencyCount(hz));
  }

  /**
   * The formatter labels `10^value`: the label ends in `Hz`, and stripped of
   * its unit it reads back as the truncated count in that unit.
   */
  lemma FrequencyAxisLabelReadsBack(value: real, pow10: real -> real)
    ensures var hz := pow10(value); var u := FreqUnitOf(hz); var l := FrequencyAxisLabel(value, pow10);
      |l| > |FreqSuffix(u)|
      && l[|l| - 2..] == "Hz"
      && ParseDecimal(l[..|l| - |FreqSuffix(u)|]) == FrequencyCount(hz)
  {
    FrequencyLabelReadsBack(pow10(value));
  }

  lemma FrequencyLabelExamples()
    ensures FrequencyLabel(1.5e6) == "1MHz"
    ensures FrequencyLabel(999.0) == "999Hz"
    ensures FrequencyLabel(2.5e9) == "2GHz"
    ensures FrequencyLabel(20e3) == "20kHz"
  {
    assert FrequencyCount(1.5e6) == 1;
    assert FrequencyCount(999.0) == 999;
    assert FrequencyCount(2.5e9) == 2;
    assert FrequencyCount(20e3) == 20;
    assert Digits(999) == Digits(99) + ['9'];
    assert Digits(20) == Digits(2) + ['0'];
  }

  /* ------------------------------------------------------------------ */
  /* Time axis labels                                                    */
  /* ------------------------------------------------------------------ */

  datatype TimeUnit = Seconds | Millis | Micros | Nanos | Picos

  /** The smallest value a unit is used for. */
  function TimeThreshold(u: TimeUnit): real {
    match u
    case Seconds => 1.0
    case Millis => 1e-3
    case Micros => 1e-6
    case Nanos => 1e-9
    case Picos => 1e-12
  }

  /** The factor a value is multiplied by before it is printed in the unit. */
  function TimeScale(u: TimeUnit): (k: real)
    ensures TimeThreshold(u) * k == 1.0
  {
    match u
    case Seconds => 1.0
    case Millis => 1e3
    case Micros => 1e6
    case Nanos => 1e9
    case Picos => 1e12
  }

  /** The unit text after the number: the SI prefix symbol, a single `µ` for micro, then `s`. */
  function TimeSuffix(u: TimeUnit): (r: string)
    ensures 1 <= |r| <= 2 && r[|r| - 1] == 's'
    ensures |r| == 2 <==> u != Seconds
    ensures u == Micros ==> r[0] == '\U{B5}'
  {
    match u
    case Seconds => "s"
    case Millis => "ms"
    case Micros => "µs"
    case Nanos => "ns"
    case Picos => "ps"
  }

  /** The unit text as PlotUtils.kt:149 spells it: `Âµs`, the UTF-8 bytes of `µ` read as Latin-1. */
  function TimeSuffixAsWritten(u: TimeUnit): string {
    if u == Micros then "Âµs" else TimeSuffix(u)
  }

  /** The micro suffix as written renders as two characters before `s`, not as `µs`. */
  lemma MicroSuffixMisencoded()
    ensures TimeSuffixAsWritten(Micros) != TimeSuffix(Micros)
    ensures |TimeSuffixAsWritten(Micros)| == |TimeSuffix(Micros)| + 1
    ensures forall u :: u != Micros ==> TimeSuffixAsWritten(u) == TimeSuffix(u)
  {
    assert TimeSuffixAsWritten(Micros)[0] != TimeSuffix(Micros)[0];
  }

  /** The SI prefixes smallest to largest, as the chain is read from the bottom. */
  function NextLarger(u: TimeUnit): TimeUnit
    requires u != Seconds
  {
    match u
    case Millis => Seconds
    case Micros => Millis
    case Nanos => Micros
    case Picos => Nanos
  }

  /** What the time formatter prints: a scaled value with a unit, the literal `0`, or seconds in scientific notation. */
  datatype TimeLabel = Fixed(scaled: real, unit: TimeUnit) | Zero | Scientific(seconds: real)

  /**
   * The time formatter's `when` chain: the first threshold among 1, 1e-3,
   * 1e-6, 1e-9, 1e-12 that `v` clears picks the unit; below that, `0` for
   * `v <= 1e-18` and scientific seconds for the rest.
   */
  function TimeLabelOf(v: real): (l: TimeLabel)
    ensures l.Fixed? <==> v >= 1e-12
    ensures l.Zero? <==> v <= 1e-18
    ensures l.Scientific? <==> 1e-18 < v < 1e-12
    ensures l.Fixed? ==> v >= TimeThreshold(l.unit) && l.scaled == v * TimeScale(l.unit)
    ensures l.Fixed? && l.unit != Seconds ==> v < TimeThreshold(NextLarger(l.unit))
    ensures l.Scientific? ==> l.seconds == v
  {
    if v >= 1.0 then Fixed(v, Seconds)
    else if v >= 1e-3 then Fixed(v * 1e3, Millis)
    else if v >= 1e-6 then Fixed(v * 1e6, Micros)
    else if v >= 1e-9 then Fixed(v * 1e9, Nanos)
    else if v >= 1e-12 then Fixed(v * 1e12, Picos)
    else if v <= 1e-18 then Zero
    else Scientific(v)
  }

  /** The number printed before a prefixed unit lies in [1, 1000); in seconds it is at least 1. */
  lemma TimeLabelScaledRange(v: real)
    requires TimeLabelOf(v).Fixed?
    ensures 1.0 <= TimeLabelOf(v).scaled
    ensures TimeLabelOf(v).unit != Seconds ==> TimeLabelOf(v).scaled < 1000.0
  {
    var l := TimeLabelOf(v);
    var k := TimeScale(l.unit);
    assert TimeThreshold(l.unit) * k == 1.0;
    assert 0.0 < k;
    assert l.unit != Seconds ==> TimeThreshold(NextLarger(l.unit)) * k == 1000.0;
  }

  /** The label text; `fixed2` is `%.2f` and `sci2` is `%.2e`, neither interpreted. */
  function TimeLabelText(l: TimeLabel, fixed2: real -> string, sci2: real -> string): string {
    match l
    case Fixed(x, u) => fixed2(x) + " " + TimeSuffix(u)
    case Zero => "0"
    case Scientific(x) => sci2(x) + " s"
  }

  /**
   * The time formatter prints `0` exactly for values up to 1e-18; any other
   * label ends in its unit after a space: seconds from 1 upward and in the
   * scientific band, the prefixed unit of the bucket otherwise.
   */
  lemma TimeLabelTextUnit(v: real, fixed2: real -> string, sci2: real -> string)
    ensures var t := TimeLabelText(TimeLabelOf(v), fixed2, sci2);
      (t == "0" <==> v <= 1e-18)
      && (TimeLabelOf(v).Fixed? ==>
            var suffix := " " + TimeSuffix(TimeLabelOf(v).unit);
            |t| >= |suffix| && t[|t| - |suffix|..] == suffix)
      && (v >= 1.0 || 1e-18 < v < 1e-12 ==> |t| >= 2 && t[|t| - 2..] == " s")
  {
    var l := TimeLabelOf(v);
    var t := TimeLabelText(l, fixed2, sci2);
    match l
    case Fixed(x, u) =>
      var suffix := " " + TimeSuffix(u);
      assert t == fixed2(x) + suffix;
      assert t[|t| - |suffix|..] == suffix;
      assert |t| > 1;
    case Zero =>
    case Scientific(x) =>
      assert t == sci2(x) + " s";
      assert t[|t| - 2..] == " s";
  }

  lemma TimeLabelExamples()
    ensures TimeLabelOf(5e-7) == Fixed(500.0, Nanos)
    ensures TimeLabelOf(2.5) == Fixed(2.5, Seconds)
    ensures TimeLabelOf(0.0) == Zero && TimeLabelOf(-1.0) == Zero
    ensures TimeLabelOf(1e-15) == Scientific(1e-15)
  {
  }
}
