/**
  The radial layout of the aster plot (hello_world.js, lines 57-123), over
  exact reals.

  Angles are measured in turns (one turn is 2*pi radians), clockwise from
  twelve o'clock, as d3's pie and arc generators measure them. A point at
  angle `a` and signed distance `d` from the centre is the SVG point
  `(d * sin(2*pi*a), -d * cos(2*pi*a))`; trigonometry itself is not modelled.
 */
module AsterGeometry {
  import opened Wrappers

  /** A JavaScript number: a finite value or NaN. */
  datatype JsNumber = Num(v: real) | NaN

  /** JavaScript truthiness of an optional number: absent, `0` and `NaN` are falsy. */
  predicate Truthy(x: Option<JsNumber>) {
    x.Some? && x.value.Num? && x.value.v != 0.0
  }

  /** `x || d` on numbers. */
  function OrDefault(x: Option<JsNumber>, d: real): (r: real)
    ensures Truthy(x) ==> r == x.value.v
    ensures !Truthy(x) ==> r == d
  {
    if Truthy(x) then x.value.v else d
  }

  /** `s || d` on strings: the empty string is falsy. */
  function OrDefaultString(s: Option<string>, d: string): (r: string)
    ensures s.Some? && s.value != "" ==> r == s.value
    ensures s == None || s == Some("") ==> r == d
  {
    if s.Some? && s.value != "" then s.value else d
  }

  /** The three options of lines 4-20, as the host passes them in `config`. */
  datatype Config = Config(minRadius: Option<JsNumber>, maxRadius: Option<JsNumber>, color: Option<string>)

  const DefaultMinRadius: real := 30.0
  const DefaultColor: string := "#4CAF50"

  function Min(a: real, b: real): (m: real)
    ensures m <= a && m <= b && (m == a || m == b)
  {
    if a <= b then a else b
  }

  /** `config.minRadius || 30` (line 60). */
  function MinRadius(config: Config): (r: real)
    ensures Truthy(config.minRadius) ==> r == config.minRadius.value.v
    ensures !Truthy(config.minRadius) ==> r == DefaultMinRadius
  {
    OrDefault(config.minRadius, DefaultMinRadius)
  }

  /** `config.maxRadius || radius - 20`, with `radius = Math.min(width, height) / 2` (lines 59, 61). */
  function MaxRadius(config: Config, width: nat, height: nat): (r: real)
    ensures Truthy(config.maxRadius) ==> r == config.maxRadius.value.v
    ensures !Truthy(config.maxRadius) ==> r == Min(width as real, height as real) / 2.0 - 20.0
  {
    OrDefault(config.maxRadius, Min(width as real, height as real) / 2.0 - 20.0)
  }

  /** `config.color || "#4CAF50"` (line 62). */
  function Color(config: Config): (c: string)
    ensures c != ""
    ensures config.color.Some? && config.color.value != "" ==> c == config.color.value
    ensures config.color == None || config.color == Some("") ==> c == DefaultColor
  {
    OrDefaultString(config.color, DefaultColor)
  }

  /** A falsy or absent option falls back to its default; `0` is falsy. */
  lemma ZeroFallsBack(config: Config, width: nat, height: nat)
    requires config.minRadius in {None, Some(Num(0.0)), Some(NaN)}
    requires config.maxRadius in {None, Some(Num(0.0)), Some(NaN)}
    ensures MinRadius(config) == 30.0
    ensures MaxRadius(config, width, height) == Min(width as real, height as real) / 2.0 - 20.0
  {
  }

  // ---------------------------------------------------------------------
  // Rows and the pie layout
  // ---------------------------------------------------------------------

  /** One element of `plotData` (lines 87-90). */
  datatype PlotDatum = PlotDatum(labelText: string, value: JsNumber)

  /** A row of `data`, as the text of its cells by field name. */
  type Row = map<string, string>

  /** `data.map(d => ({label: text(d[dimName]), value: +text(d[measureName])}))`; `toNumber` is JavaScript's unary `+`. */
  function PlotData(rows: seq<Row>, dimName: string, measureName: string, toNumber: string -> JsNumber): (data: seq<PlotDatum>)
    requires forall i :: 0 <= i < |rows| ==> dimName in rows[i] && measureName in rows[i]
    ensures |data| == |rows|
    ensures forall i :: 0 <= i < |rows| ==> data[i] == PlotDatum(rows[i][dimName], toNumber(rows[i][measureName]))
  {
    if |rows| == 0 then []
    else [PlotDatum(rows[0][dimName], toNumber(rows[0][measureName]))] + PlotData(rows[1..], dimName, measureName, toNumber)
  }

  /**
    An element of `pie(plotData)`: the datum, the value the pie weighed it
    by, its position, and its angles in turns.
   */
  datatype PieArc = PieArc(data: PlotDatum, value: real, index: nat, startAngle: real, endAngle: real)

  /**
    What `d3.pie().value(1).sort(null)` does to `data[from..]`: every
    element weighs 1, the elements keep their order, and each arc begins
    where the previous one ended, `k` turns further on per unit of weight.
   */
  function PieFrom(data: seq<PlotDatum>, from: nat, a0: real, k: real): (arcs: seq<PieArc>)
    requires from <= |data|
    ensures |arcs| == |data| - from
    decreases |data| - from
  {
    if from == |data| then []
    else [PieArc(data[from], 1.0, from, a0, a0 + k)] + PieFrom(data, from + 1, a0 + k, k)
  }

  /** The pie over a full turn: the total weight is `|data|`, so a unit of weight is `1/|data|` of a turn. */
  function Pie(data: seq<PlotDatum>): (arcs: seq<PieArc>)
    ensures |arcs| == |data|
  {
    PieFrom(data, 0, 0.0, if |data| == 0 then 0.0 else 1.0 / |data| as real)
  }

  lemma {:induction false} PieFromAt(data: seq<PlotDatum>, from: nat, a0: real, k: real, i: nat)
    requires from <= i < |data|
    ensures var arc := PieFrom(data, from, a0, k)[i - from];
      && arc == PieArc(data[i], 1.0, i, a0 + (i - from) as real * k, a0 + (i - from + 1) as real * k)
    decreases i - from
  {
    if i > from {
      PieFromAt(data, from + 1, a0 + k, k, i);
      var m := (i - from - 1) as real;
      assert (m + 1.0) * k == k + m * k;
      assert (m + 2.0) * k == k + (m + 1.0) * k;
    }
  }

  /**
    One arc per row, in row order, carrying its row; every arc weighs 1 and
    arc `i` of `n` spans `[i/n, (i+1)/n)` of the turn, whatever the values.
   */
  lemma PieArcs(data: seq<PlotDatum>)
    ensures var arcs := Pie(data); var n := |data| as real;
      && |arcs| == |data|
      && forall i :: 0 <= i < |data| ==>
           && arcs[i].data == data[i] && arcs[i].index == i && arcs[i].value == 1.0
           && arcs[i].startAngle == i as real / n
           && arcs[i].endAngle == (i + 1) as real / n
  {
    var arcs := Pie(data);
    var n := |data| as real;
    forall i | 0 <= i < |data|
      ensures && arcs[i].data == data[i] && arcs[i].index == i && arcs[i].value == 1.0
              && arcs[i].startAngle == i as real / n
              && arcs[i].endAngle == (i + 1) as real / n
    {
      PieFromAt(data, 0, 0.0, 1.0 / n, i);
      assert i as real * (1.0 / n) == i as real / n;
      assert (i + 1) as real * (1.0 / n) == (i + 1) as real / n;
    }
  }

  /** Every arc spans `1/n` of the turn. */
  lemma PieSpans(data: seq<PlotDatum>)
    ensures var arcs := Pie(data);
      forall i :: 0 <= i < |arcs| ==> arcs[i].endAngle - arcs[i].startAngle == 1.0 / |data| as real
  {
    var arcs := Pie(data);
    PieArcs(data);
    var n := |data| as real;
    forall i | 0 <= i < |arcs| ensures arcs[i].endAngle - arcs[i].startAngle == 1.0 / n {
      assert (i + 1) as real / n == i as real / n + 1.0 / n;
    }
  }

  /** The angles depend on the number of rows only, never on labels or values. */
  lemma PieIgnoresValues(data1: seq<PlotDatum>, data2: seq<PlotDatum>)
    requires |data1| == |data2|
    ensures forall i :: 0 <= i < |data1| ==>
      Pie(data1)[i].startAngle == Pie(data2)[i].startAngle && Pie(data1)[i].endAngle == Pie(data2)[i].endAngle
  {
    PieArcs(data1);
    PieArcs(data2);
  }

  /** The arcs tile the turn: the first starts at 0, each starts where the previous ended, the last ends at 1. */
  lemma PieContiguous(data: seq<PlotDatum>)
    requires |data| > 0
    ensures var arcs := Pie(data);
      && arcs[0].startAngle == 0.0
      && arcs[|arcs| - 1].endAngle == 1.0
      && forall i :: 0 <= i < |arcs| - 1 ==> arcs[i].endAngle == arcs[i + 1].startAngle
  {
    PieArcs(data);
  }

  /** Every angle of the turn lies in exactly one arc. */
  lemma PiePartition(data: seq<PlotDatum>, t: real)
    requires |data| > 0 && 0.0 <= t < 1.0
    ensures var arcs := Pie(data);
      && (exists i :: 0 <= i < |arcs| && arcs[i].startAngle <= t < arcs[i].endAngle)
      && forall i, j ::
           (0 <= i < |arcs| && 0 <= j < |arcs| &&
            arcs[i].startAngle <= t < arcs[i].endAngle && arcs[j].startAngle <= t < arcs[j].endAngle) ==> i == j
  {
    var arcs := Pie(data);
    var n := |data| as real;
    PieArcs(data);
    var m := FloorSlice(t, |data|);
    assert arcs[m].startAngle <= t < arcs[m].endAngle;
    forall i, j | 0 <= i < |arcs| && 0 <= j < |arcs| &&
           arcs[i].startAngle <= t < arcs[i].endAngle && arcs[j].startAngle <= t < arcs[j].endAngle
      ensures i == j
    {
      SliceIndex(i, t, n);
      SliceIndex(j, t, n);
    }
  }

  /** The slice `floor(t * n)` holds the angle `t`. */
  lemma FloorSlice(t: real, count: nat) returns (m: nat)
    requires count > 0 && 0.0 <= t < 1.0
    ensures m < count && m as real / count as real <= t < (m + 1) as real / count as real
  {
    var n := count as real;
    assert 0.0 <= t * n < n;
    m := (t * n).Floor;
    assert m as real <= t * n < (m + 1) as real;
    assert m as real / n <= t by {
      assert m as real / n <= (t * n) / n;
    }
    assert t < (m + 1) as real / n by {
      assert (t * n) / n < (m + 1) as real / n;
    }
  }

  /** An angle in `[i/n, (i+1)/n)` determines `i`. */
  lemma SliceIndex(i: int, t: real, n: real)
    requires n > 0.0 && i as real / n <= t < (i + 1) as real / n
    ensures i == (t * n).Floor
  {
    assert i as real <= t * n < (i + 1) as real by {
      assert i as real / n * n == i as real;
      assert (i + 1) as real / n * n == (i + 1) as real;
    }
  }

  // ---------------------------------------------------------------------
  // Radii
  // ---------------------------------------------------------------------

  /** JavaScript's arithmetic, for the one expression that may meet `NaN`: `lo + (hi - lo) * x / 100`. */
  function Scale(lo: real, hi: real, x: JsNumber): (r: JsNumber)
    ensures r.Num? <==> x.Num?
    ensures x == Num(0.0) ==> r == Num(lo)
    ensures x == Num(100.0) ==> r == Num(hi)
  {
    if x.NaN? then NaN else Num(lo + (hi - lo) * x.v / 100.0)
  }

  /**
    The outer radius the slice should have (from the value the mouseover
    text on line 105 uses): its measure `d.data.value` mapped linearly from
    `[0, 100]` onto `[minRadius, maxRadius]`.
   */
  function OuterRadius(minRadius: real, maxRadius: real, arc: PieArc): (r: JsNumber)
    ensures r.Num? <==> arc.data.value.Num?
    ensures arc.data.value == Num(0.0) ==> r == Num(minRadius)
    ensures arc.data.value == Num(100.0) ==> r == Num(maxRadius)
  {
    Scale(minRadius, maxRadius, arc.data.value)
  }

  /** The outer radius as line 77 writes it: on a pie arc `d.value` is the pie's weight, not the measure. */
  function OuterRadiusAsWritten(minRadius: real, maxRadius: real, arc: PieArc): (r: JsNumber)
    ensures r.Num?
  {
    Scale(minRadius, maxRadius, Num(arc.value))
  }

  /** Between 0 and 100 the outer radius lies between the two radii. */
  lemma OuterRadiusBounds(minRadius: real, maxRadius: real, arc: PieArc)
    requires minRadius <= maxRadius
    requires arc.data.value.Num? && 0.0 <= arc.data.value.v <= 100.0
    ensures var r := OuterRadius(minRadius, maxRadius, arc);
      minRadius <= r.v <= maxRadius
  {
    var x := arc.data.value.v;
    MulNonNegative(maxRadius - minRadius, x);
    MulNonNegative(maxRadius - minRadius, 100.0 - x);
  }

  /** A larger measure never gives a smaller outer radius when `maxRadius >= minRadius`. */
  lemma OuterRadiusMonotone(minRadius: real, maxRadius: real, a: PieArc, b: PieArc)
    requires minRadius <= maxRadius
    requires a.data.value.Num? && b.data.value.Num? && a.data.value.v <= b.data.value.v
    ensures OuterRadius(minRadius, maxRadius, a).v <= OuterRadius(minRadius, maxRadius, b).v
  {
    var x, y := a.data.value.v, b.data.value.v;
    MulNonNegative(maxRadius - minRadius, y - x);
  }

  /** A product of two non-negative reals is non-negative; stated apart so that the solver gets this one nonlinear fact directly. */
  lemma MulNonNegative(a: real, b: real)
    requires a >= 0.0 && b >= 0.0
    ensures a * b >= 0.0
  {
  }

  /** Which value the outer radius reads: the pie weight `d.value`, as line 77 is written, or the measure `d.data.value`. */
  datatype RadiusSource = PieWeight | Measure

  function OuterRadiusFrom(source: RadiusSource, minRadius: real, maxRadius: real, arc: PieArc): (r: JsNumber)
    ensures source == PieWeight ==> r == OuterRadiusAsWritten(minRadius, maxRadius, arc)
    ensures source == Measure ==> r == OuterRadius(minRadius, maxRadius, arc)
  {
    match source
    case PieWeight => OuterRadiusAsWritten(minRadius, maxRadius, arc)
    case Measure => OuterRadius(minRadius, maxRadius, arc)
  }

  /** As written, every slice of a pie gets the same outer radius, `minRadius + (maxRadius - minRadius) / 100`. */
  lemma AsWrittenIgnoresMeasure(minRadius: real, maxRadius: real, data: seq<PlotDatum>)
    ensures var arcs := Pie(data);
      forall i :: 0 <= i < |arcs| ==>
        OuterRadiusAsWritten(minRadius, maxRadius, arcs[i]) == Num(minRadius + (maxRadius - minRadius) / 100.0)
  {
    PieArcs(data);
  }

  /** With the default 30 and a maximum of 100, a measure of 50 should reach 65 but is drawn at 30.7. */
  lemma AsWrittenCounterexample()
    ensures var arc := Pie([PlotDatum("a", Num(50.0))])[0];
      && OuterRadiusAsWritten(30.0, 100.0, arc) == Num(30.7)
      && OuterRadius(30.0, 100.0, arc) == Num(65.0)
  {
    PieArcs([PlotDatum("a", Num(50.0))]);
  }

  // ---------------------------------------------------------------------
  // Labels
  // ---------------------------------------------------------------------

  /** Where a label is drawn: a polar point, or `translate(NaN,NaN)`. */
  datatype Anchor = At(angle: real, distance: real) | Nowhere

  function Abs(x: real): real {
    if x < 0.0 then -x else x
  }

  /**
    Lines 115-118: `arc.centroid(d)` is the point at the arc's mid-angle
    and at the mean of its two radii; the label is that point scaled by
    `(maxRadius + 15) / |centroid|`. A centroid at the centre divides zero
    by zero and a NaN radius spreads, and either way the label has no place.
   */
  function LabelAnchor(arc: PieArc, innerRadius: real, outerRadius: JsNumber, maxRadius: real): (a: Anchor)
    ensures a.At? <==> outerRadius.Num? && innerRadius + outerRadius.v != 0.0
    ensures a.At? ==> a.angle == (arc.startAngle + arc.endAngle) / 2.0
    ensures a.At? && innerRadius + outerRadius.v > 0.0 ==> a.distance == maxRadius + 15.0
    ensures a.At? && innerRadius + outerRadius.v < 0.0 ==> a.distance == -(maxRadius + 15.0)
  {
    if outerRadius.NaN? then Nowhere
    else
      var centroid := (innerRadius + outerRadius.v) / 2.0;
      if centroid == 0.0 then Nowhere
      else At((arc.startAngle + arc.endAngle) / 2.0, centroid * ((maxRadius + 15.0) / Abs(centroid)))
  }

  /** Two slices with the same angles get the same label position whatever their values, as long as both centroids lie outside the centre. */
  lemma LabelIgnoresValue(a: PieArc, b: PieArc, innerRadius: real, ra: JsNumber, rb: JsNumber, maxRadius: real)
    requires a.startAngle == b.startAngle && a.endAngle == b.endAngle
    requires ra.Num? && rb.Num? && innerRadius + ra.v > 0.0 && innerRadius + rb.v > 0.0
    ensures LabelAnchor(a, innerRadius, ra, maxRadius) == LabelAnchor(b, innerRadius, rb, maxRadius)
  {
  }

  // ---------------------------------------------------------------------
  // The drawing
  // ---------------------------------------------------------------------

  /** One `g.arc`: its path's radii and fill, and its text and position. */
  datatype Slice = Slice(arc: PieArc, innerRadius: real, outerRadius: JsNumber, fill: string, text: string, anchor: Anchor)

  /** The SVG's contents after an update: its size, the centre of `g`, and the slices. */
  datatype Chart = Chart(width: nat, height: nat, centre: (real, real), slices: seq<Slice>)

  /**
    Lines 99-123 for one arc: the path with inner radius `minRadius`, the
    outer radius read from `source`, the bar colour, and the label text and
    its anchor, which depends on no value of the row but through that radius.
   */
  function DrawSlice(arc: PieArc, minRadius: real, maxRadius: real, color: string, source: RadiusSource): (s: Slice)
    ensures s.arc == arc && s.innerRadius == minRadius && s.fill == color && s.text == arc.data.labelText
    ensures s.outerRadius == OuterRadiusFrom(source, minRadius, maxRadius, arc)
    ensures s.anchor == LabelAnchor(arc, minRadius, s.outerRadius, maxRadius)
  {
    var outer := OuterRadiusFrom(source, minRadius, maxRadius, arc);
    Slice(arc, minRadius, outer, color, arc.data.labelText, LabelAnchor(arc, minRadius, outer, maxRadius))
  }

  /** `selectAll(".arc").data(arcs).enter().append("g")` (lines 93-97): one slice per arc, in order. */
  function DrawSlices(arcs: seq<PieArc>, minRadius: real, maxRadius: real, color: string, source: RadiusSource): (ss: seq<Slice>)
    ensures |ss| == |arcs|
    ensures forall i :: 0 <= i < |arcs| ==> ss[i] == DrawSlice(arcs[i], minRadius, maxRadius, color, source)
  {
    if |arcs| == 0 then []
    else [DrawSlice(arcs[0], minRadius, maxRadius, color, source)] + DrawSlices(arcs[1..], minRadius, maxRadius, color, source)
  }

  /**
    Lines 57-123 once the guard has passed. `source` says which value the
    outer radius reads: `PieWeight` is the chart line 77 draws, `Measure`
    the chart it evidently means to draw.
   */
  function Layout(rows: seq<Row>, dimName: string, measureName: string, toNumber: string -> JsNumber,
                  width: nat, height: nat, config: Config, source: RadiusSource): (c: Chart)
    requires forall i :: 0 <= i < |rows| ==> dimName in rows[i] && measureName in rows[i]
    ensures c.width == width && c.height == height
    ensures c.centre == (width as real / 2.0, height as real / 2.0)
    ensures |c.slices| == |rows|
  {
    var minRadius := MinRadius(config);
    var maxRadius := MaxRadius(config, width, height);
    var arcs := Pie(PlotData(rows, dimName, measureName, toNumber));
    Chart(width, height, (width as real / 2.0, height as real / 2.0), DrawSlices(arcs, minRadius, maxRadius, Color(config), source))
  }

  /**
    Slice `i` of `n` shows row `i`: its label and measure, the angles
    `[i/n, (i+1)/n)`, inner radius `minRadius`, the bar colour, and the
    outer radius of its measure, or of its pie weight 1 as line 77 is written.
   */
  lemma LayoutSlices(rows: seq<Row>, dimName: string, measureName: string, toNumber: string -> JsNumber,
                     width: nat, height: nat, config: Config, source: RadiusSource, i: nat)
    requires forall i :: 0 <= i < |rows| ==> dimName in rows[i] && measureName in rows[i]
    requires i < |rows|
    ensures var s := Layout(rows, dimName, measureName, toNumber, width, height, config, source).slices[i];
      var n := |rows| as real;
      var value := toNumber(rows[i][measureName]);
      && s.text == rows[i][dimName]
      && s.arc.data == PlotDatum(rows[i][dimName], value)
      && s.arc.startAngle == i as real / n && s.arc.endAngle == (i + 1) as real / n
      && s.innerRadius == MinRadius(config)
      && s.outerRadius == Scale(MinRadius(config), MaxRadius(config, width, height), if source == Measure then value else Num(1.0))
      && s.fill == Color(config)
  {
    var data := PlotData(rows, dimName, measureName, toNumber);
    var arcs := Pie(data);
    PieArcs(data);
    var c := Layout(rows, dimName, measureName, toNumber, width, height, config, source);
    assert c.slices[i] == DrawSlice(arcs[i], MinRadius(config), MaxRadius(config, width, height), Color(config), source);
  }

  /**
    The label of slice `i` of `n` sits at the slice's mid-angle
    `(2i+1)/(2n)`, `maxRadius + 15` from the centre, whenever the slice's
    centroid lies outside the centre.
   */
  lemma LayoutLabels(rows: seq<Row>, dimName: string, measureName: string, toNumber: string -> JsNumber,
                     width: nat, height: nat, config: Config, source: RadiusSource, i: nat)
    requires forall i :: 0 <= i < |rows| ==> dimName in rows[i] && measureName in rows[i]
    requires i < |rows|
    ensures var s := Layout(rows, dimName, measureName, toNumber, width, height, config, source).slices[i];
      s.outerRadius.Num? && s.innerRadius + s.outerRadius.v > 0.0 ==>
        s.anchor == At((2 * i + 1) as real / (2.0 * |rows| as real), MaxRadius(config, width, height) + 15.0)
  {
    LayoutSlices(rows, dimName, measureName, toNumber, width, height, config, source, i);
    var arcs := Pie(PlotData(rows, dimName, measureName, toNumber));
    var c := Layout(rows, dimName, measureName, toNumber, width, height, config, source);
    assert c.slices[i] == DrawSlice(arcs[i], MinRadius(config), MaxRadius(config, width, height), Color(config), source);
    MidAngle(i, |rows|);
  }

  /**
    The chart as line 77 is written: every slice has the same outer radius
    `minRadius + (maxRadius - minRadius) / 100`, whatever its measure (NaN
    included), and so every label is placed at its mid-angle unless that
    common centroid is the centre.
   */
  lemma LayoutAsWritten(rows: seq<Row>, dimName: string, measureName: string, toNumber: string -> JsNumber,
                        width: nat, height: nat, config: Config, i: nat)
    requires forall i :: 0 <= i < |rows| ==> dimName in rows[i] && measureName in rows[i]
    requires i < |rows|
    ensures var s := Layout(rows, dimName, measureName, toNumber, width, height, config, PieWeight).slices[i];
      var minRadius, maxRadius := MinRadius(config), MaxRadius(config, width, height);
      var outer := minRadius + (maxRadius - minRadius) / 100.0;
      && s.outerRadius == Num(outer)
      && (minRadius + outer != 0.0 <==> s.anchor.At?)
      && (s.anchor.At? ==> s.anchor.angle == (2 * i + 1) as real / (2.0 * |rows| as real))
      && (minRadius + outer > 0.0 ==> s.anchor.distance == maxRadius + 15.0)
  {
    var data := PlotData(rows, dimName, measureName, toNumber);
    var arcs := Pie(data);
    PieArcs(data);
    var minRadius, maxRadius := MinRadius(config), MaxRadius(config, width, height);
    var c := Layout(rows, dimName, measureName, toNumber, width, height, config, PieWeight);
    assert c.slices[i] == DrawSlice(arcs[i], minRadius, maxRadius, Color(config), PieWeight);
    DrawSliceAsWritten(arcs[i], minRadius, maxRadius, Color(config));
    MidAngle(i, |rows|);
  }

  lemma DrawSliceAsWritten(arc: PieArc, minRadius: real, maxRadius: real, color: string)
    requires arc.value == 1.0
    ensures var s := DrawSlice(arc, minRadius, maxRadius, color, PieWeight);
      var outer := minRadius + (maxRadius - minRadius) / 100.0;
      && s.outerRadius == Num(outer)
      && (minRadius + outer != 0.0 <==> s.anchor.At?)
      && (s.anchor.At? ==> s.anchor.angle == (arc.startAngle + arc.endAngle) / 2.0)
      && (minRadius + outer > 0.0 ==> s.anchor.distance == maxRadius + 15.0)
  {
  }

  /** The middle of `[i/n, (i+1)/n)` is `(2i+1)/(2n)`. */
  lemma MidAngle(i: nat, count: nat)
    requires i < count
    ensures (i as real / count as real + (i + 1) as real / count as real) / 2.0 == (2 * i + 1) as real / (2.0 * count as real)
  {
  }
}
