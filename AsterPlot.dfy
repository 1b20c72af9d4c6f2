/**
  The aster plot visualisation object (hello_world.js): `create` sets up the
  drawing surface and the tooltip, `updateAsync` validates the query and
  redraws, and the slices' mouse handlers show and hide the tooltip.

  The host's drawing surface and tooltip `div` are modelled by their
  contents; rendering them (d3 selections, SVG paths, CSS) is not.
 */
module AsterPlot {
  import opened Wrappers
  import opened AsterGeometry

  /** An error the host shows instead of the chart (`addError`). */
  datatype VisError = VisError(title: string, message: string)

  const MissingFields: VisError :=
    VisError("Missing Fields", "This chart requires at least one dimension and one measure.")

  /** `queryResponse.fields`: the names of the query's dimensions and measures, in order. */
  datatype QueryFields = QueryFields(dimensions: seq<string>, measures: seq<string>)

  /** What the SVG element holds: nothing yet, or the chart of the last successful update. */
  datatype Surface = Blank | Drawn(chart: Chart)

  /** The tooltip `div`: its opacity, its HTML, and its position in page pixels once set. */
  class Tooltip {
    var opacity: real
    var html: string
    var left: Option<real>
    var top: Option<real>

    /** A new `div.aster-tooltip`: the style sheet gives it opacity 0, and it has no content or position. */
    constructor ()
      ensures opacity == 0.0 && html == "" && left == None && top == None
    {
      opacity := 0.0;
      html := "";
      left := None;
      top := None;
    }

    predicate Visible()
      reads this
    {
      opacity != 0.0
    }
  }

  /** The text of the tooltip for a slice (line 105); `render` is JavaScript's number-to-string conversion. */
  function TooltipHtml(d: PlotDatum, render: JsNumber -> string): (h: string)
    ensures |h| == |d.labelText| + |render(d.value)| + 22
    ensures h[..8] == "<strong>" && h[|h| - 1] == '%'
    ensures h[8..8 + |d.labelText|] == d.labelText
    ensures h[8 + |d.labelText|..21 + |d.labelText|] == "</strong><br>"
    ensures h[21 + |d.labelText|..|h| - 1] == render(d.value)
  {
    "<strong>" + d.labelText + "</strong><br>" + render(d.value) + "%"
  }

  class AsterPlot {
    var errors: seq<VisError>
    var surface: Surface
    const tooltip: Tooltip

    /** `create` (lines 21-45): an empty SVG and a hidden tooltip; no error is shown. */
    constructor Create()
      ensures errors == [] && surface == Blank
      ensures fresh(tooltip)
      ensures tooltip.opacity == 0.0 && tooltip.html == "" && tooltip.left == None && tooltip.top == None
    {
      errors := [];
      surface := Blank;
      tooltip := new Tooltip();
    }

    /**
      `updateAsync` (lines 46-126). The errors are cleared first. Without a
      dimension or a measure the update reports "Missing Fields" and returns
      at once: the surface keeps whatever it held and `done` is not called.
      Otherwise the surface's old contents are removed and replaced by the
      chart of this update alone, drawn with the outer radius of the
      measure, and `done` is called. The tooltip is not
      touched.
     */
    method UpdateAsync(rows: seq<Row>, width: nat, height: nat, config: Config, fields: QueryFields,
                       toNumber: string -> JsNumber) returns (done: bool)
      requires |fields.dimensions| > 0 && |fields.measures| > 0 ==>
        forall i :: 0 <= i < |rows| ==> fields.dimensions[0] in rows[i] && fields.measures[0] in rows[i]
      modifies this
      ensures done <==> |fields.dimensions| > 0 && |fields.measures| > 0
      ensures !done ==> errors == [MissingFields] && surface == old(surface)
      ensures done ==> errors == []
      ensures done ==> surface == Drawn(Layout(rows, fields.dimensions[0], fields.measures[0], toNumber, width, height, config, Measure))
    {
      errors := [];
      if |fields.dimensions| == 0 || |fields.measures| == 0 {
        errors := errors + [MissingFields];
        return false;
      }
      surface := Blank;
      surface := Drawn(Layout(rows, fields.dimensions[0], fields.measures[0], toNumber, width, height, config, Measure));
      done := true;
    }

    /** The mouseover handler of slice `i` (lines 102-108): show the tooltip with its label and value by the pointer. */
    method MouseOver(i: nat, pageX: real, pageY: real, render: JsNumber -> string)
      requires surface.Drawn? && i < |surface.chart.slices|
      modifies tooltip
      ensures tooltip.Visible() && tooltip.opacity == 1.0
      ensures tooltip.html == TooltipHtml(surface.chart.slices[i].arc.data, render)
      ensures tooltip.left == Some(pageX) && tooltip.top == Some(pageY - 28.0)
    {
      tooltip.opacity := 1.0;
      tooltip.html := TooltipHtml(surface.chart.slices[i].arc.data, render);
      tooltip.left := Some(pageX);
      tooltip.top := Some(pageY - 28.0);
    }

    /** The mouseout handler (lines 109-111): hide the tooltip; its content and position stay. */
    method MouseOut()
      modifies tooltip
      ensures !tooltip.Visible() && tooltip.opacity == 0.0
      ensures tooltip.html == old(tooltip.html) && tooltip.left == old(tooltip.left) && tooltip.top == old(tooltip.top)
    {
      tooltip.opacity := 0.0;
    }
  }

  /** A later valid update leaves no error from an earlier invalid one, and draws only its own rows. */
  method UpdateAfterMissingFields(rows: seq<Row>, width: nat, height: nat, config: Config, fields: QueryFields,
                                  toNumber: string -> JsNumber) returns (firstDone: bool, secondDone: bool, errors: seq<VisError>, slices: nat)
    requires |fields.dimensions| > 0 && |fields.measures| > 0
    requires forall i :: 0 <= i < |rows| ==> fields.dimensions[0] in rows[i] && fields.measures[0] in rows[i]
    ensures !firstDone && secondDone && errors == [] && slices == |rows|
  {
    var plot := new AsterPlot.Create();
    firstDone := plot.UpdateAsync([], width, height, config, QueryFields([], fields.measures), toNumber);
    assert plot.errors == [MissingFields];
    secondDone := plot.UpdateAsync(rows, width, height, config, fields, toNumber);
    errors := plot.errors;
    slices := |plot.surface.chart.slices|;
  }
}
