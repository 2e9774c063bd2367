/** Mouse-wheel zoom (ts/Extensions/MouseWheelZoom/MouseWheelZoom.ts): the
    wheel options are normalised over the defaults, a wheel event over the plot
    becomes a cursor-anchored zoom request for `chart.transform`, one timer
    shared by every chart runs `pointer.drop` 400 ms after the last effective
    zoom, and `compose` registers each chart class once.

    The chart's collaborators are parameters: `transform` is any function from
    requests to its boolean result, `inside` stands for `isInsidePlot`, `pow`
    for `Math.pow`; what `pointer.normalize`, `inClass` and `getAssignedAxis`
    tell about an event is carried in the event itself. */
module MouseWheelZoom {
  import opened Wrappers

  type ClassId = nat
  type ChartId = nat
  type AxisId = nat

  // ---------------------------------------------------------------------------
  // optionsToObject
  // ---------------------------------------------------------------------------

  /** An object given as `chart.zooming.mouseWheel`; `None` is a key that
      is not set. */
  datatype PartialOptions = PartialOptions(enabled: Option<bool>, sensitivity: Option<real>, zoomType: Option<string>)

  /** Everything `chart.zooming.mouseWheel` can be: not set, `null`, a
      boolean or an options object. */
  datatype MouseWheelSetting = Unset | Null | Flag(on: bool) | Settings(o: PartialOptions)

  /** The options after merging over the defaults. */
  datatype WheelOptions = WheelOptions(enabled: bool, sensitivity: real, zoomType: Option<string>)

  /** `defaultOptions`: enabled, sensitivity 1.1, no zoom type. */
  const DefaultOptions: WheelOptions := WheelOptions(true, 1.1, None)

  /** `merge(defaultOptions, options)`: every key the object sets wins. */
  function Merge(d: WheelOptions, o: PartialOptions): WheelOptions {
    WheelOptions(o.enabled.GetOr(d.enabled), o.sensitivity.GetOr(d.sensitivity), if o.zoomType.Some? then o.zoomType else d.zoomType)
  }

  /** `optionsToObject`: a value that is not an object becomes
      `{ enabled: options ?? true }` before the merge. */
  function OptionsToObject(s: MouseWheelSetting): (r: WheelOptions)
    ensures r.enabled <==> s != Flag(false) && !(s.Settings? && s.o.enabled == Some(false))
    ensures s.Unset? || s.Null? || s == Flag(true) ==> r == DefaultOptions
    ensures !s.Settings? ==> r.sensitivity == 1.1 && r.zoomType == None
    ensures s.Settings? ==> r.sensitivity == s.o.sensitivity.GetOr(1.1) && r.zoomType == s.o.zoomType
  {
    match s
    case Settings(o) => Merge(DefaultOptions, o)
    case Flag(b) => Merge(DefaultOptions, PartialOptions(Some(b), None, None))
    case _ => Merge(DefaultOptions, PartialOptions(Some(true), None, None))
  }

  // ---------------------------------------------------------------------------
  // zoomBy: zoom type, axes and the transform request
  // ---------------------------------------------------------------------------

  /** The parts of a chart the wheel zoom reads. */
  datatype Chart = Chart(
    id: ChartId,
    plotLeft: real,
    plotTop: real,
    zoomingType: Option<string>,
    mouseWheel: MouseWheelSetting,
    xAxis: seq<AxisId>,
    yAxis: seq<AxisId>,
    axes: seq<AxisId>)

  /** `pick(options.type, chart.zooming.type, '')`: the first value that is
      neither undefined nor null. */
  function ResolveType(optionType: Option<string>, chartType: Option<string>): (t: string)
    ensures optionType.Some? ==> t == optionType.value
    ensures optionType.None? && chartType.Some? ==> t == chartType.value
    ensures optionType.None? && chartType.None? ==> t == ""
  {
    if optionType.Some? then optionType.value else chartType.GetOr("")
  }

  /** The axes to zoom for a zoom type: only `x`, `y` and `xy` select
      anything, and each takes all of one list. */
  function SelectAxes(t: string, xAxis: seq<AxisId>, yAxis: seq<AxisId>, axes: seq<AxisId>): (r: seq<AxisId>)
    ensures r != [] ==> (t == "x" && r == xAxis) || (t == "y" && r == yAxis) || (t == "xy" && r == axes)
    ensures t == "x" ==> r == xAxis
    ensures t == "y" ==> r == yAxis
    ensures t == "xy" ==> r == axes
  {
    if t == "x" then xAxis
    else if t == "y" then yAxis
    else if t == "xy" then axes
    else []
  }

  /** `xy` ignores the axis lists the handler passes. */
  lemma XyIgnoresPassedAxes(xAxis: seq<AxisId>, yAxis: seq<AxisId>, axes: seq<AxisId>, xAxis': seq<AxisId>, yAxis': seq<AxisId>)
    ensures SelectAxes("xy", xAxis, yAxis, axes) == SelectAxes("xy", xAxis', yAxis', axes)
  {
  }

  /** An explicit empty type does not fall back to the chart's zooming
      type, so a chart like the palette helper's preview, zooming on `x`
      with `mouseWheel.type: ''`, zooms no axis with the wheel. */
  lemma EmptyTypeZoomsNothing(chartType: Option<string>, xAxis: seq<AxisId>, yAxis: seq<AxisId>, axes: seq<AxisId>)
    ensures ResolveType(Some(""), chartType) == ""
    ensures SelectAxes(ResolveType(Some(""), Some("x")), xAxis, yAxis, axes) == []
    ensures SelectAxes(ResolveType(None, Some("x")), xAxis, yAxis, axes) == xAxis
  {
  }

  /** The argument of `chart.transform`. */
  datatype TransformRequest = TransformRequest(axes: seq<AxisId>, moveX: real, moveY: real, zoomX: real, zoomY: real)

  /** `mouseX - howMuch * mouseX`: the shift that keeps the plot position
      `offset` in place when the plot is scaled by `howMuch`. */
  function Move(offset: real, howMuch: real): real {
    offset - howMuch * offset
  }

  /** The request `zoomBy` builds, with the mouse position made relative to
      the plot area. */
  function ZoomRequest(chart: Chart, howMuch: real, xAxis: seq<AxisId>, yAxis: seq<AxisId>,
                       mouseX: real, mouseY: real, options: WheelOptions): TransformRequest
  {
    var x := mouseX - chart.plotLeft;
    var y := mouseY - chart.plotTop;
    TransformRequest(
      SelectAxes(ResolveType(options.zoomType, chart.zoomingType), xAxis, yAxis, chart.axes),
      Move(x, howMuch), Move(y, howMuch), howMuch, howMuch)
  }

  /** The request scales about the cursor: a plot position at distance `d`
      from the cursor ends up at distance `howMuch * d` from it. */
  lemma ZoomKeepsCursorFixed(chart: Chart, howMuch: real, xAxis: seq<AxisId>, yAxis: seq<AxisId>,
                             mouseX: real, mouseY: real, options: WheelOptions, px: real, py: real)
    ensures var r := ZoomRequest(chart, howMuch, xAxis, yAxis, mouseX, mouseY, options);
      r.zoomX == howMuch && r.zoomY == howMuch &&
      r.axes == SelectAxes(ResolveType(options.zoomType, chart.zoomingType), xAxis, yAxis, chart.axes)
    ensures var r := ZoomRequest(chart, howMuch, xAxis, yAxis, mouseX, mouseY, options);
      r.moveX + r.zoomX * (mouseX - chart.plotLeft) == mouseX - chart.plotLeft &&
      r.moveY + r.zoomY * (mouseY - chart.plotTop) == mouseY - chart.plotTop
    ensures var r := ZoomRequest(chart, howMuch, xAxis, yAxis, mouseX, mouseY, options);
      (r.moveX + r.zoomX * (px - chart.plotLeft)) - (mouseX - chart.plotLeft) == howMuch * (px - mouseX) &&
      (r.moveY + r.zoomY * (py - chart.plotTop)) - (mouseY - chart.plotTop) == howMuch * (py - mouseY)
  {
  }

  // ---------------------------------------------------------------------------
  // The wheel handler's decision
  // ---------------------------------------------------------------------------

  /** A normalised wheel event with what the pointer reports about it:
      whether its target is inside `highcharts-no-mousewheel`, and the axis
      `getAssignedAxis` finds under it, if any. */
  datatype WheelEvent = WheelEvent(
    chartX: real,
    chartY: real,
    detail: Option<real>,
    deltaY: Option<real>,
    inNoWheelClass: bool,
    assignedX: Option<AxisId>,
    assignedY: Option<AxisId>)

  /** `e.detail || ((e.deltaY || 0) / 120)`. */
  function Delta(e: WheelEvent): (d: real)
    ensures e.detail.Some? && e.detail.value != 0.0 ==> d == e.detail.value
    ensures (e.detail.None? || e.detail.value == 0.0) ==> d * 120.0 == e.deltaY.GetOr(0.0)
  {
    if e.detail.Some? && e.detail.value != 0.0 then e.detail.value
    else e.deltaY.GetOr(0.0) / 120.0
  }

  /** `wheelZoomOptions.sensitivity || 1.1`. */
  function EffectiveSensitivity(sensitivity: real): (s: real)
    ensures s != 0.0
    ensures sensitivity != 0.0 ==> s == sensitivity
  {
    if sensitivity == 0.0 then 1.1 else sensitivity
  }

  /** The arguments the handler passes to `zoomBy` besides the chart and
      the options. */
  datatype ZoomCall = ZoomCall(howMuch: real, xAxis: seq<AxisId>, yAxis: seq<AxisId>, mouseX: real, mouseY: real)

  /** The handler's decision: no zoom unless the pointer is inside the plot
      and the target allows it; otherwise the zoom factor is
      `pow(sensitivity, delta)` and an assigned axis replaces the chart's
      list of that direction. */
  function PlanWheel(chart: Chart, options: WheelOptions, e: WheelEvent,
                     inside: (real, real) -> bool, pow: (real, real) -> real): (c: Option<ZoomCall>)
    ensures c.Some? <==> inside(e.chartX - chart.plotLeft, e.chartY - chart.plotTop) && !e.inNoWheelClass
    ensures c.Some? ==>
      c.value.howMuch == pow(EffectiveSensitivity(options.sensitivity), Delta(e)) &&
      c.value.mouseX == e.chartX && c.value.mouseY == e.chartY &&
      (e.assignedX.Some? ==> c.value.xAxis == [e.assignedX.value]) &&
      (e.assignedX.None? ==> c.value.xAxis == chart.xAxis) &&
      (e.assignedY.Some? ==> c.value.yAxis == [e.assignedY.value]) &&
      (e.assignedY.None? ==> c.value.yAxis == chart.yAxis)
  {
    var allowZoom := !e.inNoWheelClass;
    if inside(e.chartX - chart.plotLeft, e.chartY - chart.plotTop) && allowZoom then
      var xAxis := if e.assignedX.Some? then [e.assignedX.value] else chart.xAxis;
      var yAxis := if e.assignedY.Some? then [e.assignedY.value] else chart.yAxis;
      Some(ZoomCall(pow(EffectiveSensitivity(options.sensitivity), Delta(e)), xAxis, yAxis, e.chartX, e.chartY))
    else None
  }

  /** One notch of a Firefox wheel reports `detail` 3; a WebKit wheel
      reporting `deltaY` 240 counts as two notches; a zero `detail` falls
      back to `deltaY`; a zero sensitivity counts as 1.1. */
  lemma DeltaExamples(x: real, y: real)
    ensures Delta(WheelEvent(x, y, Some(3.0), Some(240.0), false, None, None)) == 3.0
    ensures Delta(WheelEvent(x, y, None, Some(240.0), false, None, None)) == 2.0
    ensures Delta(WheelEvent(x, y, Some(0.0), Some(-120.0), false, None, None)) == -1.0
    ensures Delta(WheelEvent(x, y, None, None, false, None, None)) == 0.0
    ensures EffectiveSensitivity(0.0) == 1.1
  {
  }

  /** One WebKit notch (`deltaY` 120, no `detail`) over an `x`-zooming
      chart with two x axes and one y axis, sensitivity 1.1: the factor is
      `pow(1.1, 1)` and the request zooms the two x axes only. */
  lemma WheelScenario(inside: (real, real) -> bool, pow: (real, real) -> real, px: real, py: real)
    requires inside(px - 10.0, py - 20.0)
    ensures var chart := Chart(0, 10.0, 20.0, Some("x"), Settings(PartialOptions(None, Some(1.1), None)), [0, 1], [2], [0, 1, 2]);
      var options := OptionsToObject(chart.mouseWheel);
      var plan := PlanWheel(chart, options, WheelEvent(px, py, None, Some(120.0), false, None, None), inside, pow);
      options.enabled && plan.Some? && plan.value.howMuch == pow(1.1, 1.0) &&
      var r := ZoomRequest(chart, plan.value.howMuch, plan.value.xAxis, plan.value.yAxis, px, py, options);
      r.axes == [0, 1] && r.zoomX == r.zoomY == pow(1.1, 1.0)
  {
  }

  // ---------------------------------------------------------------------------
  // The shared settle timer
  // ---------------------------------------------------------------------------

  /** A pending `setTimeout` callback: its handle and the chart whose
      pointer it drops. */
  datatype Timer = Timer(handle: nat, chart: ChartId)

  /** The module's one timer slot: the `wheelTimer` handle (defined once
      set, never reset), the timer still pending, if any, and the handle the
      next `setTimeout` returns. */
  datatype TimerSlot = TimerSlot(wheelTimer: Option<nat>, pending: Option<Timer>, nextHandle: nat)

  /** A pending timer is the one `wheelTimer` names; handles are issued in
      increasing order. */
  predicate SlotValid(s: TimerSlot) {
    (s.pending.Some? ==> s.wheelTimer == Some(s.pending.value.handle)) &&
    (s.wheelTimer.Some? ==> s.wheelTimer.value < s.nextHandle)
  }

  /** `if (defined(wheelTimer)) clearTimeout(wheelTimer)`: clearing a
      handle cancels the timer only if it is that timer. */
  function Cancel(s: TimerSlot): (r: TimerSlot)
    ensures SlotValid(s) ==> r == s.(pending := None)
  {
    if s.wheelTimer.Some? && s.pending.Some? && s.pending.value.handle == s.wheelTimer.value
    then s.(pending := None)
    else s
  }

  /** `wheelTimer = setTimeout(...)`: a fresh handle, armed for `chart`. */
  function Arm(s: TimerSlot, chart: ChartId): TimerSlot {
    TimerSlot(Some(s.nextHandle), Some(Timer(s.nextHandle, chart)), s.nextHandle + 1)
  }

  /** The slot after one `zoomBy` whose `transform` answered `hasZoomed`. */
  function AfterZoom(s: TimerSlot, chart: ChartId, hasZoomed: bool): TimerSlot {
    var cleared := Cancel(s);
    if hasZoomed then Arm(cleared, chart) else cleared
  }

  /** Every `zoomBy` cancels the timer pending before it, whatever the
      outcome, and arms a fresh one, for its own chart, exactly when the
      zoom took effect; the slot stays valid. */
  lemma AfterZoomCancelsThenArms(s: TimerSlot, chart: ChartId, hasZoomed: bool)
    requires SlotValid(s)
    ensures var r := AfterZoom(s, chart, hasZoomed);
      SlotValid(r) &&
      (r.pending.Some? <==> hasZoomed) &&
      (r.pending.Some? ==> r.pending.value == Timer(s.nextHandle, chart)) &&
      Cancel(s).pending.None? &&
      (s.pending.Some? ==> r.pending != s.pending) &&
      (s.wheelTimer.Some? ==> r.wheelTimer.Some?)
  {
  }

  /** 400 ms pass with no wheel event: the pending timer, if any, runs and
      names the chart to drop; the handle stays defined. */
  function Fire(s: TimerSlot): (TimerSlot, Option<ChartId>) {
    match s.pending
    case Some(t) => (s.(pending := None), Some(t.chart))
    case None => (s, None)
  }

  lemma FireKeepsValid(s: TimerSlot)
    requires SlotValid(s)
    ensures SlotValid(Fire(s).0) && Fire(s).0.pending.None? && Fire(s).0.wheelTimer == s.wheelTimer
    ensures Fire(s).1.Some? <==> s.pending.Some?
  {
  }

  /** What happens to the slot: a `zoomBy` on a chart, with the result of
      its `transform`, or a quiet period long enough for a timer to run. */
  datatype TimerEvent = Zoom(chart: ChartId, hasZoomed: bool) | Quiet

  /** A run of events from slot `s`: the final slot and, per event, the
      chart whose pointer is dropped there, if any. */
  function Run(s: TimerSlot, evs: seq<TimerEvent>): (TimerSlot, seq<Option<ChartId>>)
    decreases |evs|
  {
    if evs == [] then (s, [])
    else
      var (next, drop) := match evs[0]
        case Zoom(c, ok) => (AfterZoom(s, c, ok), None)
        case Quiet => Fire(s);
      var (last, drops) := Run(next, evs[1..]);
      (last, [drop] + drops)
  }

  /** A run keeps the slot valid and reports one outcome per event. */
  lemma {:induction false} RunKeepsValid(s: TimerSlot, evs: seq<TimerEvent>)
    requires SlotValid(s)
    ensures SlotValid(Run(s, evs).0) && |Run(s, evs).1| == |evs|
    decreases |evs|
  {
    if evs != [] {
      var next := if evs[0].Zoom? then AfterZoom(s, evs[0].chart, evs[0].hasZoomed) else Fire(s).0;
      if evs[0].Zoom? {
        AfterZoomCancelsThenArms(s, evs[0].chart, evs[0].hasZoomed);
      }
      RunKeepsValid(next, evs[1..]);
    }
  }

  /** The settle callback of one shared timer: a quiet period drops the
      pointer of chart `c` exactly when the event just before it was an
      effective zoom on `c` (or, first in the run, when `c`'s timer was
      pending at the start). A zoom on any chart, effective or not, in
      between cancels it: the timer is shared, not per chart. */
  lemma {:induction false} RunDrops(s: TimerSlot, evs: seq<TimerEvent>, i: nat, c: ChartId)
    requires SlotValid(s) && i < |evs|
    ensures |Run(s, evs).1| == |evs|
    ensures Run(s, evs).1[i] == Some(c) <==>
      evs[i] == Quiet &&
      (if i == 0 then s.pending.Some? && s.pending.value.chart == c else evs[i - 1] == Zoom(c, true))
    decreases |evs|
  {
    RunKeepsValid(s, evs);
    var next := if evs[0].Zoom? then AfterZoom(s, evs[0].chart, evs[0].hasZoomed) else Fire(s).0;
    if evs[0].Zoom? {
      AfterZoomCancelsThenArms(s, evs[0].chart, evs[0].hasZoomed);
    }
    if i > 0 {
      RunDrops(next, evs[1..], i - 1, c);
      if i == 1 && evs[1] == Quiet && evs[0].Quiet? {
        assert next.pending.None?;
      }
    }
  }

  /** No drop at an event that is a zoom, or a quiet period that does not
      follow an effective zoom. */
  lemma NoDropAt(s: TimerSlot, evs: seq<TimerEvent>, i: nat)
    requires SlotValid(s) && 0 < i < |evs|
    requires evs[i].Zoom? || !(evs[i - 1].Zoom? && evs[i - 1].hasZoomed)
    ensures |Run(s, evs).1| == |evs| && Run(s, evs).1[i] == None
  {
    RunKeepsValid(s, evs);
    var d := Run(s, evs).1[i];
    if d.Some? {
      RunDrops(s, evs, i, d.value);
    }
  }

  lemma DropAt(s: TimerSlot, evs: seq<TimerEvent>, i: nat, c: ChartId)
    requires SlotValid(s) && 0 < i < |evs|
    requires evs[i] == Quiet && evs[i - 1] == Zoom(c, true)
    ensures |Run(s, evs).1| == |evs| && Run(s, evs).1[i] == Some(c)
  {
    RunDrops(s, evs, i, c);
  }

  /** The first event of a run that starts with nothing pending drops
      nothing. */
  lemma NoDropFirst(s: TimerSlot, evs: seq<TimerEvent>)
    requires SlotValid(s) && s.pending.None? && 0 < |evs|
    ensures |Run(s, evs).1| == |evs| && Run(s, evs).1[0] == None
  {
    RunKeepsValid(s, evs);
    var d := Run(s, evs).1[0];
    if d.Some? {
      RunDrops(s, evs, 0, d.value);
    }
  }

  /** A burst of wheel events drops nothing while it lasts: in any run of
      zooms, on any charts and with any outcomes, from any valid slot, no
      event drops a pointer. */
  lemma BurstDropsNothing(s: TimerSlot, evs: seq<TimerEvent>)
    requires SlotValid(s)
    requires forall i :: 0 <= i < |evs| ==> evs[i].Zoom?
    ensures |Run(s, evs).1| == |evs|
    ensures forall i :: 0 <= i < |evs| ==> Run(s, evs).1[i] == None
  {
    RunKeepsValid(s, evs);
    forall i | 0 <= i < |evs|
      ensures Run(s, evs).1[i] == None
    {
      var d := Run(s, evs).1[i];
      if d.Some? {
        RunDrops(s, evs, i, d.value);
      }
    }
  }

  /** One quiet period after an effective zoom drops that chart, once. */
  lemma QuietAfterZoomDrops(s: TimerSlot, a: ChartId)
    requires SlotValid(s) && s.pending.None?
    ensures Run(s, [Zoom(a, true), Quiet, Quiet]).1 == [None, Some(a), None]
  {
    var evs := [Zoom(a, true), Quiet, Quiet];
    NoDropFirst(s, evs);
    DropAt(s, evs, 1, a);
    NoDropAt(s, evs, 2);
  }

  /** A zoom on another chart that changes nothing still cancels the first
      chart's drop: there is one timer for all charts. */
  lemma OtherChartCancelsDrop(s: TimerSlot, a: ChartId, b: ChartId)
    requires SlotValid(s) && s.pending.None?
    ensures Run(s, [Zoom(a, true), Zoom(b, false), Quiet]).1 == [None, None, None]
  {
    var evs := [Zoom(a, true), Zoom(b, false), Quiet];
    NoDropFirst(s, evs);
    NoDropAt(s, evs, 1);
    NoDropAt(s, evs, 2);
  }

  // ---------------------------------------------------------------------------
  // compose: the class registry
  // ---------------------------------------------------------------------------

  predicate NoDuplicates(cs: seq<ClassId>) {
    forall i, j :: 0 <= i < j < |cs| ==> cs[i] != cs[j]
  }

  /** `compose(C)` on the registry: `C` is pushed unless already there. */
  function Register(cs: seq<ClassId>, c: ClassId): seq<ClassId> {
    if c in cs then cs else cs + [c]
  }

  /** Registering keeps every class once, adds exactly `c`, and a second
      registration of the same class changes nothing. */
  lemma RegisterProperties(cs: seq<ClassId>, c: ClassId)
    requires NoDuplicates(cs)
    ensures NoDuplicates(Register(cs, c))
    ensures forall d :: d in Register(cs, c) <==> d in cs || d == c
    ensures Register(Register(cs, c), c) == Register(cs, c)
  {
  }

  /** The registry after `compose` was called with each class of `calls`,
      in order. */
  function ComposeAll(cs: seq<ClassId>, calls: seq<ClassId>): seq<ClassId>
    decreases |calls|
  {
    if calls == [] then cs else ComposeAll(Register(cs, calls[0]), calls[1..])
  }

  /** However often `compose` is called, each class it saw is registered
      exactly once and no other class is. */
  lemma {:induction false} ComposeAllRegistersOnce(cs: seq<ClassId>, calls: seq<ClassId>)
    requires NoDuplicates(cs)
    ensures NoDuplicates(ComposeAll(cs, calls))
    ensures forall d :: d in ComposeAll(cs, calls) <==> d in cs || d in calls
    decreases |calls|
  {
    if calls != [] {
      RegisterProperties(cs, calls[0]);
      ComposeAllRegistersOnce(Register(cs, calls[0]), calls[1..]);
      assert forall d :: d in calls <==> d == calls[0] || d in calls[1..] by {
        assert calls == [calls[0]] + calls[1..];
      }
    }
  }

  /** Composing twice is composing once. */
  lemma {:induction false} ComposeAllTwice(cs: seq<ClassId>, calls: seq<ClassId>)
    ensures ComposeAll(ComposeAll(cs, calls), calls) == ComposeAll(cs, calls)
    decreases |calls|
  {
    ComposeAllCovers(cs, calls);
    ComposeAllKnown(ComposeAll(cs, calls), calls);
  }

  /** Calls with classes already registered change nothing. */
  lemma {:induction false} ComposeAllKnown(cs: seq<ClassId>, calls: seq<ClassId>)
    requires forall d :: d in calls ==> d in cs
    ensures ComposeAll(cs, calls) == cs
    decreases |calls|
  {
    if calls != [] {
      assert calls[0] in calls;
      assert forall d :: d in calls[1..] ==> d in calls;
      ComposeAllKnown(cs, calls[1..]);
    }
  }

  /** The registry after a run of calls holds every class called. */
  lemma {:induction false} ComposeAllCovers(cs: seq<ClassId>, calls: seq<ClassId>)
    ensures forall d :: d in cs || d in calls ==> d in ComposeAll(cs, calls)
    decreases |calls|
  {
    if calls != [] {
      ComposeAllCovers(Register(cs, calls[0]), calls[1..]);
      assert forall d :: d in calls ==> d == calls[0] || d in calls[1..] by {
        assert calls == [calls[0]] + calls[1..];
      }
    }
  }

  // ---------------------------------------------------------------------------
  // The module's state
  // ---------------------------------------------------------------------------

  /** A wheel listener on a chart's container: the chart it refers to, and
      the options it closed over when `afterGetContainer` ran. The chart
      itself is read afresh on every event. */
  datatype Handler = Handler(chartId: ChartId, options: WheelOptions)

  /** The module-level state: `composedClasses`, the `afterGetContainer`
      listeners `compose` added, the wheel listeners those added, and the
      one `wheelTimer` slot every chart shares. */
  class WheelZoomRuntime {
    var composedClasses: seq<ClassId>
    var containerListeners: seq<ClassId>
    var wheelHandlers: seq<Handler>
    var wheelTimer: Option<nat>
    var pending: Option<Timer>
    var nextHandle: nat

    /** Each composed class has exactly one container listener, every wheel
        listener belongs to a chart with wheel zoom enabled, and the timer
        slot is valid. */
    ghost predicate Valid()
      reads this
    {
      NoDuplicates(composedClasses) &&
      containerListeners == composedClasses &&
      (forall h :: h in wheelHandlers ==> h.options.enabled) &&
      SlotValid(Slot())
    }

    function Slot(): TimerSlot
      reads this
    {
      TimerSlot(wheelTimer, pending, nextHandle)
    }

    constructor()
      ensures Valid()
      ensures composedClasses == [] && wheelHandlers == []
      ensures Slot() == TimerSlot(None, None, 0)
    {
      composedClasses := [];
      containerListeners := [];
      wheelHandlers := [];
      wheelTimer := None;
      pending := None;
      nextHandle := 0;
    }

    /** `compose`: registers the class and its `afterGetContainer` listener
        the first time only. */
    method Compose(chartClass: ClassId)
      requires Valid()
      modifies this
      ensures Valid()
      ensures composedClasses == Register(old(composedClasses), chartClass)
      ensures containerListeners == composedClasses
      ensures wheelHandlers == old(wheelHandlers) && Slot() == old(Slot())
    {
      if chartClass !in composedClasses {
        composedClasses := composedClasses + [chartClass];
        containerListeners := containerListeners + [chartClass];
      }
      RegisterProperties(old(composedClasses), chartClass);
    }

    /** `onAfterGetContainer` for a chart of class `chartClass`: runs only
        when `compose` registered the class, and adds a wheel listener only
        when wheel zoom is enabled for the chart. */
    method AfterGetContainer(chartClass: ClassId, chart: Chart) returns (listening: bool)
      requires Valid()
      modifies this
      ensures Valid()
      ensures listening <==> chartClass in composedClasses && OptionsToObject(chart.mouseWheel).enabled
      ensures wheelHandlers == old(wheelHandlers) +
        (if listening then [Handler(chart.id, OptionsToObject(chart.mouseWheel))] else [])
      ensures composedClasses == old(composedClasses) && containerListeners == old(containerListeners)
      ensures Slot() == old(Slot())
    {
      listening := false;
      if chartClass in containerListeners {
        var wheelZoomOptions := OptionsToObject(chart.mouseWheel);
        if wheelZoomOptions.enabled {
          wheelHandlers := wheelHandlers + [Handler(chart.id, wheelZoomOptions)];
          listening := true;
        }
      }
    }

    /** `zoomBy`: hands the cursor-anchored request to `transform`, cancels
        the pending timer and arms a new one when the zoom took effect. */
    method ZoomBy(chart: Chart, howMuch: real, xAxis: seq<AxisId>, yAxis: seq<AxisId>,
                  mouseX: real, mouseY: real, options: WheelOptions,
                  transform: TransformRequest -> bool) returns (hasZoomed: bool)
      requires Valid()
      modifies this
      ensures Valid()
      ensures hasZoomed == transform(ZoomRequest(chart, howMuch, xAxis, yAxis, mouseX, mouseY, options))
      ensures Slot() == AfterZoom(old(Slot()), chart.id, hasZoomed)
      ensures composedClasses == old(composedClasses) && containerListeners == old(containerListeners)
      ensures wheelHandlers == old(wheelHandlers)
    {
      var zoomType := ResolveType(options.zoomType, chart.zoomingType);
      var axes := SelectAxes(zoomType, xAxis, yAxis, chart.axes);
      var x := mouseX - chart.plotLeft;
      var y := mouseY - chart.plotTop;
      if wheelTimer.Some? {
        // clearTimeout(wheelTimer)
        if pending.Some? && pending.value.handle == wheelTimer.value {
          pending := None;
        }
      }
      var request := TransformRequest(axes, Move(x, howMuch), Move(y, howMuch), howMuch, howMuch);
      assert request == ZoomRequest(chart, howMuch, xAxis, yAxis, mouseX, mouseY, options);
      hasZoomed := transform(request);
      if hasZoomed {
        wheelTimer := Some(nextHandle);
        pending := Some(Timer(nextHandle, chart.id));
        nextHandle := nextHandle + 1;
      }
      AfterZoomCancelsThenArms(old(Slot()), chart.id, hasZoomed);
    }

    /** The wheel listener of `h`, run when an event arrives on its chart:
        `chart` is that chart as it is now (its plot offsets, axis lists and
        zooming type), while the options are the ones captured when the
        listener was added. It zooms when the plan allows it and reports
        whether it called `preventDefault`, which it does exactly when the
        zoom took effect. */
    method OnWheel(h: Handler, chart: Chart, e: WheelEvent, inside: (real, real) -> bool, pow: (real, real) -> real,
                   transform: TransformRequest -> bool) returns (prevented: bool)
      requires Valid() && h in wheelHandlers && chart.id == h.chartId
      modifies this
      ensures Valid()
      ensures var plan := PlanWheel(chart, h.options, e, inside, pow);
        (plan.None? ==> !prevented && Slot() == old(Slot())) &&
        (plan.Some? ==>
          prevented == transform(ZoomRequest(chart, plan.value.howMuch, plan.value.xAxis, plan.value.yAxis,
                                             plan.value.mouseX, plan.value.mouseY, h.options)) &&
          Slot() == AfterZoom(old(Slot()), chart.id, prevented))
      ensures composedClasses == old(composedClasses) && wheelHandlers == old(wheelHandlers)
    {
      prevented := false;
      var plan := PlanWheel(chart, h.options, e, inside, pow);
      if plan.Some? {
        var call := plan.value;
        var hasZoomed := ZoomBy(chart, call.howMuch, call.xAxis, call.yAxis, call.mouseX, call.mouseY, h.options, transform);
        if hasZoomed {
          prevented := true;
        }
      }
    }

    /** The 400 ms timer runs: the pending callback, if any, calls `drop` on
        its chart's pointer when the chart still has one. */
    method FireTimer(hasPointer: ChartId -> bool) returns (dropped: Option<ChartId>)
      requires Valid()
      modifies this
      ensures Valid()
      ensures Slot() == Fire(old(Slot())).0
      ensures dropped == (match Fire(old(Slot())).1
                          case Some(c) => if hasPointer(c) then Some(c) else None
                          case None => None)
      ensures composedClasses == old(composedClasses) && wheelHandlers == old(wheelHandlers)
    {
      dropped := None;
      if pending.Some? {
        var chart := pending.value.chart;
        pending := None;
        if hasPointer(chart) {
          dropped := Some(chart);
        }
      }
    }
  }
}
