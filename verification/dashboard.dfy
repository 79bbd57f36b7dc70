/**
  The view logic of the browser dashboard (web/js/index.js): the state the
  page keeps, the stats refresh with its chart series, the domain lookup
  box, the on/off switch and the auto-update timer. Every handler is a pure
  step on a `View`; HTTP replies arrive as arguments, a new interval timer's
  id is an argument, and the set of live interval timers is part of the
  state. Rendering is left out: a chart is the pair of columns handed to
  the chart library.
*/
module Dashboard {
  import opened Results

  /** The JavaScript values the lookup box shows. */
  datatype JsValue =
    | Undefined
    | Null
    | JsBool(b: bool)
    | JsNumber(n: int)
    | JsString(s: string)
    | JsArray(elems: seq<JsValue>)

  /** JavaScript truthiness; an array, even empty, is truthy. */
  predicate Truthy(v: JsValue) {
    match v
    case Undefined => false
    case Null => false
    case JsBool(b) => b
    case JsNumber(n) => n != 0
    case JsString(s) => |s| > 0
    case JsArray(_) => true
  }

  /** The data columns of a chart without their "x" and "qps" headers. */
  datatype Chart = Chart(xs: seq<int>, ys: seq<int>)

  /** The page state (`data` of the Vue app). `qps` is `None` when the reply
      had no buffer; `chart` is the last chart generated. */
  datatype View = View(
    qps: Option<seq<int>>,
    numDomainTotal: int,
    numDomainBlocked: int,
    queryTotal: int,
    queryBlocked: int,
    percentageBlocked: real,
    timeStarted: int,
    lastUpdated: int,
    loading: bool,
    chart: Option<Chart>,
    active: bool,
    autoUpdate: bool,
    autoUpdateId: int,
    autoUpdateInterval: int,
    timers: set<int>,
    domainQuestion: string,
    domainAnswerCache: JsValue,
    domainAnswerQuery: JsValue)

  /** The state when the page loads. */
  const Initial := View(Some([]), 0, 0, 0, 0, 0.0, 0, 0, true, None, false, false, 0, 10, {},
                        "", JsString(""), JsString(""))

  /** One point of the series: a second and its query count. */
  datatype Point = Point(time: int, value: int)

  /** `p` is the point of a positive slot of `qps`, the buffer starting at
      second `timeStart`. */
  predicate IsPointOf(qps: seq<int>, timeStart: int, p: Point) {
    timeStart <= p.time < timeStart + |qps| && p.value == qps[p.time - timeStart] && p.value > 0
  }

  /** The times of the points strictly increase. */
  predicate Increasing(ps: seq<Point>) {
    forall k, l :: 0 <= k < l < |ps| ==> ps[k].time < ps[l].time
  }

  /** The reference series: slot `i` of the buffer becomes the point
      `(timeStart + i, qps[i])` when its count is positive, in slot order.
      Every point it holds is the point of a positive slot. */
  function Points(qps: seq<int>, timeStart: int): (r: seq<Point>)
    ensures |r| <= |qps|
    ensures forall k :: 0 <= k < |r| ==> IsPointOf(qps, timeStart, r[k])
  {
    if |qps| == 0 then []
    else
      var n := |qps| - 1;
      var init := Points(qps[..n], timeStart);
      assert forall k :: 0 <= k < |init| ==> IsPointOf(qps[..n], timeStart, init[k]);
      assert forall k :: 0 <= k < |init| ==> IsPointOf(qps, timeStart, init[k]);
      if qps[n] > 0 then init + [Point(timeStart + n, qps[n])] else init
  }

  /** The series is in increasing time order. */
  lemma {:induction false} PointsIncreasing(qps: seq<int>, timeStart: int)
    ensures Increasing(Points(qps, timeStart))
  {
    if |qps| > 0 {
      var n := |qps| - 1;
      PointsIncreasing(qps[..n], timeStart);
      var init := Points(qps[..n], timeStart);
      assert forall k :: 0 <= k < |init| ==> init[k].time < timeStart + n by {
        forall k | 0 <= k < |init| ensures init[k].time < timeStart + n {
          assert IsPointOf(qps[..n], timeStart, init[k]);
        }
      }
    }
  }

  /** Every positive slot is charted. */
  lemma {:induction false} PointsComplete(qps: seq<int>, timeStart: int, i: int)
    requires 0 <= i < |qps| && qps[i] > 0
    ensures Point(timeStart + i, qps[i]) in Points(qps, timeStart)
  {
    var n := |qps| - 1;
    if i < n {
      PointsComplete(qps[..n], timeStart, i);
    }
  }

  /** Only headers are charted exactly when no slot is positive. */
  lemma PointsEmpty(qps: seq<int>, timeStart: int)
    ensures |Points(qps, timeStart)| == 0 <==> forall i :: 0 <= i < |qps| ==> qps[i] <= 0
  {
    if exists i :: 0 <= i < |qps| && qps[i] > 0 {
      var i :| 0 <= i < |qps| && qps[i] > 0;
      PointsComplete(qps, timeStart, i);
    }
  }

  /** The loop of `generateChart`: the x column gets `lastUpdated -
      |qps| + i` and the y column `qps[i]` for every positive slot `i`. The
      two columns pair up into exactly the reference series. */
  method ChartColumns(qps: seq<int>, lastUpdated: int) returns (c: Chart)
    ensures |c.xs| == |c.ys| == |Points(qps, lastUpdated - |qps|)|
    ensures forall k :: 0 <= k < |c.xs| ==> Point(c.xs[k], c.ys[k]) == Points(qps, lastUpdated - |qps|)[k]
  {
    var timeStart := lastUpdated - |qps|;
    var xPlot: seq<int> := [];
    var yPlot: seq<int> := [];
    var i := 0;
    while i < |qps|
      invariant 0 <= i <= |qps|
      invariant |xPlot| == |yPlot| == |Points(qps[..i], timeStart)|
      invariant forall k :: 0 <= k < |xPlot| ==> Point(xPlot[k], yPlot[k]) == Points(qps[..i], timeStart)[k]
    {
      assert qps[..i + 1][..i] == qps[..i];
      if qps[i] > 0 {
        var timestamp := timeStart + i;
        xPlot := xPlot + [timestamp];
        yPlot := yPlot + [qps[i]];
      }
      i := i + 1;
    }
    assert qps[..i] == qps;
    c := Chart(xPlot, yPlot);
  }

  /** The chart `generateChart` hands to the chart library. */
  function ChartOf(qps: seq<int>, lastUpdated: int): (c: Chart)
    ensures |c.xs| == |c.ys| == |Points(qps, lastUpdated - |qps|)| <= |qps|
    ensures forall k :: 0 <= k < |c.xs| ==> Point(c.xs[k], c.ys[k]) == Points(qps, lastUpdated - |qps|)[k]
  {
    var p := Points(qps, lastUpdated - |qps|);
    Chart(seq(|p|, k requires 0 <= k < |p| => p[k].time), seq(|p|, k requires 0 <= k < |p| => p[k].value))
  }

  /** The buffer [0, 0, 3, 5, 0, 2] last updated at second 1000 charts the
      seconds 996, 997 and 999. */
  lemma ChartExample()
    ensures Points([0, 0, 3, 5, 0, 2], 1000 - 6) == [Point(996, 3), Point(997, 5), Point(999, 2)]
  {
    var q := [0, 0, 3, 5, 0, 2];
    assert q[..5] == [0, 0, 3, 5, 0];
    assert q[..5][..4] == [0, 0, 3, 5];
    assert q[..5][..4][..3] == [0, 0, 3];
    assert q[..5][..4][..3][..2] == [0, 0];
    assert q[..5][..4][..3][..2][..1] == [0];
    assert q[..5][..4][..3][..2][..1][..0] == [];
    assert Points([0, 0], 994) == [];
    assert Points([0, 0, 3], 994) == [Point(996, 3)];
    assert Points([0, 0, 3, 5], 994) == [Point(996, 3), Point(997, 5)];
    assert Points([0, 0, 3, 5, 0], 994) == [Point(996, 3), Point(997, 5)];
  }

  /** The fields of the `stats` object the page reads. */
  datatype StatsData = StatsData(
    qps: Option<seq<int>>,
    timeStarted: int,
    timeLast: int,
    domainCount: int,
    domainBlocked: int,
    queryCount: int,
    queryBlocked: int)

  /** `generateStats`: with a buffer the chart is generated; either way the
      page stops showing its loading text. */
  function GenerateStats(v: View): (r: View)
    ensures !r.loading
    ensures v.qps.Some? ==> r.chart == Some(ChartOf(v.qps.value, v.lastUpdated))
    ensures v.qps.None? ==> r.chart == v.chart
    ensures r.(loading := v.loading, chart := v.chart) == v
  {
    match v.qps
    case Some(q) => v.(chart := Some(ChartOf(q, v.lastUpdated)), loading := false)
    case None => v.(loading := false)
  }

  /** The success handler of `fetchStats`: the counters are copied, the
      blocked percentage is recomputed only when some query was counted
      (so it never divides by zero), and the stats are regenerated. */
  function FetchStats(v: View, data: StatsData): (r: View)
    ensures !r.loading
    ensures r.qps == data.qps && r.lastUpdated == data.timeLast
    ensures r.queryTotal == data.queryCount && r.queryBlocked == data.queryBlocked
    ensures r.numDomainTotal == data.domainCount && r.numDomainBlocked == data.domainBlocked
    ensures data.queryCount <= 0 ==> r.percentageBlocked == v.percentageBlocked
    ensures data.queryCount > 0 ==>
      r.percentageBlocked * (data.queryCount as real) == (data.queryBlocked as real) * 100.0
    ensures data.qps.Some? ==> r.chart == Some(ChartOf(data.qps.value, data.timeLast))
    ensures data.qps.None? ==> r.chart == v.chart
    ensures r.active == v.active && r.autoUpdate == v.autoUpdate && r.timers == v.timers
  {
    var v1 := v.(qps := data.qps, timeStarted := data.timeStarted, lastUpdated := data.timeLast,
                 numDomainTotal := data.domainCount, numDomainBlocked := data.domainBlocked,
                 queryTotal := data.queryCount, queryBlocked := data.queryBlocked);
    var v2 :=
      if v1.queryTotal > 0
      then v1.(percentageBlocked := (v1.queryBlocked as real) / (v1.queryTotal as real) * 100.0)
      else v1;
    GenerateStats(v2)
  }

  /** The live timers are the auto-update timer alone while auto-update is
      on, and none while it is off. */
  predicate TimerInvariant(v: View) {
    && v.timers == (if v.autoUpdate then {v.autoUpdateId} else {})
    && (v.autoUpdate ==> v.autoUpdateId != 0)
  }

  /** `toggle_autoupdate`, where `freshId` is the id `setInterval` returns:
      a non-positive interval becomes 10 seconds; the flag flips; turning on
      starts a timer, turning off clears the current one unless its id is
      zero. */
  function ToggleAutoUpdate(v: View, freshId: int): (r: View)
    ensures r.autoUpdateInterval > 0
    ensures v.autoUpdateInterval > 0 ==> r.autoUpdateInterval == v.autoUpdateInterval
    ensures v.autoUpdateInterval <= 0 ==> r.autoUpdateInterval == 10
    ensures r.autoUpdate == !v.autoUpdate
    ensures r.autoUpdate ==> r.autoUpdateId == freshId && r.timers == v.timers + {freshId}
    ensures !r.autoUpdate ==> r.autoUpdateId == v.autoUpdateId
    ensures !r.autoUpdate && v.autoUpdateId != 0 ==> r.timers == v.timers - {v.autoUpdateId}
    ensures !r.autoUpdate && v.autoUpdateId == 0 ==> r.timers == v.timers
  {
    var v1 := if v.autoUpdateInterval <= 0 then v.(autoUpdateInterval := 10) else v;
    var v2 := v1.(autoUpdate := !v1.autoUpdate);
    if v2.autoUpdate then v2.(autoUpdateId := freshId, timers := v2.timers + {freshId})
    else if v2.autoUpdateId != 0 then v2.(timers := v2.timers - {v2.autoUpdateId})
    else v2
  }

  /** With non-zero timer ids, toggling keeps exactly one live timer while
      auto-update is on and none while it is off. */
  lemma ToggleKeepsTimerInvariant(v: View, freshId: int)
    requires TimerInvariant(v) && freshId != 0
    ensures TimerInvariant(ToggleAutoUpdate(v, freshId))
  {
  }

  /** Two toggles from off leave no live timer, whatever the ids. */
  lemma TwoTogglesClearTimers(v: View, id1: int, id2: int)
    requires !v.autoUpdate && v.timers == {} && id1 != 0
    ensures var r := ToggleAutoUpdate(ToggleAutoUpdate(v, id1), id2);
      !r.autoUpdate && r.timers == {}
  {
  }

  /** A timer id of zero is never cleared: turning on with it and off again
      leaves it running. */
  lemma ZeroIdLeaks(v: View)
    requires !v.autoUpdate && v.timers == {}
    ensures var r := ToggleAutoUpdate(ToggleAutoUpdate(v, 0), 0);
      !r.autoUpdate && r.timers == {0}
  {
  }

  /** `Initial` satisfies the timer invariant. */
  lemma InitialTimerInvariant()
    ensures TimerInvariant(Initial) && Initial.loading
  {
  }

  const NoAnswer: string := "didn't get a valid answer"

  /** `queryDomain` when it sends the request: both answers are cleared. */
  function StartQuery(v: View): (r: View)
    ensures r.domainAnswerCache == JsString("") && r.domainAnswerQuery == JsString("")
    ensures r.(domainAnswerCache := v.domainAnswerCache, domainAnswerQuery := v.domainAnswerQuery) == v
  {
    v.(domainAnswerCache := JsString(""), domainAnswerQuery := JsString(""))
  }

  /** The success handler of `queryDomain`: the cache field is shown as it
      came; the query field is shown when truthy, otherwise the sentinel. */
  function OnQueryAnswer(v: View, cache: JsValue, query: JsValue): (r: View)
    ensures r.domainAnswerCache == cache
    ensures Truthy(r.domainAnswerQuery)
    ensures Truthy(query) ==> r.domainAnswerQuery == query
    ensures !Truthy(query) ==> r.domainAnswerQuery == JsString(NoAnswer)
    ensures r.(domainAnswerCache := v.domainAnswerCache, domainAnswerQuery := v.domainAnswerQuery) == v
  {
    v.(domainAnswerCache := cache,
       domainAnswerQuery := if Truthy(query) then query else JsString(NoAnswer))
  }

  /** The `state` parameter `setActive` sends. */
  function ActiveToken(state: bool): (t: string)
    ensures t == "On" || t == "Off"
    ensures t == "On" <==> state
  {
    if state then "On" else "Off"
  }

  /** The success handler of `setActive` and `getActive`: the flag comes
      from the reply alone, whatever was requested. */
  function OnActiveResponse(v: View, active: bool): (r: View)
    ensures r.active == active
    ensures r.(active := v.active) == v
  {
    v.(active := active)
  }
}
