// The streaming anomaly detector: a rolling window of samples and per-minute request counts
// for each group of metrics, and four rules over them.
module Anomaly {
  import opened Prelude
  import opened Statistics

  datatype Sample = Sample(status: int, duration: real)

  // `reading` is None when the status or the duration does not convert to a number.
  datatype Metric = Metric(route: string, apiKey: string, reading: Option<Sample>) {
    function Group(): string {
      route + ":" + apiKey
    }
  }

  // Requests in the current minute, and the counts of earlier active minutes.
  datatype Traffic = Traffic(minute: int, count: nat, counts: seq<nat>)

  datatype Config = Config(windowSize: nat, errorRate: real, latency: real, multiplier: real)

  datatype Finding =
    | ErrorRateSpike(share: real)
    | LatencySpike(p95: real)
    | OutlierLatency(duration: real)
    | TrafficSpike(count: nat, expected: real)

  // A deque of bounded length keeps the last entries.
  function Last<T>(xs: seq<T>, n: nat): seq<T> {
    if |xs| <= n then xs else xs[|xs| - n..]
  }

  // ----- The windows -------------------------------------------------------------------

  const IDLE := Traffic(0, 0, [])

  function Tick(traffic: Traffic, minute: int): Traffic {
    if traffic.minute == minute then traffic.(count := traffic.count + 1)
    else Traffic(minute, 1, Last(traffic.counts + [traffic.count], 5))
  }

  function Minute(now: real): (m: int)
    ensures 60.0 * m as real <= now < 60.0 * m as real + 60.0
  {
    now.Floor / 60
  }

  datatype State = State(samples: map<string, seq<Sample>>, traffic: map<string, Traffic>) {
    function SamplesOf(group: string): seq<Sample> {
      if group in samples then samples[group] else []
    }

    function TrafficOf(group: string): Traffic {
      if group in traffic then traffic[group] else IDLE
    }
  }

  function After(cfg: Config, state: State, metric: Metric, now: real): State {
    if metric.reading.None? then state
    else
      var group := metric.Group();
      State(state.samples[group := Last(state.SamplesOf(group) + [metric.reading.value], cfg.windowSize)],
            state.traffic[group := Tick(state.TrafficOf(group), Minute(now))])
  }

  // ----- The rules -------------------------------------------------------------------------

  function Durations(window: seq<Sample>): (ds: seq<real>)
    ensures |ds| == |window| && forall i :: 0 <= i < |window| ==> ds[i] == window[i].duration
  {
    seq(|window|, i requires 0 <= i < |window| => window[i].duration)
  }

  // How many samples of the window are server errors.
  function Errors(window: seq<Sample>): nat {
    if window == [] then 0
    else Errors(window[..|window| - 1]) + if 500 <= window[|window| - 1].status < 600 then 1 else 0
  }

  function ErrorShare(window: seq<Sample>): real
    requires window != []
  {
    Errors(window) as real / |window| as real
  }

  // The index int(n * 0.95) into n sorted samples.
  function P95Index(n: nat): (k: nat)
    ensures n > 0 ==> k < n
  {
    95 * n / 100
  }

  function P95(window: seq<Sample>): real
    requires window != []
  {
    Sorted(Durations(window))[P95Index(|window|)]
  }

  predicate ErrorRule(cfg: Config, window: seq<Sample>) {
    |window| >= 10 && ErrorShare(window) > cfg.errorRate
  }

  predicate LatencyRule(cfg: Config, window: seq<Sample>) {
    |window| >= 10 && P95(window) > cfg.latency
  }

  // The newest sample lies more than three standard deviations above the mean of the window
  // it belongs to.
  predicate OutlierRule(window: seq<Sample>) {
    |window| >= 10 &&
    var ds := Durations(window);
    Variance(ds) > 0.0 && AboveThreeSigma(ds[|ds| - 1] - Mean(ds), Variance(ds))
  }

  function Baseline(counts: seq<nat>): real
    requires counts != []
  {
    Total(counts) as real / |counts| as real
  }

  function Total(counts: seq<nat>): nat {
    if counts == [] then 0 else Total(counts[..|counts| - 1]) + counts[|counts| - 1]
  }

  predicate TrafficRule(cfg: Config, traffic: Traffic) {
    |traffic.counts| >= 2 && Baseline(traffic.counts) > 0.0 &&
    traffic.count as real > Times(Baseline(traffic.counts), cfg.multiplier)
  }

  // What the newest sample of a window, and the traffic it counts in, report.
  function WindowFindings(cfg: Config, window: seq<Sample>): seq<Finding> {
    (if ErrorRule(cfg, window) then [ErrorRateSpike(ErrorShare(window))] else []) +
    (if LatencyRule(cfg, window) then [LatencySpike(P95(window))] else []) +
    (if OutlierRule(window) then [OutlierLatency(window[|window| - 1].duration)] else [])
  }

  function TrafficFindings(cfg: Config, traffic: Traffic): seq<Finding> {
    if TrafficRule(cfg, traffic) then [TrafficSpike(traffic.count, Baseline(traffic.counts))] else []
  }

  function Findings(cfg: Config, state: State, group: string): seq<Finding> {
    WindowFindings(cfg, state.SamplesOf(group)) + TrafficFindings(cfg, state.TrafficOf(group))
  }

  predicate HasErrorSpike(found: seq<Finding>) {
    exists i :: 0 <= i < |found| && found[i].ErrorRateSpike?
  }

  predicate HasLatencySpike(found: seq<Finding>) {
    exists i :: 0 <= i < |found| && found[i].LatencySpike?
  }

  predicate HasOutlier(found: seq<Finding>) {
    exists i :: 0 <= i < |found| && found[i].OutlierLatency?
  }

  predicate HasTrafficSpike(found: seq<Finding>) {
    exists i :: 0 <= i < |found| && found[i].TrafficSpike?
  }

  class AnomalyDetector {
    const cfg: Config
    var samples: map<string, seq<Sample>>
    var trafficMinute: map<string, Traffic>

    constructor (cfg: Config)
      ensures this.cfg == cfg && samples == map[] && trafficMinute == map[]
    {
      this.cfg := cfg;
      samples := map[];
      trafficMinute := map[];
    }

    function Now(): State
      reads this
    {
      State(samples, trafficMinute)
    }

    // check, with the clock as a parameter. The clock shows Unix time.
    method Check(metric: Metric, now: real) returns (found: seq<Finding>)
      requires now >= 0.0
      modifies this`samples, this`trafficMinute
      ensures Now() == After(cfg, old(Now()), metric, now)
      ensures found == if metric.reading.None? then [] else Findings(cfg, Now(), metric.Group())
    {
      if metric.reading.None? {
        return [];
      }
      var sample := metric.reading.value;
      var group := metric.Group();

      var window := if group in samples then samples[group] else [];
      window := Last(window + [sample], cfg.windowSize);
      samples := samples[group := window];
      found := JudgeWindow(window, sample.duration);
      hide WindowFindings, TrafficFindings, Minute;

      var minute := Minute(now);
      var traffic := if group in trafficMinute then trafficMinute[group] else IDLE;
      if traffic.minute != minute {
        traffic := Traffic(minute, 0, Last(traffic.counts + [traffic.count], 5));
      }
      traffic := traffic.(count := traffic.count + 1);
      trafficMinute := trafficMinute[group := traffic];
      var more := JudgeTraffic(traffic);
      found := found + more;
    }

    // The rule over the traffic of a group: more requests in the current minute than the multiple
    // of the average, without the division.
    method JudgeTraffic(traffic: Traffic) returns (found: seq<Finding>)
      ensures found == TrafficFindings(cfg, traffic)
      ensures HasTrafficSpike(found) <==>
        |traffic.counts| >= 2 && Total(traffic.counts) > 0 &&
        Times(traffic.count as real, |traffic.counts| as real) > Times(Total(traffic.counts) as real, cfg.multiplier)
    {
      TrafficRuleIsAProduct(cfg, traffic);
      found := [];
      if |traffic.counts| >= 2 {
        var expected := Baseline(traffic.counts);
        if expected > 0.0 && traffic.count as real > Times(expected, cfg.multiplier) {
          found := [TrafficSpike(traffic.count, expected)];
          assert found[0].TrafficSpike?;
        }
      }
    }

    // The rules over the window; `duration` is that of its newest sample.
    method JudgeWindow(window: seq<Sample>, duration: real) returns (found: seq<Finding>)
      requires window != [] ==> duration == window[|window| - 1].duration
      ensures found == WindowFindings(cfg, window)
      ensures HasErrorSpike(found) <==>
        var failed := set i | 0 <= i < |window| && 500 <= window[i].status < 600;
        |window| >= 10 && |failed| as real > cfg.errorRate * |window| as real
      ensures HasLatencySpike(found) <==>
        |window| >= 10 && 20 * Above(Durations(window), cfg.latency) >= |window|
      ensures HasOutlier(found) ==> |window| >= 11
    {
      JudgementIsACount(cfg, window);
      hide Variance, AboveThreeSigma, Mean, ErrorShare, P95;
      found := [];
      if |window| >= 10 {
        if ErrorShare(window) > cfg.errorRate {
          found := found + [ErrorRateSpike(ErrorShare(window))];
        }
        var p95 := P95(window);
        if p95 > cfg.latency {
          found := found + [LatencySpike(p95)];
        }
        var ds := Durations(window);
        var variance := Variance(ds);
        if AboveThreeSigma(duration - Mean(ds), variance) && variance > 0.0 {
          found := found + [OutlierLatency(duration)];
        }
      }
    }
  }

  // ----- Runs ---------------------------------------------------------------------------------

  datatype Event = Event(metric: Metric, now: real)

  function StateBefore(cfg: Config, events: seq<Event>, n: nat): State
    requires n <= |events|
  {
    if n == 0 then State(map[], map[])
    else After(cfg, StateBefore(cfg, events, n - 1), events[n - 1].metric, events[n - 1].now)
  }

  // What event k reports.
  function FoundAt(cfg: Config, events: seq<Event>, k: nat): seq<Finding>
    requires k < |events|
  {
    if events[k].metric.reading.None? then []
    else Findings(cfg, StateBefore(cfg, events, k + 1), events[k].metric.Group())
  }

  // The readings of one group among the first n events.
  function Readings(events: seq<Event>, group: string, n: nat): seq<Sample>
    requires n <= |events|
  {
    if n == 0 then []
    else
      var metric := events[n - 1].metric;
      Readings(events, group, n - 1) +
      if metric.reading.Some? && metric.Group() == group then [metric.reading.value] else []
  }

  lemma LastOfLast<T>(xs: seq<T>, x: T, n: nat)
    ensures Last(Last(xs, n) + [x], n) == Last(xs + [x], n)
  {
  }

  // One metric changes the records of its own group only.
  lemma AfterOf(cfg: Config, state: State, metric: Metric, now: real, group: string)
    ensures
      var next := After(cfg, state, metric, now);
      if metric.reading.Some? && metric.Group() == group then
        && next.SamplesOf(group) == Last(state.SamplesOf(group) + [metric.reading.value], cfg.windowSize)
        && next.TrafficOf(group) == Tick(state.TrafficOf(group), Minute(now))
      else
        next.SamplesOf(group) == state.SamplesOf(group) && next.TrafficOf(group) == state.TrafficOf(group)
  {
  }

  // The window of a group is its last `windowSize` readings; other groups never show in it.
  lemma {:induction false} WindowIsLastReadings(cfg: Config, events: seq<Event>, group: string, n: nat)
    requires n <= |events|
    ensures StateBefore(cfg, events, n).SamplesOf(group) == Last(Readings(events, group, n), cfg.windowSize)
    decreases n
  {
    if n == 0 {
    } else {
      WindowIsLastReadings(cfg, events, group, n - 1);
      var metric := events[n - 1].metric;
      AfterOf(cfg, StateBefore(cfg, events, n - 1), metric, events[n - 1].now, group);
      hide After, Last, Tick;
      if metric.reading.Some? && metric.Group() == group {
        LastOfLast(Readings(events, group, n - 1), metric.reading.value, cfg.windowSize);
      }
    }
  }

  // That is the tail of the readings, as long as the window may be.
  lemma WindowIsATail(cfg: Config, events: seq<Event>, group: string, n: nat)
    requires n <= |events|
    ensures
      var window, readings := StateBefore(cfg, events, n).SamplesOf(group), Readings(events, group, n);
      && |window| == (if |readings| <= cfg.windowSize then |readings| else cfg.windowSize)
      && window == readings[|readings| - |window|..]
  {
    WindowIsLastReadings(cfg, events, group, n);
  }

  // The window the newest reading of event k is judged in.
  function WindowAt(cfg: Config, events: seq<Event>, k: nat): seq<Sample>
    requires k < |events|
  {
    Last(Readings(events, events[k].metric.Group(), k + 1), cfg.windowSize)
  }

  // Which findings a window gives.
  lemma WindowFindingsShowRules(cfg: Config, window: seq<Sample>)
    ensures HasErrorSpike(WindowFindings(cfg, window)) <==> ErrorRule(cfg, window)
    ensures HasLatencySpike(WindowFindings(cfg, window)) <==> LatencyRule(cfg, window)
    ensures HasOutlier(WindowFindings(cfg, window)) <==> OutlierRule(window)
  {
    var found := WindowFindings(cfg, window);
    var e := if ErrorRule(cfg, window) then 1 else 0;
    var l := if LatencyRule(cfg, window) then 1 else 0;
    if ErrorRule(cfg, window) {
      assert found[0] == ErrorRateSpike(ErrorShare(window));
    }
    if LatencyRule(cfg, window) {
      assert found[e] == LatencySpike(P95(window));
    }
    if OutlierRule(window) {
      assert found[e + l] == OutlierLatency(window[|window| - 1].duration);
    }
    hide ErrorRule, LatencyRule, OutlierRule;
  }

  lemma {:induction false} FindingsShowRules(cfg: Config, state: State, group: string)
    ensures HasErrorSpike(Findings(cfg, state, group)) <==> ErrorRule(cfg, state.SamplesOf(group))
    ensures HasLatencySpike(Findings(cfg, state, group)) <==> LatencyRule(cfg, state.SamplesOf(group))
    ensures HasOutlier(Findings(cfg, state, group)) <==> OutlierRule(state.SamplesOf(group))
  {
    hide ErrorRule, LatencyRule, OutlierRule, TrafficRule;
    var window, traffic := WindowFindings(cfg, state.SamplesOf(group)), TrafficFindings(cfg, state.TrafficOf(group));
    WindowFindingsShowRules(cfg, state.SamplesOf(group));
    hide WindowFindings;
    assert forall i :: 0 <= i < |window| ==> (window + traffic)[i] == window[i];
    assert forall i :: 0 <= i < |traffic| ==> traffic[i].TrafficSpike?;
  }

  lemma JudgementIsACount(cfg: Config, window: seq<Sample>)
    ensures HasErrorSpike(WindowFindings(cfg, window)) <==>
      var failed := set i | 0 <= i < |window| && 500 <= window[i].status < 600;
      |window| >= 10 && |failed| as real > cfg.errorRate * |window| as real
    ensures HasLatencySpike(WindowFindings(cfg, window)) <==>
      |window| >= 10 && 20 * Above(Durations(window), cfg.latency) >= |window|
    ensures HasOutlier(WindowFindings(cfg, window)) ==> |window| >= 11
  {
    WindowFindingsShowRules(cfg, window);
    ErrorRuleIsACount(cfg, window);
    if |window| >= 10 {
      P95Means(window, cfg.latency);
    }
    if |window| <= 10 {
      TenSamplesHoldNoOutlier(window);
    }
    hide WindowFindings, ErrorRule, OutlierRule, P95, HasErrorSpike, HasLatencySpike, HasOutlier;
  }

  // The p95 is a duration of the window, and it exceeds a bound exactly if at least a twentieth of
  // the window does.
  lemma P95Means(window: seq<Sample>, bound: real)
    requires window != []
    ensures P95(window) in Durations(window)
    ensures P95(window) > bound <==> 20 * Above(Durations(window), bound) >= |window|
  {
    var ds, k := Durations(window), P95Index(|window|);
    RankExceedsIff(ds, k, bound);
    assert Sorted(ds)[k] in multiset(Sorted(ds));
  }

  // What the findings say: the share of server errors, the p95, the newest duration, and the
  // average of the counts.
  lemma FindingsSay(cfg: Config, window: seq<Sample>, traffic: Traffic, found: Finding)
    ensures found.ErrorRateSpike? && found in WindowFindings(cfg, window) ==>
      var failed := set i | 0 <= i < |window| && 500 <= window[i].status < 600;
      Times(found.share, |window| as real) == |failed| as real
    ensures found.LatencySpike? && found in WindowFindings(cfg, window) ==> forall bound: real ::
      found.p95 > bound <==> 20 * Above(Durations(window), bound) >= |window|
    ensures found.OutlierLatency? && found in WindowFindings(cfg, window) ==>
      window != [] && found.duration == window[|window| - 1].duration
    ensures found in TrafficFindings(cfg, traffic) ==>
      && found.TrafficSpike? && found.count == traffic.count
      && Times(found.expected, |traffic.counts| as real) == Total(traffic.counts) as real
  {
    if found in WindowFindings(cfg, window) {
      if found.ErrorRateSpike? {
        assert found.share == ErrorShare(window);
        ErrorsCountPositions(window);
        ShareTimesWhole(Errors(window) as real, |window| as real);
      } else if found.LatencySpike? {
        forall bound: real
          ensures found.p95 > bound <==> 20 * Above(Durations(window), bound) >= |window|
        {
          P95Means(window, bound);
        }
      }
    }
    if found in TrafficFindings(cfg, traffic) {
      ShareTimesWhole(Total(traffic.counts) as real, |traffic.counts| as real);
    }
  }

  lemma ShareTimesWhole(part: real, whole: real)
    requires whole > 0.0
    ensures Times(part / whole, whole) == part
  {
  }

  lemma TrafficRuleIsAProduct(cfg: Config, traffic: Traffic)
    ensures TrafficRule(cfg, traffic) <==>
      |traffic.counts| >= 2 && Total(traffic.counts) > 0 &&
      Times(traffic.count as real, |traffic.counts| as real) > Times(Total(traffic.counts) as real, cfg.multiplier)
  {
    if |traffic.counts| >= 2 {
      var total, k := Total(traffic.counts) as real, |traffic.counts| as real;
      AverageExceededIff(traffic.count as real, total, k, cfg.multiplier);
    }
  }

  lemma AverageExceededIff(count: real, total: real, k: real, multiplier: real)
    requires k > 0.0 && total >= 0.0
    ensures total / k > 0.0 <==> total > 0.0
    ensures count > Times(total / k, multiplier) <==> Times(count, k) > Times(total, multiplier)
  {
    var average := total / k;
    assert average * k == total;
    assert average <= 0.0 ==> average * k <= 0.0;
    var margin := count - average * multiplier;
    assert margin * k == count * k - total * multiplier by {
      assert (average * multiplier) * k == (average * k) * multiplier;
    }
    assert margin > 0.0 ==> margin * k > 0.0;
    assert margin <= 0.0 ==> margin * k <= 0.0;
  }

  // p95 as counting: a latency spike is reported exactly when, among the last readings of the
  // group, at least a twentieth exceed the threshold.
  lemma {:induction false} LatencySpikeIsACount(cfg: Config, events: seq<Event>, k: nat)
    requires k < |events| && events[k].metric.reading.Some?
    ensures
      var window := WindowAt(cfg, events, k);
      HasLatencySpike(FoundAt(cfg, events, k))
      <==> |window| >= 10 && 20 * Above(Durations(window), cfg.latency) >= |window|
  {
    var group := events[k].metric.Group();
    WindowIsLastReadings(cfg, events, group, k + 1);
    FindingsShowRules(cfg, StateBefore(cfg, events, k + 1), group);
    var window := WindowAt(cfg, events, k);
    if |window| >= 10 {
      P95Means(window, cfg.latency);
    }
    hide P95, ErrorRule, OutlierRule;
  }

  // The newest reading is reported as an outlier exactly when it is more than three standard
  // deviations above the mean of ten or more samples that are not all alike.
  lemma OutlierMeans(window: seq<Sample>, mean: real, sigma: real)
    requires |window| >= 2 && sigma >= 0.0
    requires mean == Mean(Durations(window)) && Square(sigma) == Variance(Durations(window))
    ensures OutlierRule(window) <==>
      |window| >= 10 && sigma > 0.0 && window[|window| - 1].duration > mean + 3.0 * sigma
  {
    var variance := Variance(Durations(window));
    AboveThreeSigmaMeans(window[|window| - 1].duration - mean, sigma);
    if sigma > 0.0 {
      SquareIsPositive(sigma);
    }
    assert sigma == 0.0 ==> Square(sigma) == 0.0;
    hide Mean, Variance, AboveThreeSigma, Square;
  }

  // The count of server errors is the number of their positions.
  lemma {:induction false} ErrorsCountPositions(window: seq<Sample>)
    ensures Errors(window) == |set i | 0 <= i < |window| && 500 <= window[i].status < 600|
    decreases |window|
  {
    if window == [] {
    } else {
      ErrorsCountPositions(window[..|window| - 1]);
      LastPosition(window, window[..|window| - 1]);
    }
  }

  lemma LastPosition(window: seq<Sample>, init: seq<Sample>)
    requires window != [] && init == window[..|window| - 1]
    ensures
      |set i | 0 <= i < |window| && 500 <= window[i].status < 600|
      == |set i | 0 <= i < |init| && 500 <= init[i].status < 600|
         + if 500 <= window[|window| - 1].status < 600 then 1 else 0
  {
    var last := |init|;
    var before, after := (set i | 0 <= i < |init| && 500 <= init[i].status < 600),
      (set i | 0 <= i < |window| && 500 <= window[i].status < 600);
    assert after == before + if 500 <= window[last].status < 600 then {last} else {};
  }

  lemma ErrorRuleIsACount(cfg: Config, window: seq<Sample>)
    ensures ErrorRule(cfg, window) <==>
      var failed := set i | 0 <= i < |window| && 500 <= window[i].status < 600;
      |window| >= 10 && |failed| as real > cfg.errorRate * |window| as real
  {
    ErrorsCountPositions(window);
    if |window| >= 10 {
      ShareExceedsIff(Errors(window) as real, |window| as real, cfg.errorRate);
    }
    hide Errors;
  }

  // An error rate spike is reported exactly when more than the permitted share of the last
  // readings of the group are server errors.
  lemma {:induction false} ErrorSpikeIsACount(cfg: Config, events: seq<Event>, k: nat)
    requires k < |events| && events[k].metric.reading.Some?
    ensures
      var window := WindowAt(cfg, events, k);
      var failed := set i | 0 <= i < |window| && 500 <= window[i].status < 600;
      HasErrorSpike(FoundAt(cfg, events, k))
      <==> |window| >= 10 && |failed| as real > cfg.errorRate * |window| as real
  {
    hide ErrorRule, LatencyRule, OutlierRule, HasErrorSpike, Findings, Last;
    var group := events[k].metric.Group();
    WindowIsLastReadings(cfg, events, group, k + 1);
    FindingsShowRules(cfg, StateBefore(cfg, events, k + 1), group);
    ErrorRuleIsACount(cfg, WindowAt(cfg, events, k));
  }

  lemma ShareExceedsIff(part: real, whole: real, rate: real)
    requires whole > 0.0
    ensures part / whole > rate <==> part > rate * whole
  {
    var share := part / whole;
    assert share * whole == part;
    if share > rate {
      assert (share - rate) * whole > 0.0;
    } else {
      assert (rate - share) * whole >= 0.0;
    }
  }

  // ----- The outlier rule ------------------------------------------------------------------------

  // A window of ten samples cannot hold an outlier: the newest sample is one of them, and by
  // Samuelson's inequality it is at most 9 / sqrt(10) < 3 deviations from their mean.
  lemma TenSamplesHoldNoOutlier(window: seq<Sample>)
    requires |window| <= 10
    ensures !OutlierRule(window)
  {
    if |window| == 10 {
      var ds := Durations(window);
      var d, spread := ds[9] - Mean(ds), Spread(ds, Mean(ds));
      Samuelson(ds);
      assert Times(10.0, Square(d)) == 10.0 * Square(d);
      assert Times(9.0, spread) == 9.0 * spread;
    }
  }

  lemma TenEqualAndOne(ds: seq<real>, a: real)
    requires |ds| == 11 && forall i :: 0 <= i < 10 ==> ds[i] == a
    ensures
      var u := (ds[10] - a) / 11.0;
      ds[10] - Mean(ds) == 10.0 * u && Variance(ds) == 11.0 * Square(u)
  {
    var init, u := ds[..10], (ds[10] - a) / 11.0;
    ConstantSamples(init, a, a);
    ConstantSamples(init, a, Mean(ds));
    assert Times(10.0, a) == 10.0 * a;
    assert Mean(ds) == (10.0 * a + ds[10]) / 11.0 == a + u;
    assert Square(a - Mean(ds)) == Square(u);
    assert Square(ds[10] - Mean(ds)) == 100.0 * Square(u);
    assert Times(10.0, Square(u)) == 10.0 * Square(u);
  }

  // Eleven can: ten equal samples and then any larger one.
  lemma LargerEleventhIsAnOutlier(window: seq<Sample>, a: real)
    requires |window| == 11 && window[10].duration > a
    requires forall i :: 0 <= i < 10 ==> window[i].duration == a
    ensures OutlierRule(window)
  {
    var ds, u := Durations(window), (window[10].duration - a) / 11.0;
    TenEqualAndOne(ds, a);
    SquareIsPositive(u);
    assert Square(10.0 * u) == 100.0 * Square(u);
    hide Variance, Mean, Square;
  }

  // So a detector can ever report an outlier exactly when its window holds more than ten samples.
  lemma OutliersNeedElevenSamples(cfg: Config)
    ensures (exists events: seq<Event>, k: nat :: k < |events| && HasOutlier(FoundAt(cfg, events, k)))
      <==> cfg.windowSize > 10
  {
    forall events: seq<Event>, k: nat | k < |events| && HasOutlier(FoundAt(cfg, events, k))
      ensures cfg.windowSize > 10
    {
      var group := events[k].metric.Group();
      WindowIsLastReadings(cfg, events, group, k + 1);
      FindingsShowRules(cfg, StateBefore(cfg, events, k + 1), group);
      if cfg.windowSize <= 10 {
        TenSamplesHoldNoOutlier(WindowAt(cfg, events, k));
      }
    }
    if cfg.windowSize > 10 {
      var events := TenThenOne(cfg);
      assert HasOutlier(FoundAt(cfg, events, 10));
    }
  }

  lemma TenThenOne(cfg: Config) returns (events: seq<Event>)
    requires cfg.windowSize > 10
    ensures |events| == 11 && HasOutlier(FoundAt(cfg, events, 10))
  {
    events := seq(11, i => Event(Metric("r", "k", Some(Sample(200, if i < 10 then 1.0 else 2.0))), 0.0));
    var group := events[10].metric.Group();
    ReadingsOfOneGroup(events, group, 11);
    WindowIsLastReadings(cfg, events, group, 11);
    FindingsShowRules(cfg, StateBefore(cfg, events, 11), group);
    LargerEleventhIsAnOutlier(WindowAt(cfg, events, 10), 1.0);
  }

  lemma {:induction false} ReadingsOfOneGroup(events: seq<Event>, group: string, n: nat)
    requires n <= |events|
    requires forall i :: 0 <= i < |events| ==> events[i].metric.reading.Some? && events[i].metric.Group() == group
    ensures |Readings(events, group, n)| == n
    ensures forall i :: 0 <= i < n ==> Readings(events, group, n)[i] == events[i].metric.reading.value
    decreases n
  {
    if n == 0 {
    } else {
      ReadingsOfOneGroup(events, group, n - 1);
    }
  }

  // ----- The traffic rule -------------------------------------------------------------------------

  // The minutes in which the readings of one group arrived.
  function Minutes(events: seq<Event>, group: string, n: nat): seq<int>
    requires n <= |events|
  {
    if n == 0 then []
    else
      var metric := events[n - 1].metric;
      Minutes(events, group, n - 1) +
      if metric.reading.Some? && metric.Group() == group then [Minute(events[n - 1].now)] else []
  }

  // One more in the last of the minutes counted.
  function OneMore(counts: seq<nat>): (more: seq<nat>)
    requires counts != []
    ensures more != []
  {
    counts[..|counts| - 1] + [counts[|counts| - 1] + 1]
  }

  // How many of them fall into each active minute, oldest first.
  function PerMinute(ms: seq<int>): (counts: seq<nat>)
    ensures ms != [] ==> counts != []
  {
    if ms == [] then []
    else
      var init := ms[..|ms| - 1];
      if init != [] && init[|init| - 1] == ms[|ms| - 1] then OneMore(PerMinute(init)) else PerMinute(init) + [1]
  }

  // The traffic record of a group that has been seen in the minutes `ms`.
  function Seen(ms: seq<int>): Traffic {
    if ms == [] then IDLE
    else
      var counts := PerMinute(ms);
      Traffic(ms[|ms| - 1], counts[|counts| - 1], Last([0] + counts[..|counts| - 1], 5))
  }

  lemma PerMinuteUnfolds(ms: seq<int>, minute: int, all: seq<int>)
    requires all != [] && ms == all[..|all| - 1] && minute == all[|all| - 1]
    ensures PerMinute(all) ==
      if ms != [] && ms[|ms| - 1] == minute then OneMore(PerMinute(ms)) else PerMinute(ms) + [1]
  {
    hide OneMore;
  }

  lemma PerMinuteGrows(ms: seq<int>, minute: int)
    ensures PerMinute(ms + [minute]) ==
      if ms != [] && ms[|ms| - 1] == minute then OneMore(PerMinute(ms)) else PerMinute(ms) + [1]
  {
    hide PerMinute, OneMore;
    assert (ms + [minute])[..|ms + [minute]| - 1] == ms;
    PerMinuteUnfolds(ms, minute, ms + [minute]);
  }

  // The records of a list of counts, seen last in a given minute.
  function SeenCounts(minute: int, counts: seq<nat>): Traffic
    requires counts != []
  {
    Traffic(minute, counts[|counts| - 1], Last([0] + counts[..|counts| - 1], 5))
  }

  lemma TickInMinute(minute: int, counts: seq<nat>)
    requires counts != []
    ensures
      Tick(SeenCounts(minute, counts), minute) == SeenCounts(minute, OneMore(counts))
  {
    hide Last;
    var last := |counts| - 1;
    assert OneMore(counts)[..last] == counts[..last];
  }

  lemma TickNextMinute(before: int, minute: int, counts: seq<nat>)
    requires counts != [] && before != minute
    ensures Tick(SeenCounts(before, counts), minute) == SeenCounts(minute, counts + [1])
  {
    hide Last;
    var last, longer := |counts| - 1, counts + [1];
    var past := [0] + counts[..last];
    LastOfLast(past, counts[last], 5);
    assert longer[..|longer| - 1] == counts;
    assert past + [counts[last]] == [0] + counts by { assert counts[..last] + [counts[last]] == counts; }
  }

  lemma {:induction false} TickSees(ms: seq<int>, minute: int)
    requires minute != 0
    ensures Tick(Seen(ms), minute) == Seen(ms + [minute])
  {
    var counts := PerMinute(ms);
    PerMinuteGrows(ms, minute);
    if ms == [] {
      assert counts == [];
      hide PerMinute;
      FirstTick(minute);
    } else {
      hide PerMinute, Tick, Last;
      assert Seen(ms) == SeenCounts(ms[|ms| - 1], counts);
      if ms[|ms| - 1] == minute {
        TickInMinute(minute, counts);
      } else {
        TickNextMinute(ms[|ms| - 1], minute, counts);
      }
    }
  }

  lemma FirstTick(minute: int)
    requires minute != 0
    ensures Tick(IDLE, minute) == SeenCounts(minute, [1])
  {
    assert [0] + [1][..0] == [0];
  }

  // The record of a group holds the counts of its active minutes and, before them all, a
  // minute with no requests that never was: the record starts at minute zero of the epoch.
  lemma {:induction false} TrafficIsPerActiveMinute(cfg: Config, events: seq<Event>, group: string, n: nat)
    requires n <= |events| && forall k :: 0 <= k < |events| ==> events[k].now >= 60.0
    ensures StateBefore(cfg, events, n).TrafficOf(group) == Seen(Minutes(events, group, n))
    decreases n
  {
    if n == 0 {
      assert Minutes(events, group, 0) == [];
    } else {
      assert Minute(events[n - 1].now) >= 1;
      hide After, Tick, Seen, Minute;
      TrafficIsPerActiveMinute(cfg, events, group, n - 1);
      var metric := events[n - 1].metric;
      AfterOf(cfg, StateBefore(cfg, events, n - 1), metric, events[n - 1].now, group);
      if metric.reading.Some? && metric.Group() == group {
        TickSees(Minutes(events, group, n - 1), Minute(events[n - 1].now));
      } else {
        assert Minutes(events, group, n) == Minutes(events, group, n - 1);
      }
    }
  }

  lemma SeenInTwo(ms: seq<int>)
    requires |PerMinute(ms)| == 2
    ensures Seen(ms).counts == [0, PerMinute(ms)[0]] && Seen(ms).count == PerMinute(ms)[1]
  {
    assert [0] + PerMinute(ms)[..1] == [0, PerMinute(ms)[0]];
  }

  // So the first minute of a group is never a spike, and its second one is measured against
  // half of the first, not against the average of the previous minutes.
  lemma SecondMinuteIsMeasuredAgainstHalf(cfg: Config, ms: seq<int>)
    ensures |PerMinute(ms)| <= 1 ==> !TrafficRule(cfg, Seen(ms))
    ensures |PerMinute(ms)| == 2 ==>
      (TrafficRule(cfg, Seen(ms)) <==>
        PerMinute(ms)[0] > 0 && PerMinute(ms)[1] as real > Times(PerMinute(ms)[0] as real / 2.0, cfg.multiplier))
  {
    hide Times, PerMinute, Baseline, Total;
    if |PerMinute(ms)| == 2 {
      SeenInTwo(ms);
      HalfBaseline(PerMinute(ms)[0]);
      hide Seen;
    } else {
      SeenInOne(ms);
      hide Seen;
    }
  }

  lemma SeenInOne(ms: seq<int>)
    ensures |PerMinute(ms)| <= 1 ==> |Seen(ms).counts| <= 1
  {
  }

  lemma HalfBaseline(count: nat)
    ensures Baseline([0, count]) == count as real / 2.0 && (Baseline([0, count]) > 0.0 <==> count > 0)
  {
    var past := [0, count];
    assert past[..1] == [0] && [0][..0] == [];
    assert Total([0]) == 0 && Total(past) == count;
  }

  lemma {:induction false} ActiveMinutesCount(ms: seq<int>)
    ensures forall i :: 0 <= i < |PerMinute(ms)| ==> PerMinute(ms)[i] >= 1
  {
    if ms == [] {
    } else {
      ActiveMinutesCount(ms[..|ms| - 1]);
    }
  }

  lemma {:induction false} TotalBehindZero(xs: seq<nat>)
    ensures Total([0] + xs) == Total(xs)
  {
    if xs == [] {
    } else {
      var last := |xs| - 1;
      TotalBehindZero(xs[..last]);
      assert ([0] + xs)[..|xs|] == [0] + xs[..last];
    }
  }

  lemma {:induction false} TotalIsPositive(xs: seq<nat>)
    requires xs != [] && forall i :: 0 <= i < |xs| ==> xs[i] >= 1
    ensures Total(xs) >= 1
  {
    if |xs| == 1 {
      assert xs[..0] == [];
    } else {
      TotalIsPositive(xs[..|xs| - 1]);
    }
  }

  // What the documentation says: the current minute exceeds a multiple of the average of the
  // previous active minutes, at most five of them.
  predicate DocumentedRule(ms: seq<int>, multiplier: real)
    requires |PerMinute(ms)| >= 2
  {
    var counts := PerMinute(ms);
    var last := |counts| - 1;
    counts[last] as real > Times(Baseline(Last(counts[..last], 5)), multiplier)
  }

  ghost predicate RuleIsDocumented(cfg: Config, ms: seq<int>)
    requires |PerMinute(ms)| >= 2
  {
    forall multiplier: real ::
      TrafficRule(cfg.(multiplier := multiplier), Seen(ms)) <==> DocumentedRule(ms, multiplier)
  }

  // A phantom minute dilutes the average of k minutes to k / (k + 1) of it.
  lemma DilutedBaseline(past: seq<nat>)
    requires past != [] && forall i :: 0 <= i < |past| ==> past[i] >= 1
    ensures 0.0 < Baseline([0] + past) < Baseline(past)
  {
    TotalBehindZero(past);
    TotalIsPositive(past);
    var t, k := Total(past) as real, |past| as real;
    Quotients(t, k);
  }

  lemma Quotients(t: real, k: real)
    requires t > 0.0 && k > 0.0
    ensures 0.0 < t / (k + 1.0) < t / k
  {
    var a, b := t / k, t / (k + 1.0);
    assert a * k == t && b * (k + 1.0) == t;
    assert b <= 0.0 ==> b * (k + 1.0) <= 0.0;
    assert b >= a ==> (b - a) * k >= 0.0;
  }

  // With a smaller baseline some multiplier makes a spike of a count that is none.
  lemma SomeMultiplierTells(count: real, smaller: real, baseline: real) returns (multiplier: real)
    requires count > 0.0 && 0.0 < smaller < baseline
    ensures count > Times(smaller, multiplier) && !(count > Times(baseline, multiplier))
  {
    multiplier := count / baseline;
    assert baseline * multiplier == count;
    assert multiplier > 0.0;
    assert (baseline - smaller) * multiplier > 0.0;
  }

  // The baseline is the average of the previous active minutes, at most five, exactly when there
  // are at least five.
  lemma BaselineIsAverageIff(ms: seq<int>)
    requires |PerMinute(ms)| >= 2
    ensures
      var past := PerMinute(ms)[..|PerMinute(ms)| - 1];
      Baseline(Seen(ms).counts) == Baseline(Last(past, 5)) <==> |past| >= 5
  {
    var past := PerMinute(ms)[..|PerMinute(ms)| - 1];
    ActiveMinutesCount(ms);
    if |past| >= 5 {
      assert Last([0] + past, 5) == Last(past, 5);
    } else {
      assert Last([0] + past, 5) == [0] + past && Last(past, 5) == past;
      DilutedBaseline(past);
      hide Baseline;
    }
  }

  lemma LateRuleIsDocumented(cfg: Config, ms: seq<int>, multiplier: real)
    requires |PerMinute(ms)| >= 6
    ensures TrafficRule(cfg.(multiplier := multiplier), Seen(ms)) <==> DocumentedRule(ms, multiplier)
  {
    var counts := PerMinute(ms);
    assert ms != [];
    ActiveMinutesCount(ms);
    hide Times, PerMinute, Total;
    var past := counts[..|counts| - 1];
    assert Last([0] + past, 5) == Last(past, 5);
    var recent := Last(past, 5);
    TotalIsPositive(recent);
    Quotients(Total(recent) as real, |recent| as real);
    assert Baseline(recent) > 0.0;
    hide Baseline;
  }

  lemma EarlyRuleDiffers(cfg: Config, ms: seq<int>) returns (multiplier: real)
    requires 2 <= |PerMinute(ms)| < 6
    ensures TrafficRule(cfg.(multiplier := multiplier), Seen(ms)) && !DocumentedRule(ms, multiplier)
  {
    var counts := PerMinute(ms);
    assert ms != [];
    ActiveMinutesCount(ms);
    hide Times, PerMinute, Baseline;
    var last := |counts| - 1;
    var past := counts[..last];
    assert Seen(ms).counts == [0] + past && Last(past, 5) == past;
    DilutedBaseline(past);
    multiplier := SomeMultiplierTells(counts[last] as real, Baseline([0] + past), Baseline(past));
  }

  // The rule is the documented one, whatever the multiplier, exactly from the sixth active minute
  // of a group on; before that the phantom minute makes it raise spikes that are none.
  lemma RuleIsDocumentedIff(cfg: Config, ms: seq<int>)
    requires |PerMinute(ms)| >= 2
    ensures RuleIsDocumented(cfg, ms) <==> |PerMinute(ms)| >= 6
  {
    hide TrafficRule, DocumentedRule, Seen, PerMinute;
    if |PerMinute(ms)| >= 6 {
      forall multiplier: real
        ensures TrafficRule(cfg.(multiplier := multiplier), Seen(ms)) <==> DocumentedRule(ms, multiplier)
      {
        LateRuleIsDocumented(cfg, ms, multiplier);
      }
    } else {
      var multiplier := EarlyRuleDiffers(cfg, ms);
    }
  }

  // For a run: the detector raises traffic spikes as documented from the sixth active minute of
  // the group on.
  lemma {:induction false} TrafficSpikeIsDocumented(cfg: Config, events: seq<Event>, k: nat)
    requires k < |events| && events[k].metric.reading.Some?
    requires forall i :: 0 <= i < |events| ==> events[i].now >= 60.0
    ensures
      var ms := Minutes(events, events[k].metric.Group(), k + 1);
      |PerMinute(ms)| >= 6 ==> (HasTrafficSpike(FoundAt(cfg, events, k)) <==> DocumentedRule(ms, cfg.multiplier))
  {
    var group := events[k].metric.Group();
    var ms, state := Minutes(events, group, k + 1), StateBefore(cfg, events, k + 1);
    TrafficIsPerActiveMinute(cfg, events, group, k + 1);
    TrafficFindingShows(cfg, state, group);
    if |PerMinute(ms)| >= 6 {
      RuleIsDocumentedIff(cfg, ms);
      assert cfg.(multiplier := cfg.multiplier) == cfg;
      hide DocumentedRule, TrafficRule, Seen, HasTrafficSpike;
    }
  }

  lemma TrafficFindingShows(cfg: Config, state: State, group: string)
    ensures HasTrafficSpike(Findings(cfg, state, group)) <==> TrafficRule(cfg, state.TrafficOf(group))
  {
    var found := Findings(cfg, state, group);
    if TrafficRule(cfg, state.TrafficOf(group)) {
      assert found[|found| - 1].TrafficSpike?;
    }
    hide ErrorRule, LatencyRule, OutlierRule, TrafficRule;
  }
}
