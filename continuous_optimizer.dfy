/** The continuous optimiser's CSP-1 controller: when to optimise (a count
    of executions against an adaptive interval, or a drift in the latency
    history), how the interval adapts to the outcome of an optimisation,
    and the bounded histories it keeps. The optimisation itself, the clock,
    the files written and the monitoring thread are outside the model: a
    run's result and the trace durations come in as parameters. */
module ContinuousOptimizer {
  import opened Wrappers
  import opened Stats

  /** What `_run_optimization` hands back, as far as the controller reads
      it: its status and the two setup strings, `None` when absent. */
  datatype OptimizeResult = OptimizeResult(status: string, currentSetup: Option<string>, optimalSetup: Option<string>)

  /** `config_updates` for `update_csp_config`: `None` for a key not given. */
  datatype CspUpdate = CspUpdate(
    initialInterval: Option<int>, normalInterval: Option<int>, minInterval: Option<int>,
    maxConsecutiveSuccess: Option<int>, metricDriftThreshold: Option<real>)

  /** The most entries a history keeps. */
  const HistoryLimit := 100

  /** `history[-100:]` after a step that may have made it too long. */
  function KeepLast(history: seq<real>): (r: seq<real>)
    ensures |r| == if |history| > HistoryLimit then HistoryLimit else |history|
    ensures history == history[..|history| - |r|] + r
  {
    if |history| > HistoryLimit then history[|history| - HistoryLimit..] else history
  }

  /** Line 431: twice the interval, capped at the normal interval. */
  function Increased(interval: int, normal: int): (r: int)
    ensures r <= normal && r <= 2 * interval
    ensures r == normal || r == 2 * interval
  {
    if interval * 2 < normal then interval * 2 else normal
  }

  /** Line 439: half the interval (floor), but never below the minimum. */
  function Decreased(interval: int, minimum: int): (r: int)
    ensures r >= minimum && (r == minimum || r == interval / 2)
  {
    if interval / 2 > minimum then interval / 2 else minimum
  }

  /** Both adjustments keep a positive interval between the minimum and the
      normal interval. */
  lemma IntervalStaysInRange(interval: int, minimum: int, normal: int)
    requires 0 < minimum <= interval <= normal
    ensures minimum <= Increased(interval, normal) <= normal
    ensures interval <= Increased(interval, normal)
    ensures minimum <= Decreased(interval, minimum) <= normal
    ensures Decreased(interval, minimum) <= interval
  {
  }

  /** Halving undoes a doubling that the cap did not cut. */
  lemma DecreaseUndoesIncrease(interval: int, minimum: int, normal: int)
    requires minimum <= interval && 2 * interval <= normal
    ensures Decreased(Increased(interval, normal), minimum) == interval
  {
  }

  /** `abs(x)` on reals. */
  function Abs(x: real): real
  {
    if x < 0.0 then -x else x
  }

  /** Lines 178-203: the mean of the last five latencies against the mean of
      the five before them; needs ten points and a positive baseline. */
  function MetricDrift(history: seq<real>, threshold: real): (drift: bool)
    ensures drift ==> |history| >= 10
    ensures drift <==>
              |history| >= 10 &&
              var current := Average(history[|history| - 5..]);
              var baseline := Average(history[|history| - 10..|history| - 5]);
              baseline > 0.0 && Abs(current - baseline) > threshold * baseline
  {
    if |history| < 10 then false
    else
      var current := Average(history[|history| - 5..]);
      var baseline := Average(history[|history| - 10..|history| - 5]);
      baseline > 0.0 && Abs(current - baseline) / baseline > threshold
  }

  /** A history whose last ten values are equal never drifts, whatever the
      non-negative threshold. */
  lemma SteadyHistoryDoesNotDrift(history: seq<real>, threshold: real, v: real)
    requires threshold >= 0.0 && |history| >= 10
    requires forall i :: |history| - 10 <= i < |history| ==> history[i] == v
    ensures !MetricDrift(history, threshold)
  {
    var last := history[|history| - 5..];
    var prev := history[|history| - 10..|history| - 5];
    AverageBounds(last, v, v);
    AverageBounds(prev, v, v);
  }

  /** Lines 383-387: the latencies in ms of the traces with a duration; a
      missing or zero duration is skipped, as `if trace.duration` does. */
  function Latencies(durations: seq<Option<real>>): (r: seq<real>)
    ensures |r| <= |durations|
    ensures forall x :: x in r ==> exists d :: Some(d) in durations && d != 0.0 && x == d * 1000.0
  {
    if durations == [] then []
    else
      var last := durations[|durations| - 1];
      Latencies(durations[..|durations| - 1]) + (if last.Some? && last.value != 0.0 then [last.value * 1000.0] else [])
  }

  class ContinuousOptimizer {
    var initialInterval: int
    var normalInterval: int
    var minInterval: int
    var maxConsecutiveSuccess: int
    var metricDriftThreshold: real
    var executionsSinceLastOptimization: int
    var currentInterval: int
    var consecutiveSuccessfulOptimizations: int
    /** `metrics_history["latency"]`, empty while the key is absent. */
    var latencyHistory: seq<real>
    var optimizationHistory: seq<OptimizeResult>

    /** Lines 42-69. */
    constructor()
      ensures initialInterval == 100 && normalInterval == 1000 && minInterval == 50
      ensures maxConsecutiveSuccess == 3 && metricDriftThreshold == 0.15
      ensures executionsSinceLastOptimization == 0 && currentInterval == 100
      ensures consecutiveSuccessfulOptimizations == 0
      ensures latencyHistory == [] && optimizationHistory == []
    {
      initialInterval, normalInterval, minInterval := 100, 1000, 50;
      maxConsecutiveSuccess, metricDriftThreshold := 3, 0.15;
      executionsSinceLastOptimization := 0;
      currentInterval := initialInterval;
      consecutiveSuccessfulOptimizations := 0;
      latencyHistory, optimizationHistory := [], [];
    }

    /** Lines 149-168: optimise once the interval is reached or the latency
        drifts. */
    predicate ShouldRunOptimization(): (r: bool)
      reads this
      ensures executionsSinceLastOptimization >= currentInterval ==> r
      ensures r ==> executionsSinceLastOptimization >= currentInterval || |latencyHistory| >= 10
    {
      executionsSinceLastOptimization >= currentInterval || MetricDrift(latencyHistory, metricDriftThreshold)
    }

    /** Lines 428-434. */
    method IncreaseOptimizationInterval()
      modifies this
      ensures currentInterval == Increased(old(currentInterval), normalInterval)
      ensures unchanged(this`executionsSinceLastOptimization, this`consecutiveSuccessfulOptimizations, this`latencyHistory)
      ensures unchanged(this`normalInterval, this`minInterval, this`optimizationHistory)
      ensures unchanged(this`maxConsecutiveSuccess, this`metricDriftThreshold, this`initialInterval)
    {
      currentInterval := if currentInterval * 2 < normalInterval then currentInterval * 2 else normalInterval;
    }

    /** Lines 436-442. */
    method DecreaseOptimizationInterval()
      modifies this
      ensures currentInterval == Decreased(old(currentInterval), minInterval)
      ensures unchanged(this`executionsSinceLastOptimization, this`consecutiveSuccessfulOptimizations, this`latencyHistory)
      ensures unchanged(this`normalInterval, this`minInterval, this`optimizationHistory)
      ensures unchanged(this`maxConsecutiveSuccess, this`metricDriftThreshold, this`initialInterval)
    {
      currentInterval := if currentInterval / 2 > minInterval then currentInterval / 2 else minInterval;
    }

    /** Lines 336-376: a failed run changes nothing; a run that confirms the
        current setup counts one more success and, from the configured
        number of successes on, lengthens the interval; a run that finds a
        different setup resets the count. */
    method ProcessOptimizationResult(result: OptimizeResult)
      modifies this
      ensures result.status != "success" ==>
                consecutiveSuccessfulOptimizations == old(consecutiveSuccessfulOptimizations) &&
                currentInterval == old(currentInterval)
      ensures result.status == "success" && SetupOf(result.currentSetup) == SetupOf(result.optimalSetup) ==>
                consecutiveSuccessfulOptimizations == old(consecutiveSuccessfulOptimizations) + 1 &&
                currentInterval == (if consecutiveSuccessfulOptimizations >= maxConsecutiveSuccess
                                    then Increased(old(currentInterval), normalInterval)
                                    else old(currentInterval))
      ensures result.status == "success" && SetupOf(result.currentSetup) != SetupOf(result.optimalSetup) ==>
                consecutiveSuccessfulOptimizations == 0 && currentInterval == old(currentInterval)
      ensures unchanged(this`executionsSinceLastOptimization, this`latencyHistory, this`optimizationHistory)
      ensures unchanged(this`normalInterval, this`minInterval, this`maxConsecutiveSuccess, this`metricDriftThreshold)
      ensures unchanged(this`initialInterval)
    {
      if result.status != "success" {
        return;
      }
      var current := SetupOf(result.currentSetup);
      var optimal := SetupOf(result.optimalSetup);
      if current == optimal {
        consecutiveSuccessfulOptimizations := consecutiveSuccessfulOptimizations + 1;
        if consecutiveSuccessfulOptimizations >= maxConsecutiveSuccess {
          IncreaseOptimizationInterval();
        }
        return;
      }
      consecutiveSuccessfulOptimizations := 0;
    }

    /** Lines 378-402: the mean latency of the traces with a duration is
        appended to the history, which keeps its last 100 entries; the
        execution counter goes up by one either way. */
    method UpdateMetrics(durations: seq<Option<real>>)
      modifies this
      ensures Latencies(durations) == [] ==> latencyHistory == old(latencyHistory)
      ensures Latencies(durations) != [] ==>
                latencyHistory == KeepLast(old(latencyHistory) + [Average(Latencies(durations))])
      ensures |latencyHistory| <= HistoryLimit || latencyHistory == old(latencyHistory)
      ensures executionsSinceLastOptimization == old(executionsSinceLastOptimization) + 1
      ensures unchanged(this`currentInterval, this`consecutiveSuccessfulOptimizations, this`optimizationHistory)
      ensures unchanged(this`normalInterval, this`minInterval, this`maxConsecutiveSuccess, this`metricDriftThreshold)
      ensures unchanged(this`initialInterval)
    {
      var latencyValues: seq<real> := [];
      for k := 0 to |durations|
        invariant latencyValues == Latencies(durations[..k])
      {
        assert durations[..k + 1][..k] == durations[..k];
        if durations[k].Some? && durations[k].value != 0.0 {
          latencyValues := latencyValues + [durations[k].value * 1000.0];
        }
      }
      assert durations[..|durations|] == durations;
      if latencyValues != [] {
        var avgLatency := Average(latencyValues);
        latencyHistory := latencyHistory + [avgLatency];
        if |latencyHistory| > HistoryLimit {
          latencyHistory := latencyHistory[|latencyHistory| - HistoryLimit..];
        }
      }
      executionsSinceLastOptimization := executionsSinceLastOptimization + 1;
    }

    /** Lines 314-334 without the file written: the result is appended and
        the history keeps its last 100 entries. */
    method UpdateOptimizationHistory(result: OptimizeResult)
      modifies this
      ensures |optimizationHistory| == if |old(optimizationHistory)| >= HistoryLimit then HistoryLimit else |old(optimizationHistory)| + 1
      ensures optimizationHistory != [] && optimizationHistory[|optimizationHistory| - 1] == result
      ensures optimizationHistory[..|optimizationHistory| - 1] ==
                old(optimizationHistory)[|old(optimizationHistory)| - (|optimizationHistory| - 1)..]
      ensures unchanged(this`currentInterval, this`consecutiveSuccessfulOptimizations, this`latencyHistory)
      ensures unchanged(this`executionsSinceLastOptimization)
      ensures unchanged(this`normalInterval, this`minInterval, this`maxConsecutiveSuccess, this`metricDriftThreshold)
      ensures unchanged(this`initialInterval)
    {
      optimizationHistory := optimizationHistory + [result];
      if |optimizationHistory| > HistoryLimit {
        optimizationHistory := optimizationHistory[|optimizationHistory| - HistoryLimit..];
      }
    }

    /** Lines 482-496: the given keys replace the configuration; the
        current interval is then cut down to a new normal interval and
        raised up to a new minimum, in that order. */
    method UpdateCspConfig(updates: CspUpdate)
      modifies this
      ensures normalInterval == (if updates.normalInterval.Some? then updates.normalInterval.value else old(normalInterval))
      ensures minInterval == (if updates.minInterval.Some? then updates.minInterval.value else old(minInterval))
      ensures initialInterval == (if updates.initialInterval.Some? then updates.initialInterval.value else old(initialInterval))
      ensures maxConsecutiveSuccess ==
                (if updates.maxConsecutiveSuccess.Some? then updates.maxConsecutiveSuccess.value else old(maxConsecutiveSuccess))
      ensures metricDriftThreshold ==
                (if updates.metricDriftThreshold.Some? then updates.metricDriftThreshold.value else old(metricDriftThreshold))
      ensures var capped := if updates.normalInterval.Some? && updates.normalInterval.value < old(currentInterval)
                            then updates.normalInterval.value else old(currentInterval);
              currentInterval == if updates.minInterval.Some? && capped < updates.minInterval.value
                                 then updates.minInterval.value else capped
      ensures updates.normalInterval.Some? && updates.minInterval.None? ==>
                currentInterval == (if old(currentInterval) < normalInterval then old(currentInterval) else normalInterval)
      ensures updates.normalInterval.Some? && updates.minInterval.Some? && minInterval <= normalInterval ==>
                minInterval <= currentInterval <= normalInterval
      ensures updates.minInterval.Some? ==> currentInterval >= minInterval
      ensures updates.normalInterval.Some? && updates.minInterval.None? ==> currentInterval <= normalInterval
      ensures updates.normalInterval.None? && updates.minInterval.None? ==> currentInterval == old(currentInterval)
      ensures old(minInterval) <= old(currentInterval) <= old(normalInterval) && minInterval <= normalInterval ==>
                minInterval <= currentInterval <= normalInterval
      ensures unchanged(this`executionsSinceLastOptimization, this`consecutiveSuccessfulOptimizations)
      ensures unchanged(this`latencyHistory, this`optimizationHistory)
    {
      var current := currentInterval;
      if updates.normalInterval.Some? {
        current := if current < updates.normalInterval.value then current else updates.normalInterval.value;
      }
      if updates.minInterval.Some? {
        current := if current > updates.minInterval.value then current else updates.minInterval.value;
      }
      initialInterval := if updates.initialInterval.Some? then updates.initialInterval.value else initialInterval;
      normalInterval := if updates.normalInterval.Some? then updates.normalInterval.value else normalInterval;
      minInterval := if updates.minInterval.Some? then updates.minInterval.value else minInterval;
      maxConsecutiveSuccess := if updates.maxConsecutiveSuccess.Some? then updates.maxConsecutiveSuccess.value else maxConsecutiveSuccess;
      metricDriftThreshold := if updates.metricDriftThreshold.Some? then updates.metricDriftThreshold.value else metricDriftThreshold;
      currentInterval := current;
    }

    /** One pass of the monitoring loop (lines 119-141): when due, the
        given run result is recorded and processed and the counter reset;
        then the metrics are updated. */
    method MonitorTick(result: OptimizeResult, durations: seq<Option<real>>) returns (ran: bool)
      modifies this
      ensures ran == old(ShouldRunOptimization())
      ensures ran ==> executionsSinceLastOptimization == 1
      ensures !ran ==> executionsSinceLastOptimization == old(executionsSinceLastOptimization) + 1
      ensures !ran ==> currentInterval == old(currentInterval) &&
                       consecutiveSuccessfulOptimizations == old(consecutiveSuccessfulOptimizations)
      ensures ran ==> |optimizationHistory| >= 1 && optimizationHistory[|optimizationHistory| - 1] == result
      ensures ran ==> |optimizationHistory| ==
                      if |old(optimizationHistory)| >= HistoryLimit then HistoryLimit else |old(optimizationHistory)| + 1
      ensures ran ==> optimizationHistory[..|optimizationHistory| - 1] ==
                      old(optimizationHistory)[|old(optimizationHistory)| - (|optimizationHistory| - 1)..]
      ensures !ran ==> optimizationHistory == old(optimizationHistory)
      ensures ran && result.status != "success" ==>
                consecutiveSuccessfulOptimizations == old(consecutiveSuccessfulOptimizations) &&
                currentInterval == old(currentInterval)
      ensures ran && result.status == "success" && SetupOf(result.currentSetup) == SetupOf(result.optimalSetup) ==>
                consecutiveSuccessfulOptimizations == old(consecutiveSuccessfulOptimizations) + 1 &&
                currentInterval == (if consecutiveSuccessfulOptimizations >= maxConsecutiveSuccess
                                    then Increased(old(currentInterval), normalInterval)
                                    else old(currentInterval))
      ensures ran && result.status == "success" && SetupOf(result.currentSetup) != SetupOf(result.optimalSetup) ==>
                consecutiveSuccessfulOptimizations == 0 && currentInterval == old(currentInterval)
      ensures Latencies(durations) == [] ==> latencyHistory == old(latencyHistory)
      ensures Latencies(durations) != [] ==>
                latencyHistory == KeepLast(old(latencyHistory) + [Average(Latencies(durations))])
      ensures unchanged(this`normalInterval, this`minInterval, this`maxConsecutiveSuccess, this`metricDriftThreshold)
      ensures unchanged(this`initialInterval)
    {
      ran := ShouldRunOptimization();
      if ran {
        UpdateOptimizationHistory(result);
        ProcessOptimizationResult(result);
        executionsSinceLastOptimization := 0;
      }
      UpdateMetrics(durations);
    }
  }

  /** `optimize_result.get(key, "")`. */
  function SetupOf(setup: Option<string>): string
  {
    if setup.Some? then setup.value else ""
  }
}
