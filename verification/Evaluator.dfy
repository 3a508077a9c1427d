/** Breach evaluation: which trigger of an array, if any, raises the alarm. */
module Evaluators {
  import opened Common
  import opened TimeSeries
  import opened AppManagers
  import opened Decimals

  datatype Trigger = Trigger(
    appId: string, metricType: string, metricUnit: string, breachDurationSeconds: int,
    threshold: int, operator: string, coolDownSeconds: int, adjustment: string)

  const VALID_OPERATORS: seq<string> := [">", ">=", "<", "<="]

  /** A query for an app's metrics of one type. */
  datatype Query = Query(appId: string, metricType: string, start: int, end: int, order: Order)

  /** When one trigger is evaluated, and what a query is answered then. */
  datatype Reading = Reading(now: int, ask: Query -> Answer)

  predicate Satisfies(value: int, operator: string, threshold: int) {
    || (operator == ">" && value > threshold)
    || (operator == ">=" && value >= threshold)
    || (operator == "<" && value < threshold)
    || (operator == "<=" && value <= threshold)
  }

  /** The metric has a value and the value is on the wrong side of the threshold. */
  predicate Violates(m: Point, operator: string, threshold: int) {
    ParseInt(m.value).Some? && Satisfies(ParseInt(m.value).value, operator, threshold)
  }

  function WithDefault(t: Trigger, defaultBreachDurationSecs: int): Trigger {
    if t.breachDurationSeconds <= 0 then t.(breachDurationSeconds := defaultBreachDurationSecs) else t
  }

  function BreachDuration(t: Trigger): int {
    t.breachDurationSeconds * SECOND
  }

  function BreachStart(t: Trigger, now: int): int {
    now - BreachDuration(t)
  }

  /** The trigger's query reaches back two breach durations. */
  function QueryOf(t: Trigger, now: int): Query {
    Query(t.appId, t.metricType, now - 2 * BreachDuration(t), now, ASC)
  }

  function AnswerFor(t: Trigger, r: Reading): Answer {
    r.ask(QueryOf(t, r.now))
  }

  /**
   * Breached: the data reach back before the breach window, the window is not empty, and every metric in it violates.
   * The order of the metrics plays no part.
   */
  ghost predicate Breached(t: Trigger, r: Reading) {
    t.operator in VALID_OPERATORS && AnswerFor(t, r).Metrics? && BreachedBy(t, r.now, AnswerFor(t, r).list)
  }

  ghost predicate BreachedBy(t: Trigger, now: int, metrics: seq<Point>) {
    var start := BreachStart(t, now);
    && (exists m :: m in metrics && m.timestamp < start)
    && (exists m :: m in metrics && start <= m.timestamp)
    && (forall m :: m in metrics && start <= m.timestamp ==> Violates(m, t.operator, t.threshold))
  }

  lemma {:induction false} InWindow(t: Trigger, now: int, m: Point)
    ensures BreachStart(t, now) <= m.timestamp <==> now - m.timestamp <= 1_000_000_000 * t.breachDurationSeconds
    ensures QueryOf(t, now).start <= m.timestamp <==> now - m.timestamp <= 2_000_000_000 * t.breachDurationSeconds
    ensures QueryOf(t, now).end == now
  {
    assert BreachDuration(t) == t.breachDurationSeconds * 1_000_000_000;
  }

  /** On which side of the threshold each operator looks, the threshold itself included or not. */
  lemma {:induction false} OperatorsMean(m: Point, operator: string, threshold: int)
    ensures Violates(m, operator, threshold) ==> operator in [">", ">=", "<", "<="] && ParseInt(m.value).Some?
    ensures ParseInt(m.value).Some? ==>
              var value := ParseInt(m.value).value;
              && (operator == ">" ==> (Violates(m, operator, threshold) <==> threshold < value))
              && (operator == ">=" ==> (Violates(m, operator, threshold) <==> threshold <= value))
              && (operator == "<" ==> (Violates(m, operator, threshold) <==> value < threshold))
              && (operator == "<=" ==> (Violates(m, operator, threshold) <==> value <= threshold))
  {
  }

  /**
   * Breached, in seconds: of the metrics the app's query for the last two breach durations finds, one is older than one
   * duration, one is not, and those that are not all violate.
   */
  lemma {:induction false} BreachedMeans(t: Trigger, r: Reading)
    ensures var seconds := t.breachDurationSeconds;
            var answer := r.ask(Query(t.appId, t.metricType, r.now - 2_000_000_000 * seconds, r.now, ASC));
            Breached(t, r) <==>
            && t.operator in [">", ">=", "<", "<="] && answer.Metrics?
            && (exists m :: m in answer.list && r.now - m.timestamp > 1_000_000_000 * seconds)
            && (exists m :: m in answer.list && r.now - m.timestamp <= 1_000_000_000 * seconds)
            && (forall m :: m in answer.list && r.now - m.timestamp <= 1_000_000_000 * seconds ==>
                  Violates(m, t.operator, t.threshold))
  {
    forall m: Point
      ensures BreachStart(t, r.now) <= m.timestamp <==> r.now - m.timestamp <= 1_000_000_000 * t.breachDurationSeconds
    {
      InWindow(t, r.now, m);
    }
    assert BreachDuration(t) == t.breachDurationSeconds * 1_000_000_000;
  }

  method IsValidOperator(operator: string) returns (valid: bool)
    ensures valid <==> operator == ">" || operator == ">=" || operator == "<" || operator == "<="
    ensures valid <==> operator in VALID_OPERATORS
  {
    for i := 0 to |VALID_OPERATORS|
      invariant forall k :: 0 <= k < i ==> operator != VALID_OPERATORS[k]
    {
      if VALID_OPERATORS[i] == operator {
        return true;
      }
    }
    assert VALID_OPERATORS[0] == ">" && VALID_OPERATORS[1] == ">=" && VALID_OPERATORS[2] == "<"
           && VALID_OPERATORS[3] == "<=";
    return false;
  }

  /** The metrics of the breach window, newest first; none if no metric is older than the window. */
  ghost predicate IsWindow(metrics: seq<Point>, start: int, window: seq<Point>) {
    if metrics == [] || start <= metrics[0].timestamp then window == []
    else exists p :: p <= |metrics| && 0 <= p && WindowFrom(metrics, start, window, p)
  }

  ghost predicate WindowFrom(metrics: seq<Point>, start: int, window: seq<Point>, p: nat)
    requires p <= |metrics|
  {
    && window == Reversed(metrics[p..])
    && (forall i :: 0 <= i < p ==> metrics[i].timestamp < start)
    && (forall i :: p <= i < |metrics| ==> start <= metrics[i].timestamp)
  }

  /** The backward scan with early exit. */
  method RetrieveAppMetrics(t: Trigger, r: Reading) returns (window: Option<seq<Point>>)
    requires AnswerFor(t, r).Metrics? ==> Sorted(AnswerFor(t, r).list)
    ensures window.Some? <==> AnswerFor(t, r).Metrics?
    ensures window.Some? ==> IsWindow(AnswerFor(t, r).list, BreachStart(t, r.now), window.value)
  {
    var queryStart, start := r.now - 2 * BreachDuration(t), r.now - BreachDuration(t);
    var answer := r.ask(Query(t.appId, t.metricType, queryStart, r.now, ASC));
    if answer.QueryFailed? {
      return None;
    }
    var result := ScanBack(answer.list, start);
    return Some(result);
  }

  method ScanBack(metrics: seq<Point>, start: int) returns (window: seq<Point>)
    requires Sorted(metrics)
    ensures IsWindow(metrics, start, window)
  {
    window := [];
    if |metrics| > 0 && metrics[0].timestamp < start {
      var i := |metrics| - 1;
      while i >= 0
        invariant -1 <= i < |metrics|
        invariant window == Reversed(metrics[i + 1..])
        invariant forall k :: i < k < |metrics| ==> start <= metrics[k].timestamp
      {
        if metrics[i].timestamp < start {
          break;
        }
        assert metrics[i..] == [metrics[i]] + metrics[i + 1..];
        window := window + [metrics[i]];
        i := i - 1;
      }
      assert WindowFrom(metrics, start, window, i + 1);
    }
  }

  lemma {:induction false} WindowElements(metrics: seq<Point>, start: int, window: seq<Point>, p: nat, m: Point)
    requires p <= |metrics| && WindowFrom(metrics, start, window, p)
    ensures m in window <==> m in metrics && start <= m.timestamp
  {
    var n := |metrics|;
    if m in window {
      var i :| 0 <= i < |window| && window[i] == m;
      assert metrics[n - 1 - i] == m;
    }
    if m in metrics && start <= m.timestamp {
      var j :| 0 <= j < n && metrics[j] == m;
      assert window[n - 1 - j] == m;
    }
  }

  lemma {:induction false} WindowVerdict(t: Trigger, now: int, metrics: seq<Point>, window: seq<Point>)
    requires forall m :: m in window <==> m in metrics && BreachStart(t, now) <= m.timestamp
    requires exists m :: m in metrics && m.timestamp < BreachStart(t, now)
    ensures BreachedBy(t, now, metrics) <==>
            window != [] && forall m :: m in window ==> Violates(m, t.operator, t.threshold)
  {
    assert window != [] ==> window[0] in window;
  }

  lemma {:induction false} WindowDecides(t: Trigger, now: int, metrics: seq<Point>, window: seq<Point>)
    requires Sorted(metrics) && IsWindow(metrics, BreachStart(t, now), window)
    ensures BreachedBy(t, now, metrics) <==>
            window != [] && forall m :: m in window ==> Violates(m, t.operator, t.threshold)
    ensures window != [] ==> metrics != [] && window[0] == metrics[|metrics| - 1]
  {
    var start := BreachStart(t, now);
    if metrics == [] || start <= metrics[0].timestamp {
      NothingOlder(metrics, start);
    } else {
      var p :| 0 <= p <= |metrics| && WindowFrom(metrics, start, window, p);
      WindowFromDecides(t, now, metrics, window, p);
    }
  }

  lemma {:induction false} WindowFromDecides(t: Trigger, now: int, metrics: seq<Point>, window: seq<Point>, p: nat)
    requires metrics != [] && metrics[0].timestamp < BreachStart(t, now)
    requires p <= |metrics| && WindowFrom(metrics, BreachStart(t, now), window, p)
    ensures BreachedBy(t, now, metrics) <==>
            window != [] && forall m :: m in window ==> Violates(m, t.operator, t.threshold)
    ensures window != [] ==> window[0] == metrics[|metrics| - 1]
  {
    assert metrics[0] in metrics;
    forall m ensures m in window <==> m in metrics && BreachStart(t, now) <= m.timestamp {
      WindowElements(metrics, BreachStart(t, now), window, p, m);
    }
    WindowVerdict(t, now, metrics, window);
  }

  lemma {:induction false} NothingOlder(metrics: seq<Point>, start: int)
    requires Sorted(metrics) && (metrics == [] || start <= metrics[0].timestamp)
    ensures forall m :: m in metrics ==> start <= m.timestamp
  {
  }

  /** Whether every metric of the window violates; stops at the first that does not. */
  method AllViolate(t: Trigger, window: seq<Point>) returns (isBreached: bool)
    requires t.operator in VALID_OPERATORS
    ensures isBreached <==> forall m :: m in window ==> Violates(m, t.operator, t.threshold)
  {
    isBreached := true;
    for i := 0 to |window|
      invariant isBreached && forall k :: 0 <= k < i ==> Violates(window[k], t.operator, t.threshold)
    {
      assert window[i] in window;
      var parsed := ParseInt(window[i].value);
      if window[i].value == "" || parsed.None? {
        isBreached := false;
        break;
      }
      var value := parsed.value;
      if t.operator == ">" {
        if value <= t.threshold { isBreached := false; break; }
      } else if t.operator == ">=" {
        if value < t.threshold { isBreached := false; break; }
      } else if t.operator == "<" {
        if value >= t.threshold { isBreached := false; break; }
      } else if t.operator == "<=" {
        if value > t.threshold { isBreached := false; break; }
      }
    }
  }

  /** One trigger of the array, already with its duration. */
  method Evaluate(t: Trigger, r: Reading) returns (isBreached: bool, unit: string)
    requires AnswerFor(t, r).Metrics? ==> Sorted(AnswerFor(t, r).list)
    ensures isBreached <==> Breached(t, r)
    ensures isBreached ==> IsAlarm(t, r, t.breachDurationSeconds, t.(metricUnit := unit))
  {
    var valid := IsValidOperator(t.operator);
    if !valid {
      return false, "";
    }
    var found := RetrieveAppMetrics(t, r);
    if found.None? {
      return false, "";
    }
    var window := found.value;
    WindowDecides(t, r.now, AnswerFor(t, r).list, window);
    if |window| == 0 {
      return false, "";
    }
    isBreached := AllViolate(t, window);
    unit := window[0].unit;
    if isBreached {
      AlarmMeans(t, r, unit);
    }
  }

  /** Of metrics in order, the oldest is before the window, the newest inside, and all inside violate. */
  lemma {:induction false} BreachedEnds(t: Trigger, now: int, metrics: seq<Point>)
    requires Sorted(metrics) && BreachedBy(t, now, metrics)
    ensures metrics != [] && metrics[0].timestamp < BreachStart(t, now) <= metrics[|metrics| - 1].timestamp
    ensures forall i :: 0 <= i < |metrics| && BreachStart(t, now) <= metrics[i].timestamp ==>
              Violates(metrics[i], t.operator, t.threshold)
  {
    var start := BreachStart(t, now);
    var a :| a in metrics && a.timestamp < start;
    var b :| b in metrics && start <= b.timestamp;
    assert metrics[0].timestamp <= a.timestamp && b.timestamp <= metrics[|metrics| - 1].timestamp;
  }

  /**
   * What an alarm tells: the metrics found in the last two durations reach back before one duration, the newest is from
   * within it and gives the unit, and all within it violate.
   */
  ghost predicate IsAlarm(t: Trigger, r: Reading, seconds: int, alarm: Trigger) {
    var answer := r.ask(Query(t.appId, t.metricType, r.now - 2_000_000_000 * seconds, r.now, ASC));
    && answer.Metrics? && answer.list != []
    && r.now - answer.list[0].timestamp > 1_000_000_000 * seconds
    && r.now - answer.list[|answer.list| - 1].timestamp <= 1_000_000_000 * seconds
    && (forall i :: 0 <= i < |answer.list| && r.now - answer.list[i].timestamp <= 1_000_000_000 * seconds ==>
          Violates(answer.list[i], t.operator, t.threshold))
    && alarm == t.(breachDurationSeconds := seconds, metricUnit := answer.list[|answer.list| - 1].unit)
  }

  lemma {:induction false} AlarmMeans(t: Trigger, r: Reading, unit: string)
    requires Breached(t, r) && Sorted(AnswerFor(t, r).list)
    requires AnswerFor(t, r).list != [] && unit == AnswerFor(t, r).list[|AnswerFor(t, r).list| - 1].unit
    ensures IsAlarm(t, r, t.breachDurationSeconds, t.(metricUnit := unit))
  {
    assert BreachDuration(t) == t.breachDurationSeconds * 1_000_000_000;
    BreachedEnds(t, r.now, AnswerFor(t, r).list);
  }

  lemma AlarmWithDuration(t: Trigger, r: Reading, seconds: int, alarm: Trigger)
    requires IsAlarm(t.(breachDurationSeconds := seconds), r, seconds, alarm)
    ensures IsAlarm(t, r, seconds, alarm)
  {
  }

  /**
   * Sends an alarm for the first breached trigger, and for no other: the triggers up to it have got their default
   * duration, it carries the unit of the newest metric, and the ones after it are untouched. The window of a breach is
   * one duration, and the query for it reaches back two.
   */
  method DoEvaluate(triggers: array<Trigger>, readings: seq<Reading>, defaultBreachDurationSecs: int)
    returns (alarm: Option<Trigger>, at: int)
    requires |readings| == triggers.Length
    requires forall i, q :: 0 <= i < |readings| && readings[i].ask(q).Metrics? && q.order.ASC? ==>
               Sorted(readings[i].ask(q).list)
    modifies triggers
    ensures alarm.Some? <==> at < triggers.Length
    ensures 0 <= at <= triggers.Length
    ensures forall k :: 0 <= k < at ==>
              && triggers[k] == WithDefault(old(triggers[k]), defaultBreachDurationSecs)
              && !Breached(triggers[k], readings[k])
    ensures alarm.Some? ==> Breached(WithDefault(old(triggers[at]), defaultBreachDurationSecs), readings[at])
    ensures alarm.Some? ==>
              var t := old(triggers[at]);
              var seconds := if t.breachDurationSeconds > 0 then t.breachDurationSeconds else defaultBreachDurationSecs;
              triggers[at] == alarm.value && IsAlarm(t, readings[at], seconds, alarm.value)
    ensures forall k :: at < k < triggers.Length ==> triggers[k] == old(triggers[k])
  {
    ghost var ts := triggers[..];
    for i := 0 to triggers.Length
      invariant forall k :: 0 <= k < i ==>
        triggers[k] == WithDefault(ts[k], defaultBreachDurationSecs) && !Breached(triggers[k], readings[k])
      invariant forall k :: i <= k < triggers.Length ==> triggers[k] == ts[k]
    {
      if triggers[i].breachDurationSeconds <= 0 {
        triggers[i] := triggers[i].(breachDurationSeconds := defaultBreachDurationSecs);
      }
      var isBreached, unit := Evaluate(triggers[i], readings[i]);
      if isBreached {
        triggers[i] := triggers[i].(metricUnit := unit);
        AlarmWithDuration(ts[i], readings[i], triggers[i].breachDurationSeconds, triggers[i]);
        return Some(triggers[i]), i;
      }
    }
    return None, triggers.Length;
  }

  /** The verdict for rows kept in the database: the window is [start, now], the reach-back one more duration. */
  ghost predicate BreachedByRows(t: Trigger, rows: multiset<Point>, now: int) {
    && t.operator in VALID_OPERATORS
    && var start, reach := BreachStart(t, now), QueryOf(t, now).start;
    && (exists m :: m in rows && Asked(m, t.metricType, reach, start - 1))
    && (exists m :: m in rows && Asked(m, t.metricType, start, now))
    && (forall m :: m in rows && Asked(m, t.metricType, start, now) ==> Violates(m, t.operator, t.threshold))
  }

  /** Any answer the database may give leads to the same verdict, however it orders ties. */
  lemma {:induction false} AnswerOrderIsIrrelevant(t: Trigger, rows: multiset<Point>, r: Reading)
    requires AnswerFor(t, r).Metrics? && 0 <= t.breachDurationSeconds
    requires IsDatabaseAnswer(rows, t.metricType, r.now - 2_000_000_000 * t.breachDurationSeconds, r.now, ASC,
                              AnswerFor(t, r).list)
    ensures Breached(t, r) <==> BreachedByRows(t, rows, r.now)
  {
    var answer := AnswerFor(t, r).list;
    forall m ensures m in answer <==> m in rows && Asked(m, t.metricType, QueryOf(t, r.now).start, r.now) {
      assert m in answer <==> multiset(answer)[m] > 0;
    }
  }

  /**
   * Whatever the cache holds, if it holds the newest rows, the verdict is that of the rows: when the cache answers the
   * query as QueryAppMetrics does from it, and when the database has to.
   */
  lemma {:induction false} CacheVerdict(
    t: Trigger, kept: Option<seq<Point>>, rows: multiset<Point>, r: Reading, database: Answer)
    requires 0 <= r.now && 0 <= t.breachDurationSeconds
    requires kept.Some? ==> multiset(kept.value) <= rows
    requires kept.Some? && kept.value != [] ==>
               forall d :: d in rows - multiset(kept.value) ==> d.timestamp < kept.value[0].timestamp
    requires var start := QueryOf(t, r.now).start;
             && IsAnswer(kept, t.metricType, start, r.now, ASC, database, AnswerFor(t, r))
             && database.Metrics? && IsDatabaseAnswer(rows, t.metricType, start, r.now, ASC, database.list)
    ensures Breached(t, r) <==> BreachedByRows(t, rows, r.now)
  {
    var start := QueryOf(t, r.now).start;
    assert start == r.now - 2_000_000_000 * t.breachDurationSeconds;
    if kept.Some? && kept.value != [] && kept.value[0].timestamp <= start {
      SameAnswerIff(multiset(kept.value), rows, t.metricType, start, r.now, r.now, ASC, AnswerFor(t, r).list);
      assert HitComplete(multiset(kept.value), rows, t.metricType, start, r.now, r.now);
    }
    AnswerOrderIsIrrelevant(t, rows, r);
  }
}
