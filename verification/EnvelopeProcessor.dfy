/** Hash-sharded request accounting: one processor per shard, one accumulation window per tick. */
module EnvelopeProcessors {
  import opened Common

  /** The timer of one finished request, in nanoseconds. */
  datatype Timer = Timer(app: string, instance: int, start: int, stop: int)

  datatype Metric =
    | Throughput(app: string, instance: int, value: int)
    | ResponseTime(app: string, instance: int, value: int)

  predicate Of(t: Timer, app: string, instance: int) {
    t.app == app && t.instance == instance
  }

  /** Requests of one instance in a window. */
  function Count(window: seq<Timer>, app: string, instance: int): nat {
    if window == [] then 0
    else Count(window[..|window| - 1], app, instance) + if Of(window[|window| - 1], app, instance) then 1 else 0
  }

  /** Their total response time. */
  function Total(window: seq<Timer>, app: string, instance: int): int {
    if window == [] then 0
    else
      var t := window[|window| - 1];
      Total(window[..|window| - 1], app, instance) + if Of(t, app, instance) then t.stop - t.start else 0
  }

  lemma CountGrows(window: seq<Timer>, t: Timer, app: string, instance: int)
    ensures Count([], app, instance) == 0 && Total([], app, instance) == 0
    ensures Count(window + [t], app, instance)
            == Count(window, app, instance) + if t.app == app && t.instance == instance then 1 else 0
    ensures Total(window + [t], app, instance)
            == Total(window, app, instance) + if t.app == app && t.instance == instance then t.stop - t.start else 0
  {
    assert (window + [t])[..|window|] == window;
  }

  lemma {:induction false} CountedIsPresent(window: seq<Timer>, app: string, instance: int)
    ensures Count(window, app, instance) > 0 <==> exists i :: 0 <= i < |window| && Of(window[i], app, instance)
  {
    if window != [] {
      CountedIsPresent(window[..|window| - 1], app, instance);
      assert Of(window[|window| - 1], app, instance) || !Of(window[|window| - 1], app, instance);
    }
  }

  /** Integer division that cuts off towards zero. */
  function Quotient(a: int, b: int): int
    requires b > 0
  {
    if 0 <= a then a / b else -(-a / b)
  }

  lemma {:induction false} Ordered(r: int, d: int, b: int)
    requires b > 0 && r < d
    ensures (r + 1) * b <= d * b
  {
    assert (d - r - 1) * b >= 0;
  }

  lemma {:induction false} DivisionUnique(a: int, b: int, r: int)
    requires b > 0
    ensures r == a / b <==> r * b <= a < (r + 1) * b
  {
    var d := a / b;
    assert d * b <= a < (d + 1) * b;
    if r < d {
      Ordered(r, d, b);
    } else if d < r {
      Ordered(d, r, b);
    }
  }

  lemma {:induction false} QuotientUnique(a: int, b: int, q: int)
    requires b > 0
    ensures q == Quotient(a, b) <==> if 0 <= a then q * b <= a < (q + 1) * b else (q - 1) * b < a <= q * b
  {
    if 0 <= a {
      DivisionUnique(a, b, q);
    } else {
      DivisionUnique(-a, b, -q);
      assert -q * b == -(q * b);
      assert (-q + 1) * b == -((q - 1) * b);
    }
  }

  /** Requests per second, rounded to the nearest, for an interval in seconds. */
  function Rate(count: nat, seconds: real): int
    requires seconds > 0.0
  {
    (count as real / seconds + 0.5).Floor
  }

  lemma {:induction false} RateIsNearest(count: nat, seconds: real, rate: int)
    requires seconds > 0.0
    ensures rate == Rate(count, seconds) <==> rate as real - 0.5 <= count as real / seconds < rate as real + 0.5
  {
    var x := count as real / seconds + 0.5;
    assert x.Floor as real <= x < (x.Floor + 1) as real;
  }

  /** The mean of a total in nanoseconds. */
  function MeanMilliseconds(total: int, count: nat): int
    requires count > 0
  {
    Quotient(total, count * 1_000_000)
  }

  predicate Active(window: seq<Timer>, app: string) {
    exists i :: 0 <= i < |window| && window[i].app == app
  }

  /**
   * What a tick sends for a window: per active instance two metrics; for an idle app one zero, from its owner alone.
   */
  predicate IsSent(m: Metric, window: seq<Timer>, apps: set<string>, owns: bool, seconds: real)
    requires seconds > 0.0
  {
    m.app in apps &&
    if Active(window, m.app) then
      var count := Count(window, m.app, m.instance);
      && count > 0
      && m.value == if m.Throughput? then Rate(count, seconds)
                    else MeanMilliseconds(Total(window, m.app, m.instance), count)
    else
      m.Throughput? && owns && m.instance == 0 && m.value == 0
  }

  type Accumulator = map<string, map<int, int>>

  /** The two maps hold exactly the counts and totals of the window. */
  ghost predicate Matches(numRequests: Accumulator, sumResponseTimes: Accumulator, window: seq<Timer>) {
    && (forall app :: app in numRequests <==> Active(window, app))
    && (forall app :: app in sumResponseTimes <==> Active(window, app))
    && (forall app :: app in numRequests && app in sumResponseTimes ==>
          AppMatches(numRequests[app], sumResponseTimes[app], window, app))
  }

  ghost predicate AppMatches(counts: map<int, int>, sums: map<int, int>, window: seq<Timer>, app: string) {
    && (forall i :: i in counts <==> Count(window, app, i) > 0)
    && (forall i :: i in sums <==> Count(window, app, i) > 0)
    && (forall i :: i in counts ==> counts[i] == Count(window, app, i))
    && (forall i :: i in sums ==> sums[i] == Total(window, app, i))
  }

  lemma {:induction false} IdleTotal(window: seq<Timer>, app: string, instance: int)
    requires Count(window, app, instance) == 0
    ensures Total(window, app, instance) == 0
  {
    if window != [] {
      IdleTotal(window[..|window| - 1], app, instance);
    }
  }

  lemma {:induction false} InactiveCounts(window: seq<Timer>, app: string, instance: int)
    requires !Active(window, app)
    ensures Count(window, app, instance) == 0
  {
    CountedIsPresent(window, app, instance);
  }

  /** One request more, in the maps of its app. */
  lemma OneMoreRequest(counts: map<int, int>, sums: map<int, int>, window: seq<Timer>, t: Timer)
    requires AppMatches(counts, sums, window, t.app)
    ensures var c := if t.instance in counts then counts[t.instance] else 0;
            var d := if t.instance in sums then sums[t.instance] else 0;
            AppMatches(counts[t.instance := c + 1], sums[t.instance := d + (t.stop - t.start)], window + [t], t.app)
  {
    forall i
      ensures Count(window + [t], t.app, i) == Count(window, t.app, i) + if i == t.instance then 1 else 0
      ensures Total(window + [t], t.app, i) == Total(window, t.app, i) + if i == t.instance then t.stop - t.start else 0
    {
      CountGrows(window, t, t.app, i);
    }
    if Count(window, t.app, t.instance) == 0 {
      IdleTotal(window, t.app, t.instance);
    }
  }

  lemma OtherAppsKeep(counts: map<int, int>, sums: map<int, int>, window: seq<Timer>, t: Timer, app: string)
    requires AppMatches(counts, sums, window, app) && app != t.app
    ensures AppMatches(counts, sums, window + [t], app)
  {
    forall i
      ensures Count(window + [t], app, i) == Count(window, app, i)
              && Total(window + [t], app, i) == Total(window, app, i)
    {
      CountGrows(window, t, app, i);
    }
  }

  lemma ActiveGrows(window: seq<Timer>, t: Timer, app: string)
    ensures Active(window + [t], app) <==> Active(window, app) || app == t.app
  {
    if Active(window, app) {
      var i :| 0 <= i < |window| && window[i].app == app;
      assert (window + [t])[i].app == app;
    }
    assert (window + [t])[|window|] == t;
  }

  lemma EmptyMatches(window: seq<Timer>, app: string)
    requires !Active(window, app)
    ensures AppMatches(map[], map[], window, app)
  {
    forall i ensures Count(window, app, i) == 0 {
      InactiveCounts(window, app, i);
    }
  }

  lemma AppMapsMatch(numRequests: Accumulator, sumResponseTimes: Accumulator, window: seq<Timer>, app: string)
    requires Matches(numRequests, sumResponseTimes, window)
    ensures AppMatches(if app in numRequests then numRequests[app] else map[],
                       if app in sumResponseTimes then sumResponseTimes[app] else map[], window, app)
  {
    if !Active(window, app) {
      EmptyMatches(window, app);
    }
  }

  lemma OneMoreTimer(
    numRequests: Accumulator, sumResponseTimes: Accumulator, window: seq<Timer>, t: Timer, counts: map<int, int>,
        sums: map<int, int>)
    requires Matches(numRequests, sumResponseTimes, window)
    requires AppMatches(counts, sums, window + [t], t.app)
    ensures Matches(numRequests[t.app := counts], sumResponseTimes[t.app := sums], window + [t])
  {
    var n, s, w := numRequests[t.app := counts], sumResponseTimes[t.app := sums], window + [t];
    forall app ensures (app in n <==> Active(w, app)) && (app in s <==> Active(w, app)) {
      ActiveGrows(window, t, app);
    }
    forall app | app in n && app in s ensures AppMatches(n[app], s[app], w, app) {
      if app != t.app {
        OtherAppsKeep(numRequests[app], sumResponseTimes[app], window, t, app);
      }
    }
  }

  ghost predicate Distinct(s: seq<Metric>) {
    forall i, j :: 0 <= i < j < |s| ==> s[i] != s[j]
  }

  lemma DistinctTogether(s: seq<Metric>, t: seq<Metric>)
    requires Distinct(s) && Distinct(t) && forall m :: m in s ==> m !in t
    ensures Distinct(s + t)
  {
    forall i, j | 0 <= i < j < |s + t| ensures (s + t)[i] != (s + t)[j] {
      if i < |s| <= j {
        assert s[i] in s && t[j - |s|] in t;
      }
    }
  }

  class EnvelopeProcessor {
    var numRequests: Accumulator
    var sumResponseTimes: Accumulator
    /** The timers since the last tick. */
    ghost var window: seq<Timer>

    ghost predicate Valid()
      reads this
    {
      Matches(numRequests, sumResponseTimes, window)
    }

    constructor ()
      ensures Valid() && window == []
    {
      numRequests, sumResponseTimes, window := map[], map[], [];
    }

    method ProcessHttpStartStop(t: Timer)
      requires Valid()
      modifies this
      ensures Valid() && window == old(window) + [t]
    {
      var counts: map<int, int> := if t.app in numRequests then numRequests[t.app] else map[];
      var sums: map<int, int> := if t.app in sumResponseTimes then sumResponseTimes[t.app] else map[];
      AppMapsMatch(numRequests, sumResponseTimes, window, t.app);
      OneMoreRequest(counts, sums, window, t);
      var count := if t.instance in counts then counts[t.instance] else 0;
      var sum := if t.instance in sums then sums[t.instance] else 0;
      counts := counts[t.instance := count + 1];
      sums := sums[t.instance := sum + (t.stop - t.start)];
      OneMoreTimer(numRequests, sumResponseTimes, window, t, counts, sums);
      numRequests, sumResponseTimes := numRequests[t.app := counts], sumResponseTimes[t.app := sums];
      window := window + [t];
    }

    /** Sends the metrics of the window and starts a new one; apps no longer monitored are dropped. */
    method ComputeAndSaveMetrics(apps: set<string>, owns: string -> bool, seconds: real) returns (sent: seq<Metric>)
      requires Valid() && seconds > 0.0
      modifies this
      ensures Valid() && window == []
      ensures forall m :: m in sent <==> IsSent(m, old(window), apps, owns(m.app), seconds)
      ensures Distinct(sent)
    {
      sent := MetricsOfAll(apps, owns, seconds);
      numRequests, sumResponseTimes, window := map[], map[], [];
    }

    method MetricsOfAll(apps: set<string>, owns: string -> bool, seconds: real) returns (sent: seq<Metric>)
      requires Valid() && seconds > 0.0
      ensures forall m :: m in sent <==> IsSent(m, window, apps, owns(m.app), seconds)
      ensures Distinct(sent)
    {
      sent := [];
      var left := apps;
      while left != {}
        invariant left <= apps
        invariant forall m :: m in sent <==> m.app !in left && IsSent(m, window, apps, owns(m.app), seconds)
        invariant Distinct(sent)
        decreases left
      {
        var app := AnyOf(left);
        var more := MetricsOf(app, owns(app), seconds);
        assert forall m :: m in more <==> m.app == app && IsSent(m, window, apps, owns(m.app), seconds);
        DistinctTogether(sent, more);
        sent := sent + more;
        left := left - {app};
      }
    }

    /** The body of the loop over the monitored apps. */
    method MetricsOf(app: string, owns: bool, seconds: real) returns (sent: seq<Metric>)
      requires Valid() && seconds > 0.0
      ensures forall m :: m in sent <==> m.app == app && IsSent(m, window, {app}, owns, seconds)
      ensures Distinct(sent)
    {
      sent := [];
      if app !in numRequests {
        if owns {
          sent := [Throughput(app, 0, 0)];
        }
        return;
      }
      var counts, sums := numRequests[app], sumResponseTimes[app];
      assert AppMatches(counts, sums, window, app);
      var left := counts.Keys;
      while left != {}
        invariant left <= counts.Keys
        invariant forall m :: m in sent <==> m.app == app && m.instance in counts && m.instance !in left
                                             && m.value == if m.Throughput? then Rate(counts[m.instance], seconds)
                                                           else MeanMilliseconds(sums[m.instance], counts[m.instance])
        invariant Distinct(sent)
        decreases left
      {
        var i := AnyOf(left);
        var two := [Throughput(app, i, Rate(counts[i], seconds)),
                    ResponseTime(app, i, MeanMilliseconds(sums[i], counts[i]))];
        DistinctTogether(sent, two);
        sent := sent + two;
        left := left - {i};
      }
    }
  }
}
