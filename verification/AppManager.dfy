/** The event generator's metric queries: the cache when it can answer, else the database. */
module AppManagers {
  import opened Common
  import opened TimeSeries
  import opened TSDCaches

  datatype Order = ASC | DESC
  datatype Answer = Metrics(list: seq<Point>) | QueryFailed

  const NAME_LABEL := "name"

  function TypeLabel(metricType: string): map<string, string> {
    map[NAME_LABEL := metricType]
  }

  function Reversed<T>(s: seq<T>): (r: seq<T>)
    ensures |r| == |s|
    ensures forall i :: 0 <= i < |s| ==> r[i] == s[|s| - 1 - i]
  {
    seq(|s|, i requires 0 <= i < |s| => s[|s| - 1 - i])
  }

  function InOrder(s: seq<Point>, order: Order): seq<Point> {
    if order.ASC? then s else Reversed(s)
  }

  /** The end of the range a query asks the cache for. */
  function QueryEnd(end: int, now: int): int {
    if end == -1 then now else end
  }

  /** The end of the range the database reads: any negative end means now. */
  function DatabaseEnd(end: int, now: int): int {
    if end < 0 then now else end
  }

  ghost predicate Ordered(s: seq<Point>, order: Order) {
    forall i, j :: 0 <= i <= j < |s| ==>
      if order.ASC? then s[i].timestamp <= s[j].timestamp else s[j].timestamp <= s[i].timestamp
  }

  /**
   * What the database may return for the rows of one app: the rows of the type in [start, end], by time, ties in any
   * order.
   */
  ghost predicate IsDatabaseAnswer(
    rows: multiset<Point>, metricType: string, start: int, end: int, order: Order, answer: seq<Point>)
  {
    && Ordered(answer, order)
    && forall d :: multiset(answer)[d] == if Asked(d, metricType, start, end) then rows[d] else 0
  }

  /** A point of the type in the inclusive range. */
  predicate Asked(d: Point, metricType: string, start: int, end: int) {
    "name" in d.labels && d.labels["name"] == metricType && start <= d.timestamp <= end
  }

  lemma AskedIsWanted(d: Point, metricType: string, start: int, end: int)
    ensures Asked(d, metricType, start, end) <==> Wanted(d, start, end + 1, TypeLabel(metricType))
  {
    assert NAME_LABEL in TypeLabel(metricType) && TypeLabel(metricType)[NAME_LABEL] == metricType;
  }

  /**
   * The answer to a query when the cache holds kept, if there is a cache: a hit, in the order asked for, or the
   * database's.
   */
  ghost function AnswerOf(
    kept: Option<seq<Point>>, labels: map<string, string>, start: int, until: int, order: Order,
    database: Answer): Answer
  {
    if kept.Some? && Covers(kept.value, start)
    then Metrics(InOrder(Select(kept.value, start, until + 1, labels), order))
    else database
  }

  /**
   * What the answer means: if the oldest point held is not later than start, the points held are returned as a database
   * with these rows would return them; otherwise the database answers.
   */
  ghost predicate IsAnswer(
    kept: Option<seq<Point>>, metricType: string, start: int, until: int, order: Order, database: Answer,
    answer: Answer)
  {
    if kept.Some? && kept.value != [] && kept.value[0].timestamp <= start
    then answer.Metrics? && IsDatabaseAnswer(multiset(kept.value), metricType, start, until, order, answer.list)
    else answer == database
  }

  class AppManager {
    var metricCache: map<string, TSDCache>

    constructor ()
      ensures metricCache == map[]
    {
      metricCache := map[];
    }

    /** What the app's cache holds, if it has one. */
    ghost function Cached(appId: string): Option<seq<Point>>
      requires appId in metricCache ==> metricCache[appId].Valid()
      reads this, if appId in metricCache then {metricCache[appId], metricCache[appId].data} else {}
    {
      if appId in metricCache then Some(metricCache[appId].Contents()) else None
    }

    method SaveMetricToCache(appId: string, metric: Point) returns (saved: bool)
      requires appId in metricCache ==> metricCache[appId].Valid()
      modifies if appId in metricCache then {metricCache[appId], metricCache[appId].data} else {}
      ensures saved <==> appId in metricCache
      ensures saved ==> var c := metricCache[appId];
                        c.Valid() && c.puts == old(c.puts) + [metric]
    {
      if appId in metricCache {
        metricCache[appId].Put(metric);
        return true;
      }
      return false;
    }

    method QueryAppMetrics(appId: string, metricType: string, start: int, end: int, order: Order, now: int,
                           database: Answer)
      returns (answer: Answer)
      requires appId in metricCache ==> metricCache[appId].Valid()
      ensures answer == AnswerOf(old(Cached(appId)), TypeLabel(metricType), start, QueryEnd(end, now), order, database)
      ensures IsAnswer(old(Cached(appId)), metricType, start, if end == -1 then now else end, order, database, answer)
    {
      ghost var kept := Cached(appId);
      if appId in metricCache {
        RetainedIsTopK(metricCache[appId].puts, metricCache[appId].capacity);
      }
      HitFromPoints(kept, metricType, start, QueryEnd(end, now), order, database);
      var until := if end == -1 then now else end;
      if appId in metricCache {
        answer := QueryCache(metricCache[appId], TypeLabel(metricType), start, until, order, database);
      } else {
        answer := database;
      }
    }
  }

  /** The answer for an app that has a cache. */
  method QueryCache(
    appCache: TSDCache, labels: map<string, string>, start: int, until: int, order: Order, database: Answer)
    returns (answer: Answer)
    requires appCache.Valid()
    ensures answer == AnswerOf(Some(old(appCache.Contents())), labels, start, until, order, database)
  {
    var result, hit := appCache.Query(start, until + 1, labels);
    if hit {
      var metrics := CopyOut(result, order);
      return Metrics(metrics);
    }
    return database;
  }

  /** Fills the result array index by index, from the other end for descending order. */
  method CopyOut(result: seq<Point>, order: Order) returns (metrics: seq<Point>)
    ensures metrics == InOrder(result, order)
  {
    var a := new Point[|result|];
    for index := 0 to |result|
      invariant order.ASC? ==> forall k :: 0 <= k < index ==> a[k] == result[k]
      invariant order.DESC? ==> forall k :: |result| - index <= k < |result| ==> a[k] == result[|result| - 1 - k]
    {
      if order.ASC? {
        a[index] := result[index];
      } else {
        a[|result| - 1 - index] := result[index];
      }
    }
    return a[..];
  }

  lemma {:induction false} ReversedElements<T>(s: seq<T>)
    ensures multiset(Reversed(s)) == multiset(s)
  {
    if s != [] {
      var n := |s| - 1;
      ReversedElements(s[..n]);
      assert Reversed(s) == [s[n]] + Reversed(s[..n]);
      assert s == s[..n] + [s[n]];
    }
  }

  lemma {:induction false} InOrderIsOrdered(s: seq<Point>, order: Order)
    requires Sorted(s)
    ensures Ordered(InOrder(s, order), order)
    ensures multiset(InOrder(s, order)) == multiset(s)
  {
    ReversedElements(s);
  }

  /** A selection is what a database with the points held as its rows would return. */
  lemma {:induction false} SelectionOfPoints(kept: seq<Point>, metricType: string, start: int, until: int, order: Order)
    requires Sorted(kept)
    ensures IsDatabaseAnswer(multiset(kept), metricType, start, until, order,
                             InOrder(Select(kept, start, until + 1, TypeLabel(metricType)), order))
  {
    var wanted := TypeLabel(metricType);
    var s := Select(kept, start, until + 1, wanted);
    SelectSorted(kept, |kept|, start, until + 1, wanted);
    InOrderIsOrdered(s, order);
    forall d
      ensures multiset(InOrder(s, order))[d] == if Asked(d, metricType, start, until) then multiset(kept)[d] else 0
    {
      SelectAllCounts(kept, start, until + 1, wanted, d);
      AskedIsWanted(d, metricType, start, until);
    }
  }

  lemma {:induction false} HitFromPoints(
    kept: Option<seq<Point>>, metricType: string, start: int, until: int, order: Order, database: Answer)
    requires kept.Some? ==> Sorted(kept.value)
    ensures IsAnswer(kept, metricType, start, until, order, database,
                     AnswerOf(kept, TypeLabel(metricType), start, until, order, database))
  {
    if kept.Some? {
      SelectionOfPoints(kept.value, metricType, start, until, order);
    }
  }

  /** Every row the database would return is cached and not after the end the cache was asked for. */
  ghost predicate HitComplete(
    kept: multiset<Point>, rows: multiset<Point>, metricType: string, start: int, asked: int, read: int)
  {
    forall d :: d in rows && Asked(d, metricType, start, read) ==> d !in rows - kept && d.timestamp <= asked
  }

  lemma {:induction false} SameAnswerIff(
    kept: multiset<Point>, rows: multiset<Point>, metricType: string, start: int, asked: int, read: int, order: Order,
    hit: seq<Point>)
    requires IsDatabaseAnswer(kept, metricType, start, asked, order, hit) && kept <= rows && asked <= read
    ensures IsDatabaseAnswer(rows, metricType, start, read, order, hit)
            <==> HitComplete(kept, rows, metricType, start, asked, read)
  {
  }

  /**
   * When a cache hit is as good as the database. The cached points must be among the rows; then the answer is one the
   * database could have given if and only if every row the database would return is cached and within the range the
   * cache was asked for.
   */
  lemma {:induction false} HitIsDatabaseAnswer(
    kept: seq<Point>, rows: multiset<Point>, metricType: string, start: int, end: int, order: Order, now: int)
    requires Sorted(kept) && multiset(kept) <= rows && 0 <= now
    ensures var hit := InOrder(Select(kept, start, QueryEnd(end, now) + 1, TypeLabel(metricType)), order);
            var asked := if end == -1 then now else end;
            var read := if end < 0 then now else end;
            IsDatabaseAnswer(rows, metricType, start, read, order, hit)
            <==> HitComplete(multiset(kept), rows, metricType, start, asked, read)
  {
    var hit := InOrder(Select(kept, start, QueryEnd(end, now) + 1, TypeLabel(metricType)), order);
    SelectionOfPoints(kept, metricType, start, QueryEnd(end, now), order);
    SameAnswerIff(multiset(kept), rows, metricType, start, QueryEnd(end, now), DatabaseEnd(end, now), order, hit);
  }

  /** With the bounds a caller normally passes, only rows the cache lost can make the difference. */
  lemma {:induction false} FreshCacheAnswersLikeDatabase(
    kept: seq<Point>, rows: multiset<Point>, metricType: string, start: int, end: int, order: Order, now: int)
    requires Sorted(kept) && multiset(kept) <= rows && 0 <= now && -1 <= end
    requires Covers(kept, start)
    requires forall d :: d in rows - multiset(kept) ==> d.timestamp < kept[0].timestamp
    ensures IsDatabaseAnswer(rows, metricType, start, DatabaseEnd(end, now), order,
                             InOrder(Select(kept, start, QueryEnd(end, now) + 1, TypeLabel(metricType)), order))
  {
    HitIsDatabaseAnswer(kept, rows, metricType, start, end, order, now);
  }

  /** No row of the type lies in the range the database reads but after the end the cache was asked for. */
  ghost predicate NoneLater(rows: multiset<Point>, metricType: string, start: int, end: int, now: int) {
    forall d :: d in rows && Asked(d, metricType, start, now) ==> d.timestamp <= end
  }

  /**
   * A fresh cache that covers start agrees with the database for any end: exactly if the end is at least -1, or nothing
   * lies between it and now. Below -1 the cache takes the end as it is, and the database reads up to now.
   */
  lemma {:induction false} AgreementForAnyEnd(
    kept: seq<Point>, rows: multiset<Point>, metricType: string, start: int, end: int, order: Order, now: int)
    requires Sorted(kept) && multiset(kept) <= rows && 0 <= now
    requires Covers(kept, start)
    requires forall d :: d in rows - multiset(kept) ==> d.timestamp < kept[0].timestamp
    ensures IsDatabaseAnswer(rows, metricType, start, DatabaseEnd(end, now), order,
                             InOrder(Select(kept, start, QueryEnd(end, now) + 1, TypeLabel(metricType)), order))
            <==> -1 <= end || NoneLater(rows, metricType, start, end, now)
  {
    HitIsDatabaseAnswer(kept, rows, metricType, start, end, order, now);
  }

  /** One such end. */
  lemma {:induction false} NegativeEndDisagrees(metricType: string)
    ensures var p := Point(5, map["name" := metricType], "1", "");
            && Covers([p], 5)
            && !IsDatabaseAnswer(multiset{p}, metricType, 5, DatabaseEnd(-2, 10), ASC,
                                 Select([p], 5, QueryEnd(-2, 10) + 1, TypeLabel(metricType)))
  {
    var p := Point(5, map["name" := metricType], "1", "");
    AgreementForAnyEnd([p], multiset{p}, metricType, 5, -2, ASC, 10);
    assert Asked(p, metricType, 5, 10);
  }

  /** No point that a query from start to end should have found has been evicted. */
  ghost predicate NoneLost(puts: seq<Point>, capacity: nat, metricType: string, start: int, end: int) {
    forall d :: d in Evicted(puts, capacity) && Asked(d, metricType, start, start) ==> end < start
  }

  lemma {:induction false} NoneLostIff(puts: seq<Point>, capacity: nat, metricType: string, start: int, end: int)
    requires 0 < capacity && Covers(Retained(puts, capacity), start)
    ensures NoneLost(puts, capacity, metricType, start, end)
            <==> forall d :: d in Evicted(puts, capacity) ==> !Asked(d, metricType, start, end)
  {
    var kept := Retained(puts, capacity);
    RetainedIsTopK(puts, capacity);
    forall d | d in Evicted(puts, capacity) ensures d.timestamp <= start {
      assert kept[0] in kept;
    }
  }

  /**
   * If the rows are exactly the points ever put, a hit agrees with the database precisely when no evicted point of the
   * type sits at start, unless the range is empty, and the two read up to the same end. By RetainedIsTopK such a point
   * can only be one tied with the oldest one held.
   */
  lemma {:induction false} HitAgreesUnlessTieEvicted(
    puts: seq<Point>, capacity: nat, metricType: string, start: int, end: int, order: Order, now: int)
    requires 0 < capacity && 0 <= now
    requires Covers(Retained(puts, capacity), start)
    ensures var kept := Retained(puts, capacity);
            IsDatabaseAnswer(multiset(puts), metricType, start, DatabaseEnd(end, now), order,
                             InOrder(Select(kept, start, QueryEnd(end, now) + 1, TypeLabel(metricType)), order))
            <==> NoneLost(puts, capacity, metricType, start, DatabaseEnd(end, now))
                 && (-1 <= end || NoneLater(multiset(puts), metricType, start, end, now))
  {
    var kept := Retained(puts, capacity);
    assert multiset(kept) <= multiset(puts) && Sorted(kept) by { RetainedIsTopK(puts, capacity); }
    NoneLostIff(puts, capacity, metricType, start, DatabaseEnd(end, now));
    assert Evicted(puts, capacity) == multiset(puts) - multiset(kept);
    HitIsDatabaseAnswer(kept, multiset(puts), metricType, start, end, order, now);
  }
}
