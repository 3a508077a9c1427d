/** The metrics server's collector: one cache per app of its node, kept apart from one another. */
module MetricCollectors {
  import opened Common
  import opened TimeSeries
  import opened TSDCaches
  import opened AppManagers
  import opened Decimals

  const INSTANCE_LABEL := "instance_index"

  /** A negative index asks for all instances. */
  function QueryLabels(name: string, instanceIndex: int): map<string, string> {
    if 0 <= instanceIndex then map[NAME_LABEL := name, INSTANCE_LABEL := Decimal(instanceIndex)]
    else map[NAME_LABEL := name]
  }

  /** The point of an instance. */
  ghost predicate IsMetricOf(d: Point, name: string, instance: nat) {
    && NAME_LABEL in d.labels && d.labels[NAME_LABEL] == name
    && INSTANCE_LABEL in d.labels && d.labels[INSTANCE_LABEL] == Decimal(instance)
  }

  /** A query finds the points of its own name and instance, or of all instances, and no others. */
  lemma QuerySelectsInstance(d: Point, name: string, instance: nat, wanted: string, instanceIndex: int)
    requires IsMetricOf(d, name, instance)
    ensures d.HasLabels(QueryLabels(wanted, instanceIndex))
            <==> name == wanted && (0 <= instanceIndex ==> instanceIndex == instance)
  {
    var labels := QueryLabels(wanted, instanceIndex);
    assert NAME_LABEL in labels && labels[NAME_LABEL] == wanted;
    if 0 <= instanceIndex {
      assert INSTANCE_LABEL in labels && labels[INSTANCE_LABEL] == Decimal(instanceIndex);
      if Decimal(instance) == Decimal(instanceIndex) {
        DecimalInjective(instance, instanceIndex);
      }
    }
  }

  class MetricCollector {
    const cacheSize: nat
    const persistMetrics: bool
    var appIDs: set<string>
    var metricCache: map<string, TSDCache>

    constructor (cacheSize: int, persistMetrics: bool)
      requires 0 < cacheSize
      ensures appIDs == {} && metricCache == map[]
      ensures this.cacheSize == cacheSize && this.persistMetrics == persistMetrics
    {
      this.cacheSize, this.persistMetrics := cacheSize, persistMetrics;
      appIDs, metricCache := {}, map[];
    }

    /**
     * Takes the apps of this node: those that stay keep their very caches, others lose them, and each new one gets an
     * empty cache that shares no memory with any other.
     */
    method RefreshApps(apps: Option<set<string>>, node: string -> nat, nodeIndex: nat)
      requires 0 < cacheSize
      modifies this
      ensures apps.None? ==> appIDs == old(appIDs) && metricCache == old(metricCache)
      ensures apps.Some? ==>
        && appIDs == (set id | id in apps.value && node(id) == nodeIndex)
        && metricCache.Keys == appIDs
        && (forall id :: id in appIDs && id in old(metricCache) ==> metricCache[id] == old(metricCache)[id])
        && (forall id :: id in appIDs && id !in old(metricCache) ==>
              IsNew(metricCache[id], cacheSize) && fresh(metricCache[id]) && fresh(metricCache[id].data))
        && (forall i, j :: i in appIDs - old(metricCache).Keys && j in appIDs - old(metricCache).Keys && i != j ==>
              metricCache[i] != metricCache[j] && metricCache[i].data != metricCache[j].data)
    {
      if apps.Some? {
        var ids := set id | id in apps.value && node(id) == nodeIndex;
        var kept := metricCache - (metricCache.Keys - ids);
        var added := NewCaches(ids - kept.Keys, cacheSize);
        appIDs, metricCache := ids, kept + added;
      }
    }

    /** A metric goes into its app's cache; by the frame, no cache that shares no memory with it is touched. */
    method SaveMetricToCache(appId: string, metric: Point) returns (saved: bool)
      requires appId in metricCache ==> metricCache[appId].Valid()
      modifies if appId in metricCache then {metricCache[appId], metricCache[appId].data} else {}
      ensures saved <==> appId in metricCache
      ensures saved ==> var c := metricCache[appId]; c.Valid() && c.puts == old(c.puts) + [metric]
    {
      if appId in metricCache {
        metricCache[appId].Put(metric);
        return true;
      }
      return false;
    }

    /** The cache on a hit, or whatever it has if nothing is persisted; else the database, if there is one. */
    method QueryMetrics(appId: string, instanceIndex: int, name: string, start: int, end: int, order: Order, now: int,
                        database: Answer) returns (answer: Answer)
      requires appId in metricCache ==> metricCache[appId].Valid()
      ensures answer == CollectedAnswer(old(Cached(appId)), persistMetrics, QueryLabels(name, instanceIndex),
                                        start, QueryEnd(end, now), order, database)
      ensures IsCollected(old(Cached(appId)), persistMetrics, name, instanceIndex, start,
                          if end == -1 then now else end, order, database, answer)
    {
      ghost var kept := Cached(appId);
      if appId in metricCache {
        RetainedIsTopK(metricCache[appId].puts, metricCache[appId].capacity);
      }
      CollectedFromPoints(kept, persistMetrics, name, instanceIndex, start, QueryEnd(end, now), order, database);
      var until := if end == -1 then now else end;
      var labels := QueryLabels(name, instanceIndex);
      if appId in metricCache {
        answer := QueryCached(metricCache[appId], persistMetrics, labels, start, until, order, database);
      } else {
        answer := if persistMetrics then database else Metrics([]);
      }
    }

    /** What the app's cache holds, if it has one. */
    ghost function Cached(appId: string): Option<seq<Point>>
      requires appId in metricCache ==> metricCache[appId].Valid()
      reads this, if appId in metricCache then {metricCache[appId], metricCache[appId].data} else {}
    {
      if appId in metricCache then Some(metricCache[appId].Contents()) else None
    }
  }

  /** Without persistence the cache answers as well as it can, and no cache answers with nothing. */
  ghost function CollectedAnswer(
    kept: Option<seq<Point>>, persisted: bool, labels: map<string, string>, start: int, until: int, order: Order,
    database: Answer): Answer
  {
    if persisted then AnswerOf(kept, labels, start, until, order, database)
    else if kept.Some? then Metrics(InOrder(Select(kept.value, start, until + 1, labels), order))
    else Metrics([])
  }

  /** A point of the name, of the instance unless the index is negative, in the inclusive range. */
  predicate AskedOf(d: Point, name: string, instanceIndex: int, start: int, until: int) {
    && Asked(d, name, start, until)
    && (0 <= instanceIndex ==> "instance_index" in d.labels && d.labels["instance_index"] == Decimal(instanceIndex))
  }

  /** What the answer means, in terms of the points held. */
  ghost predicate IsCollected(
    kept: Option<seq<Point>>, persisted: bool, name: string, instanceIndex: int, start: int, until: int, order: Order,
    database: Answer, answer: Answer)
  {
    if kept.Some? && (!persisted || (kept.value != [] && kept.value[0].timestamp <= start)) then
      && answer.Metrics? && Ordered(answer.list, order)
      && forall d :: multiset(answer.list)[d]
                     == if AskedOf(d, name, instanceIndex, start, until) then multiset(kept.value)[d] else 0
    else if persisted then answer == database
    else answer == Metrics([])
  }

  lemma AskedOfIsWanted(d: Point, name: string, instanceIndex: int, start: int, until: int)
    ensures AskedOf(d, name, instanceIndex, start, until)
            <==> Wanted(d, start, until + 1, QueryLabels(name, instanceIndex))
  {
    var labels := QueryLabels(name, instanceIndex);
    assert NAME_LABEL in labels && labels[NAME_LABEL] == name;
    assert 0 <= instanceIndex ==> INSTANCE_LABEL in labels && labels[INSTANCE_LABEL] == Decimal(instanceIndex);
  }

  lemma {:induction false} CollectedFromPoints(
    kept: Option<seq<Point>>, persisted: bool, name: string, instanceIndex: int, start: int, until: int, order: Order,
    database: Answer)
    requires kept.Some? ==> Sorted(kept.value)
    ensures IsCollected(
      kept, persisted, name, instanceIndex, start, until, order, database,
      CollectedAnswer(kept, persisted, QueryLabels(name, instanceIndex), start, until, order, database))
  {
    if kept.Some? {
      var labels := QueryLabels(name, instanceIndex);
      var s := Select(kept.value, start, until + 1, labels);
      SelectSorted(kept.value, |kept.value|, start, until + 1, labels);
      InOrderIsOrdered(s, order);
      forall d
        ensures multiset(InOrder(s, order))[d]
                == if AskedOf(d, name, instanceIndex, start, until) then multiset(kept.value)[d] else 0
      {
        SelectAllCounts(kept.value, start, until + 1, labels, d);
        AskedOfIsWanted(d, name, instanceIndex, start, until);
      }
    }
  }

  ghost predicate IsNew(cache: TSDCache, size: nat)
    reads cache, cache.data
  {
    cache.Valid() && cache.capacity == size && cache.puts == []
  }

  /** The creation loop. */
  method NewCaches(ids: set<string>, size: nat) returns (caches: map<string, TSDCache>)
    requires 0 < size
    ensures caches.Keys == ids
    ensures forall id :: id in ids ==> IsNew(caches[id], size) && fresh(caches[id]) && fresh(caches[id].data)
    ensures forall i, j :: i in ids && j in ids && i != j ==> caches[i] != caches[j] && caches[i].data != caches[j].data
  {
    caches := map[];
    var left := ids;
    while left != {}
      invariant left <= ids && caches.Keys == ids - left
      invariant forall id :: id in caches ==> IsNew(caches[id], size) && fresh(caches[id]) && fresh(caches[id].data)
      invariant forall i, j :: i in caches && j in caches && i != j ==>
        caches[i] != caches[j] && caches[i].data != caches[j].data
      decreases left
    {
      var id := AnyOf(left);
      var cache := new TSDCache(size);
      caches := caches[id := cache];
      left := left - {id};
    }
  }

  /** The answer for an app that has a cache. */
  method QueryCached(
    appCache: TSDCache, persisted: bool, labels: map<string, string>, start: int, until: int, order: Order,
    database: Answer)
    returns (answer: Answer)
    requires appCache.Valid()
    ensures answer == CollectedAnswer(Some(old(appCache.Contents())), persisted, labels, start, until, order, database)
  {
    var result, hit := appCache.Query(start, until + 1, labels);
    if hit || !persisted {
      var metrics := CopyOut(result, order);
      return Metrics(metrics);
    }
    return database;
  }
}
