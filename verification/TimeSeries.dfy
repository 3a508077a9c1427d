/** Time series as plain sorted sequences: the reference the ring cache is measured against. */
module TimeSeries {

  /** One data point. Only its time and its labels matter to the cache. */
  datatype Point = Point(timestamp: int, labels: map<string, string>, value: string, unit: string) {
    predicate HasLabels(wanted: map<string, string>) {
      forall k <- wanted :: k in labels && labels[k] == wanted[k]
    }
  }

  ghost predicate Sorted(s: seq<Point>) {
    forall i, j :: 0 <= i <= j < |s| ==> s[i].timestamp <= s[j].timestamp
  }

  /** The first position whose point is not earlier than t. */
  function LowerBound(s: seq<Point>, t: int): (p: nat)
    ensures p <= |s|
    ensures forall i :: 0 <= i < p ==> s[i].timestamp < t
    ensures p < |s| ==> t <= s[p].timestamp
  {
    if s == [] || t <= s[0].timestamp then 0 else 1 + LowerBound(s[1..], t)
  }

  lemma {:induction false} BoundSplits(s: seq<Point>, t: int)
    requires Sorted(s)
    ensures forall k :: LowerBound(s, t) <= k < |s| ==> t <= s[k].timestamp
  {
  }

  /**
   * Where a new point goes: after the last point if it is not earlier than that, else before the first one not
   * earlier than it.
   */
  function Place(s: seq<Point>, d: Point): (p: nat)
    ensures p <= |s|
  {
    if s == [] || s[|s| - 1].timestamp <= d.timestamp then |s| else LowerBound(s, d.timestamp)
  }

  function Splice(s: seq<Point>, p: nat, d: Point): (r: seq<Point>)
    requires p <= |s|
    ensures |r| == |s| + 1
  {
    s[..p] + [d] + s[p..]
  }

  function Insert(s: seq<Point>, d: Point): seq<Point> {
    Splice(s, Place(s, d), d)
  }

  /** The last n points. */
  function Last(s: seq<Point>, n: nat): seq<Point> {
    if |s| <= n then s else s[|s| - n..]
  }

  /** What a cache of the given capacity should hold after the given Puts. */
  function Retained(puts: seq<Point>, capacity: nat): seq<Point> {
    if puts == [] then []
    else Last(Insert(Retained(puts[..|puts| - 1], capacity), puts[|puts| - 1]), capacity)
  }

  /** All Puts, merged without a capacity. */
  function Merged(puts: seq<Point>): seq<Point> {
    if puts == [] then [] else Insert(Merged(puts[..|puts| - 1]), puts[|puts| - 1])
  }

  lemma {:induction false} InsertSorted(s: seq<Point>, d: Point)
    requires Sorted(s)
    ensures Sorted(Insert(s, d))
  {
    var p := Place(s, d);
    forall j | p <= j < |s| ensures d.timestamp <= s[j].timestamp {
      assert s[p].timestamp <= s[j].timestamp;
    }
    forall i | 0 <= i < p ensures s[i].timestamp <= d.timestamp {
      assert s[i].timestamp <= s[|s| - 1].timestamp;
    }
  }

  lemma {:induction false} InsertElements(s: seq<Point>, d: Point)
    ensures multiset(Insert(s, d)) == multiset(s) + multiset{d}
  {
    assert s == s[..Place(s, d)] + s[Place(s, d)..];
  }

  lemma {:induction false} MergedProperties(puts: seq<Point>)
    ensures Sorted(Merged(puts))
    ensures multiset(Merged(puts)) == multiset(puts)
    ensures |Merged(puts)| == |puts|
  {
    if puts != [] {
      var n := |puts| - 1;
      MergedProperties(puts[..n]);
      InsertSorted(Merged(puts[..n]), puts[n]);
      InsertElements(Merged(puts[..n]), puts[n]);
      assert puts == puts[..n] + [puts[n]];
      assert |multiset(Merged(puts))| == |multiset(puts)|;
    }
  }

  lemma {:induction false} LowerBoundUnique(s: seq<Point>, t: int, p: nat)
    requires p <= |s|
    requires forall i :: 0 <= i < p ==> s[i].timestamp < t
    requires p < |s| ==> t <= s[p].timestamp
    ensures LowerBound(s, t) == p
  {
    if 0 < p {
      LowerBoundUnique(s[1..], t, p - 1);
    }
  }

  lemma {:induction false} PlaceInSuffix(s: seq<Point>, d: Point, k: nat)
    requires Sorted(s) && k < |s|
    ensures Place(s[k..], d) == if Place(s, d) <= k then 0 else Place(s, d) - k
  {
    assert s[k..][|s| - k - 1] == s[|s| - 1];
    if d.timestamp < s[|s| - 1].timestamp {
      var p := LowerBound(s, d.timestamp);
      assert p <= k ==> s[p].timestamp <= s[k].timestamp;
      LowerBoundUnique(s[k..], d.timestamp, if p <= k then 0 else p - k);
    }
  }

  lemma {:induction false} TrimThenSplice(s: seq<Point>, d: Point, p: nat, k: nat)
    requires k < |s| && p <= |s|
    ensures Splice(s[k..], if p <= k then 0 else p - k, d)[1..] == Splice(s, p, d)[k + 1..]
  {
    var l, r := Splice(s[k..], if p <= k then 0 else p - k, d), Splice(s, p, d);
    assert forall i :: 1 <= i < |l| ==> l[i] == r[k + i];
    assert l[1..] == r[k + 1..];
  }

  lemma {:induction false} TrimThenInsertAt(s: seq<Point>, d: Point, k: nat, n: nat)
    requires |s| == k + n && 0 < n
    requires Place(s[k..], d) == if Place(s, d) <= k then 0 else Place(s, d) - k
    ensures Last(Insert(s[k..], d), n) == Last(Insert(s, d), n)
  {
    TrimThenSplice(s, d, Place(s, d), k);
  }

  /** Trimming before an insertion loses nothing that trimming after it would keep. */
  lemma {:induction false} TrimThenInsert(s: seq<Point>, d: Point, n: nat)
    requires Sorted(s) && 0 < n
    ensures Last(Insert(Last(s, n), d), n) == Last(Insert(s, d), n)
  {
    if |s| > n {
      var k := |s| - n;
      PlaceInSuffix(s, d, k);
      TrimThenInsertAt(s, d, k, n);
      assert Last(s, n) == s[k..];
    }
  }

  /** Discarding as we go keeps the same points as merging everything and trimming once. */
  lemma {:induction false} RetainedIsLastOfMerged(puts: seq<Point>, capacity: nat)
    requires 0 < capacity
    ensures Retained(puts, capacity) == Last(Merged(puts), capacity)
  {
    if puts != [] {
      var n := |puts| - 1;
      RetainedIsLastOfMerged(puts[..n], capacity);
      MergedProperties(puts[..n]);
      TrimThenInsert(Merged(puts[..n]), puts[n], capacity);
    }
  }

  /** The points put but no longer retained. */
  ghost function Evicted(puts: seq<Point>, capacity: nat): multiset<Point> {
    multiset(puts) - multiset(Retained(puts, capacity))
  }

  /**
   * Top-k: the retained points are sorted, as many as fit, among the points put, and none older than an evicted one.
   */
  lemma {:induction false} RetainedIsTopK(puts: seq<Point>, capacity: nat)
    requires 0 < capacity
    ensures var kept := Retained(puts, capacity);
            && Sorted(kept)
            && |kept| == (if |puts| < capacity then |puts| else capacity)
            && multiset(puts) == multiset(kept) + Evicted(puts, capacity)
            && forall e, k :: e in Evicted(puts, capacity) && k in kept ==> e.timestamp <= k.timestamp
  {
    RetainedIsLastOfMerged(puts, capacity);
    MergedProperties(puts);
    var all := Merged(puts);
    var cut := if |all| <= capacity then 0 else |all| - capacity;
    assert Retained(puts, capacity) == all[cut..];
    SuffixOfSorted(all, cut);
  }

  lemma {:induction false} SuffixOfSorted(all: seq<Point>, cut: nat)
    requires Sorted(all) && cut <= |all|
    ensures Sorted(all[cut..])
    ensures multiset(all) == multiset(all[..cut]) + multiset(all[cut..])
    ensures multiset(all) - multiset(all[cut..]) == multiset(all[..cut])
    ensures forall e, k :: e in multiset(all[..cut]) && k in all[cut..] ==> e.timestamp <= k.timestamp
  {
    assert all == all[..cut] + all[cut..];
    forall e, k | e in multiset(all[..cut]) && k in all[cut..]
      ensures e.timestamp <= k.timestamp
    {
      var i :| 0 <= i < cut && all[i] == e;
      var j :| cut <= j < |all| && all[j] == k;
    }
  }

  function Stamps(s: seq<Point>): (r: seq<int>)
    ensures |r| == |s|
    ensures forall i :: 0 <= i < |s| ==> r[i] == s[i].timestamp
  {
    seq(|s|, i requires 0 <= i < |s| => s[i].timestamp)
  }

  ghost predicate Ascending(s: seq<int>) {
    forall i, j :: 0 <= i < j < |s| ==> s[i] <= s[j]
  }

  lemma {:induction false} DropLast<T>(s: seq<T>)
    requires s != []
    ensures multiset(s[..|s| - 1]) == multiset(s) - multiset{s[|s| - 1]}
    ensures s[|s| - 1] in multiset(s)
  {
    assert s == s[..|s| - 1] + [s[|s| - 1]];
  }

  lemma {:induction false} LastIsGreatest(a: seq<int>, x: int)
    requires Ascending(a) && x in multiset(a)
    ensures x <= a[|a| - 1]
  {
    assert x in a;
  }

  lemma {:induction false} SameGreatest(a: seq<int>, b: seq<int>)
    requires Ascending(a) && Ascending(b) && multiset(a) == multiset(b) && |a| == |b| > 0
    ensures a[|a| - 1] == b[|b| - 1]
    ensures multiset(a[..|a| - 1]) == multiset(b[..|b| - 1])
  {
    var n := |a| - 1;
    DropLast(a);
    DropLast(b);
    LastIsGreatest(a, b[n]);
    LastIsGreatest(b, a[n]);
  }

  /** An ascending sequence is determined by its elements. */
  lemma {:induction false} AscendingUnique(a: seq<int>, b: seq<int>)
    requires Ascending(a) && Ascending(b) && multiset(a) == multiset(b)
    ensures a == b
  {
    assert |a| == |multiset(a)| == |multiset(b)| == |b|;
    if a != [] {
      var n := |a| - 1;
      SameGreatest(a, b);
      AscendingUnique(a[..n], b[..n]);
      assert a == a[..n] + [a[n]] == b;
    }
  }

  lemma {:induction false} StampsOfConcat(s: seq<Point>, t: seq<Point>)
    ensures Stamps(s + t) == Stamps(s) + Stamps(t)
  {
  }

  lemma {:induction false} RemoveAt(t: seq<Point>, i: nat)
    requires i < |t|
    ensures multiset(t[..i] + t[i + 1..]) == multiset(t) - multiset{t[i]}
    ensures multiset(Stamps(t)) == multiset(Stamps(t[..i] + t[i + 1..])) + multiset{t[i].timestamp}
  {
    assert t == t[..i] + [t[i]] + t[i + 1..];
    StampsOfConcat(t[..i], t[i + 1..]);
    assert Stamps(t) == Stamps(t[..i]) + [t[i].timestamp] + Stamps(t[i + 1..]);
  }

  lemma {:induction false} StampsMultiset(s: seq<Point>, t: seq<Point>)
    requires multiset(s) == multiset(t)
    ensures multiset(Stamps(s)) == multiset(Stamps(t))
  {
    assert |s| == |multiset(s)| == |multiset(t)| == |t|;
    if s != [] {
      var n := |s| - 1;
      assert s[n] in multiset(t);
      var i :| 0 <= i < |t| && t[i] == s[n];
      RemoveAt(s, n);
      RemoveAt(t, i);
      StampsMultiset(s[..n] + s[n + 1..], t[..i] + t[i + 1..]);
    }
  }

  /**
   * The times held do not depend on the order in which the points arrived: they are the largest ones of any sorting.
   */
  lemma {:induction false} ArrivalOrderIsIrrelevant(puts: seq<Point>, sorting: seq<Point>, capacity: nat)
    requires 0 < capacity
    requires Sorted(sorting) && multiset(sorting) == multiset(puts)
    ensures Stamps(Retained(puts, capacity)) == Stamps(Last(sorting, capacity))
  {
    RetainedIsLastOfMerged(puts, capacity);
    MergedProperties(puts);
    StampsMultiset(Merged(puts), sorting);
    AscendingUnique(Stamps(Merged(puts)), Stamps(sorting));
    assert |sorting| == |Stamps(sorting)| == |Merged(puts)|;
  }

  predicate Wanted(d: Point, start: int, end: int, labels: map<string, string>) {
    start <= d.timestamp < end && d.HasLabels(labels)
  }

  /** The wanted points among the first k, in order. */
  function SelectUpTo(s: seq<Point>, k: nat, start: int, end: int, labels: map<string, string>): seq<Point>
    requires k <= |s|
  {
    if k == 0 then []
    else
      var r := SelectUpTo(s, k - 1, start, end, labels);
      if Wanted(s[k - 1], start, end, labels) then r + [s[k - 1]] else r
  }

  /** The points in [start, end) that carry the labels, in order. */
  function Select(s: seq<Point>, start: int, end: int, labels: map<string, string>): seq<Point> {
    SelectUpTo(s, |s|, start, end, labels)
  }

  lemma {:induction false} SelectCounts(
    s: seq<Point>, k: nat, start: int, end: int, labels: map<string, string>, d: Point)
    requires k <= |s|
    ensures multiset(SelectUpTo(s, k, start, end, labels))[d]
            == if Wanted(d, start, end, labels) then multiset(s[..k])[d] else 0
  {
    if k > 0 {
      SelectCounts(s, k - 1, start, end, labels, d);
      assert s[..k] == s[..k - 1] + [s[k - 1]];
    }
  }

  lemma {:induction false} SelectAllCounts(s: seq<Point>, start: int, end: int, labels: map<string, string>, d: Point)
    ensures multiset(Select(s, start, end, labels))[d] == if Wanted(d, start, end, labels) then multiset(s)[d] else 0
  {
    SelectCounts(s, |s|, start, end, labels, d);
    assert s[..|s|] == s;
  }

  lemma {:induction false} SelectPrefix(
    s: seq<Point>, k: nat, m: nat, start: int, end: int, labels: map<string, string>)
    requires k <= m <= |s| && forall i :: k <= i < m ==> !Wanted(s[i], start, end, labels)
    ensures SelectUpTo(s, m, start, end, labels) == SelectUpTo(s, k, start, end, labels)
  {
    if k < m {
      SelectPrefix(s, k, m - 1, start, end, labels);
    }
  }

  /** Selection keeps order, so what it takes from a sorted sequence is sorted. */
  lemma {:induction false} SelectSorted(s: seq<Point>, k: nat, start: int, end: int, labels: map<string, string>)
    requires Sorted(s) && k <= |s|
    ensures Sorted(SelectUpTo(s, k, start, end, labels))
    ensures forall d :: d in SelectUpTo(s, k, start, end, labels) ==> d in s[..k]
  {
    if k > 0 {
      SelectSorted(s, k - 1, start, end, labels);
      var r := SelectUpTo(s, k - 1, start, end, labels);
      forall d | d in r ensures d in s[..k] && d.timestamp <= s[k - 1].timestamp {
        var i :| 0 <= i < k - 1 && s[i] == d;
      }
      forall i | 0 <= i < |r| ensures r[i].timestamp <= s[k - 1].timestamp {
        assert r[i] in r;
      }
      assert s[k - 1] in s[..k];
    }
  }

  /** Asking the retained points misses nothing that asking every point ever put would find. */
  ghost predicate Complete(puts: seq<Point>, capacity: nat, start: int, end: int, labels: map<string, string>) {
    multiset(Select(Retained(puts, capacity), start, end, labels)) == multiset(Select(puts, start, end, labels))
  }

  lemma {:induction false} SelectedAndLost(
    puts: seq<Point>, capacity: nat, start: int, end: int, labels: map<string, string>, d: Point)
    requires 0 < capacity
    ensures multiset(Select(puts, start, end, labels))[d]
            == multiset(Select(Retained(puts, capacity), start, end, labels))[d]
               + if Wanted(d, start, end, labels) then Evicted(puts, capacity)[d] else 0
  {
    var kept := Retained(puts, capacity);
    assert multiset(puts) == multiset(kept) + Evicted(puts, capacity) by { RetainedIsTopK(puts, capacity); }
    SelectAllCounts(kept, start, end, labels, d);
    SelectAllCounts(puts, start, end, labels, d);
  }

  lemma {:induction false} CompleteIffNothingWantedEvicted(
    puts: seq<Point>, capacity: nat, start: int, end: int, labels: map<string, string>)
    requires 0 < capacity
    ensures Complete(puts, capacity, start, end, labels)
            <==> forall e :: e in Evicted(puts, capacity) ==> !Wanted(e, start, end, labels)
  {
    if Complete(puts, capacity, start, end, labels) {
      forall e | e in Evicted(puts, capacity) ensures !Wanted(e, start, end, labels) {
        SelectedAndLost(puts, capacity, start, end, labels, e);
      }
    }
    if forall e :: e in Evicted(puts, capacity) ==> !Wanted(e, start, end, labels) {
      var kept, all := Select(Retained(puts, capacity), start, end, labels), Select(puts, start, end, labels);
      forall d ensures multiset(all)[d] == multiset(kept)[d] {
        SelectedAndLost(puts, capacity, start, end, labels, d);
      }
      assert multiset(all) == multiset(kept);
    }
  }

  /** A hit: the oldest retained point is not later than the start asked for. */
  ghost predicate Covers(kept: seq<Point>, start: int) {
    kept != [] && kept[0].timestamp <= start
  }

  /** On a hit only evicted points at the very start, tied with the oldest retained one, can be missing. */
  lemma {:induction false} HitMissesOnlyTies(
    puts: seq<Point>, capacity: nat, start: int, end: int, labels: map<string, string>, e: Point)
    requires 0 < capacity
    requires Covers(Retained(puts, capacity), start)
    requires e in Evicted(puts, capacity) && Wanted(e, start, end, labels)
    ensures e.timestamp == start == Retained(puts, capacity)[0].timestamp
  {
    RetainedIsTopK(puts, capacity);
    assert Retained(puts, capacity)[0] in Retained(puts, capacity);
  }

  lemma {:induction false} NothingEvictedBelowCapacity(puts: seq<Point>, capacity: nat)
    requires 0 < capacity && |puts| <= capacity
    ensures Evicted(puts, capacity) == multiset{}
  {
    RetainedIsTopK(puts, capacity);
    assert |multiset(puts)| == |multiset(Retained(puts, capacity))| + |Evicted(puts, capacity)|;
  }

  lemma {:induction false} MergedOfSorted(puts: seq<Point>)
    requires Sorted(puts)
    ensures Merged(puts) == puts
  {
    if puts != [] {
      var n := |puts| - 1;
      var front := puts[..n];
      MergedOfSorted(front);
      assert n > 0 ==> front[n - 1].timestamp <= puts[n].timestamp;
      assert Place(front, puts[n]) == n;
      assert puts == front[..n] + [puts[n]] + front[n..];
    }
  }

  /** A history that leaves the cache as it is, yet has lost a wanted point. */
  function LossyHistory(kept: seq<Point>, lost: Point, n: nat): (h: seq<Point>)
    requires |kept| <= n
    ensures |h| == n
  {
    seq(n - |kept|, i => lost) + kept
  }

  lemma {:induction false} LossyHistoryLoses(kept: seq<Point>, lost: Point, n: nat)
    requires Sorted(kept) && 0 < |kept| < n && lost.timestamp == kept[0].timestamp
    ensures Retained(LossyHistory(kept, lost, n), |kept|) == kept
    ensures lost in Evicted(LossyHistory(kept, lost, n), |kept|)
  {
    var h := LossyHistory(kept, lost, n);
    var extra := seq(n - |kept|, i => lost);
    assert h == extra + kept;
    RetainedIsLastOfMerged(h, |kept|);
    MergedOfSorted(h);
    assert h[n - |kept|..] == kept;
    assert multiset(h) == multiset(extra) + multiset(kept);
    assert extra[0] == lost;
  }

  /**
   * Exactly when a hit is a promise. The cache knows its retained points and how many Puts there were; completeness
   * follows from that if and only if no Put was lost, or the oldest point is strictly earlier than the start, or the
   * range is empty.
   */
  lemma {:induction false} HitGuarantee(
    kept: seq<Point>, n: nat, capacity: nat, start: int, end: int, labels: map<string, string>)
    requires 0 < capacity && Covers(kept, start)
    requires exists h :: |h| == n && Retained(h, capacity) == kept
    ensures (forall h :: |h| == n && Retained(h, capacity) == kept ==> Complete(h, capacity, start, end, labels))
            <==> n <= capacity || kept[0].timestamp < start || end <= start
  {
    if n <= capacity || kept[0].timestamp < start || end <= start {
      forall h | |h| == n && Retained(h, capacity) == kept
        ensures Complete(h, capacity, start, end, labels)
      {
        CompleteIffNothingWantedEvicted(h, capacity, start, end, labels);
        forall e | e in Evicted(h, capacity) ensures !Wanted(e, start, end, labels) {
          if n <= capacity { NothingEvictedBelowCapacity(h, capacity); }
          if Wanted(e, start, end, labels) { HitMissesOnlyTies(h, capacity, start, end, labels, e); }
        }
      }
    } else {
      var reached :| |reached| == n && Retained(reached, capacity) == kept;
      RetainedIsTopK(reached, capacity);
      var lost := Point(start, labels, "", "");
      LossyHistoryLoses(kept, lost, n);
      CompleteIffNothingWantedEvicted(LossyHistory(kept, lost, n), capacity, start, end, labels);
      assert Wanted(lost, start, end, labels);
    }
  }
}
