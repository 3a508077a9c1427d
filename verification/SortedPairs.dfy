/** A stable sort by a key, and checks over all pairs of a list, which no reordering changes. */
module SortedPairs {

  ghost predicate SortedBy<T>(s: seq<T>, key: T -> int) {
    forall i, j :: 0 <= i <= j < |s| ==> key(s[i]) <= key(s[j])
  }

  /** Before the last elements with a greater key, after those with an equal one. */
  function InsertBy<T>(s: seq<T>, x: T, key: T -> int): (t: seq<T>)
    ensures |t| == |s| + 1
  {
    if s != [] && key(x) < key(s[|s| - 1]) then InsertBy(s[..|s| - 1], x, key) + [s[|s| - 1]] else s + [x]
  }

  /** The one order a stable sort can produce. */
  function SortBy<T>(s: seq<T>, key: T -> int): (t: seq<T>)
    ensures |t| == |s|
  {
    if s == [] then [] else InsertBy(SortBy(s[..|s| - 1], key), s[|s| - 1], key)
  }

  lemma {:induction false} InsertByElements<T>(s: seq<T>, x: T, key: T -> int)
    ensures multiset(InsertBy(s, x, key)) == multiset(s) + multiset{x}
  {
    if s != [] && key(x) < key(s[|s| - 1]) {
      InsertByElements(s[..|s| - 1], x, key);
      assert s == s[..|s| - 1] + [s[|s| - 1]];
    }
  }

  lemma {:induction false} InsertByBounded<T>(s: seq<T>, x: T, key: T -> int, bound: int)
    requires forall i :: 0 <= i < |s| ==> key(s[i]) <= bound
    requires key(x) <= bound
    ensures forall i :: 0 <= i < |s| + 1 ==> key(InsertBy(s, x, key)[i]) <= bound
  {
    if s != [] && key(x) < key(s[|s| - 1]) {
      InsertByBounded(s[..|s| - 1], x, key, bound);
    }
  }

  lemma {:induction false} InsertBySorted<T>(s: seq<T>, x: T, key: T -> int)
    requires SortedBy(s, key)
    ensures SortedBy(InsertBy(s, x, key), key)
  {
    if s != [] && key(x) < key(s[|s| - 1]) {
      var n := |s| - 1;
      InsertBySorted(s[..n], x, key);
      InsertByBounded(s[..n], x, key, key(s[n]));
    }
  }

  lemma {:induction false} SortByProperties<T>(s: seq<T>, key: T -> int)
    ensures SortedBy(SortBy(s, key), key)
    ensures multiset(SortBy(s, key)) == multiset(s)
    ensures forall x :: x in SortBy(s, key) <==> x in s
  {
    if s != [] {
      var n := |s| - 1;
      SortByProperties(s[..n], key);
      InsertByElements(SortBy(s[..n], key), s[n], key);
      InsertBySorted(SortBy(s[..n], key), s[n], key);
      assert s == s[..n] + [s[n]];
    }
    assert forall x :: x in SortBy(s, key) <==> x in multiset(SortBy(s, key));
  }

  /** The elements with one key, in the order of the list. */
  function WithKey<T>(s: seq<T>, key: T -> int, k: int): seq<T> {
    if s == [] then []
    else WithKey(s[..|s| - 1], key, k) + if key(s[|s| - 1]) == k then [s[|s| - 1]] else []
  }

  lemma {:induction false} InsertByIsStable<T>(s: seq<T>, x: T, key: T -> int, k: int)
    ensures WithKey(InsertBy(s, x, key), key, k) == WithKey(s, key, k) + if key(x) == k then [x] else []
  {
    var t := InsertBy(s, x, key);
    if s != [] && key(x) < key(s[|s| - 1]) {
      InsertByIsStable(s[..|s| - 1], x, key, k);
      assert t[..|s|] == InsertBy(s[..|s| - 1], x, key);
    } else {
      assert t[..|s|] == s;
    }
  }

  /** Elements with equal keys stay in order. */
  lemma {:induction false} SortByIsStable<T>(s: seq<T>, key: T -> int, k: int)
    ensures WithKey(SortBy(s, key), key, k) == WithKey(s, key, k)
  {
    if s != [] {
      SortByIsStable(s[..|s| - 1], key, k);
      InsertByIsStable(SortBy(s[..|s| - 1], key), s[|s| - 1], key, k);
    }
  }

  /** No two positions of the list hold a bad pair. */
  ghost predicate PairFree<T>(s: seq<T>, bad: (T, T) -> bool) {
    forall i, j :: 0 <= i < j < |s| ==> !bad(s[i], s[j])
  }

  ghost predicate PairFreeElements<T(!new)>(m: multiset<T>, bad: (T, T) -> bool) {
    forall a, b :: multiset{a, b} <= m ==> !bad(a, b)
  }

  /** Taking out one occurrence of a leaves the one of b. */
  lemma {:induction false} OneTakenOut<T>(s: seq<T>, i: nat, a: T, b: T)
    requires i < |s| && s[i] == a && multiset{a, b} <= multiset(s)
    ensures b in s[..i] + s[i + 1..]
  {
    var rest := s[..i] + s[i + 1..];
    assert multiset(s) == multiset(rest) + multiset{a} by {
      assert s == s[..i] + [a] + s[i + 1..];
    }
    assert multiset(s)[b] >= multiset{a, b}[b];
    assert multiset(rest)[b] > 0;
  }

  lemma {:induction false} TwoOccurrences<T>(s: seq<T>, a: T, b: T) returns (i: nat, j: nat)
    requires multiset{a, b} <= multiset(s)
    ensures i < |s| && j < |s| && i != j && s[i] == a && s[j] == b
  {
    assert a in multiset{a, b};
    i :| 0 <= i < |s| && s[i] == a;
    OneTakenOut(s, i, a, b);
    var rest := s[..i] + s[i + 1..];
    var k :| 0 <= k < |rest| && rest[k] == b;
    j := if k < i then k else k + 1;
  }

  lemma {:induction false} PairOfOccurrences<T>(s: seq<T>, i: nat, j: nat)
    requires i < j < |s|
    ensures multiset{s[i], s[j]} <= multiset(s)
  {
    assert s == s[..i] + [s[i]] + s[i + 1..j] + [s[j]] + s[j + 1..];
  }

  lemma {:induction false} PairFreeByElements<T(!new)>(s: seq<T>, bad: (T, T) -> bool)
    requires forall a, b :: bad(a, b) == bad(b, a)
    ensures PairFree(s, bad) <==> PairFreeElements(multiset(s), bad)
  {
    if PairFree(s, bad) {
      forall a, b | multiset{a, b} <= multiset(s) ensures !bad(a, b) {
        var i, j := TwoOccurrences(s, a, b);
        assert bad(a, b) == bad(b, a);
      }
    }
    if PairFreeElements(multiset(s), bad) {
      forall i, j | 0 <= i < j < |s| ensures !bad(s[i], s[j]) {
        PairOfOccurrences(s, i, j);
      }
    }
  }

  /** Whether a symmetric check finds a bad pair does not depend on the order of the list. */
  lemma {:induction false} SortingKeepsPairs<T(!new)>(s: seq<T>, key: T -> int, bad: (T, T) -> bool)
    requires forall a, b :: bad(a, b) == bad(b, a)
    ensures PairFree(SortBy(s, key), bad) <==> PairFree(s, bad)
  {
    SortByProperties(s, key);
    PairFreeByElements(s, bad);
    PairFreeByElements(SortBy(s, key), bad);
  }

  /** The bad pairs a nested loop finds before it comes to the pair (j, i). */
  function BadWith<T>(s: seq<T>, j: nat, i: nat, bad: (T, T) -> bool): seq<(nat, nat)>
    requires j < |s| && i <= |s|
    decreases j, i + 1
  {
    if i <= j + 1 then BadPairs(s, j, bad)
    else if bad(s[j], s[i - 1]) then BadWith(s, j, i - 1, bad) + [(j, i - 1)]
    else BadWith(s, j, i - 1, bad)
  }

  /** The bad pairs whose first position is below j, in the order of a nested loop. */
  function BadPairs<T>(s: seq<T>, j: nat, bad: (T, T) -> bool): seq<(nat, nat)>
    requires j <= |s|
    decreases j, 0
  {
    if j == 0 then [] else BadWith(s, j - 1, |s|, bad)
  }

  predicate FoundBefore<T>(s: seq<T>, j: nat, i: nat, bad: (T, T) -> bool, a: nat, b: nat) {
    a < b < |s| && bad(s[a], s[b]) && (a < j || (a == j && b < i))
  }

  lemma {:induction false} BadWithMembers<T>(s: seq<T>, j: nat, i: nat, bad: (T, T) -> bool, a: nat, b: nat)
    requires j < |s| && i <= |s|
    ensures (a, b) in BadWith(s, j, i, bad) <==> FoundBefore(s, j, i, bad, a, b)
    decreases j, i + 1
  {
    if i > j + 1 {
      BadWithMembers(s, j, i - 1, bad, a, b);
    } else {
      BadPairsMembers(s, j, bad, a, b);
    }
  }

  /** The pairs found are exactly the bad ones. */
  lemma {:induction false} BadPairsMembers<T>(s: seq<T>, j: nat, bad: (T, T) -> bool, a: nat, b: nat)
    requires j <= |s|
    ensures (a, b) in BadPairs(s, j, bad) <==> a < j && a < b < |s| && bad(s[a], s[b])
    decreases j, 0
  {
    if j > 0 {
      BadWithMembers(s, j - 1, |s|, bad, a, b);
    }
  }

  /** The nested loop finds nothing exactly when there is nothing. */
  lemma {:induction false} NoBadPairs<T>(s: seq<T>, bad: (T, T) -> bool)
    ensures BadPairs(s, |s|, bad) == [] <==> PairFree(s, bad)
  {
    if BadPairs(s, |s|, bad) == [] {
      forall i, j | 0 <= i < j < |s| ensures !bad(s[i], s[j]) {
        BadPairsMembers(s, |s|, bad, i, j);
      }
    } else {
      var e := BadPairs(s, |s|, bad)[0];
      assert e in BadPairs(s, |s|, bad);
      BadPairsMembers(s, |s|, bad, e.0, e.1);
    }
  }

  /** What a nested loop has said when it comes to the pair (i, j). */
  function SayWith<T, M>(s: seq<T>, i: nat, j: nat, say: (T, T) -> seq<M>): seq<M>
    requires i < |s| && j <= |s|
    decreases i, j + 1
  {
    if j <= i + 1 then SayAll(s, i, say) else SayWith(s, i, j - 1, say) + say(s[i], s[j - 1])
  }

  /** What there is to say about all pairs whose first position is below i. */
  function SayAll<T, M>(s: seq<T>, i: nat, say: (T, T) -> seq<M>): seq<M>
    requires i <= |s|
    decreases i, 0
  {
    if i == 0 then [] else SayWith(s, i - 1, |s|, say)
  }

  lemma InConcatenation<T>(e: T, s: seq<T>, t: seq<T>)
    ensures e in s + t <==> e in s || e in t
  {
  }

  /** It is there to say about a pair before (i, j). */
  ghost predicate SaidBefore<T, M>(s: seq<T>, i: nat, j: nat, say: (T, T) -> seq<M>, m: M) {
    exists a, b :: 0 <= a < b < |s| && m in say(s[a], s[b]) && (a < i || (a == i && b < j))
  }

  lemma {:induction false} SayWithMembers<T, M>(s: seq<T>, i: nat, j: nat, say: (T, T) -> seq<M>, m: M)
    requires i < |s| && j <= |s|
    ensures m in SayWith(s, i, j, say) <==> SaidBefore(s, i, j, say, m)
    decreases i, j + 1
  {
    if j > i + 1 {
      SayWithMembers(s, i, j - 1, say, m);
      InConcatenation(m, SayWith(s, i, j - 1, say), say(s[i], s[j - 1]));
    } else {
      SayAllMembers(s, i, say, m);
    }
  }

  /** What is said is what there is to say about some pair. */
  lemma {:induction false} SayAllMembers<T, M>(s: seq<T>, i: nat, say: (T, T) -> seq<M>, m: M)
    requires i <= |s|
    ensures m in SayAll(s, i, say) <==> SaidBefore(s, i, 0, say, m)
    decreases i, 0
  {
    if i > 0 {
      SayWithMembers(s, i - 1, |s|, say, m);
    }
  }

  lemma SayWithNext<T, M>(s: seq<T>, i: nat, j: nat, say: (T, T) -> seq<M>)
    requires i < j < |s|
    ensures SayWith(s, i, j + 1, say) == SayWith(s, i, j, say) + say(s[i], s[j])
  {
  }

  /** A loop that speaks up about bad pairs, and only about them, is silent exactly when there are none. */
  lemma {:induction false} SilentIffPairFree<T(!new), M>(s: seq<T>, say: (T, T) -> seq<M>, bad: (T, T) -> bool)
    requires forall a, b :: say(a, b) == [] <==> !bad(a, b)
    ensures SayAll(s, |s|, say) == [] <==> PairFree(s, bad)
  {
    var messages := SayAll(s, |s|, say);
    if messages != [] {
      SayAllMembers(s, |s|, say, messages[0]);
      assert SaidBefore(s, |s|, 0, say, messages[0]);
    } else {
      forall a, b | 0 <= a < b < |s| ensures !bad(s[a], s[b]) {
        if say(s[a], s[b]) != [] {
          assert SaidBefore(s, |s|, 0, say, say(s[a], s[b])[0]);
          SayAllMembers(s, |s|, say, say(s[a], s[b])[0]);
        }
      }
    }
  }
}
