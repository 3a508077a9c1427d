/** The fixed-capacity ring that keeps the latest points of a time series, sorted, in place. */
module TSDCaches {
  import opened TimeSeries

  datatype Slot = Nil | Stored(value: Point)

  /** The ring position of an index that may run at most once past the end. */
  function Wrap(i: nat, n: nat): (w: nat)
    requires i < 2 * n
    ensures w < n
  {
    if i < n then i else i - n
  }

  /** The index that denotes slot x in a stretch of the ring ending at end. */
  function Unwrap(x: nat, end: nat, n: nat): nat {
    if x + n <= end then x + n else x
  }

  lemma WrapIsRemainder(i: nat, n: nat)
    requires i < 2 * n
    ensures Wrap(i, n) == i % n
  {
  }

  ghost predicate Filled(slots: seq<Slot>, head: nat, size: nat) {
    && head < |slots|
    && size <= |slots|
    && forall i :: head <= i < head + size ==> slots[Wrap(i, |slots|)].Stored?
  }

  /** The points in size slots from head on. */
  ghost function View(slots: seq<Slot>, head: nat, size: nat): (s: seq<Point>)
    requires Filled(slots, head, size)
    ensures |s| == size
    ensures forall k :: 0 <= k < size ==> s[k] == slots[Wrap(head + k, |slots|)].value
  {
    seq(size, k requires 0 <= k < size => slots[Wrap(head + k, |slots|)].value)
  }

  function NextHead(head: nat, size: nat, n: nat): nat
    requires head < n
  {
    if size < n then head else Wrap(head + 1, n)
  }

  function NextSize(size: nat, n: nat): nat {
    if size < n then size + 1 else n
  }

  lemma ViewIs(slots: seq<Slot>, head: nat, size: nat, l: seq<Point>)
    requires head < |slots| && size <= |slots| && |l| == size
    requires forall k :: 0 <= k < size ==> slots[Wrap(head + k, |slots|)] == Stored(l[k])
    ensures Filled(slots, head, size) && View(slots, head, size) == l
  {
    forall i | head <= i < head + size ensures slots[Wrap(i, |slots|)].Stored? {
      assert slots[Wrap(head + (i - head), |slots|)] == Stored(l[i - head]);
    }
    assert View(slots, head, size) == l;
  }

  lemma WrapNext(head: nat, size: nat, k: nat, n: nat)
    requires head < n && size <= n && k < NextSize(size, n)
    ensures Wrap(NextHead(head, size, n) + k, n) == Wrap(if size < n then head + k else head + k + 1, n)
  {
  }

  lemma ViewAfterAppend(was: seq<Slot>, now: seq<Slot>, head: nat, size: nat, d: Point)
    requires Filled(was, head, size) && now == was[Wrap(head + size, |was|) := Stored(d)]
    ensures Filled(now, NextHead(head, size, |was|), NextSize(size, |was|))
    ensures View(now, NextHead(head, size, |was|), NextSize(size, |was|)) == Last(View(was, head, size) + [d], |was|)
  {
    var n := |was|;
    var h, m := NextHead(head, size, n), NextSize(size, n);
    var l := Last(View(was, head, size) + [d], n);
    forall k | 0 <= k < m ensures now[Wrap(h + k, n)] == Stored(l[k]) {
      WrapNext(head, size, k, n);
    }
    ViewIs(now, h, m, l);
  }

  /** Slot x once the slots from i to end have moved on by one. */
  function MovedSlot(was: seq<Slot>, i: nat, end: nat, x: nat): Slot
    requires x < |was| && end < 2 * |was|
  {
    var j := Unwrap(x, end, |was|);
    if i < j <= end then was[Wrap(j - 1, |was|)] else was[x]
  }

  lemma MoveOne(was: seq<Slot>, i: nat, end: nat, x: nat)
    requires x < |was| && 0 < i <= end < 2 * |was| && end < i - 1 + |was|
    ensures MovedSlot(was, i - 1, end, x)
            == MovedSlot(was, i, end, if x == Wrap(i, |was|) then Wrap(i - 1, |was|) else x)
  {
  }

  /** What slot x holds once d went in at pos and the rest up to end moved on. */
  function ShiftedSlot(was: seq<Slot>, pos: nat, end: nat, d: Point, x: nat): Slot
    requires x < |was| && pos <= end < 2 * |was|
  {
    if x == Wrap(pos, |was|) then Stored(d) else MovedSlot(was, pos, end, x)
  }

  ghost predicate Shifted(was: seq<Slot>, now: seq<Slot>, pos: nat, end: nat, d: Point) {
    && |now| == |was|
    && pos <= end < 2 * |was|
    && forall x :: 0 <= x < |was| ==> now[x] == ShiftedSlot(was, pos, end, d, x)
  }

  lemma SlotAfterShift(was: seq<Slot>, head: nat, size: nat, p: nat, d: Point, pos: nat, end: nat, j: nat)
    requires Filled(was, head, size)
    requires p < size && (size == |was| ==> 0 < p) && pos == head + p && end == head + size
    requires (if size < |was| then 0 else 1) <= j <= size
    ensures ShiftedSlot(was, pos, end, d, Wrap(head + j, |was|)) == Stored(Splice(View(was, head, size), p, d)[j])
  {
    assert Unwrap(Wrap(head + j, |was|), end, |was|) == head + j;
    assert p < j ==> was[Wrap(head + j - 1, |was|)] == Stored(View(was, head, size)[j - 1]);
    assert j < p ==> was[Wrap(head + j, |was|)] == Stored(View(was, head, size)[j]);
  }

  lemma ShiftedAt(was: seq<Slot>, now: seq<Slot>, head: nat, size: nat, p: nat, d: Point, pos: nat, end: nat, k: nat)
    requires Filled(was, head, size)
    requires p < size && (size == |was| ==> 0 < p) && k < NextSize(size, |was|)
    requires pos == head + p && end == head + size
    requires Shifted(was, now, pos, end, d)
    ensures now[Wrap(NextHead(head, size, |was|) + k, |was|)]
            == Stored(Last(Splice(View(was, head, size), p, d), |was|)[k])
  {
    var n, j := |was|, if size < |was| then k else k + 1;
    var x, l := Wrap(head + j, n), Splice(View(was, head, size), p, d);
    WrapNext(head, size, k, n);
    assert Wrap(NextHead(head, size, n) + k, n) == x;
    SlotAfterShift(was, head, size, p, d, pos, end, j);
    assert now[x] == Stored(l[j]);
    assert Last(l, n)[k] == l[j];
  }

  lemma ViewAfterShift(was: seq<Slot>, now: seq<Slot>, head: nat, size: nat, p: nat, d: Point, pos: nat, end: nat)
    requires Filled(was, head, size)
    requires p < size && (size == |was| ==> 0 < p)
    requires pos == head + p && end == head + size
    requires Shifted(was, now, pos, end, d)
    ensures Filled(now, NextHead(head, size, |was|), NextSize(size, |was|))
    ensures View(now, NextHead(head, size, |was|), NextSize(size, |was|))
            == Last(Splice(View(was, head, size), p, d), |was|)
  {
    var n := |was|;
    var h, m := NextHead(head, size, n), NextSize(size, n);
    var l := Last(Splice(View(was, head, size), p, d), n);
    forall k | 0 <= k < m ensures now[Wrap(h + k, n)] == Stored(l[k]) {
      ShiftedAt(was, now, head, size, p, d, pos, end, k);
    }
    ViewIs(now, h, m, l);
  }

  /** Index of the oldest point in a ring of n slots after num Puts. */
  function HeadOf(n: nat, cursor: nat, num: nat): nat {
    if n <= num then cursor else 0
  }

  function SizeOf(n: nat, num: nat): nat {
    if n <= num then n else num
  }

  /** Until the ring is full the points fill it from slot 0; from then on the oldest is at the cursor. */
  ghost predicate IsRing(slots: seq<Slot>, cursor: nat, num: nat) {
    && cursor < |slots|
    && (num < |slots| ==> cursor == num)
    && (forall i :: num <= i < |slots| ==> slots[i].Nil?)
    && Filled(slots, HeadOf(|slots|, cursor, num), SizeOf(|slots|, num))
  }

  ghost function RingView(slots: seq<Slot>, cursor: nat, num: nat): seq<Point>
    requires IsRing(slots, cursor, num)
  {
    View(slots, HeadOf(|slots|, cursor, num), SizeOf(|slots|, num))
  }

  lemma CursorSlot(slots: seq<Slot>, cursor: nat, num: nat)
    requires IsRing(slots, cursor, num)
    ensures slots[cursor].Stored? <==> |slots| <= num
  {
    assert |slots| <= num ==> slots[Wrap(cursor, |slots|)].Stored?;
  }

  /** A point that would go before all others does not get into a full ring. */
  lemma RingAfterDrop(slots: seq<Slot>, cursor: nat, num: nat, d: Point)
    requires IsRing(slots, cursor, num) && |slots| <= num && Place(RingView(slots, cursor, num), d) == 0
    ensures IsRing(slots, cursor, num + 1)
    ensures RingView(slots, cursor, num + 1) == Last(Insert(RingView(slots, cursor, num), d), |slots|)
  {
    assert RingView(slots, cursor, num + 1) == RingView(slots, cursor, num);
    DroppedIfOldest(RingView(slots, cursor, num), d);
  }

  lemma EarlierPlace(s: seq<Point>, d: Point)
    requires s != [] && d.timestamp < s[|s| - 1].timestamp
    ensures Place(s, d) == LowerBound(s, d.timestamp) < |s|
  {
  }

  lemma RingSlot(slots: seq<Slot>, cursor: nat, num: nat, i: nat)
    requires IsRing(slots, cursor, num)
    requires HeadOf(|slots|, cursor, num) <= i < HeadOf(|slots|, cursor, num) + SizeOf(|slots|, num)
    ensures slots[Wrap(i, |slots|)] == Stored(RingView(slots, cursor, num)[i - HeadOf(|slots|, cursor, num)])
  {
    var h := HeadOf(|slots|, cursor, num);
    assert i == h + (i - h);
    assert slots[Wrap(i, |slots|)].Stored?;
  }

  lemma NewestSlot(slots: seq<Slot>, cursor: nat, num: nat)
    requires IsRing(slots, cursor, num) && 0 < num
    ensures var s := RingView(slots, cursor, num);
            slots[Wrap(cursor + |slots| - 1, |slots|)] == Stored(s[|s| - 1])
  {
    var h, z := HeadOf(|slots|, cursor, num), SizeOf(|slots|, num);
    assert slots[Wrap(h + (z - 1), |slots|)].Stored?;
  }

  lemma NextRing(n: nat, cursor: nat, num: nat)
    requires cursor < n && (num < n ==> cursor == num)
    ensures HeadOf(n, Wrap(cursor + 1, n), num + 1) == NextHead(HeadOf(n, cursor, num), SizeOf(n, num), n)
    ensures SizeOf(n, num + 1) == NextSize(SizeOf(n, num), n)
  {
  }

  lemma RingAfterAppend(was: seq<Slot>, now: seq<Slot>, cursor: nat, num: nat, d: Point)
    requires IsRing(was, cursor, num) && now == was[cursor := Stored(d)]
    ensures IsRing(now, Wrap(cursor + 1, |was|), num + 1)
    ensures RingView(now, Wrap(cursor + 1, |was|), num + 1) == Last(RingView(was, cursor, num) + [d], |was|)
  {
    var h, z := HeadOf(|was|, cursor, num), SizeOf(|was|, num);
    NextRing(|was|, cursor, num);
    assert Wrap(h + z, |was|) == cursor;
    ViewAfterAppend(was, now, h, z, d);
    assert IsRing(now, Wrap(cursor + 1, |was|), num + 1);
  }

  lemma RingAfterShift(
    was: seq<Slot>, now: seq<Slot>, cursor: nat, num: nat, p: nat, d: Point, pos: nat, end: nat)
    requires IsRing(was, cursor, num)
    requires p < SizeOf(|was|, num) && (|was| <= num ==> 0 < p)
    requires pos == HeadOf(|was|, cursor, num) + p && end == HeadOf(|was|, cursor, num) + SizeOf(|was|, num)
    requires Shifted(was, now, pos, end, d)
    ensures IsRing(now, Wrap(cursor + 1, |was|), num + 1)
    ensures RingView(now, Wrap(cursor + 1, |was|), num + 1) == Last(Splice(RingView(was, cursor, num), p, d), |was|)
  {
    var h, z := HeadOf(|was|, cursor, num), SizeOf(|was|, num);
    NextRing(|was|, cursor, num);
    ViewAfterShift(was, now, h, z, p, d, pos, end);
    forall i | num + 1 <= i < |was| ensures now[i].Nil? {
      assert ShiftedSlot(was, pos, end, d, i) == was[i];
    }
    assert IsRing(now, Wrap(cursor + 1, |was|), num + 1);
  }

  class TSDCache {
    const data: array<Slot>
    const capacity: nat
    var cursor: nat
    var num: nat
    ghost var puts: seq<Point>

    ghost predicate Shape()
      reads this, data
    {
      && 0 < capacity == data.Length
      && IsRing(data[..], cursor, num)
    }

    /** The points held, oldest first. */
    ghost function Contents(): seq<Point>
      requires Shape()
      reads this, data
    {
      RingView(data[..], cursor, num)
    }

    ghost predicate Valid()
      reads this, data
    {
      && Shape()
      && num == |puts|
      && Contents() == Retained(puts, capacity)
    }

    constructor (capacity: int)
      requires 0 < capacity
      ensures Valid() && this.capacity == capacity && puts == [] && fresh(data)
    {
      this.capacity := capacity;
      data := new Slot[capacity](_ => Nil);
      cursor, num, puts := 0, 0, [];
    }

    /** The point at index i, which runs from the head and past the end of the array. */
    function At(i: nat): (d: Point)
      requires Shape()
      requires HeadOf(capacity, cursor, num) <= i < HeadOf(capacity, cursor, num) + SizeOf(capacity, num)
      reads this, data
      ensures d == Contents()[i - HeadOf(capacity, cursor, num)]
    {
      RingSlot(data[..], cursor, num, i);
      data[Wrap(i, capacity)].value
    }

    method BinarySearch(t: int) returns (l: nat)
      requires Shape() && Sorted(Contents())
      ensures l == HeadOf(capacity, cursor, num) + LowerBound(Contents(), t)
    {
      if num == 0 {
        return 0;
      }
      CursorSlot(data[..], cursor, num);
      ghost var c, h := Contents(), HeadOf(capacity, cursor, num);
      var r: int;
      if data[cursor] == Nil {
        l, r := 0, cursor - 1;
      } else {
        l, r := cursor, cursor - 1 + capacity;
      }
      while l <= r
        invariant h <= l <= r + 1 <= h + |c|
        invariant forall k :: 0 <= k < l - h ==> c[k].timestamp < t
        invariant forall k :: r + 1 - h <= k < |c| ==> t <= c[k].timestamp
        decreases r + 1 - l
      {
        var m := l + (r - l) / 2;
        var d := At(m);
        if t <= d.timestamp {
          r := m - 1;
        } else {
          l := m + 1;
        }
      }
      LowerBoundUnique(c, t, l - h);
    }

    /** Moves the slots from pos up to end one place on, from the end backwards, and puts d at pos. */
    method ShiftIn(pos: nat, end: nat, d: Point)
      requires data.Length == capacity && pos <= end < 2 * capacity && end - pos < capacity
      modifies data
      ensures Shifted(old(data[..]), data[..], pos, end, d)
    {
      ghost var was := data[..];
      var i := end;
      while i > pos
        invariant pos <= i <= end
        invariant forall x :: 0 <= x < capacity ==> data[x] == MovedSlot(was, i, end, x)
      {
        var next := i - 1;
        var to, from := Wrap(i, capacity), Wrap(next, capacity);
        forall x | 0 <= x < capacity
          ensures MovedSlot(was, next, end, x) == MovedSlot(was, i, end, if x == to then from else x)
        {
          MoveOne(was, i, end, x);
        }
        data[to] := data[from];
        i := next;
      }
      data[Wrap(pos, capacity)] := Stored(d);
    }

    method Store(i: nat, d: Point)
      requires i < data.Length
      modifies data
      ensures data[..] == old(data[..])[i := Stored(d)]
    {
      data[i] := Stored(d);
    }

    /** Counts a point now in its slot. */
    method Advance()
      requires 0 < capacity == data.Length && cursor < capacity
      requires IsRing(data[..], Wrap(cursor + 1, capacity), num + 1)
      modifies this`cursor, this`num
      ensures Shape() && num == old(num) + 1
      ensures Contents() == old(RingView(data[..], Wrap(cursor + 1, capacity), num + 1))
    {
      cursor := Wrap(cursor + 1, capacity);
      num := num + 1;
    }

    /** The branch of Put for a point not earlier than the newest one. */
    method Append(d: Point)
      requires Shape()
      modifies this, data
      ensures Shape() && num == old(num) + 1 && puts == old(puts)
      ensures Contents() == Last(old(Contents()) + [d], capacity)
    {
      ghost var was, c := data[..], Contents();
      Store(cursor, d);
      RingAfterAppend(was, data[..], cursor, num, d);
      assert RingView(data[..], Wrap(cursor + 1, capacity), num + 1) == Last(c + [d], capacity);
      Advance();
    }

    /** The index past the newest point. */
    method End() returns (end: nat)
      requires Shape()
      ensures end == HeadOf(capacity, cursor, num) + SizeOf(capacity, num)
    {
      CursorSlot(data[..], cursor, num);
      end := cursor;
      if data[end] != Nil {
        end := end + capacity;
      }
    }

    /** The branch of Put that makes room at pos. */
    method InsertAt(pos: nat, d: Point, ghost p: nat)
      requires Shape() && pos == HeadOf(capacity, cursor, num) + p
      requires p < |Contents()| && (capacity <= num ==> 0 < p)
      modifies this, data
      ensures Shape() && num == old(num) + 1 && puts == old(puts)
      ensures Contents() == Last(Splice(old(Contents()), p, d), capacity)
    {
      ghost var was := data[..];
      var end := End();
      ShiftIn(pos, end, d);
      RingAfterShift(was, data[..], cursor, num, p, d, pos, end);
      Advance();
    }

    /** The branch of Put for a point too old for a full ring. */
    method Drop(d: Point)
      requires Shape() && capacity <= num && Place(Contents(), d) == 0
      modifies this
      ensures Shape() && num == old(num) + 1 && puts == old(puts)
      ensures Contents() == Last(Insert(old(Contents()), d), capacity)
    {
      RingAfterDrop(data[..], cursor, num, d);
      num := num + 1;
    }

    method Put(d: Point)
      requires Valid()
      modifies this, data
      ensures Valid() && puts == old(puts) + [d]
      ensures Contents() == Last(Insert(old(Contents()), d), capacity)
    {
      assert Sorted(Contents()) by { RetainedIsTopK(puts, capacity); }
      assert Retained(puts + [d], capacity) == Last(Insert(Contents(), d), capacity) by {
        RetainedAfterPut(puts, d, capacity);
      }
      PutRing(d);
      puts := puts + [d];
    }

    /** The branch of Put for a point earlier than the newest one. */
    method PutEarlier(d: Point)
      requires Shape() && Sorted(Contents())
      requires Contents() != [] && d.timestamp < Contents()[|Contents()| - 1].timestamp
      modifies this, data
      ensures Shape() && num == old(num) + 1 && puts == old(puts)
      ensures Contents() == Last(Insert(old(Contents()), d), capacity)
    {
      ghost var p := Place(Contents(), d);
      var pos := BinarySearch(d.timestamp);
      EarlierPlace(Contents(), d);
      CursorSlot(data[..], cursor, num);
      if pos == cursor && data[cursor] != Nil {
        Drop(d);
      } else {
        InsertAt(pos, d, p);
      }
    }

    /** Put without the history. */
    method PutRing(d: Point)
      requires Shape() && Sorted(Contents())
      modifies this, data
      ensures Shape() && num == old(num) + 1 && puts == old(puts)
      ensures Contents() == Last(Insert(old(Contents()), d), capacity)
    {
      ghost var c := Contents();
      var newest := Wrap(cursor - 1 + capacity, capacity);
      assert num > 0 ==> data[newest] == Stored(c[|c| - 1]) by {
        if num > 0 { NewestSlot(data[..], cursor, num); }
      }
      if num == 0 || d.timestamp >= data[newest].value.timestamp {
        assert Insert(c, d) == c + [d] by { InsertedLast(c, d); }
        Append(d);
      } else {
        PutEarlier(d);
      }
    }

    /**
     * The points in [start, end) with the labels, in order, and whether the cache reaches back to start. On a hit
     * nothing ever put is missing, except lost points at start itself that tie with the oldest one held.
     */
    method Query(start: int, end: int, labels: map<string, string>) returns (result: seq<Point>, hit: bool)
      requires Valid()
      ensures result == Select(Contents(), start, end, labels)
      ensures hit <==> Covers(Contents(), start)
      ensures hit ==> forall e :: e in Evicted(puts, capacity) && Wanted(e, start, end, labels) ==>
                        e.timestamp == start == Contents()[0].timestamp
    {
      ghost var c := Contents();
      if num == 0 {
        return [], false;
      }
      assert Sorted(c) by { RetainedIsTopK(puts, capacity); }
      result := Collect(start, end, labels);
      RingSlot(data[..], cursor, num, HeadOf(capacity, cursor, num));
      if num < capacity {
        hit := data[0].value.timestamp <= start;
      } else {
        hit := data[cursor].value.timestamp <= start;
      }
      if hit {
        HitMissesTies(puts, capacity, start, end, labels);
      }
    }

    method Collect(start: int, end: int, labels: map<string, string>) returns (result: seq<Point>)
      requires Shape() && Sorted(Contents()) && num > 0
      ensures result == Select(Contents(), start, end, labels)
    {
      ghost var c, h := Contents(), HeadOf(capacity, cursor, num);
      var from := BinarySearch(start);
      var to := BinarySearch(end);
      assert InRange(c, from - h, to - h, start, end) by {
        BoundSplits(c, start);
        BoundSplits(c, end);
      }
      result := Scan(from, to, from - h, to - h, start, end, labels);
    }

    /** The loop of Query, over the indices between the two bounds. */
    method Scan(from: nat, to: nat, ghost p: nat, ghost q: nat, ghost start: int, ghost end: int,
                labels: map<string, string>)
      returns (result: seq<Point>)
      requires Shape() && p <= |Contents()| && q <= |Contents()| && InRange(Contents(), p, q, start, end)
      requires from == HeadOf(capacity, cursor, num) + p && to == HeadOf(capacity, cursor, num) + q
      ensures result == Select(Contents(), start, end, labels)
    {
      ghost var c, h, k := Contents(), HeadOf(capacity, cursor, num), p;
      result := [];
      NothingOutside(c, p, q, 0, p, start, end, labels);
      assert |c| == SizeOf(capacity, num);
      var i := from;
      while i < to
        invariant p <= k && (k <= q || k == p) && i == h + k
        invariant result == SelectUpTo(c, k, start, end, labels)
      {
        var d := At(i);
        SelectNext(c, p, q, k, d, start, end, labels);
        if d.HasLabels(labels) {
          result := result + [d];
        }
        i, k := i + 1, k + 1;
      }
      NothingOutside(c, p, q, k, |c|, start, end, labels);
    }
  }

  lemma HitMissesTies(puts: seq<Point>, capacity: nat, start: int, end: int, labels: map<string, string>)
    requires 0 < capacity && Covers(Retained(puts, capacity), start)
    ensures forall e :: e in Evicted(puts, capacity) && Wanted(e, start, end, labels) ==>
              e.timestamp == start == Retained(puts, capacity)[0].timestamp
  {
    forall e | e in Evicted(puts, capacity) && Wanted(e, start, end, labels)
      ensures e.timestamp == start == Retained(puts, capacity)[0].timestamp
    {
      HitMissesOnlyTies(puts, capacity, start, end, labels, e);
    }
  }

  /** Between the two bounds every point is in [start, end), elsewhere none is. */
  ghost predicate InRange(s: seq<Point>, from: int, to: int, start: int, end: int) {
    forall k :: 0 <= k < |s| ==> (from <= k < to <==> start <= s[k].timestamp < end)
  }

  /** Outside the two bounds nothing is selected. */
  lemma NothingOutside(
    s: seq<Point>, p: nat, q: nat, k: nat, m: nat, start: int, end: int, labels: map<string, string>)
    requires InRange(s, p, q, start, end) && k <= m <= |s| && (m <= p || (p <= k && q <= k))
    ensures SelectUpTo(s, m, start, end, labels) == SelectUpTo(s, k, start, end, labels)
  {
    SelectPrefix(s, k, m, start, end, labels);
  }

  lemma SelectNext(
    s: seq<Point>, p: nat, q: nat, k: nat, d: Point, start: int, end: int, labels: map<string, string>)
    requires InRange(s, p, q, start, end) && p <= k < q <= |s| && d == s[k]
    ensures SelectUpTo(s, k + 1, start, end, labels)
            == SelectUpTo(s, k, start, end, labels) + if d.HasLabels(labels) then [d] else []
  {
  }

  lemma InsertedLast(s: seq<Point>, d: Point)
    requires Place(s, d) == |s|
    ensures Insert(s, d) == s + [d]
  {
  }

  /** Inserted at the very front of a full ring, a point is trimmed away at once. */
  lemma DroppedIfOldest(s: seq<Point>, d: Point)
    requires Place(s, d) == 0
    ensures Last(Insert(s, d), |s|) == s
  {
    assert Insert(s, d)[1..] == s;
  }

  lemma RetainedAfterPut(puts: seq<Point>, d: Point, capacity: nat)
    ensures Retained(puts + [d], capacity) == Last(Insert(Retained(puts, capacity), d), capacity)
  {
    assert (puts + [d])[..|puts|] == puts;
  }
}
