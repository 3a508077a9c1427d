/** Overlap checks of schedules: two implementations and what they decide. */
module Overlap {
  import opened Common
  import opened SortedPairs

  /** A recurring schedule: closed time and date ranges, a missing date being unbounded, and its days of either kind. */
  datatype Recurring = Recurring(
    id: string, startTime: int, endTime: int, startDate: Option<int>, endDate: Option<int>,
    daysOfWeek: Option<seq<int>>, daysOfMonth: Option<seq<int>>)

  datatype Conflict = Conflict(first: string, firstField: string, second: string, secondField: string)

  // ----- What overlapping means -----

  predicate NotAfter(start: Option<int>, end: Option<int>) {
    start.Some? && end.Some? ==> start.value <= end.value
  }

  /** The dates of both, as ranges in which a missing bound is infinite, have a day in common. */
  predicate DatesMeet(a: Recurring, b: Recurring) {
    NotAfter(a.startDate, b.endDate) && NotAfter(b.startDate, a.endDate)
  }

  predicate TimesMeet(a: Recurring, b: Recurring) {
    a.startTime <= b.endTime && b.startTime <= a.endTime
  }

  predicate ShareDay(a: Option<seq<int>>, b: Option<seq<int>>) {
    a.Some? && b.Some? && exists d :: d in a.value && d in b.value
  }

  predicate ConflictsByWeek(a: Recurring, b: Recurring) {
    DatesMeet(a, b) && TimesMeet(a, b) && ShareDay(a.daysOfWeek, b.daysOfWeek)
  }

  predicate ConflictsByMonth(a: Recurring, b: Recurring) {
    DatesMeet(a, b) && TimesMeet(a, b) && ShareDay(a.daysOfMonth, b.daysOfMonth)
  }

  predicate Conflicts(a: Recurring, b: Recurring) {
    ConflictsByWeek(a, b) || ConflictsByMonth(a, b)
  }

  /** What the validators have checked by the time these run: time and date ranges are not empty. */
  predicate WellFormed(r: Recurring) {
    r.startTime < r.endTime && NotAfter(r.startDate, r.endDate)
  }

  ghost predicate AllWellFormed(s: seq<Recurring>) {
    forall i :: 0 <= i < |s| ==> WellFormed(s[i])
  }

  /** No two of the schedules conflict. */
  ghost predicate ConflictFree(s: seq<Recurring>) {
    PairFree(s, Conflicts)
  }

  /** Dates share a day: the reading of DatesMeet in terms of single days. */
  predicate InDates(r: Recurring, day: int) {
    (r.startDate.Some? ==> r.startDate.value <= day) && (r.endDate.Some? ==> day <= r.endDate.value)
  }

  function Latest(a: Option<int>, b: Option<int>): Option<int> {
    if a.None? then b else if b.None? || b.value < a.value then a else b
  }

  function Earliest(a: Option<int>, b: Option<int>): Option<int> {
    if a.None? then b else if b.None? || a.value < b.value then a else b
  }

  lemma DatesMeetInADay(a: Recurring, b: Recurring)
    requires WellFormed(a) && WellFormed(b)
    ensures DatesMeet(a, b) <==> exists day :: InDates(a, day) && InDates(b, day)
  {
    if DatesMeet(a, b) {
      var start, end := Latest(a.startDate, b.startDate), Earliest(a.endDate, b.endDate);
      var day := if start.Some? then start.value else if end.Some? then end.value else 0;
      assert InDates(a, day) && InDates(b, day);
    }
  }

  predicate InTimes(r: Recurring, time: int) {
    r.startTime <= time <= r.endTime
  }

  lemma TimesMeetInAMinute(a: Recurring, b: Recurring)
    requires WellFormed(a) && WellFormed(b)
    ensures TimesMeet(a, b) <==> exists time :: InTimes(a, time) && InTimes(b, time)
  {
    var time := if a.startTime < b.startTime then b.startTime else a.startTime;
    assert TimesMeet(a, b) ==> InTimes(a, time) && InTimes(b, time);
  }

  lemma ConflictsSymmetric(a: Recurring, b: Recurring)
    ensures Conflicts(a, b) <==> Conflicts(b, a)
  {
  }

  // ----- The Java check -----

  /** One direction of the null case analysis. */
  predicate IsOverlapping(s1: Option<int>, e1: Option<int>, s2: Option<int>, e2: Option<int>) {
    || (s1.None? && e1.None?) || (s2.None? && e2.None?) || (s1.None? && s2.None?) || (e1.None? && e2.None?)
    || (s1.Some? && s2.None? && e2.Some? && s1.value <= e2.value)
    || (e1.Some? && s2.Some? && e2.None? && e1.value >= s2.value)
    || (s1.Some? && e1.Some? && s2.Some? && e2.Some? && s1.value <= s2.value && e1.value >= s2.value)
  }

  predicate IsStartEndDateOverlapping(a: Recurring, b: Recurring) {
    || IsOverlapping(a.startDate, a.endDate, b.startDate, b.endDate)
    || IsOverlapping(b.startDate, b.endDate, a.startDate, a.endDate)
  }

  /** Asked both ways round, the case analysis decides whether the date ranges meet. */
  lemma CaseAnalysisDecides(a: Recurring, b: Recurring)
    requires NotAfter(a.startDate, a.endDate) && NotAfter(b.startDate, b.endDate)
    ensures IsStartEndDateOverlapping(a, b) <==> DatesMeet(a, b)
  {
  }

  method HasSameElement(first: seq<int>, second: seq<int>) returns (same: bool)
    ensures same <==> exists d :: d in first && d in second
  {
    for i := 0 to |first|
      invariant forall k :: 0 <= k < i ==> first[k] !in second
    {
      if first[i] in second {
        var d := first[i];
        assert d in first && d in second;
        return true;
      }
    }
    return false;
  }

  /**
   * The pair of fields named in a message: both starts if they are equal, else the earlier one's end and the later
   * one's start.
   */
  function TimeConflict(current: Recurring, next: Recurring): Conflict {
    var field := if current.startTime == next.startTime then "start_time" else "end_time";
    Conflict(current.id, field, next.id, "start_time")
  }

  method ValidateTimeOverlapping(current: Recurring, next: Recurring, currentDays: seq<int>, nextDays: seq<int>)
    returns (message: Option<Conflict>)
    requires WellFormed(current) && WellFormed(next) && current.startTime <= next.startTime
    ensures message == if TimesMeet(current, next) && exists d :: d in currentDays && d in nextDays
                       then Some(Conflict(current.id, if current.startTime == next.startTime then "start_time"
                                                      else "end_time", next.id, "start_time"))
                       else None
  {
    message := None;
    if current.startTime == next.startTime {
      var same := HasSameElement(currentDays, nextDays);
      if same {
        message := Some(Conflict(current.id, "start_time", next.id, "start_time"));
      }
    } else if current.endTime >= next.startTime {
      var same := HasSameElement(currentDays, nextDays);
      if same {
        message := Some(Conflict(current.id, "end_time", next.id, "start_time"));
      }
    }
  }

  function StartTime(r: Recurring): int {
    r.startTime
  }

  /** The messages one pair deserves: one for each kind of day it conflicts by. */
  function PairMessages(a: Recurring, b: Recurring): seq<Conflict> {
    (if ConflictsByWeek(a, b) then [TimeConflict(a, b)] else [])
    + (if ConflictsByMonth(a, b) then [TimeConflict(a, b)] else [])
  }

  lemma {:induction false} SortedIsWellFormed(s: seq<Recurring>)
    requires AllWellFormed(s)
    ensures AllWellFormed(SortBy(s, StartTime)) && SortedBy(SortBy(s, StartTime), StartTime)
  {
    var t := SortBy(s, StartTime);
    SortByProperties(s, StartTime);
    forall i | 0 <= i < |t| ensures t[i] in s {
      assert t[i] in t;
    }
  }

  lemma {:induction false} SortingKeepsConflicts(s: seq<Recurring>)
    ensures SayAll(SortBy(s, StartTime), |s|, PairMessages) == [] <==> ConflictFree(s)
  {
    forall a, b ensures Conflicts(a, b) == Conflicts(b, a) {
      ConflictsSymmetric(a, b);
    }
    SortingKeepsPairs(s, StartTime, Conflicts);
    forall a, b ensures PairMessages(a, b) == [] <==> !Conflicts(a, b) {
    }
    SilentIffPairFree(SortBy(s, StartTime), PairMessages, Conflicts);
  }

  /**
   * Sorts, then compares every pair; the messages are those the conflicting pairs deserve, none exactly if there is
   * no conflict.
   */
  method IsNotOverlapRecurringSchedules(scheduleTimes: seq<Recurring>) returns (messages: seq<Conflict>)
    requires AllWellFormed(scheduleTimes)
    ensures messages == SayAll(SortBy(scheduleTimes, StartTime), |scheduleTimes|, PairMessages)
    ensures messages == [] <==> ConflictFree(scheduleTimes)
    ensures forall m :: m in messages ==> Tells(m, scheduleTimes)
  {
    var s := SortBy(scheduleTimes, StartTime);
    SortingKeepsConflicts(scheduleTimes);
    SortedIsWellFormed(scheduleTimes);
    messages := ComparePairs(s);
    forall m | m in messages ensures Tells(m, scheduleTimes) {
      MessageTells(scheduleTimes, m);
    }
  }

  /** The message names two schedules that conflict, the earlier one first, and the fields that meet. */
  ghost predicate TellsOf(m: Conflict, a: Recurring, b: Recurring) {
    && a.startTime <= b.startTime && Conflicts(a, b)
    && m == Conflict(a.id, if a.startTime == b.startTime then "start_time" else "end_time", b.id, "start_time")
  }

  ghost predicate Tells(m: Conflict, list: seq<Recurring>) {
    exists a, b :: a in list && b in list && TellsOf(m, a, b)
  }

  lemma PairMessageTells(a: Recurring, b: Recurring, m: Conflict)
    requires m in PairMessages(a, b) && a.startTime <= b.startTime
    ensures TellsOf(m, a, b)
  {
  }

  lemma {:induction false} MessageTells(list: seq<Recurring>, m: Conflict)
    requires m in SayAll(SortBy(list, StartTime), |list|, PairMessages)
    ensures Tells(m, list)
  {
    var s := SortBy(list, StartTime);
    SayAllMembers(s, |s|, PairMessages, m);
    var i, j :| 0 <= i < j < |s| && m in PairMessages(s[i], s[j]);
    var a, b := s[i], s[j];
    assert a in list && b in list && a.startTime <= b.startTime by {
      SortByProperties(list, StartTime);
      assert a in s && b in s && StartTime(s[i]) <= StartTime(s[j]);
    }
    PairMessageTells(a, b, m);
  }

  method ComparePairs(s: seq<Recurring>) returns (messages: seq<Conflict>)
    requires AllWellFormed(s) && SortedBy(s, StartTime)
    ensures messages == SayAll(s, |s|, PairMessages)
  {
    messages := [];
    for firstIndex := 0 to |s|
      invariant messages == SayAll(s, firstIndex, PairMessages)
    {
      messages := CompareWithLater(s, firstIndex, messages);
    }
  }

  /** The inner loop, for one schedule. */
  method CompareWithLater(s: seq<Recurring>, firstIndex: nat, before: seq<Conflict>) returns (messages: seq<Conflict>)
    requires firstIndex < |s| && AllWellFormed(s) && SortedBy(s, StartTime)
    requires before == SayAll(s, firstIndex, PairMessages)
    ensures messages == SayAll(s, firstIndex + 1, PairMessages)
  {
    messages := before;
    for secondIndex := firstIndex + 1 to |s|
      invariant messages == SayWith(s, firstIndex, secondIndex, PairMessages)
    {
      var more := ComparePair(s[firstIndex], s[secondIndex]);
      SayWithNext(s, firstIndex, secondIndex, PairMessages);
      messages := messages + more;
    }
  }

  /**
   * The body of the pair loop: a message for each kind of day of which the two share one, if their dates and times
   * meet.
   */
  method ComparePair(current: Recurring, next: Recurring) returns (messages: seq<Conflict>)
    requires WellFormed(current) && WellFormed(next) && current.startTime <= next.startTime
    ensures messages == PairMessages(current, next)
    ensures forall m :: m in messages ==>
              m == Conflict(current.id, if current.startTime == next.startTime then "start_time" else "end_time",
                            next.id, "start_time")
    ensures |messages| == if !DatesMeet(current, next) || !TimesMeet(current, next) then 0
                          else (if ShareDay(current.daysOfWeek, next.daysOfWeek) then 1 else 0)
                               + (if ShareDay(current.daysOfMonth, next.daysOfMonth) then 1 else 0)
  {
    messages := [];
    CaseAnalysisDecides(current, next);
    if IsStartEndDateOverlapping(current, next) {
      if current.daysOfWeek.Some? && next.daysOfWeek.Some? {
        var message := ValidateTimeOverlapping(current, next, current.daysOfWeek.value, next.daysOfWeek.value);
        if message.Some? {
          messages := messages + [message.value];
        }
      }
      if current.daysOfMonth.Some? && next.daysOfMonth.Some? {
        var message := ValidateTimeOverlapping(current, next, current.daysOfMonth.value, next.daysOfMonth.value);
        if message.Some? {
          messages := messages + [message.value];
        }
      }
    }
  }

  // ----- The JavaScript check -----

  /** Days since year 1: the dates that stand for a missing bound. */
  const FIRST_DATE := 0
  const LAST_DATE := 3652058

  predicate DatesWithinCalendar(r: Recurring) {
    && (r.startDate.Some? ==> FIRST_DATE <= r.startDate.value <= LAST_DATE)
    && (r.endDate.Some? ==> FIRST_DATE <= r.endDate.value <= LAST_DATE)
  }

  function NormalizeStartDate(r: Recurring): int {
    if r.startDate.None? then FIRST_DATE else r.startDate.value
  }

  function NormalizeEndDate(r: Recurring): int {
    if r.endDate.None? then LAST_DATE else r.endDate.value
  }

  datatype Property = DaysOfWeek | DaysOfMonth

  function DaysBy(r: Recurring, property: Property): Option<seq<int>> {
    if property.DaysOfWeek? then r.daysOfWeek else r.daysOfMonth
  }

  function ConflictsBy(property: Property): (Recurring, Recurring) -> bool {
    if property.DaysOfWeek? then ConflictsByWeek else ConflictsByMonth
  }

  /** Compares every pair as given, with sentinel dates; the errors are the conflicting pairs, in order. */
  method ValidateOverlappingDays(schedules: seq<Recurring>, property: Property) returns (errors: seq<(nat, nat)>)
    requires forall i :: 0 <= i < |schedules| ==> DatesWithinCalendar(schedules[i])
    ensures errors == BadPairs(schedules, |schedules|, ConflictsBy(property))
  {
    errors := [];
    var j := 0;
    while j < |schedules| - 1
      invariant 0 <= j <= |schedules|
      invariant errors == BadPairs(schedules, j, ConflictsBy(property))
    {
      var i := j + 1;
      while i < |schedules|
        invariant j < i <= |schedules|
        invariant errors == BadWith(schedules, j, i, ConflictsBy(property))
      {
        var conflict := SentinelConflict(schedules[i], schedules[j], property);
        if conflict {
          errors := errors + [(j, i)];
        }
        i := i + 1;
      }
      j := j + 1;
    }
    if schedules != [] {
      assert BadPairs(schedules, |schedules|, ConflictsBy(property))
          == BadPairs(schedules, |schedules| - 1, ConflictsBy(property));
    }
  }

  /** The errors are the pairs that share a day of the kind asked for and whose dates and times meet. */
  lemma {:induction false} ErrorsMean(s: seq<Recurring>, j: nat, i: nat)
    ensures (j, i) in BadPairs(s, |s|, ConflictsBy(DaysOfWeek)) <==>
            && j < i < |s| && DatesMeet(s[j], s[i]) && TimesMeet(s[j], s[i])
            && ShareDay(s[j].daysOfWeek, s[i].daysOfWeek)
    ensures (j, i) in BadPairs(s, |s|, ConflictsBy(DaysOfMonth)) <==>
            && j < i < |s| && DatesMeet(s[j], s[i]) && TimesMeet(s[j], s[i])
            && ShareDay(s[j].daysOfMonth, s[i].daysOfMonth)
  {
    BadPairsMembers(s, |s|, ConflictsBy(DaysOfWeek), j, i);
    BadPairsMembers(s, |s|, ConflictsBy(DaysOfMonth), j, i);
  }

  method SentinelConflict(later: Recurring, earlier: Recurring, property: Property) returns (conflict: bool)
    requires DatesWithinCalendar(later) && DatesWithinCalendar(earlier)
    ensures conflict <==> ConflictsBy(property)(earlier, later)
  {
    var daysI, daysJ := DaysBy(later, property), DaysBy(earlier, property);
    if daysI.None? || daysJ.None? {
      return false;
    }
    var same := HasSameElement(daysI.value, daysJ.value);
    return same
      && later.startTime <= earlier.endTime && later.endTime >= earlier.startTime
      && NormalizeStartDate(later) <= NormalizeEndDate(earlier)
      && NormalizeEndDate(later) >= NormalizeStartDate(earlier);
  }

  /** The two implementations agree: the Java check is silent exactly when both JavaScript checks are. */
  lemma {:induction false} ChecksAgree(s: seq<Recurring>)
    ensures SayAll(SortBy(s, StartTime), |s|, PairMessages) == []
            <==> BadPairs(s, |s|, ConflictsBy(DaysOfWeek)) == [] && BadPairs(s, |s|, ConflictsBy(DaysOfMonth)) == []
  {
    SortingKeepsConflicts(s);
    NoBadPairs(s, ConflictsByWeek);
    NoBadPairs(s, ConflictsByMonth);
    assert PairFree(s, Conflicts) <==> PairFree(s, ConflictsByWeek) && PairFree(s, ConflictsByMonth) by {
      if PairFree(s, ConflictsByWeek) && PairFree(s, ConflictsByMonth) {
        forall i, j | 0 <= i < j < |s| ensures !Conflicts(s[i], s[j]) {
          assert !ConflictsByWeek(s[i], s[j]) && !ConflictsByMonth(s[i], s[j]);
        }
      }
    }
  }

  // ----- Specific dates -----

  datatype SpecificDate = SpecificDate(id: string, start: int, end: int)

  predicate Disjoint(a: SpecificDate, b: SpecificDate) {
    a.end < b.start || b.end < a.start
  }

  ghost predicate Proper(s: seq<SpecificDate>) {
    forall i :: 0 <= i < |s| ==> s[i].start < s[i].end
  }

  function StartDateTime(r: SpecificDate): int {
    r.start
  }

  predicate Meet(a: SpecificDate, b: SpecificDate) {
    !Disjoint(a, b)
  }

  /** Comparing neighbours is enough: in a sorted list they are all disjoint exactly if every pair is. */
  lemma {:induction false} NeighboursDecide(s: seq<SpecificDate>)
    requires Proper(s) && SortedBy(s, StartDateTime)
    ensures (forall i :: 0 <= i < |s| - 1 ==> s[i].end < s[i + 1].start)
            <==> PairFree(s, Meet)
  {
    if forall i :: 0 <= i < |s| - 1 ==> s[i].end < s[i + 1].start {
      forall i, j | 0 <= i < j < |s| ensures !Meet(s[i], s[j]) {
        assert StartDateTime(s[i + 1]) <= StartDateTime(s[j]);
      }
    }
    if PairFree(s, Meet) {
      forall i | 0 <= i < |s| - 1 ensures s[i].end < s[i + 1].start {
        assert !Meet(s[i], s[i + 1]) && StartDateTime(s[i]) <= StartDateTime(s[i + 1]);
      }
    }
  }

  function NeighbourMessage(current: SpecificDate, next: SpecificDate): Conflict {
    var field := if current.start == next.start then "start_date_time" else "end_date_time";
    Conflict(current.id, field, next.id, "start_date_time")
  }

  /** The messages of the first n neighbouring pairs. */
  function NeighbourMessages(s: seq<SpecificDate>, n: nat): seq<Conflict>
    requires n == 0 || n < |s|
  {
    if n == 0 then []
    else NeighbourMessages(s, n - 1) + if Disjoint(s[n - 1], s[n]) then [] else [NeighbourMessage(s[n - 1], s[n])]
  }

  lemma {:induction false} NoNeighbourMessages(s: seq<SpecificDate>, n: nat)
    requires n == 0 || n < |s|
    requires Proper(s) && forall i :: 0 <= i < n ==> s[i].start <= s[i + 1].start
    ensures NeighbourMessages(s, n) == [] <==> forall i :: 0 <= i < n ==> s[i].end < s[i + 1].start
  {
    if n > 0 {
      NoNeighbourMessages(s, n - 1);
    }
  }

  /** Each message names two neighbours that meet, and the fields. */
  lemma {:induction false} NeighbourMessageMembers(s: seq<SpecificDate>, n: nat, m: Conflict)
    requires n == 0 || n < |s|
    requires Proper(s) && forall i :: 0 <= i < n ==> s[i].start <= s[i + 1].start
    ensures m in NeighbourMessages(s, n) <==>
            exists i :: 0 <= i < n && s[i + 1].start <= s[i].end
                        && m == Conflict(s[i].id, if s[i].start == s[i + 1].start then "start_date_time"
                                                  else "end_date_time", s[i + 1].id, "start_date_time")
  {
    if n > 0 {
      NeighbourMessageMembers(s, n - 1, m);
      assert s[n - 1].start < s[n - 1].end && s[n].start < s[n].end && s[n - 1].start <= s[n].start;
    }
  }

  /** Sorts, then compares neighbours: a message for each two that meet; none exactly if all pairs are disjoint. */
  method IsNotOverlapForSpecificDate(list: seq<SpecificDate>) returns (messages: seq<Conflict>)
    requires Proper(list)
    ensures messages == NeighbourMessages(SortBy(list, StartDateTime), if list == [] then 0 else |list| - 1)
    ensures messages == [] <==> forall i, j :: 0 <= i < j < |list| ==> Disjoint(list[i], list[j])
  {
    messages := [];
    if list != [] {
      var s := SortBy(list, StartDateTime);
      SortedIsProper(list);
      messages := CompareNeighbours(s);
      forall i | 0 <= i < |s| - 1 ensures s[i].start <= s[i + 1].start {
        assert StartDateTime(s[i]) <= StartDateTime(s[i + 1]);
      }
      NoNeighbourMessages(s, |s| - 1);
      NeighboursDecide(s);
      SortingKeepsPairs(list, StartDateTime, Meet);
    }
    assert PairFree(list, Meet) <==> forall i, j :: 0 <= i < j < |list| ==> Disjoint(list[i], list[j]);
  }

  lemma {:induction false} SortedIsProper(list: seq<SpecificDate>)
    requires Proper(list)
    ensures Proper(SortBy(list, StartDateTime)) && SortedBy(SortBy(list, StartDateTime), StartDateTime)
  {
    var s := SortBy(list, StartDateTime);
    SortByProperties(list, StartDateTime);
    forall i | 0 <= i < |s| ensures s[i] in list {
      assert s[i] in s;
    }
  }

  method CompareNeighbours(s: seq<SpecificDate>) returns (messages: seq<Conflict>)
    requires s != [] && Proper(s) && SortedBy(s, StartDateTime)
    ensures messages == NeighbourMessages(s, |s| - 1)
  {
    messages := [];
    for index := 0 to |s| - 1
      invariant messages == NeighbourMessages(s, index)
    {
      var current, next := s[index], s[index + 1];
      assert StartDateTime(current) <= StartDateTime(next);
      if current.start == next.start {
        messages := messages + [Conflict(current.id, "start_date_time", next.id, "start_date_time")];
      } else if current.end >= next.start {
        messages := messages + [Conflict(current.id, "end_date_time", next.id, "start_date_time")];
      }
    }
  }
}
