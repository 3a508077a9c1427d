/** The arithmetic of one scaling decision, and what repeating it leads to. */
module Scaling {
  import opened Common

  /** A parsed adjustment: a percentage, a number of instances, or neither. */
  datatype Adjustment = Percent(percentage: real) | Instances(step: int) | Malformed

  /** Conversion to an integer drops the fraction. */
  function Truncate(r: real): int {
    if 0.0 <= r then r.Floor else -((-r).Floor)
  }

  /** The count the adjustment asks for. */
  function Exact(current: int, percentage: real): real {
    current as real * (1.0 + percentage / 100.0)
  }

  function ComputeNewInstances(current: int, adjustment: Adjustment): Option<int> {
    match adjustment
    case Percent(percentage) =>
      var rounded := Truncate(Exact(current, percentage) + 0.5);
      if rounded == current then
        if 0.0 < percentage then Some(current + 1) else if percentage < 0.0 then Some(current - 1) else Some(current)
      else Some(rounded)
    case Instances(step) => Some(step + current)
    case Malformed => None
  }

  function Clamp(n: int, min: int, max: int): int {
    if n < min then min else if n > max then max else n
  }

  /** The sign of an adjustment: up, down or neither. */
  function Direction(adjustment: Adjustment): int
    requires !adjustment.Malformed?
  {
    match adjustment
    case Percent(p) => if p > 0.0 then 1 else if p < 0.0 then -1 else 0
    case Instances(k) => if k > 0 then 1 else if k < 0 then -1 else 0
  }

  /** The exact count is (100 + p) hundredths of the current one. */
  lemma HundredthsOf(current: int, p: real)
    ensures 100.0 * Exact(current, p) == current as real * (100.0 + p)
  {
    assert 100.0 * (1.0 + p / 100.0) == 100.0 + p;
    assert 100.0 * Exact(current, p) == current as real * (100.0 * (1.0 + p / 100.0));
  }

  lemma PercentOf(current: nat, p: real)
    ensures p > 0.0 ==> Exact(current, p) >= current as real
    ensures p < 0.0 ==> Exact(current, p) <= current as real
    ensures p == 0.0 ==> Exact(current, p) == current as real
  {
    var f := p / 100.0;
    assert Exact(current, p) == current as real + current as real * f;
    if p > 0.0 {
      assert current as real * f >= 0.0;
    } else if p < 0.0 {
      assert current as real * f <= 0.0;
    }
  }

  /** A count always moves strictly the way the adjustment points, however small the percentage. */
  lemma MovesInDirection(current: nat, adjustment: Adjustment)
    requires !adjustment.Malformed?
    ensures var next := ComputeNewInstances(current, adjustment).value;
            && (Direction(adjustment) > 0 <==> next > current)
            && (Direction(adjustment) < 0 <==> next < current)
  {
    if adjustment.Percent? {
      PercentOf(current, adjustment.percentage);
    }
  }

  predicate IsNearest(n: int, exact: real) {
    n as real - 0.5 <= exact < n as real + 0.5
  }

  /** The nearest count, halves upwards, unless that would not move at all: then one count in the right direction. */
  predicate RoundsToNearest(current: int, p: real) {
    var next := ComputeNewInstances(current, Percent(p)).value;
    || IsNearest(next, Exact(current, p))
    || (p != 0.0 && IsNearest(current, Exact(current, p)) && next == current + Direction(Percent(p)))
  }

  lemma PercentKeepsSign(current: nat, p: real)
    requires -100.0 <= p
    ensures 0.0 <= Exact(current, p)
  {
    var a, b := current as real, 1.0 + p / 100.0;
    assert 0.0 <= b;
    assert 0.0 <= a * b;
  }

  lemma NearestIsFloor(n: int, exact: real)
    ensures IsNearest(n, exact) <==> n == (exact + 0.5).Floor
  {
    var shifted := exact + 0.5;
    assert shifted.Floor as real <= shifted < (shifted.Floor + 1) as real;
    if IsNearest(n, exact) {
      assert n as real <= shifted < (n + 1) as real;
      assert n < shifted.Floor + 1 && shifted.Floor < n + 1;
    }
  }

  lemma TruncateIsFloor(r: real)
    ensures Truncate(r) == r.Floor <==> 0.0 <= r || r.Floor as real == r
  {
    if r < 0.0 {
      var n := (-r).Floor;
      assert n as real <= -r < (n + 1) as real;
      if r.Floor as real == r {
        assert n <= -r.Floor && -r.Floor < n + 1;
      }
    }
  }

  /**
   * A percentage is rounded to the nearest count exactly when the count asked for is not below -0.5 or lies halfway
   * between two: cutting off the fraction of a negative number rounds the others up.
   */
  lemma PercentRoundsToNearest(current: nat, p: real)
    ensures var shifted := Exact(current, p) + 0.5;
            RoundsToNearest(current, p) <==> 0.0 <= shifted || shifted.Floor as real == shifted
    ensures -100.0 <= p ==> RoundsToNearest(current, p)
    ensures -100.0 <= p ==> -1 <= ComputeNewInstances(current, Percent(p)).value
  {
    var exact := Exact(current, p);
    TruncateIsFloor(exact + 0.5);
    NearestIsFloor(Truncate(exact + 0.5), exact);
    NearestIsFloor(current, exact);
    PercentOf(current, p);
    if Truncate(exact + 0.5) == current {
      assert 0.0 <= exact + 0.5;
    }
    if -100.0 <= p {
      PercentKeepsSign(current, p);
    }
  }

  /** Such a percentage: of 2 instances, 180 percent less is -1.6, and -2 would be nearest. */
  lemma BelowAllRoundsUp()
    ensures ComputeNewInstances(2, Percent(-180.0)) == Some(-1)
    ensures IsNearest(-2, Exact(2, -180.0)) && !RoundsToNearest(2, -180.0)
  {
    assert Exact(2, -180.0) == -1.6;
    TruncateIsFloor(-1.1);
    NearestIsFloor(-1, -1.6);
    NearestIsFloor(2, -1.6);
  }

  /** One dynamic scaling within limits. */
  function ScaleOnce(current: int, adjustment: Adjustment, min: int, max: int): int
    requires !adjustment.Malformed?
  {
    Clamp(ComputeNewInstances(current, adjustment).value, min, max)
  }

  function ScaleRepeatedly(current: int, adjustment: Adjustment, min: int, max: int, times: nat): int
    requires !adjustment.Malformed?
    decreases times
  {
    if times == 0 then current
    else ScaleRepeatedly(ScaleOnce(current, adjustment, min, max), adjustment, min, max, times - 1)
  }

  /** Where an adjustment leads in the end. */
  function Limit(adjustment: Adjustment, min: int, max: int): int
    requires !adjustment.Malformed?
  {
    if Direction(adjustment) > 0 then max else min
  }

  function Distance(a: int, b: int): nat {
    if a <= b then b - a else a - b
  }

  /** Every scaling that is not already at the limit comes strictly closer to it. */
  lemma ScaleOnceApproaches(current: nat, adjustment: Adjustment, min: nat, max: nat)
    requires !adjustment.Malformed? && Direction(adjustment) != 0 && min <= max
    ensures var target := Limit(adjustment, min, max);
            var next := ScaleOnce(current, adjustment, min, max);
            if current == target then next == target else Distance(next, target) < Distance(current, target)
  {
    MovesInDirection(current, adjustment);
  }

  /** Repeated scaling reaches the limit after at most as many rounds as there are counts between, and stays there. */
  lemma {:induction false} RepeatedScalingConverges(
    current: nat, adjustment: Adjustment, min: nat, max: nat, times: nat)
    requires !adjustment.Malformed? && Direction(adjustment) != 0 && min <= max
    requires Distance(current, Limit(adjustment, min, max)) <= times
    ensures ScaleRepeatedly(current, adjustment, min, max, times) == Limit(adjustment, min, max)
    decreases times
  {
    if times > 0 {
      ScaleOnceApproaches(current, adjustment, min, max);
      RepeatedScalingConverges(ScaleOnce(current, adjustment, min, max), adjustment, min, max, times - 1);
    }
  }

  /** The first round brings any count within the limits: the nearest limit, if the count asked for is outside. */
  lemma WithinLimitsAtOnce(current: int, adjustment: Adjustment, min: int, max: int)
    requires !adjustment.Malformed? && min <= max
    ensures var wanted := ComputeNewInstances(current, adjustment).value;
            var next := ScaleOnce(current, adjustment, min, max);
            && min <= next <= max
            && (min <= wanted <= max ==> next == wanted)
            && (wanted < min ==> next == min)
            && (max < wanted ==> next == max)
  {
  }

  /** A step moves by its number of instances, in every round; n rounds by n steps, as far as the limits allow. */
  lemma {:induction false} StepsAddUp(current: int, step: int, min: int, max: int, n: nat)
    requires min <= current <= max
    ensures ScaleRepeatedly(current, Instances(step), min, max, n)
            == if current + n * step < min then min else if max < current + n * step then max else current + n * step
    decreases n
  {
    if n > 0 {
      var next := ScaleOnce(current, Instances(step), min, max);
      StepsAddUp(next, step, min, max, n - 1);
      assert n * step == step + (n - 1) * step;
      if 0 <= step {
        SameSign(n - 1, step);
      } else {
        SameSign(n - 1, -step);
        assert (n - 1) * -step == -((n - 1) * step);
      }
    }
  }

  lemma SameSign(a: nat, b: nat)
    ensures 0 <= a * b
  {
  }
}
