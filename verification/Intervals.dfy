/** Half-open intervals over the integers, after sequencer/quic_interval.h. */
module Intervals {

  /** The interval [min, max); it is empty when min >= max. */
  datatype Interval = Interval(min: int, max: int) {

    predicate Empty() {
      min >= max
    }

    predicate Contains(t: int) {
      min <= t && max > t
    }

    predicate Includes(i: Interval) {
      !Empty() && !i.Empty() && min <= i.min && max >= i.max
    }

    predicate Intersects(i: Interval) {
      !Empty() && !i.Empty() && min < i.max && max > i.min
    }

    function Intersection(i: Interval): Interval {
      Interval(if min >= i.min then min else i.min, if max <= i.max then max else i.max)
    }
  }

  /** Includes decides inclusion of point sets, except that the empty interval includes and is included by nothing. */
  lemma IncludesMeansSubset(a: Interval, b: Interval)
    ensures a.Includes(b) <==> !a.Empty() && !b.Empty() && forall t :: b.Contains(t) ==> a.Contains(t)
  {
    if !a.Empty() && !b.Empty() && forall t :: b.Contains(t) ==> a.Contains(t) {
      assert b.Contains(b.min) && b.Contains(b.max - 1);
    }
  }

  /** Intersects decides the existence of a common point, and Intersection collects all of them. */
  lemma IntersectsMeansCommonPoint(a: Interval, b: Interval)
    ensures a.Intersects(b) <==> exists t :: a.Contains(t) && b.Contains(t)
    ensures forall t :: a.Intersection(b).Contains(t) <==> a.Contains(t) && b.Contains(t)
  {
    if a.Intersects(b) {
      var t := a.Intersection(b).min;
      assert a.Contains(t) && b.Contains(t);
    }
  }

  /** Narrows a to the points shared with i, and reports whether a field was written. */
  method IntersectWith(a: Interval, i: Interval) returns (r: Interval, modified: bool)
    ensures forall t :: r.Contains(t) <==> a.Contains(t) && i.Contains(t)
    ensures modified <==> r != a
  {
    r, modified := a, false;
    if r.Empty() {
      return;
    }
    if i.min > r.min {
      r, modified := r.(min := i.min), true;
    }
    if i.max < r.max {
      r, modified := r.(max := i.max), true;
    }
  }

  /** Widens a to the least interval with all points of a and of i, and reports whether a field was written. */
  method SpanningUnion(a: Interval, i: Interval) returns (r: Interval, modified: bool)
    ensures forall t :: a.Contains(t) || i.Contains(t) ==> r.Contains(t)
    ensures forall j: Interval ::
      (forall t :: a.Contains(t) || i.Contains(t) ==> j.Contains(t)) && !r.Empty() ==> j.min <= r.min && r.max <= j.max
    ensures modified <==> r != a
  {
    r, modified := a, false;
    if i.Empty() {
      LeastBounds(a, i, r);
      return;
    }
    if r.Empty() {
      r, modified := i, true;
      LeastBounds(a, i, r);
      return;
    }
    if i.min < r.min {
      r, modified := r.(min := i.min), true;
    }
    if i.max > r.max {
      r, modified := r.(max := i.max), true;
    }
    LeastBounds(a, i, r);
  }

  lemma LeastBounds(a: Interval, i: Interval, r: Interval)
    requires !r.Empty() ==> (a.Contains(r.min) || i.Contains(r.min)) && (a.Contains(r.max - 1) || i.Contains(r.max - 1))
    ensures forall j: Interval ::
      (forall t :: a.Contains(t) || i.Contains(t) ==> j.Contains(t)) && !r.Empty() ==> j.min <= r.min && r.max <= j.max
  {
    forall j: Interval | (forall t :: a.Contains(t) || i.Contains(t) ==> j.Contains(t)) && !r.Empty()
      ensures j.min <= r.min && r.max <= j.max
    {
      assert j.Contains(r.min) && j.Contains(r.max - 1);
    }
  }

  /** Erases i from a; what is left is a part lo below i and a part hi above it, either of which may be empty. */
  method Difference(a: Interval, i: Interval) returns (lo: Interval, hi: Interval, met: bool)
    ensures forall t :: lo.Contains(t) || hi.Contains(t) <==> a.Contains(t) && !i.Contains(t)
    ensures met <==> a.Intersects(i)
    ensures met && !lo.Empty() ==> lo == Interval(a.min, i.min)
    ensures met && !hi.Empty() ==> hi == Interval(i.max, a.max)
    ensures !met ==> hi.Empty() && (lo.Empty() || lo == a)
  {
    lo, hi := Interval(0, 0), Interval(0, 0);
    if a.Empty() {
      return lo, hi, false;
    }
    if i.Empty() {
      return a, hi, false;
    }
    if a.min < i.max && a.min >= i.min && a.max > i.max {
      return lo, Interval(i.max, a.max), true;
    }
    if a.max > i.min && a.max <= i.max && a.min < i.min {
      return Interval(a.min, i.min), hi, true;
    }
    if a.min < i.min && a.max > i.max {
      return Interval(a.min, i.min), Interval(i.max, a.max), true;
    }
    if a.min >= i.min && a.max <= i.max {
      return lo, hi, true;
    }
    return a, hi, false;
  }
}
