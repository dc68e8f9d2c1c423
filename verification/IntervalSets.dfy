/** Sorted sets of disjoint, non-adjacent, non-empty intervals, after sequencer/quic_interval_set.h. */
module IntervalSets {
  // A std::set of intervals is a sequence in the order of IntervalLess, and its iterators are positions in that
  // sequence. Where the original keeps an iterator across an insertion, the position is shifted explicitly.

  import opened Intervals

  // ---------- std::set<QuicInterval, IntervalLess> ----------

  predicate Less(a: Interval, b: Interval) {
    a.min < b.min || (a.min == b.min && a.max > b.max)
  }

  ghost predicate Sorted(s: seq<Interval>) {
    forall i, j :: 0 <= i < j < |s| ==> Less(s[i], s[j])
  }

  ghost predicate NonEmpty(s: seq<Interval>) {
    forall i :: 0 <= i < |s| ==> !s[i].Empty()
  }

  /** The class invariant: non-empty intervals, each ending strictly before the next begins. */
  ghost predicate Canonical(s: seq<Interval>) {
    NonEmpty(s) && forall i, j :: 0 <= i < j < |s| ==> s[i].max < s[j].min
  }

  /** The integers a sequence of intervals denotes. */
  ghost predicate Covers(s: seq<Interval>, x: int) {
    exists i :: 0 <= i < |s| && s[i].Contains(x)
  }

  /** std::set::lower_bound. */
  function LowerPos(s: seq<Interval>, v: Interval): (p: nat)
    requires Sorted(s)
    ensures p <= |s|
    ensures forall i :: 0 <= i < p ==> Less(s[i], v)
    ensures forall i :: p <= i < |s| ==> !Less(s[i], v)
  {
    if s == [] || !Less(s[0], v) then 0 else 1 + LowerPos(s[1..], v)
  }

  /** std::set::upper_bound. */
  function UpperPos(s: seq<Interval>, v: Interval): (p: nat)
    requires Sorted(s)
    ensures p <= |s|
    ensures forall i :: 0 <= i < p ==> !Less(v, s[i])
    ensures forall i :: p <= i < |s| ==> Less(v, s[i])
  {
    if s == [] || Less(v, s[0]) then 0 else 1 + UpperPos(s[1..], v)
  }

  lemma CanonicalIsSorted(s: seq<Interval>)
    requires Canonical(s)
    ensures Sorted(s)
  {
  }

  lemma CoversConcat(a: seq<Interval>, b: seq<Interval>, x: int)
    ensures Covers(a + b, x) <==> Covers(a, x) || Covers(b, x)
  {
    if Covers(a, x) {
      var i :| 0 <= i < |a| && a[i].Contains(x);
      assert (a + b)[i].Contains(x);
    }
    if Covers(b, x) {
      var i :| 0 <= i < |b| && b[i].Contains(x);
      assert (a + b)[|a| + i].Contains(x);
    }
    if Covers(a + b, x) {
      var i :| 0 <= i < |a + b| && (a + b)[i].Contains(x);
      if i < |a| {
        assert a[i].Contains(x);
      } else {
        assert b[i - |a|].Contains(x);
      }
    }
  }

  lemma CoversOne(v: Interval, x: int)
    ensures Covers([v], x) <==> v.Contains(x)
  {
    if v.Contains(x) {
      assert [v][0].Contains(x);
    }
  }

  // ---------- merging ----------

  /** What Compact leaves of a sorted run of possibly overlapping intervals. */
  function Merged(s: seq<Interval>): seq<Interval>
    decreases |s|
  {
    if |s| <= 1 then s
    else if s[0].max >= s[1].min then Merged([Join(s[0], s[1])] + s[2..])
    else [s[0]] + Merged(s[1..])
  }

  function Join(a: Interval, b: Interval): Interval {
    Interval(a.min, if a.max >= b.max then a.max else b.max)
  }

  /** A sequence whose run at positions b up to e has been merged. */
  function Spliced(s: seq<Interval>, b: nat, e: nat): seq<Interval>
    requires b <= e <= |s|
  {
    s[..b] + Merged(s[b..e]) + s[e..]
  }

  /** Merging keeps the points. */
  lemma {:induction false} MergedPoints(s: seq<Interval>, x: int)
    requires Sorted(s) && NonEmpty(s)
    ensures Covers(Merged(s), x) <==> Covers(s, x)
    decreases |s|
  {
    if |s| > 1 {
      assert s == [s[0]] + ([s[1]] + s[2..]) && s[1..] == [s[1]] + s[2..];
      CoversConcat([s[0]], s[1..], x);
      CoversConcat([s[1]], s[2..], x);
      CoversOne(s[0], x);
      CoversOne(s[1], x);
      if s[0].max >= s[1].min {
        var j := Join(s[0], s[1]);
        CoversConcat([j], s[2..], x);
        CoversOne(j, x);
        MergedPoints([j] + s[2..], x);
      } else {
        CoversConcat([s[0]], Merged(s[1..]), x);
        MergedPoints(s[1..], x);
      }
    }
  }

  /** Merging restores the invariant, keeps the left end, and reaches no further right than its input. */
  lemma {:induction false} MergedIsCanonical(s: seq<Interval>, bound: int)
    requires Sorted(s) && NonEmpty(s)
    requires forall i :: 0 <= i < |s| ==> s[i].max <= bound
    ensures Canonical(Merged(s)) && (s != [] ==> Merged(s) != [] && Merged(s)[0].min == s[0].min)
    ensures forall i :: 0 <= i < |Merged(s)| ==> Merged(s)[i].max <= bound
    decreases |s|
  {
    if |s| > 1 {
      if s[0].max >= s[1].min {
        MergedIsCanonical([Join(s[0], s[1])] + s[2..], bound);
      } else {
        MergedIsCanonical(s[1..], bound);
      }
    }
  }

  /** Sequences of intervals in canonical form are determined by their points. */
  lemma {:induction false} CanonicalIsUnique(s: seq<Interval>, t: seq<Interval>)
    requires Canonical(s) && Canonical(t)
    requires forall x :: Covers(s, x) <==> Covers(t, x)
    ensures s == t
  {
    if s == [] || t == [] {
      if s != [] {
        assert s[0].Contains(s[0].min);
        assert Covers(s, s[0].min);
      }
      if t != [] {
        assert t[0].Contains(t[0].min);
        assert Covers(t, t[0].min);
      }
      return;
    }
    FirstAgrees(s, t);
    FirstAgrees(t, s);
    forall x
      ensures Covers(s[1..], x) <==> Covers(t[1..], x)
    {
      RestCovers(s, x);
      RestCovers(t, x);
    }
    CanonicalIsUnique(s[1..], t[1..]);
    assert s == [s[0]] + s[1..] && t == [t[0]] + t[1..];
  }

  lemma RestCovers(s: seq<Interval>, x: int)
    requires Canonical(s) && s != []
    ensures Covers(s[1..], x) <==> Covers(s, x) && x >= s[0].max
  {
    assert s == [s[0]] + s[1..];
    CoversConcat([s[0]], s[1..], x);
    CoversOne(s[0], x);
  }

  lemma FirstAgrees(s: seq<Interval>, t: seq<Interval>)
    requires Canonical(s) && Canonical(t) && s != [] && t != []
    requires forall x :: Covers(s, x) <==> Covers(t, x)
    ensures s[0].min >= t[0].min && s[0].max >= t[0].max
  {
    assert s[0].Contains(s[0].min);
    assert Covers(s, s[0].min);
    if s[0].max < t[0].max {
      assert t[0].Contains(t[0].min) && Covers(t, t[0].min);
      assert t[0].Contains(s[0].max);
      assert Covers(t, s[0].max);
      assert false;
    }
  }

  // ---------- adding one interval ----------

  /** The state between the insertion and the compaction of Add. */
  function Inserted(s: seq<Interval>, p: nat, v: Interval): seq<Interval>
    requires p <= |s|
  {
    s[..p] + [v] + s[p..]
  }

  lemma InsertedKeepsOrder(s: seq<Interval>, v: Interval)
    requires Sorted(s) && v !in s
    ensures Sorted(Inserted(s, LowerPos(s, v), v))
  {
  }

  lemma InsertedPoints(s: seq<Interval>, p: nat, v: Interval, x: int)
    requires p <= |s|
    ensures Covers(Inserted(s, p, v), x) <==> Covers(s, x) || v.Contains(x)
  {
    CoversConcat(s[..p] + [v], s[p..], x);
    CoversConcat(s[..p], [v], x);
    CoversOne(v, x);
    assert s == s[..p] + s[p..];
    CoversConcat(s[..p], s[p..], x);
  }

  lemma SliceIsSorted(s: seq<Interval>, b: nat, e: nat)
    requires Sorted(s) && NonEmpty(s) && b <= e <= |s|
    ensures Sorted(s[b..e]) && NonEmpty(s[b..e])
  {
  }

  /** Replacing the run s[b..e] by its merged form keeps the points of the whole. */
  lemma CompactedPoints(s: seq<Interval>, b: nat, e: nat, x: int)
    requires b <= e <= |s| && Sorted(s) && NonEmpty(s)
    ensures Covers(Spliced(s, b, e), x) <==> Covers(s, x)
  {
    hide Covers, Sorted, NonEmpty, Merged;
    SliceIsSorted(s, b, e);
    assert s == s[..b] + s[b..e] + s[e..];
    CoversConcat(s[..b] + s[b..e], s[e..], x);
    CoversConcat(s[..b], s[b..e], x);
    CoversConcat(s[..b] + Merged(s[b..e]), s[e..], x);
    CoversConcat(s[..b], Merged(s[b..e]), x);
    MergedPoints(s[b..e], x);
  }

  lemma CanonicalConcat(a: seq<Interval>, b: seq<Interval>, c: seq<Interval>, lo: int, hi: int)
    requires Canonical(a) && Canonical(b) && Canonical(c)
    requires forall i :: 0 <= i < |a| ==> a[i].max < lo
    requires forall i :: 0 <= i < |b| ==> lo <= b[i].min && b[i].max <= hi
    requires forall i :: 0 <= i < |c| ==> lo <= c[i].min && hi < c[i].min
    ensures Canonical(a + b + c)
  {
  }

  /** Which run Add compacts once v stands at position p: from its left neighbour to the first start beyond its end. */
  function RunStart(p: nat): nat {
    if p == 0 then 0 else p - 1
  }

  lemma InsertedAt(s: seq<Interval>, p: nat, v: Interval)
    requires p <= |s|
    ensures var t := Inserted(s, p, v);
      |t| == |s| + 1 && t[p] == v
      && (forall i :: 0 <= i < p ==> t[i] == s[i]) && (forall i :: p < i < |t| ==> t[i] == s[i - 1])
  {
  }

  lemma RunEnds(s: seq<Interval>, v: Interval, t: seq<Interval>, p: nat, e: nat)
    requires Canonical(s) && !v.Empty() && Sorted(s)
    requires p == LowerPos(s, v) && t == Inserted(s, p, v) && Sorted(t) && e == UpperPos(t, Interval(v.max, v.max))
    ensures p < e <= |t| && forall j :: e <= j < |t| ==> v.max < t[j].min
  {
    hide Sorted, Canonical, LowerPos, UpperPos;
    InsertedAt(s, p, v);
    assert !Less(Interval(v.max, v.max), t[p]);
    forall j | e <= j < |t|
      ensures v.max < t[j].min
    {
      assert Less(Interval(v.max, v.max), t[j]);
      CanonicalAt(s, j - 1);
    }
  }

  lemma CanonicalAt(s: seq<Interval>, i: nat)
    requires Canonical(s) && i < |s|
    ensures !s[i].Empty()
  {
  }

  lemma RunIsSeparated(s: seq<Interval>, v: Interval, t: seq<Interval>, p: nat, e: nat)
    requires Canonical(s) && !v.Empty() && v !in s && Sorted(s)
    requires p == LowerPos(s, v) && t == Inserted(s, p, v) && Sorted(t) && e == UpperPos(t, Interval(v.max, v.max))
    ensures p < e <= |t| && NonEmpty(t)
    ensures forall i :: 0 <= i < RunStart(p) ==> t[i].max < t[RunStart(p)].min
    ensures forall i, j :: RunStart(p) <= i < e <= j < |t| ==> t[i].max < t[j].min
  {
    hide Sorted, Less, Inserted, LowerPos, UpperPos;
    RunEnds(s, v, t, p, e);
    InsertedAt(s, p, v);
    assert RunStart(p) < p ==> t[p - 1] == s[p - 1];
    forall i, j | RunStart(p) <= i < e <= j < |t|
      ensures t[i].max < t[j].min
    {
      if i != p {
        assert t[i] == (if i < p then s[i] else s[i - 1]) && t[j] == s[j - 1];
      }
    }
  }

  lemma SliceIsCanonical(s: seq<Interval>, i: nat, j: nat)
    requires Canonical(s) && i <= j <= |s|
    ensures Canonical(s[i..j])
  {
  }

  /** After the insertion of v, merging that run is enough to restore the invariant. */
  lemma AddRestoresInvariant(s: seq<Interval>, v: Interval, t: seq<Interval>, p: nat, e: nat)
    requires Canonical(s) && !v.Empty() && v !in s && Sorted(s)
    requires p == LowerPos(s, v) && t == Inserted(s, p, v) && Sorted(t) && e == UpperPos(t, Interval(v.max, v.max))
    ensures p < e && Canonical(Spliced(t, RunStart(p), e))
  {
    var b := RunStart(p);
    RunIsSeparated(s, v, t, p, e);
    OutsideTheRun(s, v, p, e);
    SeparatedRunMerges(t, b, e);
  }

  lemma OutsideTheRun(s: seq<Interval>, v: Interval, p: nat, e: nat)
    requires Canonical(s) && p <= |s| && p < e <= |s| + 1
    ensures Canonical(Inserted(s, p, v)[..RunStart(p)]) && Canonical(Inserted(s, p, v)[e..])
  {
    var t := Inserted(s, p, v);
    assert t[..RunStart(p)] == s[0..RunStart(p)];
    assert t[e..] == s[e - 1..|s|];
    SliceIsCanonical(s, 0, RunStart(p));
    SliceIsCanonical(s, e - 1, |s|);
  }

  lemma SeparatedRunMerges(t: seq<Interval>, b: nat, e: nat)
    requires b < e <= |t| && Sorted(t) && NonEmpty(t) && Canonical(t[..b]) && Canonical(t[e..])
    requires forall i :: 0 <= i < b ==> t[i].max < t[b].min
    requires forall i, j :: b <= i < e <= j < |t| ==> t[i].max < t[j].min
    ensures Canonical(Spliced(t, b, e))
  {
    var run := t[b..e];
    assert run[0] == t[b];
    var hi := MaxEnd(run);
    forall j | 0 <= j < |t[e..]|
      ensures hi < t[e..][j].min && t[b].min <= t[e..][j].min
    {
      var i :| 0 <= i < |run| && run[i].max == hi;
      assert run[i] == t[b + i] && t[e..][j] == t[e + j];
      assert Less(t[b], t[e + j]);
    }
    RunMergesCleanly(run, hi);
    CanonicalConcat(t[..b], Merged(run), t[e..], t[b].min, hi);
  }

  lemma RunMergesCleanly(run: seq<Interval>, hi: int)
    requires Sorted(run) && NonEmpty(run) && run != []
    requires forall i :: 0 <= i < |run| ==> run[i].max <= hi
    ensures Canonical(Merged(run))
    ensures forall i :: 0 <= i < |Merged(run)| ==> run[0].min <= Merged(run)[i].min && Merged(run)[i].max <= hi
  {
    MergedIsCanonical(run, hi);
    FirstIsLeast(Merged(run));
  }

  /** And it denotes exactly the old points and those of v. */
  lemma AddPoints(s: seq<Interval>, v: Interval, t: seq<Interval>, p: nat, e: nat, x: int)
    requires Canonical(s) && !v.Empty() && v !in s && Sorted(s)
    requires p == LowerPos(s, v) && t == Inserted(s, p, v) && Sorted(t) && e == UpperPos(t, Interval(v.max, v.max))
    ensures p < e && (Covers(Spliced(t, RunStart(p), e), x) <==> Covers(s, x) || v.Contains(x))
  {
    RunIsSeparated(s, v, t, p, e);
    CompactedPoints(t, RunStart(p), e, x);
    InsertedPoints(s, p, v, x);
  }

  lemma FirstIsLeast(s: seq<Interval>)
    requires Canonical(s)
    ensures forall i :: 0 <= i < |s| ==> s[0].min <= s[i].min
  {
  }

  /** The largest right end of a non-empty sequence. */
  ghost function MaxEnd(s: seq<Interval>): (m: int)
    requires s != []
    ensures forall i :: 0 <= i < |s| ==> s[i].max <= m
    ensures exists i :: 0 <= i < |s| && s[i].max == m
  {
    if |s| == 1 then
      assert s[0].max == s[0].max;
      s[0].max
    else
      var m := MaxEnd(s[1..]);
      assert exists i :: 0 <= i < |s| - 1 && s[1..][i].max == m;
      if s[0].max >= m then s[0].max else m
  }

  lemma LowerPosAt(s: seq<Interval>, v: Interval, p: nat)
    requires Sorted(s) && p <= |s|
    requires forall i :: 0 <= i < p ==> Less(s[i], v)
    requires forall i :: p <= i < |s| ==> !Less(s[i], v)
    ensures LowerPos(s, v) == p
  {
    var q := LowerPos(s, v);
    assert q < |s| ==> (Less(s[q], v) <==> q < p);
    assert p < |s| ==> (Less(s[p], v) <==> p < q);
  }

  function MergedPair(t: seq<Interval>, prev: nat): seq<Interval>
    requires prev + 1 < |t|
  {
    Inserted(t[..prev] + t[prev + 2..], prev, Join(t[prev], t[prev + 1]))
  }

  /** One merging step of Compact: the joined interval belongs exactly where the two it replaces stood, and is new. */
  lemma JoinedStandsAtPrev(t: seq<Interval>, prev: nat, last: nat)
    requires Sorted(t) && NonEmpty(t) && prev + 1 < last <= |t|
    requires forall i :: 0 <= i < prev ==> t[i].min < t[prev].min
    requires t[prev].max >= t[prev + 1].min
    ensures
      var joined := Join(t[prev], t[prev + 1]);
      var u := t[..prev] + t[prev + 2..];
      var w := MergedPair(t, prev);
      Sorted(u) && joined !in u && LowerPos(u, joined) == prev
      && NonEmpty(w) && |w| == |t| - 1 && (forall i :: 0 <= i < prev ==> w[i].min < w[prev].min)
      && Spliced(w, prev, last - 1) == Spliced(t, prev, last)
  {
    var joined := Join(t[prev], t[prev + 1]);
    var u := t[..prev] + t[prev + 2..];
    var w := Inserted(u, prev, joined);
    forall i | prev <= i < |u|
      ensures Less(joined, u[i])
    {
      assert u[i] == t[i + 2] && Less(t[prev], t[prev + 1]) && Less(t[prev + 1], t[i + 2]);
    }
    forall i | 0 <= i < prev
      ensures Less(u[i], joined)
    {
      assert u[i] == t[i];
    }
    LowerPosAt(u, joined, prev);
    assert w == t[..prev] + [joined] + t[prev + 2..];
    TwoBecomeOne(t, prev, last, joined);
    assert t[prev..last][0] == t[prev] && t[prev..last][1] == t[prev + 1];
  }

  lemma TwoBecomeOne(t: seq<Interval>, prev: nat, last: nat, joined: Interval)
    requires prev + 1 < last <= |t|
    ensures
      var w := t[..prev] + [joined] + t[prev + 2..];
      w[..prev] == t[..prev] && w[last - 1..] == t[last..] && w[prev..last - 1] == [joined] + t[prev..last][2..]
  {
    var w := t[..prev] + [joined] + t[prev + 2..];
    assert forall i :: prev < i < |w| ==> w[i] == t[i + 1];
    assert forall i :: 2 <= i < last - prev ==> t[prev..last][i] == t[prev + i];
  }

  lemma SplicedNone(t: seq<Interval>, at: nat)
    requires at <= |t|
    ensures Spliced(t, at, at) == t
  {
  }

  lemma SplicedOne(t: seq<Interval>, prev: nat)
    requires prev < |t|
    ensures Spliced(t, prev, prev + 1) == t
  {
    assert t == t[..prev] + t[prev..prev + 1] + t[prev + 1..];
  }

  lemma SortedMins(t: seq<Interval>, prev: nat, it: nat)
    requires Sorted(t) && NonEmpty(t) && prev < it < |t|
    requires forall i :: 0 <= i < prev ==> t[i].min < t[prev].min
    requires t[prev].max < t[it].min
    ensures forall i :: 0 <= i < it ==> t[i].min < t[it].min || prev < i
  {
  }

  lemma MergedSkips(t: seq<Interval>, prev: nat, last: nat)
    requires prev + 1 < last <= |t| && t[prev].max < t[prev + 1].min
    ensures Spliced(t, prev, last) == Spliced(t, prev + 1, last)
  {
    assert t[prev..last][1..] == t[prev + 1..last];
    assert t[..prev + 1] == t[..prev] + [t[prev]];
  }

  /** A non-empty interval lies inside one interval of the set exactly when every one of its points is covered. */
  lemma IncludedIffCovered(s: seq<Interval>, v: Interval)
    requires Canonical(s)
    ensures (exists i :: 0 <= i < |s| && s[i].Includes(v)) <==>
            !v.Empty() && forall x :: v.Contains(x) ==> Covers(s, x)
  {
    if !v.Empty() && forall x :: v.Contains(x) ==> Covers(s, x) {
      assert v.Contains(v.min) && Covers(s, v.min);
      var i :| 0 <= i < |s| && s[i].Contains(v.min);
      assert !Covers(s, s[i].max);
      assert s[i].Includes(v) || v.Contains(s[i].max);
    }
  }

  lemma DroppedPoints(s: seq<Interval>, count: nat, value: int)
    requires Canonical(s) && count <= |s|
    requires forall i :: 0 <= i < count ==> s[i].max <= value
    requires count < |s| ==> s[count].min >= value
    ensures forall x :: Covers(s[count..], x) <==> Covers(s, x) && x >= value
  {
    forall x ensures Covers(s[count..], x) <==> Covers(s, x) && x >= value {
      assert s == s[..count] + s[count..];
      CoversConcat(s[..count], s[count..], x);
    }
  }

  lemma TrimmedPoints(s: seq<Interval>, at: nat, value: int)
    requires Canonical(s) && at < |s|
    requires forall i :: 0 <= i < at ==> s[i].max <= value
    requires s[at].min < value < s[at].max
    ensures forall x :: Covers([s[at].(min := value)] + s[at + 1..], x) <==> Covers(s, x) && x >= value
  {
    forall x ensures Covers([s[at].(min := value)] + s[at + 1..], x) <==> Covers(s, x) && x >= value {
      assert s == s[..at] + [s[at]] + s[at + 1..];
      CoversConcat(s[..at] + [s[at]], s[at + 1..], x);
      CoversConcat(s[..at], [s[at]], x);
      CoversConcat([s[at].(min := value)], s[at + 1..], x);
      CoversOne(s[at], x);
      CoversOne(s[at].(min := value), x);
    }
  }

  /** The smallest interval around the whole set, or an empty one. */
  function Span(s: seq<Interval>): Interval {
    if s == [] then Interval(0, 0) else Interval(s[0].min, s[|s| - 1].max)
  }

  // ---------- two cursors ----------

  /** v shares no point with any interval of y. */
  ghost predicate Misses(v: Interval, y: seq<Interval>) {
    forall j :: 0 <= j < |y| ==> !v.Intersects(y[j])
  }

  /** The intervals of y before position t end before those of s from position m on begin. */
  ghost predicate Passed(s: seq<Interval>, m: nat, y: seq<Interval>, t: nat) {
    forall i, j :: m <= i < |s| && 0 <= j < t <= |y| ==> y[j].max <= s[i].min
  }

  /** What a search has established once the cursors stand at to and t: from up to to miss y, and t is passed. */
  ghost predicate Searched(s: seq<Interval>, from: nat, to: nat, y: seq<Interval>, t: nat) {
    from <= to <= |s| && (forall i :: from <= i < to ==> Misses(s[i], y)) && Passed(s, to, y, t)
  }

  lemma MissingIsDisjoint(s: seq<Interval>, y: seq<Interval>, x: int)
    requires forall i :: 0 <= i < |s| ==> Misses(s[i], y)
    ensures !(Covers(s, x) && Covers(y, x))
  {
    forall i | 0 <= i < |s| && s[i].Contains(x)
      ensures !Covers(y, x)
    {
      assert Misses(s[i], y);
      assert forall j :: 0 <= j < |y| ==> s[i].Intersects(y[j]) || !y[j].Contains(x);
    }
  }

  /** An interval that ends before y[t] begins and begins after y[t - 1] ends misses all of y. */
  lemma BetweenMisses(v: Interval, y: seq<Interval>, t: nat)
    requires Canonical(y) && t <= |y|
    requires forall j :: 0 <= j < t ==> y[j].max <= v.min
    requires t < |y| ==> v.max <= y[t].min
    ensures Misses(v, y)
  {
  }

  lemma AllMiss(s: seq<Interval>, m: nat, y: seq<Interval>, t: nat)
    requires Passed(s, m, y, t) && (t == |y| || m == |s|)
    ensures forall i :: m <= i < |s| ==> Misses(s[i], y)
  {
  }

  /** The set once the search has skipped the intervals at mine up to mine + skipped. */
  function WithoutHole(s: seq<Interval>, mine: nat, skipped: nat, erase: bool): seq<Interval>
    requires mine + skipped <= |s|
  {
    if erase then s[..mine] + s[mine + skipped..] else s
  }

  lemma SearchStarts(s: seq<Interval>, mine: nat, y: seq<Interval>, t: nat, erase: bool)
    requires mine <= |s| && Passed(s, mine, y, t)
    ensures Searched(s, mine, mine, y, t) && WithoutHole(s, mine, 0, erase) == s
  {
  }

  lemma WithoutHoleSuffix(s: seq<Interval>, mine: nat, skipped: nat, erase: bool, y: seq<Interval>, t: nat)
    requires Searched(s, mine, mine + skipped, y, t)
    ensures mine + skipped <= |s|
      && Passed(WithoutHole(s, mine, skipped, erase), if erase then mine else mine + skipped, y, t)
  {
  }

  lemma HoleGrows(s: seq<Interval>, mine: nat, skipped: nat, gone: nat, erase: bool, y: seq<Interval>, t0: nat, t: nat)
    requires mine + skipped <= |s| && Searched(s, mine, mine + skipped, y, t0) && t0 <= t
    requires
      var m := if erase then mine else mine + skipped;
      Searched(WithoutHole(s, mine, skipped, erase), m, m + gone, y, t)
    ensures Searched(s, mine, mine + skipped + gone, y, t)
    ensures
      var w := WithoutHole(s, mine, skipped, erase);
      var m := if erase then mine else mine + skipped;
      && |w| - m == |s| - mine - skipped && mine + skipped + gone <= |s|
      && WithoutHole(w, m, gone, erase) == WithoutHole(s, mine, skipped + gone, erase)
  {
    var w := WithoutHole(s, mine, skipped, erase);
    var m := if erase then mine else mine + skipped;
    assert w[m..] == s[mine + skipped..];
    forall i | mine + skipped <= i < |s|
      ensures s[i] == w[i + m - mine - skipped]
    {
      assert s[i] == s[mine + skipped..][i - mine - skipped] == w[m..][i - mine - skipped];
    }
  }

  lemma CutIsCanonical(s: seq<Interval>, from: nat, to: nat)
    requires Canonical(s) && from <= to <= |s|
    ensures Canonical(s[..from] + s[to..])
  {
  }

  lemma SkippedMiss(s: seq<Interval>, from: nat, to: nat, y: seq<Interval>, t: nat)
    requires Canonical(s) && Canonical(y) && from <= to <= |s| && t < |y| && Passed(s, from, y, t)
    requires forall i :: from <= i < to ==> s[i].max <= y[t].min
    ensures forall i :: from <= i < to ==> Misses(s[i], y)
    ensures Passed(s, to, y, t)
  {
    forall i | from <= i < to
      ensures Misses(s[i], y)
    {
      BetweenMisses(s[i], y, t);
    }
  }

  lemma StillPassed(s: seq<Interval>, m: nat, y: seq<Interval>, t0: nat, t: nat)
    requires Canonical(s) && m < |s| && t0 <= t <= |y| && Passed(s, m, y, t0)
    requires forall j :: t0 <= j < t ==> y[j].max <= s[m].min
    ensures Passed(s, m, y, t)
  {
    assert forall i :: m <= i < |s| ==> s[m].min <= s[i].min;
  }

  /** lo and hi are the parts of v below and above w. */
  ghost predicate IsCarving(v: Interval, w: Interval, lo: Interval, hi: Interval) {
    v.Intersects(w)
    && (lo.Empty() || lo == Interval(v.min, w.min)) && (hi.Empty() || hi == Interval(w.max, v.max))
    && forall x :: lo.Contains(x) || hi.Contains(x) <==> v.Contains(x) && !w.Contains(x)
  }

  /** What is left of cur[m] once y[t] is erased from it, in place of cur[m]. */
  function Carved(cur: seq<Interval>, m: nat, lo: Interval, hi: Interval): seq<Interval>
    requires m < |cur|
  {
    cur[..m] + (if lo.Empty() then [] else [lo]) + (if hi.Empty() then [] else [hi]) + cur[m + 1..]
  }

  lemma CarvedPoints(cur: seq<Interval>, m: nat, lo: Interval, hi: Interval, x: int)
    requires m < |cur|
    ensures Covers(Carved(cur, m, lo, hi), x) <==>
            Covers(cur[..m], x) || lo.Contains(x) || hi.Contains(x) || Covers(cur[m + 1..], x)
    ensures Covers(cur, x) <==> Covers(cur[..m], x) || cur[m].Contains(x) || Covers(cur[m + 1..], x)
  {
    var l := if lo.Empty() then [] else [lo];
    var h := if hi.Empty() then [] else [hi];
    CoversConcat(cur[..m] + l + h, cur[m + 1..], x);
    CoversConcat(cur[..m] + l, h, x);
    CoversConcat(cur[..m], l, x);
    CoversOne(lo, x);
    CoversOne(hi, x);
    assert cur == cur[..m] + [cur[m]] + cur[m + 1..];
    CoversConcat(cur[..m] + [cur[m]], cur[m + 1..], x);
    CoversConcat(cur[..m], [cur[m]], x);
    CoversOne(cur[m], x);
  }

  /** One step of Difference keeps the invariant of the set and settles everything left of the new cursor. */
  lemma CarvedIsCanonical(cur: seq<Interval>, m: nat, y: seq<Interval>, t: nat, lo: Interval, hi: Interval)
    requires Canonical(cur) && Canonical(y) && m < |cur| && t < |y| && IsCarving(cur[m], y[t], lo, hi)
    requires Passed(cur, m, y, t)
    ensures
      var c := Carved(cur, m, lo, hi);
      var m' := m + if lo.Empty() then 0 else 1;
      Canonical(c) && m' <= |c| && Passed(c, m', y, t) && c[..m] == cur[..m]
      && (!lo.Empty() ==> c[m] == lo && Misses(lo, y))
      && (hi.Empty() ==> |c| - m' == |cur| - m - 1)
      && (!hi.Empty() ==> |c| - m' == |cur| - m && c[m'] == hi && !hi.Intersects(y[t]))
  {
    hide Canonical;
    hide Carved;
    CarvedAt(cur, m, lo, hi);
    CarvedPiecesFit(cur, m, lo, hi);
    var c := Carved(cur, m, lo, hi);
    var m' := m + if lo.Empty() then 0 else 1;
    assert c[..m] == cur[..m];
    assert forall j :: 0 <= j < t ==> y[j].max <= cur[m].min;
    if !lo.Empty() {
      BetweenMisses(lo, y, t);
    }
    forall i, j | m' <= i < |c| && 0 <= j < t
      ensures y[j].max <= c[i].min
    {
      assert cur[m].min <= c[i].min;
    }
  }

  lemma CarvedAt(cur: seq<Interval>, m: nat, lo: Interval, hi: Interval)
    requires Canonical(cur) && m < |cur|
    requires hi.Empty() || (cur[m].min <= hi.min && hi.max <= cur[m].max)
    ensures
      var c := Carved(cur, m, lo, hi);
      var m' := m + if lo.Empty() then 0 else 1;
      |c| == |cur| - 1 + (if lo.Empty() then 0 else 1) + (if hi.Empty() then 0 else 1)
      && (forall i :: 0 <= i < m ==> c[i] == cur[i]) && (!lo.Empty() ==> c[m] == lo) && (!hi.Empty() ==> c[m'] == hi)
      && (forall i :: m' <= i < |c| ==> cur[m].min <= c[i].min)
  {
    hide Sorted;
    var c := Carved(cur, m, lo, hi);
    var shift := |c| - |cur|;
    assert forall i :: m + 1 + shift <= i < |c| ==> c[i] == cur[i - shift];
  }

  lemma CarvedPiecesFit(cur: seq<Interval>, m: nat, lo: Interval, hi: Interval)
    requires Canonical(cur) && m < |cur|
    requires lo.Empty() || hi.Empty() || lo.max < hi.min
    requires lo.Empty() || (cur[m].min <= lo.min && lo.max <= cur[m].max)
    requires hi.Empty() || (cur[m].min <= hi.min && hi.max <= cur[m].max)
    ensures Canonical(Carved(cur, m, lo, hi))
  {
    var mid := (if lo.Empty() then [] else [lo]) + (if hi.Empty() then [] else [hi]);
    assert Carved(cur, m, lo, hi) == cur[0..m] + mid + cur[m + 1..|cur|];
    SliceIsCanonical(cur, 0, m);
    SliceIsCanonical(cur, m + 1, |cur|);
    CanonicalConcat(cur[0..m], mid, cur[m + 1..|cur|], cur[m].min, cur[m].max);
  }

  /** The parts of v inside y[from], ..., y[to - 1]. */
  function Shared(v: Interval, y: seq<Interval>, from: nat, to: nat): (r: seq<Interval>)
    requires from <= to <= |y|
    ensures |r| == to - from
    ensures forall k :: 0 <= k < to - from ==> r[k] == v.Intersection(y[from + k])
  {
    seq(to - from, k requires 0 <= k < to - from => v.Intersection(y[from + k]))
  }

  lemma SharedPoints(v: Interval, y: seq<Interval>, from: nat, to: nat, x: int)
    requires from <= to <= |y|
    ensures Covers(Shared(v, y, from, to), x) <==> v.Contains(x) && Covers(y[from..to], x)
  {
    var r := Shared(v, y, from, to);
    if Covers(r, x) {
      var k :| 0 <= k < |r| && r[k].Contains(x);
      assert y[from..to][k].Contains(x);
    }
    if v.Contains(x) && Covers(y[from..to], x) {
      var k :| 0 <= k < |y[from..to]| && y[from..to][k].Contains(x);
      assert r[k].Contains(x);
    }
  }

  /** Outside y the set cur has the points of s, and it has no others. */
  ghost predicate SamePoint(cur: seq<Interval>, s: seq<Interval>, y: seq<Interval>, x: int) {
    (Covers(cur, x) ==> Covers(s, x)) && (Covers(s, x) && !Covers(y, x) ==> Covers(cur, x))
  }

  lemma ApartSpans(s: seq<Interval>, y: seq<Interval>)
    requires Canonical(s) && Canonical(y) && !Span(s).Intersects(Span(y))
    ensures forall x :: !(Covers(s, x) && Covers(y, x))
  {
  }

  lemma SpansMeet(s: seq<Interval>, y: seq<Interval>)
    requires Canonical(s) && Canonical(y) && Span(s).Intersects(Span(y))
    ensures s != [] && y != [] && (forall i :: 0 <= i < |s| ==> !s[i].Empty()) && !y[0].Empty()
  {
  }

  /** The search may start at the two candidates: what lies before them can meet nothing. */
  lemma CandidatesMissNothing(s: seq<Interval>, base: nat, mine: nat, y: seq<Interval>, theirs: nat)
    requires Canonical(s) && Canonical(y) && y != [] && base <= mine < |s| && theirs <= |y|
    requires forall i :: 0 <= i < mine ==> s[i].max < y[0].min
    requires forall j :: 0 <= j < theirs ==> y[j].max < s[base].min
    ensures Searched(s, base, mine, y, theirs)
    ensures forall i :: 0 <= i < mine ==> Misses(s[i], y)
  {
    FirstIsLeast(y);
  }

  lemma CarvedSamePoints(cur: seq<Interval>, s: seq<Interval>, m: nat, y: seq<Interval>, t: nat, lo: Interval,
        hi: Interval)
    requires m < |cur| && t < |y|
    requires forall x :: SamePoint(cur, s, y, x)
    requires forall x :: lo.Contains(x) || hi.Contains(x) <==> cur[m].Contains(x) && !y[t].Contains(x)
    ensures forall x :: SamePoint(Carved(cur, m, lo, hi), s, y, x)
  {
    forall x
      ensures SamePoint(Carved(cur, m, lo, hi), s, y, x)
    {
      assert SamePoint(cur, s, y, x);
      CarvedPoints(cur, m, lo, hi, x);
    }
  }

  /** cur without position m, then with lo in its place. */
  function HalfCarved(cur: seq<Interval>, m: nat, lo: Interval): seq<Interval>
    requires m < |cur|
  {
    var u := cur[..m] + cur[m + 1..];
    if lo.Empty() then u else Inserted(u, m, lo)
  }

  /** Erasing cur[m] and inserting lo, then hi, puts them exactly where cur[m] stood. */
  lemma CarvedStepByStep(cur: seq<Interval>, m: nat, lo: Interval, hi: Interval)
    requires Canonical(cur) && m < |cur|
    requires lo.Empty() || hi.Empty() || lo.max < hi.min
    requires lo.Empty() || (cur[m].min <= lo.min && lo.max <= cur[m].max)
    requires hi.Empty() || (cur[m].min <= hi.min && hi.max <= cur[m].max)
    ensures
      var u := cur[..m] + cur[m + 1..];
      Sorted(u) && (!lo.Empty() ==> lo !in u && LowerPos(u, lo) == m)
    ensures
      var w := HalfCarved(cur, m, lo);
      var m' := if lo.Empty() then m else m + 1;
      Sorted(w) && m' <= |w| && (!hi.Empty() ==> hi !in w && LowerPos(w, hi) == m')
      && (if hi.Empty() then w else Inserted(w, m', hi)) == Carved(cur, m, lo, hi)
  {
    hide Carved, Canonical, Sorted, HalfCarved, Inserted;
    CutBetween(cur, m);
    CarvedFromHalf(cur, m, lo, hi);
    HalfBetween(cur, m, lo);
    if !lo.Empty() {
      PlacedBetween(cur[..m] + cur[m + 1..], m, lo);
    }
    if !hi.Empty() {
      PlacedBetween(HalfCarved(cur, m, lo), if lo.Empty() then m else m + 1, hi);
    }
  }

  lemma CutBetween(cur: seq<Interval>, m: nat)
    requires Canonical(cur) && m < |cur|
    ensures
      var u := cur[..m] + cur[m + 1..];
      Canonical(u) && Sorted(u) && |u| == |cur| - 1
      && (forall i :: 0 <= i < m ==> u[i].max < cur[m].min) && (forall i :: m <= i < |u| ==> cur[m].max < u[i].min)
  {
    CutIsCanonical(cur, m, m + 1);
  }

  lemma HalfBetween(cur: seq<Interval>, m: nat, lo: Interval)
    requires Canonical(cur) && m < |cur|
    requires lo.Empty() || (cur[m].min <= lo.min && lo.max <= cur[m].max)
    ensures
      var w := HalfCarved(cur, m, lo);
      var m' := if lo.Empty() then m else m + 1;
      Canonical(w) && Sorted(w) && m' <= |w|
      && (forall i :: 0 <= i < m ==> w[i].max < cur[m].min) && (!lo.Empty() ==> w[m] == lo)
      && (forall i :: m' <= i < |w| ==> cur[m].max < w[i].min)
  {
    CutBetween(cur, m);
    var u := cur[..m] + cur[m + 1..];
    if !lo.Empty() {
      PlacedBetween(u, m, lo);
      InsertedAt(u, m, lo);
    }
  }

  lemma CarvedFromHalf(cur: seq<Interval>, m: nat, lo: Interval, hi: Interval)
    requires m < |cur|
    ensures
      var w := HalfCarved(cur, m, lo);
      var m' := if lo.Empty() then m else m + 1;
      m' <= |w| && (if hi.Empty() then w else Inserted(w, m', hi)) == Carved(cur, m, lo, hi)
  {
    var w := HalfCarved(cur, m, lo);
    var m' := if lo.Empty() then m else m + 1;
    assert w[..m'] == cur[..m] + (if lo.Empty() then [] else [lo]);
    assert w[m'..] == cur[m + 1..];
  }

  lemma PlacedBetween(u: seq<Interval>, m: nat, v: Interval)
    requires Canonical(u) && m <= |u| && !v.Empty()
    requires forall i :: 0 <= i < m ==> u[i].max < v.min
    requires forall i :: m <= i < |u| ==> v.max < u[i].min
    ensures v !in u && LowerPos(u, v) == m && Canonical(Inserted(u, m, v))
  {
    LowerPosAt(u, v, m);
    InsertedAt(u, m, v);
  }

  /** The loop invariant of Difference: what lies before m is settled, and outside y no point is lost or gained. */
  ghost predicate Subtracted(cur: seq<Interval>, s: seq<Interval>, m: nat, y: seq<Interval>, t: nat) {
    Searched(cur, 0, m, y, t) && forall x :: SamePoint(cur, s, y, x)
  }

  lemma SubtractedStarts(s: seq<Interval>, m: nat, y: seq<Interval>, t: nat)
    requires Searched(s, 0, m, y, t)
    ensures Subtracted(s, s, m, y, t) && Passed(s, m, y, t)
  {
  }

  lemma SubtractedAdvances(cur: seq<Interval>, s: seq<Interval>, m: nat, skipped: nat, y: seq<Interval>, t0: nat,
        t: nat)
    requires Subtracted(cur, s, m, y, t0) && Searched(cur, m, m + skipped, y, t)
    ensures m + skipped <= |cur| && Subtracted(cur, s, m + skipped, y, t)
    ensures WithoutHole(cur, m, skipped, false) == cur
  {
  }

  lemma SubtractedAll(cur: seq<Interval>, s: seq<Interval>, y: seq<Interval>, t: nat)
    requires Subtracted(cur, s, |cur|, y, t)
    ensures forall x :: Covers(cur, x) <==> Covers(s, x) && !Covers(y, x)
  {
    forall x
      ensures Covers(cur, x) <==> Covers(s, x) && !Covers(y, x)
    {
      assert SamePoint(cur, s, y, x);
      MissingIsDisjoint(cur, y, x);
    }
  }

  lemma SubtractedStep(cur: seq<Interval>, s: seq<Interval>, m: nat, y: seq<Interval>, t: nat, lo: Interval,
        hi: Interval)
    requires Canonical(cur) && Canonical(y) && Subtracted(cur, s, m, y, t)
    requires m < |cur| && t < |y| && IsCarving(cur[m], y[t], lo, hi)
    ensures
      var c := Carved(cur, m, lo, hi);
      var m' := m + if lo.Empty() then 0 else 1;
      Canonical(c) && Subtracted(c, s, m', y, t) && Passed(c, m', y, t) && m' <= |c|
      && (hi.Empty() ==> |c| - m' == |cur| - m - 1)
      && (!hi.Empty() ==> |c| - m' == |cur| - m && !c[m'].Intersects(y[t]))
  {
    var c := Carved(cur, m, lo, hi);
    CarvedIsCanonical(cur, m, y, t, lo, hi);
    CarvedSamePoints(cur, s, m, y, t, lo, hi);
    assert forall i :: 0 <= i < m ==> c[i] == c[..m][i] == cur[i];
  }

  /** cur with cur[m] replaced by its parts inside y[from], ..., y[to - 1]. */
  function WithShared(cur: seq<Interval>, m: nat, y: seq<Interval>, from: nat, to: nat): seq<Interval>
    requires m < |cur| && from <= to <= |y|
  {
    cur[..m] + Shared(cur[m], y, from, to) + cur[m + 1..]
  }

  lemma SharedNone(cur: seq<Interval>, m: nat, y: seq<Interval>, t: nat)
    requires m < |cur| && t <= |y|
    ensures WithShared(cur, m, y, t, t) == cur[..m] + cur[m + 1..]
  {
  }

  lemma SharedIsCanonical(cur: seq<Interval>, m: nat, y: seq<Interval>, from: nat, to: nat)
    requires Canonical(cur) && Canonical(y) && m < |cur| && from <= to <= |y|
    requires forall j :: from <= j < to ==> cur[m].Intersects(y[j])
    ensures Canonical(WithShared(cur, m, y, from, to)) && |WithShared(cur, m, y, from, to)| == |cur| - 1 + to - from
  {
    var r := Shared(cur[m], y, from, to);
    assert Canonical(r);
    SliceIsCanonical(cur, 0, m);
    SliceIsCanonical(cur, m + 1, |cur|);
    CanonicalConcat(cur[..m], r, cur[m + 1..], cur[m].min, cur[m].max);
  }

  /** The next shared part is new and belongs right after the ones already inserted. */
  lemma SharedStep(cur: seq<Interval>, m: nat, y: seq<Interval>, from: nat, t: nat)
    requires Canonical(cur) && Canonical(y) && m < |cur| && from <= t < |y|
    requires forall j :: from <= j <= t ==> cur[m].Intersects(y[j])
    ensures
      var w := WithShared(cur, m, y, from, t);
      var v := cur[m].Intersection(y[t]);
      Sorted(w) && v !in w && LowerPos(w, v) == m + t - from
      && Inserted(w, m + t - from, v) == WithShared(cur, m, y, from, t + 1)
      && |WithShared(cur, m, y, from, t + 1)| == |cur| + t - from
  {
    var w := WithShared(cur, m, y, from, t);
    var v := cur[m].Intersection(y[t]);
    var p := m + t - from;
    SharedIsCanonical(cur, m, y, from, t);
    forall i | 0 <= i < p
      ensures Less(w[i], v)
    {
      if i < m {
        assert w[i] == cur[i];
      } else {
        assert w[i] == cur[m].Intersection(y[from + i - m]);
      }
    }
    forall i | p <= i < |w|
      ensures Less(v, w[i])
    {
      assert w[i] == cur[i - p + m + 1];
    }
    LowerPosAt(w, v, p);
    assert Shared(cur[m], y, from, t + 1) == Shared(cur[m], y, from, t) + [v];
    assert w[..p] == cur[..m] + Shared(cur[m], y, from, t) && w[p..] == cur[m + 1..];
  }

  /** v meets y[from], ..., y[to - 1] and then no more. */
  ghost predicate MeetsExactly(v: Interval, y: seq<Interval>, from: nat, to: nat) {
    from < to <= |y| && (forall j :: from <= j < to ==> v.Intersects(y[j])) && (to < |y| ==> !v.Intersects(y[to]))
  }

  /** The loop invariant of Intersection: s[..k] is replaced by its exact share cur[..m], and s[k..] is to come. */
  ghost predicate Settled(cur: seq<Interval>, m: nat, s: seq<Interval>, k: nat, y: seq<Interval>, t: nat) {
    m <= |cur| && k <= |s| && cur[m..] == s[k..] && Passed(s, k, y, t)
    && forall x :: Covers(cur[..m], x) <==> Covers(s[..k], x) && Covers(y, x)
  }

  lemma NothingCovers()
    ensures Canonical([]) && forall x :: !Covers([], x)
  {
  }

  lemma SettledStarts(s: seq<Interval>, k: nat, y: seq<Interval>, t: nat)
    requires Canonical(s) && Canonical(y) && y != [] && k < |s| && t <= |y|
    requires forall i :: 0 <= i < k ==> s[i].max < y[0].min
    requires forall j :: 0 <= j < t ==> y[j].max < s[k].min
    ensures Settled(s[k..], 0, s, k, y, t) && Passed(s[k..], 0, y, t)
  {
    CandidatesMissNothing(s, k, k, y, t);
    SkippedShareNothing(s, 0, k, y);
  }

  lemma SettledAll(cur: seq<Interval>, m: nat, s: seq<Interval>, y: seq<Interval>, t: nat)
    requires Settled(cur, m, s, |s|, y, t)
    ensures forall x :: Covers(cur, x) <==> Covers(s, x) && Covers(y, x)
  {
    assert |cur[m..]| == 0 && cur[..m] == cur && s[..|s|] == s;
  }

  /** Replacing s[k] by all its shared parts settles it. */
  lemma SettledStep(cur: seq<Interval>, m: nat, s: seq<Interval>, k: nat, y: seq<Interval>, from: nat, to: nat)
    requires Canonical(s) && Canonical(y) && k < |s| && Settled(cur, m, s, k, y, from)
    requires m < |cur| && MeetsExactly(cur[m], y, from, to)
    ensures k < |s| && m + to - from <= |WithShared(cur, m, y, from, to)|
    ensures Settled(WithShared(cur, m, y, from, to), m + to - from, s, k + 1, y, to - 1)
    ensures Passed(WithShared(cur, m, y, from, to), m + to - from, y, to - 1)
  {
    var w := WithShared(cur, m, y, from, to);
    var r := Shared(cur[m], y, from, to);
    assert cur[m] == cur[m..][0] == s[k];
    assert cur[m + 1..] == cur[m..][1..] == s[k..][1..] == s[k + 1..];
    assert w[m + to - from..] == s[k + 1..] && w[..m + to - from] == cur[..m] + r;
    PassedBeyond(s, k, y, from, to);
    PassedSuffix(s, k + 1, w, m + to - from, y, to - 1);
    forall x
      ensures Covers(cur[..m] + r, x) <==> Covers(s[..k + 1], x) && Covers(y, x)
    {
      SharePoint(cur, m, s, k, y, from, to, x);
    }
  }

  lemma SharePoint(cur: seq<Interval>, m: nat, s: seq<Interval>, k: nat, y: seq<Interval>, from: nat, to: nat, x: int)
    requires Canonical(y) && k < |s| && Settled(cur, m, s, k, y, from)
    requires m < |cur| && cur[m] == s[k] && MeetsExactly(s[k], y, from, to)
    ensures Covers(cur[..m] + Shared(cur[m], y, from, to), x) <==> Covers(s[..k + 1], x) && Covers(y, x)
  {
    CoversConcat(cur[..m], Shared(cur[m], y, from, to), x);
    SharedPoints(s[k], y, from, to, x);
    assert s[..k + 1] == s[..k] + [s[k]];
    CoversConcat(s[..k], [s[k]], x);
    CoversOne(s[k], x);
    AllSharedInRange(s[k], y, from, to, x);
  }

  lemma PassedBeyond(s: seq<Interval>, k: nat, y: seq<Interval>, from: nat, to: nat)
    requires Canonical(s) && Canonical(y) && k < |s| && MeetsExactly(s[k], y, from, to)
    ensures Passed(s, k + 1, y, to - 1)
  {
    assert y[to - 1].min < s[k].max;
    assert forall j :: 0 <= j < to - 1 ==> y[j].max < y[to - 1].min;
    assert forall i :: k + 1 <= i < |s| ==> s[k].max < s[i].min;
  }

  lemma PassedSuffix(s: seq<Interval>, k: nat, w: seq<Interval>, m: nat, y: seq<Interval>, t: nat)
    requires k <= |s| && m <= |w| && w[m..] == s[k..] && Passed(s, k, y, t)
    ensures Passed(w, m, y, t)
  {
    forall i | m <= i < |w|
      ensures k <= i - m + k < |s| && w[i] == s[i - m + k]
    {
      assert |w| - m == |s| - k;
      assert w[i] == w[m..][i - m] == s[k..][i - m];
    }
  }

  lemma AllSharedInRange(v: Interval, y: seq<Interval>, from: nat, to: nat, x: int)
    requires Canonical(y) && from < to <= |y|
    requires forall j :: 0 <= j < from ==> y[j].max <= v.min
    requires v.Intersects(y[to - 1]) && (to < |y| ==> !v.Intersects(y[to]))
    ensures v.Contains(x) ==> (Covers(y, x) <==> Covers(y[from..to], x))
  {
    assert y == y[..from] + y[from..to] + y[to..];
    CoversConcat(y[..from] + y[from..to], y[to..], x);
    CoversConcat(y[..from], y[from..to], x);
  }

  /** A search over what is left of s from position k on, held at position m of the set being rewritten. */
  lemma SettledAdvances(s: seq<Interval>, k: nat, cur: seq<Interval>, m: nat, skipped: nat, y: seq<Interval>, t0: nat,
        t: nat)
    requires Settled(cur, m, s, k, y, t0) && Searched(cur, m, m + skipped, y, t)
    ensures k + skipped <= |s| && m + skipped <= |cur| && |cur| - m == |s| - k
    ensures Settled(WithoutHole(cur, m, skipped, true), m, s, k + skipped, y, t)
    ensures |WithoutHole(cur, m, skipped, true)| == |cur| - skipped
    ensures Passed(WithoutHole(cur, m, skipped, true), m, y, t)
  {
    hide Misses, Covers;
    assert |cur| - m == |s| - k;
    var after := WithoutHole(cur, m, skipped, true);
    assert after[..m] == cur[..m];
    assert after[m..] == cur[m + skipped..] == cur[m..][skipped..] == s[k..][skipped..] == s[k + skipped..];
    assert forall i :: k <= i < |s| ==> s[i] == s[k..][i - k] == cur[m..][i - k] == cur[i - k + m];
    PassedSuffix(cur, m + skipped, after, m, y, t);
    PassedSuffix(cur, m + skipped, s, k + skipped, y, t);
    SkippedShareNothing(s, k, k + skipped, y);
  }

  lemma SkippedShareNothing(s: seq<Interval>, k: nat, to: nat, y: seq<Interval>)
    requires k <= to <= |s|
    requires forall i :: k <= i < to ==> Misses(s[i], y)
    ensures forall x :: Covers(s[..to], x) && Covers(y, x) <==> Covers(s[..k], x) && Covers(y, x)
  {
    forall x
      ensures Covers(s[..to], x) && Covers(y, x) <==> Covers(s[..k], x) && Covers(y, x)
    {
      assert s[..to] == s[..k] + s[k..to];
      CoversConcat(s[..k], s[k..to], x);
      MissingIsDisjoint(s[k..to], y, x);
    }
  }

  lemma CanonicalNonEmpty(s: seq<Interval>)
    requires Canonical(s)
    ensures NonEmpty(s)
  {
  }

  lemma MemberCovers(s: seq<Interval>, v: Interval, x: int)
    requires v in s
    ensures v.Contains(x) ==> Covers(s, x)
  {
  }

  lemma WholeIsMerged(s: seq<Interval>)
    requires Sorted(s) && NonEmpty(s)
    ensures Canonical(Spliced(s, 0, |s|))
    ensures forall x :: Covers(Spliced(s, 0, |s|), x) <==> Covers(s, x)
  {
    assert s[0..|s|] == s && Spliced(s, 0, |s|) == Merged(s);
    if s != [] {
      MergedIsCanonical(s, MaxEnd(s));
    }
    forall x
      ensures Covers(Merged(s), x) <==> Covers(s, x)
    {
      MergedPoints(s, x);
    }
  }

  /** What Add and AddOptimizedForAppend make of the same set and interval is the same list. */
  lemma AppendIsAdd(s: seq<Interval>, v: Interval, added: seq<Interval>, appended: seq<Interval>)
    requires Canonical(added) && forall x :: Covers(added, x) <==> Covers(s, x) || v.Contains(x)
    requires Canonical(appended) && forall x :: Covers(appended, x) <==> Covers(s, x) || v.Contains(x)
    ensures added == appended
  {
    hide Covers, Canonical;
    CanonicalIsUnique(added, appended);
  }

  class IntervalSet {
    var intervals: seq<Interval>

    constructor ()
      ensures intervals == []
    {
      intervals := [];
    }

    // std::set::insert
    method Insert(v: Interval) returns (pos: nat, inserted: bool)
      requires Sorted(intervals)
      modifies this
      ensures pos == LowerPos(old(intervals), v)
      ensures inserted <==> v !in old(intervals)
      ensures intervals == if inserted then Inserted(old(intervals), pos, v) else old(intervals)
      ensures Sorted(intervals)
    {
      pos := LowerPos(intervals, v);
      inserted := pos == |intervals| || intervals[pos] != v;
      if inserted {
        assert v !in intervals;
        InsertedKeepsOrder(intervals, v);
        intervals := Inserted(intervals, pos, v);
      }
    }

    /** Replaces two neighbours that meet by their join; the new interval is never there already. */
    method MergeAt(prev: nat, ghost last: nat)
      requires Sorted(intervals) && NonEmpty(intervals) && prev + 1 < last <= |intervals|
      requires forall i :: 0 <= i < prev ==> intervals[i].min < intervals[prev].min
      requires intervals[prev].max >= intervals[prev + 1].min
      modifies this
      ensures Sorted(intervals) && intervals == MergedPair(old(intervals), prev)
    {
      hide Sorted, NonEmpty, Inserted, Spliced;
      JoinedStandsAtPrev(intervals, prev, last);
      var joined := Join(intervals[prev], intervals[prev + 1]);
      intervals := intervals[..prev] + intervals[prev + 2..];
      var pos, inserted := Insert(joined);
      assert inserted && pos == prev;
    }

    /** Removes overlaps and joins neighbours among the intervals at positions begin up to end. */
    method Compact(begin: nat, end: nat)
      requires Sorted(intervals) && NonEmpty(intervals) && begin <= end <= |intervals|
      requires forall i :: 0 <= i < begin < |intervals| ==> intervals[i].min < intervals[begin].min
      modifies this
      ensures intervals == Spliced(old(intervals), begin, end)
    {
      hide Sorted, NonEmpty, Spliced, MergedPair, Merged, Join;
      if begin == end {
        SplicedNone(intervals, begin);
        return;
      }
      var prev, it, last := begin, begin + 1, end;
      while it != last
        invariant 0 <= prev && it == prev + 1 <= last <= |intervals|
        invariant Sorted(intervals) && NonEmpty(intervals)
        invariant forall i :: 0 <= i < prev ==> intervals[i].min < intervals[prev].min
        invariant Spliced(intervals, prev, last) == Spliced(old(intervals), begin, end)
        decreases last - it
      {
        if intervals[prev].max >= intervals[it].min {
          JoinedStandsAtPrev(intervals, prev, last);
          MergeAt(prev, last);
          last := last - 1;
        } else {
          SortedMins(intervals, prev, it);
          MergedSkips(intervals, prev, last);
          prev, it := it, it + 1;
        }
      }
      SplicedOne(intervals, prev);
    }

    method Add(v: Interval)
      requires Canonical(intervals)
      modifies this
      ensures Canonical(intervals)
      ensures forall x :: Covers(intervals, x) <==> Covers(old(intervals), x) || v.Contains(x)
    {
      if v.Empty() {
        return;
      }
      ghost var s := intervals;
      CanonicalIsSorted(s);
      var pos, inserted := Insert(v);
      if !inserted {
        return;
      }
      var begin := if pos == 0 then 0 else pos - 1;
      var end := UpperPos(intervals, Interval(v.max, v.max));
      RunIsSeparated(s, v, intervals, pos, end);
      AddRestoresInvariant(s, v, intervals, pos, end);
      forall x
        ensures Covers(Spliced(intervals, begin, end), x) <==> Covers(s, x) || v.Contains(x)
      {
        AddPoints(s, v, intervals, pos, end, x);
      }
      Compact(begin, end);
    }

    /** Add, with a shortcut for an interval that starts inside or right after the last one. */
    method AddOptimizedForAppend(v: Interval)
      requires Canonical(intervals)
      modifies this
      ensures Canonical(intervals)
      ensures forall x :: Covers(intervals, x) <==> Covers(old(intervals), x) || v.Contains(x)
    {
      if intervals == [] {
        Add(v);
        return;
      }
      var n := |intervals| - 1;
      var last := intervals[n];
      if v.min < last.min || v.min > last.max {
        Add(v);
        return;
      }
      if v.max <= last.max {
        forall x | v.Contains(x) ensures Covers(intervals, x) {
          assert intervals[n].Contains(x);
        }
        return;
      }
      forall x ensures Covers(intervals[..n] + [last.(max := v.max)], x) <==> Covers(intervals, x) || v.Contains(x) {
        assert intervals == intervals[..n] + [last];
        CoversConcat(intervals[..n], [last], x);
        CoversConcat(intervals[..n], [last.(max := v.max)], x);
        CoversOne(last, x);
        CoversOne(last.(max := v.max), x);
      }
      intervals := intervals[..n] + [last.(max := v.max)];
    }

    /** Cuts off everything below value, and reports whether anything was cut off. */
    method TrimLessThan(value: int) returns (trimmed: bool)
      requires Canonical(intervals)
      modifies this
      ensures Canonical(intervals)
      ensures forall x :: Covers(intervals, x) <==> Covers(old(intervals), x) && x >= value
      ensures trimmed <==> exists x :: Covers(old(intervals), x) && x < value
    {
      var count := 0;
      ghost var s := intervals;
      while intervals != []
        invariant 0 <= count <= |s| && intervals == s[count..]
        invariant forall i :: 0 <= i < count ==> s[i].max <= value
        decreases |intervals|
      {
        if intervals[0].min >= value {
          break;
        }
        count := count + 1;
        if intervals[0].max <= value {
          intervals := intervals[1..];
          continue;
        }
        ghost var below := s[count - 1];
        assert below.Contains(below.min) && Covers(s, below.min);
        TrimmedPoints(s, count - 1, value);
        intervals := [intervals[0].(min := value)] + intervals[1..];
        assert intervals == [below.(min := value)] + s[count..];
        return true;
      }
      DroppedPoints(s, count, value);
      if count > 0 {
        assert s[0].Contains(s[0].min) && Covers(s, s[0].min);
      }
      return count != 0;
    }

    method Contains(value: int) returns (b: bool)
      requires Canonical(intervals)
      ensures b <==> Covers(intervals, value)
    {
      CanonicalIsSorted(intervals);
      var it := UpperPos(intervals, Interval(value, value));
      if it == 0 {
        return false;
      }
      return intervals[it - 1].Contains(value);
    }

    /** Whether one interval of the set includes v. */
    method ContainsInterval(v: Interval) returns (b: bool)
      requires Canonical(intervals)
      ensures b <==> !v.Empty() && forall x :: v.Contains(x) ==> Covers(intervals, x)
    {
      var it := FindInterval(v);
      return it != |intervals|;
    }

    method Find(value: int) returns (it: nat)
      requires Canonical(intervals)
      ensures it <= |intervals|
      ensures it < |intervals| ==> intervals[it].Contains(value)
      ensures it == |intervals| ==> !Covers(intervals, value)
    {
      CanonicalIsSorted(intervals);
      it := UpperPos(intervals, Interval(value, value));
      if it == 0 {
        return |intervals|;
      }
      it := it - 1;
      if !intervals[it].Contains(value) {
        return |intervals|;
      }
    }

    /** The position of the one interval that includes probe, found exactly when all points of probe are covered. */
    method FindInterval(probe: Interval) returns (it: nat)
      requires Canonical(intervals)
      ensures it <= |intervals|
      ensures it < |intervals| ==> intervals[it].Includes(probe)
      ensures it < |intervals| <==> !probe.Empty() && forall x :: probe.Contains(x) ==> Covers(intervals, x)
    {
      CanonicalIsSorted(intervals);
      IncludedIffCovered(intervals, probe);
      it := UpperPos(intervals, probe);
      if it == 0 {
        return |intervals|;
      }
      it := it - 1;
      if !intervals[it].Includes(probe) {
        return |intervals|;
      }
    }

    /** The first interval that contains value or lies after it. */
    method LowerBound(value: int) returns (it: nat)
      requires Canonical(intervals)
      ensures it <= |intervals|
      ensures forall i :: 0 <= i < it ==> intervals[i].max <= value
      ensures it < |intervals| ==> intervals[it].max > value
    {
      CanonicalIsSorted(intervals);
      it := LowerPos(intervals, Interval(value, value));
      if it == 0 {
        return;
      }
      it := it - 1;
      if !intervals[it].Contains(value) {
        it := it + 1;
      }
    }

    /** The first interval that starts after value. */
    method UpperBound(value: int) returns (it: nat)
      requires Canonical(intervals)
      ensures it <= |intervals|
      ensures forall i :: 0 <= i < it ==> intervals[i].min <= value
      ensures it < |intervals| ==> intervals[it].min > value
    {
      CanonicalIsSorted(intervals);
      it := UpperPos(intervals, Interval(value, value));
    }

    method IsDisjoint(v: Interval) returns (b: bool)
      requires Canonical(intervals)
      ensures b <==> forall x :: v.Contains(x) ==> !Covers(intervals, x)
    {
      CanonicalIsSorted(intervals);
      if v.Empty() {
        return true;
      }
      var it := UpperPos(intervals, Interval(v.min, v.min));
      if it != |intervals| && v.max > intervals[it].min {
        assert v.Contains(intervals[it].min) && intervals[it].Contains(intervals[it].min);
        return false;
      }
      if it == 0 {
        return true;
      }
      b := intervals[it - 1].max <= v.min;
      if !b {
        assert v.Contains(v.min) && intervals[it - 1].Contains(v.min);
      }
    }

    /** The integrity check decides the class invariant. */
    method Valid() returns (b: bool)
      ensures b <==> Canonical(intervals)
    {
      var prev := -1;
      for it := 0 to |intervals|
        invariant prev == it - 1
        invariant Canonical(intervals[..it])
      {
        if intervals[it].min >= intervals[it].max {
          return false;
        }
        if prev != -1 && intervals[prev].max >= intervals[it].min {
          return false;
        }
        prev := it;
      }
      assert intervals == intervals[..|intervals|];
      return true;
    }

    function SpanningInterval(): Interval
      reads this
    {
      Span(intervals)
    }

    /** The first interval that may intersect v: everything before it ends before v begins. */
    method FindIntersectionCandidate(v: Interval) returns (mine: nat)
      requires Canonical(intervals) && !v.Empty()
      ensures mine <= |intervals| && (intervals != [] ==> mine < |intervals|)
      ensures forall i :: 0 <= i < mine ==> intervals[i].max < v.min
    {
      CanonicalIsSorted(intervals);
      mine := UpperPos(intervals, v);
      if mine != 0 {
        mine := mine - 1;
        assert !Less(v, intervals[mine]);
      }
    }

    /**
     Advances both cursors to the next pair of intersecting intervals. The intervals skipped on this side miss
     the whole other set; with eraseHoles they are removed.
     */
    method FindNextIntersectingPair(y: IntervalSet, mine: nat, theirs: nat, eraseHoles: bool)
      returns (m: nat, t: nat, found: bool, ghost skipped: nat)
      requires y != this && Canonical(intervals) && Canonical(y.intervals)
      requires mine <= |intervals| && theirs <= |y.intervals| && Passed(intervals, mine, y.intervals, theirs)
      modifies this
      ensures m <= |intervals| && theirs <= t <= |y.intervals| && Canonical(intervals)
      ensures Searched(old(intervals), mine, mine + skipped, y.intervals, t)
      ensures intervals == WithoutHole(old(intervals), mine, skipped, eraseHoles && theirs != |y.intervals|)
      ensures if found then PairAt(m, y, t) && m == (if eraseHoles then mine else mine + skipped)
              else mine + skipped == |old(intervals)|
      ensures found && !old(PairAt(mine, y, theirs)) ==> theirs < skipped + t
      ensures eraseHoles ==> m == mine
    {
      if mine == |intervals| || theirs == |y.intervals| {
        AllMiss(intervals, mine, y.intervals, theirs);
        return mine, theirs, false, |intervals| - mine;
      }
      m, t, found, skipped := SearchPair(y, mine, theirs, eraseHoles);
    }

    /** Both cursors stand on an interval, and the two intersect. */
    predicate PairAt(m: nat, y: IntervalSet, t: nat)
      reads this, y
    {
      m < |intervals| && t < |y.intervals| && intervals[m].Intersects(y.intervals[t])
    }

    /** The search itself, once both cursors stand on an interval. */
    method SearchPair(y: IntervalSet, mine: nat, theirs: nat, eraseHoles: bool)
      returns (m: nat, t: nat, found: bool, ghost skipped: nat)
      requires y != this && Canonical(intervals) && Canonical(y.intervals)
      requires mine < |intervals| && theirs < |y.intervals| && Passed(intervals, mine, y.intervals, theirs)
      modifies this
      ensures m <= |intervals| && theirs <= t <= |y.intervals| && Canonical(intervals)
      ensures Searched(old(intervals), mine, mine + skipped, y.intervals, t)
      ensures intervals == WithoutHole(old(intervals), mine, skipped, eraseHoles)
      ensures if found then PairAt(m, y, t) && m == (if eraseHoles then mine else mine + skipped)
              else mine + skipped == |old(intervals)|
      ensures found && !old(PairAt(mine, y, theirs)) ==> theirs < skipped + t
      ensures eraseHoles ==> m == mine
    {
      hide Canonical, Passed, Searched, WithoutHole;
      m, t, skipped := mine, theirs, 0;
      SearchStarts(intervals, mine, y.intervals, theirs, eraseHoles);
      found := intervals[m].Intersects(y.intervals[t]);
      while !found
        invariant mine + skipped <= |old(intervals)| && theirs <= t <= |y.intervals| && 0 <= m <= |intervals|
        invariant m < |intervals| && t < |y.intervals| && Canonical(intervals)
        invariant m == if eraseHoles then mine else mine + skipped
        invariant intervals == WithoutHole(old(intervals), mine, skipped, eraseHoles)
        invariant Searched(old(intervals), mine, mine + skipped, y.intervals, t)
        invariant found == intervals[m].Intersects(y.intervals[t])
        invariant (skipped == 0 && t == theirs) || theirs < skipped + t
        decreases |old(intervals)| - skipped + |y.intervals| - t
      {
        ghost var gone;
        ghost var t0 := t;
        WithoutHoleSuffix(old(intervals), mine, skipped, eraseHoles, y.intervals, t);
        m, t, gone := SkipHole(y, m, t, eraseHoles);
        HoleGrows(old(intervals), mine, skipped, gone, eraseHoles, y.intervals, t0, t);
        skipped := skipped + gone;
        if m == |intervals| || t == |y.intervals| {
          return;
        }
        found := intervals[m].Intersects(y.intervals[t]);
      }
    }

    /** One round of the search: skip what does not reach the other cursor, first on this side, then on the other. */
    method SkipHole(y: IntervalSet, from: nat, theirs: nat, eraseHoles: bool)
      returns (m: nat, t: nat, ghost gone: nat)
      requires y != this && Canonical(intervals) && Canonical(y.intervals)
      requires from < |intervals| && theirs < |y.intervals| && Passed(intervals, from, y.intervals, theirs)
      requires !intervals[from].Intersects(y.intervals[theirs])
      modifies this
      ensures theirs <= t <= |y.intervals| && theirs < gone + t
      ensures Searched(old(intervals), from, from + gone, y.intervals, t)
      ensures intervals == WithoutHole(old(intervals), from, gone, eraseHoles)
      ensures m <= |intervals| && Canonical(intervals)
      ensures if m == |intervals| || t == |y.intervals| then from + gone == |old(intervals)|
              else m == if eraseHoles then from else from + gone
      ensures eraseHoles ==> m == from
    {
      ghost var s := intervals;
      m := SkipMine(y, from, theirs);
      SkippedMiss(s, from, m, y.intervals, theirs);
      t, gone := theirs, m - from;
      if eraseHoles {
        CutIsCanonical(s, from, m);
        intervals := intervals[..from] + intervals[m..];
        m := from;
      }
      if m == |intervals| {
        return;
      }
      assert intervals[m] == s[from + gone];
      t := SkipTheirs(y, m, t);
      StillPassed(s, from + gone, y.intervals, theirs, t);
      if t == |y.intervals| {
        AllMiss(s, from + gone, y.intervals, t);
        if eraseHoles {
          CutIsCanonical(s, from, |s|);
          intervals := intervals[..m];
        }
        gone := |s| - from;
      }
    }

    /** Steps over the intervals of this set that do not reach interval t of the other. */
    method SkipMine(y: IntervalSet, from: nat, t: nat) returns (m: nat)
      requires from <= |intervals| && t < |y.intervals|
      ensures from <= m <= |intervals|
      ensures forall i :: from <= i < m ==> intervals[i].max <= y.intervals[t].min
      ensures m < |intervals| ==> intervals[m].max > y.intervals[t].min
    {
      m := from;
      while m != |intervals| && intervals[m].max <= y.intervals[t].min
        invariant from <= m <= |intervals|
        invariant forall i :: from <= i < m ==> intervals[i].max <= y.intervals[t].min
        decreases |intervals| - m
      {
        m := m + 1;
      }
    }

    /** Steps over the intervals of the other set that do not reach interval m of this one. */
    method SkipTheirs(y: IntervalSet, m: nat, from: nat) returns (t: nat)
      requires from <= |y.intervals| && m < |intervals|
      ensures from <= t <= |y.intervals|
      ensures forall j :: from <= j < t ==> y.intervals[j].max <= intervals[m].min
      ensures t < |y.intervals| ==> y.intervals[t].max > intervals[m].min
    {
      t := from;
      while t != |y.intervals| && y.intervals[t].max <= intervals[m].min
        invariant from <= t <= |y.intervals|
        invariant forall j :: from <= j < t ==> y.intervals[j].max <= intervals[m].min
        decreases |y.intervals| - t
      {
        t := t + 1;
      }
    }

    /** Removes the points of the other set: exactly the difference is left. */
    method Difference(other: IntervalSet)
      requires other != this && Canonical(intervals) && Canonical(other.intervals)
      modifies this
      ensures Canonical(intervals)
      ensures forall x :: Covers(intervals, x) <==> Covers(old(intervals), x) && !Covers(other.intervals, x)
    {
      hide Canonical, Passed, Searched, Subtracted, SamePoint, Carved, IsCarving, WithoutHole, Covers;
      ghost var s, y := intervals, other.intervals;
      if !SpanningInterval().Intersects(other.SpanningInterval()) {
        ApartSpans(s, y);
        return;
      }
      SpansMeet(s, y);
      var mine := FindIntersectionCandidate(other.intervals[0]);
      if mine == |intervals| {
        return;
      }
      var theirs := other.FindIntersectionCandidate(intervals[0]);
      CandidatesMissNothing(s, 0, mine, y, theirs);
      SubtractedStarts(s, mine, y, theirs);
      var found;
      ghost var skipped;
      ghost var m, t := mine, theirs;
      mine, theirs, found, skipped := FindNextIntersectingPair(other, mine, theirs, false);
      SubtractedAdvances(s, s, m, skipped, y, t, theirs);
      m := m + skipped;
      while found
        invariant Canonical(intervals) && Subtracted(intervals, s, m, y, theirs)
        invariant if found then m == mine && PairAt(mine, other, theirs) else m == |intervals|
        decreases if found then |intervals| - m + |y| - theirs + 1 else 0
      {
        ghost var cur := intervals;
        ghost var lo, hi;
        mine, lo, hi := CarveOut(other, mine, theirs);
        SubtractedStep(cur, s, m, y, theirs, lo, hi);
        m, t, cur := mine, theirs, intervals;
        mine, theirs, found, skipped := FindNextIntersectingPair(other, mine, theirs, false);
        SubtractedAdvances(cur, s, m, skipped, y, t, theirs);
        m := m + skipped;
      }
      SubtractedAll(intervals, s, y, theirs);
    }

    /** Replaces the interval under the cursor by what the other cursor leaves of it, and moves on to the right part. */
    method CarveOut(other: IntervalSet, mine: nat, theirs: nat)
      returns (m: nat, ghost lo: Interval, ghost hi: Interval)
      requires other != this && Canonical(intervals) && PairAt(mine, other, theirs)
      modifies this
      ensures IsCarving(old(intervals)[mine], other.intervals[theirs], lo, hi)
      ensures intervals == Carved(old(intervals), mine, lo, hi)
      ensures m == if lo.Empty() then mine else mine + 1
    {
      m := mine;
      ghost var cur := intervals;
      var i := intervals[m];
      var low, high, met := Intervals.Difference(i, other.intervals[theirs]);
      lo, hi := low, high;
      CarvedStepByStep(cur, m, lo, hi);
      intervals := intervals[..m] + intervals[m + 1..];
      if !low.Empty() {
        var at, inserted := Insert(low);
        assert inserted && at == m;
        m := m + 1;
      }
      if !high.Empty() {
        var at, inserted := Insert(high);
        assert inserted && at == m;
      }
    }

    /** Keeps the points that are in the other set as well: exactly the intersection is left. */
    method Intersection(other: IntervalSet)
      requires other != this && Canonical(intervals) && Canonical(other.intervals)
      modifies this
      ensures Canonical(intervals)
      ensures forall x :: Covers(intervals, x) <==> Covers(old(intervals), x) && Covers(other.intervals, x)
    {
      hide Canonical, Passed, Searched, Settled, WithShared, WithoutHole, Covers, Shared;
      ghost var s, y := intervals, other.intervals;
      if !SpanningInterval().Intersects(other.SpanningInterval()) {
        ApartSpans(s, y);
        intervals := [];
        NothingCovers();
        return;
      }
      SpansMeet(s, y);
      var mine := FindIntersectionCandidate(other.intervals[0]);
      ghost var k: nat := mine;
      SliceIsCanonical(s, k, |s|);
      intervals := intervals[mine..];
      assert intervals == s[k..|s|];
      mine := 0;
      var theirs := other.FindIntersectionCandidate(intervals[0]);
      SettledStarts(s, k, y, theirs);
      var found;
      ghost var skipped, before, m, t := 0, intervals, mine, theirs;
      mine, theirs, found, skipped := FindNextIntersectingPair(other, mine, theirs, true);
      SettledAdvances(s, k, before, m, skipped, y, t, theirs);
      k := k + skipped;
      while found
        invariant 0 <= mine <= |intervals| && 0 <= theirs && Canonical(intervals)
          && Settled(intervals, mine, s, k, y, theirs)
        invariant if found then PairAt(mine, other, theirs) && k < |s| else k == |s|
        decreases |s| - k
      {
        mine, theirs, found, k := ShareAndSearch(other, mine, theirs, s, k);
      }
      SettledAll(intervals, mine, s, y, theirs);
    }

    /** One round of the loop: the interval under the cursor is settled, and the next pair is looked for. */
    method ShareAndSearch(other: IntervalSet, mine: nat, theirs: nat, ghost s: seq<Interval>, ghost k: nat)
      returns (m: nat, t: nat, found: bool, ghost later: nat)
      requires other != this && Canonical(intervals) && Canonical(other.intervals) && PairAt(mine, other, theirs)
      requires Canonical(s) && k < |s| && Settled(intervals, mine, s, k, other.intervals, theirs)
      modifies this
      ensures m <= |intervals| && Canonical(intervals) && Settled(intervals, m, s, later, other.intervals, t)
        && k < later
      ensures if found then PairAt(m, other, t) && later < |s| else later == |s|
    {
      hide Canonical, Passed, Searched, Settled, WithShared, WithoutHole, Covers, Shared;
      ghost var before, y := intervals, other.intervals;
      m, t := ShareOut(other, mine, theirs);
      assert intervals == WithShared(before, mine, y, theirs, t + 1) && t < |y|;
      SettledStep(before, mine, s, k, y, theirs, t + 1);
      assert Settled(intervals, m, s, k + 1, y, t);
      ghost var shared, at, from, skipped := intervals, m, t, 0;
      m, t, found, skipped := FindNextIntersectingPair(other, m, t, true);
      SettledAdvances(s, k + 1, shared, at, skipped, y, from, t);
      later := k + 1 + skipped;
    }

    /** Replaces the interval under the cursor by its parts in all the intervals of the other set that it meets. */
    method ShareOut(other: IntervalSet, mine: nat, theirs: nat) returns (m: nat, t: nat)
      requires other != this && Canonical(intervals) && Canonical(other.intervals) && PairAt(mine, other, theirs)
      modifies this
      ensures theirs <= t && MeetsExactly(old(intervals)[mine], other.intervals, theirs, t + 1)
      ensures intervals == WithShared(old(intervals), mine, other.intervals, theirs, t + 1)
      ensures m == mine + t + 1 - theirs <= |intervals| && Canonical(intervals)
    {
      hide Canonical, Covers, Sorted, Shared, WithShared, Inserted;
      ghost var cur, y := intervals, other.intervals;
      t := theirs;
      var i := intervals[mine];
      SharedNone(cur, mine, y, t);
      intervals := intervals[..mine] + intervals[mine + 1..];
      m := |intervals|;
      while t != |other.intervals| && i.Intersects(other.intervals[t])
        invariant theirs <= t <= |y|
        invariant forall j :: theirs <= j < t ==> i.Intersects(y[j])
        invariant intervals == WithShared(cur, mine, y, theirs, t)
        invariant theirs < t ==> m == mine + t - theirs - 1
        decreases |y| - t
      {
        SharedStep(cur, mine, y, theirs, t);
        var at, inserted := Insert(i.Intersection(other.intervals[t]));
        assert inserted;
        m := at;
        t := t + 1;
      }
      SharedIsCanonical(cur, mine, y, theirs, t);
      assert m != |intervals|;
      t := t - 1;
      m := m + 1;
    }

    /** Adds all the points of the other set: first all its intervals, then one compaction of the whole. */
    method Union(other: IntervalSet)
      requires Canonical(intervals) && Canonical(other.intervals)
      modifies this
      ensures Canonical(intervals)
      ensures forall x :: Covers(intervals, x) <==> Covers(old(intervals), x) || Covers(old(other.intervals), x)
    {
      hide Sorted, Covers, Merged, Canonical;
      var s, y := intervals, other.intervals;
      CanonicalIsSorted(s);
      CanonicalNonEmpty(s);
      CanonicalNonEmpty(y);
      assert y[..0] == [];
      NothingCovers();
      for k := 0 to |y|
        invariant Sorted(intervals) && NonEmpty(intervals)
        invariant forall x :: Covers(intervals, x) <==> Covers(s, x) || Covers(y[..k], x)
      {
        ghost var before := intervals;
        var at, inserted := Insert(y[k]);
        if inserted {
          InsertedAt(before, at, y[k]);
        }
        forall x
          ensures Covers(intervals, x) <==> Covers(s, x) || Covers(y[..k + 1], x)
        {
          assert y[..k + 1] == y[..k] + [y[k]];
          CoversConcat(y[..k], [y[k]], x);
          CoversOne(y[k], x);
          if inserted {
            InsertedPoints(before, at, y[k], x);
          } else {
            MemberCovers(before, y[k], x);
          }
        }
      }
      assert y[..|y|] == y;
      ghost var all := intervals;
      Compact(0, |intervals|);
      WholeIsMerged(all);
    }

    /** The points of [min, max) outside the set. */
    method Complement(min: int, max: int)
      requires Canonical(intervals)
      modifies this
      ensures Canonical(intervals)
      ensures forall x :: Covers(intervals, x) <==> min <= x < max && !Covers(old(intervals), x)
    {
      hide Covers;
      var span := new IntervalSet();
      NothingCovers();
      span.Add(Interval(min, max));
      span.Difference(this);
      intervals := span.intervals;
    }
  }
}
