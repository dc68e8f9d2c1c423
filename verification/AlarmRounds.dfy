/** Alarms of the event loop; base/simple_epoll_server.cc:443-473, :728-771. */
module AlarmRounds {

  /** An entry of the multimap from deadlines to callbacks. */
  datatype Alarm = Alarm(time: int, cb: nat)

  ghost predicate Sorted(m: seq<Alarm>) {
    forall i, j :: 0 <= i < j < |m| ==> m[i].time <= m[j].time
  }

  ghost predicate Distinct(m: seq<Alarm>) {
    forall i, j :: 0 <= i < j < |m| ==> m[i].cb != m[j].cb
  }

  function Callbacks(m: seq<Alarm>): set<nat> {
    set a | a in m :: a.cb
  }

  /** The position behind all entries that are not later than t. */
  function UpperBound(m: seq<Alarm>, t: int): (p: nat)
    ensures p <= |m|
    ensures forall i :: 0 <= i < p ==> m[i].time <= t
    ensures p < |m| ==> m[p].time > t
  {
    if m == [] || m[0].time > t then 0 else 1 + UpperBound(m[1..], t)
  }

  /** A multimap inserts behind the entries with the same key. */
  function Insert(m: seq<Alarm>, a: Alarm): (r: seq<Alarm>)
    ensures |r| == |m| + 1
  {
    var p := UpperBound(m, a.time);
    m[..p] + [a] + m[p..]
  }

  function Remove(m: seq<Alarm>, i: nat): (r: seq<Alarm>)
    requires i < |m|
    ensures |r| == |m| - 1
  {
    m[..i] + m[i + 1..]
  }

  lemma CallbacksOfParts(m: seq<Alarm>, n: seq<Alarm>)
    ensures Callbacks(m + n) == Callbacks(m) + Callbacks(n)
  {
    assert forall x :: x in m + n <==> x in m || x in n;
  }

  lemma InsertIsSorted(m: seq<Alarm>, a: Alarm)
    requires Sorted(m)
    ensures Sorted(Insert(m, a))
  {
    var p, r := UpperBound(m, a.time), Insert(m, a);
    assert forall i :: 0 <= i < |r| ==> r[i] == if i < p then m[i] else if i == p then a else m[i - 1];
  }

  lemma InsertIsDistinct(m: seq<Alarm>, a: Alarm)
    requires Distinct(m) && a.cb !in Callbacks(m)
    ensures Distinct(Insert(m, a))
  {
    hide UpperBound;
    var p, r := UpperBound(m, a.time), Insert(m, a);
    forall i, j | 0 <= i < j < |r|
      ensures r[i].cb != r[j].cb
    {
      var x, y := if i < p then i else i - 1, if j < p then j else j - 1;
      assert i != p ==> r[i] == m[x] && m[x].cb in Callbacks(m);
      assert j != p ==> r[j] == m[y] && m[y].cb in Callbacks(m);
    }
  }

  lemma InsertAddsCallback(m: seq<Alarm>, a: Alarm)
    ensures Callbacks(Insert(m, a)) == Callbacks(m) + {a.cb}
  {
    var p := UpperBound(m, a.time);
    assert m == m[..p] + m[p..];
    CallbacksOfParts(m[..p], m[p..]);
    CallbacksOfParts(m[..p] + [a], m[p..]);
    CallbacksOfParts(m[..p], [a]);
    assert Callbacks([a]) == {a.cb};
  }

  lemma RemoveKeepsOrder(m: seq<Alarm>, i: nat)
    requires Sorted(m) && Distinct(m) && i < |m|
    ensures Sorted(Remove(m, i)) && Distinct(Remove(m, i)) && Callbacks(Remove(m, i)) == Callbacks(m) - {m[i].cb}
  {
    hide Callbacks;
    var r := Remove(m, i);
    assert forall k :: 0 <= k < |r| ==> r[k] == m[if k < i then k else k + 1];
    RemoveTakesCallback(m, i);
  }

  lemma RemoveTakesCallback(m: seq<Alarm>, i: nat)
    requires Distinct(m) && i < |m|
    ensures Callbacks(Remove(m, i)) == Callbacks(m) - {m[i].cb}
  {
    hide Distinct;
    var low, high, c := m[..i], m[i + 1..], m[i].cb;
    OthersAround(m, i, {});
    assert m == low + [m[i]] + high;
    CallbacksOfParts(low + [m[i]], high);
    CallbacksOfParts(low, [m[i]]);
    CallbacksOfParts(low, high);
    assert Callbacks([m[i]]) == {c};
  }

  // ---------- parts of the map ----------

  /** The entries whose callbacks are in a set, in order. */
  function Only(m: seq<Alarm>, cbs: set<nat>): seq<Alarm> {
    if m == [] then [] else (if m[0].cb in cbs then [m[0]] else []) + Only(m[1..], cbs)
  }

  /** The entries whose callbacks are not in a set, in order. */
  function Except(m: seq<Alarm>, cbs: set<nat>): seq<Alarm> {
    if m == [] then [] else (if m[0].cb in cbs then [] else [m[0]]) + Except(m[1..], cbs)
  }

  lemma {:induction false} OnlyOfParts(m: seq<Alarm>, n: seq<Alarm>, cbs: set<nat>)
    ensures Only(m + n, cbs) == Only(m, cbs) + Only(n, cbs)
    ensures Except(m + n, cbs) == Except(m, cbs) + Except(n, cbs)
  {
    if m == [] {
      assert m + n == n && [] + Only(n, cbs) == Only(n, cbs) && [] + Except(n, cbs) == Except(n, cbs);
    } else {
      var first := [m[0]];
      assert (m + n)[1..] == m[1..] + n && (m + n)[0] == m[0];
      OnlyOfParts(m[1..], n, cbs);
      if m[0].cb in cbs {
        Associates(first, Only(m[1..], cbs), Only(n, cbs));
        Associates([], Except(m[1..], cbs), Except(n, cbs));
      } else {
        Associates(first, Except(m[1..], cbs), Except(n, cbs));
        Associates([], Only(m[1..], cbs), Only(n, cbs));
      }
    }
  }

  lemma Associates(a: seq<Alarm>, b: seq<Alarm>, c: seq<Alarm>)
    ensures a + (b + c) == a + b + c
  {
  }

  lemma {:induction false} AllOrNone(m: seq<Alarm>, cbs: set<nat>)
    ensures Callbacks(m) <= cbs ==> Only(m, cbs) == m && Except(m, cbs) == []
    ensures Callbacks(m) !! cbs ==> Only(m, cbs) == [] && Except(m, cbs) == m
  {
    if m != [] {
      AllOrNone(m[1..], cbs);
      assert m[0].cb in Callbacks(m) && Callbacks(m[1..]) <= Callbacks(m);
    }
  }

  lemma {:induction false} SameOnCallbacks(m: seq<Alarm>, cbs: set<nat>, cbs': set<nat>)
    requires Callbacks(m) * cbs == Callbacks(m) * cbs'
    ensures Only(m, cbs) == Only(m, cbs') && Except(m, cbs) == Except(m, cbs')
  {
    if m != [] {
      var all, later := Callbacks(m), Callbacks(m[1..]);
      assert later <= all && m[0].cb in all;
      assert later * cbs == later * (all * cbs) == later * (all * cbs') == later * cbs';
      assert m[0].cb in all * cbs <==> m[0].cb in all * cbs';
      SameOnCallbacks(m[1..], cbs, cbs');
    }
  }

  lemma AroundOne(low: seq<Alarm>, a: Alarm, high: seq<Alarm>, cbs: set<nat>)
    ensures Only(low + [a] + high, cbs) == Only(low, cbs) + (if a.cb in cbs then [a] else []) + Only(high, cbs)
    ensures Except(low + [a] + high, cbs) == Except(low, cbs) + (if a.cb in cbs then [] else [a]) + Except(high, cbs)
  {
    hide Only, Except;
    OnlyOfParts(low + [a], high, cbs);
    OnlyOfParts(low, [a], cbs);
    OfOne(a, cbs);
  }

  lemma OfOne(a: Alarm, cbs: set<nat>)
    ensures Only([a], cbs) == (if a.cb in cbs then [a] else []) && Except([a], cbs) == (if a.cb in cbs then [] else [a])
  {
    assert [a][1..] == [];
  }

  /** Re-arming a callback that is not in the set leaves the part in the set alone and is an insertion into the rest. */
  lemma InsertIntoParts(m: seq<Alarm>, a: Alarm, cbs: set<nat>)
    requires Sorted(m) && a.cb !in cbs
    ensures Only(Insert(m, a), cbs) == Only(m, cbs) && Except(Insert(m, a), cbs) == Insert(Except(m, cbs), a)
  {
    hide Only, Except, UpperBound;
    var p := UpperBound(m, a.time);
    var low, high := m[..p], m[p..];
    assert m == low + high;
    OnlyOfParts(low, high, cbs);
    AroundOne(low, a, high, cbs);
    assert forall x :: x in high ==> x.time > a.time;
    PartOf(low, cbs);
    PartOf(high, cbs);
    InsertBetween(Except(low, cbs), Except(high, cbs), a);
    assert Only(low, cbs) + [] == Only(low, cbs);
  }

  lemma {:induction false} PartOf(m: seq<Alarm>, cbs: set<nat>)
    ensures forall x :: x in Except(m, cbs) ==> x in m
    ensures forall x :: x in Only(m, cbs) ==> x in m
  {
    if m != [] {
      PartOf(m[1..], cbs);
    }
  }

  lemma InsertBetween(low: seq<Alarm>, high: seq<Alarm>, a: Alarm)
    requires forall x :: x in low ==> x.time <= a.time
    requires forall x :: x in high ==> x.time > a.time
    ensures Insert(low + high, a) == low + [a] + high
  {
    var m := low + high;
    assert forall i :: 0 <= i < |low| ==> m[i] == low[i] && low[i] in low;
    assert |low| < |m| ==> m[|low|] == high[0] && high[0] in high;
    UpperBoundIs(m, a.time, |low|);
    assert m[..|low|] == low && m[|low|..] == high;
  }

  lemma {:induction false} UpperBoundIs(m: seq<Alarm>, t: int, p: nat)
    requires p <= |m| && (forall i :: 0 <= i < p ==> m[i].time <= t) && (p < |m| ==> m[p].time > t)
    ensures UpperBound(m, t) == p
  {
    if p > 0 {
      UpperBoundIs(m[1..], t, p - 1);
    }
  }

  /** Taking out the first entry of the set. */
  lemma RemoveFromParts(m: seq<Alarm>, i: nat, cbs: set<nat>)
    requires Distinct(m) && i < |m| && m[i].cb in cbs
    requires forall j :: 0 <= j < i ==> m[j].cb !in cbs
    ensures Only(m, cbs) == [m[i]] + Only(Remove(m, i), cbs - {m[i].cb})
    ensures Except(Remove(m, i), cbs - {m[i].cb}) == Except(m, cbs)
  {
    hide Only, Except;
    var low, high, c := m[..i], m[i + 1..], m[i].cb;
    assert m == low + [m[i]] + high;
    AroundOne(low, m[i], high, cbs);
    OnlyOfParts(low, high, cbs - {c});
    OthersAround(m, i, cbs);
    AllOrNone(low, cbs);
    SameOnCallbacks(low, cbs, cbs - {c});
    SameOnCallbacks(high, cbs, cbs - {c});
    assert [] + [m[i]] == [m[i]];
    assert Except(low, cbs) + [] == Except(low, cbs);
  }

  lemma OthersAround(m: seq<Alarm>, i: nat, cbs: set<nat>)
    requires Distinct(m) && i < |m|
    requires forall j :: 0 <= j < i ==> m[j].cb !in cbs
    ensures m[i].cb !in Callbacks(m[..i]) && m[i].cb !in Callbacks(m[i + 1..]) && Callbacks(m[..i]) !! cbs
  {
  }

  // ---------- rounds ----------

  /** What is due is the start of the map. */
  function Due(m: seq<Alarm>, now: int): (due: seq<Alarm>)
    ensures |due| <= |m|
  {
    m[..UpperBound(m, now)]
  }

  /** The fired callbacks come back, one after the other, at the positive times they ask for. */
  function Rearmed(m: seq<Alarm>, fired: seq<Alarm>, next: nat -> int): seq<Alarm>
    decreases |fired|
  {
    if fired == [] then m
    else
      var a := fired[0];
      Rearmed(if next(a.cb) > 0 then Insert(m, Alarm(next(a.cb), a.cb)) else m, fired[1..], next)
  }

  /**
   In the middle of a round: todo is what is still to be called, left its callbacks; nothing of it lies before the
   iterator, and any other entry that is due has been re-armed in this round.
   */
  ghost predicate InRound(m: seq<Alarm>, i: nat, now: int, todo: seq<Alarm>, left: set<nat>, skipped: set<nat>) {
    && i <= |m|
    && left == Callbacks(todo) && Only(m, left) == todo && left !! skipped
    && (forall a :: a in todo ==> a.time <= now)
    && (forall j :: 0 <= j < i ==> m[j].cb !in left)
    && (forall a :: a in m && a.time <= now ==> a.cb in left || a.cb in skipped)
  }

  lemma StartOfRound(m: seq<Alarm>, now: int)
    requires Sorted(m) && Distinct(m)
    ensures
      var due := Due(m, now);
      InRound(m, 0, now, due, Callbacks(due), {}) && Except(m, Callbacks(due)) == m[|due|..]
  {
    hide Only, Except, UpperBound, Distinct, Sorted, Due;
    DueIsFirst(m, now);
    DueParts(m, now);
  }

  lemma DueParts(m: seq<Alarm>, now: int)
    requires Distinct(m)
    ensures
      var due := Due(m, now);
      Only(m, Callbacks(due)) == due && Except(m, Callbacks(due)) == m[|due|..]
  {
    hide Only, Except, UpperBound, Distinct, Callbacks;
    var due, rest := Due(m, now), m[|Due(m, now)|..];
    assert m == due + rest;
    OnlyOfParts(due, rest, Callbacks(due));
    AllOrNone(due, Callbacks(due));
    DistinctParts(due, rest);
    AllOrNone(rest, Callbacks(due));
    assert due + [] == due && [] + rest == rest;
  }

  lemma DistinctParts(low: seq<Alarm>, high: seq<Alarm>)
    requires Distinct(low + high)
    ensures Callbacks(low) !! Callbacks(high)
  {
    var m := low + high;
    forall i, j | 0 <= i < |low| && 0 <= j < |high|
      ensures low[i].cb != high[j].cb
    {
      assert m[i] == low[i] && m[|low| + j] == high[j];
    }
  }

  /** Exactly the entries that have expired are due. */
  lemma DueIsFirst(m: seq<Alarm>, now: int)
    requires Sorted(m)
    ensures forall a :: a in m ==> (a.time <= now <==> a in Due(m, now))
    ensures forall a :: a in Due(m, now) ==> a in m && a.cb in Callbacks(Due(m, now))
  {
    hide UpperBound;
    var d := UpperBound(m, now);
    forall i | 0 <= i < |m|
      ensures m[i].time <= now ==> i < d && m[..d][i] == m[i]
      ensures i < d ==> m[i].time <= now
    {
      assert d <= i ==> m[d].time <= m[i].time;
    }
  }

  lemma StepOver(m: seq<Alarm>, i: nat, now: int, todo: seq<Alarm>, left: set<nat>, skipped: set<nat>)
    requires InRound(m, i, now, todo, left, skipped) && i < |m| && m[i].cb in skipped
    ensures InRound(m, i + 1, now, todo, left, skipped)
  {
  }

  /** The callback of an entry that was taken out is not among those left. */
  lemma TakenIsGone(m: seq<Alarm>, i: nat, todo: seq<Alarm>, left: set<nat>)
    requires Distinct(m) && i < |m| && left == Callbacks(todo) && todo != [] && todo[0] == m[i]
    requires todo[1..] == Only(Remove(m, i), left - {m[i].cb})
    ensures Callbacks(todo[1..]) == left - {m[i].cb}
  {
    hide Only, Except, Callbacks;
    var c, r := m[i].cb, Remove(m, i);
    PartOf(r, left - {c});
    OthersAround(m, i, {});
    CallbacksOfParts(m[..i], m[i + 1..]);
    CallbacksOfParts([m[i]], todo[1..]);
    assert todo == [m[i]] + todo[1..];
    CallbackOfOne(m[i]);
    CallbacksOfPart(todo[1..], r);
  }

  lemma CallbackOfOne(a: Alarm)
    ensures Callbacks([a]) == {a.cb}
  {
  }

  lemma CallbacksOfPart(n: seq<Alarm>, m: seq<Alarm>)
    requires forall a :: a in n ==> a in m
    ensures Callbacks(n) <= Callbacks(m)
  {
  }

  lemma RemoveHolds(m: seq<Alarm>, i: nat)
    requires i < |m|
    ensures forall a :: a in Remove(m, i) ==> a in m
    ensures forall j :: 0 <= j < i ==> Remove(m, i)[j] == m[j]
  {
  }

  lemma NextIsFirst(m: seq<Alarm>, i: nat, now: int, todo: seq<Alarm>, left: set<nat>, skipped: set<nat>)
    requires InRound(m, i, now, todo, left, skipped) && Distinct(m)
    requires i < |m| && m[i].time <= now && m[i].cb !in skipped
    ensures todo != [] && todo[0] == m[i] && m[i].cb in left
    ensures todo[1..] == Only(Remove(m, i), left - {m[i].cb})
    ensures Except(Remove(m, i), left - {m[i].cb}) == Except(m, left)
  {
    hide Only, Except, Callbacks;
    assert m[i] in m;
    RemoveFromParts(m, i, left);
  }

  /** A due entry that was not re-armed in this round is the next one to be called. */
  lemma NextIsDue(m: seq<Alarm>, i: nat, now: int, todo: seq<Alarm>, left: set<nat>, skipped: set<nat>)
    requires InRound(m, i, now, todo, left, skipped) && Distinct(m)
    requires i < |m| && m[i].time <= now && m[i].cb !in skipped
    ensures todo != [] && todo[0] == m[i]
    ensures InRound(Remove(m, i), i, now, todo[1..], left - {m[i].cb}, skipped) && m[i].cb in left
    ensures Except(Remove(m, i), left - {m[i].cb}) == Except(m, left)
  {
    hide Only, Except, Callbacks, Distinct, Remove;
    NextIsFirst(m, i, now, todo, left, skipped);
    TakenIsGone(m, i, todo, left);
    RemoveHolds(m, i);
    NotTheSame(m, i);
  }

  /** No other entry has the callback of the one taken out. */
  lemma NotTheSame(m: seq<Alarm>, i: nat)
    requires Distinct(m) && i < |m|
    ensures forall a :: a in Remove(m, i) ==> a.cb != m[i].cb
  {
  }

  lemma RearmedInRound(m: seq<Alarm>, i: nat, now: int, todo: seq<Alarm>, left: set<nat>, skipped: set<nat>, a: Alarm,
      skipped': set<nat>)
    requires InRound(m, i, now, todo, left, skipped) && Sorted(m) && a.cb !in left
    requires skipped' == if a.time <= now then skipped + {a.cb} else skipped
    ensures
      var p := UpperBound(m, a.time);
      InRound(Insert(m, a), if p <= i then i + 1 else i, now, todo, left, skipped')
    ensures Except(Insert(m, a), left) == Insert(Except(m, left), a)
  {
    hide Only, Except, UpperBound;
    InsertIntoParts(m, a, left);
    var p, r := UpperBound(m, a.time), Insert(m, a);
    InsertHolds(m, a);
    forall j | 0 <= j < if p <= i then i + 1 else i
      ensures r[j].cb !in left
    {
      assert r[j] == if j < p then m[j] else if j == p then a else m[j - 1];
    }
  }

  lemma EndOfRound(m: seq<Alarm>, i: nat, now: int, todo: seq<Alarm>, left: set<nat>, skipped: set<nat>)
    requires InRound(m, i, now, todo, left, skipped) && Sorted(m) && (i < |m| ==> m[i].time > now)
    ensures todo == [] && left == {} && Except(m, left) == m
  {
    hide Only, Except;
    assert todo != [] ==> todo[0] in todo;
    PartOf(m, left);
    assert forall x :: x in todo ==> x in m && x.cb in left;
    assert forall j :: i <= j < |m| ==> m[j].time > now;
    assert forall x :: x in todo ==> x.time > now;
    AllOrNone(m, left);
  }

  lemma NothingFired(m: seq<Alarm>, next: nat -> int)
    ensures Rearmed(m, [], next) == m
  {
  }

  lemma FiredFirst(m: seq<Alarm>, fired: seq<Alarm>, next: nat -> int)
    requires fired != []
    ensures
      var a := fired[0];
      Rearmed(m, fired, next) ==
        Rearmed(if next(a.cb) > 0 then Insert(m, Alarm(next(a.cb), a.cb)) else m, fired[1..], next)
  {
  }

  predicate Returns(fired: seq<Alarm>, next: nat -> int, x: Alarm) {
    x.time == next(x.cb) > 0 && x.cb in Callbacks(fired)
  }

  lemma {:induction false} RearmedHolds(m: seq<Alarm>, fired: seq<Alarm>, next: nat -> int)
    requires Sorted(m) && Distinct(m + fired)
    ensures Sorted(Rearmed(m, fired, next)) && Distinct(Rearmed(m, fired, next))
    ensures forall x :: x in Rearmed(m, fired, next) <==> x in m || Returns(fired, next, x)
    decreases |fired|
  {
    hide UpperBound, Sorted, Distinct, Insert;
    DistinctTogether(m, fired);
    if fired != [] {
      var c := fired[0].cb;
      var a := Alarm(next(c), c);
      var m' := if next(c) > 0 then Insert(m, a) else m;
      assert fired == [fired[0]] + fired[1..];
      CallbacksOfParts([fired[0]], fired[1..]);
      InsertIsSorted(m, a);
      InsertHolds(m, a);
      DistinctOneMoved(m, fired, a);
      RearmedHolds(m', fired[1..], next);
      assert Callbacks([fired[0]]) == {c};
    }
  }

  lemma InsertHolds(m: seq<Alarm>, a: Alarm)
    ensures forall x :: x in Insert(m, a) <==> x in m || x == a
  {
    var p := UpperBound(m, a.time);
    assert m == m[..p] + m[p..];
  }

  lemma DistinctTogether(m: seq<Alarm>, n: seq<Alarm>)
    requires Distinct(m + n)
    ensures Distinct(m) && Distinct(n) && Callbacks(m) !! Callbacks(n)
  {
    DistinctParts(m, n);
    assert forall i :: 0 <= i < |m| ==> m[i] == (m + n)[i];
    assert forall i :: 0 <= i < |n| ==> n[i] == (m + n)[|m| + i];
  }

  lemma SortedParts(m: seq<Alarm>, n: seq<Alarm>)
    requires Sorted(m + n)
    ensures Sorted(m) && Sorted(n)
  {
    assert forall i :: 0 <= i < |m| ==> m[i] == (m + n)[i];
    assert forall i :: 0 <= i < |n| ==> n[i] == (m + n)[|m| + i];
  }

  lemma DistinctOneMoved(m: seq<Alarm>, fired: seq<Alarm>, a: Alarm)
    requires fired != [] && Distinct(m + fired) && a.cb == fired[0].cb
    ensures Distinct(m + fired[1..]) && Distinct(Insert(m, a) + fired[1..])
  {
    hide UpperBound;
    DistinctTogether(m, fired);
    InsertIsDistinct(m, a);
    InsertAddsCallback(m, a);
    var r := Insert(m, a);
    assert forall i :: 0 <= i < |fired| ==> fired[i].cb in Callbacks(fired);
    DistinctJoined(m, fired[1..]);
    DistinctJoined(r, fired[1..]);
  }

  lemma DistinctJoined(m: seq<Alarm>, n: seq<Alarm>)
    requires Distinct(m) && Distinct(n) && Callbacks(m) !! Callbacks(n)
    ensures Distinct(m + n)
  {
    assert forall i :: 0 <= i < |m| ==> m[i].cb in Callbacks(m);
    assert forall i :: 0 <= i < |n| ==> n[i].cb in Callbacks(n);
  }

  /**
   What a round means. The callbacks called are those of the expired entries, each once and by deadline; afterwards the
   map holds the entries that were not due and those that came back, so an expired entry in it is one that came back.
   */
  lemma RoundMeans(m: seq<Alarm>, now: int, next: nat -> int)
    requires Sorted(m) && Distinct(m)
    ensures
      var due := Due(m, now);
      var after := Rearmed(m[|due|..], due, next);
      && Sorted(due) && Distinct(due) && (forall a :: a in m ==> (a in due <==> a.time <= now))
      && (forall x :: x in after <==> (x in m && x.time > now) || Returns(due, next, x))
      && Sorted(after) && Distinct(after)
      && (forall x :: x in after && x.time <= now ==> Returns(due, next, x))
  {
    hide UpperBound, Rearmed, Sorted, Distinct;
    var due, rest := Due(m, now), m[|Due(m, now)|..];
    DueIsFirst(m, now);
    assert m == due + rest;
    SortedParts(due, rest);
    DistinctTogether(due, rest);
    DistinctJoined(rest, due);
    RearmedHolds(rest, due, next);
    assert forall a :: a in m ==> a in due || a in rest;
    assert forall a :: a in rest ==> a in m && a.cb in Callbacks(rest);
    assert forall a :: a in due ==> a.cb in Callbacks(due);
  }

  class SimpleEpollServer {
    var allAlarms: set<nat>
    /** A multimap ordered by deadline, and by age among equal deadlines. */
    var alarmMap: seq<Alarm>
    var skipped: set<nat>
    /** The callbacks in the order in which they were called. */
    ghost var called: seq<Alarm>

    ghost predicate Valid()
      reads this
    {
      Sorted(alarmMap) && Distinct(alarmMap) && allAlarms == Callbacks(alarmMap)
    }

    constructor ()
      ensures Valid() && alarmMap == [] && skipped == {} && called == []
    {
      allAlarms, alarmMap, skipped, called := {}, [], {}, [];
    }

    /** A callback may be registered once at a time. */
    method RegisterAlarm(time: int, cb: nat)
      requires Valid() && cb !in allAlarms
      modifies this`allAlarms, this`alarmMap
      ensures Valid() && alarmMap == Insert(old(alarmMap), Alarm(time, cb)) && allAlarms == old(allAlarms) + {cb}
    {
      hide UpperBound, Sorted, Distinct;
      InsertIsSorted(alarmMap, Alarm(time, cb));
      InsertIsDistinct(alarmMap, Alarm(time, cb));
      InsertAddsCallback(alarmMap, Alarm(time, cb));
      alarmMap := Insert(alarmMap, Alarm(time, cb));
      allAlarms := allAlarms + {cb};
    }

    method UnregisterAlarm(token: nat)
      requires Valid() && token < |alarmMap|
      modifies this`allAlarms, this`alarmMap
      ensures Valid() && alarmMap == Remove(old(alarmMap), token)
        && allAlarms == old(allAlarms) - {old(alarmMap[token].cb)}
    {
      RemoveKeepsOrder(alarmMap, token);
      var cb := alarmMap[token].cb;
      alarmMap := Remove(alarmMap, token);
      allAlarms := allAlarms - {cb};
    }

    method ReregisterAlarm(token: nat, time: int) returns (newToken: nat)
      requires Valid() && token < |alarmMap|
      modifies this`alarmMap
      ensures Valid() && newToken < |alarmMap| && alarmMap[newToken] == Alarm(time, old(alarmMap[token].cb))
      ensures alarmMap == Insert(Remove(old(alarmMap), token), Alarm(time, old(alarmMap[token].cb)))
    {
      hide Sorted, Distinct;
      RemoveKeepsOrder(alarmMap, token);
      var cb := alarmMap[token].cb;
      alarmMap := Remove(alarmMap, token);
      InsertIsSorted(alarmMap, Alarm(time, cb));
      InsertIsDistinct(alarmMap, Alarm(time, cb));
      InsertAddsCallback(alarmMap, Alarm(time, cb));
      newToken := UpperBound(alarmMap, time);
      alarmMap := Insert(alarmMap, Alarm(time, cb));
    }

    /**
     One round: every alarm due at now is called once, in the order of the map, and none later. A callback that asks for
     a time that has passed as well waits for the next round.
     */
    method CallAndReregisterAlarmEvents(now: int, next: nat -> int)
      requires Valid() && skipped == {}
      modifies this
      ensures Valid() && skipped == {}
      ensures called == old(called) + Due(old(alarmMap), now)
      ensures alarmMap == Rearmed(old(alarmMap)[|Due(old(alarmMap), now)|..], Due(old(alarmMap), now), next)
    {
      hide UpperBound, Only, Except, Rearmed, Sorted, Distinct, InRound, Insert, Remove, Due, Callbacks;
      ghost var due, rest := Due(alarmMap, now), alarmMap[|Due(alarmMap, now)|..];
      ghost var left, goal := Callbacks(due), Rearmed(rest, due, next);
      ghost var todo := due;
      StartOfRound(alarmMap, now);
      var i := 0;
      while i < |alarmMap|
        invariant 0 <= i <= |alarmMap| && Valid()
        invariant InRound(alarmMap, i, now, todo, left, skipped)
        invariant called + todo == old(called) + due
        invariant Rearmed(Except(alarmMap, left), todo, next) == goal
        decreases |todo|, |alarmMap| - i
      {
        if alarmMap[i].time > now {
          break;
        }
        var cb := alarmMap[i].cb;
        if cb in skipped {
          StepOver(alarmMap, i, now, todo, left, skipped);
          i := i + 1;
          continue;
        }
        NextIsDue(alarmMap, i, now, todo, left, skipped);
        FiredFirst(Except(alarmMap, left), todo, next);
        allAlarms := allAlarms - {cb};
        called := called + [alarmMap[i]];
        var newTime := next(cb);
        ghost var before := skipped;
        RemoveKeepsOrder(alarmMap, i);
        alarmMap := Remove(alarmMap, i);
        if newTime > 0 {
          if newTime <= now {
            skipped := skipped + {cb};
          }
          RearmedInRound(alarmMap, i, now, todo[1..], left - {cb}, before, Alarm(newTime, cb), skipped);
          // an iterator stays at its entry when something is inserted before it
          var p := UpperBound(alarmMap, newTime);
          RegisterAlarm(newTime, cb);
          i := if p <= i then i + 1 else i;
        }
        left, todo := left - {cb}, todo[1..];
      }
      EndOfRound(alarmMap, i, now, todo, left, skipped);
      NothingFired(alarmMap, next);
      skipped := {};
    }
  }
}
