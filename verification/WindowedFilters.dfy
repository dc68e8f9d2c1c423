/** Nichols' windowed maximum over a stream of bandwidth samples; tpproxy/windowed_filter.h. */
module WindowedFilters {

  datatype Sample = Sample(value: nat, time: int)

  predicate Chronological(history: seq<Sample>) {
    forall i, j :: 0 <= i <= j < |history| ==> history[i].time <= history[j].time
  }

  /** The sample at index k is at least as large as every sample taken after it. */
  predicate Dominates(history: seq<Sample>, k: nat) {
    k < |history| && forall j :: k <= j < |history| ==> history[j].value <= history[k].value
  }

  /** Three past samples in order of time, each at least as large as everything taken after it. */
  predicate Tracks(history: seq<Sample>, at: seq<nat>, estimates: seq<Sample>) {
    && |at| == |estimates| == 3 && at[0] <= at[1] <= at[2]
    && Chronological(history)
    && forall i :: 0 <= i < 3 ==> Dominates(history, at[i]) && history[at[i]] == estimates[i]
  }

  predicate IsMaximum(samples: seq<Sample>, value: nat) {
    && (exists s :: s in samples && s.value == value)
    && (forall s :: s in samples ==> s.value <= value)
  }

  // ---------- one update ----------

  /** A sample below the best estimate replaces the estimates it is not below. */
  function Recorded(e: seq<Sample>, s: Sample): (r: seq<Sample>)
    requires |e| == 3
    ensures |r| == 3
  {
    if s.value >= e[1].value then [e[0], s, s]
    else if s.value >= e[2].value then [e[0], e[1], s]
    else e
  }

  /** An expired best estimate makes room for the next ones; then the later ones are renewed if they are too old. */
  function Renewed(e: seq<Sample>, s: Sample, window: nat): (r: seq<Sample>)
    requires |e| == 3
    ensures |r| == 3
  {
    if s.time - e[0].time > window then
      if s.time - e[1].time > window then [e[2], s, s] else [e[1], e[2], s]
    else if e[1].value == e[0].value && s.time - e[1].time > window / 4 then [e[0], s, s]
    else if e[2].value == e[1].value && s.time - e[2].time > window / 2 then [e[0], e[1], s]
    else e
  }

  /** The sample replaces all estimates: it is the first, or the best so far, or all others are too old. */
  predicate Resets(e: seq<Sample>, s: Sample, window: nat, zero: nat)
    requires |e| == 3
  {
    e[0].value == zero || s.value >= e[0].value || s.time - e[2].time > window
  }

  function Updated(e: seq<Sample>, s: Sample, window: nat, zero: nat): (r: seq<Sample>)
    requires |e| == 3
    ensures |r| == 3
  {
    if Resets(e, s, window, zero) then [s, s, s] else Renewed(Recorded(e, s), s, window)
  }

  /** The estimates after a run of updates. */
  function After(history: seq<Sample>, window: nat, zero: nat, zeroTime: int): (e: seq<Sample>)
    ensures |e| == 3
  {
    if history == [] then [Sample(zero, zeroTime), Sample(zero, zeroTime), Sample(zero, zeroTime)]
    else Updated(After(history[..|history| - 1], window, zero, zeroTime), history[|history| - 1], window, zero)
  }

  // ---------- what every run keeps ----------

  lemma TracksLatest(history: seq<Sample>, s: Sample)
    requires Chronological(history + [s])
    ensures Tracks(history + [s], [|history|, |history|, |history|], [s, s, s])
  {
  }

  lemma RecordedTracks(history: seq<Sample>, at: seq<nat>, e: seq<Sample>, s: Sample) returns (at': seq<nat>)
    requires Tracks(history, at, e) && Chronological(history + [s])
    ensures Tracks(history + [s], at', Recorded(e, s)) || s.value > e[0].value
  {
    var n := |history|;
    at' := if s.value >= e[1].value then [at[0], n, n] else if s.value >= e[2].value then [at[0], at[1], n] else at;
    if s.value <= e[0].value {
      forall i | 0 <= i < 3
        ensures Dominates(history + [s], at'[i]) && (history + [s])[at'[i]] == Recorded(e, s)[i]
      {
        assert at'[i] < n ==> at'[i] == at[i] && Dominates(history, at[i]);
      }
    }
  }

  lemma RenewedTracks(history: seq<Sample>, at: seq<nat>, e: seq<Sample>, window: nat) returns (at': seq<nat>)
    requires Tracks(history, at, e) && history[|history| - 1].time - e[2].time <= window
    ensures
      var s := history[|history| - 1];
      Tracks(history, at', Renewed(e, s, window)) && s.time - Renewed(e, s, window)[0].time <= window
  {
    var n, s := |history| - 1, history[|history| - 1];
    assert Dominates(history, n);
    assert Dominates(history, at[0]) && Dominates(history, at[1]) && Dominates(history, at[2]);
    at' :=
      if s.time - e[0].time > window then if s.time - e[1].time > window then [at[2], n, n] else [at[1], at[2], n]
      else if e[1].value == e[0].value && s.time - e[1].time > window / 4 then [at[0], n, n]
      else if e[2].value == e[1].value && s.time - e[2].time > window / 2 then [at[0], at[1], n]
      else at;
  }

  lemma UpdatedTracks(before: seq<Sample>, at: seq<nat>, e: seq<Sample>, s: Sample, window: nat, zero: nat)
      returns (at': seq<nat>)
    requires |e| == 3 && (before == [] ==> e[0].value == zero) && (before != [] ==> Tracks(before, at, e))
    requires Chronological(before + [s])
    ensures
      var r := Updated(e, s, window, zero);
      Tracks(before + [s], at', r) && s.time - r[0].time <= window
  {
    hide Tracks, Recorded, Renewed, Chronological;
    if e[0].value == zero || s.value >= e[0].value || s.time - e[2].time > window {
      TracksLatest(before, s);
      at' := [|before|, |before|, |before|];
    } else {
      at' := RecordedTracks(before, at, e, s);
      RecordedAge(e, s);
      assert (before + [s])[|before + [s]| - 1] == s;
      at' := RenewedTracks(before + [s], at', Recorded(e, s), window);
    }
  }

  lemma RecordedAge(e: seq<Sample>, s: Sample)
    requires |e| == 3
    ensures s.time - Recorded(e, s)[2].time == 0 || Recorded(e, s)[2] == e[2]
  {
  }

  /** After every run the three estimates are past samples that dominate what came later; the best is in the window. */
  lemma {:induction false} RunsTrack(history: seq<Sample>, window: nat, zero: nat, zeroTime: int) returns (at: seq<nat>)
    requires history != [] && Chronological(history)
    ensures
      var e := After(history, window, zero, zeroTime);
      Tracks(history, at, e) && history[|history| - 1].time - e[0].time <= window
  {
    hide Tracks, Updated;
    var before, s := history[..|history| - 1], history[|history| - 1];
    assert history == before + [s];
    at := [];
    if before != [] {
      at := RunsTrack(before, window, zero, zeroTime);
    }
    at := UpdatedTracks(before, at, After(before, window, zero, zeroTime), s, window, zero);
  }

  /** GetBest is the maximum of a suffix of the history that starts within the window; the other two follow it. */
  lemma BestIsSuffixMaximum(history: seq<Sample>, window: nat, zero: nat, zeroTime: int) returns (start: nat)
    requires history != [] && Chronological(history)
    ensures
      var e := After(history, window, zero, zeroTime);
      && start < |history| && history[|history| - 1].time - history[start].time <= window
      && IsMaximum(history[start..], e[0].value)
      && e[0].value >= e[1].value >= e[2].value && e[0].time <= e[1].time <= e[2].time
      && e[0] in history && e[1] in history && e[2] in history
  {
    hide After;
    var e := After(history, window, zero, zeroTime);
    var at := RunsTrack(history, window, zero, zeroTime);
    start := at[0];
    assert Dominates(history, at[0]) && Dominates(history, at[1]) && Dominates(history, at[2]);
    assert history[start..][0] == e[0];
    forall s | s in history[start..]
      ensures s.value <= e[0].value
    {
      var j :| 0 <= j < |history[start..]| && history[start..][j] == s;
      assert history[start + j] == s;
    }
  }

  /** As long as the best estimate has not expired, the others are renewed after a quarter and a half of the window. */
  lemma OthersAreRenewed(e: seq<Sample>, s: Sample, window: nat, zero: nat)
    requires |e| == 3 && s.time - e[0].time <= window
    ensures
      var r := Updated(e, s, window, zero);
      && (r[1].value == r[0].value ==> s.time - r[1].time <= window / 4)
      && (r[2].value == r[1].value ==> s.time - r[2].time <= window / 2)
  {
    assert s.time - s.time <= window / 4;
  }

  /** The estimates that are above a sample and have not expired, in order. */
  function Survivors(e: seq<Sample>, s: Sample, window: nat): seq<Sample> {
    if e == [] then []
    else (if e[0].value > s.value && s.time - e[0].time <= window then [e[0]] else []) + Survivors(e[1..], s, window)
  }

  /** The second estimate is as good as the best one, and older than a quarter of the window. */
  predicate SecondIsOld(e: seq<Sample>, now: int, window: nat)
    requires |e| == 3
  {
    e[1].value == e[0].value && now - e[1].time > window / 4
  }

  /** The third estimate is as good as the second one, and older than half of the window. */
  predicate ThirdIsOld(e: seq<Sample>, now: int, window: nat)
    requires |e| == 3
  {
    e[2].value == e[1].value && now - e[2].time > window / 2
  }

  /**
   The new estimates are the old ones that survive, followed by the sample. As long as the best one survives, the others
   also give way to the sample when they are too old, and for no other reason.
   */
  lemma SurvivorsStay(e: seq<Sample>, s: Sample, window: nat, zero: nat)
    requires |e| == 3 && e[0].value >= e[1].value >= e[2].value && e[0].time <= e[1].time <= e[2].time <= s.time
    requires e[0].value != zero
    ensures
      var r, next := Updated(e, s, window, zero), (Survivors(e, s, window) + [s, s, s])[..3];
      r == if next[0] != e[0] || e[0] == s then next
           else if SecondIsOld(e, s.time, window) then [e[0], s, s]
           else if ThirdIsOld(e, s.time, window) then [e[0], next[1], s]
           else next
  {
    assert e == [e[0], e[1], e[2]] && e[1..] == [e[1], e[2]] && e[1..][1..] == [e[2]] && e[1..][1..][1..] == [];
    SurvivorsOf(e[1..], s, window);
    SurvivorsOf(e[1..][1..], s, window);
  }

  /** The same for every sample of a run behind the first one that is not 0. */
  lemma SurvivorsOfRun(history: seq<Sample>, s: Sample, window: nat, zeroTime: int)
    requires history != [] && Chronological(history + [s]) && After(history, window, 0, zeroTime)[0].value != 0
    ensures
      var e, r := After(history, window, 0, zeroTime), After(history + [s], window, 0, zeroTime);
      var next := (Survivors(e, s, window) + [s, s, s])[..3];
      r == if next[0] != e[0] || e[0] == s then next
           else if SecondIsOld(e, s.time, window) then [e[0], s, s]
           else if ThirdIsOld(e, s.time, window) then [e[0], next[1], s]
           else next
  {
    hide After, Updated, Survivors, Chronological, IsMaximum;
    ChronologicalBefore(history, s);
    var start := BestIsSuffixMaximum(history, window, 0, zeroTime);
    AfterOneMore(history, s, window, 0, zeroTime);
    SurvivorsStay(After(history, window, 0, zeroTime), s, window, 0);
  }

  lemma SurvivorsOf(e: seq<Sample>, s: Sample, window: nat)
    requires e != []
    ensures Survivors(e, s, window) ==
      (if e[0].value > s.value && s.time - e[0].time <= window then [e[0]] else []) + Survivors(e[1..], s, window)
  {
  }

  /** The maximum of the whole window can be missed: the sample 10 is seven ticks old in a window of eight. */
  lemma WindowMaximumCanBeMissed()
    ensures
      var history := [Sample(100, 0), Sample(10, 2), Sample(5, 9)];
      Chronological(history) && 9 - history[1].time <= 8 && After(history, 8, 0, 0)[0].value == 5 < history[1].value
  {
    var h1 := [Sample(100, 0)];
    var h2 := h1 + [Sample(10, 2)];
    var h3 := h2 + [Sample(5, 9)];
    assert h1[..0] == [] && h2[..1] == h1 && h3[..2] == h2;
    assert After(h1, 8, 0, 0) == [Sample(100, 0), Sample(100, 0), Sample(100, 0)];
    assert After(h2, 8, 0, 0) == After(h1, 8, 0, 0);
    assert h3 == [Sample(100, 0), Sample(10, 2), Sample(5, 9)];
  }

  // ---------- when the best estimate is the maximum of the whole window ----------

  /** A sample of the window that no sample of the window exceeds. */
  predicate Largest(history: seq<Sample>, x: Sample, now: int, window: nat) {
    && x in history && now - x.time <= window
    && forall y :: y in history && now - y.time <= window ==> y.value <= x.value
  }

  /** The value is the maximum of the samples of the window. */
  predicate IsWindowMaximum(history: seq<Sample>, value: nat, now: int, window: nat) {
    exists x :: x in history && x.value == value && Largest(history, x, now, window)
  }

  /** An update keeps a value at least as large as every estimate that is still in the window, and the sample itself. */
  lemma BestExceedsEstimates(e: seq<Sample>, s: Sample, window: nat)
    requires |e| == 3 && e[0].value >= e[1].value >= e[2].value && e[0].time <= e[1].time <= e[2].time <= s.time
    ensures
      var best := Updated(e, s, window, 0)[0];
      && best in e + [s] && best.value >= s.value
      && forall x :: x in e && s.time - x.time <= window ==> best.value >= x.value
  {
  }

  /**
   After an update the best estimate is the maximum of the window exactly if the sample is a largest one of the window,
   or a largest one is among the three estimates from before.
   */
  lemma BestIsWindowMaximum(history: seq<Sample>, s: Sample, window: nat, zeroTime: int)
    requires Chronological(history + [s])
    ensures
      var all, e := history + [s], After(history, window, 0, zeroTime);
      IsWindowMaximum(all, After(all, window, 0, zeroTime)[0].value, s.time, window)
      <==> Largest(all, s, s.time, window) || exists x :: x in e && Largest(all, x, s.time, window)
  {
    hide After, Chronological;
    BestAgainstEstimates(history, s, window, zeroTime);
    LargestIffAmong(history + [s], After(history, window, 0, zeroTime), s, After(history + [s], window, 0, zeroTime)[0],
      window);
  }

  /** The new best estimate is in the window, is the sample or an old estimate, and exceeds those of the window. */
  lemma BestAgainstEstimates(history: seq<Sample>, s: Sample, window: nat, zeroTime: int)
    requires Chronological(history + [s])
    ensures
      var e, best := After(history, window, 0, zeroTime), After(history + [s], window, 0, zeroTime)[0];
      && best in history + [s] && s.time - best.time <= window && best in e + [s] && best.value >= s.value
      && forall x :: x in e && s.time - x.time <= window ==> best.value >= x.value
  {
    hide After, Updated, Chronological, Tracks, IsMaximum;
    var start := BestIsSuffixMaximum(history + [s], window, 0, zeroTime);
    var at := RunsTrack(history + [s], window, 0, zeroTime);
    assert (history + [s])[|history + [s]| - 1] == s;
    AfterOneMore(history, s, window, 0, zeroTime);
    if history == [] {
      FirstSample(s, window, zeroTime);
    } else {
      ChronologicalBefore(history, s);
      var before := BestIsSuffixMaximum(history, window, 0, zeroTime);
      BestExceedsEstimates(After(history, window, 0, zeroTime), s, window);
    }
  }

  lemma ChronologicalBefore(history: seq<Sample>, s: Sample)
    requires Chronological(history + [s])
    ensures Chronological(history) && forall x :: x in history ==> x.time <= s.time
  {
    var all := history + [s];
    assert all[|history|] == s && forall i :: 0 <= i < |history| ==> all[i] == history[i];
  }

  lemma FirstSample(s: Sample, window: nat, zeroTime: int)
    ensures
      var zero := Sample(0, zeroTime);
      After([], window, 0, zeroTime) == [zero, zero, zero] && Updated([zero, zero, zero], s, window, 0) == [s, s, s]
  {
  }

  lemma LargestIffAmong(all: seq<Sample>, e: seq<Sample>, s: Sample, best: Sample, window: nat)
    requires s in all && best in all && s.time - best.time <= window && best in e + [s] && best.value >= s.value
    requires forall x :: x in e && s.time - x.time <= window ==> best.value >= x.value
    ensures
      IsWindowMaximum(all, best.value, s.time, window)
      <==> Largest(all, s, s.time, window) || exists x :: x in e && Largest(all, x, s.time, window)
  {
    if IsWindowMaximum(all, best.value, s.time, window) {
      assert Largest(all, best, s.time, window);
    }
    if Largest(all, s, s.time, window) {
      assert Largest(all, best, s.time, window);
    }
    if x :| x in e && Largest(all, x, s.time, window) {
      assert best.value >= x.value;
      assert Largest(all, best, s.time, window);
    }
  }

  lemma AfterOneMore(history: seq<Sample>, s: Sample, window: nat, zero: nat, zeroTime: int)
    ensures After(history + [s], window, zero, zeroTime) ==
      Updated(After(history, window, zero, zeroTime), s, window, zero)
  {
    assert (history + [s])[..|history|] == history;
  }

  /**
   Over a run: if a largest sample of the window replaced all estimates when it arrived, the best estimate is the
   maximum of the window.
   */
  lemma ResetMakesWindowMaximum(history: seq<Sample>, k: nat, window: nat, zeroTime: int)
    requires Chronological(history) && k < |history|
    requires Largest(history, history[k], history[|history| - 1].time, window)
    requires Resets(After(history[..k], window, 0, zeroTime), history[k], window, 0)
    ensures IsWindowMaximum(history, After(history, window, 0, zeroTime)[0].value, history[|history| - 1].time, window)
  {
    hide After, Chronological, Resets;
    LaterInWindow(history, k, window);
    ResetLasts(history, k, |history| - 1, window, zeroTime);
    assert history[..|history|] == history;
    assert history[k] in history;
  }

  lemma LaterInWindow(history: seq<Sample>, k: nat, window: nat)
    requires Chronological(history) && k < |history|
      && Largest(history, history[k], history[|history| - 1].time, window)
    ensures forall i :: k <= i < |history| ==> history[i].value <= history[k].value
  {
    assert forall i :: k <= i < |history| ==> history[i] in history && history[k].time <= history[i].time;
  }

  /** From the reset on the best estimate has that value and is not older, as long as the sample is in the window. */
  lemma {:induction false} ResetLasts(history: seq<Sample>, k: nat, j: nat, window: nat, zeroTime: int)
    requires Chronological(history) && k <= j < |history|
    requires Resets(After(history[..k], window, 0, zeroTime), history[k], window, 0)
    requires forall i :: k <= i <= j ==> history[i].value <= history[k].value
    requires history[j].time - history[k].time <= window
    ensures
      var e := After(history[..j + 1], window, 0, zeroTime);
      && e[0].value == history[k].value
      && e[0].time >= history[k].time && e[1].time >= history[k].time && e[2].time >= history[k].time
  {
    hide After;
    assert history[..j + 1] == history[..j] + [history[j]];
    AfterOneMore(history[..j], history[j], window, 0, zeroTime);
    if k < j {
      ResetLasts(history, k, j - 1, window, zeroTime);
    }
  }

  class WindowedFilter {
    const windowLength: nat
    const zeroValue: nat
    const zeroTime: int
    const estimates: array<Sample>
    /** All samples so far. */
    ghost var history: seq<Sample>

    ghost predicate Valid()
      reads this, estimates
    {
      && Chronological(history)
      && estimates.Length == 3 && estimates[..] == After(history, windowLength, zeroValue, zeroTime)
    }

    constructor (window: nat, zero: nat, time: int)
      ensures Valid() && fresh(estimates) && history == [] && windowLength == window && zeroValue == zero
    {
      windowLength, zeroValue, zeroTime := window, zero, time;
      estimates := new Sample[3](_ => Sample(zero, time));
      history := [];
    }

    /** Every sample is taken no earlier than the one before. */
    method Update(value: nat, time: int)
      requires Valid() && Chronological(history + [Sample(value, time)])
      modifies this`history, estimates
      ensures Valid() && history == old(history) + [Sample(value, time)]
    {
      ghost var before, s := estimates[..], Sample(value, time);
      assert (history + [s])[..|history|] == history;
      history := history + [s];
      if estimates[0].value == zeroValue || value >= estimates[0].value || time - estimates[2].time > windowLength {
        Reset(value, time);
        return;
      }
      if value >= estimates[1].value {
        estimates[1] := Sample(value, time);
        estimates[2] := estimates[1];
      } else if value >= estimates[2].value {
        estimates[2] := Sample(value, time);
      }
      assert estimates[..] == Recorded(before, s);
      if time - estimates[0].time > windowLength {
        estimates[0] := estimates[1];
        estimates[1] := estimates[2];
        estimates[2] := Sample(value, time);
        if time - estimates[0].time > windowLength {
          estimates[0] := estimates[1];
          estimates[1] := estimates[2];
        }
        assert estimates[..] == Updated(before, s, windowLength, zeroValue);
        return;
      }
      if estimates[1].value == estimates[0].value && time - estimates[1].time > windowLength / 4 {
        estimates[1] := Sample(value, time);
        estimates[2] := estimates[1];
        assert estimates[..] == Updated(before, s, windowLength, zeroValue);
        return;
      }
      if estimates[2].value == estimates[1].value && time - estimates[2].time > windowLength / 2 {
        estimates[2] := Sample(value, time);
      }
      assert estimates[..] == Updated(before, s, windowLength, zeroValue);
    }

    method Reset(value: nat, time: int)
      requires estimates.Length == 3
      modifies estimates
      ensures estimates[..] == [Sample(value, time), Sample(value, time), Sample(value, time)]
    {
      estimates[2] := Sample(value, time);
      estimates[1] := estimates[2];
      estimates[0] := estimates[1];
    }

    /** The largest of the samples from some point within the window on. */
    method GetBest() returns (value: nat)
      requires Valid() && history != []
      ensures exists start :: 0 <= start < |history|
                && history[|history| - 1].time - history[start].time <= windowLength
                && IsMaximum(history[start..], value)
    {
      ghost var start := BestIsSuffixMaximum(history, windowLength, zeroValue, zeroTime);
      value := estimates[0].value;
    }
  }
}
