/** The token bucket that paces a connection; tpproxy/interval_budget.cc. */
module IntervalBudgets {
  // Its use is at tpproxy/mpproxy_types.cc:45-78, :140-161, :188-223, :259-278.

  import opened Words

  const WINDOW_MS := 500
  /** The most one call of send hands to the socket. */
  const BUFFER_SIZE: nat := 1500

  /** Integer division of C++: towards zero. */
  function Quotient8(a: int): int {
    if a >= 0 then a / 8 else -(-a / 8)
  }

  datatype Budget = Budget(rate: int, max: int, remaining: int, buildUp: bool) {

    function SetRate(kbps: int): Budget {
      var m := Quotient8(WINDOW_MS * kbps);
      Budget(kbps, m, Min(Max(-m, remaining), m), buildUp)
    }

    function Bytes(ms: int): int {
      Quotient8(rate * ms)
    }

    function Increase(ms: int): Budget {
      if remaining < 0 || buildUp then this.(remaining := Min(remaining + Bytes(ms), max))
      else this.(remaining := Min(Bytes(ms), max))
    }

    function Use(bytes: int): Budget {
      this.(remaining := Max(remaining - bytes, -max))
    }

    function BytesRemaining(): nat {
      Max(0, remaining)
    }
  }

  const EMPTY_BUDGET := Budget(0, 0, 0, false)

  class IntervalBudget {
    var started: bool
    var targetRateKbps: int
    var maxBytesInBudget: int
    var bytesRemaining: int
    const canBuildUpUnderuse: bool

    function State(): Budget
      reads this
    {
      Budget(targetRateKbps, maxBytesInBudget, bytesRemaining, canBuildUpUnderuse)
    }

    constructor (initialRate: int, canBuildUp: bool)
      ensures started && State() == Budget(0, 0, 0, canBuildUp).SetRate(initialRate)
      ensures initialRate >= 0 ==> bytesRemaining == 0
    {
      bytesRemaining := 0;
      canBuildUpUnderuse := canBuildUp;
      new;
      SetTargetRateKbps(initialRate);
    }

    method SetTargetRateKbps(kbps: int)
      modifies this
      ensures started && State() == old(State()).SetRate(kbps)
      ensures kbps >= 0 ==>
        && targetRateKbps == kbps && maxBytesInBudget == 500 * kbps / 8
        && bytesRemaining == if old(bytesRemaining) > maxBytesInBudget then maxBytesInBudget
                             else if old(bytesRemaining) < -maxBytesInBudget then -maxBytesInBudget
                             else old(bytesRemaining)
    {
      started := true;
      targetRateKbps := kbps;
      maxBytesInBudget := Quotient8(WINDOW_MS * targetRateKbps);
      bytesRemaining := Min(Max(-maxBytesInBudget, bytesRemaining), maxBytesInBudget);
    }

    method IncreaseBudget(deltaTimeMs: int)
      modifies this`bytesRemaining
      ensures State() == old(State()).Increase(deltaTimeMs)
      ensures targetRateKbps >= 0 && deltaTimeMs >= 0 && maxBytesInBudget == 500 * targetRateKbps / 8 ==>
        var carried := if old(bytesRemaining) < 0 || canBuildUpUnderuse then old(bytesRemaining) else 0;
        bytesRemaining == Min(carried + targetRateKbps * deltaTimeMs / 8, 500 * targetRateKbps / 8)
    {
      assert targetRateKbps >= 0 && deltaTimeMs >= 0 ==> targetRateKbps * deltaTimeMs >= 0;
      var bytes := Quotient8(targetRateKbps * deltaTimeMs);
      if bytesRemaining < 0 || canBuildUpUnderuse {
        bytesRemaining := Min(bytesRemaining + bytes, maxBytesInBudget);
      } else {
        bytesRemaining := Min(bytes, maxBytesInBudget);
      }
    }

    method UseBudget(bytes: int)
      modifies this`bytesRemaining
      ensures State() == old(State()).Use(bytes)
      ensures bytesRemaining == if old(bytesRemaining) - bytes < -maxBytesInBudget then -maxBytesInBudget
                                else old(bytesRemaining) - bytes
    {
      bytesRemaining := Max(bytesRemaining - bytes, -maxBytesInBudget);
    }
  }

  // ---------- runs of one connection ----------

  /** The bandwidth estimate changes, time passes, or send takes some bytes. */
  datatype Event = Rate(kbps: nat) | Tick(ms: nat) | Sent(bytes: nat)

  function Step(b: Budget, e: Event): Budget {
    match e
    case Rate(kbps) => b.SetRate(kbps)
    case Tick(ms) => b.Increase(ms)
    case Sent(bytes) => b.Use(bytes)
  }

  function After(events: seq<Event>): Budget {
    if events == [] then EMPTY_BUDGET else Step(After(events[..|events| - 1]), events[|events| - 1])
  }

  /** Something is sent only while the budget is positive, and at most one buffer at a time. */
  predicate Paced(events: seq<Event>) {
    events != [] ==>
      var before, e := events[..|events| - 1], events[|events| - 1];
      Paced(before) && (e.Sent? ==> After(before).BytesRemaining() > 0 && e.bytes <= BUFFER_SIZE)
  }

  function TotalSent(events: seq<Event>): nat {
    if events == [] then 0
    else
      var e := events[|events| - 1];
      TotalSent(events[..|events| - 1]) + if e.Sent? then e.bytes else 0
  }

  /** What IncreaseBudget was asked to add, before any clamping. */
  function TotalAdded(events: seq<Event>): int {
    if events == [] then 0
    else
      var before, e := events[..|events| - 1], events[|events| - 1];
      TotalAdded(before) + if e.Tick? then After(before).Bytes(e.ms) else 0
  }

  predicate RatesAtLeast(events: seq<Event>, kbps: nat) {
    forall e :: e in events && e.Rate? ==> e.kbps >= kbps
  }

  /** 24 kbps is the least rate whose window holds at least one buffer less one byte. */
  const SAFE_RATE := 24

  /** The debt never exceeds one buffer less one byte, and what is left never exceeds what was added but not sent. */
  predicate Balanced(b: Budget, sent: nat, added: int) {
    && (b == EMPTY_BUDGET || (b.rate >= SAFE_RATE && b.max >= BUFFER_SIZE - 1 && !b.buildUp))
    && 1 - BUFFER_SIZE <= b.remaining <= b.max
    && sent + b.remaining <= added
  }

  lemma StepStaysBalanced(b: Budget, sent: nat, added: int, e: Event)
    requires Balanced(b, sent, added)
    requires e.Rate? ==> e.kbps >= SAFE_RATE
    requires e.Sent? ==> b.BytesRemaining() > 0 && e.bytes <= BUFFER_SIZE
    ensures Balanced(Step(b, e), sent + if e.Sent? then e.bytes else 0, added + if e.Tick? then b.Bytes(e.ms) else 0)
  {
    if e.Tick? {
      assert b.rate * e.ms >= 0;
    }
  }

  lemma {:induction false} RunsStayBalanced(events: seq<Event>)
    requires Paced(events) && RatesAtLeast(events, SAFE_RATE)
    ensures Balanced(After(events), TotalSent(events), TotalAdded(events))
  {
    hide Balanced, Step;
    if events == [] {
      StartsBalanced();
    } else {
      var before, e := events[..|events| - 1], events[|events| - 1];
      RunsStayBalanced(before);
      StepStaysBalanced(After(before), TotalSent(before), TotalAdded(before), e);
    }
  }

  lemma StartsBalanced()
    ensures Balanced(EMPTY_BUDGET, 0, 0)
  {
  }

  /** Whatever the rates do, no more is sent than was added to the budget, plus one buffer less one byte. */
  lemma SentIsBounded(events: seq<Event>)
    requires Paced(events) && RatesAtLeast(events, SAFE_RATE)
    ensures TotalSent(events) <= TotalAdded(events) + BUFFER_SIZE - 1
  {
    RunsStayBalanced(events);
  }

  // ---------- between two ticks ----------

  predicate RatesAtMost(events: seq<Event>, kbps: nat) {
    forall e :: e in events && e.Rate? ==> e.kbps <= kbps
  }

  predicate NoTicks(events: seq<Event>) {
    forall e :: e in events ==> !e.Tick?
  }

  /** Unused budget is not carried over: after a tick there is no more than that tick has brought. */
  lemma {:induction false} TickIsAll(events: seq<Event>, ms: nat, kbps: nat)
    requires RatesAtMost(events, kbps)
    ensures After(events + [Tick(ms)]).remaining <= kbps * ms / 8
  {
    hide After;
    RateIsBounded(events, kbps);
    var b := After(events);
    OneMore(events, Tick(ms));
    assert 0 <= b.rate * ms <= kbps * ms;
  }

  lemma {:induction false} RateIsBounded(events: seq<Event>, kbps: nat)
    requires RatesAtMost(events, kbps)
    ensures 0 <= After(events).rate <= kbps && !After(events).buildUp && After(events).max >= 0
  {
    if events != [] {
      RateIsBounded(events[..|events| - 1], kbps);
    }
  }

  lemma {:induction false} SentAfter(before: seq<Event>, later: seq<Event>, bytes: nat)
    requires Paced(before + later) && NoTicks(later) && After(before).remaining <= bytes
    ensures
      var sent, left := TotalSent(before + later) - TotalSent(before), After(before + later).remaining;
      0 <= sent <= bytes + BUFFER_SIZE - 1 && (left > 0 ==> sent + left <= bytes)
  {
    hide After, Paced, TotalSent, Step;
    if later == [] {
      assert before + later == before;
    } else {
      var n := |later| - 1;
      var all := before + later[..n];
      assert before + later == all + [later[n]];
      OneMore(all, later[n]);
      SentAfter(before, later[..n], bytes);
      RateIsBounded(all, MaxRate(all));
      StepLeaves(After(all), later[n]);
    }
  }

  /** Some bound on the rates of a run. */
  function MaxRate(events: seq<Event>): (kbps: nat)
    ensures RatesAtMost(events, kbps)
  {
    if events == [] then 0
    else
      var e, before := events[|events| - 1], MaxRate(events[..|events| - 1]);
      if e.Rate? then Max(e.kbps, before) else before
  }

  lemma StepLeaves(b: Budget, e: Event)
    requires b.max >= 0 && !e.Tick?
    ensures
      var r := Step(b, e).remaining;
      r > 0 ==> b.remaining > 0 && r <= b.remaining - if e.Sent? then e.bytes else 0
  {
  }

  lemma MoreTime(kbps: nat, tick: nat, ms: nat)
    requires tick <= ms
    ensures kbps * tick / 8 <= kbps * ms / 8
  {
    assert kbps * tick <= kbps * ms;
  }

  /**
   Between two ticks no more is sent than the highest rate brings in the longest tick, plus one buffer less one byte,
   however long nothing was sent before.
   */
  lemma SentBetweenTicks(before: seq<Event>, tick: nat, later: seq<Event>, kbps: nat, ms: nat)
    requires Paced(before + [Tick(tick)] + later) && NoTicks(later)
    requires RatesAtMost(before, kbps) && tick <= ms
    ensures TotalSent(before + [Tick(tick)] + later) <= TotalSent(before) + kbps * ms / 8 + BUFFER_SIZE - 1
  {
    hide After, Paced, TotalSent;
    TickIsAll(before, tick, kbps);
    OneMore(before, Tick(tick));
    SentAfter(before + [Tick(tick)], later, kbps * tick / 8);
    MoreTime(kbps, tick, ms);
  }

  lemma OneMore(events: seq<Event>, e: Event)
    ensures After(events + [e]) == Step(After(events), e)
    ensures Paced(events + [e]) <==>
      Paced(events) && (e.Sent? ==> After(events).BytesRemaining() > 0 && e.bytes <= BUFFER_SIZE)
    ensures TotalSent(events + [e]) == TotalSent(events) + if e.Sent? then e.bytes else 0
    ensures TotalAdded(events + [e]) == TotalAdded(events) + if e.Tick? then After(events).Bytes(e.ms) else 0
  {
    var all := events + [e];
    assert all[..|all| - 1] == events;
  }

  /** The bound cannot be improved. */
  lemma BoundIsTight()
    ensures
      var run := [Rate(SAFE_RATE), Tick(1), Sent(2), Sent(BUFFER_SIZE)];
      Paced(run) && RatesAtLeast(run, SAFE_RATE) && TotalSent(run) == TotalAdded(run) + BUFFER_SIZE - 1
  {
    hide After, Paced, TotalSent, TotalAdded;
    NothingYet();
    var r1 := [] + [Rate(SAFE_RATE)];
    var r2 := r1 + [Tick(1)];
    var r3 := r2 + [Sent(2)];
    OneMore([], Rate(SAFE_RATE));
    OneMore(r1, Tick(1));
    OneMore(r2, Sent(2));
    OneMore(r3, Sent(BUFFER_SIZE));
    assert After(r1) == Budget(24, 1500, 0, false) && After(r2).remaining == 3 && After(r3).remaining == 1;
    assert r3 + [Sent(BUFFER_SIZE)] == [Rate(SAFE_RATE), Tick(1), Sent(2), Sent(BUFFER_SIZE)];
  }

  lemma NothingYet()
    ensures After([]) == EMPTY_BUDGET && Paced([]) && TotalSent([]) == 0 && TotalAdded([]) == 0
  {
  }

  /** At a lower rate the debt of one buffer is forgotten in part, and the second buffer exceeds the bound. */
  lemma LowRateBreaksTheBound(kbps: nat)
    requires 0 < kbps < SAFE_RATE
    ensures
      var run := [Rate(kbps), Tick(8), Sent(BUFFER_SIZE), Tick(504), Sent(BUFFER_SIZE)];
      Paced(run) && TotalSent(run) > TotalAdded(run) + BUFFER_SIZE - 1
  {
    hide After, Paced, TotalSent, TotalAdded;
    NothingYet();
    var r1 := [] + [Rate(kbps)];
    var r2 := r1 + [Tick(8)];
    var r3 := r2 + [Sent(BUFFER_SIZE)];
    var r4 := r3 + [Tick(504)];
    OneMore([], Rate(kbps));
    OneMore(r1, Tick(8));
    OneMore(r2, Sent(BUFFER_SIZE));
    OneMore(r3, Tick(504));
    OneMore(r4, Sent(BUFFER_SIZE));
    var m := WINDOW_MS * kbps / 8;
    assert After(r1) == Budget(kbps, m, 0, false) && After(r2) == Budget(kbps, m, kbps, false);
    assert After(r3) == Budget(kbps, m, -m, false) && After(r4).remaining == 63 * kbps - m > 0;
    assert r4 + [Sent(BUFFER_SIZE)] == [Rate(kbps), Tick(8), Sent(BUFFER_SIZE), Tick(504), Sent(BUFFER_SIZE)];
  }

  /** The bound holds for all runs above a least rate exactly if that rate is at least 24 kbps; the code's is 625. */
  lemma BoundHoldsExactly(kbps: nat)
    ensures
      (forall events :: Paced(events) && RatesAtLeast(events, kbps) ==>
        TotalSent(events) <= TotalAdded(events) + BUFFER_SIZE - 1)
      <==> kbps >= SAFE_RATE
  {
    if kbps >= SAFE_RATE {
      forall events | Paced(events) && RatesAtLeast(events, kbps)
        ensures TotalSent(events) <= TotalAdded(events) + BUFFER_SIZE - 1
      {
        SentIsBounded(events);
      }
    } else {
      var low := Max(1, kbps);
      LowRateBreaksTheBound(low);
      var run := [Rate(low), Tick(8), Sent(BUFFER_SIZE), Tick(504), Sent(BUFFER_SIZE)];
      assert RatesAtLeast(run, kbps);
    }
  }
}
