/** Buffered and paced writing to a socket; tpproxy/mpproxy_types.cc:44-78, :140-161, :188-223, :259-278, :507-533. */
module Sockets {
  import opened Words
  import opened IntervalBudgets

  /** The least rate of a connection in kbps: the least goodput of 500 kbps times the gain of 1.25. */
  const MIN_TARGET_RATE := 625
  const MIN_GOODPUT := 500
  const BUDGET_INTERVAL_MS := 10

  /** One call of send: the bytes that were offered, and how many of them the socket took, or that it failed. */
  datatype Attempt = Attempt(data: seq<byte>, sent: int)

  /** The bytes the socket took, in order. */
  function Taken(attempts: seq<Attempt>): seq<byte> {
    if attempts == [] then []
    else
      var last := attempts[|attempts| - 1];
      Taken(attempts[..|attempts| - 1]) + if 0 < last.sent <= |last.data| then last.data[..last.sent] else []
  }

  /** Bytes wait: each call offers the next of them, at most 1500, and only the last one may take none. */
  predicate InTurn(waiting: seq<byte>, attempts: seq<Attempt>) {
    attempts != [] ==>
      var before, last := attempts[..|attempts| - 1], attempts[|attempts| - 1];
      && InTurn(waiting, before) && Taken(before) < waiting && last.sent <= |last.data|
      && last.data == waiting[|Taken(before)|..][..Min(1500, |waiting| - |Taken(before)|)]
      && (before != [] ==> before[|before| - 1].sent > 0)
  }

  lemma TakenMore(attempts: seq<Attempt>, a: Attempt)
    ensures Taken(attempts + [a]) == Taken(attempts) + if 0 < a.sent <= |a.data| then a.data[..a.sent] else []
  {
    var all := attempts + [a];
    assert all[..|all| - 1] == attempts;
  }

  /** The next attempt, made while each before took something. */
  lemma InTurnMore(waiting: seq<byte>, attempts: seq<Attempt>, rest: seq<byte>, n: nat, sent: int)
    requires InTurn(waiting, attempts) && waiting == Taken(attempts) + rest && n == Min(1500, |rest|) > 0 && sent <= n
    requires attempts != [] ==> attempts[|attempts| - 1].sent > 0
    ensures
      var all := attempts + [Attempt(rest[..n], sent)];
      InTurn(waiting, all) && Taken(all) == Taken(attempts) + if sent > 0 then rest[..sent] else []
  {
    hide Taken;
    TakenMore(attempts, Attempt(rest[..n], sent));
    RestIs(Taken(attempts), rest, n);
    InTurnNext(waiting, attempts, Attempt(rest[..n], sent));
    assert sent > 0 ==> rest[..n][..sent] == rest[..sent];
  }

  lemma RestIs(taken: seq<byte>, rest: seq<byte>, n: nat)
    requires n <= |rest|
    ensures (taken + rest)[|taken|..][..n] == rest[..n]
  {
    assert (taken + rest)[|taken|..] == rest;
  }

  lemma InTurnNext(waiting: seq<byte>, attempts: seq<Attempt>, a: Attempt)
    requires InTurn(waiting, attempts) && Taken(attempts) < waiting && a.sent <= |a.data|
    requires a.data == waiting[|Taken(attempts)|..][..Min(1500, |waiting| - |Taken(attempts)|)]
    requires attempts != [] ==> attempts[|attempts| - 1].sent > 0
    ensures InTurn(waiting, attempts + [a])
  {
    hide Taken;
    var all := attempts + [a];
    assert all[..|all| - 1] == attempts;
  }

  lemma RatesSame(pace: seq<Event>, e: Event)
    requires RatesAtLeast(pace, MIN_TARGET_RATE) && !e.Rate?
    ensures RatesAtLeast(pace + [e], MIN_TARGET_RATE)
  {
  }

  lemma NothingOffered(waiting: seq<byte>)
    ensures InTurn(waiting, []) && Taken([]) == []
  {
  }

  class SocketBase {
    var fd: int
    var fdWriteBuffer: seq<byte>
    /** What paces the socket, if anything does. */
    const budget: IntervalBudget?
    /** Everything the socket has taken so far, the calls of send that did it, and what has happened to the budget. */
    ghost var wire: seq<byte>
    ghost var attempts: seq<Attempt>
    ghost var pace: seq<Event>

    ghost predicate Valid()
      reads this`wire, this`attempts, this`pace, budget
    {
      && wire == Taken(attempts)
      && (budget != null ==>
            && budget.started && budget.State() == After(pace)
            && Paced(pace) && RatesAtLeast(pace, MIN_TARGET_RATE) && TotalSent(pace) == |wire|)
    }

    /** What this call has offered to the socket. */
    twostate function Offered(): seq<Attempt>
      reads this`attempts
    {
      if |old(attempts)| <= |attempts| then attempts[|old(attempts)|..] else []
    }

    /** All that waited has been taken, or the budget is used up, or the socket would take no more. */
    twostate predicate Flushed()
      reads this, budget
    {
      && old(attempts) <= attempts
      && (fd >= 0 ==>
            fdWriteBuffer == [] || (budget != null && budget.started && budget.bytesRemaining <= 0)
            || (|old(attempts)| < |attempts| && attempts[|attempts| - 1].sent <= 0 < |attempts[|attempts| - 1].data|))
    }

    /** Every byte that was ever meant for the socket, in order. */
    ghost function Everything(): seq<byte>
      reads this`wire, this`fdWriteBuffer
    {
      wire + fdWriteBuffer
    }

    constructor Unpaced(fd: int)
      ensures Valid() && this.fd == fd && budget == null && Everything() == []
    {
      this.fd, fdWriteBuffer, budget := fd, [], null;
      wire, attempts, pace := [], [], [];
    }

    /** A connection starts with the budget of one interval. */
    constructor WithBudget(fd: int, kbps: nat)
      requires kbps >= MIN_TARGET_RATE
      ensures Valid() && this.fd == fd && budget != null && fresh(budget) && Everything() == []
      ensures budget.bytesRemaining == kbps * 10 / 8 && !budget.canBuildUpUnderuse
    {
      hide After, Paced, TotalSent, TotalAdded;
      var b := new IntervalBudget(0, false);
      b.SetTargetRateKbps(kbps);
      b.IncreaseBudget(BUDGET_INTERVAL_MS);
      this.fd, fdWriteBuffer, budget := fd, [], b;
      wire, attempts, pace := [], [], [] + [Rate(kbps)] + [Tick(BUDGET_INTERVAL_MS)];
      NothingYet();
      OneMore([], Rate(kbps));
      OneMore([] + [Rate(kbps)], Tick(BUDGET_INTERVAL_MS));
    }

    predicate CanSend()
      reads budget
    {
      budget == null || !budget.started || budget.State().BytesRemaining() > 0
    }

    /** The goodput alarm and the budget alarm: a new rate, and for the latter the time that has passed. */
    method OnBudgetAlarm(kbps: nat, deltaTimeMs: nat)
      requires Valid() && budget != null && kbps >= MIN_TARGET_RATE
      modifies this`pace, budget
      ensures Valid() && pace == old(pace) + [Rate(kbps)] + [Tick(deltaTimeMs)]
    {
      OneMore(pace, Rate(kbps));
      OneMore(pace + [Rate(kbps)], Tick(deltaTimeMs));
      budget.SetTargetRateKbps(kbps);
      budget.IncreaseBudget(deltaTimeMs);
      pace := pace + [Rate(kbps)] + [Tick(deltaTimeMs)];
    }

    method OnGoodputAlarm(kbps: nat)
      requires Valid() && budget != null && kbps >= MIN_TARGET_RATE
      modifies this`pace, budget
      ensures Valid() && pace == old(pace) + [Rate(kbps)]
    {
      OneMore(pace, Rate(kbps));
      budget.SetTargetRateKbps(kbps);
      pace := pace + [Rate(kbps)];
    }

    /** send: the socket takes as much of what is offered as it likes, or fails. */
    method Offer(data: seq<byte>, intend: nat) returns (sent: int)
      requires Valid() && 0 < intend <= |data|
      requires budget != null ==> CanSend() && intend <= BUFFER_SIZE
      modifies this`wire, this`attempts, this`pace, budget
      ensures Valid() && sent <= intend && attempts == old(attempts) + [Attempt(data[..intend], sent)]
      ensures wire == old(wire) + if sent > 0 then data[..sent] else []
    {
      hide Taken, After, Paced, TotalSent, TotalAdded, RatesAtLeast;
      sent :| -1 <= sent <= intend;
      TakenMore(attempts, Attempt(data[..intend], sent));
      assert sent > 0 ==> data[..intend][..sent] == data[..sent];
      attempts := attempts + [Attempt(data[..intend], sent)];
      if sent > 0 {
        wire := wire + data[..sent];
        if budget != null {
          OneMore(pace, Sent(sent));
          RatesSame(pace, Sent(sent));
          pace := pace + [Sent(sent)];
          budget.UseBudget(sent);
        }
      }
    }

    /**
     Offers the buffer to the socket piece by piece, until all is taken, the budget is used up or the socket takes no
     more; nothing is lost or reordered.
     */
    method FlushBuffer()
      requires Valid()
      modifies this`fdWriteBuffer, this`wire, this`attempts, this`pace, budget
      ensures Valid() && Everything() == old(Everything()) && Flushed()
      ensures InTurn(old(fdWriteBuffer), Offered()) && wire == old(wire) + Taken(Offered())
      ensures fd < 0 ==> Offered() == []
    {
      hide Valid, InTurn, Taken;
      NothingOffered(fdWriteBuffer);
      assert attempts[|attempts|..] == [];
      if fd < 0 {
        return;
      }
      var data, flushed, mine := OfferAll();
      if flushed {
        fdWriteBuffer := data;
      }
      assert Offered() == mine;
    }

    /** The loop of a flush, and what it leaves. */
    method OfferAll() returns (data: seq<byte>, flushed: bool, ghost mine: seq<Attempt>)
      requires Valid()
      modifies this`wire, this`attempts, this`pace, budget
      ensures Valid() && InTurn(fdWriteBuffer, mine) && attempts == old(attempts) + mine
      ensures wire == old(wire) + Taken(mine) && fdWriteBuffer == Taken(mine) + data
      ensures !flushed ==> data == fdWriteBuffer
      ensures data == [] || (budget != null && budget.started && budget.bytesRemaining <= 0)
        || (mine != [] && mine[|mine| - 1].sent <= 0 < |mine[|mine| - 1].data|)
    {
      hide Valid, InTurn, Taken;
      data, flushed, mine := fdWriteBuffer, false, [];
      NothingOffered(fdWriteBuffer);
      while |data| > 0
        invariant Valid() && InTurn(fdWriteBuffer, mine) && attempts == old(attempts) + mine
        invariant wire == old(wire) + Taken(mine) && fdWriteBuffer == Taken(mine) + data
        invariant !flushed ==> data == fdWriteBuffer
        invariant mine != [] ==> mine[|mine| - 1].sent > 0
        decreases |data|
      {
        var intend := Min(BUFFER_SIZE, |data|);
        if !CanSend() {
          break;
        }
        var sent;
        sent, mine := OfferNext(fdWriteBuffer, data, intend, mine);
        if sent <= 0 {
          break;
        }
        flushed := true;
        data := data[sent..];
      }
    }

    /** One call of send within a flush. */
    method OfferNext(ghost waiting: seq<byte>, data: seq<byte>, intend: nat, ghost mine: seq<Attempt>)
        returns (sent: int, ghost more: seq<Attempt>)
      requires Valid() && CanSend() && intend == Min(BUFFER_SIZE, |data|) > 0
      requires InTurn(waiting, mine) && waiting == Taken(mine) + data && (mine != [] ==> mine[|mine| - 1].sent > 0)
      modifies this`wire, this`attempts, this`pace, budget
      ensures Valid() && sent <= intend && attempts == old(attempts) + [Attempt(data[..intend], sent)]
      ensures more == mine + [Attempt(data[..intend], sent)] && InTurn(waiting, more)
      ensures wire == old(wire) + (if sent > 0 then data[..sent] else [])
      ensures Taken(more) == Taken(mine) + if sent > 0 then data[..sent] else []
      ensures waiting == Taken(more) + if sent > 0 then data[sent..] else data
    {
      hide Valid, InTurn, Taken;
      sent := Offer(data, intend);
      InTurnMore(waiting, mine, data, intend, sent);
      more := mine + [Attempt(data[..intend], sent)];
      assert sent > 0 ==> data == data[..sent] + data[sent..];
    }

    /** What is waiting goes first; what the socket does not take waits. Without a descriptor the data is dropped. */
    method WriteDataToFd(data: seq<byte>) returns (n: nat)
      requires Valid() && budget == null
      modifies this`fdWriteBuffer, this`wire, this`attempts, this`pace
      ensures Valid() && Everything() == old(Everything()) + (if fd < 0 then [] else data)
      ensures n == if fd < 0 then 0 else |data|
      ensures fd >= 0 ==>
        fdWriteBuffer == []
        || (|old(attempts)| < |attempts| && attempts[|attempts| - 1].sent < |attempts[|attempts| - 1].data|)
      ensures old(attempts) <= attempts
    {
      hide InTurn, Taken;
      if fd < 0 {
        return 0;
      }
      FlushBuffer();
      ghost var before := Everything();
      if |fdWriteBuffer| > 0 {
        fdWriteBuffer := fdWriteBuffer + data;
        assert Everything() == before + data;
      } else if |data| > 0 {
        var sent := Offer(data, |data|);
        fdWriteBuffer := if sent > 0 then data[sent..] else data;
        assert sent > 0 ==> data == data[..sent] + data[sent..];
        assert Everything() == before + data;
      }
      n := |data|;
    }

    /** A paced socket never takes more than was added to its budget, plus one buffer less one byte. */
    lemma PacedWire()
      requires Valid() && budget != null
      ensures |wire| <= TotalAdded(pace) + BUFFER_SIZE - 1
    {
      SentIsBounded(pace);
    }
  }
}
