/** The interrupt handler of the host controller. */
module XhciHost {
  import opened XhciTrb
  import opened TrbRing
  import opened EventRing
  import opened XhciPort

  const ERST_EHB: nat := 8

  /** What the handler leaves for waiting threads: the last event worth waking for, and the flags. */
  datatype Inbox = Inbox(evtTrb: Trb, flags: Flags)

  predicate Wakes(ev: Trb) { ev.kind == TRB_COMPLETION || ev.kind == TRB_TRANSFER }

  function Deliver(inbox: Inbox, ev: Trb): Inbox {
    if Wakes(ev) then Inbox(ev, Complete(inbox.flags)) else inbox
  }

  function DeliverAll(inbox: Inbox, events: seq<Trb>): Inbox {
    if events == [] then inbox
    else Deliver(DeliverAll(inbox, events[..|events| - 1]), events[|events| - 1])
  }

  lemma DeliverOneMore(inbox: Inbox, events: seq<Trb>, ev: Trb)
    ensures DeliverAll(inbox, events + [ev]) == Deliver(DeliverAll(inbox, events), ev)
  {
    assert (events + [ev])[..|events|] == events;
  }

  /** Position of the last event that wakes, -1 without one. */
  function LastWaker(events: seq<Trb>): (k: int)
    ensures -1 <= k < |events| && (k >= 0 ==> Wakes(events[k]))
    ensures forall j :: k < j < |events| ==> !Wakes(events[j])
  {
    if events == [] then -1
    else if Wakes(events[|events| - 1]) then |events| - 1
    else
      var k := LastWaker(events[..|events| - 1]);
      assert forall j :: k < j < |events| - 1 ==> events[j] == events[..|events| - 1][j];
      k
  }

  /**
   A batch of events wakes the waiter iff some event in it wakes; then the last such event is kept, and
   without one the event kept before stays.
   */
  lemma {:induction false} BatchKeepsLastWaker(inbox: Inbox, events: seq<Trb>)
    ensures var after, k := DeliverAll(inbox, events), LastWaker(events);
            && after.evtTrb == (if k >= 0 then events[k] else inbox.evtTrb)
            && after.flags.wait == inbox.flags.wait
            && (after.flags.sync <==> inbox.flags.sync || (inbox.flags.wait && k >= 0))
    decreases |events|
  {
    if events != [] {
      BatchKeepsLastWaker(inbox, events[..|events| - 1]);
    }
  }

  /** The dequeue pointer register, bits 4 and up of which address a TRB. */
  predicate Addresses(erdp: nat, base: nat, index: nat) { erdp / 16 * 16 == TrbAddress(base, index) }

  function WithHandlerBusy(erdp: nat): nat { if erdp / 8 % 2 == 1 then erdp else erdp + ERST_EHB }

  lemma LowDigits(x: nat, q: nat, r: nat)
    requires x == 16 * q + r && r < 16
    ensures x / 16 == q && x % 16 == r && x % 8 == r % 8
  {
    assert x == 8 * (2 * q) + r;
  }

  lemma BusyBit(x: nat, q: nat, r: nat)
    requires x == 16 * q + r && r < 16
    ensures x / 8 % 2 == r / 8
  {
    assert x / 8 == 2 * q + r / 8;
  }

  lemma HandlerBusyKeepsPointer(erdp: nat)
    ensures WithHandlerBusy(erdp) / 16 == erdp / 16 && WithHandlerBusy(erdp) / 8 % 2 == 1
    ensures WithHandlerBusy(erdp) % 8 == erdp % 8
  {
    var q, r := erdp / 16, erdp % 16;
    BusyBit(erdp, q, r);
    LowDigits(erdp, q, r);
    if r < 8 {
      BusyBit(erdp + 8, q, r + 8);
      LowDigits(erdp + 8, q, r + 8);
    }
  }

  lemma MaskedPointer(erdp: nat, base: nat, index: nat)
    requires base % 64 == 0
    ensures Addresses(erdp % 16 + TrbAddress(base, index), base, index)
    ensures (erdp % 16 + TrbAddress(base, index)) % 8 == erdp % 8
  {
    AlignedBase(base);
    LowDigits(erdp % 16 + TrbAddress(base, index), 4 * (base / 64) + index, erdp % 16);
    LowDigits(erdp, erdp / 16, erdp % 16);
  }

  lemma BasePointer(base: nat)
    requires base % 64 == 0
    ensures Addresses(base, base, 0)
  {
    AlignedBase(base);
    LowDigits(base, 4 * (base / 64), 0);
  }

  class Hcd {
    const port: Port
    const eventTrb: array<Trb>
    const eventBase: nat
    var readIndex: nat
    var cycleBit: bv32
    var evtTrb: Trb
    var erdp: nat

    ghost predicate Valid()
      reads this
    {
      && eventBase % 64 == 0
      && readIndex < eventTrb.Length
      && (cycleBit == 0 || cycleBit == 1)
      && Addresses(erdp, eventBase, readIndex)
    }

    ghost function At(): Reader
      reads this
    {
      Reader(readIndex, cycleBit == 1)
    }

    ghost function Box(): Inbox
      reads this, port
    {
      Inbox(evtTrb, port.Get())
    }

    constructor (port: Port, eventTrb: array<Trb>, eventBase: nat)
      requires 0 < eventTrb.Length && eventBase % 64 == 0
      ensures this.port == port && this.eventTrb == eventTrb && this.eventBase == eventBase
      ensures Valid() && At() == Reader(0, true)
    {
      this.port, this.eventTrb, this.eventBase := port, eventTrb, eventBase;
      readIndex, cycleBit, evtTrb, erdp := 0, 1, ZERO_TRB, eventBase;
      BasePointer(eventBase);
    }

    /** Completions and transfer events are kept and wake the waiter; port and other events do neither. */
    method HandleEvent(event: Trb)
      modifies this`evtTrb, port
      ensures Box() == Deliver(old(Box()), event)
      ensures event.kind == TRB_COMPLETION || event.kind == TRB_TRANSFER ==>
                evtTrb == event && (port.eventSync <==> old(port.eventSync || port.eventWait))
      ensures event.kind != TRB_COMPLETION && event.kind != TRB_TRANSFER ==> Box() == old(Box())
    {
      if event.kind == TRB_COMPLETION {
        evtTrb := event;
        port.EventComplete();
      } else if event.kind == TRB_TRANSFER {
        evtTrb := event;
        port.EventComplete();
      }
    }

    method AdvanceRead()
      requires readIndex < eventTrb.Length && (cycleBit == 0 || cycleBit == 1)
      modifies this`readIndex, this`cycleBit
      ensures At() == Advance(eventTrb.Length, old(At()))
      ensures cycleBit == 0 || cycleBit == 1
    {
      AdvanceByRemainder(eventTrb.Length, readIndex);
      readIndex := (readIndex + 1) % eventTrb.Length;
      if readIndex == 0 {
        cycleBit := cycleBit ^ 1;
      }
    }

    /** The pointer register follows the read index; when that is where it was, it is left alone. */
    method UpdateDequeuePointer(curRdIndex: nat)
      requires eventBase % 64 == 0 && Addresses(erdp, eventBase, curRdIndex)
      modifies this`erdp
      ensures Addresses(erdp, eventBase, readIndex) && erdp / 8 % 2 == 1 && erdp % 8 == old(erdp) % 8
    {
      var newErdp := erdp;
      if curRdIndex != readIndex {
        MaskedPointer(erdp, eventBase, readIndex);
        newErdp := erdp % 16 + TrbAddress(eventBase, readIndex);
      }
      HandlerBusyKeepsPointer(newErdp);
      erdp := WithHandlerBusy(newErdp);
    }

    /**
     One run of the handler over a ring that is not written meanwhile.  The loop has no bound of its
     own; it ends because a full lap flips the cycle state it compares with.
     */
    method Isr() returns (ghost handled: seq<Trb>)
      requires Valid()
      modifies this`readIndex, this`cycleBit, this`evtTrb, this`erdp, port
      ensures Valid()
      ensures (At(), handled) == Walk(eventTrb[..], old(At()), eventTrb.Length)
      ensures !Matches(eventTrb[..], At())
      ensures Box() == DeliverAll(old(Box()), handled)
      ensures erdp / 8 % 2 == 1 && erdp % 8 == old(erdp) % 8
    {
      ghost var slots, start, k := eventTrb[..], At(), 0;
      handled := [];
      var curRdIndex := readIndex;
      WalkStops(slots, start, |slots|);
      while true
        invariant readIndex < eventTrb.Length && (cycleBit == 0 || cycleBit == 1)
        invariant 0 <= k <= |slots| && |handled| == k && erdp == old(erdp)
        invariant (At(), handled) == Walk(slots, start, k)
        invariant Box() == DeliverAll(old(Box()), handled)
        decreases |slots| - k
      {
        var event := eventTrb[readIndex];
        if event.cycle != (cycleBit == 1) {
          break;
        }
        WalkExtends(slots, start, k);
        DeliverOneMore(old(Box()), handled, event);
        HandleEvent(event);
        AdvanceRead();
        handled, k := handled + [event], k + 1;
      }
      WalkSettles(slots, start, k, |slots|);
      UpdateDequeuePointer(curRdIndex);
    }
  }
}
