/** The loopback of a serial port through a ring buffer, with receive throttling, as an interrupt handler. */
module UartLoopback {

  const RING_BUF_SIZE := 1024
  const CHUNK := 64

  function Min(a: nat, b: nat): nat { if a < b then a else b }

  /**
   What the port answers during one iteration of the handler: whether receive data is ready and which
   bytes, whether reading them fails, whether transmission is ready and how many bytes its FIFO accepts.
   */
  datatype Irq = Irq(rxReady: bool, available: seq<bv8>, readFails: bool, txReady: bool, accept: nat)

  datatype Link = Link(
    ring: seq<bv8>, rxThrottled: bool, rxEnabled: bool, txEnabled: bool,
    received: seq<bv8>, taken: seq<bv8>, sent: seq<bv8>, lost: nat)

  function Received(irq: Irq, len: nat): (bytes: seq<bv8>)
    ensures |bytes| <= len
  {
    if irq.readFails then [] else irq.available[..Min(len, |irq.available|)]
  }

  function RxPart(l: Link, irq: Irq): Link
    requires |l.ring| < RING_BUF_SIZE
  {
    var bytes := Received(irq, Min(RING_BUF_SIZE - |l.ring|, CHUNK));
    l.(ring := l.ring + bytes, received := l.received + bytes, txEnabled := l.txEnabled || bytes != [])
  }

  function TxPart(l: Link, irq: Irq): Link {
    var n := Min(|l.ring|, CHUNK);
    if n == 0 then l.(txEnabled := false)
    else
      var k := Min(irq.accept, n);
      l.(ring := l.ring[n..], rxThrottled := false, rxEnabled := l.rxEnabled || l.rxThrottled,
         taken := l.taken + l.ring[..n], sent := l.sent + l.ring[..k], lost := l.lost + (n - k))
  }

  predicate Throttles(l: Link, irq: Irq) { !l.rxThrottled && irq.rxReady && |l.ring| == RING_BUF_SIZE }

  function Iterate(l: Link, irq: Irq): Link
    requires |l.ring| <= RING_BUF_SIZE
  {
    if Throttles(l, irq) then l.(rxEnabled := false, rxThrottled := true)
    else
      var l' := if !l.rxThrottled && irq.rxReady then RxPart(l, irq) else l;
      if irq.txReady then TxPart(l', irq) else l'
  }

  ghost predicate LinkInv(l: Link) {
    && |l.ring| <= RING_BUF_SIZE
    && (l.rxThrottled ==> |l.ring| == RING_BUF_SIZE)
    && (l.rxEnabled <==> !l.rxThrottled)
    && (l.ring != [] ==> l.txEnabled)
    && l.received == l.taken + l.ring
    && |l.taken| == |l.sent| + l.lost
    && (l.lost == 0 ==> l.sent == l.taken)
  }

  lemma RxKeeps(l: Link, irq: Irq)
    requires LinkInv(l) && |l.ring| < RING_BUF_SIZE
    ensures LinkInv(RxPart(l, irq))
  {
    var bytes := Received(irq, Min(RING_BUF_SIZE - |l.ring|, CHUNK));
    assert (l.taken + l.ring) + bytes == l.taken + (l.ring + bytes);
  }

  lemma TxKeeps(l: Link, irq: Irq)
    requires LinkInv(l)
    ensures LinkInv(TxPart(l, irq))
  {
    var n := Min(|l.ring|, CHUNK);
    assert l.ring == l.ring[..n] + l.ring[n..];
    assert l.taken + l.ring == (l.taken + l.ring[..n]) + l.ring[n..];
  }

  lemma IterateKeeps(l: Link, irq: Irq)
    requires LinkInv(l)
    ensures LinkInv(Iterate(l, irq))
  {
    if !l.rxThrottled && irq.rxReady && |l.ring| < RING_BUF_SIZE {
      RxKeeps(l, irq);
      TxKeeps(RxPart(l, irq), irq);
    } else {
      TxKeeps(l, irq);
    }
  }

  function IterateAll(l: Link, irqs: seq<Irq>): Link
    requires LinkInv(l)
    decreases |irqs|
  {
    if irqs == [] then l
    else
      IterateKeeps(l, irqs[0]);
      IterateAll(Iterate(l, irqs[0]), irqs[1..])
  }

  const START := Link([], false, true, false, [], [], [], 0)

  lemma {:induction false} AllKeep(l: Link, irqs: seq<Irq>)
    requires LinkInv(l)
    ensures LinkInv(IterateAll(l, irqs))
    decreases |irqs|
  {
    if irqs != [] {
      IterateKeeps(l, irqs[0]);
      AllKeep(Iterate(l, irqs[0]), irqs[1..]);
    }
  }

  // What the port's answers lose

  /** How many bytes an iteration offers to the transmit FIFO: a chunk of the ring after reception. */
  function Offered(l: Link, irq: Irq): nat
    requires |l.ring| <= RING_BUF_SIZE
  {
    if Throttles(l, irq) || !irq.txReady then 0
    else
      var read := if !l.rxThrottled && irq.rxReady then |Received(irq, Min(RING_BUF_SIZE - |l.ring|, CHUNK))| else 0;
      Min(|l.ring| + read, CHUNK)
  }

  /** By how much the FIFO falls short of it. */
  function Shortfall(l: Link, irq: Irq): nat
    requires |l.ring| <= RING_BUF_SIZE
  {
    var n := Offered(l, irq);
    if irq.accept < n then n - irq.accept else 0
  }

  function TotalShortfall(l: Link, irqs: seq<Irq>): nat
    requires LinkInv(l)
    decreases |irqs|
  {
    if irqs == [] then 0
    else
      IterateKeeps(l, irqs[0]);
      Shortfall(l, irqs[0]) + TotalShortfall(Iterate(l, irqs[0]), irqs[1..])
  }

  /** Exactly the bytes the FIFO does not accept are lost. */
  lemma LostIsShortfall(l: Link, irq: Irq)
    requires LinkInv(l)
    ensures Iterate(l, irq).lost == l.lost + Shortfall(l, irq)
  {}

  lemma {:induction false} LostInTotal(l: Link, irqs: seq<Irq>)
    requires LinkInv(l)
    ensures IterateAll(l, irqs).lost == l.lost + TotalShortfall(l, irqs)
    decreases |irqs|
  {
    if irqs != [] {
      IterateKeeps(l, irqs[0]);
      LostIsShortfall(l, irqs[0]);
      LostInTotal(Iterate(l, irqs[0]), irqs[1..]);
    }
  }

  /** A port whose FIFO always takes a whole chunk never falls short. */
  lemma {:induction false} WholeChunksSuffice(l: Link, irqs: seq<Irq>)
    requires LinkInv(l) && forall i :: 0 <= i < |irqs| && irqs[i].txReady ==> irqs[i].accept >= CHUNK
    ensures TotalShortfall(l, irqs) == 0
    decreases |irqs|
  {
    if irqs != [] {
      IterateKeeps(l, irqs[0]);
      WholeChunksSuffice(Iterate(l, irqs[0]), irqs[1..]);
    }
  }

  /**
   Over all interrupt sequences: receive is throttled only by a full ring, a ring with data has its
   transmit interrupt on (so the two are never both stuck), no received byte is missing from what was
   taken out plus what is buffered, and what is missing from the bytes sent plus those buffered is exactly
   what the FIFO was offered and did not accept; they are the bytes received iff that never happened.
   */
  lemma ThrottleSafety(irqs: seq<Irq>)
    ensures var l := IterateAll(START, irqs);
            && (l.rxThrottled ==> |l.ring| == RING_BUF_SIZE && l.txEnabled)
            && (l.ring != [] ==> l.txEnabled)
            && (l.rxEnabled <==> !l.rxThrottled)
            && l.received == l.taken + l.ring
            && |l.received| == |l.sent| + |l.ring| + TotalShortfall(START, irqs)
            && (l.received == l.sent + l.ring <==> TotalShortfall(START, irqs) == 0)
  {
    AllKeep(START, irqs);
    LostInTotal(START, irqs);
    var l := IterateAll(START, irqs);
    if l.received == l.sent + l.ring {
      assert |l.sent| + |l.ring| == |l.taken| + |l.ring|;
    }
  }

  /** One byte received and a FIFO that accepts nothing: the byte is neither sent nor buffered. */
  lemma ByteCanBeLost(b: bv8)
    ensures var l := Iterate(START, Irq(true, [b], false, true, 0));
            l.received == [b] && l.sent == [] && l.ring == [] && Shortfall(START, Irq(true, [b], false, true, 0)) == 1
  {}

  // What one iteration has to do

  /** A full ring stops reception, and nothing else happens in that iteration. */
  lemma FullRingThrottles(l: Link, irq: Irq)
    requires LinkInv(l) && !l.rxThrottled && irq.rxReady && |l.ring| == 1024
    ensures Iterate(l, irq) == l.(rxThrottled := true, rxEnabled := false)
  {}

  /** Otherwise a port that is not throttled reads as much as there is, fits, and goes into 64 bytes. */
  lemma ReceivesWhatFits(l: Link, irq: Irq)
    requires LinkInv(l)
    ensures var n := Iterate(l, irq).received;
            if l.rxThrottled || !irq.rxReady || irq.readFails || |l.ring| == 1024 then n == l.received
            else
              && l.received <= n && n[|l.received|..] <= irq.available
              && var read := |n| - |l.received|;
                 read <= 64 && read <= 1024 - |l.ring|
                 && (read == |irq.available| || read == 64 || read == 1024 - |l.ring|)
  {}

  /** A ready transmitter takes up to 64 bytes off the front; the FIFO gets their first part. */
  lemma TransmitsTheFront(l: Link, irq: Irq)
    requires LinkInv(l) && irq.txReady && !Throttles(l, irq)
    ensures var l' := Iterate(l, irq);
            && l.taken <= l'.taken && l.sent <= l'.sent && l'.sent[|l.sent|..] <= l'.taken[|l.taken|..]
            && (|l'.taken| - |l.taken| == 64 || l'.ring == [])
            && |l'.taken| - |l.taken| <= 64
            && (|l'.sent| - |l.sent| == irq.accept || |l'.sent| - |l.sent| == |l'.taken| - |l.taken|)
            && |l'.sent| - |l.sent| <= irq.accept
  {
    var l1 := if !l.rxThrottled && irq.rxReady then RxPart(l, irq) else l;
    assert Iterate(l, irq) == TxPart(l1, irq);
  }

  /** An idle transmitter is switched off: an iteration that finds the ring empty leaves no transmit interrupt on. */
  lemma EmptyRingDisablesTransmit(l: Link, irq: Irq)
    requires LinkInv(l) && irq.txReady && l.ring == [] && (!irq.rxReady || irq.readFails || irq.available == [])
    ensures !Iterate(l, irq).txEnabled && Iterate(l, irq).ring == []
  {}

  /** A full ring does not block: two iterations with a ready transmitter take out at least a chunk. */
  lemma FullRingMovesOn(l: Link, first: Irq, second: Irq)
    requires LinkInv(l) && |l.ring| == 1024 && first.txReady && second.txReady
    ensures LinkInv(Iterate(l, first))
    ensures |Iterate(Iterate(l, first), second).taken| >= |l.taken| + 64
  {
    IterateKeeps(l, first);
  }

  /** Without new input a ready transmitter empties the ring, 64 bytes at a time. */
  lemma {:induction false} QuietRingDrains(l: Link, irqs: seq<Irq>)
    requires LinkInv(l) && |l.ring| <= 64 * |irqs|
    requires forall i :: 0 <= i < |irqs| ==> irqs[i].txReady && !irqs[i].rxReady
    ensures IterateAll(l, irqs).ring == [] && IterateAll(l, irqs).received == l.received
    decreases |irqs|
  {
    if irqs != [] {
      IterateKeeps(l, irqs[0]);
      QuietRingDrains(Iterate(l, irqs[0]), irqs[1..]);
    }
  }

  /** A throttled port recovers with the next transmission. */
  lemma TransmissionUnthrottles(l: Link, irq: Irq)
    requires LinkInv(l) && l.rxThrottled && irq.txReady
    ensures var l' := Iterate(l, irq);
            !l'.rxThrottled && l'.rxEnabled && |l'.ring| == RING_BUF_SIZE - CHUNK
  {}

  class Bridge {
    var ring: seq<bv8>
    var rxThrottled: bool
    var rxEnabled: bool
    var txEnabled: bool
    ghost var received: seq<bv8>
    ghost var taken: seq<bv8>
    ghost var sent: seq<bv8>
    ghost var lost: nat

    ghost function View(): Link
      reads this
    {
      Link(ring, rxThrottled, rxEnabled, txEnabled, received, taken, sent, lost)
    }

    constructor ()
      ensures View() == START
    {
      ring, rxThrottled, rxEnabled, txEnabled := [], false, true, false;
      received, taken, sent, lost := [], [], [], 0;
    }

    /** The ring buffer's put: as many bytes as fit. */
    method RingPut(bytes: seq<bv8>) returns (n: nat)
      requires |ring| <= RING_BUF_SIZE
      modifies this`ring
      ensures n == Min(|bytes|, RING_BUF_SIZE - |old(ring)|) && ring == old(ring) + bytes[..n]
    {
      n := Min(|bytes|, RING_BUF_SIZE - |ring|);
      ring := ring + bytes[..n];
    }

    /** The handler's loop over a script of iterations; a put into the ring never falls short. */
    method InterruptHandler(irqs: seq<Irq>)
      requires LinkInv(View())
      modifies this
      ensures LinkInv(View()) && View() == IterateAll(old(View()), irqs)
    {
      ghost var start := View();
      var i := 0;
      while i < |irqs|
        invariant 0 <= i <= |irqs| && LinkInv(View())
        invariant IterateAll(start, irqs) == IterateAll(View(), irqs[i..])
      {
        var irq := irqs[i];
        ghost var l := View();
        IterateKeeps(l, irq);
        assert irqs[i..][0] == irq && irqs[i..][1..] == irqs[i + 1..];
        Iteration(irq);
        i := i + 1;
      }
    }

    /** Read what fits and put it into the ring; returns how many bytes the put dropped. */
    method Receive(irq: Irq) returns (dropped: nat)
      requires |ring| < RING_BUF_SIZE
      modifies this`ring, this`received, this`txEnabled
      ensures View() == RxPart(old(View()), irq) && dropped == 0
    {
      var bytes := Received(irq, Min(RING_BUF_SIZE - |ring|, CHUNK));
      received := received + bytes;
      var rbLen := RingPut(bytes);
      dropped := |bytes| - rbLen;
      assert bytes[..rbLen] == bytes;
      if rbLen != 0 {
        txEnabled := true;
      }
    }

    method Transmit(irq: Irq)
      modifies this
      ensures View() == TxPart(old(View()), irq)
    {
      var rbLen := Min(|ring|, CHUNK);
      var buffer := ring[..rbLen];
      if rbLen == 0 {
        txEnabled := false;
        return;
      }
      ring := ring[rbLen..];
      if rxThrottled {
        rxEnabled := true;
        rxThrottled := false;
      }
      var sendLen := Min(irq.accept, rbLen);
      assert buffer[..sendLen] == old(ring)[..sendLen];
      taken, sent, lost := taken + buffer, sent + buffer[..sendLen], lost + (rbLen - sendLen);
    }

    method Iteration(irq: Irq)
      requires LinkInv(View())
      modifies this
      ensures View() == Iterate(old(View()), irq)
    {
      if !rxThrottled && irq.rxReady {
        if RING_BUF_SIZE - |ring| == 0 {
          rxEnabled := false;
          rxThrottled := true;
          return;
        }
        var dropped := Receive(irq);
      }
      if irq.txReady {
        Transmit(irq);
      }
    }
  }
}
