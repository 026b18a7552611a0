/**
 Producer rings as values: the driver's half (write index, cycle bit, toggling link TRB in the last
 slot) against the controller's half (dequeue pointer and consumer cycle state, section 4.9.2 of the
 xHCI specification).  The memory writes of the driver and the fetches of the controller are separate
 steps that interleave freely.
 */
module TrbRing {
  import opened XhciTrb
  import opened Division

  /** The driver's view.  `write == |slots| - 1` is the moment between a TRB write and the link toggle. */
  datatype Producer = Producer(base: nat, slots: seq<Trb>, write: nat, cycle: bool) {
    ghost predicate Valid() {
      && 2 <= |slots|
      && write < |slots|
      && (forall i :: 0 <= i < write ==> slots[i].cycle == cycle)
      && (forall i :: write <= i < |slots| ==> slots[i].cycle == !cycle)
      && (forall i :: 0 <= i < |slots| - 1 ==> !slots[i].IsLink())
      && Closed(base, slots)
    }

    predicate Idle() { write + 1 < |slots| }
  }

  /** The last slot is a link TRB that toggles the cycle state and addresses the start of the ring. */
  predicate Closed(base: nat, slots: seq<Trb>)
    requires |slots| > 0
  {
    var link := slots[|slots| - 1];
    base % 64 == 0 && link.IsLink() && link.TogglesCycle() && link.parameter == Pointer(base)
  }

  function InitialSlots(n: nat, base: nat): seq<Trb>
    requires 2 <= n
  {
    seq(n, i => if i == n - 1 then LinkTrb(base) else ZERO_TRB)
  }

  function Initial(n: nat, base: nat): (p: Producer)
    requires 2 <= n && base % 64 == 0
    ensures p.Valid() && p.Idle()
  {
    LinkTrbCloses(base);
    Producer(base, InitialSlots(n, base), 0, true)
  }

  /** Its data slots are cleared and its link is written in full. */
  lemma InitialContents(n: nat, base: nat, i: nat)
    requires 2 <= n && base % 64 == 0 && i < n
    ensures var t := Initial(n, base).slots[i];
            if i < n - 1 then t == Trb(Pointer(0), 0, 0, 0, false)
            else t == Trb(Pointer(base), 0, 6 << 10, 2, false)
  {
    InitialTrbs(base);
  }

  /** What the enqueue routine demands of a TRB: the ring's cycle state, and not a link. */
  predicate Fits(p: Producer, t: Trb) { t.cycle == p.cycle && !t.IsLink() }

  function WriteTrb(p: Producer, t: Trb): (q: Producer)
    requires p.Valid() && p.Idle() && Fits(p, t)
    ensures q.Valid() && q.base == p.base
  {
    p.(slots := p.slots[p.write := t], write := p.write + 1)
  }

  function ToggleLink(p: Producer): (q: Producer)
    requires p.Valid() && !p.Idle()
    ensures q.Valid() && q.Idle() && q.base == p.base
  {
    var link := p.slots[p.write];
    p.(slots := p.slots[p.write := link.(cycle := !link.cycle)], write := 0, cycle := !p.cycle)
  }

  function Enqueue(p: Producer, t: Trb): (q: Producer)
    requires p.Valid() && p.Idle() && Fits(p, t)
    ensures q.Valid() && q.Idle() && q.base == p.base && |q.slots| == |p.slots|
  {
    var q := WriteTrb(p, t);
    if q.Idle() then q else ToggleLink(q)
  }

  // ---------------------------------------------------------------- the controller

  datatype Consumer = Consumer(deq: nat, ccs: bool)

  datatype Fetched = Nothing | Took(trb: Trb)

  /** The slot a link TRB sends the controller to. */
  function LinkTarget(base: nat, link: Trb): (i: int)
    ensures link.parameter == Pointer(base) && base % 64 == 0 ==> i == 0
  {
    if link.parameter.Pointer? then
      FirstSlotPointed(base);
      PointedIndex(base, link.parameter.address)
    else -1
  }

  /** One fetch: stop on a foreign cycle state, follow a link to where it points, or take a TRB. */
  function Fetch(base: nat, slots: seq<Trb>, c: Consumer): (r: (Consumer, Fetched))
    requires c.deq < |slots|
    ensures r.0.deq <= |slots|
    ensures Closed(base, slots) ==> r.0.deq < |slots|
  {
    var t := slots[c.deq];
    if t.cycle != c.ccs then (c, Nothing)
    else if !t.IsLink() then (Consumer(c.deq + 1, c.ccs), Took(t))
    else if 0 <= LinkTarget(base, t) < |slots| then
      (Consumer(LinkTarget(base, t), if t.TogglesCycle() then !c.ccs else c.ccs), Nothing)
    else (c, Nothing)
  }

  function TakenOf(f: Fetched): seq<Trb> { if f.Took? then [f.trb] else [] }

  /** Everything the controller takes in `k` fetches while the driver writes nothing. */
  function Taken(base: nat, slots: seq<Trb>, c: Consumer, k: nat): seq<Trb>
    requires c.deq < |slots| && Closed(base, slots)
    decreases k
  {
    if k == 0 then [] else
      var (c', f) := Fetch(base, slots, c);
      TakenOf(f) + Taken(base, slots, c', k - 1)
  }

  /** The controller is on the driver's lap, or one lap behind it. */
  ghost predicate Coherent(p: Producer, c: Consumer) {
    && p.Valid()
    && c.deq < |p.slots|
    && if c.ccs == p.cycle then c.deq <= p.write else p.write <= c.deq
  }

  /** TRBs written and not yet taken. */
  function InFlight(p: Producer, c: Consumer): seq<Trb>
    requires p.write < |p.slots| && c.deq < |p.slots|
    requires c.ccs == p.cycle ==> c.deq <= p.write
  {
    if c.ccs == p.cycle then p.slots[c.deq..p.write]
    else p.slots[c.deq..|p.slots| - 1] + p.slots[..p.write]
  }

  /** The write does not overwrite a TRB in flight; a caller can read it off the two indices. */
  predicate WriteRoom(p: Producer, c: Consumer) { c.ccs != p.cycle ==> p.write < c.deq }

  /** The controller has followed the link of the previous lap, so toggling the link again is not missed. */
  predicate LinkFollowed(p: Producer, c: Consumer) { c.ccs == p.cycle }

  /** What an enqueue in one piece needs: room for the write, and for the toggle if the write calls for it. */
  predicate Room(p: Producer, c: Consumer) {
    WriteRoom(p, c) && (p.write + 2 == |p.slots| ==> LinkFollowed(p, c))
  }

  /** The controller has taken the last data slot of its lap and has not followed the link yet. */
  predicate Parked(p: Producer, c: Consumer) { c.deq + 1 == |p.slots| }

  /** Room in terms of the number of TRBs outstanding: the write needs only the usual count. */
  lemma RoomByCount(p: Producer, c: Consumer)
    requires Coherent(p, c) && p.Idle()
    ensures WriteRoom(p, c) <==> |InFlight(p, c)| < |p.slots| - 1
    ensures !Parked(p, c) ==> (Room(p, c) <==> |InFlight(p, c)| < |p.slots| - 1)
    ensures Parked(p, c) ==> (Room(p, c) <==> |InFlight(p, c)| < |p.slots| - 2)
    ensures |InFlight(p, c)| < |p.slots| - 2 ==> Room(p, c)
  {}

  // ---------------------------------------------------------------- what one step does

  lemma WriteAppends(p: Producer, c: Consumer, t: Trb)
    requires Coherent(p, c) && p.Idle() && Fits(p, t) && WriteRoom(p, c)
    ensures Coherent(WriteTrb(p, t), c)
    ensures InFlight(WriteTrb(p, t), c) == InFlight(p, c) + [t]
  {
    var q := WriteTrb(p, t);
    if c.ccs == p.cycle {
      assert q.slots[c.deq..q.write] == p.slots[c.deq..p.write] + [t];
    } else {
      assert q.slots[c.deq..|p.slots| - 1] == p.slots[c.deq..|p.slots| - 1];
      assert q.slots[..q.write] == p.slots[..p.write] + [t];
    }
  }

  lemma ToggleKeeps(p: Producer, c: Consumer)
    requires Coherent(p, c) && !p.Idle() && LinkFollowed(p, c)
    ensures Coherent(ToggleLink(p), c)
    ensures InFlight(ToggleLink(p), c) == InFlight(p, c)
  {
    assert ToggleLink(p).slots[c.deq..|p.slots| - 1] == p.slots[c.deq..p.write];
  }

  lemma EnqueueAppends(p: Producer, c: Consumer, t: Trb)
    requires Coherent(p, c) && p.Idle() && Fits(p, t) && Room(p, c)
    ensures Coherent(Enqueue(p, t), c)
    ensures InFlight(Enqueue(p, t), c) == InFlight(p, c) + [t]
  {
    WriteAppends(p, c, t);
    if !WriteTrb(p, t).Idle() {
      ToggleKeeps(WriteTrb(p, t), c);
    }
  }

  /** Fetches until the controller has nothing left to take, following the link included. */
  function Work(p: Producer, c: Consumer): nat
    requires p.write < |p.slots| && c.deq < |p.slots|
    requires c.ccs == p.cycle ==> c.deq <= p.write
  {
    |InFlight(p, c)| + if c.ccs == p.cycle then 0 else 1
  }

  ghost predicate FetchOutcome(p: Producer, c: Consumer, c': Consumer, f: Fetched)
    requires Coherent(p, c)
  {
    && Coherent(p, c')
    && InFlight(p, c) == TakenOf(f) + InFlight(p, c')
    && (Work(p, c') < Work(p, c) || (Work(p, c) == 0 && f == Nothing && c' == c))
  }

  lemma FetchOnSameLap(p: Producer, c: Consumer)
    requires Coherent(p, c) && c.ccs == p.cycle
    ensures FetchOutcome(p, c, Fetch(p.base, p.slots, c).0, Fetch(p.base, p.slots, c).1)
  {
    if c.deq < p.write {
      assert p.slots[c.deq..p.write] == [p.slots[c.deq]] + p.slots[c.deq + 1..p.write];
    }
  }

  lemma FetchOnEarlierLap(p: Producer, c: Consumer)
    requires Coherent(p, c) && c.ccs != p.cycle
    ensures FetchOutcome(p, c, Fetch(p.base, p.slots, c).0, Fetch(p.base, p.slots, c).1)
  {
    if Parked(p, c) {
      assert Fetch(p.base, p.slots, c) == (Consumer(0, p.cycle), Nothing);
      assert InFlight(p, c) == p.slots[..p.write];
    } else {
      assert p.slots[c.deq..|p.slots| - 1] == [p.slots[c.deq]] + p.slots[c.deq + 1..|p.slots| - 1];
    }
  }

  /** A fetch takes the oldest TRB in flight, follows the link, or finds nothing in flight. */
  lemma FetchTakesOldest(p: Producer, c: Consumer)
    requires Coherent(p, c)
    ensures FetchOutcome(p, c, Fetch(p.base, p.slots, c).0, Fetch(p.base, p.slots, c).1)
  {
    if c.ccs == p.cycle {
      FetchOnSameLap(p, c);
    } else {
      FetchOnEarlierLap(p, c);
    }
  }

  /** Left alone for long enough, the controller takes exactly what is in flight, in order. */
  lemma {:induction false} DrainsInFlight(p: Producer, c: Consumer, k: nat)
    requires Coherent(p, c) && Work(p, c) <= k
    ensures Taken(p.base, p.slots, c, k) == InFlight(p, c)
    decreases k
  {
    if k > 0 {
      FetchTakesOldest(p, c);
      DrainsInFlight(p, Fetch(p.base, p.slots, c).0, k - 1);
    }
  }

  lemma {:induction false} BlockedTakesNothing(base: nat, slots: seq<Trb>, c: Consumer, k: nat)
    requires c.deq < |slots| && Closed(base, slots) && slots[c.deq].cycle != c.ccs
    ensures Taken(base, slots, c, k) == []
    decreases k
  {
    if k > 0 {
      BlockedTakesNothing(base, slots, c, k - 1);
    }
  }

  /**
   Room for the write is exactly what keeps the queue: with it the controller goes on to take everything
   in flight and the new TRB, without it the controller finds nothing to take.
   */
  lemma WriteIsExact(p: Producer, c: Consumer, t: Trb, k: nat)
    requires Coherent(p, c) && p.Idle() && Fits(p, t) && |InFlight(p, c)| + 2 <= k
    ensures WriteRoom(p, c) <==> Taken(p.base, WriteTrb(p, t).slots, c, k) == InFlight(p, c) + [t]
    ensures !WriteRoom(p, c) ==> Taken(p.base, WriteTrb(p, t).slots, c, k) == []
  {
    if WriteRoom(p, c) {
      WriteAppends(p, c, t);
      DrainsInFlight(WriteTrb(p, t), c, k);
    } else {
      BlockedTakesNothing(p.base, WriteTrb(p, t).slots, c, k);
    }
  }

  /**
   A toggle is seen exactly when the controller has followed the link of the previous lap by then.
   Otherwise it finds a link of the wrong cycle state and, with it, none of what is in flight.
   */
  lemma ToggleIsExact(p: Producer, c: Consumer, k: nat)
    requires Coherent(p, c) && !p.Idle() && |InFlight(p, c)| + 1 <= k
    ensures LinkFollowed(p, c) <==> Taken(p.base, ToggleLink(p).slots, c, k) == InFlight(p, c)
    ensures !LinkFollowed(p, c) ==> Taken(p.base, ToggleLink(p).slots, c, k) == []
  {
    if LinkFollowed(p, c) {
      ToggleKeeps(p, c);
      DrainsInFlight(ToggleLink(p), c, k);
    } else {
      BlockedTakesNothing(p.base, ToggleLink(p).slots, c, k);
    }
  }

  /** The same for an enqueue in one piece, with no fetch between its write and its toggle. */
  lemma RoomIsExact(p: Producer, c: Consumer, t: Trb, k: nat)
    requires Coherent(p, c) && p.Idle() && Fits(p, t) && |InFlight(p, c)| + 2 <= k
    ensures Room(p, c) <==> Taken(p.base, Enqueue(p, t).slots, c, k) == InFlight(p, c) + [t]
    ensures !Room(p, c) ==> Taken(p.base, Enqueue(p, t).slots, c, k) == []
  {
    if Room(p, c) {
      EnqueueAppends(p, c, t);
      DrainsInFlight(Enqueue(p, t), c, k);
    } else {
      BlockedTakesNothing(p.base, Enqueue(p, t).slots, c, k);
    }
  }

  /** Between a write and its toggle one fetch is enough to follow the previous link. */
  lemma NextFetchFollows(p: Producer, c: Consumer)
    requires Coherent(p, c) && !p.Idle()
    ensures LinkFollowed(p, Fetch(p.base, p.slots, c).0)
  {}

  /** With at most one TRB in flight a toggle overtakes no controller, unless the ring has but two slots. */
  lemma SingleIsFollowed(p: Producer, c: Consumer)
    requires Coherent(p, c) && !p.Idle() && |InFlight(p, c)| <= 1 && 3 <= |p.slots|
    ensures LinkFollowed(p, c)
  {}

  lemma FollowsLinkFirst(p: Producer, c: Consumer)
    requires Coherent(p, c) && !p.Idle() && !LinkFollowed(p, c)
    ensures Fetch(p.base, p.slots, c) == (Consumer(0, p.cycle), Nothing)
    ensures Coherent(p, Consumer(0, p.cycle)) && InFlight(p, Consumer(0, p.cycle)) == InFlight(p, c)
  {}

  /** A fetch between the two makes up for a link not followed at the time of the write. */
  lemma FetchBetweenWriteAndToggle(p: Producer, c: Consumer, t: Trb)
    requires Coherent(p, c) && p.Idle() && Fits(p, t) && WriteRoom(p, c) && !Room(p, c)
    ensures var q := WriteTrb(p, t);
            !q.Idle() && !LinkFollowed(q, c)
            && var (c', f) := Fetch(q.base, q.slots, c);
               f == Nothing && LinkFollowed(q, c')
               && Coherent(ToggleLink(q), c') && InFlight(ToggleLink(q), c') == InFlight(p, c) + [t]
  {
    var q := WriteTrb(p, t);
    WriteAppends(p, c, t);
    FollowsLinkFirst(q, c);
    ToggleKeeps(q, Consumer(0, q.cycle));
  }

  /**
   Fewer than `|slots| - 1` outstanding TRBs are not enough by themselves: here a ring of three slots
   has one TRB in flight, the controller is parked on the link, and the next enqueue strands both.
   */
  lemma ParkedControllerStrands()
    ensures exists p: Producer, c: Consumer, t: Trb, k: nat ::
              && Coherent(p, c) && p.Idle() && Fits(p, t) && |p.slots| == 3
              && |InFlight(p, c)| < |p.slots| - 1
              && |InFlight(p, c)| + 2 <= k
              && Taken(p.base, Enqueue(p, t).slots, c, k) != InFlight(p, c) + [t]
  {
    var p0 := Initial(3, 0);
    var zero := FromWords(Pointer(0), 0, TRB_NORMAL);
    var one := Stamp(zero, true);
    var p := Enqueue(Enqueue(Enqueue(p0, one), one), zero);
    var c := Consumer(2, true);
    assert InFlight(p, c) == [zero];
    assert Coherent(p, c) && Fits(p, zero);
    RoomIsExact(p, c, zero, 3);
  }

  // ---------------------------------------------------------------- all interleavings

  datatype Step = WriteStep(trb: Trb) | ToggleStep | FetchStep

  /** Both parties, with what was enqueued and what was taken so far. */
  datatype System = System(ring: Producer, hc: Consumer, sent: seq<Trb>, taken: seq<Trb>)

  ghost predicate Inv(s: System) {
    Coherent(s.ring, s.hc) && s.sent == s.taken + InFlight(s.ring, s.hc)
  }

  ghost predicate Allowed(s: System, step: Step)
    requires s.ring.Valid()
  {
    match step
    case WriteStep(t) => s.ring.Idle() && Fits(s.ring, t) && WriteRoom(s.ring, s.hc)
    case ToggleStep => !s.ring.Idle() && LinkFollowed(s.ring, s.hc)
    case FetchStep => true
  }

  ghost function Next(s: System, step: Step): System
    requires s.ring.Valid() && s.hc.deq < |s.ring.slots| && Allowed(s, step)
  {
    match step
    case WriteStep(t) => s.(ring := WriteTrb(s.ring, t), sent := s.sent + [t])
    case ToggleStep => s.(ring := ToggleLink(s.ring))
    case FetchStep =>
      var (hc, f) := Fetch(s.ring.base, s.ring.slots, s.hc);
      s.(hc := hc, taken := s.taken + TakenOf(f))
  }

  /** A run in which every write finds room and no toggle overtakes the controller on the previous link. */
  ghost predicate Reaches(s: System, steps: seq<Step>, s': System)
    decreases |steps|
  {
    if steps == [] then s == s'
    else
      && s.ring.Valid() && s.hc.deq < |s.ring.slots|
      && Allowed(s, steps[0])
      && Reaches(Next(s, steps[0]), steps[1..], s')
  }

  function Written(steps: seq<Step>): seq<Trb> {
    if steps == [] then []
    else (if steps[0].WriteStep? then [steps[0].trb] else []) + Written(steps[1..])
  }

  lemma StepKeepsInv(s: System, step: Step)
    requires Inv(s) && Allowed(s, step)
    ensures Inv(Next(s, step))
  {
    var flight := InFlight(s.ring, s.hc);
    match step
    case WriteStep(t) =>
      WriteAppends(s.ring, s.hc, t);
      assert InFlight(Next(s, step).ring, s.hc) == flight + [t];
      Concat3(s.taken, flight, [t]);
    case ToggleStep =>
      ToggleKeeps(s.ring, s.hc);
    case FetchStep =>
      FetchTakesOldest(s.ring, s.hc);
      var (hc, f) := Fetch(s.ring.base, s.ring.slots, s.hc);
      Concat3(s.taken, TakenOf(f), InFlight(s.ring, hc));
  }

  lemma Concat3<T>(a: seq<T>, b: seq<T>, c: seq<T>)
    ensures a + (b + c) == (a + b) + c
  {}

  lemma {:induction false} RunKeepsInv(s: System, steps: seq<Step>, s': System)
    requires Inv(s) && Reaches(s, steps, s')
    ensures Inv(s') && |s'.ring.slots| == |s.ring.slots|
    decreases |steps|
  {
    if steps != [] {
      StepKeepsInv(s, steps[0]);
      RunKeepsInv(Next(s, steps[0]), steps[1..], s');
    }
  }

  lemma {:induction false} RunSendsWritten(s: System, steps: seq<Step>, s': System)
    requires Reaches(s, steps, s')
    ensures s'.sent == s.sent + Written(steps)
    decreases |steps|
  {
    if steps != [] {
      var now := if steps[0].WriteStep? then [steps[0].trb] else [];
      var next := Next(s, steps[0]);
      assert next.sent == s.sent + now;
      RunSendsWritten(next, steps[1..], s');
      Concat3(s.sent, now, Written(steps[1..]));
    }
  }

  lemma DrainsRun(s: System, steps: seq<Step>, s': System, k: nat)
    requires Inv(s) && Reaches(s, steps, s') && |s.ring.slots| < k
    ensures Inv(s') && s'.sent == s.sent + Written(steps)
    ensures s'.taken + Taken(s'.ring.base, s'.ring.slots, s'.hc, k) == s'.sent
  {
    RunKeepsInv(s, steps, s');
    RunSendsWritten(s, steps, s');
    DrainsInFlight(s'.ring, s'.hc, k);
  }

  /**
   FIFO refinement.  In every interleaving from a freshly initialised ring the controller has taken a
   prefix of what was enqueued, the rest is in flight, and it takes that rest, in order, if left alone.
   */
  lemma FifoRefinement(n: nat, base: nat, steps: seq<Step>, s: System, k: nat)
    requires 2 <= n < k && base % 64 == 0 && Reaches(System(Initial(n, base), Consumer(0, true), [], []), steps, s)
    ensures Inv(s) && s.sent == Written(steps)
    ensures s.taken + Taken(s.ring.base, s.ring.slots, s.hc, k) == Written(steps)
  {
    DrainsRun(System(Initial(n, base), Consumer(0, true), [], []), steps, s, k);
  }

  // ---------------------------------------------------------------- resynchronisation

  /** The pointer word handed to the controller after a stall and on addressing the device. */
  function ResyncWord(p: Producer): nat { PointerWord(p.base, p.write, p.cycle) }

  /** The pointer word of the default-address variant: always the start of the ring. */
  function DefaultWord(p: Producer): nat { PointerWord(p.base, 0, p.cycle) }

  ghost predicate Points(base: nat, word: nat, c: Consumer) {
    c.deq == PointedIndex(base, word) && c.ccs == PointedCycle(word)
  }

  lemma ResyncIsCoherent(p: Producer, c: Consumer)
    requires p.Valid() && p.Idle() && Points(p.base, ResyncWord(p), c)
    ensures Coherent(p, c) && InFlight(p, c) == [] && Room(p, c)
  {
    PointerWordDecodes(p.base, p.write, p.cycle);
  }

  /**
   Whatever the controller's state was, a controller reloaded from the resync word takes none of the
   TRBs written before, and after any further run has taken a prefix of exactly the later ones.
   */
  lemma ResyncSkipsAndResumes(p: Producer, c: Consumer, steps: seq<Step>, s: System, k: nat)
    requires p.Valid() && p.Idle() && Points(p.base, ResyncWord(p), c)
    requires c.deq < |p.slots| && Reaches(System(p, c, [], []), steps, s) && |p.slots| < k
    ensures Inv(s) && s.taken + Taken(s.ring.base, s.ring.slots, s.hc, k) == Written(steps)
  {
    ResyncIsCoherent(p, c);
    DrainsRun(System(p, c, [], []), steps, s, k);
  }

  /** The default-address pointer replays the whole current lap; it is right iff nothing was written on it. */
  lemma DefaultWordReplaysLap(p: Producer, c: Consumer, k: nat)
    requires p.Valid() && p.Idle() && Points(p.base, DefaultWord(p), c)
    requires |p.slots| < k
    ensures Taken(p.base, p.slots, c, k) == p.slots[..p.write]
    ensures Taken(p.base, p.slots, c, k) == [] <==> p.write == 0
  {
    PointerWordDecodes(p.base, 0, p.cycle);
    DrainsInFlight(p, c, k);
  }

  // ---------------------------------------------------------------- laps

  predicate NoLinks(payloads: seq<Trb>) { forall i :: 0 <= i < |payloads| ==> !payloads[i].IsLink() }

  /** Enqueue payloads one after another, each stamped with the cycle bit the ring has at that moment. */
  function EnqueueAll(p: Producer, payloads: seq<Trb>): (q: Producer)
    requires p.Valid() && p.Idle() && NoLinks(payloads)
    ensures q.Valid() && q.Idle() && q.base == p.base && |q.slots| == |p.slots|
    decreases |payloads|
  {
    if payloads == [] then p
    else
      EnqueueAll(Enqueue(p, Stamp(payloads[0], p.cycle)), payloads[1..])
  }

  /** The TRBs such a burst puts on the ring. */
  function Stamped(p: Producer, payloads: seq<Trb>): seq<Trb>
    requires p.Valid() && p.Idle() && NoLinks(payloads)
    decreases |payloads|
  {
    if payloads == [] then []
    else
      var t := Stamp(payloads[0], p.cycle);
      [t] + Stamped(Enqueue(p, t), payloads[1..])
  }

  /** The cycle state of lap `lap`: set on laps 0, 2, 4 and so on. */
  predicate LapState(lap: nat) { lap % 2 == 0 }

  lemma NextPosition(m: nat, x: nat)
    requires 0 < m
    ensures x % m + 1 < m ==> (x + 1) / m == x / m && (x + 1) % m == x % m + 1
    ensures x % m + 1 == m ==> (x + 1) / m == x / m + 1 && (x + 1) % m == 0
  {
    if x % m + 1 < m {
      QuotientIsUnique(m, (x + 1) / m, (x + 1) % m, x / m, x % m + 1);
    } else {
      assert m * (x / m + 1) == m * (x / m) + m;
      QuotientIsUnique(m, (x + 1) / m, (x + 1) % m, x / m + 1, 0);
    }
  }

  /** The ring has taken `x` TRBs since it was initialised: they walked over the data slots only. */
  ghost predicate AtPosition(p: Producer, x: nat) {
    && 2 <= |p.slots|
    && p.write == x % (|p.slots| - 1)
    && p.cycle == LapState(x / (|p.slots| - 1))
  }

  lemma EnqueueAdvances(p: Producer, t: Trb, x: nat)
    requires p.Valid() && p.Idle() && Fits(p, t) && AtPosition(p, x)
    ensures AtPosition(Enqueue(p, t), x + 1)
  {
    NextPosition(|p.slots| - 1, x);
  }

  /** TRBs number `x`, `x + 1` and so on, each with the cycle state of the lap it lands in. */
  function LapStamped(m: nat, x: nat, payloads: seq<Trb>): seq<Trb>
    requires 0 < m
  {
    seq(|payloads|, i requires 0 <= i < |payloads| => Stamp(payloads[i], LapState((x + i) / m)))
  }

  lemma LapStampedStep(m: nat, x: nat, payloads: seq<Trb>)
    requires 0 < m && payloads != []
    ensures LapStamped(m, x, payloads)
            == [Stamp(payloads[0], LapState(x / m))] + LapStamped(m, x + 1, payloads[1..])
  {
    var all, rest := LapStamped(m, x, payloads), LapStamped(m, x + 1, payloads[1..]);
    forall i | 0 <= i < |payloads|
      ensures all[i] == ([Stamp(payloads[0], LapState(x / m))] + rest)[i]
    {
      assert i > 0 ==> payloads[1..][i - 1] == payloads[i] && x + 1 + (i - 1) == x + i;
    }
  }

  lemma {:induction false} BurstAdvances(p: Producer, x: nat, payloads: seq<Trb>)
    requires p.Valid() && p.Idle() && NoLinks(payloads) && AtPosition(p, x)
    ensures AtPosition(EnqueueAll(p, payloads), x + |payloads|)
    decreases |payloads|
  {
    if payloads != [] {
      var t := Stamp(payloads[0], p.cycle);
      EnqueueAdvances(p, t, x);
      BurstAdvances(Enqueue(p, t), x + 1, payloads[1..]);
      assert x + 1 + |payloads[1..]| == x + |payloads|;
    }
  }

  lemma StampedOneMore(p: Producer, m: nat, x: nat, payloads: seq<Trb>)
    requires p.Valid() && p.Idle() && NoLinks(payloads) && payloads != [] && 0 < m && p.cycle == LapState(x / m)
    requires Stamped(Enqueue(p, Stamp(payloads[0], p.cycle)), payloads[1..]) == LapStamped(m, x + 1, payloads[1..])
    ensures Stamped(p, payloads) == LapStamped(m, x, payloads)
  {
    LapStampedStep(m, x, payloads);
  }

  lemma {:induction false} BurstCarriesLaps(p: Producer, x: nat, payloads: seq<Trb>)
    requires p.Valid() && p.Idle() && NoLinks(payloads) && AtPosition(p, x)
    ensures Stamped(p, payloads) == LapStamped(|p.slots| - 1, x, payloads)
    decreases |payloads|
  {
    if payloads != [] {
      var t := Stamp(payloads[0], p.cycle);
      EnqueueAdvances(p, t, x);
      BurstCarriesLaps(Enqueue(p, t), x + 1, payloads[1..]);
      StampedOneMore(p, |p.slots| - 1, x, payloads);
    }
  }

  /**
   Room for `k` enqueues in one go: they fit in the free slots, and none of them toggles a link the
   controller has yet to follow.
   */
  predicate BurstRoom(p: Producer, c: Consumer, k: nat)
    requires p.write < |p.slots| && c.deq < |p.slots|
    requires c.ccs == p.cycle ==> c.deq <= p.write
  {
    && |InFlight(p, c)| + k <= |p.slots| - 1
    && (LinkFollowed(p, c) || p.write + k < |p.slots| - 1)
  }

  /** Every enqueue of the burst finds room when its turn comes. */
  ghost predicate EachFindsRoom(p: Producer, c: Consumer, payloads: seq<Trb>)
    requires p.Valid() && p.Idle() && NoLinks(payloads)
    decreases |payloads|
  {
    payloads == [] || (Room(p, c) && EachFindsRoom(Enqueue(p, Stamp(payloads[0], p.cycle)), c, payloads[1..]))
  }

  lemma BurstRoomStep(p: Producer, c: Consumer, t: Trb, k: nat)
    requires Coherent(p, c) && p.Idle() && Fits(p, t) && 0 < k
    ensures BurstRoom(p, c, k) ==> Room(p, c)
    ensures Room(p, c) ==> Coherent(Enqueue(p, t), c) && (BurstRoom(Enqueue(p, t), c, k - 1) <==> BurstRoom(p, c, k))
  {
    RoomByCount(p, c);
    if Room(p, c) {
      EnqueueAppends(p, c, t);
    }
  }

  /** The room for a burst is exactly the room of its enqueues, one after the other. */
  lemma {:induction false} BurstRoomIsExact(p: Producer, c: Consumer, payloads: seq<Trb>)
    requires Coherent(p, c) && p.Idle() && NoLinks(payloads)
    ensures BurstRoom(p, c, |payloads|) <==> EachFindsRoom(p, c, payloads)
    decreases |payloads|
  {
    if payloads == [] {
      RoomByCount(p, c);
    } else {
      var t := Stamp(payloads[0], p.cycle);
      BurstRoomStep(p, c, t, |payloads|);
      if Room(p, c) {
        BurstRoomIsExact(Enqueue(p, t), c, payloads[1..]);
      }
    }
  }

  lemma {:induction false} BurstIsInFlight(p: Producer, c: Consumer, payloads: seq<Trb>)
    requires Coherent(p, c) && p.Idle() && NoLinks(payloads)
    requires BurstRoom(p, c, |payloads|)
    ensures Coherent(EnqueueAll(p, payloads), c)
    ensures InFlight(EnqueueAll(p, payloads), c) == InFlight(p, c) + Stamped(p, payloads)
    decreases |payloads|
  {
    if payloads != [] {
      var t := Stamp(payloads[0], p.cycle);
      BurstRoomStep(p, c, t, |payloads|);
      EnqueueAppends(p, c, t);
      BurstIsInFlight(Enqueue(p, t), c, payloads[1..]);
      Concat3(InFlight(p, c), [t], Stamped(Enqueue(p, t), payloads[1..]));
    }
  }

  /**
   A burst of enqueues lands on consecutive positions, each TRB carrying the cycle state of its own lap
   wherever the wrap falls, and is found in flight in order behind what was there before.
   */
  lemma BurstLandsInLaps(p: Producer, c: Consumer, x: nat, payloads: seq<Trb>)
    requires Coherent(p, c) && p.Idle() && NoLinks(payloads) && AtPosition(p, x)
    requires BurstRoom(p, c, |payloads|)
    ensures var q := EnqueueAll(p, payloads);
            && Coherent(q, c)
            && AtPosition(q, x + |payloads|)
            && InFlight(q, c) == InFlight(p, c) + LapStamped(|p.slots| - 1, x, payloads)
  {
    BurstAdvances(p, x, payloads);
    BurstCarriesLaps(p, x, payloads);
    BurstIsInFlight(p, c, payloads);
  }

  /** And the controller takes it all, behind what was there. */
  lemma BurstArrives(p: Producer, c: Consumer, x: nat, payloads: seq<Trb>, k: nat)
    requires Coherent(p, c) && p.Idle() && NoLinks(payloads) && AtPosition(p, x)
    requires BurstRoom(p, c, |payloads|) && |p.slots| <= k
    ensures Taken(p.base, EnqueueAll(p, payloads).slots, c, k) == InFlight(p, c) + LapStamped(|p.slots| - 1, x, payloads)
  {
    BurstLandsInLaps(p, c, x, payloads);
    DrainsInFlight(EnqueueAll(p, payloads), c, k);
  }
}
