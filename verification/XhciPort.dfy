/** The handshake between a thread that waits for an event and the interrupt handler that completes it. */
module XhciPort {

  /** The two static flags of the port layer. */
  datatype Flags = Flags(sync: bool, wait: bool)

  /** A completion wakes the waiter if there is one, and is forgotten otherwise. */
  function Complete(f: Flags): Flags { if f.wait then f.(sync := true) else f }

  /** Where the thread stands: the four statements of the wait routine, one at a time. */
  datatype Pc = Outside | Spinning | Seen | WaitCleared

  /** `raised` counts the completions since the current wait began; `log` has one entry per finished wait. */
  datatype Handshake = Handshake(pc: Pc, flags: Flags, raised: nat, log: seq<nat>)

  datatype Move = Begin | Spin | ClearWait | ClearSync | Interrupt

  predicate Ready(h: Handshake, m: Move) {
    match m
    case Begin => h.pc == Outside
    case Spin => h.pc == Spinning
    case ClearWait => h.pc == Seen
    case ClearSync => h.pc == WaitCleared
    case Interrupt => true
  }

  function Do(h: Handshake, m: Move): Handshake
    requires Ready(h, m)
  {
    match m
    case Begin => h.(pc := Spinning, flags := h.flags.(wait := true), raised := 0)
    case Spin => if h.flags.sync then h.(pc := Seen) else h
    case ClearWait => h.(pc := WaitCleared, flags := h.flags.(wait := false))
    case ClearSync => h.(pc := Outside, flags := h.flags.(sync := false), log := h.log + [h.raised])
    case Interrupt => h.(flags := Complete(h.flags), raised := h.raised + 1)
  }

  ghost predicate Safe(h: Handshake) {
    && (h.flags.wait <==> h.pc == Spinning || h.pc == Seen)
    && (h.flags.sync ==> h.pc != Outside && h.raised > 0)
    && (h.pc == Seen || h.pc == WaitCleared ==> h.flags.sync)
    && (h.pc == Spinning && h.raised > 0 ==> h.flags.sync)
    && (forall i :: 0 <= i < |h.log| ==> h.log[i] > 0)
  }

  ghost predicate Runs(h: Handshake, moves: seq<Move>, h': Handshake)
    decreases |moves|
  {
    if moves == [] then h == h' else Ready(h, moves[0]) && Runs(Do(h, moves[0]), moves[1..], h')
  }

  const IDLE := Handshake(Outside, Flags(false, false), 0, [])

  lemma {:induction false} RunsKeepSafe(h: Handshake, moves: seq<Move>, h': Handshake)
    requires Safe(h) && Runs(h, moves, h')
    ensures Safe(h')
    decreases |moves|
  {
    if moves != [] {
      RunsKeepSafe(Do(h, moves[0]), moves[1..], h');
    }
  }

  /**
   In every interleaving, the synchronisation flag is up only during a wait, and every wait that
   returned had a completion after it began.
   */
  lemma WaitsReturnOnTheirOwnCompletion(moves: seq<Move>, h: Handshake)
    requires Runs(IDLE, moves, h)
    ensures h.flags.sync ==> h.pc != Outside
    ensures forall i :: 0 <= i < |h.log| ==> h.log[i] > 0
  {
    RunsKeepSafe(IDLE, moves, h);
  }

  /** A spinning thread gets out of its loop exactly when a completion came after its wait began. */
  lemma SpinLeavesIffRaised(moves: seq<Move>, h: Handshake)
    requires Runs(IDLE, moves, h) && h.pc == Spinning
    ensures Do(h, Spin).pc == Seen <==> h.raised > 0
    ensures h.raised > 0 ==> Runs(h, [Spin, ClearWait, ClearSync], h.(pc := Outside, flags := Flags(false, false), log := h.log + [h.raised]))
  {
    RunsKeepSafe(IDLE, moves, h);
    if h.raised > 0 {
      var h1 := Do(h, Spin);
      var h2 := Do(h1, ClearWait);
      assert Runs(Do(h2, ClearSync), [], h.(pc := Outside, flags := Flags(false, false), log := h.log + [h.raised]));
      assert [Spin, ClearWait, ClearSync][1..] == [ClearWait, ClearSync];
      assert [ClearWait, ClearSync][1..] == [ClearSync];
      assert [ClearSync][1..] == [];
      assert Runs(h2, [ClearSync], h.(pc := Outside, flags := Flags(false, false), log := h.log + [h.raised]));
    }
  }

  /**
   The guarantee rests on the handler testing and setting in one piece.  Were another core to delay the
   store past the end of the wait, the flag would stay up and the next wait return with no completion.
   */
  lemma DelayedStoreWakesNextWait()
    ensures var tested := Do(Do(IDLE, Begin), Interrupt);
            var returned := Do(Do(Do(tested, Spin), ClearWait), ClearSync);
            var stored := returned.(flags := returned.flags.(sync := true));
            var next := Do(Do(Do(Do(stored, Begin), Spin), ClearWait), ClearSync);
            tested.flags.wait && next.log == [1, 0]
  {}

  class Port {
    var eventSync: bool
    var eventWait: bool

    constructor ()
      ensures Get() == Flags(false, false)
    {
      eventSync, eventWait := false, false;
    }

    ghost function Get(): Flags
      reads this
    {
      Flags(eventSync, eventWait)
    }

    method EventComplete()
      modifies this
      ensures Get() == Complete(old(Get()))
    {
      if eventWait {
        eventSync := true;
      }
    }

    /**
     The wait routine on a thread that is interrupted by the handler before its i-th look at the flag
     whenever `interrupts[i]`; it is cut off when that schedule ends.
     */
    method EventWait(interrupts: seq<bool>) returns (returned: bool)
      requires !eventSync
      modifies this
      ensures returned <==> true in interrupts
      ensures Get() == Flags(false, !returned)
    {
      eventWait := true;
      var i := 0;
      while !eventSync && i < |interrupts|
        invariant 0 <= i <= |interrupts| && eventWait
        invariant eventSync <==> true in interrupts[..i]
      {
        if interrupts[i] {
          EventComplete();
        }
        i := i + 1;
      }
      assert i == |interrupts| ==> interrupts[..i] == interrupts;
      returned := eventSync;
      if returned {
        eventWait := false;
        eventSync := false;
      }
    }
  }
}
