/**
 One command after another through the whole driver: the command ring, a controller that executes the
 commands and posts a completion for each, the event ring, the handler, and the waiting thread.
 */
module CommandPath {
  import opened XhciTrb
  import opened TrbRing
  import opened EventRing
  import opened XhciPort
  import opened XhciHost

  /** The submitting thread, statement by statement: write, toggle and ring, the wait routine, copy the event. */
  datatype Phase = Idle | Written | Rung | Waiting | SyncSeen | WaitEnded | Returning

  datatype Driver = Driver(
    ring: Producer, hc: Consumer,               // command ring, and the controller's place in it
    executing: seq<Trb>,                        // commands fetched but not completed
    slots: seq<Trb>, reader: Reader, poster: Poster,
    inbox: Inbox, phase: Phase,
    submitted: seq<Trb>,                        // commands, in order of submission
    finished: seq<Trb>, completions: seq<Trb>,  // commands completed, and the completion of each
    delivered: seq<Trb>,                        // completions the handler has handled
    returned: seq<Trb>)                         // what the submitting calls returned

  datatype Act =
    | WriteCommand(cmd: Trb) | ToggleAndRing | EnterWait | LookAtSync | ClearEventWait | ClearEventSync | CopyEvent
    | HcFetch | HcComplete(completion: Trb) | HcOther(ev: Trb)
    | IsrIteration

  function Completions(events: seq<Trb>): seq<Trb> {
    if events == [] then []
    else (if events[0].kind == TRB_COMPLETION then [events[0]] else []) + Completions(events[1..])
  }

  lemma CompletionsFront(front: Trb, rest: seq<Trb>)
    ensures Completions([front] + rest) == (if front.kind == TRB_COMPLETION then [front] else []) + Completions(rest)
  {
    assert ([front] + rest)[1..] == rest;
  }

  lemma {:induction false} CompletionsAppend(events: seq<Trb>, ev: Trb)
    ensures Completions(events + [ev]) == Completions(events) + Completions([ev])
    decreases |events|
  {
    if events == [] {
      assert events + [ev] == [ev];
    } else {
      var front, rest := events[0], events[1..];
      CompletionsAppend(rest, ev);
      CompletionsFront(front, rest);
      CompletionsFront(front, rest + [ev]);
      assert events == [front] + rest;
      assert events + [ev] == [front] + (rest + [ev]);
      Concat3(if front.kind == TRB_COMPLETION then [front] else [], Completions(rest), Completions([ev]));
    }
  }

  lemma CompletionsSingle(ev: Trb)
    ensures Completions([ev]) == if ev.kind == TRB_COMPLETION then [ev] else []
  {
    assert [ev][1..] == [];
  }

  ghost predicate RingsFit(d: Driver) {
    && Coherent(d.ring, d.hc)
    && Aligned(d.slots, d.reader, d.poster)
  }

  /** Every command is in flight, executing or finished; every completion is pending or delivered. */
  ghost predicate Conserved(d: Driver)
    requires RingsFit(d)
  {
    && d.submitted == (d.finished + d.executing) + InFlight(d.ring, d.hc)
    && |d.finished| == |d.completions|
    && d.completions == d.delivered + Completions(Pending(d.slots, d.reader, d.poster))
  }

  ghost predicate ThreadInv(d: Driver) {
    && (d.phase != Written ==> d.ring.Idle())
    && |d.returned| <= |d.delivered| && |d.returned| <= |d.submitted| <= |d.returned| + 1
    && (d.phase == Idle <==> |d.submitted| == |d.returned|)
    && d.returned == d.delivered[..|d.returned|]
    && (d.delivered != [] ==> d.inbox.evtTrb == d.delivered[|d.delivered| - 1])
    && (d.inbox.flags.wait <==> d.phase == Waiting || d.phase == SyncSeen)
    && (d.inbox.flags.sync ==> d.phase == Waiting || d.phase == SyncSeen || d.phase == WaitEnded)
    && (d.phase == SyncSeen || d.phase == WaitEnded ==> d.inbox.flags.sync)
    && (d.inbox.flags.sync || d.phase == Returning ==> |d.delivered| == |d.submitted|)
  }

  ghost predicate DriverInv(d: Driver) { RingsFit(d) && Conserved(d) && ThreadInv(d) }

  ghost predicate Can(d: Driver, a: Act)
    requires RingsFit(d)
  {
    match a
    case WriteCommand(cmd) => d.phase == Idle && d.ring.Idle() && Fits(d.ring, cmd) && WriteRoom(d.ring, d.hc)
    case ToggleAndRing => d.phase == Written && (d.ring.Idle() || LinkFollowed(d.ring, d.hc))
    case EnterWait => d.phase == Rung
    case LookAtSync => d.phase == Waiting
    case ClearEventWait => d.phase == SyncSeen
    case ClearEventSync => d.phase == WaitEnded
    case CopyEvent => d.phase == Returning
    case HcFetch => true
    case HcComplete(ev) =>
      ev.kind == TRB_COMPLETION && d.executing != [] && |Pending(d.slots, d.reader, d.poster)| < |d.slots|
    case HcOther(ev) => !Wakes(ev) && |Pending(d.slots, d.reader, d.poster)| < |d.slots|
    case IsrIteration => true
  }

  ghost function After(d: Driver, a: Act): Driver
    requires RingsFit(d) && Can(d, a)
  {
    match a
    case WriteCommand(cmd) => d.(ring := WriteTrb(d.ring, cmd), submitted := d.submitted + [cmd], phase := Written)
    case ToggleAndRing => d.(ring := if d.ring.Idle() then d.ring else ToggleLink(d.ring), phase := Rung)
    case EnterWait => d.(phase := Waiting, inbox := d.inbox.(flags := d.inbox.flags.(wait := true)))
    case LookAtSync => if d.inbox.flags.sync then d.(phase := SyncSeen) else d
    case ClearEventWait => d.(phase := WaitEnded, inbox := d.inbox.(flags := d.inbox.flags.(wait := false)))
    case ClearEventSync => d.(phase := Returning, inbox := d.inbox.(flags := d.inbox.flags.(sync := false)))
    case CopyEvent => d.(phase := Idle, returned := d.returned + [d.inbox.evtTrb])
    case HcFetch =>
      var (hc, f) := Fetch(d.ring.base, d.ring.slots, d.hc);
      d.(hc := hc, executing := d.executing + TakenOf(f))
    case HcComplete(ev) =>
      var (slots, poster) := Post(d.slots, d.poster, ev);
      d.(slots := slots, poster := poster, completions := d.completions + [Stamp(ev, d.poster.pcs)],
         finished := d.finished + [d.executing[0]], executing := d.executing[1..])
    case HcOther(ev) =>
      var (slots, poster) := Post(d.slots, d.poster, ev);
      d.(slots := slots, poster := poster)
    case IsrIteration =>
      if !Matches(d.slots, d.reader) then d
      else
        var ev := d.slots[d.reader.index];
        d.(reader := Advance(|d.slots|, d.reader), inbox := Deliver(d.inbox, ev),
           delivered := d.delivered + Completions([ev]))
  }

  lemma Counts(d: Driver)
    requires RingsFit(d) && Conserved(d)
    ensures |d.submitted| == |d.completions| + |d.executing| + |InFlight(d.ring, d.hc)|
    ensures |d.completions| == |d.delivered| + |Completions(Pending(d.slots, d.reader, d.poster))|
    ensures |d.delivered| <= |d.submitted|
  {}

  lemma WriteKeeps(d: Driver, cmd: Trb)
    requires DriverInv(d) && Can(d, WriteCommand(cmd))
    ensures DriverInv(After(d, WriteCommand(cmd)))
  {
    Counts(d);
    WriteAppends(d.ring, d.hc, cmd);
    Concat3(d.finished + d.executing, InFlight(d.ring, d.hc), [cmd]);
  }

  lemma ToggleAndRingKeeps(d: Driver)
    requires DriverInv(d) && Can(d, ToggleAndRing)
    ensures DriverInv(After(d, ToggleAndRing))
  {
    if !d.ring.Idle() {
      ToggleKeeps(d.ring, d.hc);
    }
  }

  /** The write of a command always finds room. */
  lemma WriteFindsRoom(d: Driver)
    requires DriverInv(d) && d.phase == Idle
    ensures WriteRoom(d.ring, d.hc)
  {
    Counts(d);
    RoomByCount(d.ring, d.hc);
  }

  lemma OneInFlight(d: Driver)
    requires DriverInv(d)
    ensures |InFlight(d.ring, d.hc)| <= 1
  {
    Counts(d);
  }

  /** Its toggle is seen in every ring of three slots or more. */
  lemma ToggleIsSeen(d: Driver)
    requires DriverInv(d) && d.phase == Written && |d.ring.slots| >= 3
    ensures Can(d, ToggleAndRing)
  {
    OneInFlight(d);
    if !d.ring.Idle() {
      SingleIsFollowed(d.ring, d.hc);
    }
  }

  /** In a ring of two the controller has to follow the previous link first, which its next fetch does. */
  lemma ToggleIsSeenAfterFetch(d: Driver)
    requires RingsFit(d) && d.phase == Written
    ensures RingsFit(After(d, HcFetch)) && Can(After(d, HcFetch), ToggleAndRing)
  {
    var d' := After(d, HcFetch);
    assert d'.ring == d.ring && d'.phase == d.phase && d'.hc == Fetch(d.ring.base, d.ring.slots, d.hc).0;
    FetchTakesOldest(d.ring, d.hc);
    if !d.ring.Idle() {
      NextFetchFollows(d.ring, d.hc);
    }
  }

  /** The middle of three parts changes hands. */
  lemma Regroup<T>(a: seq<T>, b: seq<T>, c: seq<T>, d: seq<T>)
    ensures (a + b) + (c + d) == (a + (b + c)) + d
  {}

  lemma FetchKeeps(d: Driver)
    requires RingsFit(d) && Conserved(d)
    ensures RingsFit(After(d, HcFetch)) && Conserved(After(d, HcFetch))
  {
    FetchTakesOldest(d.ring, d.hc);
    var (hc, f) := Fetch(d.ring.base, d.ring.slots, d.hc);
    var flight, flight' := InFlight(d.ring, d.hc), InFlight(d.ring, hc);
    assert flight == TakenOf(f) + flight';
    Regroup(d.finished, d.executing, TakenOf(f), flight');
  }

  lemma PostConserves(d: Driver, ev: Trb, slots: seq<Trb>, poster: Poster)
    requires RingsFit(d) && |Pending(d.slots, d.reader, d.poster)| < |d.slots|
    requires (slots, poster) == Post(d.slots, d.poster, ev)
    ensures Aligned(slots, d.reader, poster)
    ensures Completions(Pending(slots, d.reader, poster))
            == Completions(Pending(d.slots, d.reader, d.poster))
               + if ev.kind == TRB_COMPLETION then [Stamp(ev, d.poster.pcs)] else []
  {
    PostAppends(d.slots, d.reader, d.poster, ev);
    CompletionsAppend(Pending(d.slots, d.reader, d.poster), Stamp(ev, d.poster.pcs));
    CompletionsSingle(Stamp(ev, d.poster.pcs));
  }

  lemma MoveFirst<T>(a: seq<T>, b: seq<T>)
    requires b != []
    ensures (a + [b[0]]) + b[1..] == a + b
  {}

  lemma CompleteKeeps(d: Driver, ev: Trb)
    requires RingsFit(d) && Conserved(d) && Can(d, HcComplete(ev))
    ensures RingsFit(After(d, HcComplete(ev))) && Conserved(After(d, HcComplete(ev)))
  {
    var (slots, poster) := Post(d.slots, d.poster, ev);
    PostConserves(d, ev, slots, poster);
    Concat3(d.delivered, Completions(Pending(d.slots, d.reader, d.poster)), [Stamp(ev, d.poster.pcs)]);
    MoveFirst(d.finished, d.executing);
  }

  lemma OtherKeeps(d: Driver, ev: Trb)
    requires RingsFit(d) && Conserved(d) && Can(d, HcOther(ev))
    ensures RingsFit(After(d, HcOther(ev))) && Conserved(After(d, HcOther(ev)))
  {
    var (slots, poster) := Post(d.slots, d.poster, ev);
    PostConserves(d, ev, slots, poster);
  }

  /** No transfer event was posted: only completions and events that wake nobody are on the ring. */
  ghost predicate NoTransfers(d: Driver) {
    forall i :: 0 <= i < |d.slots| ==> d.slots[i].kind != TRB_TRANSFER
  }

  lemma IsrTakesOldest(d: Driver)
    requires RingsFit(d) && Matches(d.slots, d.reader)
    ensures var next := Advance(|d.slots|, d.reader); var ev := d.slots[d.reader.index];
            var pending, rest := Pending(d.slots, d.reader, d.poster), Pending(d.slots, next, d.poster);
            && Aligned(d.slots, next, d.poster)
            && pending == [ev] + rest
            && Completions(pending) == Completions([ev]) + Completions(rest)
  {
    AdvanceTakesOldest(d.slots, d.reader, d.poster);
    var ev, next := d.slots[d.reader.index], Advance(|d.slots|, d.reader);
    var pending, rest := Pending(d.slots, d.reader, d.poster), Pending(d.slots, next, d.poster);
    assert pending[0] == ev && pending[1..] == rest;
    CompletionsSingle(ev);
  }

  lemma IsrConserves(d: Driver)
    requires RingsFit(d) && Conserved(d) && Matches(d.slots, d.reader)
    ensures RingsFit(After(d, IsrIteration)) && Conserved(After(d, IsrIteration))
  {
    IsrTakesOldest(d);
    var d', ev := After(d, IsrIteration), d.slots[d.reader.index];
    Concat3(d.delivered, Completions([ev]), Completions(Pending(d'.slots, d'.reader, d'.poster)));
  }

  lemma IsrKeeps(d: Driver)
    requires DriverInv(d) && NoTransfers(d)
    ensures DriverInv(After(d, IsrIteration)) && NoTransfers(After(d, IsrIteration))
  {
    if Matches(d.slots, d.reader) {
      IsrConserves(d);
      Counts(After(d, IsrIteration));
      DeliveryKeepsThread(d, d.slots[d.reader.index], After(d, IsrIteration));
    }
  }

  /** Delivering one more completion, of which no more exist than commands were submitted. */
  lemma DeliveryKeepsThread(d: Driver, ev: Trb, d': Driver)
    requires ThreadInv(d) && ev.kind != TRB_TRANSFER
    requires d' == d.(reader := d'.reader, inbox := Deliver(d.inbox, ev), delivered := d.delivered + Completions([ev]))
    requires |d'.delivered| <= |d.submitted|
    ensures ThreadInv(d')
  {
    CompletionsSingle(ev);
    if ev.kind == TRB_COMPLETION {
      assert d'.delivered[..|d.returned|] == d.delivered[..|d.returned|];
    } else {
      assert d'.delivered == d.delivered;
    }
  }

  predicate IsThreadStep(a: Act) {
    a.EnterWait? || a.LookAtSync? || a.ClearEventWait? || a.ClearEventSync? || a.CopyEvent?
  }

  lemma CopyEventKeeps(d: Driver)
    requires DriverInv(d) && Can(d, CopyEvent)
    ensures ThreadInv(After(d, CopyEvent))
  {
    Counts(d);
    var n := |d.returned|;
    assert |d.delivered| == n + 1 && d.inbox.evtTrb == d.delivered[n];
    assert d.delivered == d.delivered[..n] + [d.delivered[n]];
  }

  lemma FlagStepKeeps(d: Driver, a: Act)
    requires ThreadInv(d) && RingsFit(d) && IsThreadStep(a) && a != CopyEvent && Can(d, a)
    ensures ThreadInv(After(d, a))
  {}

  lemma ThreadStepKeeps(d: Driver, a: Act)
    requires DriverInv(d) && IsThreadStep(a) && Can(d, a)
    ensures ThreadInv(After(d, a))
  {
    if a == CopyEvent {
      CopyEventKeeps(d);
    } else {
      FlagStepKeeps(d, a);
    }
  }

  /** What the thread's own steps leave alone. */
  lemma ThreadStepFrame(d: Driver, a: Act)
    requires RingsFit(d) && Conserved(d) && NoTransfers(d) && (IsThreadStep(a) || a == HcFetch) && Can(d, a)
    ensures RingsFit(After(d, a)) && Conserved(After(d, a)) && NoTransfers(After(d, a))
  {
    if a == HcFetch {
      FetchKeeps(d);
    }
  }

  lemma ThreadFrame(d: Driver, d': Driver)
    requires ThreadInv(d) && d'.ring == d.ring && d'.phase == d.phase && d'.inbox == d.inbox
    requires d'.submitted == d.submitted && d'.delivered == d.delivered && d'.returned == d.returned
    ensures ThreadInv(d')
  {}

  ghost predicate Good(d: Driver) { DriverInv(d) && NoTransfers(d) }

  lemma SubmitIsGood(d: Driver, a: Act)
    requires Good(d) && (a.WriteCommand? || a.ToggleAndRing?) && Can(d, a)
    ensures Good(After(d, a))
  {
    if a.WriteCommand? {
      WriteKeeps(d, a.cmd);
    } else {
      ToggleAndRingKeeps(d);
    }
  }

  lemma PostIsGood(d: Driver, a: Act)
    requires Good(d) && (a.HcComplete? || a.HcOther?) && Can(d, a)
    ensures Good(After(d, a))
  {
    if a.HcComplete? {
      CompleteKeeps(d, a.completion);
    } else {
      OtherKeeps(d, a.ev);
    }
    ThreadFrame(d, After(d, a));
  }

  lemma FetchIsGood(d: Driver)
    requires Good(d)
    ensures Good(After(d, HcFetch))
  {
    ThreadStepFrame(d, HcFetch);
    ThreadFrame(d, After(d, HcFetch));
  }

  lemma ThreadIsGood(d: Driver, a: Act)
    requires Good(d) && IsThreadStep(a) && Can(d, a)
    ensures Good(After(d, a))
  {
    ThreadStepKeeps(d, a);
    ThreadStepFrame(d, a);
  }

  lemma ActKeeps(d: Driver, a: Act)
    requires Good(d) && Can(d, a)
    ensures Good(After(d, a))
  {
    match a
    case WriteCommand(_) => SubmitIsGood(d, a);
    case ToggleAndRing => SubmitIsGood(d, a);
    case HcFetch => FetchIsGood(d);
    case HcComplete(_) => PostIsGood(d, a);
    case HcOther(_) => PostIsGood(d, a);
    case IsrIteration => IsrKeeps(d);
    case _ => ThreadIsGood(d, a);
  }

  ghost predicate Plays(d: Driver, acts: seq<Act>, d': Driver)
    decreases |acts|
  {
    if acts == [] then d == d'
    else RingsFit(d) && Can(d, acts[0]) && Plays(After(d, acts[0]), acts[1..], d')
  }

  lemma {:induction false} PlaysKeep(d: Driver, acts: seq<Act>, d': Driver)
    requires Good(d) && Plays(d, acts, d')
    ensures Good(d')
    decreases |acts|
  {
    if acts != [] {
      ActKeeps(d, acts[0]);
      PlaysKeep(After(d, acts[0]), acts[1..], d');
    }
  }

  function Fresh(n: nat, m: nat, base: nat): Driver
    requires 2 <= n && 0 < m && base % 64 == 0
  {
    Driver(Initial(n, base), Consumer(0, true), [], InitialEvents(m), Reader(0, true), Poster(0, true),
           Inbox(ZERO_TRB, Flags(false, false)), Idle, [], [], [], [], [])
  }

  lemma FreshInv(n: nat, m: nat, base: nat)
    requires 2 <= n && 0 < m && base % 64 == 0
    ensures Good(Fresh(n, m, base))
  {
    InitialEventInv(m);
  }

  /**
   End-to-end matching, in every interleaving: the i-th call returned the completion that the controller
   posted for the i-th command submitted.
   */
  lemma CallsReturnTheirCompletions(n: nat, m: nat, base: nat, acts: seq<Act>, d: Driver, i: nat)
    requires 2 <= n && 0 < m && base % 64 == 0 && Plays(Fresh(n, m, base), acts, d) && i < |d.returned|
    ensures i < |d.completions| && i < |d.finished| && i < |d.submitted|
    ensures d.finished[i] == d.submitted[i] && d.returned[i] == d.completions[i]
    ensures d.returned[i].kind == TRB_COMPLETION
  {
    FreshInv(n, m, base);
    PlaysKeep(Fresh(n, m, base), acts, d);
    Counts(d);
    CompletionsAreCompletions(Fresh(n, m, base), acts, d);
  }

  lemma {:induction false} CompletionsAreCompletions(d: Driver, acts: seq<Act>, d': Driver)
    requires Plays(d, acts, d') && (forall i :: 0 <= i < |d.completions| ==> d.completions[i].kind == TRB_COMPLETION)
    ensures forall i :: 0 <= i < |d'.completions| ==> d'.completions[i].kind == TRB_COMPLETION
    decreases |acts|
  {
    if acts != [] {
      CompletionsAreCompletions(After(d, acts[0]), acts[1..], d');
    }
  }

  // ---------------------------------------------------------------- lost wake-ups and progress

  /** The completion was handled before the thread set its wait flag. */
  ghost predicate WakeUpLost(d: Driver) {
    d.phase == Waiting && !d.inbox.flags.sync && |d.delivered| == |d.submitted|
  }

  lemma PlaysOne(d: Driver, acts: seq<Act>, d': Driver)
    requires acts != [] && RingsFit(d) && Can(d, acts[0]) && Plays(After(d, acts[0]), acts[1..], d')
    ensures Plays(d, acts, d')
  {}

  lemma PlaysThree(acts: seq<Act>, d: Driver, d1: Driver, d2: Driver, d3: Driver)
    requires |acts| == 3
    requires RingsFit(d) && Can(d, acts[0]) && d1 == After(d, acts[0])
    requires RingsFit(d1) && Can(d1, acts[1]) && d2 == After(d1, acts[1])
    requires RingsFit(d2) && Can(d2, acts[2]) && d3 == After(d2, acts[2])
    ensures Plays(d, acts, d3)
  {
    var rest, last := acts[1..], acts[2..];
    assert last[1..] == [] && last[0] == acts[2];
    PlaysOne(d2, last, d3);
    assert rest[1..] == last && rest[0] == acts[1];
    PlaysOne(d1, rest, d3);
    PlaysOne(d, acts, d3);
  }

  lemma {:induction false} PlaysOn(d: Driver, acts: seq<Act>, d': Driver, more: seq<Act>, d'': Driver)
    requires Plays(d, acts, d') && Plays(d', more, d'')
    ensures Plays(d, acts + more, d'')
    decreases |acts|
  {
    var all := acts + more;
    if acts == [] {
      assert all == more;
    } else {
      PlaysOn(After(d, acts[0]), acts[1..], d', more, d'');
      assert all[0] == acts[0] && all[1..] == acts[1..] + more;
      PlaysOne(d, all, d'');
    }
  }

  /** The controller executes the first command. */
  lemma FirstCommandExecutes(n: nat, m: nat, base: nat, cmd: Trb) returns (acts: seq<Act>, d: Driver)
    requires 2 <= n && 0 < m && base % 64 == 0 && cmd.cycle && !cmd.IsLink()
    ensures |acts| == 3 && acts[0] == WriteCommand(cmd) && acts[1] == ToggleAndRing && acts[2] == HcFetch
    ensures Plays(Fresh(n, m, base), acts, d)
    ensures NotYetWaiting(d) && d.executing == [cmd] && d.submitted == [cmd]
    ensures d.reader == Reader(0, true) && d.poster == Poster(0, true)
  {
    var d0 := Fresh(n, m, base);
    FreshInv(n, m, base);
    var d1 := After(d0, WriteCommand(cmd));
    ActKeeps(d0, WriteCommand(cmd));
    var d2 := After(d1, ToggleAndRing);
    ActKeeps(d1, ToggleAndRing);
    d := After(d2, HcFetch);
    ActKeeps(d2, HcFetch);
    acts := [WriteCommand(cmd), ToggleAndRing, HcFetch];
    PlaysThree(acts, d0, d1, d2, d);
  }

  /** The thread has rung the doorbell for its first command and does not wait yet. */
  ghost predicate NotYetWaiting(d: Driver) {
    Good(d) && d.phase == Rung && d.delivered == [] && |d.submitted| == 1 && d.inbox.flags == Flags(false, false)
  }

  lemma CompletionPosted(d: Driver, ev: Trb)
    requires NotYetWaiting(d) && d.executing != [] && ev.kind == TRB_COMPLETION
    requires d.reader == Reader(0, true) && d.poster == Poster(0, true)
    ensures Can(d, HcComplete(ev))
    ensures var d' := After(d, HcComplete(ev));
            NotYetWaiting(d') && Matches(d'.slots, d'.reader) && d'.slots[d'.reader.index].kind == TRB_COMPLETION
  {
    ActKeeps(d, HcComplete(ev));
  }

  lemma CompletionHandled(d: Driver)
    requires NotYetWaiting(d) && Matches(d.slots, d.reader) && d.slots[d.reader.index].kind == TRB_COMPLETION
    ensures var d' := After(d, IsrIteration);
            Good(d') && Can(d', EnterWait) && Good(After(d', EnterWait)) && WakeUpLost(After(d', EnterWait))
  {
    var d' := After(d, IsrIteration);
    CompletionsSingle(d.slots[d.reader.index]);
    ActKeeps(d, IsrIteration);
    ActKeeps(d', EnterWait);
  }

  /** The completion is posted and handled before the thread waits. */
  lemma HandledTooEarly(d: Driver, ev: Trb) returns (acts: seq<Act>, d': Driver)
    requires NotYetWaiting(d) && d.executing != [] && ev.kind == TRB_COMPLETION
    requires d.reader == Reader(0, true) && d.poster == Poster(0, true)
    ensures |acts| == 3 && acts[0] == HcComplete(ev) && acts[1] == IsrIteration && acts[2] == EnterWait
    ensures Plays(d, acts, d') && Good(d') && WakeUpLost(d')
  {
    CompletionPosted(d, ev);
    var d1 := After(d, HcComplete(ev));
    CompletionHandled(d1);
    var d2 := After(d1, IsrIteration);
    d' := After(d2, EnterWait);
    acts := [HcComplete(ev), IsrIteration, EnterWait];
    PlaysThree(acts, d, d1, d2, d');
  }

  /** A wake-up can be lost: with the very first command, on rings of any size. */
  lemma WakeUpCanBeLost(n: nat, m: nat, base: nat, cmd: Trb, ev: Trb) returns (acts: seq<Act>, d: Driver)
    requires 2 <= n && 0 < m && base % 64 == 0 && cmd.cycle && !cmd.IsLink() && ev.kind == TRB_COMPLETION
    ensures |acts| == 6 && acts[0] == WriteCommand(cmd) && acts[1] == ToggleAndRing && acts[2] == HcFetch
    ensures acts[3] == HcComplete(ev) && acts[4] == IsrIteration && acts[5] == EnterWait
    ensures Plays(Fresh(n, m, base), acts, d) && Good(d) && WakeUpLost(d)
  {
    var first, early := FirstCommandExecutes(n, m, base, cmd);
    var second, late := HandledTooEarly(early, ev);
    PlaysOn(Fresh(n, m, base), first, early, second, late);
    acts, d := first + second, late;
  }

  lemma LostStaysLost(d: Driver, a: Act)
    requires Good(d) && WakeUpLost(d) && Can(d, a)
    ensures WakeUpLost(After(d, a)) && After(d, a).returned == d.returned
  {
    Counts(d);
    ActKeeps(d, a);
    if a == IsrIteration && Matches(d.slots, d.reader) {
      IsrTakesOldest(d);
      var ev := d.slots[d.reader.index];
      CompletionsSingle(ev);
    }
  }

  /** After a lost wake-up the call never returns, whatever the controller and the handler still do. */
  lemma {:induction false} LostForever(d: Driver, acts: seq<Act>, d': Driver)
    requires Good(d) && WakeUpLost(d) && Plays(d, acts, d')
    ensures WakeUpLost(d') && d'.returned == d.returned
    decreases |acts|
  {
    if acts != [] {
      ActKeeps(d, acts[0]);
      LostStaysLost(d, acts[0]);
      LostForever(After(d, acts[0]), acts[1..], d');
    }
  }

  /** What is left to do before the completion of the current command has been handled. */
  ghost function Distance(d: Driver): nat
    requires RingsFit(d)
  {
    3 * Work(d.ring, d.hc) + 2 * |d.executing| + |Pending(d.slots, d.reader, d.poster)|
  }

  const ANY_COMPLETION := Trb(Pointer(0), 0, TRB_COMPLETION, 0, false)

  /** The next move of controller or handler towards the completion. */
  ghost function Towards(d: Driver): Act
    requires RingsFit(d)
  {
    if Pending(d.slots, d.reader, d.poster) != [] then IsrIteration
    else if d.executing != [] then HcComplete(ANY_COMPLETION)
    else HcFetch
  }

  lemma TowardsApproaches(d: Driver)
    requires Good(d) && d.phase == Waiting && |d.delivered| < |d.submitted|
    ensures Can(d, Towards(d))
    ensures var d' := After(d, Towards(d));
            && Good(d') && Distance(d') < Distance(d)
            && d'.phase == Waiting && d'.returned == d.returned && !WakeUpLost(d')
  {
    Counts(d);
    ActKeeps(d, Towards(d));
    AdvanceTakesOldest(d.slots, d.reader, d.poster);
    if Pending(d.slots, d.reader, d.poster) != [] {
      IsrTakesOldest(d);
      var ev := d.slots[d.reader.index];
      CompletionsSingle(ev);
    } else if d.executing != [] {
      PostAppends(d.slots, d.reader, d.poster, ANY_COMPLETION);
    } else {
      FetchTakesOldest(d.ring, d.hc);
    }
  }

  lemma FinishWait(d: Driver) returns (acts: seq<Act>, d': Driver)
    requires DriverInv(d) && d.phase == Waiting && d.inbox.flags.sync
    ensures Plays(d, acts, d') && |d'.returned| == |d.returned| + 1
  {
    var d1 := After(d, LookAtSync);
    var d2 := After(d1, ClearEventWait);
    var d3 := After(d2, ClearEventSync);
    d' := After(d3, CopyEvent);
    acts := [LookAtSync, ClearEventWait, ClearEventSync, CopyEvent];
    assert [CopyEvent][1..] == [];
    assert Plays(d3, [CopyEvent], d');
    assert [ClearEventSync, CopyEvent][1..] == [CopyEvent];
    assert Plays(d2, [ClearEventSync, CopyEvent], d');
    assert [ClearEventWait, ClearEventSync, CopyEvent][1..] == [ClearEventSync, CopyEvent];
    assert Plays(d1, [ClearEventWait, ClearEventSync, CopyEvent], d');
    assert acts[1..] == [ClearEventWait, ClearEventSync, CopyEvent];
  }

  lemma {:induction false} WaitCanFinish(d: Driver) returns (acts: seq<Act>, d': Driver)
    requires Good(d) && d.phase == Waiting && !WakeUpLost(d)
    ensures Plays(d, acts, d') && |d'.returned| == |d.returned| + 1
    decreases Distance(d)
  {
    if d.inbox.flags.sync {
      acts, d' := FinishWait(d);
    } else {
      Counts(d);
      TowardsApproaches(d);
      var rest;
      rest, d' := WaitCanFinish(After(d, Towards(d)));
      acts := [Towards(d)] + rest;
      assert acts[1..] == rest;
    }
  }

  ghost predicate MayReturn(d: Driver) {
    exists acts, d' :: Plays(d, acts, d') && |d'.returned| > |d.returned|
  }

  lemma LostNeverReturns(d: Driver)
    requires Good(d) && WakeUpLost(d)
    ensures !MayReturn(d)
  {
    forall acts, d' | Plays(d, acts, d')
      ensures d'.returned == d.returned
    {
      LostForever(d, acts, d');
    }
  }

  /**
   A waiting call can return in some continuation exactly when its completion was not handled before
   the wait began.
   */
  lemma WaitReturnsIffNotLost(d: Driver)
    requires Good(d) && d.phase == Waiting
    ensures MayReturn(d) <==> !WakeUpLost(d)
  {
    if WakeUpLost(d) {
      LostNeverReturns(d);
    } else {
      var acts, d' := WaitCanFinish(d);
    }
  }

  // ---------------------------------------------------------------- every continuation of a wait

  predicate InCall(phase: Phase) { phase == Waiting || phase == SyncSeen || phase == WaitEnded || phase == Returning }

  /** A step that gets something done; the others look or fetch in vain, or post an event nobody waits for. */
  ghost predicate Productive(d: Driver, a: Act)
    requires RingsFit(d) && Can(d, a)
  {
    match a
    case LookAtSync => d.inbox.flags.sync
    case HcFetch => Work(d.ring, d.hc) > 0
    case IsrIteration => Matches(d.slots, d.reader)
    case HcOther(_) => false
    case _ => true
  }

  function ThreadLeft(phase: Phase): nat {
    match phase
    case Waiting => 4
    case SyncSeen => 3
    case WaitEnded => 2
    case Returning => 1
    case _ => 0
  }

  ghost function Rank(d: Driver): nat
    requires RingsFit(d)
  {
    Distance(d) + ThreadLeft(d.phase)
  }

  ghost function Gain(d: Driver, a: Act): nat
    requires RingsFit(d) && Can(d, a)
  {
    if Productive(d, a) then 1 else 0
  }

  /** Every productive step lowers the rank, a posted port event raises it by one, nothing else does. */
  lemma RankFalls(d: Driver, a: Act)
    requires Good(d) && Can(d, a) && (InCall(d.phase) || d.phase == Idle) && !a.WriteCommand?
    ensures RingsFit(After(d, a)) && (InCall(After(d, a).phase) || After(d, a).phase == Idle)
    ensures Rank(After(d, a)) + Gain(d, a) <= Rank(d) + if a.HcOther? then 1 else 0
  {
    ActKeeps(d, a);
    match a
    case HcFetch => FetchTakesOldest(d.ring, d.hc);
    case HcComplete(ev) => PostAppends(d.slots, d.reader, d.poster, ev);
    case HcOther(ev) => PostAppends(d.slots, d.reader, d.poster, ev);
    case IsrIteration => AdvanceTakesOldest(d.slots, d.reader, d.poster);
    case _ =>
  }

  ghost function Gains(d: Driver, acts: seq<Act>): nat
    decreases |acts|
  {
    if acts == [] || !RingsFit(d) || !Can(d, acts[0]) then 0
    else Gain(d, acts[0]) + Gains(After(d, acts[0]), acts[1..])
  }

  function Others(acts: seq<Act>): nat {
    if acts == [] then 0 else (if acts[0].HcOther? then 1 else 0) + Others(acts[1..])
  }

  ghost predicate NoSubmission(acts: seq<Act>) { forall i :: 0 <= i < |acts| ==> !acts[i].WriteCommand? }

  lemma {:induction false} RankBounds(d: Driver, acts: seq<Act>, d': Driver)
    requires Good(d) && Plays(d, acts, d') && NoSubmission(acts) && (InCall(d.phase) || d.phase == Idle)
    ensures Good(d') && Gains(d, acts) + Rank(d') <= Rank(d) + Others(acts)
    decreases |acts|
  {
    if acts != [] {
      ActKeeps(d, acts[0]);
      RankFalls(d, acts[0]);
      RankBounds(After(d, acts[0]), acts[1..], d');
    }
  }

  /** A call that is not lost stays so until it returns. */
  lemma NotLostStays(d: Driver, a: Act)
    requires Good(d) && Can(d, a) && InCall(d.phase) && !WakeUpLost(d)
    ensures !WakeUpLost(After(d, a))
    ensures if InCall(After(d, a).phase) then After(d, a).returned == d.returned
            else After(d, a).phase == Idle && |After(d, a).returned| == |d.returned| + 1
  {
    if a == IsrIteration && Matches(d.slots, d.reader) {
      CompletionsSingle(d.slots[d.reader.index]);
    }
  }

  lemma IdleStays(d: Driver, a: Act)
    requires RingsFit(d) && Can(d, a) && d.phase == Idle && !a.WriteCommand?
    ensures After(d, a).phase == Idle && After(d, a).returned == d.returned
  {}

  lemma {:induction false} CallGoesOnOrReturned(d: Driver, acts: seq<Act>, d': Driver)
    requires Good(d) && Plays(d, acts, d') && NoSubmission(acts)
    requires (InCall(d.phase) && !WakeUpLost(d)) || d.phase == Idle
    ensures Good(d')
    ensures if InCall(d'.phase) then InCall(d.phase) && !WakeUpLost(d') && d'.returned == d.returned
            else d'.phase == Idle && |d'.returned| == |d.returned| + if InCall(d.phase) then 1 else 0
    decreases |acts|
  {
    if acts != [] {
      ActKeeps(d, acts[0]);
      if d.phase == Idle {
        IdleStays(d, acts[0]);
      } else {
        NotLostStays(d, acts[0]);
      }
      CallGoesOnOrReturned(After(d, acts[0]), acts[1..], d');
    }
  }

  /** As long as the call has not returned, somebody can do something productive. */
  lemma SomethingProductive(d: Driver) returns (a: Act)
    requires Good(d) && InCall(d.phase) && !WakeUpLost(d)
    ensures Can(d, a) && Productive(d, a) && !a.WriteCommand?
  {
    if d.phase == SyncSeen {
      a := ClearEventWait;
    } else if d.phase == WaitEnded {
      a := ClearEventSync;
    } else if d.phase == Returning {
      a := CopyEvent;
    } else if d.inbox.flags.sync {
      a := LookAtSync;
    } else {
      Counts(d);
      TowardsApproaches(d);
      AdvanceTakesOldest(d.slots, d.reader, d.poster);
      a := Towards(d);
    }
  }

  /**
   A wait that is not lost ends in every continuation, whatever the order of steps: the productive ones
   are bounded by what was left to do and the port events posted meanwhile, and when none is possible any
   more the call has returned.
   */
  lemma EveryContinuationReturns(d: Driver, acts: seq<Act>, d': Driver)
    requires Good(d) && d.phase == Waiting && !WakeUpLost(d) && Plays(d, acts, d') && NoSubmission(acts)
    ensures Good(d') && Gains(d, acts) <= Rank(d) + Others(acts)
    ensures (forall a :: Can(d', a) && !a.WriteCommand? ==> !Productive(d', a)) ==> |d'.returned| == |d.returned| + 1
  {
    RankBounds(d, acts, d');
    CallGoesOnOrReturned(d, acts, d');
    if InCall(d'.phase) {
      var a := SomethingProductive(d');
    }
  }
}
