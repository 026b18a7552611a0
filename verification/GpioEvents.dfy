/**
 Line events: a byte FIFO and a poll signal per descriptor, filled by interrupts, and the client loop that
 polls several descriptors and drains the ready ones.  Interrupts strike between any two steps.
 */
module GpioEvents {

  const RECORD_SIZE := 16
  const EVENT_DATA_MAX := 16
  const BUFFER_SIZE := 256

  /** One event record as it lies in the buffer. */
  type Record = r: seq<bv8> | |r| == RECORD_SIZE witness seq(RECORD_SIZE, i => 0)

  /** The byte FIFO takes what fits and hands out what it has. */
  function Accepts(rb: seq<bv8>, size: nat): nat
    requires |rb| <= BUFFER_SIZE
  {
    if size <= BUFFER_SIZE - |rb| then size else BUFFER_SIZE - |rb|
  }

  function Put(rb: seq<bv8>, data: seq<bv8>): (r: seq<bv8>)
    requires |rb| <= BUFFER_SIZE
    ensures |r| <= BUFFER_SIZE
  {
    rb + data[..Accepts(rb, |data|)]
  }

  function Gets(rb: seq<bv8>, size: nat): nat { if size <= |rb| then size else |rb| }

  function Flatten(queue: seq<Record>): seq<bv8> {
    if queue == [] then [] else queue[0] + Flatten(queue[1..])
  }

  lemma {:induction false} FlattenLength(queue: seq<Record>)
    ensures |Flatten(queue)| == RECORD_SIZE * |queue|
    decreases |queue|
  {
    if queue != [] {
      FlattenLength(queue[1..]);
    }
  }

  lemma {:induction false} FlattenSnoc(queue: seq<Record>, r: Record)
    ensures Flatten(queue + [r]) == Flatten(queue) + r
    decreases |queue|
  {
    if queue == [] {
      assert queue + [r] == [r];
      assert [r][1..] == [];
      assert Flatten([r]) == r + Flatten([]);
    } else {
      FlattenSnoc(queue[1..], r);
      assert (queue + [r])[1..] == queue[1..] + [r];
      assert queue[0] + (Flatten(queue[1..]) + r) == (queue[0] + Flatten(queue[1..])) + r;
    }
  }

  /** A buffer of whole records takes a record whole or not at all. */
  lemma PutIsAllOrNothing(queue: seq<Record>, r: Record)
    requires |queue| <= EVENT_DATA_MAX
    ensures |Flatten(queue)| <= BUFFER_SIZE
    ensures Put(Flatten(queue), r) == Flatten(if |queue| < EVENT_DATA_MAX then queue + [r] else queue)
    ensures Accepts(Flatten(queue), RECORD_SIZE) == if |queue| < EVENT_DATA_MAX then RECORD_SIZE else 0
  {
    FlattenLength(queue);
    FlattenSnoc(queue, r);
    if |queue| < EVENT_DATA_MAX {
      assert r[..RECORD_SIZE] == r;
    } else {
      assert r[..0] == [];
    }
  }

  /** A record-sized read takes the oldest record, or nothing when there is none. */
  lemma ReadTakesOldest(queue: seq<Record>)
    ensures var n := Gets(Flatten(queue), RECORD_SIZE);
            if queue == [] then n == 0 && Flatten(queue) == []
            else n == RECORD_SIZE && Flatten(queue)[..n] == queue[0] && Flatten(queue)[n..] == Flatten(queue[1..])
  {
    FlattenLength(queue);
  }

  // ---------------------------------------------------------------- descriptors and reader

  /** `raising` is the moment between the handler's put and its raise; the last three are histories. */
  datatype Line = Line(rb: seq<bv8>, signaled: bool, raising: bool, revents: bool,
                       queue: seq<Record>, accepted: seq<Record>, delivered: seq<Record>)

  datatype ReaderAt = Blocked | Updating(i: nat) | Resetting(i: nat) | Scanning(i: nat) | Draining(i: nat)

  datatype World = World(lines: seq<Line>, at: ReaderAt)

  datatype Event = IrqPut(j: nat, record: Record) | IrqRaise(j: nat) | ReaderStep

  ghost predicate LineOk(l: Line) {
    && |l.queue| <= EVENT_DATA_MAX
    && l.rb == Flatten(l.queue)
    && l.accepted == l.delivered + l.queue
  }

  /** The reader has seen POLLIN on descriptor `j` in this round and has not drained it yet. */
  predicate Owed(w: World, j: nat)
    requires j < |w.lines|
  {
    w.lines[j].revents &&
    match w.at
    case Blocked => false
    case Updating(i) => j < i
    case Resetting(i) => j <= i
    case Scanning(i) => i <= j
    case Draining(i) => i <= j
  }

  ghost predicate WorldInv(w: World) {
    && (forall j :: 0 <= j < |w.lines| ==> LineOk(w.lines[j]))
    && (forall j :: 0 <= j < |w.lines| && w.lines[j].queue != [] ==>
          w.lines[j].signaled || w.lines[j].raising || Owed(w, j))
    && match w.at
       case Blocked => true
       case Updating(i) => i <= |w.lines| && (forall j :: i <= j < |w.lines| ==> !w.lines[j].revents)
       case Resetting(i) => i < |w.lines| && w.lines[i].revents && (forall j :: i < j < |w.lines| ==> !w.lines[j].revents)
       case Scanning(i) => i <= |w.lines|
       case Draining(i) => i < |w.lines|
  }

  predicate Occurs(w: World, e: Event) {
    match e
    case IrqPut(j, _) => j < |w.lines| && !w.lines[j].raising && |w.lines[j].rb| <= BUFFER_SIZE
    case IrqRaise(j) => j < |w.lines| && w.lines[j].raising
    case ReaderStep =>
      match w.at
      case Blocked => true
      case Updating(i) => i <= |w.lines|
      case Resetting(i) => i < |w.lines|
      case Scanning(i) => i <= |w.lines|
      case Draining(i) => i < |w.lines|
  }

  function PutRecord(l: Line, r: Record): Line
    requires |l.rb| <= BUFFER_SIZE
  {
    var kept := Accepts(l.rb, RECORD_SIZE) == RECORD_SIZE;
    l.(rb := Put(l.rb, r), raising := true,
       queue := if kept then l.queue + [r] else l.queue,
       accepted := if kept then l.accepted + [r] else l.accepted)
  }

  function Raised(l: Line): Line { l.(signaled := true, raising := false) }

  function ReadRecord(l: Line): Line {
    var n := Gets(l.rb, RECORD_SIZE);
    if n == RECORD_SIZE && l.queue != [] then
      l.(rb := l.rb[n..], queue := l.queue[1..], delivered := l.delivered + [l.queue[0]])
    else l.(rb := l.rb[n..])
  }

  /** One step of the poll call or of the client's loop around it. */
  function ReaderNext(w: World): World
    requires Occurs(w, ReaderStep)
  {
    match w.at
    case Blocked =>
      World(seq(|w.lines|, j requires 0 <= j < |w.lines| => w.lines[j].(revents := false)), Updating(0))
    case Updating(i) =>
      if i == |w.lines| then w.(at := Scanning(0))
      else if |w.lines[i].rb| >= RECORD_SIZE then
        World(w.lines[i := w.lines[i].(revents := true)], Resetting(i))
      else w.(at := Updating(i + 1))
    case Resetting(i) => World(w.lines[i := w.lines[i].(signaled := false)], Updating(i + 1))
    case Scanning(i) =>
      if i == |w.lines| then w.(at := Blocked)
      else if w.lines[i].revents then w.(at := Draining(i))
      else w.(at := Scanning(i + 1))
    case Draining(i) =>
      World(w.lines[i := ReadRecord(w.lines[i])],
            if Gets(w.lines[i].rb, RECORD_SIZE) == RECORD_SIZE then Draining(i) else Scanning(i + 1))
  }

  function Happen(w: World, e: Event): World
    requires Occurs(w, e)
  {
    match e
    case IrqPut(j, r) => w.(lines := w.lines[j := PutRecord(w.lines[j], r)])
    case IrqRaise(j) => w.(lines := w.lines[j := Raised(w.lines[j])])
    case ReaderStep => ReaderNext(w)
  }

  lemma PutKeepsLine(l: Line, r: Record)
    requires LineOk(l)
    ensures |l.rb| <= BUFFER_SIZE && LineOk(PutRecord(l, r))
    ensures PutRecord(l, r).queue == if |l.queue| < EVENT_DATA_MAX then l.queue + [r] else l.queue
  {
    PutIsAllOrNothing(l.queue, r);
    assert l.delivered + (l.queue + [r]) == (l.delivered + l.queue) + [r];
  }

  lemma ReadKeepsLine(l: Line)
    requires LineOk(l)
    ensures LineOk(ReadRecord(l))
    ensures Gets(l.rb, RECORD_SIZE) == RECORD_SIZE <==> l.queue != []
    ensures |l.rb| >= RECORD_SIZE <==> l.queue != []
    ensures ReadRecord(l).queue == if l.queue == [] then [] else l.queue[1..]
  {
    ReadTakesOldest(l.queue);
    FlattenLength(l.queue);
    if l.queue != [] {
      assert (l.delivered + [l.queue[0]]) + l.queue[1..] == l.delivered + l.queue;
    }
  }

  lemma IrqKeeps(w: World, e: Event)
    requires WorldInv(w) && Occurs(w, e) && e != ReaderStep
    ensures WorldInv(Happen(w, e))
  {
    if e.IrqPut? {
      PutKeepsLine(w.lines[e.j], e.record);
    }
  }

  lemma ReaderKeeps(w: World)
    requires WorldInv(w) && Occurs(w, ReaderStep)
    ensures WorldInv(ReaderNext(w))
  {
    match w.at
    case Updating(i) =>
      if i < |w.lines| {
        ReadKeepsLine(w.lines[i]);
      }
    case Draining(i) => ReadKeepsLine(w.lines[i]);
    case _ =>
  }

  lemma HappenKeeps(w: World, e: Event)
    requires WorldInv(w) && Occurs(w, e)
    ensures WorldInv(Happen(w, e))
  {
    if e == ReaderStep {
      ReaderKeeps(w);
    } else {
      IrqKeeps(w, e);
    }
  }

  ghost predicate Goes(w: World, events: seq<Event>, w': World)
    decreases |events|
  {
    if events == [] then w == w' else Occurs(w, events[0]) && Goes(Happen(w, events[0]), events[1..], w')
  }

  lemma {:induction false} GoesKeeps(w: World, events: seq<Event>, w': World)
    requires WorldInv(w) && Goes(w, events, w')
    ensures WorldInv(w') && |w'.lines| == |w.lines|
    decreases |events|
  {
    if events != [] {
      HappenKeeps(w, events[0]);
      GoesKeeps(Happen(w, events[0]), events[1..], w');
    }
  }

  const OPENED := Line([], false, false, false, [], [], [])

  /**
   Poll never sleeps on data: in every interleaving, when the reader is blocked and some descriptor holds
   a record, that descriptor's signal is up or about to be raised by the handler that put the record.
   Buffers always hold whole records, in the order in which they were accepted.
   */
  lemma PollNeverSleepsOnData(n: nat, events: seq<Event>, w: World, j: nat)
    requires Goes(World(seq(n, i => OPENED), Blocked), events, w) && j < n
    ensures |w.lines| == n && LineOk(w.lines[j])
    ensures w.at == Blocked && w.lines[j].rb != [] ==> w.lines[j].signaled || w.lines[j].raising
  {
    GoesKeeps(World(seq(n, i => OPENED), Blocked), events, w);
  }

  /** Without draining the promise fails: two records, one read, and the reader sleeps on the second. */
  lemma ReadingOnceSleepsOnData(a: Record, b: Record)
    ensures var start := World([OPENED], Blocked);
            var filled := Happen(Happen(Happen(start, IrqPut(0, a)), IrqRaise(0)), IrqPut(0, b));
            var seen := ReaderNext(ReaderNext(ReaderNext(Happen(filled, IrqRaise(0)))));
            var once := World([ReadRecord(seen.lines[0])], Blocked);
            once.lines[0].rb == b && !once.lines[0].signaled && !once.lines[0].raising
  {
    var l1 := PutRecord(OPENED, a);
    PutKeepsLine(OPENED, a);
    var l2 := l1.(signaled := true, raising := false);
    PutKeepsLine(l2, b);
    var l3 := PutRecord(l2, b).(signaled := true, raising := false);
    assert l3.queue == [a, b];
    ReadKeepsLine(l3);
    var seen := l3.(revents := true, signaled := false);
    ReadKeepsLine(seen);
    assert [a, b][1..] == [b] && [b][1..] == [];
    assert Flatten([b]) == b + Flatten([]);
  }

  // ---------------------------------------------------------------- a round of the reader

  ghost predicate Reads(w: World, n: nat, w': World)
    decreases n
  {
    if n == 0 then w == w' else Occurs(w, ReaderStep) && Reads(ReaderNext(w), n - 1, w')
  }

  lemma {:induction false} ReadsOn(w: World, n: nat, w1: World, m: nat, w2: World)
    requires Reads(w, n, w1) && Reads(w1, m, w2)
    ensures Reads(w, n + m, w2)
    decreases n
  {
    if n > 0 {
      ReadsOn(ReaderNext(w), n - 1, w1, m, w2);
    }
  }

  lemma WholeRecords(l: Line)
    requires LineOk(l)
    ensures |l.rb| >= RECORD_SIZE <==> l.queue != []
  {
    FlattenLength(l.queue);
  }

  ghost predicate SameQueues(w: World, w': World) {
    && |w'.lines| == |w.lines|
    && forall j :: 0 <= j < |w.lines| ==> w'.lines[j].queue == w.lines[j].queue && w'.lines[j].delivered == w.lines[j].delivered
  }

  /** The poll call reports exactly the descriptors with a record. */
  lemma {:induction false} PollReports(w: World, i: nat) returns (n: nat, w': World)
    requires WorldInv(w) && w.at == Updating(i)
    requires forall j :: 0 <= j < i ==> (w.lines[j].revents <==> w.lines[j].queue != [])
    ensures Reads(w, n, w') && WorldInv(w') && SameQueues(w, w') && w'.at == Scanning(0)
    ensures forall j :: 0 <= j < |w.lines| ==> (w'.lines[j].revents <==> w'.lines[j].queue != [])
    decreases |w.lines| - i
  {
    ReaderKeeps(w);
    var next := ReaderNext(w);
    if i == |w.lines| {
      n, w' := 1, next;
      assert Reads(next, 0, w');
    } else {
      WholeRecords(w.lines[i]);
      if w.lines[i].queue != [] {
        ReaderKeeps(next);
        n, w' := PollReports(ReaderNext(next), i + 1);
        n := n + 2;
        assert Reads(next, n - 1, w');
      } else {
        n, w' := PollReports(next, i + 1);
        n := n + 1;
      }
    }
  }

  /** Draining hands over all records of the descriptor, in order, and touches no other. */
  lemma {:induction false} DrainEmpties(w: World, i: nat) returns (n: nat, w': World)
    requires WorldInv(w) && w.at == Draining(i)
    ensures Reads(w, n, w') && WorldInv(w') && w'.at == Scanning(i + 1) && |w'.lines| == |w.lines|
    ensures w'.lines[i].queue == [] && w'.lines[i].delivered == w.lines[i].delivered + w.lines[i].queue
    ensures forall j :: 0 <= j < |w.lines| && j != i ==> w'.lines[j] == w.lines[j]
    decreases |w.lines[i].queue|
  {
    var l := w.lines[i];
    ReaderKeeps(w);
    ReadTakesOldest(l.queue);
    var next := ReaderNext(w);
    if l.queue == [] {
      n, w' := 1, next;
      assert Reads(next, 0, w');
      assert l.delivered + [] == l.delivered;
    } else {
      n, w' := DrainEmpties(next, i);
      n := n + 1;
      assert l.delivered + [l.queue[0]] + l.queue[1..] == l.delivered + l.queue;
    }
  }

  /** All that was buffered has been delivered behind what was delivered before. */
  ghost predicate AllDelivered(w: World, w': World, from: nat) {
    && |w'.lines| == |w.lines|
    && forall j :: from <= j < |w.lines| ==>
         w'.lines[j].queue == [] && w'.lines[j].delivered == w.lines[j].delivered + w.lines[j].queue
  }

  lemma {:induction false} ScanDrains(w: World, i: nat) returns (n: nat, w': World)
    requires WorldInv(w) && w.at == Scanning(i)
    requires forall j :: i <= j < |w.lines| ==> (w.lines[j].revents <==> w.lines[j].queue != [])
    ensures Reads(w, n, w') && WorldInv(w') && w'.at == Blocked && AllDelivered(w, w', i)
    ensures forall j :: 0 <= j < i ==> w'.lines[j] == w.lines[j]
    decreases |w.lines| - i
  {
    ReaderKeeps(w);
    var next := ReaderNext(w);
    if i == |w.lines| {
      n, w' := 1, next;
      assert Reads(next, 0, w');
    } else if w.lines[i].revents {
      var k, drained := DrainEmpties(next, i);
      var m;
      m, w' := ScanDrains(drained, i + 1);
      ReadsOn(next, k, drained, m, w');
      n := 1 + (k + m);
    } else {
      assert w.lines[i].delivered + [] == w.lines[i].delivered;
      n, w' := ScanDrains(next, i + 1);
      n := n + 1;
    }
  }

  /** Left alone from a return of the poll on, the reader delivers every buffered record and blocks again. */
  lemma RoundDeliversAll(w: World) returns (n: nat, w': World)
    requires WorldInv(w) && w.at == Blocked
    ensures Reads(w, n, w') && WorldInv(w') && w'.at == Blocked && AllDelivered(w, w', 0)
  {
    ReaderKeeps(w);
    var next := ReaderNext(w);
    var k, reported := PollReports(next, 0);
    var m;
    m, w' := ScanDrains(reported, 0);
    ReadsOn(next, k, reported, m, w');
    n := 1 + (k + m);
  }

  // ---------------------------------------------------------------- the routines of one descriptor

  /** What one call of the poll update does to its line: report a whole record and take the signal down. */
  function Updated(l: Line): Line {
    if |l.rb| >= RECORD_SIZE then l.(revents := true, signaled := false) else l
  }

  /** An undisturbed interrupt is the put and the raise of the steps above. */
  lemma IrqIsPutThenRaise(w: World, j: nat, r: Record)
    requires Occurs(w, IrqPut(j, r))
    ensures var put := Happen(w, IrqPut(j, r));
            && Occurs(put, IrqRaise(j))
            && Happen(put, IrqRaise(j)) == w.(lines := w.lines[j := Raised(PutRecord(w.lines[j], r))])
            && Happen(put, IrqRaise(j)).lines[j].signaled
  {}

  /** An undisturbed poll update is one reader step, or two when it finds a record. */
  lemma UpdateIsReaderSteps(w: World, i: nat)
    requires w.at == Updating(i) && i < |w.lines|
    ensures var done := World(w.lines[i := Updated(w.lines[i])], Updating(i + 1));
            if |w.lines[i].rb| >= RECORD_SIZE
            then Occurs(ReaderNext(w), ReaderStep) && ReaderNext(ReaderNext(w)) == done
            else ReaderNext(w) == done
  {}

  /** The event object: its buffer and signal, with the records as ghosts. */
  class EventFile {
    var rb: seq<bv8>
    var signaled: bool
    ghost var queue: seq<Record>
    ghost var accepted: seq<Record>
    ghost var delivered: seq<Record>

    /** The object as the line of a descriptor; `revents` belongs to the caller of poll. */
    ghost function View(revents: bool): Line
      reads this
    {
      Line(rb, signaled, false, revents, queue, accepted, delivered)
    }

    ghost predicate Valid()
      reads this
    {
      LineOk(View(false)) && |rb| <= BUFFER_SIZE
    }

    constructor ()
      ensures Valid() && View(false) == OPENED
    {
      rb, signaled, queue, accepted, delivered := [], false, [], [], [];
    }

    /** The handler raises the signal even when the record did not fit. */
    method Irq(record: Record)
      requires Valid()
      modifies this
      ensures Valid()
      ensures forall revents :: View(revents) == Raised(PutRecord(old(View(revents)), record))
      ensures signaled && queue == if |old(queue)| < EVENT_DATA_MAX then old(queue) + [record] else old(queue)
    {
      PutIsAllOrNothing(queue, record);
      var wSize := Accepts(rb, |record|);
      rb := rb + record[..wSize];
      if wSize == RECORD_SIZE {
        queue, accepted := queue + [record], accepted + [record];
        assert delivered + (old(queue) + [record]) == delivered + old(queue) + [record];
      }
      signaled := true;
    }

    /** The read hands out the oldest bytes; read record by record, the oldest record each time. */
    method Read(nbytes: nat) returns (dest: seq<bv8>)
      modifies this
      ensures dest + rb == old(rb) && |dest| == Gets(old(rb), nbytes)
      ensures nbytes == RECORD_SIZE && old(Valid()) ==>
                && Valid() && dest == (if old(queue) == [] then [] else old(queue)[0])
                && forall revents :: View(revents) == ReadRecord(old(View(revents)))
    {
      var n := Gets(rb, nbytes);
      if nbytes == RECORD_SIZE && Valid() {
        ReadTakesOldest(queue);
        if queue != [] {
          assert delivered + queue == delivered + [queue[0]] + queue[1..];
          queue, delivered := queue[1..], delivered + [queue[0]];
        }
      }
      dest, rb := rb[..n], rb[n..];
    }

    method PollUpdate() returns (pollin: bool)
      requires Valid()
      modifies this`signaled
      ensures Valid() && View(pollin) == Updated(old(View(false)))
      ensures (pollin <==> queue != []) && (signaled <==> old(signaled) && !pollin)
    {
      FlattenLength(queue);
      pollin := |rb| >= RECORD_SIZE;
      if pollin {
        signaled := false;
      }
    }

    /** The client's inner loop: read records until a short read. */
    method DrainAll() returns (records: seq<Record>)
      requires Valid()
      modifies this
      ensures Valid() && records == old(queue) && rb == [] && queue == []
      ensures delivered == old(delivered) + records && accepted == old(accepted) && signaled == old(signaled)
    {
      records := [];
      while true
        invariant Valid() && records + queue == old(queue)
        invariant delivered == old(delivered) + records && accepted == old(accepted) && signaled == old(signaled)
        decreases |queue|
      {
        ghost var l := View(false);
        var data := Read(RECORD_SIZE);
        assert View(false) == ReadRecord(l);
        if |data| != RECORD_SIZE {
          break;
        }
        records := records + [data];
      }
    }
  }
}
