/**
 The event ring as values: the controller posts events (section 4.9.4 of the xHCI specification), the
 interrupt handler walks them until it meets a TRB of the wrong cycle state.
 */
module EventRing {
  import opened XhciTrb
  import opened TrbRing

  /** The driver's `read_index` and `cycle_bit`. */
  datatype Reader = Reader(index: nat, cycle: bool)

  /** The controller's enqueue pointer and producer cycle state. */
  datatype Poster = Poster(enq: nat, pcs: bool)

  predicate Matches(slots: seq<Trb>, r: Reader)
    requires r.index < |slots|
  {
    slots[r.index].cycle == r.cycle
  }

  function Advance(n: nat, r: Reader): (r': Reader)
    requires r.index < n
    ensures r'.index < n
  {
    if r.index + 1 == n then Reader(0, !r.cycle) else Reader(r.index + 1, r.cycle)
  }

  /** The driver's own formulation of the advance, with a remainder. */
  lemma AdvanceByRemainder(n: nat, i: nat)
    requires i < n
    ensures (i + 1) % n == if i + 1 == n then 0 else i + 1
  {}

  /** What the handler's loop does in at most `budget` iterations over a ring nobody writes to. */
  function Walk(slots: seq<Trb>, r: Reader, budget: nat): (w: (Reader, seq<Trb>))
    requires r.index < |slots|
    ensures w.0.index < |slots| && |w.1| <= budget
    decreases budget
  {
    if budget == 0 || !Matches(slots, r) then (r, [])
    else
      var (r', handled) := Walk(slots, Advance(|slots|, r), budget - 1);
      (r', [slots[r.index]] + handled)
  }

  lemma {:induction false} WalkPosition(slots: seq<Trb>, r: Reader, k: nat)
    requires r.index < |slots| && k <= |slots| && |Walk(slots, r, k).1| == k
    ensures var r' := Walk(slots, r, k).0;
            if r.index + k < |slots| then r' == Reader(r.index + k, r.cycle)
            else r' == Reader(r.index + k - |slots|, !r.cycle)
    decreases k
  {
    if k > 0 && r.index + 1 < |slots| {
      WalkPosition(slots, Advance(|slots|, r), k - 1);
    } else if k > 0 {
      WalkWithinLap(slots, Advance(|slots|, r), k - 1);
    }
  }

  lemma {:induction false} WalkWithinLap(slots: seq<Trb>, r: Reader, k: nat)
    requires r.index + k < |slots| && |Walk(slots, r, k).1| == k
    ensures Walk(slots, r, k).0 == Reader(r.index + k, r.cycle)
    decreases k
  {
    if k > 0 {
      WalkWithinLap(slots, Advance(|slots|, r), k - 1);
    }
  }

  /** Whatever the ring holds, `|slots|` iterations bring the loop to a TRB that stops it. */
  lemma WalkStops(slots: seq<Trb>, r: Reader, k: nat)
    requires r.index < |slots| && k == |slots|
    ensures !Matches(slots, Walk(slots, r, k).0)
  {
    var w := Walk(slots, r, k);
    WalkStopsOrRuns(slots, r, k);
    if |w.1| == k {
      WalkPosition(slots, r, k);
      assert w.0 == Reader(r.index, !r.cycle);
    }
  }

  lemma {:induction false} WalkStopsOrRuns(slots: seq<Trb>, r: Reader, k: nat)
    requires r.index < |slots|
    ensures |Walk(slots, r, k).1| == k || !Matches(slots, Walk(slots, r, k).0)
    ensures k > 0 && |Walk(slots, r, k).1| == k ==> Matches(slots, r)
    decreases k
  {
    if k > 0 && Matches(slots, r) {
      WalkStopsOrRuns(slots, Advance(|slots|, r), k - 1);
    }
  }

  /** One more iteration of the loop. */
  lemma {:induction false} WalkExtends(slots: seq<Trb>, r: Reader, k: nat)
    requires r.index < |slots| && |Walk(slots, r, k).1| == k && Matches(slots, Walk(slots, r, k).0)
    ensures var (r', handled) := Walk(slots, r, k);
            Walk(slots, r, k + 1) == (Advance(|slots|, r'), handled + [slots[r'.index]])
    decreases k
  {
    if k == 0 {
      assert Walk(slots, r, 1).1 == [slots[r.index]] + Walk(slots, Advance(|slots|, r), 0).1;
      assert [slots[r.index]] + [] == [] + [slots[r.index]];
    } else {
      WalkStopsOrRuns(slots, r, k);
      var next := Advance(|slots|, r);
      WalkExtends(slots, next, k - 1);
      var (r', handled) := Walk(slots, next, k - 1);
      Concat3([slots[r.index]], handled, [slots[r'.index]]);
    }
  }

  /** Once stopped, a larger budget changes nothing. */
  lemma {:induction false} WalkSettles(slots: seq<Trb>, r: Reader, k: nat, more: nat)
    requires r.index < |slots| && k <= more && !Matches(slots, Walk(slots, r, k).0)
    ensures Walk(slots, r, more) == Walk(slots, r, k)
    decreases k
  {
    if k > 0 && Matches(slots, r) {
      WalkSettles(slots, Advance(|slots|, r), k - 1, more - 1);
    }
  }

  // ---------------------------------------------------------------- against the controller

  ghost predicate Partitioned(slots: seq<Trb>, w: Poster) {
    && w.enq < |slots|
    && (forall i :: 0 <= i < w.enq ==> slots[i].cycle == w.pcs)
    && (forall i :: w.enq <= i < |slots| ==> slots[i].cycle == !w.pcs)
  }

  ghost predicate Aligned(slots: seq<Trb>, r: Reader, w: Poster) {
    && Partitioned(slots, w)
    && r.index < |slots|
    && if r.cycle == w.pcs then r.index <= w.enq else w.enq <= r.index
  }

  function Pending(slots: seq<Trb>, r: Reader, w: Poster): seq<Trb>
    requires r.index < |slots| && w.enq < |slots| && (r.cycle == w.pcs ==> r.index <= w.enq)
  {
    if r.cycle == w.pcs then slots[r.index..w.enq] else slots[r.index..] + slots[..w.enq]
  }

  function NextPoster(n: nat, w: Poster): Poster {
    if w.enq + 1 == n then Poster(0, !w.pcs) else Poster(w.enq + 1, w.pcs)
  }

  function Post(slots: seq<Trb>, w: Poster, ev: Trb): (seq<Trb>, Poster)
    requires w.enq < |slots|
  {
    (slots[w.enq := Stamp(ev, w.pcs)], NextPoster(|slots|, w))
  }

  lemma PostAppends(slots: seq<Trb>, r: Reader, w: Poster, ev: Trb)
    requires Aligned(slots, r, w) && |Pending(slots, r, w)| < |slots|
    ensures var (slots', w') := Post(slots, w, ev);
            && Aligned(slots', r, w')
            && Pending(slots', r, w') == Pending(slots, r, w) + [Stamp(ev, w.pcs)]
  {
    var (slots', w') := Post(slots, w, ev);
    if r.cycle == w.pcs {
      if w.enq + 1 < |slots| {
        assert slots'[r.index..w'.enq] == slots[r.index..w.enq] + [Stamp(ev, w.pcs)];
      } else {
        assert slots'[r.index..] == slots[r.index..w.enq] + [Stamp(ev, w.pcs)];
      }
    } else {
      assert slots'[r.index..] == slots[r.index..];
      assert slots'[..w.enq + 1] == slots[..w.enq] + [Stamp(ev, w.pcs)];
    }
  }

  lemma AdvanceTakesOldest(slots: seq<Trb>, r: Reader, w: Poster)
    requires Aligned(slots, r, w)
    ensures Matches(slots, r) <==> Pending(slots, r, w) != []
    ensures Matches(slots, r) ==>
              && Aligned(slots, Advance(|slots|, r), w)
              && Pending(slots, r, w) == [slots[r.index]] + Pending(slots, Advance(|slots|, r), w)
  {
    if Matches(slots, r) {
      if r.cycle == w.pcs {
        assert slots[r.index..w.enq] == [slots[r.index]] + slots[r.index + 1..w.enq];
      } else {
        assert slots[r.index..] == [slots[r.index]] + slots[r.index + 1..];
      }
    }
  }

  lemma WalkOne(slots: seq<Trb>, r: Reader, k: nat)
    requires r.index < |slots| && Matches(slots, r) && 0 < k
    ensures var rest := Walk(slots, Advance(|slots|, r), k - 1);
            Walk(slots, r, k) == (rest.0, [slots[r.index]] + rest.1)
  {
  }

  lemma WalkNone(slots: seq<Trb>, r: Reader, k: nat)
    requires r.index < |slots| && !Matches(slots, r)
    ensures Walk(slots, r, k) == (r, [])
  {
  }

  /** After `w` the handler has taken what was pending, and nothing is. */
  ghost predicate Drained(slots: seq<Trb>, r: Reader, w: Poster, walked: (Reader, seq<Trb>))
  {
    && Aligned(slots, r, w) && walked.1 == Pending(slots, r, w)
    && Aligned(slots, walked.0, w) && Pending(slots, walked.0, w) == []
  }

  lemma DrainedOneMore(slots: seq<Trb>, r: Reader, w: Poster, rest: (Reader, seq<Trb>))
    requires Aligned(slots, r, w) && Matches(slots, r) && Drained(slots, Advance(|slots|, r), w, rest)
    ensures Drained(slots, r, w, (rest.0, [slots[r.index]] + rest.1))
  {
    AdvanceTakesOldest(slots, r, w);
  }

  lemma NextHasFewer(slots: seq<Trb>, r: Reader, w: Poster, k: nat)
    requires Aligned(slots, r, w) && |Pending(slots, r, w)| <= k && Matches(slots, r)
    ensures 0 < k && Aligned(slots, Advance(|slots|, r), w) && |Pending(slots, Advance(|slots|, r), w)| <= k - 1
  {
    AdvanceTakesOldest(slots, r, w);
  }

  lemma NothingDrained(slots: seq<Trb>, r: Reader, w: Poster)
    requires Aligned(slots, r, w) && !Matches(slots, r)
    ensures Drained(slots, r, w, (r, []))
  {
    AdvanceTakesOldest(slots, r, w);
  }

  lemma {:induction false} WalkDrains(slots: seq<Trb>, r: Reader, w: Poster, k: nat)
    requires Aligned(slots, r, w) && |Pending(slots, r, w)| <= k
    ensures Drained(slots, r, w, Walk(slots, r, k))
    decreases k
  {
    if Matches(slots, r) {
      var next := Advance(|slots|, r);
      NextHasFewer(slots, r, w, k);
      WalkDrains(slots, next, w, k - 1);
      WalkOne(slots, r, k);
      DrainedOneMore(slots, r, w, Walk(slots, next, k - 1));
    } else {
      WalkNone(slots, r, k);
      NothingDrained(slots, r, w);
    }
  }

  lemma WalkTakesPending(slots: seq<Trb>, r: Reader, w: Poster, k: nat)
    requires Aligned(slots, r, w) && |Pending(slots, r, w)| <= k
    ensures Walk(slots, r, k).1 == Pending(slots, r, w)
    ensures Aligned(slots, Walk(slots, r, k).0, w) && Pending(slots, Walk(slots, r, k).0, w) == []
  {
    WalkDrains(slots, r, w, k);
  }

  /**
   Posting is safe exactly while fewer than `|slots|` events are pending: then the next run of the
   handler takes all of them and the new one, otherwise it takes nothing at all.
   */
  lemma PostIsExact(slots: seq<Trb>, r: Reader, w: Poster, ev: Trb)
    requires Aligned(slots, r, w)
    ensures var (slots', w') := Post(slots, w, ev);
            |Pending(slots, r, w)| < |slots|
            <==> Walk(slots', r, |slots|).1 == Pending(slots, r, w) + [Stamp(ev, w.pcs)]
  {
    var (slots', w') := Post(slots, w, ev);
    if |Pending(slots, r, w)| < |slots| {
      PostAppends(slots, r, w, ev);
      WalkTakesPending(slots', r, w', |slots|);
    } else {
      assert r.index == w.enq && !Matches(slots', r);
    }
  }

  // ---------------------------------------------------------------- all interleavings

  datatype EventStep = PostStep(ev: Trb) | HandleStep

  datatype EventSystem = EventSystem(slots: seq<Trb>, reader: Reader, poster: Poster, posted: seq<Trb>, handled: seq<Trb>)

  ghost predicate EventInv(s: EventSystem) {
    && Aligned(s.slots, s.reader, s.poster)
    && s.posted == s.handled + Pending(s.slots, s.reader, s.poster)
  }

  ghost predicate EventAllowed(s: EventSystem, step: EventStep)
    requires Aligned(s.slots, s.reader, s.poster)
  {
    step.PostStep? ==> |Pending(s.slots, s.reader, s.poster)| < |s.slots|
  }

  /** The controller posts an event, or the handler's loop makes one iteration if its test lets it. */
  ghost function EventNext(s: EventSystem, step: EventStep): EventSystem
    requires Aligned(s.slots, s.reader, s.poster) && EventAllowed(s, step)
  {
    match step
    case PostStep(ev) =>
      var (slots, poster) := Post(s.slots, s.poster, ev);
      s.(slots := slots, poster := poster, posted := s.posted + [Stamp(ev, s.poster.pcs)])
    case HandleStep =>
      if !Matches(s.slots, s.reader) then s
      else s.(reader := Advance(|s.slots|, s.reader), handled := s.handled + [s.slots[s.reader.index]])
  }

  ghost predicate EventReaches(s: EventSystem, steps: seq<EventStep>, s': EventSystem)
    decreases |steps|
  {
    if steps == [] then s == s'
    else
      && Aligned(s.slots, s.reader, s.poster)
      && EventAllowed(s, steps[0])
      && EventReaches(EventNext(s, steps[0]), steps[1..], s')
  }

  /** The events posted in a run, as the controller made them. */
  function Posted(steps: seq<EventStep>): seq<Trb> {
    if steps == [] then []
    else (if steps[0].PostStep? then [steps[0].ev] else []) + Posted(steps[1..])
  }

  /** The controller has posted `x` events since the ring was initialised. */
  ghost predicate PosterAt(n: nat, w: Poster, x: nat)
    requires 0 < n
  {
    w.enq == x % n && w.pcs == LapState(x / n)
  }

  lemma EventStepKeepsInv(s: EventSystem, step: EventStep)
    requires EventInv(s) && EventAllowed(s, step)
    ensures EventInv(EventNext(s, step))
    ensures |EventNext(s, step).slots| == |s.slots|
  {
    var next := EventNext(s, step);
    match step
    case PostStep(ev) =>
      PostAppends(s.slots, s.reader, s.poster, ev);
      Concat3(s.handled, Pending(s.slots, s.reader, s.poster), [Stamp(ev, s.poster.pcs)]);
    case HandleStep =>
      AdvanceTakesOldest(s.slots, s.reader, s.poster);
      if Matches(s.slots, s.reader) {
        Concat3(s.handled, [s.slots[s.reader.index]], Pending(next.slots, next.reader, next.poster));
      }
  }

  /** Events as they are posted one after the other, starting with the controller at `w`. */
  function StampedBy(n: nat, w: Poster, events: seq<Trb>): seq<Trb>
    decreases |events|
  {
    if events == [] then [] else [Stamp(events[0], w.pcs)] + StampedBy(n, NextPoster(n, w), events[1..])
  }

  lemma {:induction false} RunPostsEvents(s: EventSystem, steps: seq<EventStep>, s': EventSystem)
    requires EventInv(s) && EventReaches(s, steps, s')
    ensures s'.posted == s.posted + StampedBy(|s.slots|, s.poster, Posted(steps))
    decreases |steps|
  {
    if steps == [] {
      assert s.posted + [] == s.posted;
    } else {
      var n, next, rest := |s.slots|, EventNext(s, steps[0]), Posted(steps[1..]);
      EventStepKeepsInv(s, steps[0]);
      RunPostsEvents(next, steps[1..], s');
      if steps[0].PostStep? {
        assert Posted(steps)[1..] == rest;
        Concat3(s.posted, [Stamp(steps[0].ev, s.poster.pcs)], StampedBy(n, next.poster, rest));
      } else {
        assert Posted(steps) == rest;
      }
    }
  }

  lemma PosterAdvances(n: nat, w: Poster, x: nat)
    requires 0 < n && PosterAt(n, w, x)
    ensures PosterAt(n, NextPoster(n, w), x + 1)
  {
    NextPosition(n, x);
  }

  lemma {:induction false} PostedCarryLaps(n: nat, w: Poster, x: nat, events: seq<Trb>)
    requires 0 < n && PosterAt(n, w, x)
    ensures StampedBy(n, w, events) == LapStamped(n, x, events)
    decreases |events|
  {
    if events != [] {
      PosterAdvances(n, w, x);
      PostedCarryLaps(n, NextPoster(n, w), x + 1, events[1..]);
      LapStampedStep(n, x, events);
    }
  }

  /**
   Event ring refinement.  Over all interleavings of posts and handler iterations that never overrun the
   ring, the handler has handled a prefix of the posted events, each once and in order, and one more
   undisturbed run of it handles exactly the rest.
   */
  lemma {:induction false} EventsHandledInOrder(s: EventSystem, steps: seq<EventStep>, s': EventSystem)
    requires EventInv(s) && EventReaches(s, steps, s')
    ensures EventInv(s') && |s'.slots| == |s.slots|
    ensures s'.handled + Walk(s'.slots, s'.reader, |s.slots|).1 == s'.posted
    decreases |steps|
  {
    if steps == [] {
      WalkTakesPending(s.slots, s.reader, s.poster, |s.slots|);
    } else {
      EventStepKeepsInv(s, steps[0]);
      EventsHandledInOrder(EventNext(s, steps[0]), steps[1..], s');
    }
  }

  /**
   From the initialised ring: handled so far and by one more run of the handler is exactly what was
   posted, each event with the cycle state of the lap it was posted on.
   */
  lemma EventRefinement(n: nat, steps: seq<EventStep>, s: EventSystem)
    requires 0 < n
    requires EventReaches(EventSystem(InitialEvents(n), Reader(0, true), Poster(0, true), [], []), steps, s)
    ensures EventInv(s) && |s.slots| == n
    ensures s.handled + Walk(s.slots, s.reader, n).1 == LapStamped(n, 0, Posted(steps))
  {
    var start := EventSystem(InitialEvents(n), Reader(0, true), Poster(0, true), [], []);
    InitialEventInv(n);
    FirstPosition(n);
    EventsHandledInOrder(start, steps, s);
    RunPostsEvents(start, steps, s);
    PostedCarryLaps(n, start.poster, 0, Posted(steps));
    assert [] + LapStamped(n, 0, Posted(steps)) == LapStamped(n, 0, Posted(steps));
  }

  lemma FirstPosition(n: nat)
    requires 0 < n
    ensures PosterAt(n, Poster(0, true), 0)
  {}

  function InitialEvents(n: nat): seq<Trb> { seq(n, i => ZERO_TRB) }

  lemma InitialEventInv(n: nat)
    requires 0 < n
    ensures EventInv(EventSystem(InitialEvents(n), Reader(0, true), Poster(0, true), [], []))
  {
    LinkTrbCloses(0);
  }
}
