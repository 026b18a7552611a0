/** The driver's tables and masks, updated in place, against the ownership values of `GpioFs`. */
module GpioDriver {
  import opened GpioPins
  import opened GpioFs

  ghost function MaskSets(masks: seq<bv32>): seq<iset<bv32>> {
    seq(|masks|, i requires 0 <= i < |masks| => Pins(masks[i]))
  }

  lemma MaskSetsUpdated(before: seq<bv32>, after: seq<bv32>, chip: nat)
    requires |after| == |before| && chip < |before|
    requires forall c :: 0 <= c < |before| && c != chip ==> after[c] == before[c]
    ensures MaskSets(before)[chip] == Pins(before[chip])
    ensures MaskSets(after) == MaskSets(before)[chip := Pins(after[chip])]
  {}

  lemma UnionStep<T>(before: iset<T>, after: iset<T>, base: iset<T>, done: iset<T>, done': iset<T>, x: T)
    requires before == base + done && after == before + iset{x} && done' == done + iset{x}
    ensures after == base + done'
  {}

  lemma DifferenceStep<T>(before: iset<T>, after: iset<T>, base: iset<T>, done: iset<T>, done': iset<T>, x: T)
    requires before == base - done && after == before - iset{x} && done' == done + iset{x}
    ensures after == base - done'
  {}

  method WithPin(mask: bv32, p: bv32) returns (mask': bv32)
    requires p < 32
    ensures Pins(mask') == Pins(mask) + iset{p}
  {
    SetPin(mask, p);
    mask' := mask | Bit(p);
  }

  method WithoutPin(mask: bv32, p: bv32) returns (mask': bv32)
    requires p < 32
    ensures Pins(mask') == Pins(mask) - iset{p}
  {
    ClearPin(mask, p);
    mask' := mask & !Bit(p);
  }

  /** Adding or removing pins one at a time. */
  lemma SetNextPin(before: iset<bv32>, after: iset<bv32>, taken: iset<bv32>, pins: seq<bv32>, i: nat)
    requires i < |pins| && before == taken + ToSet(pins[..i]) && after == before + iset{pins[i]}
    ensures after == taken + ToSet(pins[..i + 1])
  {
    ToSetSnoc(pins, i);
    UnionStep(before, after, taken, ToSet(pins[..i]), ToSet(pins[..i + 1]), pins[i]);
  }

  lemma ClearNextPin(before: iset<bv32>, after: iset<bv32>, taken: iset<bv32>, pins: seq<bv32>, i: nat)
    requires i < |pins| && before == taken - ToSet(pins[..i]) && after == before - iset{pins[i]}
    ensures after == taken - ToSet(pins[..i + 1])
  {
    ToSetSnoc(pins, i);
    DifferenceStep(before, after, taken, ToSet(pins[..i]), ToSet(pins[..i + 1]), pins[i]);
  }

  lemma FirstFreeIs(slots: seq<Slot>, i: nat)
    requires i <= |slots| && (i < |slots| ==> slots[i].Free?) && (forall j :: 0 <= j < i ==> slots[j].Live?)
    ensures i == FirstFree(slots)
  {}

  class Driver {
    const pinCount: seq<bv32>
    const pinMask: array<bv32>
    const lines: array<Slot>
    const events: array<Slot>

    ghost predicate Valid()
      reads this, pinMask, lines, events
    {
      && pinMask.Length == |pinCount|
      && lines != events && pinMask as object != lines && pinMask as object != events
      && lines.Length == LINE_HANDLE_MAX && events.Length == LINE_EVENT_MAX
      && Ownership(View())
    }

    ghost function View(): Fs
      reads this, pinMask, lines, events
    {
      Fs(pinCount, MaskSets(pinMask[..]), lines[..], events[..])
    }

    constructor (pinCount: seq<bv32>)
      requires forall c :: 0 <= c < |pinCount| ==> pinCount[c] <= 32
      ensures Valid() && View() == Boot(pinCount)
      ensures fresh(pinMask) && fresh(lines) && fresh(events)
    {
      this.pinCount := pinCount;
      pinMask := new bv32[|pinCount|](i => 0);
      lines := new Slot[LINE_HANDLE_MAX](i => Free);
      events := new Slot[LINE_EVENT_MAX](i => Free);
      new;
      NoPins();
      assert View() == Boot(pinCount);
    }

    method FindFree(slots: array<Slot>) returns (i: nat)
      ensures i == FirstFree(slots[..])
    {
      i := 0;
      while i < slots.Length && slots[i].Live?
        invariant i <= slots.Length && forall j :: 0 <= j < i ==> slots[j].Live?
      {
        i := i + 1;
      }
      FirstFreeIs(slots[..], i);
    }

    /** The mask test, pin by pin. */
    method AnyTaken(chip: nat, pins: seq<bv32>) returns (taken: bool)
      requires Valid() && chip < pinMask.Length && Below(pins, 32)
      ensures taken <==> !Unclaimed(View(), chip, pins)
    {
      taken := false;
      for i := 0 to |pins|
        invariant !taken && forall j :: 0 <= j < i ==> pins[j] !in Pins(pinMask[chip])
      {
        if Bit(pins[i]) & pinMask[chip] != 0 {
          assert HasPin(pinMask[chip], pins[i]) by { AndCommutes(Bit(pins[i]), pinMask[chip]); }
          return true;
        }
        assert !HasPin(pinMask[chip], pins[i]) by { AndCommutes(Bit(pins[i]), pinMask[chip]); }
      }
    }

    method SetOne(chip: nat, p: bv32)
      requires chip < pinMask.Length && p < 32
      modifies pinMask
      ensures Pins(pinMask[chip]) == Pins(old(pinMask[chip])) + iset{p}
      ensures forall c :: 0 <= c < pinMask.Length && c != chip ==> pinMask[c] == old(pinMask[c])
    {
      var mask := WithPin(pinMask[chip], p);
      pinMask[chip] := mask;
    }

    method SetPins(chip: nat, pins: seq<bv32>)
      requires chip < pinMask.Length && Below(pins, 32)
      modifies pinMask
      ensures MaskSets(pinMask[..]) == old(MaskSets(pinMask[..]))[chip := old(MaskSets(pinMask[..]))[chip] + ToSet(pins)]
    {
      ghost var before := pinMask[..];
      for i := 0 to |pins|
        invariant forall c :: 0 <= c < pinMask.Length && c != chip ==> pinMask[c] == before[c]
        invariant Pins(pinMask[chip]) == Pins(before[chip]) + ToSet(pins[..i])
      {
        ghost var mask := pinMask[chip];
        SetOne(chip, pins[i]);
        SetNextPin(Pins(mask), Pins(pinMask[chip]), Pins(before[chip]), pins, i);
      }
      assert pins[..|pins|] == pins;
      MaskSetsUpdated(before, pinMask[..], chip);
    }

    method ClearOne(chip: nat, p: bv32)
      requires chip < pinMask.Length && p < 32
      modifies pinMask
      ensures Pins(pinMask[chip]) == Pins(old(pinMask[chip])) - iset{p}
      ensures forall c :: 0 <= c < pinMask.Length && c != chip ==> pinMask[c] == old(pinMask[c])
    {
      var mask := WithoutPin(pinMask[chip], p);
      pinMask[chip] := mask;
    }

    method ClearPins(chip: nat, pins: seq<bv32>)
      requires chip < pinMask.Length && Below(pins, 32)
      modifies pinMask
      ensures MaskSets(pinMask[..]) == old(MaskSets(pinMask[..]))[chip := old(MaskSets(pinMask[..]))[chip] - ToSet(pins)]
    {
      ghost var before := pinMask[..];
      for i := 0 to |pins|
        invariant forall c :: 0 <= c < pinMask.Length && c != chip ==> pinMask[c] == before[c]
        invariant Pins(pinMask[chip]) == Pins(before[chip]) - ToSet(pins[..i])
      {
        ghost var mask := pinMask[chip];
        ClearOne(chip, pins[i]);
        ClearNextPin(Pins(mask), Pins(pinMask[chip]), Pins(before[chip]), pins, i);
      }
      assert pins[..|pins|] == pins;
      MaskSetsUpdated(before, pinMask[..], chip);
    }

    /** Take the first free slot, register the path and open it. */
    method InstallLine(chip: nat, pins: seq<bv32>, env: Environment) returns (outcome: Outcome)
      requires Valid() && chip < |pinCount| && PinsOk(pins, pinCount[chip]) && Unclaimed(View(), chip, pins)
      modifies pinMask, lines
      ensures Valid()
      ensures var s, free := old(View()), FirstFree(old(lines[..]));
              (View(), outcome) == Install(s, free, |s.lines|, free, chip, pins, env)
    {
      ghost var s := View();
      var i := FindFree(lines);
      if i == lines.Length {
        return NoMemory;
      }
      if !env.registers {
        lines[i] := Free;
        assert lines[..] == s.lines;
        return NotRegistered;
      }
      lines[i] := Live(chip, pins);
      if !env.opens {
        lines[i] := Free;
        assert lines[..] == s.lines;
        return OpenFailed;
      }
      OpenKeeps(s, i, chip, pins);
      SetPins(chip, pins);
      assert lines[..] == s.lines[i := Live(chip, pins)];
      return Created(i);
    }

    /** Take the first free slot, register the path and open it. */
    method InstallEvent(chip: nat, pins: seq<bv32>, env: Environment) returns (outcome: Outcome)
      requires Valid() && chip < |pinCount| && PinsOk(pins, pinCount[chip]) && Unclaimed(View(), chip, pins)
      modifies pinMask, events
      ensures Valid()
      ensures var s, free := old(View()), FirstFree(old(events[..]));
              (View(), outcome) == Install(s, free, |s.events|, |s.lines| + free, chip, pins, env)
    {
      ghost var s := View();
      var i := FindFree(events);
      if i == events.Length {
        return NoMemory;
      }
      if !env.registers {
        events[i] := Free;
        assert events[..] == s.events;
        return NotRegistered;
      }
      events[i] := Live(chip, pins);
      if !env.opens {
        events[i] := Free;
        assert events[..] == s.events;
        return OpenFailed;
      }
      OpenKeeps(s, |s.lines| + i, chip, pins);
      SetPins(chip, pins);
      assert events[..] == s.events[i := Live(chip, pins)];
      return Created(i);
    }

    method LineRequestOk(chip: nat, req: LineRequest) returns (ok: bool)
      requires Valid() && chip < |pinCount|
      ensures ok <==> PinsOk(req.pins, pinCount[chip]) && Unclaimed(View(), chip, req.pins) && LineFlagsOk(req.flags)
    {
      if |req.pins| == 0 || |req.pins| > pinCount[chip] as nat {
        return false;
      }
      for i := 0 to |req.pins|
        invariant forall j :: 0 <= j < i ==> req.pins[j] < pinCount[chip]
      {
        if req.pins[i] >= pinCount[chip] {
          return false;
        }
      }
      var taken := AnyTaken(chip, req.pins);
      ok := !taken && LineFlagsOk(req.flags);
    }

    method LineHandleCreate(chip: nat, req: LineRequest, env: Environment) returns (outcome: Outcome)
      requires Valid() && chip < |pinCount|
      modifies pinMask, lines
      ensures Valid() && (View(), outcome) == CreateLine(old(View()), chip, req, env)
    {
      var ok := LineRequestOk(chip, req);
      if !ok {
        return Invalid;
      }
      outcome := InstallLine(chip, req.pins, env);
    }

    method LineEventCreate(chip: nat, req: EventRequest, env: Environment) returns (outcome: Outcome)
      requires Valid() && chip < |pinCount|
      modifies pinMask, events
      ensures Valid() && (View(), outcome) == CreateEvent(old(View()), chip, req, env)
    {
      if req.pin >= pinCount[chip] {
        return Invalid;
      }
      var taken := AnyTaken(chip, [req.pin]);
      if taken || !EventFlagsOk(req.handleFlags, req.eventFlags) {
        return Invalid;
      }
      OnePinOk(req.pin, pinCount[chip]);
      outcome := InstallEvent(chip, [req.pin], env);
    }

    method LineClose(i: nat)
      requires Valid() && i < lines.Length && lines[i].Live?
      modifies pinMask, lines
      ensures Valid() && View() == Close(old(View()), i)
    {
      ghost var s := View();
      assert Owner(s, i) == lines[i];
      CloseKeeps(s, i);
      ClearPins(lines[i].chip, lines[i].pins);
      lines[i] := Free;
      assert lines[..] == s.lines[i := Free];
    }

    method EventClose(i: nat)
      requires Valid() && i < events.Length && events[i].Live?
      modifies pinMask, events
      ensures Valid() && View() == Close(old(View()), lines.Length + i)
    {
      ghost var s := View();
      assert Owner(s, lines.Length + i) == events[i];
      CloseKeeps(s, lines.Length + i);
      ClearPins(events[i].chip, events[i].pins);
      events[i] := Free;
      assert events[..] == s.events[i := Free];
    }
  }
}
