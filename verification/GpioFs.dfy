/**
 Ownership of GPIO pins by line handles and line events.  Every ioctl and close is one step; the
 registration of a path and its opening are answered by the environment.
 */
module GpioFs {
  import opened GpioPins

  const LINE_HANDLE_MAX := 64
  const LINE_EVENT_MAX := 64

  // Request flags.
  const INPUT: bv32 := 0x1
  const OUTPUT: bv32 := 0x2
  const ACTIVE_LOW: bv32 := 0x4
  const OPEN_DRAIN: bv32 := 0x8
  const OPEN_SOURCE: bv32 := 0x10
  const BIAS_PULL_UP: bv32 := 0x20
  const BIAS_PULL_DOWN: bv32 := 0x40
  const BIAS_DISABLE: bv32 := 0x80
  const LINE_VALID_FLAGS: bv32 := 0x1f
  const EVENT_VALID_FLAGS: bv32 := 0x3

  predicate LineFlagsOk(flags: bv32) {
    && flags & !LINE_VALID_FLAGS == 0
    && !(flags & INPUT != 0 && flags & OUTPUT != 0)
    && !(flags & OPEN_DRAIN != 0 && flags & OPEN_SOURCE != 0)
    && !(flags & OUTPUT == 0 && (flags & OPEN_DRAIN != 0 || flags & OPEN_SOURCE != 0))
  }

  predicate EventFlagsOk(handleFlags: bv32, eventFlags: bv32) {
    && handleFlags & !LINE_VALID_FLAGS == 0 && eventFlags & !EVENT_VALID_FLAGS == 0
    && handleFlags & OUTPUT == 0 && handleFlags & OPEN_DRAIN == 0 && handleFlags & OPEN_SOURCE == 0
    && !(handleFlags & BIAS_DISABLE != 0 && handleFlags & (BIAS_PULL_DOWN | BIAS_PULL_UP) != 0)
    && !(handleFlags & BIAS_PULL_DOWN != 0 && handleFlags & BIAS_PULL_UP != 0)
  }

  /** The tests on bias flags never decide anything: an event request may only say input and active low. */
  lemma EventFlagsMeaning(handleFlags: bv32, eventFlags: bv32)
    ensures EventFlagsOk(handleFlags, eventFlags)
            <==> handleFlags & !(INPUT | ACTIVE_LOW) == 0 && eventFlags & !EVENT_VALID_FLAGS == 0
  {}

  lemma InputOrActiveLow(flags: bv32)
    ensures flags & !(INPUT | ACTIVE_LOW) == 0 <==> flags == 0 || flags == 1 || flags == 4 || flags == 5
  {}

  lemma TwoEdges(flags: bv32)
    ensures flags & !EVENT_VALID_FLAGS == 0 <==> flags < 4
  {}

  lemma EventFlagsValues(handleFlags: bv32, eventFlags: bv32)
    ensures EventFlagsOk(handleFlags, eventFlags)
            <==> (handleFlags == 0 || handleFlags == 1 || handleFlags == 4 || handleFlags == 5) && eventFlags < 4
  {
    EventFlagsMeaning(handleFlags, eventFlags);
    InputOrActiveLow(handleFlags);
    TwoEdges(eventFlags);
  }

  /** A line request may say active low or not, and besides: nothing, input, output, or output with one open drive. */
  lemma LineFlagsAccepted(flags: bv32)
    requires LineFlagsOk(flags)
    ensures flags | 4 == 4 || flags | 4 == 5 || flags | 4 == 6 || flags | 4 == 0xe || flags | 4 == 0x16
  {
    assert flags < 0x20;
  }

  lemma LineFlagsEnough(flags: bv32)
    requires flags | 4 == 4 || flags | 4 == 5 || flags | 4 == 6 || flags | 4 == 0xe || flags | 4 == 0x16
    ensures LineFlagsOk(flags)
  {}

  lemma LineFlagsMeaning(flags: bv32)
    ensures LineFlagsOk(flags) <==>
            flags | 4 == 4 || flags | 4 == 5 || flags | 4 == 6 || flags | 4 == 0xe || flags | 4 == 0x16
  {
    if LineFlagsOk(flags) {
      LineFlagsAccepted(flags);
    } else if flags | 4 == 4 || flags | 4 == 5 || flags | 4 == 6 || flags | 4 == 0xe || flags | 4 == 0x16 {
      LineFlagsEnough(flags);
    }
  }

  datatype LineRequest = LineRequest(pins: seq<bv32>, flags: bv32)
  datatype EventRequest = EventRequest(pin: bv32, handleFlags: bv32, eventFlags: bv32)

  /** Whether the path of the new object can be registered, and whether opening it then succeeds. */
  datatype Environment = Environment(registers: bool, opens: bool)

  datatype Outcome = Created(slot: nat) | Invalid | NoMemory | NotRegistered | OpenFailed

  datatype Slot = Free | Live(chip: nat, pins: seq<bv32>)

  /** Pin counts and taken pins of the chips, and the two tables of objects. */
  datatype Fs = Fs(counts: seq<bv32>, taken: seq<iset<bv32>>, lines: seq<Slot>, events: seq<Slot>)

  /** Lines and events together, numbered lines first. */
  function Owners(s: Fs): nat { |s.lines| + |s.events| }

  function Owner(s: Fs, k: nat): Slot
    requires k < Owners(s)
  {
    if k < |s.lines| then s.lines[k] else s.events[k - |s.lines|]
  }

  ghost predicate Owns(s: Fs, k: nat, chip: nat, p: bv32) {
    k < Owners(s) && Owner(s, k).Live? && Owner(s, k).chip == chip && p in Owner(s, k).pins
  }

  /** What a line request has to ask for, and an event request, with its one pin, does. */
  predicate PinsOk(pins: seq<bv32>, count: bv32) { 0 < |pins| <= count as nat && Below(pins, count) }

  lemma PositiveCount(count: bv32)
    requires count != 0
    ensures count as nat >= 1
  {}

  lemma OnePinOk(pin: bv32, count: bv32)
    requires pin < count
    ensures PinsOk([pin], count)
  {
    PositiveCount(count);
  }

  ghost predicate Shaped(s: Fs) {
    && |s.taken| == |s.counts|
    && (forall c :: 0 <= c < |s.counts| ==> s.counts[c] <= 32)
    && (forall k: nat :: k < Owners(s) && Owner(s, k).Live? ==>
          Owner(s, k).chip < |s.counts| && PinsOk(Owner(s, k).pins, s.counts[Owner(s, k).chip]))
  }

  /** A chip's mask is exactly what its live objects own, and no two of them own the same pin. */
  ghost predicate Ownership(s: Fs) {
    && Shaped(s)
    && (forall c, p :: 0 <= c < |s.counts| ==> (p in s.taken[c] <==> exists k: nat :: Owns(s, k, c, p)))
    && (forall j: nat, k: nat, c, p :: Owns(s, j, c, p) && Owns(s, k, c, p) ==> j == k)
  }

  function WithOwner(s: Fs, k: nat, slot: Slot): (s': Fs)
    requires k < Owners(s)
    ensures Owners(s') == Owners(s) && |s'.lines| == |s.lines|
    ensures forall j: nat :: j < Owners(s) ==> Owner(s', j) == if j == k then slot else Owner(s, j)
  {
    if k < |s.lines| then s.(lines := s.lines[k := slot]) else s.(events := s.events[k - |s.lines| := slot])
  }

  ghost function Open(s: Fs, k: nat, chip: nat, pins: seq<bv32>): (r: Fs)
    requires k < Owners(s) && chip < |s.taken|
    ensures Owners(r) == Owners(s) && |r.lines| == |s.lines|
    ensures forall j: nat :: j < Owners(s) ==> Owner(r, j) == if j == k then Live(chip, pins) else Owner(s, j)
  {
    var s' := WithOwner(s, k, Live(chip, pins));
    s'.(taken := s.taken[chip := s.taken[chip] + ToSet(pins)])
  }

  ghost function Close(s: Fs, k: nat): (r: Fs)
    requires k < Owners(s) && Owner(s, k).Live? && Owner(s, k).chip < |s.taken|
    ensures Owners(r) == Owners(s) && |r.lines| == |s.lines|
    ensures forall j: nat :: j < Owners(s) ==> Owner(r, j) == if j == k then Free else Owner(s, j)
  {
    var c := Owner(s, k).chip;
    var s' := WithOwner(s, k, Free);
    s'.(taken := s.taken[c := s.taken[c] - ToSet(Owner(s, k).pins)])
  }

  function FirstFree(slots: seq<Slot>): (i: nat)
    ensures i <= |slots|
    ensures i < |slots| ==> slots[i].Free?
    ensures forall j :: 0 <= j < i ==> slots[j].Live?
  {
    if slots == [] || slots[0].Free? then 0 else 1 + FirstFree(slots[1..])
  }

  ghost predicate Unclaimed(s: Fs, chip: nat, pins: seq<bv32>)
    requires chip < |s.taken|
  {
    forall i :: 0 <= i < |pins| ==> pins[i] !in s.taken[chip]
  }

  /** After the checks: take the first free slot `k` of a table, register, open. */
  ghost function Install(s: Fs, slot: nat, room: nat, k: nat, chip: nat, pins: seq<bv32>, env: Environment): (Fs, Outcome)
    requires chip < |s.taken| && (slot < room ==> k < Owners(s))
  {
    if slot >= room then (s, NoMemory)
    else if !env.registers then (s, NotRegistered)
    else if !env.opens then (s, OpenFailed)
    else (Open(s, k, chip, pins), Created(slot))
  }

  ghost function CreateLine(s: Fs, chip: nat, req: LineRequest, env: Environment): (Fs, Outcome)
    requires Shaped(s) && chip < |s.counts|
  {
    if !PinsOk(req.pins, s.counts[chip]) || !Unclaimed(s, chip, req.pins) || !LineFlagsOk(req.flags) then (s, Invalid)
    else Install(s, FirstFree(s.lines), |s.lines|, FirstFree(s.lines), chip, req.pins, env)
  }

  ghost function CreateEvent(s: Fs, chip: nat, req: EventRequest, env: Environment): (Fs, Outcome)
    requires Shaped(s) && chip < |s.counts|
  {
    if req.pin >= s.counts[chip] || !Unclaimed(s, chip, [req.pin]) || !EventFlagsOk(req.handleFlags, req.eventFlags)
    then (s, Invalid)
    else Install(s, FirstFree(s.events), |s.events|, |s.lines| + FirstFree(s.events), chip, [req.pin], env)
  }

  // ---------------------------------------------------------------- what opening and closing keep

  lemma OpenKeeps(s: Fs, k: nat, chip: nat, pins: seq<bv32>)
    requires Ownership(s) && k < Owners(s) && Owner(s, k).Free? && chip < |s.counts|
    requires PinsOk(pins, s.counts[chip]) && Unclaimed(s, chip, pins)
    ensures Ownership(Open(s, k, chip, pins))
  {
    var s' := Open(s, k, chip, pins);
    assert forall j: nat, c, p :: j != k ==> (Owns(s', j, c, p) <==> Owns(s, j, c, p));
    assert forall c, p :: Owns(s', k, c, p) <==> c == chip && p in pins;
    forall p | p in pins
      ensures p !in s.taken[chip]
    {
      var i :| 0 <= i < |pins| && pins[i] == p;
    }
    forall c, p | 0 <= c < |s.counts|
      ensures p in s'.taken[c] <==> exists j: nat :: Owns(s', j, c, p)
    {
      if p in s.taken[c] {
        var j: nat :| Owns(s, j, c, p);
        assert Owns(s', j, c, p);
      } else if c == chip && p in pins {
        assert Owns(s', k, c, p);
      }
    }
  }

  lemma CloseKeeps(s: Fs, k: nat)
    requires Ownership(s) && k < Owners(s) && Owner(s, k).Live?
    ensures Ownership(Close(s, k))
  {
    var s', chip, pins := Close(s, k), Owner(s, k).chip, Owner(s, k).pins;
    assert forall j: nat, c, p :: j != k ==> (Owns(s', j, c, p) <==> Owns(s, j, c, p));
    assert forall c, p :: !Owns(s', k, c, p);
    forall c, p | 0 <= c < |s.counts|
      ensures p in s'.taken[c] <==> exists j: nat :: Owns(s', j, c, p)
    {
      if c == chip && p in pins {
        assert Owns(s, k, c, p);
      } else if p in s.taken[c] {
        var j: nat :| Owns(s, j, c, p);
        assert Owns(s', j, c, p);
      }
    }
  }

  /** Closing gives back the object's own pins and leaves every other object its pins. */
  lemma CloseReleasesOnlyItsOwn(s: Fs, k: nat, c: nat, p: bv32)
    requires Ownership(s) && k < Owners(s) && Owner(s, k).Live? && c < |s.counts|
    ensures p in Close(s, k).taken[c] <==> p in s.taken[c] && !Owns(s, k, c, p)
    ensures forall j: nat :: j != k && Owns(s, j, c, p) ==> Owns(Close(s, k), j, c, p) && p in Close(s, k).taken[c]
  {
    var s' := Close(s, k);
    CloseKeeps(s, k);
    forall j: nat | j != k && Owns(s, j, c, p)
      ensures Owns(s', j, c, p) && p in s'.taken[c]
    {
      assert Owns(s', j, c, p);
    }
  }

  // ---------------------------------------------------------------- runs

  datatype Op =
    | LineIoctl(chip: nat, line: LineRequest, env: Environment)
    | EventIoctl(chip: nat, event: EventRequest, env: Environment)
    | CloseFd(owner: nat)

  ghost predicate Possible(s: Fs, op: Op) {
    match op
    case LineIoctl(chip, _, _) => chip < |s.counts|
    case EventIoctl(chip, _, _) => chip < |s.counts|
    case CloseFd(k) => k < Owners(s) && Owner(s, k).Live?
  }

  ghost function Perform(s: Fs, op: Op): Fs
    requires Shaped(s) && Possible(s, op)
  {
    match op
    case LineIoctl(chip, req, env) => CreateLine(s, chip, req, env).0
    case EventIoctl(chip, req, env) => CreateEvent(s, chip, req, env).0
    case CloseFd(k) => Close(s, k)
  }

  lemma PerformKeeps(s: Fs, op: Op)
    requires Ownership(s) && Possible(s, op)
    ensures Ownership(Perform(s, op))
  {
    match op
    case LineIoctl(chip, req, env) =>
      if CreateLine(s, chip, req, env).1.Created? {
        OpenKeeps(s, FirstFree(s.lines), chip, req.pins);
      }
    case EventIoctl(chip, req, env) =>
      if CreateEvent(s, chip, req, env).1.Created? {
        OnePinOk(req.pin, s.counts[chip]);
        OpenKeeps(s, |s.lines| + FirstFree(s.events), chip, [req.pin]);
      }
    case CloseFd(k) => CloseKeeps(s, k);
  }

  ghost predicate Performs(s: Fs, ops: seq<Op>, s': Fs)
    decreases |ops|
  {
    if ops == [] then s == s'
    else Shaped(s) && Possible(s, ops[0]) && Performs(Perform(s, ops[0]), ops[1..], s')
  }

  lemma {:induction false} PerformsKeep(s: Fs, ops: seq<Op>, s': Fs)
    requires Ownership(s) && Performs(s, ops, s')
    ensures Ownership(s') && |s'.lines| == |s.lines| && |s'.events| == |s.events|
    decreases |ops|
  {
    if ops != [] {
      PerformKeeps(s, ops[0]);
      PerformsKeep(Perform(s, ops[0]), ops[1..], s');
    }
  }

  ghost function Boot(counts: seq<bv32>): Fs {
    Fs(counts, seq(|counts|, i => iset{}), seq(LINE_HANDLE_MAX, i => Free), seq(LINE_EVENT_MAX, i => Free))
  }

  /** Pin ownership in every run of requests, failed opens and closes from boot. */
  lemma OwnershipAlways(counts: seq<bv32>, ops: seq<Op>, s: Fs)
    requires (forall c :: 0 <= c < |counts| ==> counts[c] <= 32) && Performs(Boot(counts), ops, s)
    ensures Ownership(s) && |s.lines| == 64 && |s.events| == 64
  {
    PerformsKeep(Boot(counts), ops, s);
  }

  /** A line request is granted exactly when it is well formed, nobody owns a requested pin, and there is room. */
  lemma LineGrantedIff(s: Fs, chip: nat, req: LineRequest, env: Environment)
    requires Ownership(s) && chip < |s.counts|
    ensures CreateLine(s, chip, req, env).1.Created?
            <==> && 0 < |req.pins| <= s.counts[chip] as nat && (forall i :: 0 <= i < |req.pins| ==> req.pins[i] < s.counts[chip])
                 && LineFlagsOk(req.flags)
                 && (forall k: nat, p :: p in req.pins ==> !Owns(s, k, chip, p))
                 && (exists i :: 0 <= i < |s.lines| && s.lines[i].Free?)
                 && env.registers && env.opens
  {
    forall i | 0 <= i < |req.pins| && (forall k: nat, p :: p in req.pins ==> !Owns(s, k, chip, p))
      ensures req.pins[i] !in s.taken[chip]
    {
      var p := req.pins[i];
      assert p in req.pins;
      assert forall k: nat :: !Owns(s, k, chip, p);
    }
    if Unclaimed(s, chip, req.pins) {
      forall k: nat, p | p in req.pins
        ensures !Owns(s, k, chip, p)
      {
        var i :| 0 <= i < |req.pins| && req.pins[i] == p;
      }
    }
    if FirstFree(s.lines) < |s.lines| {
      assert s.lines[FirstFree(s.lines)].Free?;
    }
  }

  /** Requests and their outcomes: what each changes, and why it is refused. */
  lemma LineRequestEffect(s: Fs, chip: nat, req: LineRequest, env: Environment)
    requires Ownership(s) && chip < |s.counts|
    ensures var (s', o) := CreateLine(s, chip, req, env);
            && s'.counts == s.counts && s'.events == s.events
            && (!o.Created? ==> s' == s)
            && (o.Created? ==>
                  && o.slot < |s.lines| && s.lines[o.slot].Free? && (forall j :: 0 <= j < o.slot ==> s.lines[j].Live?)
                  && s'.lines == s.lines[o.slot := Live(chip, req.pins)]
                  && (forall c, p :: 0 <= c < |s.counts| ==>
                        (p in s'.taken[c] <==> p in s.taken[c] || (c == chip && p in req.pins))))
            && (o == NoMemory ==> forall j :: 0 <= j < |s.lines| ==> s.lines[j].Live?)
            && (o == NotRegistered ==> !env.registers) && (o == OpenFailed ==> env.registers && !env.opens)
  {
    assert forall p :: p in req.pins <==> p in ToSet(req.pins);
  }

  lemma EventRequestEffect(s: Fs, chip: nat, req: EventRequest, env: Environment)
    requires Ownership(s) && chip < |s.counts|
    ensures var (s', o) := CreateEvent(s, chip, req, env);
            && s'.counts == s.counts && s'.lines == s.lines
            && (!o.Created? ==> s' == s)
            && (o.Created? ==>
                  && o.slot < |s.events| && s.events[o.slot].Free? && (forall j :: 0 <= j < o.slot ==> s.events[j].Live?)
                  && s'.events == s.events[o.slot := Live(chip, [req.pin])]
                  && (forall c, p :: 0 <= c < |s.counts| ==>
                        (p in s'.taken[c] <==> p in s.taken[c] || (c == chip && p == req.pin))))
            && (o == NoMemory ==> forall j :: 0 <= j < |s.events| ==> s.events[j].Live?)
            && (o == NotRegistered ==> !env.registers) && (o == OpenFailed ==> env.registers && !env.opens)
  {
    assert forall p :: p in [req.pin] <==> p in ToSet([req.pin]);
  }

  /** An event request is granted likewise, for its one pin. */
  lemma EventGrantedIff(s: Fs, chip: nat, req: EventRequest, env: Environment)
    requires Ownership(s) && chip < |s.counts|
    ensures CreateEvent(s, chip, req, env).1.Created?
            <==> && req.pin < s.counts[chip]
                 && (forall k: nat :: !Owns(s, k, chip, req.pin))
                 && req.handleFlags & !(INPUT | ACTIVE_LOW) == 0 && req.eventFlags & !EVENT_VALID_FLAGS == 0
                 && (exists i :: 0 <= i < |s.events| && s.events[i].Free?)
                 && env.registers && env.opens
  {
    EventFlagsMeaning(req.handleFlags, req.eventFlags);
    assert Unclaimed(s, chip, [req.pin]) <==> [req.pin][0] !in s.taken[chip];
    if FirstFree(s.events) < |s.events| {
      assert s.events[FirstFree(s.events)].Free?;
    }
  }

  /** The request of a closed line is granted again. */
  lemma ClosedLineCanBeRequestedAgain(s: Fs, i: nat, flags: bv32)
    requires Ownership(s) && i < |s.lines| && s.lines[i].Live? && LineFlagsOk(flags)
    ensures CreateLine(Close(s, i), s.lines[i].chip, LineRequest(s.lines[i].pins, flags), Environment(true, true)).1.Created?
  {
    var s', chip, pins := Close(s, i), s.lines[i].chip, s.lines[i].pins;
    CloseKeeps(s, i);
    assert Owner(s', i) == s'.lines[i] == Free;
    assert Owner(s, i) == Live(chip, pins);
    forall k: nat, p | p in pins
      ensures !Owns(s', k, chip, p)
    {
      assert Owns(s, i, chip, p);
      if Owns(s', k, chip, p) {
        assert Owns(s, k, chip, p);
      }
    }
    LineGrantedIff(s', chip, LineRequest(pins, flags), Environment(true, true));
  }
}
