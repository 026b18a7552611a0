/** The driver's ring object and the transfers it queues, each tied to the ring values of `TrbRing`. */
module XhciRing {
  import opened XhciTrb
  import opened TrbRing

  datatype RingType = Events | Commands | Control | Bulk | Interrupt

  class Ring {
    const trb: array<Trb>
    const base: nat
    const ringType: RingType
    var writeIndex: nat
    var readIndex: nat
    var cycleBit: bv32

    /** Holds of every ring the driver writes TRBs to. */
    ghost predicate Valid()
      reads this, trb
    {
      && ringType != Events
      && (cycleBit == 0 || cycleBit == 1)
      && View().Valid()
      && View().Idle()
    }

    ghost function View(): Producer
      reads this, trb
    {
      Producer(base, trb[..], writeIndex, cycleBit == 1)
    }

    constructor (buffer: array<Trb>, base: nat, ringType: RingType)
      requires 2 <= buffer.Length && base % 64 == 0
      modifies buffer
      ensures trb == buffer && this.base == base && this.ringType == ringType
      ensures writeIndex == 0 && readIndex == 0 && cycleBit == 1
      ensures ringType == Events ==> forall i :: 0 <= i < trb.Length ==> trb[i] == ZERO_TRB
      ensures ringType != Events ==> Valid() && View() == Initial(buffer.Length, base)
    {
      this.trb, this.base, this.ringType := buffer, base, ringType;
      writeIndex, readIndex, cycleBit := 0, 0, 1;
      new;
      for i := 0 to buffer.Length
        invariant forall j :: 0 <= j < i ==> trb[j] == ZERO_TRB
        invariant writeIndex == 0 && readIndex == 0 && cycleBit == 1
      {
        trb[i] := ZERO_TRB;
      }
      if ringType != Events {
        trb[buffer.Length - 1] := LinkTrb(base);
        assert trb[..] == InitialSlots(buffer.Length, base);
      }
    }

    /** Write the TRB, advance, and at the link toggle its cycle state and start the next lap. */
    method EnqueueTrb(t: Trb)
      requires Valid() && Fits(View(), t)
      modifies this`writeIndex, this`cycleBit, trb
      ensures Valid() && View() == Enqueue(old(View()), t)
    {
      ghost var p := View();
      trb[writeIndex] := t;
      writeIndex := writeIndex + 1;
      assert View() == WriteTrb(p, t);
      if ringType != Events && writeIndex == trb.Length - 1 {
        var link := trb[writeIndex];
        trb[writeIndex] := link.(cycle := !link.cycle);
        cycleBit := cycleBit ^ 1;
        writeIndex := 0;
        assert View() == ToggleLink(WriteTrb(p, t));
      }
    }

    /** The dequeue pointer sent after a stall and when a device is addressed. */
    method DequeueWord() returns (word: nat)
      requires Valid()
      ensures word == ResyncWord(View())
    {
      word := TrbAddress(base, writeIndex) + cycleBit as nat;
    }
  }

  datatype SetupPacket = SetupPacket(bmRequestType: bv8, bRequest: bv8, wValue: bv16, wIndex: bv16, wLength: bv16) {
    predicate In() { bmRequestType & 0x80 != 0 }

    function Word0(): bv32 { bmRequestType as bv32 | (bRequest as bv32 << 8) | (wValue as bv32 << 16) }

    function Word1(): bv32 { wIndex as bv32 | (wLength as bv32 << 16) }
  }

  /** A control transfer has a data stage iff a buffer is given (`data` is not null) and its length is not 0. */
  predicate HasData(data: bv32, length: bv32) { data != 0 && length != 0 }

  function SetupFlags(hasData: bool, into: bool): bv32 {
    if !hasData then 0 else if into then TRT_DATA_IN else TRT_DATA_OUT
  }

  function DataFlags(into: bool): bv32 { if into then TRB_ISP | TRB_DIR_IN else 0 }

  function StatusFlags(hasData: bool, into: bool): bv32 { if !hasData || !into then TRB_DIR_IN else 0 }

  function SetupStage(req: SetupPacket, hasData: bool): Trb {
    FromWords(Fields(req.Word0(), req.Word1()), 8, TRB_SETUP | TRB_IDT | SetupFlags(hasData, req.In()))
  }

  function DataStage(into: bool, data: bv32, length: bv32): Trb {
    FromWords(Fields(data, 0), length, TRB_DATA | DataFlags(into))
  }

  function StatusStage(hasData: bool, into: bool): Trb {
    FromWords(Fields(0, 0), 0, TRB_STATUS | TRB_IOC | StatusFlags(hasData, into))
  }

  function ControlStages(req: SetupPacket, data: bv32, length: bv32): (stages: seq<Trb>)
    ensures NoLinks(stages) && 2 <= |stages| <= 3
    ensures stages[0].kind == TRB_SETUP && stages[|stages| - 1].kind == TRB_STATUS
  {
    ControlKinds(req, data, length);
    if HasData(data, length) then
      [SetupStage(req, true), DataStage(req.In(), data, length), StatusStage(true, req.In())]
    else
      [SetupStage(req, false), StatusStage(false, req.In())]
  }

  lemma ControlKinds(req: SetupPacket, data: bv32, length: bv32)
    ensures SetupStage(req, HasData(data, length)).kind == TRB_SETUP
    ensures DataStage(req.In(), data, length).kind == TRB_DATA
    ensures StatusStage(HasData(data, length), req.In()).kind == TRB_STATUS
  {
    KindOf(TRB_SETUP, TRB_IDT, SetupFlags(HasData(data, length), req.In()));
    KindOf(TRB_DATA, 0, DataFlags(req.In()));
    KindOf(TRB_STATUS, TRB_IOC, StatusFlags(HasData(data, length), req.In()));
    assert TRB_DATA | 0 == TRB_DATA;
  }

  lemma KindOf(kind: bv32, flags: bv32, more: bv32)
    requires kind & !TRB_TYPE_BITMASK == 0
    requires flags & !TRB_FLAGS_BITMASK == 0 && more & !TRB_FLAGS_BITMASK == 0
    ensures (kind | flags | more) & TRB_TYPE_BITMASK == kind
    ensures (kind | flags | more) & TRB_CYCLE == 0
  {}

  /** The status stage runs against the data stage, and IN when there is none. */
  lemma StatusOpposesData(hasData: bool, into: bool, data: bv32, length: bv32)
    ensures var status := StatusStage(hasData, into).flags & TRB_DIR_IN;
            if hasData then status != DataStage(into, data, length).flags & TRB_DIR_IN
            else status == TRB_DIR_IN
  {}

  /** Two words that hold every field of the packet, where the host controller looks for it. */
  predicate HoldPacket(low: bv32, high: bv32, req: SetupPacket) {
    && (low & 0xff) as bv8 == req.bmRequestType && ((low >> 8) & 0xff) as bv8 == req.bRequest
    && (low >> 16) as bv16 == req.wValue
    && (high & 0xffff) as bv16 == req.wIndex && (high >> 16) as bv16 == req.wLength
  }

  lemma SetupWordsDecode(req: SetupPacket)
    ensures HoldPacket(req.Word0(), req.Word1(), req)
  {}

  predicate Carries(t: Trb, req: SetupPacket) {
    t.parameter.Fields? && HoldPacket(t.parameter.low, t.parameter.high, req)
  }

  lemma SetupFlagBits(hasData: bool, into: bool)
    ensures (TRB_SETUP | TRB_IDT | SetupFlags(hasData, into)) & TRB_FLAGS_BITMASK
            == 0x40 | ((if !hasData then 0 else if into then 3 else 2) << 16)
  {}

  lemma SetupParts(req: SetupPacket, hasData: bool)
    ensures var t := SetupStage(req, hasData);
            && t.parameter == Fields(req.Word0(), req.Word1()) && t.status == 8
            && t.flags == (TRB_SETUP | TRB_IDT | SetupFlags(hasData, req.In())) & TRB_FLAGS_BITMASK
  {}

  lemma SetupCarries(req: SetupPacket, t: Trb)
    requires t.parameter == Fields(req.Word0(), req.Word1())
    ensures Carries(t, req)
  {
    SetupWordsDecode(req);
  }

  lemma Inwards(req: SetupPacket)
    ensures req.In() <==> req.bmRequestType & 0x80 != 0
  {}

  /** Immediate data; transfer type 0 without a data stage, 3 before an IN one, 2 before an OUT one. */
  lemma SetupStageMeans(req: SetupPacket, hasData: bool)
    ensures var t := SetupStage(req, hasData);
            && Carries(t, req) && t.status == 8
            && t.flags == 0x40 | ((if !hasData then 0 else if req.In() then 3 else 2) << 16)
  {
    SetupParts(req, hasData);
    SetupCarries(req, SetupStage(req, hasData));
    SetupFlagBits(hasData, req.In());
  }

  /** Bit 16 gives the direction; short packets are reported for IN. */
  lemma DataStageMeans(into: bool, data: bv32, length: bv32)
    ensures var t := DataStage(into, data, length);
            t.parameter == Fields(data, 0) && t.status == length && t.flags == if into then 0x1_0004 else 0
  {}

  /** The status stage interrupts and runs against the data stage, and IN when there is none. */
  lemma StatusStageMeans(hasData: bool, into: bool)
    ensures var t := StatusStage(hasData, into);
            t.parameter == Fields(0, 0) && t.status == 0 && t.flags == if hasData && into then 0x20 else 0x1_0020
  {}

  /** The stages in terms of the request alone. */
  lemma ControlStagesMean(req: SetupPacket, data: bv32, length: bv32)
    ensures var s, hasData, into := ControlStages(req, data, length), data != 0 && length != 0, req.bmRequestType & 0x80 != 0;
            && |s| == (if hasData then 3 else 2)
            && s[0].kind == TRB_SETUP && Carries(s[0], req) && s[0].status == 8
            && s[0].flags == 0x40 | ((if !hasData then 0 else if into then 3 else 2) << 16)
            && (hasData ==> s[1].kind == TRB_DATA && s[1].parameter == Fields(data, 0) && s[1].status == length
                            && s[1].flags == if into then 0x1_0004 else 0)
            && s[|s| - 1].kind == TRB_STATUS && s[|s| - 1].parameter == Fields(0, 0) && s[|s| - 1].status == 0
            && s[|s| - 1].flags == if hasData && into then 0x20 else 0x1_0020
  {
    var hasData := HasData(data, length);
    ControlKinds(req, data, length);
    Inwards(req);
    SetupStageMeans(req, hasData);
    DataStageMeans(req.In(), data, length);
    StatusStageMeans(hasData, req.In());
  }

  /** Interrupt on completion; short packets are reported for IN. */
  lemma BulkStageMeans(into: bool, data: bv32, length: bv32)
    ensures var t := BulkStage(into, data, length);
            && t.kind == TRB_NORMAL && t.parameter == Fields(data, 0) && t.status == length
            && t.flags == if into then 0x24 else 0x20
  {}

  function BulkStage(into: bool, data: bv32, length: bv32): Trb {
    FromWords(Fields(data, 0), length, TRB_IOC | TRB_NORMAL | if into then TRB_ISP else 0)
  }

  lemma OrCommutes(word: bv32, extra: bv32, bit: bv32)
    ensures (word | bit) | extra == (word | extra) | bit
  {}

  function EnqueuePayload(p: Producer, payload: Trb): (q: Producer)
    requires p.Valid() && p.Idle() && !payload.IsLink()
    ensures q.Valid() && q.Idle()
  {
    Enqueue(p, Stamp(payload, p.cycle))
  }

  lemma EnqueueOne(p: Producer, a: Trb)
    requires p.Valid() && p.Idle() && NoLinks([a])
    ensures EnqueueAll(p, [a]) == EnqueuePayload(p, a)
  {
    assert [a][1..] == [];
  }

  lemma EnqueueTwo(p: Producer, a: Trb, b: Trb)
    requires p.Valid() && p.Idle() && NoLinks([a, b])
    ensures !a.IsLink() && !b.IsLink()
    ensures EnqueueAll(p, [a, b]) == EnqueuePayload(EnqueuePayload(p, a), b)
  {
    assert ![a, b][0].IsLink() && ![a, b][1].IsLink();
    assert [a, b][1..] == [b];
    EnqueueOne(EnqueuePayload(p, a), b);
  }

  lemma EnqueueThree(p: Producer, a: Trb, b: Trb, c: Trb)
    requires p.Valid() && p.Idle() && NoLinks([a, b, c])
    ensures !a.IsLink() && !b.IsLink() && !c.IsLink()
    ensures EnqueueAll(p, [a, b, c]) == EnqueuePayload(EnqueuePayload(EnqueuePayload(p, a), b), c)
  {
    assert ![a, b, c][0].IsLink() && ![a, b, c][1].IsLink() && ![a, b, c][2].IsLink();
    assert [a, b, c][1..] == [b, c];
    EnqueueTwo(EnqueuePayload(p, a), b, c);
  }

  method EnqueueStamped(ring: Ring, t: Trb, ghost payload: Trb)
    requires ring.Valid() && !payload.IsLink() && t == Stamp(payload, ring.cycleBit == 1)
    modifies ring`writeIndex, ring`cycleBit, ring.trb
    ensures ring.Valid() && ring.View() == EnqueuePayload(old(ring.View()), payload)
  {
    ring.EnqueueTrb(t);
  }

  /** A stage word is built with the ring's cycle bit or-ed in before its last flags. */
  method StageTrb(parameter: Parameter, status: bv32, word: bv32, cycleBit: bv32, extra: bv32) returns (t: Trb)
    requires cycleBit == 0 || cycleBit == 1
    requires (word | extra) & TRB_CYCLE == 0
    ensures t == Stamp(FromWords(parameter, status, word | extra), cycleBit == 1)
  {
    OrCommutes(word, extra, cycleBit);
    StampOrsCycleBit(parameter, status, word | extra, cycleBit, (word | cycleBit) | extra);
    t := FromWords(parameter, status, (word | cycleBit) | extra);
  }

  method QueueSetup(ring: Ring, req: SetupPacket, hasData: bool)
    requires ring.Valid()
    modifies ring`writeIndex, ring`cycleBit, ring.trb
    ensures ring.Valid() && !SetupStage(req, hasData).IsLink()
    ensures ring.View() == EnqueuePayload(old(ring.View()), SetupStage(req, hasData))
  {
    var extra := SetupFlags(hasData, req.In());
    KindOf(TRB_SETUP, TRB_IDT, extra);
    var t := StageTrb(Fields(req.Word0(), req.Word1()), 8, TRB_SETUP | TRB_IDT, ring.cycleBit, extra);
    EnqueueStamped(ring, t, SetupStage(req, hasData));
  }

  method QueueData(ring: Ring, into: bool, data: bv32, length: bv32)
    requires ring.Valid()
    modifies ring`writeIndex, ring`cycleBit, ring.trb
    ensures ring.Valid() && !DataStage(into, data, length).IsLink()
    ensures ring.View() == EnqueuePayload(old(ring.View()), DataStage(into, data, length))
  {
    assert TRB_DATA | 0 == TRB_DATA;
    KindOf(TRB_DATA, 0, DataFlags(into));
    var t := StageTrb(Fields(data, 0), length, TRB_DATA, ring.cycleBit, DataFlags(into));
    EnqueueStamped(ring, t, DataStage(into, data, length));
  }

  method QueueStatus(ring: Ring, hasData: bool, into: bool)
    requires ring.Valid()
    modifies ring`writeIndex, ring`cycleBit, ring.trb
    ensures ring.Valid() && !StatusStage(hasData, into).IsLink()
    ensures ring.View() == EnqueuePayload(old(ring.View()), StatusStage(hasData, into))
  {
    KindOf(TRB_STATUS, TRB_IOC, StatusFlags(hasData, into));
    var t := StageTrb(Fields(0, 0), 0, TRB_STATUS | TRB_IOC, ring.cycleBit, StatusFlags(hasData, into));
    EnqueueStamped(ring, t, StatusStage(hasData, into));
  }

  lemma StagesWithData(p: Producer, req: SetupPacket, data: bv32, length: bv32)
    requires p.Valid() && p.Idle() && HasData(data, length)
    ensures !SetupStage(req, true).IsLink() && !DataStage(req.In(), data, length).IsLink() && !StatusStage(true, req.In()).IsLink()
    ensures EnqueueAll(p, ControlStages(req, data, length)) ==
            EnqueuePayload(EnqueuePayload(EnqueuePayload(p, SetupStage(req, true)), DataStage(req.In(), data, length)), StatusStage(true, req.In()))
  {
    EnqueueThree(p, SetupStage(req, true), DataStage(req.In(), data, length), StatusStage(true, req.In()));
  }

  lemma StagesWithoutData(p: Producer, req: SetupPacket, data: bv32, length: bv32)
    requires p.Valid() && p.Idle() && !HasData(data, length)
    ensures !SetupStage(req, false).IsLink() && !StatusStage(false, req.In()).IsLink()
    ensures EnqueueAll(p, ControlStages(req, data, length)) ==
            EnqueuePayload(EnqueuePayload(p, SetupStage(req, false)), StatusStage(false, req.In()))
  {
    EnqueueTwo(p, SetupStage(req, false), StatusStage(false, req.In()));
  }

  /** Queue the stages of a control transfer, reading the ring's cycle bit anew for every stage. */
  method QueueControl(ring: Ring, req: SetupPacket, data: bv32, length: bv32)
    requires ring.Valid()
    modifies ring`writeIndex, ring`cycleBit, ring.trb
    ensures ring.Valid()
    ensures ring.View() == EnqueueAll(old(ring.View()), ControlStages(req, data, length))
  {
    var hasData, into := HasData(data, length), req.In();
    if hasData {
      StagesWithData(ring.View(), req, data, length);
    } else {
      StagesWithoutData(ring.View(), req, data, length);
    }
    QueueSetup(ring, req, hasData);
    if hasData {
      QueueData(ring, into, data, length);
    }
    QueueStatus(ring, hasData, into);
  }

  /** Queue the single TRB of a bulk or interrupt transfer. */
  method QueueBulk(ring: Ring, into: bool, data: bv32, length: bv32)
    requires ring.Valid()
    modifies ring`writeIndex, ring`cycleBit, ring.trb
    ensures ring.Valid() && NoLinks([BulkStage(into, data, length)])
    ensures ring.View() == EnqueueAll(old(ring.View()), [BulkStage(into, data, length)])
  {
    BulkKind(into, data, length);
    var t := StageTrb(Fields(data, 0), length, TRB_IOC | TRB_NORMAL, ring.cycleBit, if into then TRB_ISP else 0);
    EnqueueStamped(ring, t, BulkStage(into, data, length));
    EnqueueOne(old(ring.View()), BulkStage(into, data, length));
  }

  lemma BulkKind(into: bool, data: bv32, length: bv32)
    ensures BulkStage(into, data, length).kind == TRB_NORMAL
    ensures (TRB_IOC | TRB_NORMAL | if into then TRB_ISP else 0) & TRB_CYCLE == 0
  {}

  /**
   Wherever the wrap falls among the two or three stages, the controller takes exactly what was queued
   before and then the stages in order, each with the cycle state of the lap it landed in.
   */
  lemma ControlTransferArrives(p: Producer, c: Consumer, x: nat, req: SetupPacket, data: bv32, length: bv32, k: nat)
    requires Coherent(p, c) && p.Idle() && AtPosition(p, x)
    requires BurstRoom(p, c, |ControlStages(req, data, length)|) && |p.slots| <= k
    ensures var stages := ControlStages(req, data, length);
            Taken(p.base, EnqueueAll(p, stages).slots, c, k) == InFlight(p, c) + LapStamped(|p.slots| - 1, x, stages)
  {
    BurstArrives(p, c, x, ControlStages(req, data, length), k);
  }
}
