/** Transfer Request Blocks and the words the driver hands to the controller. */
module XhciTrb {

  const TRB_CYCLE: bv32 := 1
  const LINK_TOGGLE: bv32 := 2
  const TRB_TYPE_BITMASK: bv32 := 0xfc00

  // TRB types, already shifted into bits 10..15 of the control word.
  const TRB_NORMAL: bv32 := 0x0400
  const TRB_SETUP: bv32 := 0x0800
  const TRB_DATA: bv32 := 0x0c00
  const TRB_STATUS: bv32 := 0x1000
  const TRB_LINK: bv32 := 0x1800
  const TRB_TRANSFER: bv32 := 0x8000
  const TRB_COMPLETION: bv32 := 0x8400
  const TRB_PORT_STATUS: bv32 := 0x8800

  // Flags of transfer TRBs.
  const TRB_ISP: bv32 := 0x4
  const TRB_IOC: bv32 := 0x20
  const TRB_IDT: bv32 := 0x40
  const TRB_DIR_IN: bv32 := 0x1_0000
  const TRT_DATA_OUT: bv32 := 0x2_0000
  const TRT_DATA_IN: bv32 := 0x3_0000

  /** The 64-bit parameter is filled as a pointer, or as two 32-bit fields. */
  datatype Parameter = Pointer(address: nat) | Fields(low: bv32, high: bv32)

  const TRB_FLAGS_BITMASK: bv32 := 0xffff_03fe

  /**
   One TRB: a 64-bit parameter, a 32-bit status and a 32-bit control word.  The control word is kept in
   its three parts: the type in bits 10..15, the cycle state in bit 0, and the flags in all other bits.
   `FromWords` and `Control` go to and from the whole word.
   */
  datatype Trb = Trb(parameter: Parameter, status: bv32, kind: bv32, flags: bv32, cycle: bool) {
    function Control(): bv32 { kind | flags | CycleBit(cycle) }

    predicate IsLink() { kind == TRB_LINK }

    predicate TogglesCycle() { flags & LINK_TOGGLE != 0 }
  }

  /** The driver's `cycle_bit` for a cycle state. */
  function CycleBit(cycle: bool): bv32 { if cycle then 1 else 0 }

  function FromWords(parameter: Parameter, status: bv32, control: bv32): Trb {
    Trb(parameter, status, control & TRB_TYPE_BITMASK, control & TRB_FLAGS_BITMASK, control & TRB_CYCLE == 1)
  }

  lemma ControlWordRoundTrip(parameter: Parameter, status: bv32, control: bv32)
    ensures FromWords(parameter, status, control).Control() == control
  {}

  /** Where the three parts are: the type in bits 10 to 15, the cycle state in bit 0, the flags elsewhere. */
  lemma ControlWordParts(parameter: Parameter, status: bv32, control: bv32)
    ensures var t := FromWords(parameter, status, control);
            && t.kind >> 10 == (control >> 10) & 0x3f && t.kind & 0x3ff == 0
            && (t.cycle <==> control & 1 != 0)
            && t.flags == control & !0xfc01
  {}

  /** The type numbers of Table 6-91 of the xHCI specification. */
  lemma TypeNumbers()
    ensures TRB_NORMAL == 1 << 10 && TRB_SETUP == 2 << 10 && TRB_DATA == 3 << 10 && TRB_STATUS == 4 << 10
    ensures TRB_LINK == 6 << 10 && TRB_TRANSFER == 32 << 10 && TRB_COMPLETION == 33 << 10 && TRB_PORT_STATUS == 34 << 10
  {}

  const ZERO_TRB := FromWords(Pointer(0), 0, 0)

  function LinkTrb(base: nat): Trb { FromWords(Pointer(base), 0, TRB_LINK | LINK_TOGGLE) }

  lemma LinkTrbCloses(base: nat)
    ensures LinkTrb(base).IsLink() && !LinkTrb(base).cycle && LinkTrb(base).TogglesCycle()
    ensures LinkTrb(base).parameter == Pointer(TrbAddress(base, 0)) && LinkTrb(base).status == 0
    ensures !ZERO_TRB.IsLink() && !ZERO_TRB.cycle
  {}

  /** The TRB that carries cycle state `b` and otherwise says what `t` says. */
  lemma InitialTrbs(base: nat)
    ensures ZERO_TRB == Trb(Pointer(0), 0, 0, 0, false)
    ensures LinkTrb(base) == Trb(Pointer(base), 0, 6 << 10, 2, false)
  {}

  function Stamp(t: Trb, b: bool): Trb { t.(cycle := b) }

  lemma OrInCycleBit(payload: bv32, cycleBit: bv32, word: bv32)
    requires cycleBit == 0 || cycleBit == 1
    requires payload & TRB_CYCLE == 0 && word == payload | cycleBit
    ensures word & TRB_TYPE_BITMASK == payload & TRB_TYPE_BITMASK
    ensures word & TRB_FLAGS_BITMASK == payload & TRB_FLAGS_BITMASK
    ensures word & TRB_CYCLE == cycleBit
  {}

  lemma SameParts(parameter: Parameter, status: bv32, payload: bv32, cycleBit: bv32, word: bv32)
    requires word & TRB_TYPE_BITMASK == payload & TRB_TYPE_BITMASK
    requires word & TRB_FLAGS_BITMASK == payload & TRB_FLAGS_BITMASK
    requires word & TRB_CYCLE == cycleBit
    ensures FromWords(parameter, status, word) == Stamp(FromWords(parameter, status, payload), cycleBit == 1)
  {}

  /** The callers of the enqueue routine or the ring's cycle bit into a word whose bit 0 is clear. */
  lemma StampOrsCycleBit(parameter: Parameter, status: bv32, payload: bv32, cycleBit: bv32, word: bv32)
    requires cycleBit == 0 || cycleBit == 1
    requires payload & TRB_CYCLE == 0 && word == payload | cycleBit
    ensures FromWords(parameter, status, word) == Stamp(FromWords(parameter, status, payload), cycleBit == 1)
  {
    OrInCycleBit(payload, cycleBit, word);
    SameParts(parameter, status, payload, cycleBit, word);
  }

  /** TRBs are 16 bytes; rings are 64-byte aligned. */
  function TrbAddress(base: nat, index: nat): nat { base + 16 * index }

  /** Or-ing a bit into an address whose low four bits are clear adds it. */
  function PointerWord(base: nat, index: nat, b: bool): nat
  {
    TrbAddress(base, index) + if b then 1 else 0
  }

  /** How the controller splits such a word: bits 4 and up address a TRB, bit 0 is the cycle state. */
  function PointedIndex(base: nat, word: nat): int { (word / 16 * 16 - base) / 16 }

  function PointedCycle(word: nat): bool { word % 2 == 1 }

  lemma SixteenthOf(x: nat, q: nat)
    requires 16 * q <= x <= 16 * q + 1
    ensures x / 16 == q
  {}

  lemma LastBitOf(x: nat, h: nat, bit: nat)
    requires bit < 2 && x == 2 * h + bit
    ensures x % 2 == bit
  {}

  lemma Sixteenths(q: nat, bit: nat)
    requires bit < 2
    ensures (16 * q + bit) / 16 == q && (16 * q + bit) % 2 == bit
  {
    SixteenthOf(16 * q + bit, q);
    LastBitOf(16 * q + bit, 8 * q, bit);
  }

  lemma AlignedBase(base: nat)
    requires base % 64 == 0
    ensures base == 16 * (4 * (base / 64))
  {}

  lemma PointerWordDecodes(base: nat, index: nat, b: bool)
    requires base % 64 == 0
    ensures PointedIndex(base, PointerWord(base, index, b)) == index
    ensures PointedCycle(PointerWord(base, index, b)) == b
  {
    AlignedBase(base);
    var q := 4 * (base / 64);
    Sixteenths(q + index, if b then 1 else 0);
    assert PointerWord(base, index, b) == 16 * (q + index) + if b then 1 else 0;
  }

  lemma FirstSlotPointed(base: nat)
    ensures base % 64 == 0 ==> PointedIndex(base, base) == 0
  {
    if base % 64 == 0 {
      AlignedBase(base);
      Sixteenths(4 * (base / 64), 0);
    }
  }
}
