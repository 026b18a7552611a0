/** Pin masks: bit `p` of a chip's 32-bit mask says that pin `p` is taken. */
module GpioPins {

  function Bit(p: bv32): bv32
    requires p < 32
  {
    1 << p
  }

  predicate HasPin(mask: bv32, p: bv32)
    requires p < 32
  {
    mask & Bit(p) != 0
  }

  /** Pin `p` is bit number `p`, counted from the lowest. */
  lemma PinIsBit(mask: bv32, p: bv32)
    requires p < 32
    ensures HasPin(mask, p) <==> (mask >> p) & 1 == 1
  {}

  lemma BitsMeet(a: bv32, p: bv32)
    requires a < 32 && p < 32
    ensures Bit(a) & Bit(p) == if a == p then Bit(p) else 0
    ensures Bit(p) != 0
  {}

  lemma OrSpreads(mask: bv32, bit: bv32, probe: bv32)
    ensures (mask | bit) & probe == (mask & probe) | (bit & probe)
  {}

  lemma OrIsZero(x: bv32, y: bv32)
    ensures x | y == 0 <==> x == 0 && y == 0
  {}

  lemma SetOnePin(mask: bv32, a: bv32, p: bv32)
    requires a < 32 && p < 32
    ensures HasPin(mask | Bit(a), p) <==> p == a || HasPin(mask, p)
  {
    BitsMeet(a, p);
    OrSpreads(mask, Bit(a), Bit(p));
    OrIsZero(mask & Bit(p), Bit(a) & Bit(p));
  }

  lemma ClearOnePin(mask: bv32, a: bv32, p: bv32)
    requires a < 32 && p < 32
    ensures HasPin(mask & !Bit(a), p) <==> p != a && HasPin(mask, p)
  {}

  lemma AndCommutes(x: bv32, y: bv32)
    ensures x & y == y & x
  {}

  /** The pins a mask stands for. */
  ghost function Pins(mask: bv32): iset<bv32> {
    iset p: bv32 | p < 32 && HasPin(mask, p)
  }

  lemma NoPins()
    ensures Pins(0) == iset{}
  {
    forall p: bv32 | p < 32
      ensures !HasPin(0, p)
    {
      assert 0 & Bit(p) == 0;
    }
  }

  lemma SetPin(mask: bv32, a: bv32)
    requires a < 32
    ensures Pins(mask | Bit(a)) == Pins(mask) + iset{a}
  {
    forall p: bv32 | p < 32
      ensures HasPin(mask | Bit(a), p) <==> p == a || HasPin(mask, p)
    {
      SetOnePin(mask, a, p);
    }
  }

  lemma ClearPin(mask: bv32, a: bv32)
    requires a < 32
    ensures Pins(mask & !Bit(a)) == Pins(mask) - iset{a}
  {
    forall p: bv32 | p < 32
      ensures HasPin(mask & !Bit(a), p) <==> p != a && HasPin(mask, p)
    {
      ClearOnePin(mask, a, p);
    }
  }

  ghost function ToSet(pins: seq<bv32>): iset<bv32> { iset i | 0 <= i < |pins| :: pins[i] }

  lemma ToSetSnoc(pins: seq<bv32>, i: nat)
    requires i < |pins|
    ensures ToSet(pins[..i + 1]) == ToSet(pins[..i]) + iset{pins[i]}
  {
    assert forall p :: p in ToSet(pins[..i + 1]) ==> p in ToSet(pins[..i]) + iset{pins[i]};
    assert forall j :: 0 <= j < i ==> pins[..i + 1][j] == pins[..i][j];
    assert pins[..i + 1][i] == pins[i];
  }

  predicate Below(pins: seq<bv32>, bound: bv32) { forall i :: 0 <= i < |pins| ==> pins[i] < bound }
}
