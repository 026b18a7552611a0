/** Shell bypass: input arrives in chunks and ctrl-x ctrl-q, also across a chunk boundary, ends it. */
module EscapeDetector {
  import opened Chunks

  const CHAR_1: bv8 := 0x18
  const CHAR_2: bv8 := 0x11

  /** They are ctrl-x and ctrl-q: the letters' codes with only the low five bits left. */
  lemma EscapeKeys()
    ensures CHAR_1 == ('x' as bv8) & 0x1f && CHAR_2 == ('q' as bv8) & 0x1f
  {}

  /** The escape pair occurs in the stream, ending at position `i`. */
  predicate EscapeAt(s: seq<bv8>, i: int) { 0 < i < |s| && s[i - 1] == CHAR_1 && s[i] == CHAR_2 }

  ghost predicate HasEscape(s: seq<bv8>) { exists i :: EscapeAt(s, i) }

  /** What a callback remembers of the stream before it: the last byte, 0 when there is none. */
  function Tail(s: seq<bv8>): bv8 { if s == [] then 0 else s[|s| - 1] }

  /** The test of one callback against the byte kept from the previous one. */
  ghost predicate Escapes(tail: bv8, data: seq<bv8>) {
    data != [] && ((tail == CHAR_1 && data[0] == CHAR_2) || HasEscape(data))
  }

  /** One byte of memory is enough: the new pair is inside the chunk or across its front edge. */
  lemma OneByteSuffices(before: seq<bv8>, data: seq<bv8>)
    requires data != [] && !HasEscape(before)
    ensures HasEscape(before + data) <==> Escapes(Tail(before), data)
  {
    var all := before + data;
    if HasEscape(all) {
      var i :| EscapeAt(all, i);
      assert i < |before| ==> EscapeAt(before, i);
      if i > |before| {
        assert EscapeAt(data, i - |before|);
      }
    }
    if HasEscape(data) {
      var i :| EscapeAt(data, i);
      assert EscapeAt(all, |before| + i);
    } else if Tail(before) == CHAR_1 && data[0] == CHAR_2 {
      assert EscapeAt(all, |before|);
    }
  }

  class Bypass {
    var tail: bv8
    var inUse: bool

    constructor ()
      ensures tail == 0 && !inUse
    {
      tail, inUse := 0, false;
    }

    /** Turn bypass on or off; turning it on twice is refused. */
    method SetBypass(on: bool) returns (busy: bool)
      modifies this`inUse
      ensures busy <==> on && old(inUse)
      ensures inUse == if busy then old(inUse) else !old(inUse)
    {
      if on && inUse {
        return true;
      }
      inUse := !inUse;
      busy := false;
    }

    /** One callback with a non-empty chunk. */
    method Callback(data: seq<bv8>) returns (escape: bool)
      requires data != []
      modifies this
      ensures escape <==> Escapes(old(tail), data)
      ensures tail == if escape then 0 else data[|data| - 1]
      ensures inUse == if escape then !old(inUse) else old(inUse)
    {
      escape := false;
      if tail == CHAR_1 && data[0] == CHAR_2 {
        escape := true;
      } else {
        for i := 0 to |data| - 1
          invariant forall j :: 1 <= j <= i ==> !EscapeAt(data, j)
        {
          if data[i] == CHAR_1 && data[i + 1] == CHAR_2 {
            assert EscapeAt(data, i + 1);
            escape := true;
            break;
          }
        }
      }
      if escape {
        var busy := SetBypass(false);
        tail := 0;
        return;
      }
      tail := data[|data| - 1];
    }

    /**
     A whole session: bypass ends in the first callback after which the stream so far contains the
     pair, however the stream was cut into chunks, and never when it does not.
     */
    method Session(chunks: seq<seq<bv8>>) returns (ended: bool, at: nat)
      requires tail == 0 && inUse
      requires forall i :: 0 <= i < |chunks| ==> chunks[i] != []
      modifies this
      ensures ended <==> HasEscape(Concat(chunks))
      ensures ended ==> at < |chunks| && HasEscape(Concat(chunks[..at + 1])) && !HasEscape(Concat(chunks[..at]))
      ensures ended ==> tail == 0 && !inUse
      ensures !ended ==> inUse && tail == Tail(Concat(chunks))
    {
      ended, at := false, 0;
      while at < |chunks|
        invariant at <= |chunks| && inUse && !HasEscape(Concat(chunks[..at]))
        invariant tail == Tail(Concat(chunks[..at]))
      {
        ConcatStep(chunks, at);
        OneByteSuffices(Concat(chunks[..at]), chunks[at]);
        ended := Callback(chunks[at]);
        if ended {
          EscapeStays(chunks, at + 1);
          return;
        }
        at := at + 1;
      }
      assert chunks[..at] == chunks;
    }
  }

  lemma {:induction false} EscapeStays(chunks: seq<seq<bv8>>, k: nat)
    requires k <= |chunks| && HasEscape(Concat(chunks[..k]))
    ensures HasEscape(Concat(chunks))
    decreases |chunks| - k
  {
    if k == |chunks| {
      assert chunks[..k] == chunks;
    } else {
      ConcatStep(chunks, k);
      var i :| EscapeAt(Concat(chunks[..k]), i);
      assert EscapeAt(Concat(chunks[..k + 1]), i);
      EscapeStays(chunks, k + 1);
    }
  }
}
