/** Drivers that hash a buffer in pieces: every way to cut it up has to give the digest of one update. */
module HashDrivers {
  import Division

  type Bytes = seq<bv8>

  /** A call into the hash library. */
  datatype Call = Starts | Update(bytes: Bytes) | Finish | Compute(last: Bytes)

  /** What a hash does, as an abstract state machine. */
  datatype Hash<!S> = Hash(init: S, update: (S, Bytes) -> S, finish: S -> Bytes)

  /** All bytes handed to the library, in order. */
  function Fed(calls: seq<Call>): Bytes {
    if calls == [] then []
    else
      var before, c := Fed(calls[..|calls| - 1]), calls[|calls| - 1];
      match c
      case Update(bytes) => before + bytes
      case Compute(last) => before + last
      case _ => before
  }

  lemma FedStep(calls: seq<Call>, c: Call)
    ensures Fed(calls + [c]) == Fed(calls) + (match c case Update(b) => b case Compute(b) => b case _ => [])
  {
    assert (calls + [c])[..|calls|] == calls;
  }

  /** Updating is insensitive to how the bytes are cut up. */
  ghost predicate RespectsConcatenation<S(!new)>(h: Hash<S>) {
    && (forall s :: h.update(s, []) == s)
    && (forall s, a, b :: h.update(h.update(s, a), b) == h.update(s, a + b))
  }

  /** The state of the hash after a series of calls that all succeed. */
  function StateAfter<S>(h: Hash<S>, calls: seq<Call>): S {
    if calls == [] then h.init
    else
      var before, c := StateAfter(h, calls[..|calls| - 1]), calls[|calls| - 1];
      match c
      case Starts => h.init
      case Update(bytes) => h.update(before, bytes)
      case Compute(last) => h.update(before, last)
      case Finish => before
  }

  lemma {:induction false} StateIsOfTheBytesFed<S(!new)>(h: Hash<S>, calls: seq<Call>)
    requires RespectsConcatenation(h)
    requires forall i :: 0 < i < |calls| ==> !calls[i].Starts?
    ensures StateAfter(h, calls) == h.update(h.init, Fed(calls))
  {
    if calls != [] {
      StateIsOfTheBytesFed(h, calls[..|calls| - 1]);
      assert calls[..|calls| - 1] == [] || !calls[|calls| - 1].Starts?;
    }
  }

  /** The calls so far: started, updated with what lies before `off`, and stopped at the first failure. */
  ghost predicate Running(calls: seq<Call>, answer: nat -> int, data: Bytes, off: nat, ret: int) {
    && calls != [] && calls[0].Starts? && off <= |data|
    && (forall i :: 0 < i < |calls| ==> calls[i].Update?)
    && (forall i :: 0 <= i < |calls| - 1 ==> answer(i) == 0)
    && ret == answer(|calls| - 1)
    && Fed(calls) <= data
    && (ret == 0 ==> Fed(calls) == data[..off])
  }

  /**
   A finished session. It succeeded exactly when every call did and the last is the only finish; then
   the bytes fed are the whole data. Otherwise it ends in the call that failed, whose answer it returns.
   */
  ghost predicate Outcome(calls: seq<Call>, answer: nat -> int, data: Bytes, ret: int) {
    && calls != [] && calls[0].Starts?
    && (forall i :: 0 < i < |calls| - 1 ==> calls[i].Update?)
    && (forall i :: 0 <= i < |calls| - 1 ==> answer(i) == 0)
    && ret == answer(|calls| - 1)
    && Fed(calls) <= data
    && (ret == 0 ==> calls[|calls| - 1].Finish?)
    && (calls[|calls| - 1].Finish? ==> Fed(calls) == data)
  }

  lemma RunningStep(calls: seq<Call>, answer: nat -> int, data: Bytes, off: nat, chunk: nat)
    requires Running(calls, answer, data, off, 0) && off + chunk <= |data|
    ensures Running(calls + [Update(data[off..off + chunk])], answer, data, off + chunk, answer(|calls|))
  {
    FedStep(calls, Update(data[off..off + chunk]));
    assert data[..off] + data[off..off + chunk] == data[..off + chunk];
  }

  /** Whatever its chunks, a session that succeeds computes what one update with the whole data computes. */
  lemma SessionsAgreeWithReference<S(!new)>(h: Hash<S>, calls: seq<Call>, answer: nat -> int, data: Bytes)
    requires RespectsConcatenation(h)
    requires Outcome(calls, answer, data, 0)
    ensures h.finish(StateAfter(h, calls)) == h.finish(StateAfter(h, [Starts, Update(data), Finish]))
  {
    StateIsOfTheBytesFed(h, calls);
    var ref := [Starts, Update(data), Finish];
    StateIsOfTheBytesFed(h, ref);
    assert ref == [] + [Starts] + [Update(data)] + [Finish];
    FedStep([], Starts);
    FedStep([] + [Starts], Update(data));
    FedStep([] + [Starts] + [Update(data)], Finish);
  }

  function AlternatingSize(n: nat): nat { if n % 2 == 0 then 1024 else 1 }

  function TableSize(steps: seq<nat>): nat -> nat
    requires steps != []
  {
    n => steps[n % |steps|]
  }

  /** Chunk sizes of 1024 and 1 in turn. */
  lemma AlternatingSizes(n: nat)
    ensures AlternatingSize(2 * n) == 1024 && AlternatingSize(2 * n + 1) == 1
  {}

  /** The sizes of a table, over and over. */
  lemma TableSizes(steps: seq<nat>, k: nat, laps: nat)
    requires k < |steps|
    ensures TableSize(steps)(|steps| * laps + k) == steps[k]
  {
    Division.LapsOn(k, |steps|, laps);
  }

  function Capped(chunk: nat, remain: nat): nat { if chunk > remain then remain else chunk }

  /** If call `i` is an update, it is as long as `size` says for its number, or takes all that remains. */
  predicate Sized(size: nat -> nat, calls: seq<Call>, data: Bytes, i: nat)
    requires 0 < i < |calls|
  {
    calls[i].Update? ==> LengthIs(calls[i], size(i - 1), data, Fed(calls[..i]))
  }

  ghost predicate Follows(size: nat -> nat, calls: seq<Call>, data: Bytes) {
    forall i {:trigger Sized(size, calls, data, i)} :: 0 < i < |calls| ==> Sized(size, calls, data, i)
  }

  predicate LengthIs(c: Call, size: nat, data: Bytes, fed: Bytes)
    requires c.Update?
  {
    |fed| <= |data| && |c.bytes| == Capped(size, |data| - |fed|)
  }

  /** The length of update `i` of a session that follows its sizes. */
  lemma FollowsMeans(size: nat -> nat, calls: seq<Call>, data: Bytes, i: nat)
    requires Follows(size, calls, data) && 0 < i < |calls| && calls[i].Update?
    ensures var left := |data| - |Fed(calls[..i])|;
            left >= 0 && |calls[i].bytes| == if size(i - 1) < left then size(i - 1) else left
  {
    assert Sized(size, calls, data, i);
  }

  lemma SizedStays(size: nat -> nat, calls: seq<Call>, data: Bytes, c: Call, i: nat)
    requires 0 < i < |calls| && Sized(size, calls, data, i)
    ensures Sized(size, calls + [c], data, i)
  {
    assert (calls + [c])[..i] == calls[..i];
  }

  lemma SizedLast(size: nat -> nat, calls: seq<Call>, data: Bytes, c: Call)
    requires calls != [] && (c.Update? ==> LengthIs(c, size(|calls| - 1), data, Fed(calls)))
    ensures Sized(size, calls + [c], data, |calls|)
  {
    assert (calls + [c])[..|calls|] == calls;
  }

  lemma FollowsStep(size: nat -> nat, calls: seq<Call>, data: Bytes, c: Call)
    requires Follows(size, calls, data) && calls != []
    requires c.Update? ==> LengthIs(c, size(|calls| - 1), data, Fed(calls))
    ensures Follows(size, calls + [c], data)
  {
    forall i | 0 < i < |calls + [c]| ensures Sized(size, calls + [c], data, i) {
      if i < |calls| {
        SizedStays(size, calls, data, c, i);
      } else {
        SizedLast(size, calls, data, c);
      }
    }
  }

  /** A hash context; `answer` is what the library returns to each call in turn. */
  class Context {
    const answer: nat -> int
    var calls: seq<Call>

    constructor (answer: nat -> int)
      ensures calls == [] && this.answer == answer
    {
      this.answer, calls := answer, [];
    }

    method Do(c: Call) returns (ret: int)
      modifies this
      ensures calls == old(calls) + [c] && ret == answer(|old(calls)|)
    {
      ret := answer(|calls|);
      calls := calls + [c];
    }

    method DoStarts(data: Bytes) returns (ret: int)
      requires calls == []
      modifies this
      ensures Running(calls, answer, data, 0, ret) && calls == [Starts]
    {
      ret := Do(Starts);
      FedStep([], Starts);
    }

    method DoUpdate(data: Bytes, off: nat, chunk: nat) returns (ret: int)
      requires off + chunk <= |data| && Running(calls, answer, data, off, 0)
      modifies this
      ensures calls == old(calls) + [Update(data[off..off + chunk])]
      ensures Running(calls, answer, data, off + chunk, ret)
    {
      RunningStep(calls, answer, data, off, chunk);
      ret := Do(Update(data[off..off + chunk]));
    }

    /** An update with the size the plan of the driver says. */
    method DoPlanned(data: Bytes, off: nat, chunk: nat, ghost size: nat -> nat) returns (ret: int)
      requires off <= |data| && Running(calls, answer, data, off, 0) && Follows(size, calls, data)
      requires chunk == Capped(size(|calls| - 1), |data| - off)
      modifies this
      ensures |calls| == |old(calls)| + 1
      ensures Running(calls, answer, data, off + chunk, ret) && Follows(size, calls, data)
    {
      FollowsStep(size, calls, data, Update(data[off..off + chunk]));
      ret := DoUpdate(data, off, chunk);
    }

    method FinishPlanned(data: Bytes, off: nat, before: int, ghost size: nat -> nat) returns (ret: int)
      requires Running(calls, answer, data, off, before) && (before == 0 ==> off == |data|)
      requires Follows(size, calls, data)
      modifies this
      ensures Outcome(calls, answer, data, ret) && Follows(size, calls, data)
    {
      FollowsStep(size, calls, data, Finish);
      ret := FinishIfGood(data, off, before);
    }

    /** An empty update if asked for, and the real one if that did not fail. */
    method DoSpliced(data: Bytes, off: nat, chunk: nat, splice: bool) returns (ret: int)
      requires off + chunk <= |data| && Running(calls, answer, data, off, 0)
      modifies this
      ensures Running(calls, answer, data, off + chunk, ret)
      ensures calls <= old(calls) + Spliced(splice, data[off..off + chunk])
      ensures ret == 0 ==> calls == old(calls) + Spliced(splice, data[off..off + chunk])
    {
      ret := 0;
      if splice {
        ret := DoUpdate(data, off, 0);
        assert data[off..off + 0] == [];
      }
      if ret == 0 {
        ret := DoUpdate(data, off, chunk);
      }
    }

    /** The end of every driver. */
    method FinishIfGood(data: Bytes, off: nat, before: int) returns (ret: int)
      requires Running(calls, answer, data, off, before) && (before == 0 ==> off == |data|)
      modifies this
      ensures Outcome(calls, answer, data, ret)
      ensures calls == if before == 0 then old(calls) + [Finish] else old(calls)
    {
      ret := before;
      if ret == 0 {
        FedStep(calls, Finish);
        ret := Do(Finish);
      }
    }
  }

  method HashRef(ctx: Context, data: Bytes) returns (ret: int)
    requires ctx.calls == []
    modifies ctx
    ensures Outcome(ctx.calls, ctx.answer, data, ret)
    ensures ret == 0 ==> ctx.calls == [Starts, Update(data), Finish]
  {
    ret := ctx.DoStarts(data);
    var off := 0;
    if ret == 0 {
      ret := ctx.DoUpdate(data, 0, |data|);
      off := |data|;
    }
    ret := ctx.FinishIfGood(data, off, ret);
  }

  function Xorshift32(state: bv32): bv32 {
    var x := state ^ (state << 13);
    var y := x ^ (x >> 17);
    y ^ (y << 5)
  }

  /** The first numbers from seed 1. */
  lemma XorshiftFromOne()
    ensures Xorshift32(1) == 270369 && Xorshift32(270369) == 67634689 && Xorshift32(67634689) == 2647435461
  {}

  /** The generator never falls to 0, where it would stay. */
  lemma XorshiftNeverStalls(a: bv32)
    requires a != 0
    ensures Xorshift32(a) != 0
  {}

  /** A draw of the generator: its next state, a chunk size, and whether an empty update goes first. */
  datatype Drawn = Drawn(state: bv32, size: nat, splice: bool)

  function Drawing(maxChunk: nat, splices: bool): bv32 -> Drawn
    requires maxChunk >= 1
  {
    s => var r := Xorshift32(s); Drawn(r, r as nat % maxChunk + 1, splices && r & 0x100 != 0)
  }

  method Draw(seed: bv32, maxChunk: nat, splices: bool) returns (d: Drawn)
    requires maxChunk >= 1
    ensures d == Drawing(maxChunk, splices)(seed) && 1 <= d.size <= maxChunk && (d.splice ==> splices)
  {
    var r := Xorshift32(seed);
    d := Drawn(r, r as nat % maxChunk + 1, splices && r & 0x100 != 0);
  }

  lemma SpliceBit(r: bv32)
    ensures r & 0x100 != 0 <==> (r >> 8) & 1 == 1
  {}

  lemma DrawnSize(x: nat, maxChunk: nat)
    requires maxChunk >= 1
    ensures x == maxChunk * (x / maxChunk) + x % maxChunk
  {}

  /** The size is one more than the remainder of the number drawn, and its bit 8 asks for the empty update. */
  lemma DrawMeans(s: bv32, maxChunk: nat, splices: bool)
    requires maxChunk >= 1
    ensures var d := Drawing(maxChunk, splices)(s);
            && d.state == Xorshift32(s) && 1 <= d.size <= maxChunk
            && d.state as nat == maxChunk * (d.state as nat / maxChunk) + (d.size - 1)
            && (d.splice <==> splices && (d.state >> 8) & 1 == 1)
  {
    SpliceBit(Xorshift32(s));
    DrawnSize(Xorshift32(s) as nat, maxChunk);
  }

  function Spliced(splice: bool, bytes: Bytes): seq<Call> {
    (if splice then [Update([])] else []) + [Update(bytes)]
  }

  lemma SplicedMeans(bytes: Bytes)
    ensures Spliced(true, bytes) == [Update([]), Update(bytes)] && Spliced(false, bytes) == [Update(bytes)]
  {}

  /** The calls of a random driver from `off` on, if none fails: an empty update only between two chunks. */
  function RandomCalls(draw: bv32 -> Drawn, s: bv32, data: Bytes, off: nat): seq<Call>
    requires off <= |data|
    decreases |data| - off
  {
    if off == |data| then [Finish]
    else
      var d := draw(s);
      var chunk := Capped(d.size, |data| - off);
      if chunk == 0 then []
      else Spliced(d.splice && off > 0, data[off..off + chunk]) + RandomCalls(draw, d.state, data, off + chunk)
  }

  /** How far a random driver has come in its calls: all before `off`, or stopped by a failure somewhere before. */
  ghost predicate OnCourse(all: seq<Call>, calls: seq<Call>, rest: seq<Call>, ret: int) {
    calls <= all && (ret == 0 ==> all == calls + rest)
  }

  lemma OnCourseStep(all: seq<Call>, before: seq<Call>, step: seq<Call>, rest: seq<Call>, calls: seq<Call>, ret: int)
    requires OnCourse(all, before, step + rest, 0)
    requires calls <= before + step && (ret == 0 ==> calls == before + step)
    ensures OnCourse(all, calls, rest, ret)
  {
    assert all == before + step + rest;
  }

  lemma RandomCallsStep(draw: bv32 -> Drawn, s: bv32, data: Bytes, off: nat, d: Drawn)
    requires off < |data| && d == draw(s) && d.size >= 1
    ensures var chunk := Capped(d.size, |data| - off);
            RandomCalls(draw, s, data, off)
            == Spliced(d.splice && off > 0, data[off..off + chunk]) + RandomCalls(draw, d.state, data, off + chunk)
  {}

  /** One turn of the loop of the two random drivers. */
  method RandomTurn(ctx: Context, data: Bytes, off: nat, d: Drawn, ghost draw: bv32 -> Drawn, ghost s: bv32, ghost all: seq<Call>)
    returns (ret: int, off': nat)
    requires off < |data| && d == draw(s) && d.size >= 1
    requires Running(ctx.calls, ctx.answer, data, off, 0) && OnCourse(all, ctx.calls, RandomCalls(draw, s, data, off), 0)
    modifies ctx
    ensures off < off' && Running(ctx.calls, ctx.answer, data, off', ret)
    ensures OnCourse(all, ctx.calls, RandomCalls(draw, d.state, data, off'), ret)
  {
    ghost var before := ctx.calls;
    var chunk := Capped(d.size, |data| - off);
    RandomCallsStep(draw, s, data, off, d);
    ret := ctx.DoSpliced(data, off, chunk, d.splice && off > 0);
    off' := off + chunk;
    OnCourseStep(all, before, Spliced(d.splice && off > 0, data[off..off']), RandomCalls(draw, d.state, data, off'), ctx.calls, ret);
  }

  /** The two random drivers, with and without empty updates between the chunks. */
  method Random(ctx: Context, data: Bytes, seed: bv32, maxChunk: nat, splices: bool) returns (ret: int)
    requires ctx.calls == [] && maxChunk >= 1
    modifies ctx
    ensures Outcome(ctx.calls, ctx.answer, data, ret)
    ensures ctx.calls <= [Starts] + RandomCalls(Drawing(maxChunk, splices), seed, data, 0)
    ensures ret == 0 ==> ctx.calls == [Starts] + RandomCalls(Drawing(maxChunk, splices), seed, data, 0)
  {
    ghost var draw := Drawing(maxChunk, splices);
    ghost var all := [Starts] + RandomCalls(draw, seed, data, 0);
    ret := ctx.DoStarts(data);
    var off, s := 0, seed;
    while ret == 0 && off < |data|
      invariant Running(ctx.calls, ctx.answer, data, off, ret)
      invariant OnCourse(all, ctx.calls, RandomCalls(draw, s, data, off), ret)
      decreases |data| - off
    {
      var d := Draw(s, maxChunk, splices);
      ret, off := RandomTurn(ctx, data, off, d, draw, s, all);
      s := d.state;
    }
    ret := ctx.FinishIfGood(data, off, ret);
  }

  method RandomMax(ctx: Context, data: Bytes, seed: bv32, maxChunk: nat) returns (ret: int)
    requires ctx.calls == [] && maxChunk >= 1
    modifies ctx
    ensures Outcome(ctx.calls, ctx.answer, data, ret)
    ensures ctx.calls <= [Starts] + RandomCalls(Drawing(maxChunk, false), seed, data, 0)
    ensures ret == 0 ==> ctx.calls == [Starts] + RandomCalls(Drawing(maxChunk, false), seed, data, 0)
  {
    ret := Random(ctx, data, seed, maxChunk, false);
  }

  method RandomZeroSplice(ctx: Context, data: Bytes, seed: bv32, maxChunk: nat) returns (ret: int)
    requires ctx.calls == [] && maxChunk >= 1
    modifies ctx
    ensures Outcome(ctx.calls, ctx.answer, data, ret)
    ensures ctx.calls <= [Starts] + RandomCalls(Drawing(maxChunk, true), seed, data, 0)
    ensures ret == 0 ==> ctx.calls == [Starts] + RandomCalls(Drawing(maxChunk, true), seed, data, 0)
  {
    ret := Random(ctx, data, seed, maxChunk, true);
  }

  method Alternating(ctx: Context, data: Bytes) returns (ret: int)
    requires ctx.calls == []
    modifies ctx
    ensures Outcome(ctx.calls, ctx.answer, data, ret)
    ensures Follows(AlternatingSize, ctx.calls, data)
  {
    ret := ctx.DoStarts(data);
    var off, toggle := 0, false;
    while ret == 0 && off < |data|
      invariant Running(ctx.calls, ctx.answer, data, off, ret)
      invariant Follows(AlternatingSize, ctx.calls, data) && (toggle <==> |ctx.calls| % 2 == 0)
      decreases |data| - off
    {
      var chunk := Capped(if toggle then 1 else 1024, |data| - off);
      ret := ctx.DoPlanned(data, off, chunk, AlternatingSize);
      off := off + chunk;
      toggle := !toggle;
    }
    ret := ctx.FinishPlanned(data, off, ret, AlternatingSize);
  }

  const BOUNDARY_STEPS: seq<nat> := [1, 63, 64, 65, 127, 128, 129, 255, 256, 257, 511, 512, 513,
                                     1023, 1024, 1025, 2047, 2048, 2049]

  const LARGE_STEPS: seq<nat> := [1, 63, 64, 65, 127, 128, 129, 255, 256, 257, 511, 512, 513,
                                  1023, 1024, 1025, 2047, 2048, 2049, 4095, 4096, 4097,
                                  8127, 8128, 8129, 8191, 8192, 8193, 16383, 16384]

  const MIXED_STEPS: seq<nat> := [8192, 63, 8192, 65, 1024, 1, 512, 7, 4096, 31, 2048, 1,
                                  8128, 64, 8128, 65, 128, 127, 128, 1]

  const LARGE_CHUNK: seq<nat> := [8192]
  const TINY_CHUNK: seq<nat> := [1]

  lemma TablesArePositive()
    ensures forall steps <- [BOUNDARY_STEPS, LARGE_STEPS, MIXED_STEPS, LARGE_CHUNK, TINY_CHUNK] ::
              steps != [] && forall i :: 0 <= i < |steps| ==> steps[i] > 0
  {
  }

  /** The drivers that take their chunk sizes from a table, over and over. */
  method Stepping(ctx: Context, data: Bytes, steps: seq<nat>) returns (ret: int)
    requires ctx.calls == []
    requires steps != [] && forall i :: 0 <= i < |steps| ==> steps[i] > 0
    modifies ctx
    ensures Outcome(ctx.calls, ctx.answer, data, ret)
    ensures Follows(TableSize(steps), ctx.calls, data)
  {
    ghost var size := TableSize(steps);
    ret := ctx.DoStarts(data);
    var off, s := 0, 0;
    while ret == 0 && off < |data|
      invariant Running(ctx.calls, ctx.answer, data, off, ret)
      invariant Follows(size, ctx.calls, data) && s == |ctx.calls| - 1
      decreases |data| - off
    {
      var chunk := Capped(steps[s % |steps|], |data| - off);
      ret := ctx.DoPlanned(data, off, chunk, size);
      off := off + chunk;
      s := s + 1;
    }
    ret := ctx.FinishPlanned(data, off, ret, size);
  }

  // The driver of the crypto device

  /** Whole steps go to updates, and what is left, or the last whole step, to the computation of the digest. */
  ghost predicate StepsThenRest(calls: seq<Call>, data: Bytes) {
    && calls != [] && calls[|calls| - 1].Compute?
    && (forall i :: 0 <= i < |calls| - 1 ==> calls[i].Update? && |calls[i].bytes| == 1024)
    && (data != [] ==> 0 < |calls[|calls| - 1].last| <= 1024)
    && Fed(calls) == data
  }

  const STEP := 1024

  ghost predicate Stepped(calls: seq<Call>, data: Bytes, k: nat) {
    && |calls| == k && k * STEP <= |data|
    && (forall i :: 0 <= i < k ==> calls[i].Update? && |calls[i].bytes| == STEP)
    && Fed(calls) == data[..k * STEP]
  }

  lemma SteppedOn(calls: seq<Call>, data: Bytes, k: nat)
    requires Stepped(calls, data, k) && (k + 1) * STEP <= |data|
    ensures Stepped(calls + [Update(data[k * STEP..(k + 1) * STEP])], data, k + 1)
  {
    FedStep(calls, Update(data[k * STEP..(k + 1) * STEP]));
    assert data[..k * STEP] + data[k * STEP..(k + 1) * STEP] == data[..(k + 1) * STEP];
  }

  lemma RestCompletes(calls: seq<Call>, data: Bytes, k: nat)
    requires Stepped(calls, data, k) && |data| <= (k + 1) * STEP && (|data| == k * STEP ==> data == [])
    ensures StepsThenRest(calls + [Compute(data[k * STEP..])], data)
  {
    FedStep(calls, Compute(data[k * STEP..]));
    assert data[..k * STEP] + data[k * STEP..] == data;
  }

  /** The answers to the updates are not looked at; the answer to the last call is the result. */
  method Sha256Mode(ctx: Context, data: Bytes) returns (ret: int)
    requires ctx.calls == []
    modifies ctx
    ensures StepsThenRest(ctx.calls, data)
    ensures ret == ctx.answer(|ctx.calls| - 1)
  {
    var remain, rest, i := |data|, |data| % STEP, 0;
    if rest > 0 {
      while i < |data| / STEP
        invariant i <= |data| / STEP && remain == |data| - i * STEP && Stepped(ctx.calls, data, i)
      {
        SteppedOn(ctx.calls, data, i);
        ret := ctx.Do(Update(data[i * STEP..(i + 1) * STEP]));
        remain, i := remain - STEP, i + 1;
      }
      RestCompletes(ctx.calls, data, i);
      ret := ctx.Do(Compute(data[|data| - rest..]));
    } else {
      while i < |data| / STEP - 1
        invariant remain == |data| - i * STEP && Stepped(ctx.calls, data, i)
        invariant i == 0 || i < |data| / STEP
      {
        SteppedOn(ctx.calls, data, i);
        ret := ctx.Do(Update(data[i * STEP..(i + 1) * STEP]));
        remain, i := remain - STEP, i + 1;
      }
      RestCompletes(ctx.calls, data, i);
      ret := ctx.Do(Compute(data[|data| - remain..]));
    }
  }

  /** With every call successful, the device computes the digest of the whole input. */
  lemma StepsAgreeWithOneUpdate<S(!new)>(h: Hash<S>, calls: seq<Call>, data: Bytes)
    requires RespectsConcatenation(h) && StepsThenRest(calls, data)
    ensures h.finish(StateAfter(h, calls)) == h.finish(h.update(h.init, data))
  {
    StateIsOfTheBytesFed(h, calls);
  }
}
