/** Large transfers over a stream socket of small capacity: partial sends, partial receives, resume. */
module StreamTransfer {
  import opened Chunks

  newtype byte = x: int | 0 <= x < 256

  function PatternByte(seed: int, i: nat): byte { ((seed + i) % 256) as byte }

  function Pattern(len: nat, seed: int): seq<byte> { seq(len, i requires 0 <= i => PatternByte(seed, i)) }

  /** The pattern counts up from the seed and wraps around after 255; so a shift by 1 to 255 bytes shows everywhere. */
  lemma PatternCounts(len: nat, seed: int, i: nat)
    requires i < len
    ensures i == 0 ==> (Pattern(len, seed)[i] as int - seed) % 256 == 0
    ensures 0 < i ==> Pattern(len, seed)[i] as int == (if Pattern(len, seed)[i - 1] == 255 then 0 else Pattern(len, seed)[i - 1] as int + 1)
  {}

  method FillPattern(buf: array<byte>, seed: int)
    modifies buf
    ensures buf[..] == Pattern(buf.Length, seed)
  {
    for i := 0 to buf.Length
      invariant forall j :: 0 <= j < i ==> buf[j] == PatternByte(seed, j)
    {
      buf[i] := ((seed + i) % 256) as byte;
    }
  }

  /** How many of the first `len` bytes differ from the pattern. */
  function Mismatches(buf: seq<byte>, len: nat, seed: int): nat
    requires len <= |buf|
  {
    if len == 0 then 0
    else Mismatches(buf, len - 1, seed) + if buf[len - 1] != PatternByte(seed, len - 1) then 1 else 0
  }

  method VerifyPattern(buf: array<byte>, len: nat, seed: int) returns (mismatches: nat)
    requires len <= buf.Length
    ensures mismatches == Mismatches(buf[..], len, seed)
  {
    mismatches := 0;
    for i := 0 to len
      invariant mismatches == Mismatches(buf[..], i, seed)
    {
      if buf[i] != PatternByte(seed, i) {
        mismatches := mismatches + 1;
      }
    }
  }

  lemma {:induction false} NoMismatchIffPattern(buf: seq<byte>, len: nat, seed: int)
    requires len <= |buf|
    ensures Mismatches(buf, len, seed) == 0 <==> buf[..len] == Pattern(len, seed)
    decreases len
  {
    if len > 0 {
      NoMismatchIffPattern(buf, len - 1, seed);
      assert buf[..len] == buf[..len - 1] + [buf[len - 1]];
      assert Pattern(len, seed) == Pattern(len - 1, seed) + [PatternByte(seed, len - 1)];
      if buf[..len] == Pattern(len, seed) {
        assert buf[..len][..len - 1] == Pattern(len, seed)[..len - 1];
      }
    }
  }

  // ---------------------------------------------------------------- both ends and the pipe between them

  datatype Stream = Stream(data: seq<byte>, capacity: nat, sent: nat, pipe: seq<byte>, got: seq<byte>)

  datatype Transfer = Send(n: nat) | Recv(n: nat)

  predicate Offers(s: Stream, t: Transfer) {
    match t
    case Send(n) => s.sent < |s.data| && n <= |s.data| - s.sent && n <= s.capacity - |s.pipe|
    case Recv(n) => |s.got| < |s.data| && 0 < n <= |s.data| - |s.got| && n <= |s.pipe|
  }

  function Move(s: Stream, t: Transfer): Stream
    requires Offers(s, t)
  {
    match t
    case Send(n) => s.(pipe := s.pipe + s.data[s.sent..s.sent + n], sent := s.sent + n)
    case Recv(n) => s.(got := s.got + s.pipe[..n], pipe := s.pipe[n..])
  }

  ghost predicate StreamInv(s: Stream) {
    && s.sent <= |s.data| && |s.pipe| <= s.capacity && |s.got| <= |s.data|
    && s.got + s.pipe == s.data[..s.sent]
  }

  lemma MoveKeeps(s: Stream, t: Transfer)
    requires StreamInv(s) && Offers(s, t)
    ensures StreamInv(Move(s, t))
  {
    match t
    case Send(n) =>
      assert s.data[..s.sent + n] == s.data[..s.sent] + s.data[s.sent..s.sent + n];
      assert s.got + (s.pipe + s.data[s.sent..s.sent + n]) == (s.got + s.pipe) + s.data[s.sent..s.sent + n];
    case Recv(n) =>
      assert s.pipe == s.pipe[..n] + s.pipe[n..];
      assert (s.got + s.pipe[..n]) + s.pipe[n..] == s.got + s.pipe;
  }

  ghost predicate Moves(s: Stream, ts: seq<Transfer>, s': Stream)
    decreases |ts|
  {
    if ts == [] then s == s' else Offers(s, ts[0]) && Moves(Move(s, ts[0]), ts[1..], s')
  }

  /** Bytes moved by the run count against twice the length, so runs without empty sends are bounded. */
  lemma {:induction false} MovesKeep(s: Stream, ts: seq<Transfer>, s': Stream)
    requires StreamInv(s) && Moves(s, ts, s')
    ensures StreamInv(s') && s'.data == s.data && s'.capacity == s.capacity
    ensures (forall i :: 0 <= i < |ts| ==> ts[i].n > 0) ==> s.sent + |s.got| + |ts| <= s'.sent + |s'.got|
    decreases |ts|
  {
    if ts != [] {
      MoveKeeps(s, ts[0]);
      MovesKeep(Move(s, ts[0]), ts[1..], s');
    }
  }

  function NewStream(data: seq<byte>, capacity: nat): Stream { Stream(data, capacity, 0, [], []) }

  /**
   For any data, capacity and pattern of short sends and receives: what was received and what is in the
   pipe make up what was sent; until everything is delivered one side can move a byte; and a run that
   moves bytes in every step has at most twice as many steps as there are bytes.
   */
  lemma NothingLostNothingStuck(data: seq<byte>, capacity: nat, ts: seq<Transfer>, s: Stream)
    requires 0 < capacity && Moves(NewStream(data, capacity), ts, s)
    ensures s.sent <= |data| && s.got + s.pipe == data[..s.sent]
    ensures |s.got| == |data| ==> s.got == data
    ensures |s.got| < |data| ==> Offers(s, Send(1)) || Offers(s, Recv(1))
    ensures (forall i :: 0 <= i < |ts| ==> ts[i].n > 0) ==> |ts| <= 2 * |data|
  {
    MovesKeep(NewStream(data, capacity), ts, s);
    if |s.got| == |data| {
      assert |s.data[..s.sent]| == s.sent && s.pipe == [];
      assert s.got + [] == s.got && data[..|data|] == data;
    }
  }

  /** The receiver's check passes in the end, whatever the transfer looked like on the way. */
  lemma DeliveredPatternVerifies(len: nat, seed: int, capacity: nat, ts: seq<Transfer>, s: Stream)
    requires 0 < capacity && Moves(NewStream(Pattern(len, seed), capacity), ts, s)
    ensures Mismatches(s.got, |s.got|, seed) == 0
    ensures |s.got| == len ==> s.got == Pattern(len, seed)
  {
    NothingLostNothingStuck(Pattern(len, seed), capacity, ts, s);
    MovesKeep(NewStream(Pattern(len, seed), capacity), ts, s);
    assert s.got == (s.got + s.pipe)[..|s.got|];
    assert s.got == Pattern(|s.got|, seed);
    assert s.got[..|s.got|] == s.got;
    NoMismatchIffPattern(s.got, |s.got|, seed);
  }

  // ---------------------------------------------------------------- the two loops

  predicate AllPositive(results: seq<int>) { forall i :: 0 <= i < |results| ==> results[i] > 0 }

  function Fits(result: int, remaining: nat): int { if result > remaining then remaining else result }

  function Sum(results: seq<int>): int {
    if results == [] then 0 else Sum(results[..|results| - 1]) + results[|results| - 1]
  }

  /** A result that ends the loop: an error, or nothing sent where that counts as one. */
  predicate Stops(result: int, stopOnZero: bool) { result < 0 || (stopOnZero && result == 0) }

  lemma StopsMean(result: int)
    ensures (Stops(result, true) <==> result <= 0) && (Stops(result, false) <==> result < 0)
  {}

  /**
   A loop that sends `len` bytes from `start` on with these results gets to `total` in `used` calls: it goes
   on while bytes are left and no call has stopped it, and every call adds its result, the last one no more
   than what was left.
   */
  ghost predicate SendsFrom(start: nat, len: nat, results: seq<int>, stopOnZero: bool, total: nat, used: nat) {
    && Sending(start, len, results, stopOnZero, total, used)
    && (used < |results| ==> total == len || Stops(results[used], stopOnZero))
  }

  ghost predicate Sending(start: nat, len: nat, results: seq<int>, stopOnZero: bool, total: nat, used: nat) {
    && used <= |results|
    && (forall k :: 0 <= k < used ==> start + Sum(results[..k]) < len && !Stops(results[k], stopOnZero))
    && total == Fits(start + Sum(results[..used]), len)
  }

  lemma SendingOn(start: nat, len: nat, results: seq<int>, stopOnZero: bool, total: nat, used: nat)
    requires Sending(start, len, results, stopOnZero, total, used) && used < |results|
    requires total < len && !Stops(results[used], stopOnZero)
    ensures Sending(start, len, results, stopOnZero, total + Fits(results[used], len - total), used + 1)
  {
    assert results[..used + 1][..used] == results[..used];
  }

  lemma WireOn(sbuf: seq<byte>, start: nat, total: nat, n: nat)
    requires start <= total && total + n <= |sbuf|
    ensures sbuf[start..total + n] == sbuf[start..total] + sbuf[total..total + n]
  {}

  lemma {:induction false} SumAtLeast(results: seq<int>, k: nat)
    requires k <= |results| && AllPositive(results)
    ensures Sum(results[..k]) >= k
  {
    if k > 0 {
      SumAtLeast(results, k - 1);
      assert results[..k][..k - 1] == results[..k - 1];
    }
  }

  /** With one successful call for every byte left, at the latest, everything is sent. */
  lemma EverythingIsSent(start: nat, len: nat, results: seq<int>, stopOnZero: bool, total: nat, used: nat)
    requires SendsFrom(start, len, results, stopOnZero, total, used) && start <= len
    requires AllPositive(results) && |results| >= len - start
    ensures total == len
  {
    SumAtLeast(results, used);
  }

  /** A call that stops the loop while bytes are left leaves the total where it was. */
  lemma StoppedShort(start: nat, len: nat, results: seq<int>, stopOnZero: bool, total: nat, used: nat, k: nat)
    requires SendsFrom(start, len, results, stopOnZero, total, used) && start <= len
    requires k < |results| && Stops(results[k], stopOnZero) && start + Sum(results[..k]) < len
    requires forall j :: 0 <= j < k ==> start + Sum(results[..j]) < len && !Stops(results[j], stopOnZero)
    ensures used == k && total == start + Sum(results[..k])
  {}

  /** The sender's loop against a script of results of the send call, each capped by what it was offered. */
  method SendLoop(sbuf: seq<byte>, start: nat, results: seq<int>, stopOnZero: bool)
    returns (total: nat, wire: seq<byte>, ghost used: nat)
    requires start <= |sbuf|
    ensures start <= total <= |sbuf| && wire == sbuf[start..total]
    ensures SendsFrom(start, |sbuf|, results, stopOnZero, total, used)
  {
    total, wire := start, [];
    var i := 0;
    while total < |sbuf| && i < |results|
      invariant start <= total <= |sbuf| && i <= |results| && wire == sbuf[start..total]
      invariant Sending(start, |sbuf|, results, stopOnZero, total, i)
    {
      var n := Fits(results[i], |sbuf| - total);
      if n < 0 || (stopOnZero && n == 0) {
        break;
      }
      SendingOn(start, |sbuf|, results, stopOnZero, total, i);
      WireOn(sbuf, start, total, n);
      wire := wire + sbuf[total..total + n];
      total := total + n;
      i := i + 1;
    }
    used := i;
  }

  /**
   A send of two buffers at once that may fall short, then the loop for the remainder: the bytes on the
   wire are a prefix of the data wherever the short send stopped, also inside the second buffer.
   */
  method SendMsgThenResume(sbuf: seq<byte>, ret: int, results: seq<int>)
    returns (total: nat, wire: seq<byte>, ghost used: nat)
    requires ret <= |sbuf|
    ensures total <= |sbuf| && wire == sbuf[..total]
    ensures ret <= 0 ==> total == 0
    ensures 0 < ret < |sbuf| ==> SendsFrom(ret, |sbuf|, results, true, total, used)
    ensures 0 < ret == |sbuf| ==> total == |sbuf|
    ensures 0 < ret && AllPositive(results) && |results| >= |sbuf| - ret ==> total == |sbuf|
  {
    var iov0, iov1 := sbuf[..|sbuf| / 2], sbuf[|sbuf| / 2..];
    assert iov0 + iov1 == sbuf;
    used := 0;
    if 0 < ret < |sbuf| {
      var rest;
      total, rest, used := SendLoop(sbuf, ret, results, true);
      wire := (iov0 + iov1)[..ret] + rest;
      if AllPositive(results) && |results| >= |sbuf| - ret {
        EverythingIsSent(ret, |sbuf|, results, true, total, used);
      }
    } else if ret <= 0 {
      total, wire := 0, [];
    } else {
      total, wire := |sbuf|, iov0 + iov1;
    }
  }

  /**
   The reader's loop over the chunks the socket delivers, none longer than what it asked for; an empty
   chunk is the end of the stream.  The verdict is PASS iff everything arrived and matches.
   */
  method ReadLoop(rbuf: array<byte>, chunks: seq<seq<byte>>, seed: int)
    returns (totalRead: nat, pass: bool, ghost used: nat)
    requires |Concat(chunks)| <= rbuf.Length
    modifies rbuf
    ensures used <= |chunks| && (used < |chunks| ==> chunks[used] == [] || totalRead == rbuf.Length)
    ensures forall i :: 0 <= i < used ==> chunks[i] != []
    ensures totalRead == |Concat(chunks[..used])| && totalRead <= rbuf.Length
    ensures rbuf[..totalRead] == Concat(chunks[..used])
    ensures pass <==> Concat(chunks[..used]) == Pattern(rbuf.Length, seed)
  {
    totalRead := 0;
    var i := 0;
    while totalRead < rbuf.Length && i < |chunks|
      invariant i <= |chunks| && totalRead == |Concat(chunks[..i])| <= rbuf.Length
      invariant rbuf[..totalRead] == Concat(chunks[..i])
      invariant forall j :: 0 <= j < i ==> chunks[j] != []
    {
      if chunks[i] == [] {
        break;
      }
      ConcatStep(chunks, i);
      ConcatPrefix(chunks, i + 1);
      var n := |chunks[i]|;
      forall j | 0 <= j < n {
        rbuf[totalRead + j] := chunks[i][j];
      }
      assert rbuf[..totalRead + n] == Concat(chunks[..i]) + chunks[i];
      totalRead := totalRead + n;
      i := i + 1;
    }
    used := i;
    var errs := VerifyPattern(rbuf, totalRead, seed);
    NoMismatchIffPattern(rbuf[..], totalRead, seed);
    assert rbuf[..][..totalRead] == rbuf[..totalRead];
    pass := totalRead == rbuf.Length && errs == 0;
  }

  lemma {:induction false} ConcatPrefix(chunks: seq<seq<byte>>, i: nat)
    requires i <= |chunks|
    ensures |Concat(chunks[..i])| <= |Concat(chunks)|
    decreases |chunks| - i
  {
    if i == |chunks| {
      assert chunks[..i] == chunks;
    } else {
      ConcatStep(chunks, i);
      ConcatPrefix(chunks, i + 1);
    }
  }
}
