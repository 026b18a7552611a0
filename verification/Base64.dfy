/** The server's base64 decoder, with its 32-bit accumulator, against the encoding of section 4 of RFC 4648. */
module Base64 {

  type byte = x: int | 0 <= x < 256
  type sextet = x: int | 0 <= x < 64

  const UPPER := "ABCDEFGHIJKLMNOPQRSTUVWXYZ"
  const LOWER := "abcdefghijklmnopqrstuvwxyz"
  const DIGITS := "0123456789"
  const ALPHABET := UPPER + LOWER + DIGITS + "+/"

  /** Table 1 of RFC 4648. */
  function CharOf(v: sextet): char {
    if v < 26 then 'A' + v as char
    else if v < 52 then 'a' + (v - 26) as char
    else if v < 62 then '0' + (v - 52) as char
    else if v == 62 then '+' else '/'
  }

  predicate InAlphabet(c: char) { 'A' <= c <= 'Z' || 'a' <= c <= 'z' || '0' <= c <= '9' || c == '+' || c == '/' }

  /** The position at which the search in the alphabet finds a character. */
  function ValueOf(c: char): (v: sextet)
    requires InAlphabet(c)
    ensures CharOf(v) == c
  {
    if 'A' <= c <= 'Z' then c as int - 'A' as int
    else if 'a' <= c <= 'z' then c as int - 'a' as int + 26
    else if '0' <= c <= '9' then c as int - '0' as int + 52
    else if c == '+' then 62 else 63
  }

  lemma UpperPosition(v: sextet)
    ensures |UPPER| == 26 && (v < 26 ==> UPPER[v] == 'A' + v as char)
  {
  }

  lemma LowerPosition(v: sextet)
    ensures |LOWER| == 26 && (v < 26 ==> LOWER[v] == 'a' + v as char)
  {
  }

  lemma DigitPosition(v: sextet)
    ensures |DIGITS| == 10 && (v < 10 ==> DIGITS[v] == '0' + v as char)
  {
  }

  lemma AlphabetPositions(v: sextet)
    ensures |ALPHABET| == 64 && ALPHABET[v] == CharOf(v)
    ensures InAlphabet(CharOf(v)) && ValueOf(CharOf(v)) == v
  {
    UpperPosition(v);
    LowerPosition(if v < 26 then 0 else v - 26);
    DigitPosition(if v < 52 then 0 else v - 52);
  }

  // The text form

  /** Where decoding stops, from `i` on: at the first `=` or at the end. */
  function Stop(s: string, i: nat): (k: nat)
    requires i <= |s|
    ensures i <= k <= |s|
    decreases |s| - i
  {
    if i == |s| || s[i] == '=' then i else Stop(s, i + 1)
  }

  /** The characters the decoder looks at. */
  function Payload(s: string): string { s[..Stop(s, 0)] }

  lemma {:induction false} StopsAt(s: string, i: nat, k: nat)
    requires i <= k <= |s| && '=' !in s[i..k] && (k == |s| || s[k] == '=')
    ensures Stop(s, i) == k
    decreases k - i
  {
    if i < k {
      assert s[i] == s[i..k][0] && s[i + 1..k] == s[i..k][1..];
      StopsAt(s, i + 1, k);
    }
  }

  predicate WellFormed(p: string) { forall i :: 0 <= i < |p| ==> InAlphabet(p[i]) }

  function Values(p: string): (v: seq<sextet>)
    requires WellFormed(p)
  {
    seq(|p|, i requires 0 <= i < |p| => ValueOf(p[i]))
  }

  function Text(v: seq<sextet>): string { seq(|v|, i requires 0 <= i < |v| => CharOf(v[i])) }

  /** Three bytes become four values; one or two bytes left over are filled with zero bits. */
  function Sextets(data: seq<byte>): seq<sextet> {
    if |data| == 0 then []
    else if |data| == 1 then [data[0] / 4, data[0] % 4 * 16]
    else if |data| == 2 then [data[0] / 4, data[0] % 4 * 16 + data[1] / 16, data[1] % 16 * 4]
    else Group(data[0], data[1], data[2]) + Sextets(data[3..])
  }

  function Group(a: byte, b: byte, c: byte): seq<sextet> {
    [a / 4, a % 4 * 16 + b / 16, b % 16 * 4 + c / 64, c % 64]
  }

  function Padding(n: nat): string { if n % 3 == 1 then "==" else if n % 3 == 2 then "=" else "" }

  function FillBits(n: nat): (bits: nat)
    ensures bits in {0, 2, 4}
  {
    if n == 0 then 0 else if n == 1 then 4 else if n == 2 then 2 else FillBits(n - 3)
  }

  function Encode(data: seq<byte>): string { Text(Sextets(data)) + Padding(|data|) }

  // What a text stands for: one large number, of which the decoder delivers the whole bytes

  function Number64(v: seq<sextet>): nat {
    if v == [] then 0 else Number64(v[..|v| - 1]) * 64 + v[|v| - 1]
  }

  function Number256(b: seq<byte>): nat {
    if b == [] then 0 else Number256(b[..|b| - 1]) * 256 + b[|b| - 1]
  }

  /** A number shifted left by the bits that wait for a byte to be completed. */
  function Shl(n: int, bits: int): int {
    if bits == 2 then n * 4 else if bits == 4 then n * 16 else if bits == 6 then n * 64 else n
  }

  /** `out` has all the whole bytes of the values, and its number is theirs with the other bits cut off. */
  ghost predicate Decodes(v: seq<sextet>, out: seq<byte>) {
    var bits := 6 * |v| - 8 * |out|;
    && 0 <= bits < 8
    && Shl(Number256(out), bits) <= Number64(v) < Shl(Number256(out) + 1, bits)
  }

  lemma {:induction false} NumberDeterminesBytes(a: seq<byte>, b: seq<byte>)
    requires |a| == |b| && Number256(a) == Number256(b)
    ensures a == b
  {
    if a != [] {
      NumberDeterminesBytes(a[..|a| - 1], b[..|b| - 1]);
      assert a == a[..|a| - 1] + [a[|a| - 1]];
      assert b == b[..|b| - 1] + [b[|b| - 1]];
    }
  }

  lemma Append64(v: seq<sextet>, x: sextet)
    ensures Number64(v + [x]) == Number64(v) * 64 + x
  {
    assert (v + [x])[..|v|] == v;
  }

  lemma Append256(b: seq<byte>, x: byte)
    ensures Number256(b + [x]) == Number256(b) * 256 + x
  {
    assert (b + [x])[..|b|] == b;
  }

  lemma Append64x2(v: seq<sextet>, x: sextet, y: sextet)
    ensures Number64(v + [x, y]) == Number64(v) * 4096 + x * 64 + y
  {
    Append64(v, x);
    Append64(v + [x], y);
    assert v + [x, y] == v + [x] + [y];
  }

  lemma Append256x2(b: seq<byte>, x: byte, y: byte)
    ensures Number256(b + [x, y]) == Number256(b) * 65536 + x * 256 + y
  {
    Append256(b, x);
    Append256(b + [x], y);
    assert b + [x, y] == b + [x] + [y];
  }

  lemma OneByteBits(a: byte)
    ensures a / 4 * 64 + a % 4 * 16 == a * 16
  {
  }

  lemma TwoByteBits(a: byte, b: byte)
    ensures (a / 4 * 64 + (a % 4 * 16 + b / 16)) * 64 + b % 16 * 4 == (a * 256 + b) * 4
  {
  }

  lemma ThreeByteBits(a: byte, b: byte, c: byte)
    ensures (a / 4 * 64 + (a % 4 * 16 + b / 16)) * 4096 + (b % 16 * 4 + c / 64) * 64 + c % 64 == a * 65536 + b * 256 + c
  {
  }

  lemma AppendGroup(front: seq<byte>, v: seq<sextet>, a: byte, b: byte, c: byte)
    requires Number64(v) == Number256(front)
    ensures Number64(v + Group(a, b, c)) == Number256(front + [a, b, c])
  {
    var g := Group(a, b, c);
    ThreeByteBits(a, b, c);
    Append64x2(v, g[0], g[1]);
    Append64x2(v + [g[0], g[1]], g[2], g[3]);
    assert v + g == v + [g[0], g[1]] + [g[2], g[3]];
    Append256x2(front, a, b);
    Append256(front + [a, b], c);
    assert front + [a, b, c] == front + [a, b] + [c];
  }

  lemma AppendOne(front: seq<byte>, v: seq<sextet>, a: byte, s: sextet, t: sextet)
    requires Number64(v) == Number256(front) && s * 64 + t == a * 16
    ensures Number64(v + [s, t]) == Number256(front + [a]) * 16
  {
    Append64x2(v, s, t);
    Append256(front, a);
  }

  lemma AppendTwo(front: seq<byte>, v: seq<sextet>, a: byte, b: byte, s: sextet, t: sextet, u: sextet)
    requires Number64(v) == Number256(front) && (s * 64 + t) * 64 + u == (a * 256 + b) * 4
    ensures Number64(v + [s, t, u]) == Number256(front + [a, b]) * 4
  {
    Append64x2(v, s, t);
    Append64(v + [s, t], u);
    assert v + [s, t, u] == v + [s, t] + [u];
    Append256x2(front, a, b);
  }

  lemma AppendRest(front: seq<byte>, v: seq<sextet>, rest: seq<byte>)
    requires Number64(v) == Number256(front) && |rest| < 3
    ensures Number64(v + Sextets(rest)) == Shl(Number256(front + rest), FillBits(|rest|))
  {
    if |rest| == 0 {
      assert v + Sextets(rest) == v && front + rest == front;
    } else if |rest| == 1 {
      var a := rest[0];
      OneByteBits(a);
      AppendOne(front, v, a, a / 4, a % 4 * 16);
      assert rest == [a];
    } else {
      var a, b := rest[0], rest[1];
      TwoByteBits(a, b);
      AppendTwo(front, v, a, b, a / 4, a % 4 * 16 + b / 16, b % 16 * 4);
      assert rest == [a, b];
    }
  }

  lemma {:induction false} SextetCount(data: seq<byte>)
    ensures 6 * |Sextets(data)| == 8 * |data| + FillBits(|data|)
  {
    if |data| >= 3 {
      SextetCount(data[3..]);
    }
  }

  lemma Reassociate<T>(a: seq<T>, b: seq<T>, c: seq<T>)
    ensures a + (b + c) == a + b + c
  {}

  lemma FirstThree<T>(s: seq<T>)
    requires |s| >= 3
    ensures s == [s[0], s[1], s[2]] + s[3..]
  {}

  lemma FirstGroup(data: seq<byte>)
    requires |data| >= 3
    ensures Sextets(data) == Group(data[0], data[1], data[2]) + Sextets(data[3..])
  {}

  /** Encoding keeps the number, up to the zero bits that fill the last value. */
  lemma {:induction false} EncodingKeepsTheNumber(front: seq<byte>, v: seq<sextet>, data: seq<byte>)
    requires Number64(v) == Number256(front)
    ensures Number64(v + Sextets(data)) == Shl(Number256(front + data), FillBits(|data|))
    decreases |data|
  {
    if |data| < 3 {
      AppendRest(front, v, data);
    } else {
      var a, b, c := data[0], data[1], data[2];
      AppendGroup(front, v, a, b, c);
      EncodingKeepsTheNumber(front + [a, b, c], v + Group(a, b, c), data[3..]);
      FirstThree(data);
      Reassociate(front, [a, b, c], data[3..]);
      FirstGroup(data);
      Reassociate(v, Group(a, b, c), Sextets(data[3..]));
    }
  }

  lemma PayloadIsBeforeThePadding(p: string, pad: string)
    requires '=' !in p && forall i :: 0 <= i < |pad| ==> pad[i] == '='
    ensures Payload(p + pad) == p
  {
    assert (p + pad)[0..|p|] == p;
    StopsAt(p + pad, 0, |p|);
  }

  lemma TextIsRead(v: seq<sextet>)
    ensures WellFormed(Text(v)) && '=' !in Text(v) && Values(Text(v)) == v
  {
    forall i | 0 <= i < |v| ensures InAlphabet(Text(v)[i]) && ValueOf(Text(v)[i]) == v[i] {
      AlphabetPositions(v[i]);
    }
  }

  lemma OnlyOneDecoding(v: seq<sextet>, data: seq<byte>, fill: nat, out: seq<byte>)
    requires fill in {0, 2, 4}
    requires 6 * |v| == 8 * |data| + fill && Number64(v) == Shl(Number256(data), fill)
    ensures Decodes(v, out) <==> out == data
  {
    if Decodes(v, out) {
      assert |out| == |data|;
      assert Number256(out) == Number256(data);
      NumberDeterminesBytes(out, data);
    }
  }

  lemma GroupLength(q: nat, r: nat, values: nat)
    requires r < 3 && 6 * values == 8 * (3 * q + r) + (if r == 0 then 0 else if r == 1 then 4 else 2)
    ensures values == 4 * q + if r == 0 then 0 else r + 1
  {}

  lemma Remainder(n: nat, q: nat, r: nat)
    requires n == 3 * q + r && r < 3
    ensures n % 3 == r && |Padding(n)| == if r == 0 then 0 else 3 - r
  {}

  lemma {:induction false} FillByRemainder(q: nat, r: nat)
    requires r < 3
    ensures FillBits(3 * q + r) == if r == 0 then 0 else if r == 1 then 4 else 2
  {
    if q > 0 {
      FillByRemainder(q - 1, r);
    }
  }

  /** An encoding has four characters for every three bytes begun; padding stands for the bytes missing there. */
  lemma EncodedLength(data: seq<byte>, q: nat, r: nat)
    requires |data| == 3 * q + r && r < 3
    ensures |Encode(data)| == 4 * (if r == 0 then q else q + 1)
    ensures |Encode(data)| - |Sextets(data)| == if r == 0 then 0 else 3 - r
  {
    SextetCount(data);
    FillByRemainder(q, r);
    GroupLength(q, r, |Sextets(data)|);
    Remainder(|data|, q, r);
  }

  /** Whatever is decoded from the encoding of `data` is `data`, for every sequence of bytes. */
  lemma RoundTrip(data: seq<byte>, out: seq<byte>)
    ensures Payload(Encode(data)) == Text(Sextets(data)) && WellFormed(Payload(Encode(data)))
    ensures Decodes(Values(Payload(Encode(data))), out) <==> out == data
  {
    var v := Sextets(data);
    TextIsRead(v);
    PayloadIsBeforeThePadding(Text(v), Padding(|data|));
    EncodingKeepsTheNumber([], [], data);
    assert [] + v == v && [] + data == data;
    SextetCount(data);
    OnlyOneDecoding(v, data, FillBits(|data|), out);
  }

  // The decoder's accumulator

  /** A 32-bit `int` that wraps around. */
  function Int32(x: int): (r: int)
    ensures -0x8000_0000 <= r < 0x8000_0000
  {
    (x + 0x8000_0000) % 0x1_0000_0000 - 0x8000_0000
  }

  /** The low byte of `val` shifted right, with its sign, by 0, 2 or 4 bits. */
  function Emitted(val: int, valb: int): byte {
    (if valb == 2 then val / 4 else if valb == 4 then val / 16 else val) % 256
  }

  lemma SixPending(x: int, q: int, low: sextet, c: sextet)
    requires x == 4096 * q + (low * 64 + c)
    ensures x / 16 % 256 * 16 + x % 16 == low * 64 + c
  {
    var l := low * 64 + c;
    assert x / 16 == 256 * q + l / 16;
    assert x / 16 % 256 == l / 16;
    assert x % 16 == l % 16;
  }

  lemma FourPending(x: int, q: int, low: nat, c: sextet)
    requires low < 16 && x == 1024 * q + (low * 64 + c)
    ensures x / 4 % 256 * 4 + x % 4 == low * 64 + c
  {
    var l := low * 64 + c;
    assert x / 4 == 256 * q + l / 4;
    assert x / 4 % 256 == l / 4;
    assert x % 4 == l % 4;
  }

  lemma TwoPending(x: int, q: int, low: nat, c: sextet)
    requires low < 4 && x == 256 * q + (low * 64 + c)
    ensures x % 256 == low * 64 + c
  {
  }

  lemma NonePending(x: int, q: int, c: sextet)
    requires x == 64 * q + c
    ensures x % 64 == c
  {
  }

  /** The bits of the accumulator that are not yet delivered. */
  function Low(val: int, bits: int): (low: nat)
    ensures low < Shl(1, bits)
  {
    if bits == 2 then val % 4 else if bits == 4 then val % 16 else if bits == 6 then val % 64 else 0
  }

  /**
   One character: with `bits` of `val` not yet delivered, the byte delivered and the bits left over
   make up exactly those bits and the six new ones, whatever the higher bits of `val` are.
   */
  lemma AccumulatorStep(val: int, bits: int, c: sextet)
    requires bits in {0, 2, 4, 6}
    ensures var x := Int32(val * 64 + c);
            if bits == 0 then Low(x, 6) == c
            else Shl(Emitted(x, bits - 2), bits - 2) + Low(x, bits - 2) == Low(val, bits) * 64 + c
  {
    var x := Int32(val * 64 + c);
    var k := -((val * 64 + c + 0x8000_0000) / 0x1_0000_0000);
    assert x == val * 64 + c + 0x1_0000_0000 * k;
    if bits == 6 {
      SixPending(x, val / 64 + 0x10_0000 * k, val % 64, c);
    } else if bits == 4 {
      FourPending(x, val / 16 + 0x40_0000 * k, val % 16, c);
    } else if bits == 2 {
      TwoPending(x, val / 4 + 0x100_0000 * k, val % 4, c);
    } else {
      NonePending(x, val + 0x400_0000 * k, c);
    }
  }

  /** What the loop keeps: the bytes out and the bits pending make up the number of the values read. */
  ghost predicate Pending(v: seq<sextet>, out: seq<byte>, bits: int, low: nat) {
    && bits in {0, 2, 4, 6} && low < Shl(1, bits)
    && 8 * |out| + bits == 6 * |v|
    && Number64(v) == Shl(Number256(out), bits) + low
  }

  lemma PendingGrows(v: seq<sextet>, out: seq<byte>, c: sextet)
    requires Pending(v, out, 0, 0)
    ensures Pending(v + [c], out, 6, c)
  {
    Append64(v, c);
  }

  lemma PendingEmits(v: seq<sextet>, out: seq<byte>, bits: int, low: nat, c: sextet, e: byte, low': nat)
    requires Pending(v, out, bits, low) && bits != 0
    requires Shl(e, bits - 2) + low' == low * 64 + c && low' < Shl(1, bits - 2)
    ensures Pending(v + [c], out + [e], bits - 2, low')
  {
    Append64(v, c);
    Append256(out, e);
  }

  /** One character of the loop: the accumulator takes it in and a byte it completes is stored. */
  method TakeIn(out: array<byte>, w: nat, val: int, valb: int, c: sextet, ghost v: seq<sextet>, ghost i: nat, ghost bytes: seq<byte>)
    returns (w': nat, val': int, valb': int, ghost bytes': seq<byte>)
    requires w == |bytes| <= out.Length && bytes == out[..w] && valb < 0
    requires i < |v| && c == v[i] && 6 * |v| < 8 * out.Length + 8
    requires Pending(v[..i], bytes, valb + 8, Low(val, valb + 8))
    modifies out
    ensures Pending(v[..i + 1], bytes', valb' + 8, Low(val', valb' + 8)) && valb' < 0
    ensures w' == |bytes'| <= out.Length && bytes' == out[..w'] && w <= w'
    ensures forall k :: w' <= k < out.Length ==> out[k] == old(out[k])
  {
    assert v[..i + 1] == v[..i] + [c];
    AccumulatorStep(val, valb + 8, c);
    val' := Int32(val * 64 + c);
    valb' := valb + 6;
    w', bytes' := w, bytes;
    if valb' >= 0 {
      ghost var e := Emitted(val', valb');
      PendingEmits(v[..i], bytes, valb + 8, Low(val, valb + 8), c, e, Low(val', valb'));
      assert w < out.Length;
      out[w] := Emitted(val', valb');
      bytes' := bytes + [e];
      w' := w + 1;
      valb' := valb' - 8;
    } else {
      PendingGrows(v[..i], bytes, c);
    }
  }

  /** The search for a character in the alphabet. */
  method Position(input: string, i: nat) returns (c: sextet)
    requires WellFormed(Payload(input)) && i < |Payload(input)|
    ensures c == Values(Payload(input))[i]
  {
    assert Payload(input)[i] == input[i];
    c := ValueOf(input[i]);
  }

  method Base64Decode(input: string, out: array<byte>) returns (ret: int, ghost n: nat)
    requires WellFormed(Payload(input))
    requires 6 * |Payload(input)| < 8 * out.Length + 8
    modifies out
    ensures ret == 0 && n <= out.Length
    ensures Decodes(Values(Payload(input)), out[..n])
    ensures forall k :: n <= k < out.Length ==> out[k] == old(out[k])
  {
    ghost var v := Values(Payload(input));
    ghost var bytes: seq<byte> := [];
    var val, valb, w, i := 0, -8, 0, 0;
    while i < |input|
      invariant i <= |input| && Stop(input, i) == |v|
      invariant Pending(v[..i], bytes, valb + 8, Low(val, valb + 8)) && valb < 0
      invariant w == |bytes| <= out.Length && bytes == out[..w]
      invariant forall k :: w <= k < out.Length ==> out[k] == old(out[k])
    {
      if input[i] == '=' {
        break;
      }
      var c := Position(input, i);
      w, val, valb, bytes := TakeIn(out, w, val, valb, c, v, i, bytes);
      i := i + 1;
    }
    assert v[..i] == v;
    ret, n := 0, w;
  }

  lemma EncodingIsReadable(data: seq<byte>)
    ensures WellFormed(Payload(Encode(data))) && 6 * |Payload(Encode(data))| < 8 * (|data| + 1)
  {
    RoundTrip(data, data);
    SextetCount(data);
  }

  /** Decoding the encoding of any bytes gives those bytes and touches nothing behind them. */
  method DecodeEncoded(data: seq<byte>, out: array<byte>) returns (ret: int)
    requires out.Length >= |data|
    modifies out
    ensures ret == 0 && out[..|data|] == data
    ensures forall k :: |data| <= k < out.Length ==> out[k] == old(out[k])
  {
    EncodingIsReadable(data);
    ghost var n;
    ret, n := Base64Decode(Encode(data), out);
    RoundTrip(data, out[..n]);
  }
}
