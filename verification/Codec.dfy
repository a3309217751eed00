/** The primitive encodings of src/codec/Codec.cpp: variable-length and fixed-length integers,
    and length-prefixed byte strings. */
module Codec {
  import opened Arithmetic
  import opened Bytes

  // ----- Variable-length integers -----

  /** Seven bits a byte, least significant first, high bit set on all bytes but the last. */
  function EncodeVar(v: nat): (r: Blob)
    ensures |r| >= 1
  {
    if v < 128 then [v] else [v % 128 + 128] + EncodeVar(v / 128)
  }

  /** The value of the bytes up to the first one below 128, at most `limit` bytes. */
  function DecodeVar(s: Blob, limit: nat): Parse<nat> {
    if s == [] then Short
    else if limit == 0 then Undefined
    else if s[0] < 128 then Ok(s[0], s[1..])
    else Scale(DecodeVar(s[1..], limit - 1), s[0] - 128, 128)
  }

  function Scale(p: Parse<nat>, base: nat, weight: nat): Parse<nat> {
    match p
    case Ok(v, rest) => Ok(base + weight * v, rest)
    case Short => Short
    case Bad => Bad
    case Undefined => Undefined
  }

  /** VInt is 32 bits wide, VLong 64. Past `Limit` bytes the reader would shift by at least
      the width of the type; up to there the bits that do not fit fall off. */
  datatype Width = W32 | W64
  {
    function Limit(): nat { if W32? then 5 else 10 }
    function Modulus(): nat { if W32? then TWO32 else TWO64 }
  }

  function Narrow(p: Parse<nat>, w: Width): Parse<nat> {
    match p
    case Ok(v, rest) => Ok(v % w.Modulus(), rest)
    case Short => Short
    case Bad => Bad
    case Undefined => Undefined
  }

  function ReadVar(s: Blob, w: Width): (r: Parse<nat>)
    ensures r.Ok? ==> r.value < w.Modulus()
  {
    Narrow(DecodeVar(s, w.Limit()), w)
  }

  /** 128 to the power `k`: what `k` bytes can hold. */
  function Capacity(k: nat): (r: nat)
    ensures r >= 1
  {
    if k == 0 then 1 else 128 * Capacity(k - 1)
  }

  /** An encoding has at most `k` bytes exactly if the value fits in `k` groups of seven bits. */
  lemma {:induction false} EncodedLength(v: nat, k: nat)
    requires k >= 1
    ensures |EncodeVar(v)| <= k <==> v < Capacity(k)
  {
    if v >= 128 {
      if k > 1 {
        EncodedLength(v / 128, k - 1);
      }
    } else {
      assert Capacity(k) >= 128;
    }
  }

  /** A VInt takes 1 to 5 bytes, a VLong 1 to 10. */
  lemma LengthBounds(v: nat, w: Width)
    requires v < w.Modulus()
    ensures 1 <= |EncodeVar(v)| <= w.Limit()
  {
    EncodedLength(v, w.Limit());
    assert Capacity(5) == 0x8_0000_0000;
    if w == W64 {
      assert Capacity(10) == Capacity(5) * Capacity(5);
    }
  }

  lemma {:induction false} DecodeEncoded(v: nat, limit: nat, rest: Blob)
    requires |EncodeVar(v)| <= limit
    ensures DecodeVar(EncodeVar(v) + rest, limit) == Ok(v, rest)
  {
    var s := EncodeVar(v) + rest;
    if v < 128 {
      assert s[1..] == rest;
    } else {
      assert s[1..] == EncodeVar(v / 128) + rest;
      DecodeEncoded(v / 128, limit - 1, rest);
    }
  }

  /** Reading inverts writing, whatever follows, and consumes exactly what was written. */
  lemma ReadWritten(v: nat, w: Width, rest: Blob)
    requires v < w.Modulus()
    ensures ReadVar(EncodeVar(v) + rest, w) == Ok(v, rest)
  {
    hide EncodeVar, DecodeVar;
    LengthBounds(v, w);
    DecodeEncoded(v, w.Limit(), rest);
    SmallMod(v, w.Modulus());
  }

  lemma PrefixFree(v: nat, u: nat, w: Width, x: Blob, y: Blob)
    requires v < w.Modulus() && u < w.Modulus() && EncodeVar(v) + x == EncodeVar(u) + y
    ensures v == u && x == y
  {
    ReadWritten(v, w, x);
    ReadWritten(u, w, y);
  }

  /** No sequence of bytes that decodes to `v` is shorter than its encoding, and the only one
      as short is the encoding itself. */
  lemma {:induction false} DecodeMinimal(s: Blob, limit: nat)
    requires DecodeVar(s, limit).Ok?
    ensures var Ok(v, rest) := DecodeVar(s, limit);
      && |EncodeVar(v)| + |rest| <= |s|
      && s[|s| - |rest|..] == rest
      && (|EncodeVar(v)| + |rest| == |s| ==> s == EncodeVar(v) + rest)
  {
    var Ok(v, rest) := DecodeVar(s, limit);
    if s[0] < 128 {
      assert s == [s[0]] + s[1..];
    } else {
      DecodeMinimal(s[1..], limit - 1);
      var u := DecodeVar(s[1..], limit - 1).value;
      assert v == s[0] - 128 + 128 * u;
      assert s == [s[0]] + s[1..];
      if v >= 128 {
        assert v / 128 == u && v % 128 + 128 == s[0];
      }
    }
  }

  // The two loops that read a variable-length integer, over a buffer and over a socket, keep one
  // invariant: `Reading`. Its lemmas are the loops' start, step and three ways to end.

  /** The last byte read is `b`, `result` is what has been gathered and `weight` is `1 << shift`;
      `ahead` is unread, and `left` more bytes may be shifted in. */
  ghost predicate Reading(s: Blob, w: Width, b: byte, ahead: Blob, left: nat, result: nat, weight: nat) {
    exists raw: nat ::
      && result == raw % w.Modulus()
      && DecodeVar(s, w.Limit())
         == if b < 128 then Ok(raw, ahead) else Scale(DecodeVar(ahead, left), raw, weight)
  }

  lemma ReadingStarts(s: Blob, w: Width)
    requires s != []
    ensures Reading(s, w, s[0], s[1..], w.Limit() - 1, s[0] % 128, 128)
  {
    var raw := s[0] % 128;
    SmallMod(raw, w.Modulus());
    assert DecodeVar(s, w.Limit())
        == if s[0] < 128 then Ok(raw, s[1..]) else Scale(DecodeVar(s[1..], w.Limit() - 1), raw, 128);
  }

  function Gather(result: nat, b: byte, weight: nat, w: Width): nat {
    (result + b % 128 * weight) % w.Modulus()
  }

  lemma ScaleStep(s: Blob, limit: nat, base: nat, weight: nat)
    requires s != [] && limit > 0
    ensures Scale(DecodeVar(s, limit), base, weight)
         == if s[0] < 128 then Ok(base + weight * (s[0] % 128), s[1..])
            else Scale(DecodeVar(s[1..], limit - 1), base + weight * (s[0] % 128), weight * 128)
  {
    if s[0] >= 128 && DecodeVar(s[1..], limit - 1).Ok? {
      ScaleArithmetic(base, weight, s[0] - 128, DecodeVar(s[1..], limit - 1).value);
    }
  }

  lemma ScaleArithmetic(base: nat, weight: nat, low: nat, high: nat)
    ensures base + weight * (low + 128 * high) == base + weight * low + weight * 128 * high
  {
  }

  lemma ReadingContinues(s: Blob, w: Width, b: byte, ahead: Blob, left: nat, result: nat, weight: nat)
    requires b >= 128 && ahead != [] && left > 0
    requires Reading(s, w, b, ahead, left, result, weight)
    ensures Reading(s, w, ahead[0], ahead[1..], left - 1, Gather(result, ahead[0], weight, w), weight * 128)
  {
    hide DecodeVar, Scale;
    var raw: nat :| result == raw % w.Modulus() && DecodeVar(s, w.Limit()) == Scale(DecodeVar(ahead, left), raw, weight);
    ScaleStep(ahead, left, raw, weight);
    var more := ahead[0] % 128 * weight;
    ModAdd(raw, more, w.Modulus());
    assert raw + more == raw + weight * (ahead[0] % 128);
  }

  lemma ReadingEnds(s: Blob, w: Width, b: byte, ahead: Blob, left: nat, result: nat, weight: nat)
    requires Reading(s, w, b, ahead, left, result, weight)
    ensures b < 128 ==> ReadVar(s, w) == Ok(result, ahead)
    ensures b >= 128 && ahead == [] ==> ReadVar(s, w) == Short
    ensures b >= 128 && ahead != [] && left == 0 ==> ReadVar(s, w) == Undefined
  {
  }

  /** writeVInt and writeVLong: the same loop at two widths. */
  method WriteVar(buffer: Blob, value: uint64) returns (r: Blob)
    ensures r == buffer + EncodeVar(value)
  {
    r := buffer;
    var v := value;
    while v >= 128
      invariant v >= 0
      invariant r + EncodeVar(v) == buffer + EncodeVar(value)
    {
      assert r + [v % 128 + 128] + EncodeVar(v / 128) == r + EncodeVar(v);
      r := r + [v % 128 + 128];
      v := v / 128;
    }
    r := r + [v];
  }

  /** readVInt and readVLong over a buffer and an offset. */
  method ReadVarAt(buffer: Blob, offset: nat, w: Width) returns (r: Parse<nat>, next: nat)
    ensures offset >= |buffer| ==> r == Short
    ensures offset < |buffer| ==> r == ReadVar(buffer[offset..], w)
    ensures r.Ok? ==> next <= |buffer| && buffer[next..] == r.rest
  {
    next := offset;
    if offset >= |buffer| {
      return Short, next;
    }
    hide Reading, ReadVar, Gather;
    ghost var s := buffer[offset..];
    var b := buffer[next];
    next := next + 1;
    var result, weight, left: nat := b % 128, 128, w.Limit() - 1;
    ReadingStarts(s, w);
    while b >= 128
      invariant 0 <= result && 0 <= weight
      invariant next <= |buffer| && Reading(s, w, b, buffer[next..], left, result, weight)
      decreases |buffer| - next
    {
      ReadingEnds(s, w, b, buffer[next..], left, result, weight);
      if next >= |buffer| {
        return Short, next;
      }
      if left == 0 {
        return Undefined, next;
      }
      ReadingContinues(s, w, b, buffer[next..], left, result, weight);
      b := buffer[next];
      next := next + 1;
      result := Gather(result, b, weight, w);
      weight, left := weight * 128, left - 1;
    }
    ReadingEnds(s, w, b, buffer[next..], left, result, weight);
    r := Ok(result, buffer[next..]);
  }

  // ----- Fixed-width integers -----

  /** `n` bytes, most significant first. */
  function BigEndian(v: nat, n: nat): (r: Blob)
    ensures |r| == n
  {
    if n == 0 then [] else BigEndian(v / 256, n - 1) + [v % 256]
  }

  function FromBigEndian(s: Blob): nat {
    if s == [] then 0 else FromBigEndian(s[..|s| - 1]) * 256 + s[|s| - 1]
  }

  function Wrap64(v: int): uint64 { v % TWO64 }

  function Signed64(u: uint64): int64 { if u < 0x8000_0000_0000_0000 then u else u - TWO64 }

  function EncodeLong(v: int64): (r: Blob)
    ensures |r| == 8
  {
    BigEndian(Wrap64(v), 8)
  }

  function ReadLong(s: Blob): Parse<int64> {
    match Take(s, 8)
    case Ok(b, rest) => Ok(Signed64(FromBigEndian(b) % TWO64), rest)
    case _ => Short
  }

  function Capacity256(n: nat): (r: nat)
    ensures r >= 1
  {
    if n == 0 then 1 else 256 * Capacity256(n - 1)
  }

  lemma {:induction false} BigEndianBack(v: nat, n: nat)
    requires v < Capacity256(n)
    ensures FromBigEndian(BigEndian(v, n)) == v
  {
    if n > 0 {
      BigEndianBack(v / 256, n - 1);
      assert BigEndian(v, n)[..n - 1] == BigEndian(v / 256, n - 1);
    }
  }

  lemma EightBytes()
    ensures Capacity256(8) == TWO64
  {
  }

  /** readLong inverts writeLong on every signed 64-bit value. */
  lemma ReadWrittenLong(v: int64, rest: Blob)
    ensures ReadLong(EncodeLong(v) + rest) == Ok(v, rest)
  {
    hide BigEndian, FromBigEndian;
    TakeBack(EncodeLong(v), rest);
    EightBytes();
    BigEndianBack(Wrap64(v), 8);
    SmallMod(Wrap64(v), TWO64);
    if v >= 0 {
      SmallMod(v, TWO64);
    } else {
      QuotientIs(v, TWO64, -1, v + TWO64);
    }
  }

  lemma {:induction false} FromBigEndianStep(s: Blob, i: nat)
    requires i < |s|
    ensures FromBigEndian(s[..i + 1]) == FromBigEndian(s[..i]) * 256 + s[i]
  {
    assert s[..i + 1][..i] == s[..i];
  }

  lemma ShiftIn(raw: nat, b: byte)
    ensures (raw % TWO64 * 256 + b) % TWO64 == (raw * 256 + b) % TWO64
  {
    var q, r := raw / TWO64, raw % TWO64;
    ModAdd(q * 256 * TWO64, r * 256 + b, TWO64);
    ModZero(q * 256, TWO64);
  }

  /** The loop of readLong, also inlined three times in receiveMetadata. */
  method AssembleLong(b: Blob) returns (v: int64)
    requires |b| == 8
    ensures v == Signed64(FromBigEndian(b) % TWO64)
  {
    var result := 0;
    ghost var raw := 0;
    for i := 0 to 8
      invariant raw == FromBigEndian(b[..i]) && result == raw % TWO64
    {
      FromBigEndianStep(b, i);
      ShiftIn(raw, b[i]);
      result := (result * 256 + b[i]) % TWO64;
      raw := raw * 256 + b[i];
    }
    assert b[..8] == b;
    v := Signed64(result);
  }

  lemma BigEndianAt(v: nat, n: nat, i: nat)
    requires i < n
    ensures BigEndian(v, n)[i] == v / Capacity256(n - 1 - i) % 256
    decreases n
  {
    if i < n - 1 {
      BigEndianAt(v / 256, n - 1, i);
      DivDiv(v, 256, Capacity256(n - 2 - i));
    }
  }

  /** writeLong: the byte at shift 8 * i, for i from 7 down to 0. */
  method WriteLong(buffer: Blob, value: int64) returns (r: Blob)
    ensures r == buffer + EncodeLong(value)
  {
    r := buffer;
    ghost var e := EncodeLong(value);
    for i := 0 to 8
      invariant r == buffer + e[..i]
    {
      BigEndianAt(Wrap64(value), 8, i);
      r := r + [Wrap64(value) / Capacity256(7 - i) % 256];
      assert e[..i + 1] == e[..i] + [e[i]];
    }
    assert e[..8] == e;
  }

  // ----- Length-prefixed byte strings -----

  /** writeString and writeByteArray: the length is cast to 32 bits. */
  function EncodeBlob(b: Blob): Blob { EncodeVar(|b| % TWO32) + b }

  function ReadBlob(s: Blob): Parse<Blob> {
    var (n, rest) :- ReadVar(s, W32);
    Take(rest, n)
  }

  /** A byte string survives the wire exactly if its length does. */
  lemma ReadWrittenBlob(b: Blob, rest: Blob)
    ensures ReadBlob(EncodeBlob(b) + rest) == Ok(b, rest) <==> |b| < TWO32
  {
    var n := |b| % TWO32;
    assert EncodeBlob(b) + rest == EncodeVar(n) + (b + rest);
    ReadWritten(n, W32, b + rest);
    if |b| < TWO32 {
      TakeBack(b, rest);
    }
  }
}
