/** Byte strings, and the outcome of reading a value off the front of one. */
module Bytes {

  type byte = x: int | 0 <= x < 256

  /** The client's ByteArray, and its std::string wherever only the bytes matter. */
  type Blob = seq<byte>

  type uint32 = x: int | 0 <= x < 0x1_0000_0000
  type int32 = x: int | -0x8000_0000 <= x < 0x8000_0000
  type uint64 = x: int | 0 <= x < 0x1_0000_0000_0000_0000
  type int64 = x: int | -0x8000_0000_0000_0000 <= x < 0x8000_0000_0000_0000

  const TWO32 := 0x1_0000_0000
  const TWO64 := 0x1_0000_0000_0000_0000

  /** static_cast<int32_t> of an unsigned 32-bit value. */
  function ToInt32(x: uint32): int32 {
    if x < 0x8000_0000 then x else x - TWO32
  }

  /** static_cast<uint32_t> of a signed 32-bit value. */
  function ToUint32(x: int32): uint32 {
    if x < 0 then x + TWO32 else x
  }

  /** Two's complement: the same number modulo 2^32, and the casts undo each other. */
  lemma TwosComplement(x: uint32, y: int32)
    ensures (ToInt32(x) - x) % TWO32 == 0 && ToUint32(ToInt32(x)) == x && ToInt32(ToUint32(y)) == y
  {
  }

  /** The eight bits of a byte, and back. */
  function Bits(x: byte): bv8 { x as bv8 }

  function Octet(x: bv8): byte { x as int }

  lemma BitsBack(x: bv8)
    ensures Bits(Octet(x)) == x
  {
  }

  lemma NextOctet(y: bv8)
    ensures (y as int) < 255 ==> (y + 1) as int == (y as int) + 1
  {
    hide *;
  }

  /** Every byte has its bits. */
  lemma {:induction false} HasBits(x: byte) returns (y: bv8)
    ensures Octet(y) == x
  {
    if x == 0 {
      y := 0;
    } else {
      var z := HasBits(x - 1);
      NextOctet(z);
      y := z + 1;
    }
  }

  lemma OctetBack(x: byte)
    ensures Octet(Bits(x)) == x
  {
    hide Bits, Octet;
    var y := HasBits(x);
    BitsBack(y);
  }

  datatype Option<+T> = None | Some(value: T)

  /** Reading a value off the front of a stream. `Short` means that the stream ended (or its
      socket failed) before the value was complete. `Bad` means that the reader threw.
      `Undefined` means that a variable-length integer ran on past the width of its type,
      where the shift in the C++ reader has no defined meaning. */
  datatype Parse<+T> = Ok(value: T, rest: Blob) | Short | Bad | Undefined
  {
    predicate IsFailure() { !Ok? }

    function PropagateFailure<U>(): Parse<U>
      requires IsFailure()
    {
      match this
      case Short => Short
      case Bad => Bad
      case Undefined => Undefined
    }

    function Extract(): (T, Blob)
      requires Ok?
    {
      (value, rest)
    }
  }

  /** Connection::receive(n), as a function of the bytes the socket still delivers. */
  function Take(s: Blob, n: nat): (r: Parse<Blob>)
    ensures r.Ok? ==> |r.value| == n
  {
    if n <= |s| then Ok(s[..n], s[n..]) else Short
  }

  /** Connection::receive(1)[0]. */
  function ReadByte(s: Blob): Parse<byte> {
    if s == [] then Short else Ok(s[0], s[1..])
  }

  lemma ReadWrittenByte(b: byte, rest: Blob)
    ensures ReadByte([b] + rest) == Ok(b, rest)
  {
  }

  lemma TakeBack(a: Blob, rest: Blob)
    ensures Take(a + rest, |a|) == Ok(a, rest)
  {
    assert (a + rest)[..|a|] == a;
    assert (a + rest)[|a|..] == rest;
  }

  /** Where a string is cut at its last separator is determined. */
  lemma {:induction false} LastSeparator(sep: byte, a: Blob, b: Blob, c: Blob, d: Blob)
    requires a + [sep] + b == c + [sep] + d
    requires sep !in b && sep !in d
    ensures a == c && b == d
    decreases |b|
  {
    var s, t := a + [sep] + b, c + [sep] + d;
    assert s[|s| - 1] == if b == [] then sep else b[|b| - 1];
    assert t[|t| - 1] == if d == [] then sep else d[|d| - 1];
    if b == [] && d == [] {
      assert s[..|s| - 1] == a && t[..|t| - 1] == c;
    } else if b != [] && d != [] {
      var b', d' := b[..|b| - 1], d[..|d| - 1];
      assert s[..|s| - 1] == a + [sep] + b' && t[..|t| - 1] == c + [sep] + d';
      LastSeparator(sep, a, b', c, d');
      assert b == b' + [b[|b| - 1]] && d == d' + [d[|d| - 1]];
    }
  }

  /** And so it is at its first. */
  lemma {:induction false} FirstSeparator(sep: byte, a: Blob, b: Blob, c: Blob, d: Blob)
    requires a + [sep] + b == c + [sep] + d
    requires sep !in a && sep !in c
    ensures a == c && b == d
    decreases |a|
  {
    var s, t := a + [sep] + b, c + [sep] + d;
    assert s[0] == if a == [] then sep else a[0];
    assert t[0] == if c == [] then sep else c[0];
    if a == [] && c == [] {
      assert s[1..] == b && t[1..] == d;
    } else if a != [] && c != [] {
      assert s[1..] == a[1..] + [sep] + b && t[1..] == c[1..] + [sep] + d;
      FirstSeparator(sep, a[1..], b, c[1..], d);
      assert a == [a[0]] + a[1..] && c == [c[0]] + c[1..];
    }
  }
}
