/** SCRAM messages: src/auth/SCRAM.cpp, and the server that section 3 of RFC 5802 describes. */
module Scram {
  import opened Bytes
  import opened Decimals

  const COMMA: byte := ',' as int
  const EQUALS: byte := '=' as int

  ghost predicate CommaFree(s: Blob) { COMMA !in s }

  /** The bytes of a literal. */
  function Text(s: string): Blob
    requires forall i :: 0 <= i < |s| ==> s[i] < 128 as char
  {
    seq(|s|, i requires 0 <= i < |s| => s[i] as int)
  }

  lemma Separators()
    ensures Text(",r=") == [COMMA] + Text("r=") && Text(",s=") == [COMMA] + Text("s=")
    ensures Text(",i=") == [COMMA] + Text("i=") && Text(",p=") == [COMMA] + Text("p=")
    ensures Text("c=biws,r=") == Text("c=biws") + [COMMA] + Text("r=")
  {
  }

  lemma Keywords()
    ensures CommaFree(Text("n")) && CommaFree(Text("n=")) && CommaFree(Text("r=")) && CommaFree(Text("s="))
    ensures CommaFree(Text("i=")) && CommaFree(Text("p=")) && CommaFree(Text("c=biws"))
  {
  }

  /** A keyword and a value make a field. */
  lemma MakesField(key: char, value: Blob)
    requires key < 128 as char
    ensures var t := Text([key, '=']) + value; IsField(t, key) && t[2..] == value && |t| == 2 + |value|
  {
  }

  // ----- Cryptography, which is OpenSSL's -----

  datatype Digest = SHA1 | SHA256 | SHA512
  {
    function Size(): nat { match this case SHA1 => 20 case SHA256 => 32 case SHA512 => 64 }
  }

  /** `derive` is PBKDF2 and may refuse its arguments; `decode` throws on what is not base64. */
  datatype Crypto = Crypto(
    hash: (Digest, Blob) -> Blob,
    hmac: (Digest, Blob, Blob) -> Blob,
    derive: (Digest, Blob, Blob, int) -> Option<Blob>,
    encode: Blob -> Blob,
    decode: Blob -> Option<Blob>)

  /** Lengths follow the digest; base64 of a digest-sized string is a word that decodes back. */
  ghost predicate Lawful(k: Crypto) {
    && (forall d, m :: |k.hash(d, m)| == d.Size())
    && (forall d, key, m :: |k.hmac(d, key, m)| == d.Size())
    && (forall b :: 0 < |b| <= 64 ==>
          k.encode(b) != [] && CommaFree(k.encode(b)) && |k.encode(b)| <= 128 && k.decode(k.encode(b)) == Some(b))
  }

  function Halves(b: Blob): (r: Blob)
    ensures |r| == 2 * |b| && CommaFree(r)
    ensures forall i :: 0 <= i < |b| ==> Joined(r[i], r[|b| + i]) == b[i]
  {
    seq(|b|, i requires 0 <= i < |b| => 128 + b[i] / 2) + seq(|b|, i requires 0 <= i < |b| => 128 + b[i] % 2)
  }

  function Joined(high: byte, low: byte): byte { (high * 2 + low - 384) % 256 }

  function Whole(s: Blob): Blob {
    seq(|s| / 2, i requires 0 <= i < |s| / 2 => Joined(s[i], s[|s| / 2 + i]))
  }

  /** The laws contradict nothing: here are functions that obey them. */
  lemma LawsAreConsistent() returns (k: Crypto)
    ensures Lawful(k)
  {
    hide Halves, Joined;
    k := Crypto((d: Digest, m) => seq(d.Size(), i => 0), (d: Digest, key, m) => seq(d.Size(), i => 0),
                (d, p, s, i) => Some(s), Halves, s => Some(Whole(s)));
    forall b | 0 < |b| <= 64
      ensures Whole(Halves(b)) == b
    {
      assert |Halves(b)| / 2 == |b|;
    }
  }

  function DigestForMechanism(mechanism: Blob): Option<Digest> {
    if mechanism == Text("SCRAM-SHA-1") then Some(SHA1)
    else if mechanism == Text("SCRAM-SHA-256") then Some(SHA256)
    else if mechanism == Text("SCRAM-SHA-512") then Some(SHA512)
    else None
  }

  // ----- XOR -----

  /** The operator ^ on unsigned char. */
  function XorByte(a: byte, b: byte): byte { Octet(Eor(Bits(a), Bits(b))) }

  function Eor(a: bv8, b: bv8): bv8 { a ^ b }

  function Xored(a: Blob, b: Blob): (r: Blob)
    requires |a| == |b|
    ensures |r| == |a|
  {
    seq(|a|, i requires 0 <= i < |a| => XorByte(a[i], b[i]))
  }

  /** Exclusive or, bit by bit: a bit of `r` is set exactly if the two others differ. */
  predicate BitsDiffer(r: bv8, a: bv8, b: bv8) {
    && ((r & 0x01 != 0) <==> ((a & 0x01 != 0) != (b & 0x01 != 0)))
    && ((r & 0x02 != 0) <==> ((a & 0x02 != 0) != (b & 0x02 != 0)))
    && ((r & 0x04 != 0) <==> ((a & 0x04 != 0) != (b & 0x04 != 0)))
    && ((r & 0x08 != 0) <==> ((a & 0x08 != 0) != (b & 0x08 != 0)))
    && ((r & 0x10 != 0) <==> ((a & 0x10 != 0) != (b & 0x10 != 0)))
    && ((r & 0x20 != 0) <==> ((a & 0x20 != 0) != (b & 0x20 != 0)))
    && ((r & 0x40 != 0) <==> ((a & 0x40 != 0) != (b & 0x40 != 0)))
    && ((r & 0x80 != 0) <==> ((a & 0x80 != 0) != (b & 0x80 != 0)))
  }

  predicate IsXor(r: Blob, a: Blob, b: Blob) {
    |r| == |a| == |b| && forall i :: 0 <= i < |r| ==> BitsDiffer(Bits(r[i]), Bits(a[i]), Bits(b[i]))
  }

  lemma BitsDifferIff(r: bv8, a: bv8, b: bv8)
    ensures BitsDiffer(r, a, b) <==> r == Eor(a, b)
  {
  }

  lemma XorByteIff(r: byte, a: byte, b: byte)
    ensures BitsDiffer(Bits(r), Bits(a), Bits(b)) <==> r == XorByte(a, b)
  {
    hide BitsDiffer, Bits, Octet, Eor;
    BitsDifferIff(Bits(r), Bits(a), Bits(b));
    BitsBack(Eor(Bits(a), Bits(b)));
    OctetBack(r);
  }

  /** The result of the loop is the exclusive or of the two strings, and nothing else is. */
  lemma XoredIff(r: Blob, a: Blob, b: Blob)
    requires |a| == |b|
    ensures IsXor(r, a, b) <==> r == Xored(a, b)
  {
    hide XorByte, BitsDiffer, Bits;
    forall i | 0 <= i < |r| && i < |a|
      ensures BitsDiffer(Bits(r[i]), Bits(a[i]), Bits(b[i])) <==> r[i] == Xored(a, b)[i]
    {
      XorByteIff(r[i], a[i], b[i]);
    }
  }

  /** XOR with the same mask undoes itself: this is how a server gets ClientKey out of a proof. */
  lemma XoredBack(a: Blob, b: Blob)
    requires |a| == |b|
    ensures IsXor(a, Xored(a, b), b) && Xored(Xored(a, b), b) == a
  {
    hide XorByte, BitsDiffer, Bits;
    var x := Xored(a, b);
    XoredIff(x, a, b);
    forall i | 0 <= i < |a| ensures BitsDiffer(Bits(a[i]), Bits(x[i]), Bits(b[i])) {
      Turned(Bits(x[i]), Bits(a[i]), Bits(b[i]));
    }
    XoredIff(a, x, b);
  }

  lemma Turned(r: bv8, a: bv8, b: bv8)
    requires BitsDiffer(r, a, b)
    ensures BitsDiffer(a, r, b)
  {
  }

  /** xorBytes; `None` is its exception. */
  method XorBytes(a: Blob, b: Blob) returns (r: Option<Blob>)
    ensures r.Some? <==> |a| == |b|
    ensures r.Some? ==> r.value == Xored(a, b) && IsXor(r.value, a, b)
  {
    hide XorByte, BitsDiffer;
    if |a| != |b| {
      return None;
    }
    var result: Blob := [];
    for i := 0 to |a|
      invariant result == Xored(a, b)[..i]
    {
      result := result + [XorByte(a[i], b[i])];
    }
    assert Xored(a, b)[..|a|] == Xored(a, b);
    XoredIff(result, a, b);
    r := Some(result);
  }

  // ----- Tokens -----

  /** std::getline stops here. */
  function FirstComma(s: Blob): (r: nat)
    ensures r <= |s| && (r < |s| ==> s[r] == COMMA) && forall j :: 0 <= j < r ==> s[j] != COMMA
  {
    if s == [] || s[0] == COMMA then 0 else 1 + FirstComma(s[1..])
  }

  function Split(s: Blob): (r: seq<Blob>)
    ensures |r| >= 1 && forall i :: 0 <= i < |r| ==> COMMA !in r[i]
  {
    var i := FirstComma(s);
    if i == |s| then [s[..i]] else [s[..i]] + Split(s[i + 1..])
  }

  lemma FirstCommaAt(a: Blob, s: Blob)
    requires CommaFree(a)
    ensures FirstComma(a) == |a|
    ensures FirstComma(a + [COMMA] + s) == |a|
  {
    var t := a + [COMMA] + s;
    assert forall j :: 0 <= j < |a| ==> t[j] == a[j] && t[j] != COMMA;
    assert t[|a|] == COMMA;
  }

  lemma SplitAt(a: Blob, s: Blob)
    requires CommaFree(a)
    ensures Split(a) == [a]
    ensures Split(a + [COMMA] + s) == [a] + Split(s)
  {
    FirstCommaAt(a, s);
    var t := a + [COMMA] + s;
    assert t[..|a|] == a && t[|a| + 1..] == s && a[..|a|] == a;
  }

  predicate IsField(token: Blob, key: char) {
    |token| >= 2 && token[0] == key as int && token[1] == EQUALS
  }

  // ----- std::stoi -----

  predicate IsSpace(b: byte) { b == 32 || 9 <= b <= 13 }

  function LeadingDigits(s: Blob): seq<Digit> {
    if s == [] || s[0] < 48 || s[0] > 57 then [] else [s[0] - 48] + LeadingDigits(s[1..])
  }

  function Ranged(v: int): Option<int32> {
    if -0x8000_0000 <= v < 0x8000_0000 then Some(v) else None
  }

  function Unsigned(s: Blob, sign: int): Option<int32> {
    var ds := LeadingDigits(s);
    if ds == [] then None else Ranged(sign * Value(ds))
  }

  /** Skips white space, takes a sign, ignores what follows the digits; `None` is an exception:
      no digit, or a value that is no int. */
  function Stoi(s: Blob): Option<int32> {
    if s == [] then None
    else if IsSpace(s[0]) then Stoi(s[1..])
    else if s[0] == '-' as int then Unsigned(s[1..], -1)
    else if s[0] == '+' as int then Unsigned(s[1..], 1)
    else Unsigned(s, 1)
  }

  lemma {:induction false} DigitsLead(ds: seq<Digit>)
    ensures LeadingDigits(Ascii(ds)) == ds
  {
    if ds != [] {
      DigitsLead(ds[1..]);
      assert Ascii(ds)[1..] == Ascii(ds[1..]);
    }
  }

  /** No digit comes next. */
  ghost predicate NoDigit(s: Blob) { s == [] || s[0] < 48 || s[0] > 57 }

  lemma {:induction false} DigitsThenJunk(ds: seq<Digit>, junk: Blob)
    requires NoDigit(junk)
    ensures LeadingDigits(Ascii(ds) + junk) == ds
  {
    var s := Ascii(ds) + junk;
    if ds == [] {
      assert s == junk;
    } else {
      DigitsThenJunk(ds[1..], junk);
      assert s[0] == AsciiDigit(ds[0]) && s[1..] == Ascii(ds[1..]) + junk;
      assert ds == [ds[0]] + ds[1..];
    }
  }

  lemma {:induction false} SkipsSpace(space: Blob, s: Blob)
    requires forall i :: 0 <= i < |space| ==> IsSpace(space[i])
    ensures Stoi(space + s) == Stoi(s)
  {
    if space == [] {
      assert space + s == s;
    } else {
      assert (space + s)[0] == space[0] && (space + s)[1..] == space[1..] + s;
      SkipsSpace(space[1..], s);
    }
  }

  /** The number that digits mean with a sign: none without digits, or if it is no int. */
  function Number(sign: int, ds: seq<Digit>): Option<int32> {
    var v := sign * Value(ds);
    if ds != [] && -0x8000_0000 <= v < 0x8000_0000 then Some(v) else None
  }

  /** What a count means without a sign: digits, and anything that does not go on with a digit. */
  lemma StoiOfDigits(space: Blob, ds: seq<Digit>, junk: Blob)
    requires forall i :: 0 <= i < |space| ==> IsSpace(space[i])
    requires NoDigit(junk) && (ds == [] && junk != [] ==> !IsSpace(junk[0]) && junk[0] != 43 && junk[0] != 45)
    ensures Stoi(space + (Ascii(ds) + junk)) == Number(1, ds)
  {
    hide Stoi, Unsigned, Number, Ascii;
    var s := Ascii(ds) + junk;
    SkipsSpace(space, s);
    FirstOfNumber(ds, junk);
    UnsignedMeans(ds, junk, 1);
    NothingToStoi(s);
    NoNumber(1);
    StoiStarts(s);
  }

  /** And with a sign, which is 43 or 45. */
  lemma StoiOfSigned(space: Blob, sign: byte, ds: seq<Digit>, junk: Blob)
    requires forall i :: 0 <= i < |space| ==> IsSpace(space[i])
    requires (sign == 43 || sign == 45) && NoDigit(junk)
    ensures Stoi(space + ([sign] + (Ascii(ds) + junk))) == Number(if sign == 45 then -1 else 1, ds)
  {
    hide Stoi, Unsigned, Number, Ascii;
    var digits := Ascii(ds) + junk;
    var s := [sign] + digits;
    SkipsSpace(space, s);
    assert s[0] == sign && s[1..] == digits;
    StoiStarts(s);
    UnsignedMeans(ds, junk, if sign == 45 then -1 else 1);
  }

  lemma NoNumber(sign: int)
    ensures Number(sign, []) == None
  {
  }

  lemma UnsignedMeans(ds: seq<Digit>, junk: Blob, sign: int)
    requires NoDigit(junk)
    ensures Unsigned(Ascii(ds) + junk, sign) == Number(sign, ds)
  {
    hide LeadingDigits, Value, Ascii;
    DigitsThenJunk(ds, junk);
  }

  lemma StoiStarts(s: Blob)
    requires s != [] ==> !IsSpace(s[0])
    ensures s != [] && s[0] == 45 ==> Stoi(s) == Unsigned(s[1..], -1)
    ensures s != [] && s[0] == 43 ==> Stoi(s) == Unsigned(s[1..], 1)
    ensures s != [] && s[0] != 45 && s[0] != 43 ==> Stoi(s) == Unsigned(s, 1)
  {
    hide Unsigned;
  }

  lemma NothingToStoi(s: Blob)
    ensures s == [] ==> Stoi(s) == None
  {
  }

  lemma FirstOfNumber(ds: seq<Digit>, junk: Blob)
    ensures ds != [] ==> Ascii(ds) + junk != [] && (Ascii(ds) + junk)[0] == AsciiDigit(ds[0])
    ensures ds == [] ==> Ascii(ds) + junk == junk
  {
  }

  lemma StoiOfDecimal(n: nat)
    requires n < 0x8000_0000
    ensures Stoi(DecimalBytes(n)) == Some(n)
  {
    hide LeadingDigits, Digits, Value;
    DigitsLead(Digits(n));
    ValueOfDigits(n);
    assert DecimalBytes(n)[0] == AsciiDigit(Digits(n)[0]);
  }

  // ----- The server-first message -----

  datatype Fields = Fields(nonce: Blob, salt: Blob, iterations: int32)

  function Absorb(f: Fields, token: Blob): Option<Fields> {
    if IsField(token, 'r') then Some(f.(nonce := token[2..]))
    else if IsField(token, 's') then Some(f.(salt := token[2..]))
    else if IsField(token, 'i') then
      match Stoi(token[2..])
      case None => None
      case Some(n) => Some(f.(iterations := n))
    else Some(f)
  }

  function Absorbed(ts: seq<Blob>): Option<Fields> {
    if ts == [] then Some(Fields([], [], 0))
    else
      match Absorbed(ts[..|ts| - 1])
      case None => None
      case Some(f) => Absorb(f, ts[|ts| - 1])
  }

  function Complete(f: Fields): bool { f.nonce != [] && f.salt != [] && f.iterations != 0 }

  function ParseServerFirst(message: Blob): Option<Fields> {
    match Absorbed(Split(message))
    case None => None
    case Some(f) => if Complete(f) then Some(f) else None
  }

  lemma {:induction false} FailureStays(ts: seq<Blob>, n: nat)
    requires n <= |ts| && Absorbed(ts[..n]) == None
    ensures Absorbed(ts) == None
  {
    if n < |ts| {
      assert ts[..|ts| - 1][..n] == ts[..n];
      FailureStays(ts[..|ts| - 1], n);
    } else {
      assert ts[..n] == ts;
    }
  }

  lemma AbsorbedStep(ts: seq<Blob>, n: nat)
    requires n < |ts|
    ensures Absorbed(ts[..n + 1])
         == match Absorbed(ts[..n]) case None => None case Some(f) => Absorb(f, ts[n])
  {
    assert ts[..n + 1][..n] == ts[..n];
  }

  method ParseServerFirstMessage(message: Blob) returns (r: Option<Fields>)
    ensures r == ParseServerFirst(message)
  {
    hide Absorb, Absorbed, Stoi, Split, FirstComma;
    ghost var all := Split(message);
    ghost var n := 0;
    var stream, f := message, Fields([], [], 0);
    assert all[..0] == [] && all[0..] == all;
    assert Absorbed([]) == Some(f) by { NothingAbsorbed(); }
    while stream != []
      invariant 0 <= n <= |all| && Absorbed(all[..n]) == Some(f)
      invariant if n < |all| then all[n..] == Split(stream) else stream == []
      decreases |stream|
    {
      var i := FirstComma(stream);
      var token := stream[..i];
      SplitStep(stream);
      assert all[n] == token;
      AbsorbedStep(all, n);
      ghost var was := stream;
      stream := if i < |stream| then stream[i + 1..] else [];
      assert i < |was| ==> all[n..][1..] == all[n + 1..] == Split(stream);
      assert i == |was| ==> |all[n..]| == 1;
      n := n + 1;
      var next := Absorb(f, token);
      if next.None? {
        FailureStays(all, n);
        return None;
      }
      f := next.value;
    }
    if n < |all| {
      AbsorbedStep(all, n);
      SplitStep([]);
      AbsorbNothing(f);
      assert all[..n + 1] == all;
    } else {
      assert all[..n] == all;
    }
    r := if Complete(f) then Some(f) else None;
  }

  lemma SplitStep(s: Blob)
    ensures var i := FirstComma(s);
      Split(s) == if i < |s| then [s[..i]] + Split(s[i + 1..]) else [s[..i]]
  {
    hide FirstComma;
  }

  lemma NothingAbsorbed()
    ensures Absorbed([]) == Some(Fields([], [], 0))
  {
  }

  lemma AbsorbNothing(f: Fields)
    ensures Absorb(f, []) == Some(f)
  {
  }

  /** Index of the last token with this key, or -1. */
  function LastIndex(ts: seq<Blob>, key: char): (r: int)
    ensures -1 <= r < |ts| && (r >= 0 ==> IsField(ts[r], key))
    ensures forall j :: r < j < |ts| ==> !IsField(ts[j], key)
  {
    if ts == [] then -1
    else if IsField(ts[|ts| - 1], key) then |ts| - 1
    else LastIndex(ts[..|ts| - 1], key)
  }

  function LastValue(ts: seq<Blob>, key: char): Blob {
    var i := LastIndex(ts, key);
    if i < 0 then [] else ts[i][2..]
  }

  ghost predicate CountsReadable(ts: seq<Blob>) {
    forall t :: t in ts && IsField(t, 'i') ==> Stoi(t[2..]).Some?
  }

  function LastCount(ts: seq<Blob>): int32 {
    var c := Stoi(LastValue(ts, 'i'));
    if c.Some? then c.value else 0
  }

  lemma StoiOfNothing()
    ensures Stoi([]) == None
  {
  }

  lemma NothingMeant()
    ensures CountsReadable([]) && forall key :: LastValue([], key) == []
  {
  }

  lemma LastValueStep(ts: seq<Blob>, key: char)
    requires ts != []
    ensures var last := ts[|ts| - 1];
      LastValue(ts, key) == if IsField(last, key) then last[2..] else LastValue(ts[..|ts| - 1], key)
  {
  }

  lemma CountsStep(ts: seq<Blob>)
    requires ts != []
    ensures var last := ts[|ts| - 1];
      CountsReadable(ts) <==> CountsReadable(ts[..|ts| - 1]) && (IsField(last, 'i') ==> Stoi(last[2..]).Some?)
  {
    hide Stoi;
    assert ts == ts[..|ts| - 1] + [ts[|ts| - 1]];
  }

  lemma {:induction false} AbsorbedMeans(ts: seq<Blob>)
    ensures Absorbed(ts)
         == if CountsReadable(ts) then Some(Fields(LastValue(ts, 'r'), LastValue(ts, 's'), LastCount(ts))) else None
  {
    hide Stoi, LastValue, CountsReadable;
    if ts == [] {
      StoiOfNothing();
      NothingMeant();
    } else {
      AbsorbedMeans(ts[..|ts| - 1]);
      LastValueStep(ts, 'r');
      LastValueStep(ts, 's');
      LastValueStep(ts, 'i');
      CountsStep(ts);
    }
  }

  /** What the parser accepts: every iteration count in the message is readable, and the last nonce,
      the last salt and the last count are there and not empty or zero. Those are its results. */
  lemma AcceptedIff(message: Blob, f: Fields)
    ensures var ts := Split(message);
      ParseServerFirst(message) == Some(f) <==>
        && CountsReadable(ts)
        && f == Fields(LastValue(ts, 'r'), LastValue(ts, 's'), LastCount(ts))
        && f.nonce != [] && f.salt != [] && f.iterations != 0
  {
    hide Absorbed, LastValue, CountsReadable, LastCount;
    AbsorbedMeans(Split(message));
  }

  lemma AcceptedNonceCommaFree(message: Blob)
    requires ParseServerFirst(message).Some?
    ensures CommaFree(ParseServerFirst(message).value.nonce)
  {
    hide Absorbed, CountsReadable, LastCount;
    var f := ParseServerFirst(message).value;
    AcceptedIff(message, f);
    var ts := Split(message);
    var i := LastIndex(ts, 'r');
    assert f.nonce == LastValue(ts, 'r') == ts[i][2..];
    assert forall b :: b in ts[i][2..] ==> b in ts[i];
  }

  // ----- The client's messages -----

  function ClientFirstBare(user: Blob, nonce: Blob): Blob { Text("n=") + user + Text(",r=") + nonce }

  function ClientFirst(user: Blob, nonce: Blob): Blob { Text("n,,") + ClientFirstBare(user, nonce) }

  function WithoutProof(nonce: Blob): Blob { Text("c=biws,r=") + nonce }

  function AuthMessage(bare: Blob, serverFirst: Blob, withoutProof: Blob): Blob {
    bare + [COMMA] + serverFirst + [COMMA] + withoutProof
  }

  function SaltedPassword(k: Crypto, d: Digest, password: Blob, f: Fields): Option<Blob> {
    match k.decode(f.salt)
    case None => None
    case Some(salt) => k.derive(d, password, salt, f.iterations)
  }

  function ClientKey(k: Crypto, d: Digest, salted: Blob): Blob { k.hmac(d, salted, Text("Client Key")) }

  function StoredKey(k: Crypto, d: Digest, salted: Blob): Blob { k.hash(d, ClientKey(k, d, salted)) }

  function ServerKey(k: Crypto, d: Digest, salted: Blob): Blob { k.hmac(d, salted, Text("Server Key")) }

  function Proof(k: Crypto, d: Digest, salted: Blob, authMessage: Blob): Option<Blob> {
    var key, signature := ClientKey(k, d, salted), k.hmac(d, StoredKey(k, d, salted), authMessage);
    if |key| == |signature| then Some(Xored(key, signature)) else None
  }

  function FinalMessage(nonce: Blob, proofText: Blob): Blob { WithoutProof(nonce) + Text(",p=") + proofText }

  /** createClientFinalMessage; `None` is an exception of base64Decode, pbkdf2 or xorBytes. */
  function ClientFinal(k: Crypto, d: Digest, password: Blob, bare: Blob, serverFirst: Blob, f: Fields): Option<Blob> {
    match SaltedPassword(k, d, password, f)
    case None => None
    case Some(salted) =>
      match Proof(k, d, salted, AuthMessage(bare, serverFirst, WithoutProof(f.nonce)))
      case None => None
      case Some(proof) => Some(FinalMessage(f.nonce, k.encode(proof)))
  }

  method CreateClientFinalMessage(k: Crypto, d: Digest, password: Blob, bare: Blob, serverFirst: Blob, f: Fields)
    returns (r: Option<Blob>)
    ensures r == ClientFinal(k, d, password, bare, serverFirst, f)
  {
    hide Text, Xored;
    var withoutProof := WithoutProof(f.nonce);
    var authMessage := AuthMessage(bare, serverFirst, withoutProof);
    var salted := SaltedPassword(k, d, password, f);
    if salted.None? {
      return None;
    }
    var clientKey := ClientKey(k, d, salted.value);
    var storedKey := k.hash(d, clientKey);
    var clientSignature := k.hmac(d, storedKey, authMessage);
    var clientProof := XorBytes(clientKey, clientSignature);
    if clientProof.None? {
      return None;
    }
    r := Some(withoutProof + Text(",p=") + k.encode(clientProof.value));
  }

  /** verifyServerFinalMessage; `None` is an exception. */
  function Verify(k: Crypto, d: Digest, message: Blob, password: Blob, authMessage: Blob, f: Fields): Option<bool> {
    if !IsField(message, 'v') then Some(false)
    else
      match SaltedPassword(k, d, password, f)
      case None => None
      case Some(salted) =>
        match k.decode(message[2..])
        case None => None
        case Some(received) => Some(k.hmac(d, ServerKey(k, d, salted), authMessage) == received)
  }

  // ----- Recovering the signed message -----

  /** std::string::find(",p="), or the length if there is none. */
  function FindProof(s: Blob): (r: nat)
    ensures r <= |s|
  {
    if |s| < 3 then |s| else if s[..3] == Text(",p=") then 0 else 1 + FindProof(s[1..])
  }

  /** What the driver takes for client-final-without-proof. */
  function CutAtProof(s: Blob): Blob { s[..FindProof(s)] }

  /** No comma is followed by a "p". */
  ghost predicate NoProofIn(w: Blob) {
    forall i :: 0 <= i < |w| && w[i] == COMMA ==> i + 1 < |w| && w[i + 1] != 'p' as int
  }

  lemma {:induction false} FindProofAt(w: Blob, x: Blob)
    requires NoProofIn(w)
    ensures FindProof(w + (Text(",p=") + x)) == |w|
  {
    var s := w + (Text(",p=") + x);
    if w == [] {
      assert s[..3] == Text(",p=");
    } else {
      assert s[0] == w[0] && (|w| > 1 ==> s[1] == w[1]);
      assert s[..3] != Text(",p=") by {
        assert s[..3][0] == s[0] && s[..3][1] == s[1];
      }
      assert NoProofIn(w[1..]) by {
        assert forall i :: 0 <= i < |w[1..]| ==> w[1..][i] == w[i + 1];
      }
      FindProofAt(w[1..], x);
      assert s[1..] == w[1..] + (Text(",p=") + x);
    }
  }

  lemma CutBack(nonce: Blob, x: Blob)
    requires CommaFree(nonce)
    ensures CutAtProof(FinalMessage(nonce, x)) == WithoutProof(nonce)
  {
    var w := WithoutProof(nonce);
    assert w == Text("c=biws,r=") + nonce;
    assert forall i :: 9 <= i < |w| ==> w[i] == nonce[i - 9];
    assert w[..9] == Text("c=biws,r=");
    assert forall i :: 0 <= i < 9 ==> w[i] == Text("c=biws,r=")[i];
    assert NoProofIn(w);
    assert w + Text(",p=") + x == w + (Text(",p=") + x);
    FindProofAt(w, x);
  }

  /** For every server-first message that the parser accepts, the text cut at the first ",p=" is what
      was signed: the server's signature is checked against the message that the proof was made for. */
  lemma SignedMessageRecovered(k: Crypto, d: Digest, password: Blob, bare: Blob, serverFirst: Blob)
    requires var f := ParseServerFirst(serverFirst); f.Some? && ClientFinal(k, d, password, bare, serverFirst, f.value).Some?
    ensures var f := ParseServerFirst(serverFirst).value;
      CutAtProof(ClientFinal(k, d, password, bare, serverFirst, f).value) == WithoutProof(f.nonce)
  {
    hide ParseServerFirst, FindProof, FinalMessage, WithoutProof, AuthMessage;
    var f := ParseServerFirst(serverFirst).value;
    AcceptedNonceCommaFree(serverFirst);
    var salted := SaltedPassword(k, d, password, f).value;
    var proof := Proof(k, d, salted, AuthMessage(bare, serverFirst, WithoutProof(f.nonce))).value;
    CutBack(f.nonce, k.encode(proof));
  }

  /** The signed message determines who talks, both nonces and the server's parameters. */
  lemma SignedMessageDetermines(u: Blob, c: Blob, first: Blob, n: Blob, u': Blob, c': Blob, first': Blob, n': Blob)
    requires CommaFree(u) && CommaFree(c) && CommaFree(n) && CommaFree(u') && CommaFree(c') && CommaFree(n')
    requires AuthMessage(ClientFirstBare(u, c), first, WithoutProof(n))
          == AuthMessage(ClientFirstBare(u', c'), first', WithoutProof(n'))
    ensures u == u' && c == c' && first == first' && n == n'
  {
    var t := Tokens(u, c, first, n);
    var t' := Tokens(u', c', first', n');
    LastSeparator(COMMA, t, Text("r=") + n, t', Text("r=") + n');
    AfterPrefix(Text("r="), n, n');
    LastSeparator(COMMA, Opening(u, c, first), Text("c=biws"), Opening(u', c', first'), Text("c=biws"));
    FirstSeparator(COMMA, Text("n=") + u, Text("r=") + c + [COMMA] + first, Text("n=") + u', Text("r=") + c' + [COMMA] + first');
    AfterPrefix(Text("n="), u, u');
    FirstSeparator(COMMA, Text("r=") + c, first, Text("r=") + c', first');
    AfterPrefix(Text("r="), c, c');
  }

  ghost function Opening(u: Blob, c: Blob, first: Blob): (r: Blob)
    ensures r == (Text("n=") + u) + [COMMA] + (Text("r=") + c + [COMMA] + first)
  {
    (Text("n=") + u) + [COMMA] + (Text("r=") + c + [COMMA] + first)
  }

  /** The signed message up to its last comma. */
  lemma Tokens(u: Blob, c: Blob, first: Blob, n: Blob) returns (t: Blob)
    ensures t == Opening(u, c, first) + [COMMA] + Text("c=biws")
    ensures AuthMessage(ClientFirstBare(u, c), first, WithoutProof(n)) == t + [COMMA] + (Text("r=") + n)
  {
    hide Text;
    t := Opening(u, c, first) + [COMMA] + Text("c=biws");
    Separators();
  }

  lemma AfterPrefix(p: Blob, a: Blob, b: Blob)
    requires p + a == p + b
    ensures a == b
  {
    assert (p + a)[|p|..] == a && (p + b)[|p|..] == b;
  }

  // ----- The server of RFC 5802 -----

  /** What section 3 has a server store for a user. */
  datatype Account = Account(salt: Blob, saltText: Blob, iterations: nat, storedKey: Blob, serverKey: Blob)

  /** "Client Key" and "Server Key". */
  const CLIENT_KEY: Blob := [67, 108, 105, 101, 110, 116, 32, 75, 101, 121]
  const SERVER_KEY: Blob := [83, 101, 114, 118, 101, 114, 32, 75, 101, 121]

  /** The client derives its keys from the texts of the standard. */
  lemma KeysOfTheStandard(k: Crypto, d: Digest, salted: Blob)
    ensures StoredKey(k, d, salted) == k.hash(d, k.hmac(d, salted, CLIENT_KEY))
    ensures ServerKey(k, d, salted) == k.hmac(d, salted, SERVER_KEY)
  {
    assert Text("Client Key") == CLIENT_KEY && Text("Server Key") == SERVER_KEY;
  }

  /** The registered names of the mechanisms: SCRAM-SHA-1, SCRAM-SHA-256 and SCRAM-SHA-512. */
  function MechanismName(d: Digest): Blob {
    [83, 67, 82, 65, 77, 45, 83, 72, 65, 45]
    + match d { case SHA1 => [49] case SHA256 => [50, 53, 54] case SHA512 => [53, 49, 50] }
  }

  lemma MechanismsNamed(mechanism: Blob, d: Digest)
    ensures DigestForMechanism(mechanism) == Some(d) <==> mechanism == MechanismName(d)
  {
    hide MechanismName, Text;
    NameTexts();
  }

  lemma NameTexts()
    ensures Text("SCRAM-SHA-1") == MechanismName(SHA1)
    ensures Text("SCRAM-SHA-256") == MechanismName(SHA256)
    ensures Text("SCRAM-SHA-512") == MechanismName(SHA512)
    ensures |MechanismName(SHA1)| == 11 && MechanismName(SHA256) != MechanismName(SHA512)
    ensures |MechanismName(SHA256)| == |MechanismName(SHA512)| == 13
  {
    assert MechanismName(SHA256)[10] != MechanismName(SHA512)[10];
  }

  ghost predicate Enrolled(k: Crypto, d: Digest, a: Account, password: Blob) {
    var salted := k.derive(d, password, a.salt, a.iterations);
    && salted.Some?
    && a.storedKey == k.hash(d, k.hmac(d, salted.value, CLIENT_KEY))
    && a.serverKey == k.hmac(d, salted.value, SERVER_KEY)
    && k.decode(a.saltText) == Some(a.salt) && a.saltText != [] && CommaFree(a.saltText)
    && 1 <= a.iterations < 0x8000_0000
  }

  /** The saslname of section 5.1: a comma is written "=2C", an equals sign "=3D". */
  function Unescape(s: Blob): (r: Option<Blob>)
    ensures r.Some? ==> |r.value| <= |s|
    ensures r.Some? && EQUALS in s ==> |r.value| < |s|
    ensures EQUALS !in s ==> r == Some(s)
  {
    if s == [] then Some([])
    else if s[0] != EQUALS then
      match Unescape(s[1..])
      case None => None
      case Some(r) => assert s == [s[0]] + s[1..]; Some([s[0]] + r)
    else if |s| >= 3 && (s[1..3] == Text("2C") || s[1..3] == Text("3D")) then
      match Unescape(s[3..])
      case None => None
      case Some(r) => Some([if s[1..3] == Text("2C") then COMMA else EQUALS] + r)
    else None
  }

  datatype Hello = Hello(user: Blob, nonce: Blob)

  /** client-first-message without channel binding and without authorization identity. */
  function ReadClientFirst(m: Blob): Option<Hello> {
    var ts := Split(m);
    if |ts| >= 4 && ts[0] == Text("n") && ts[1] == [] && IsField(ts[2], 'n') && IsField(ts[3], 'r') then
      match Unescape(ts[2][2..])
      case None => None
      case Some(user) => Some(Hello(user, ts[3][2..]))
    else None
  }

  function ServerFirst(a: Account, clientNonce: Blob, suffix: Blob): Blob {
    Text("r=") + (clientNonce + suffix) + Text(",s=") + a.saltText + Text(",i=") + DecimalBytes(a.iterations)
  }

  function LastComma(s: Blob): (r: int)
    ensures -1 <= r < |s| && (r >= 0 ==> s[r] == COMMA) && forall j :: r < j < |s| ==> s[j] != COMMA
  {
    if s == [] then -1
    else if s[|s| - 1] == COMMA then |s| - 1
    else LastComma(s[..|s| - 1])
  }

  datatype Final = Final(without: Blob, proof: Blob)

  /** The proof is the last field; channel binding and nonce must be the expected ones. */
  function ReadClientFinal(m: Blob, nonce: Blob): Option<Final> {
    var j := LastComma(m);
    if j < 0 || !IsField(m[j + 1..], 'p') then None
    else
      var ts := Split(m[..j]);
      if |ts| < 2 || ts[0] != Text("c=biws") || ts[1] != Text("r=") + nonce then None
      else Some(Final(m[..j], m[j + 1..][2..]))
  }

  /** Some key whose exclusive or with the client's signature is the proof must hash to the stored one. */
  ghost predicate ProofHolds(k: Crypto, d: Digest, storedKey: Blob, authMessage: Blob, proofText: Blob) {
    var proof := k.decode(proofText);
    proof.Some? && exists key ::
      IsXor(key, proof.value, k.hmac(d, storedKey, authMessage)) && k.hash(d, key) == storedKey
  }

  function ServerSignature(k: Crypto, d: Digest, a: Account, authMessage: Blob): Blob {
    Text("v=") + k.encode(k.hmac(d, a.serverKey, authMessage))
  }

  /** AuthMessage of section 3, as the server puts it together. */
  function Signed(bare: Blob, serverFirst: Blob, without: Blob): Blob {
    bare + ([44] + (serverFirst + ([44] + without)))
  }

  /** The server's answer to a client-final message, or `None` if it rejects it. */
  ghost function ServerFinal(k: Crypto, d: Digest, a: Account, bare: Blob, serverFirst: Blob, nonce: Blob, m: Blob): Option<Blob> {
    match ReadClientFinal(m, nonce)
    case None => None
    case Some(f) =>
      var authMessage := Signed(bare, serverFirst, f.without);
      if ProofHolds(k, d, a.storedKey, authMessage, f.proof) then Some(ServerSignature(k, d, a, authMessage)) else None
  }

  // ----- User names -----

  lemma SplitClientFirst(user: Blob, nonce: Blob)
    ensures var ts := Split(ClientFirst(user, nonce));
      && |ts| >= 3 && ts[0] == Text("n") && ts[1] == [] && ts[2] == Split(ClientFirstBare(user, nonce))[0]
      && ts[2..] == Split(ClientFirstBare(user, nonce))
  {
    hide Split, ClientFirstBare;
    var bare := ClientFirstBare(user, nonce);
    assert ClientFirst(user, nonce) == Text("n") + [COMMA] + ([] + [COMMA] + bare);
    SplitAt(Text("n"), [] + [COMMA] + bare);
    SplitAt([], bare);
  }

  lemma SplitBare(user: Blob, nonce: Blob)
    requires CommaFree(nonce)
    ensures var ts := Split(ClientFirstBare(user, nonce));
      && IsField(ts[0], 'n')
      && if CommaFree(user) then ts == [Text("n=") + user, Text("r=") + nonce]
         else |ts[0]| < |Text("n=") + user|
  {
    hide Split, Text;
    Separators();
    Keywords();
    var head, rest := Text("n=") + user, Text("r=") + nonce;
    assert ClientFirstBare(user, nonce) == head + [COMMA] + rest;
    if CommaFree(user) {
      SplitAt(head, rest);
      SplitAt(rest, []);
      MakesField('n', user);
    } else {
      var i := FirstComma(user);
      var a := Text("n=") + user[..i];
      var b := user[i + 1..] + [COMMA] + rest;
      assert user == user[..i] + [COMMA] + user[i + 1..];
      assert head + [COMMA] + rest == a + [COMMA] + b;
      SplitAt(a, b);
      MakesField('n', user[..i]);
      MakesField('n', user);
    }
  }

  /** The client does not escape: a server reads the configured user name and the nonce out of the
      client-first message exactly if the name has neither a comma nor an equals sign. */
  lemma UserNameRecoveredIff(user: Blob, nonce: Blob)
    requires CommaFree(nonce)
    ensures ReadClientFirst(ClientFirst(user, nonce)) == Some(Hello(user, nonce))
       <==> COMMA !in user && EQUALS !in user
  {
    hide Split, Unescape;
    SplitClientFirst(user, nonce);
    SplitBare(user, nonce);
    var ts := Split(ClientFirst(user, nonce));
    var us := Split(ClientFirstBare(user, nonce));
    if CommaFree(user) {
      assert ts[3] == ts[2..][1] == Text("r=") + nonce;
      assert ts[2][2..] == user && ts[3][2..] == nonce;
    }
  }

  // ----- An honest exchange -----

  lemma HonestServerFirst(a: Account, clientNonce: Blob, suffix: Blob)
    requires CommaFree(clientNonce) && CommaFree(suffix) && clientNonce != []
    requires a.saltText != [] && CommaFree(a.saltText) && 1 <= a.iterations < 0x8000_0000
    ensures ParseServerFirst(ServerFirst(a, clientNonce, suffix))
         == Some(Fields(clientNonce + suffix, a.saltText, a.iterations))
  {
    hide Stoi, Digits, Split, Absorbed, Text;
    Separators();
    Keywords();
    var r := Text("r=") + (clientNonce + suffix);
    var s := Text("s=") + a.saltText;
    var i := Text("i=") + DecimalBytes(a.iterations);
    var m := ServerFirst(a, clientNonce, suffix);
    assert m == r + [COMMA] + (s + [COMMA] + i);
    SplitAt(r, s + [COMMA] + i);
    SplitAt(s, i);
    SplitAt(i, []);
    assert Split(m) == [r, s, i];
    StoiOfDecimal(a.iterations);
    MakesField('r', clientNonce + suffix);
    MakesField('s', a.saltText);
    MakesField('i', DecimalBytes(a.iterations));
    AbsorbThree(r, s, i);
  }

  lemma AbsorbThree(r: Blob, s: Blob, i: Blob)
    requires IsField(r, 'r') && IsField(s, 's') && IsField(i, 'i') && Stoi(i[2..]).Some?
    ensures Absorbed([r, s, i]) == Some(Fields(r[2..], s[2..], Stoi(i[2..]).value))
  {
    hide Stoi;
    assert [r][..0] == [];
    assert Absorbed([r]) == Some(Fields(r[2..], [], 0));
    assert [r, s][..1] == [r];
    assert Absorbed([r, s]) == Some(Fields(r[2..], s[2..], 0));
    assert [r, s, i][..2] == [r, s];
  }

  lemma {:induction false} LastCommaAt(w: Blob, x: Blob)
    requires CommaFree(x)
    ensures LastComma(w + [COMMA] + x) == |w|
    decreases |x|
  {
    var s := w + [COMMA] + x;
    if x == [] {
      assert s[|s| - 1] == COMMA;
    } else {
      var x' := x[..|x| - 1];
      assert s[|s| - 1] == x[|x| - 1] && s[..|s| - 1] == w + [COMMA] + x';
      LastCommaAt(w, x');
    }
  }

  lemma SplitWithoutProof(nonce: Blob)
    requires CommaFree(nonce)
    ensures Split(WithoutProof(nonce)) == [Text("c=biws"), Text("r=") + nonce]
  {
    hide Split;
    assert WithoutProof(nonce) == Text("c=biws") + [COMMA] + (Text("r=") + nonce);
    SplitAt(Text("c=biws"), Text("r=") + nonce);
    SplitAt(Text("r=") + nonce, []);
  }

  lemma ReadBackClientFinal(nonce: Blob, proofText: Blob)
    requires CommaFree(nonce) && CommaFree(proofText)
    ensures ReadClientFinal(FinalMessage(nonce, proofText), nonce)
         == Some(Final(WithoutProof(nonce), proofText))
  {
    hide WithoutProof, Split, LastComma, Text;
    Separators();
    Keywords();
    MakesField('p', proofText);
    var without, last := WithoutProof(nonce), Text("p=") + proofText;
    var m := without + Text(",p=") + proofText;
    assert m == without + [COMMA] + last;
    LastCommaAt(without, last);
    assert m[..|without|] == without && m[|without| + 1..] == last;
    SplitWithoutProof(nonce);
  }

  /** The server gets the key that it stored out of the client's proof. */
  lemma ProofIsAccepted(k: Crypto, d: Digest, salted: Blob, authMessage: Blob)
    requires Lawful(k)
    ensures var p := Proof(k, d, salted, authMessage);
      p.Some? && CommaFree(k.encode(p.value)) && ProofHolds(k, d, StoredKey(k, d, salted), authMessage, k.encode(p.value))
  {
    hide Xored, IsXor;
    XoredBack(ClientKey(k, d, salted), k.hmac(d, StoredKey(k, d, salted), authMessage));
  }

  /** Both sides put the same message together. */
  lemma SameMessage(bare: Blob, serverFirst: Blob, without: Blob)
    ensures AuthMessage(bare, serverFirst, without) == Signed(bare, serverFirst, without)
  {
  }

  lemma ClientFinalMade(k: Crypto, d: Digest, a: Account, password: Blob, bare: Blob, serverFirst: Blob, nonce: Blob)
    returns (salted: Blob)
    requires Lawful(k) && Enrolled(k, d, a, password)
    ensures a.storedKey == StoredKey(k, d, salted)
    ensures var proof := Proof(k, d, salted, AuthMessage(bare, serverFirst, WithoutProof(nonce)));
      && proof.Some?
      && ClientFinal(k, d, password, bare, serverFirst, Fields(nonce, a.saltText, a.iterations))
         == Some(FinalMessage(nonce, k.encode(proof.value)))
  {
    hide WithoutProof, FinalMessage, Proof, StoredKey, AuthMessage, Text, IsXor, ProofHolds;
    salted := k.derive(d, password, a.salt, a.iterations).value;
    KeysOfTheStandard(k, d, salted);
    ProofIsAccepted(k, d, salted, AuthMessage(bare, serverFirst, WithoutProof(nonce)));
  }

  /** The server accepts the client-final message, and answers with its signature. */
  lemma ClientAccepted(k: Crypto, d: Digest, a: Account, password: Blob, bare: Blob, serverFirst: Blob, nonce: Blob)
    requires Lawful(k) && Enrolled(k, d, a, password) && CommaFree(nonce)
    ensures var m := ClientFinal(k, d, password, bare, serverFirst, Fields(nonce, a.saltText, a.iterations));
      && m.Some?
      && ServerFinal(k, d, a, bare, serverFirst, nonce, m.value)
         == Some(ServerSignature(k, d, a, AuthMessage(bare, serverFirst, WithoutProof(nonce))))
  {
    hide ClientFinal, FinalMessage, WithoutProof, ReadClientFinal, ProofHolds, Proof, StoredKey, ServerSignature, AuthMessage, Signed, Text,
      Enrolled;
    var salted := ClientFinalMade(k, d, a, password, bare, serverFirst, nonce);
    var authMessage := AuthMessage(bare, serverFirst, WithoutProof(nonce));
    SameMessage(bare, serverFirst, WithoutProof(nonce));
    ProofIsAccepted(k, d, salted, authMessage);
    ReadBackClientFinal(nonce, k.encode(Proof(k, d, salted, authMessage).value));
  }

  lemma SignatureAccepted(k: Crypto, d: Digest, a: Account, password: Blob, authMessage: Blob, f: Fields)
    requires Lawful(k) && Enrolled(k, d, a, password) && f.salt == a.saltText && f.iterations == a.iterations
    ensures Verify(k, d, ServerSignature(k, d, a, authMessage), password, authMessage, f) == Some(true)
  {
    hide Text, ServerKey;
    KeysOfTheStandard(k, d, k.derive(d, password, a.salt, a.iterations).value);
    MakesField('v', k.encode(k.hmac(d, a.serverKey, authMessage)));
  }
}
