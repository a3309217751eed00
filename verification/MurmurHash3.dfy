/** The MurmurHash3 x64 variant of src/hash/MurmurHash3.cpp, on 64-bit wrap-around words. */
module MurmurHash3 {

  /** Keys as the hash sees them: eight bits a byte. */
  type Octets = seq<bv8>

  /** What one round hands to the next. `k1` and `k2` of the source's State are overwritten
      before every round, so they are arguments of the round instead. */
  datatype Mix = Mix(h1: bv64, h2: bv64, c1: bv64, c2: bv64)

  function Mul(a: bv64, b: bv64): bv64 { a * b }

  function Add(a: bv64, b: bv64): bv64 { a + b }

  function Xor(a: bv64, b: bv64): bv64 { a ^ b }

  function Rotl23(x: bv64): bv64 { (x << 23) | (x >> 41) }

  function Rotl41(x: bv64): bv64 { (x << 41) | (x >> 23) }

  /** What happens to one half of a block before it meets the hash. */
  function Scramble(k: bv64, a: bv64, b: bv64): bv64 { Mul(Rotl23(Mul(k, a)), b) }

  function Next1(c: bv64): bv64 { Add(Mul(c, 5), 0x7b7d159c) }

  function Next2(c: bv64): bv64 { Add(Mul(c, 5), 0x6bce6396) }

  function Spread1(h: bv64): bv64 { Add(Mul(h, 3), 0x52dce729) }

  function Spread2(h: bv64): bv64 { Add(Mul(h, 3), 0x38495ab5) }

  function Fold1(m: Mix, s1: bv64): bv64 { Add(Xor(m.h1, s1), m.h2) }

  function Fold2(m: Mix, s2: bv64, f1: bv64): bv64 { Add(Xor(Rotl41(m.h2), s2), f1) }

  /** One call of bmix, as a function. */
  function Round(m: Mix, k1: bv64, k2: bv64): Mix {
    var f1 := Fold1(m, Scramble(k1, m.c1, m.c2));
    var f2 := Fold2(m, Scramble(k2, m.c2, m.c1), f1);
    Mix(Spread1(f1), Spread2(f2), Next1(m.c1), Next2(m.c2))
  }

  function XorShift(k: bv64): bv64 { k ^ (k >> 33) }

  function Fmix(k: bv64): bv64 {
    XorShift(Mul(XorShift(Mul(XorShift(k), 0xff51afd7ed558ccd)), 0xc4ceb9fe1a85ec53))
  }

  /** Java's widening of a signed byte: cast to int8_t, then to int64_t. */
  function SignExtend(b: bv8): bv64 {
    if b & 0x80 != 0 then (b as bv64) | 0xFFFF_FFFF_FFFF_FF00 else b as bv64
  }

  function Word(b0: bv8, b1: bv8, b2: bv8, b3: bv8, b4: bv8, b5: bv8, b6: bv8, b7: bv8): bv64 {
    (b0 as bv64) | ((b1 as bv64) << 8) | ((b2 as bv64) << 16) | ((b3 as bv64) << 24)
    | ((b4 as bv64) << 32) | ((b5 as bv64) << 40) | ((b6 as bv64) << 48) | ((b7 as bv64) << 56)
  }

  function GetBlock(key: Octets, i: nat): bv64
    requires i + 8 <= |key|
  {
    Word(key[i], key[i + 1], key[i + 2], key[i + 3], key[i + 4], key[i + 5], key[i + 6], key[i + 7])
  }

  const C1: bv64 := 0x87c37b91114253d5
  const C2: bv64 := 0x4cf5ad432745937f

  function Start(seed: bv64): Mix {
    Mix(0x9368e53c2f6af274 ^ seed, 0x586dcd208f7cd3fd ^ seed, C1, C2)
  }

  /** The state after the first `n` whole blocks. */
  function Rounds(key: Octets, n: nat, seed: bv64): Mix
    requires 16 * n <= |key|
  {
    if n == 0 then Start(seed)
    else Round(Rounds(key, n - 1, seed), GetBlock(key, 16 * (n - 1)), GetBlock(key, 16 * (n - 1) + 8))
  }

  /** How far the switch shifts byte `i` of a word. */
  function Shift(i: nat): (s: bv8)
    ensures s <= 56
  {
    if i == 0 then 0 else if i == 1 then 8 else if i == 2 then 16 else if i == 3 then 24
    else if i == 4 then 32 else if i == 5 then 40 else if i == 6 then 48 else 56
  }

  function Shl(x: bv64, s: bv8): bv64
    requires s <= 56
  {
    x << s
  }

  function Lift(b: bv8, s: bv8): bv64
    requires s <= 56
  {
    Shl(SignExtend(b), s)
  }

  /** What bytes `i` and up contribute to the word that the fall-through switch builds. */
  function Pack(t: Octets, i: nat): bv64
    decreases |t| - i
  {
    if i < |t| then Xor(Lift(t[i], Shift(i)), Pack(t, i + 1)) else 0
  }

  function Low(t: Octets): Octets { if |t| <= 8 then t else t[..8] }

  function High(t: Octets): Octets { if |t| <= 8 then [] else t[8..] }

  function Tail(key: Octets): Octets { key[16 * (|key| / 16)..] }

  /** The state after every byte of the key has been absorbed. */
  function Absorbed(key: Octets, seed: bv64): Mix {
    var m := Rounds(key, |key| / 16, seed);
    var t := Tail(key);
    if t == [] then m else Round(m, Pack(Low(t), 0), Pack(High(t), 0))
  }

  function Finish(h1: bv64, h2: bv64, size: bv64): (bv64, bv64) {
    var x1 := Add(h1, Xor(h2, size));
    var x2 := Add(Xor(h2, size), x1);
    var y1 := Add(Fmix(x1), Fmix(x2));
    (y1, Add(Fmix(x2), y1))
  }

  /** Sizes of C++ vectors are 64-bit. */
  function Size(key: Octets): bv64 { Word64(|key| % 0x1_0000_0000_0000_0000) }

  function Word64(n: int): bv64
    requires 0 <= n < 0x1_0000_0000_0000_0000
  {
    n as bv64
  }

  function Hash128(key: Octets, seed: bv64): (bv64, bv64) {
    var m := Absorbed(key, seed);
    Finish(m.h1, m.h2, Size(key))
  }

  /** hash32: the upper half of the first word. */
  function Hash32(key: Octets, seed: bv64): bv32 {
    (Hash128(key, seed).0 >> 32) as bv32
  }

  // ----- The same, as the source computes it -----

  /** The source's State: rewritten in place by every round. */
  class State {
    var h1: bv64
    var h2: bv64
    var k1: bv64
    var k2: bv64
    var c1: bv64
    var c2: bv64

    ghost function Mixed(): Mix
      reads this
    {
      Mix(h1, h2, c1, c2)
    }

    constructor (seed: bv64)
      ensures Mixed() == Start(seed)
    {
      h1, h2 := 0x9368e53c2f6af274 ^ seed, 0x586dcd208f7cd3fd ^ seed;
      k1, k2 := 0, 0;
      c1, c2 := C1, C2;
    }

    method BMix()
      modifies this
      ensures Mixed() == Round(old(Mixed()), old(k1), old(k2))
    {
      hide Mul, Add, Xor, Rotl23, Rotl41;
      k1 := Mul(k1, c1);
      k1 := Rotl23(k1);
      k1 := Mul(k1, c2);
      h1 := Xor(h1, k1);
      h1 := Add(h1, h2);

      h2 := Rotl41(h2);

      k2 := Mul(k2, c2);
      k2 := Rotl23(k2);
      k2 := Mul(k2, c1);
      h2 := Xor(h2, k2);
      h2 := Add(h2, h1);

      h1 := Add(Mul(h1, 3), 0x52dce729);
      h2 := Add(Mul(h2, 3), 0x38495ab5);

      c1 := Add(Mul(c1, 5), 0x7b7d159c);
      c2 := Add(Mul(c2, 5), 0x6bce6396);
    }
  }

  /** One label of the fall-through switch: it acts when the tail has a byte `i`. */
  method Label(k: bv64, t: Octets, i: nat) returns (r: bv64)
    requires i < 8 && k == Pack(t, i + 1)
    ensures r == Pack(t, i)
  {
    hide Xor, Lift, Shift;
    r := k;
    if i < |t| {
      XorCommutes(k, Lift(t[i], Shift(i)));
      r := Xor(r, Lift(t[i], Shift(i)));
    }
  }

  lemma XorCommutes(a: bv64, b: bv64)
    ensures Xor(a, b) == Xor(b, a)
  {
  }

  /** The switch over `key.size() & 15`: every label from the highest byte present down. */
  method TailWord(t: Octets) returns (k: bv64)
    requires |t| <= 8
    ensures k == Pack(t, 0)
  {
    hide Xor, Lift, Shift;
    k := Label(0, t, 7);
    k := Label(k, t, 6);
    k := Label(k, t, 5);
    k := Label(k, t, 4);
    k := Label(k, t, 3);
    k := Label(k, t, 2);
    k := Label(k, t, 1);
    k := Label(k, t, 0);
  }

  method ComputeHash128(key: Octets, seed: bv64) returns (h1: bv64, h2: bv64)
    ensures (h1, h2) == Hash128(key, seed)
  {
    hide Round, Pack, Fmix, Add, Xor, GetBlock, Start, Size;
    var state := new State(seed);
    for i := 0 to |key| / 16
      invariant state.Mixed() == Rounds(key, i, seed)
    {
      state.k1 := GetBlock(key, 16 * i);
      state.k2 := GetBlock(key, 16 * i + 8);
      state.BMix();
    }

    var tail := key[16 * (|key| / 16)..];
    if tail != [] {
      state.k2 := TailWord(High(tail));
      state.k1 := TailWord(Low(tail));
      state.BMix();
    }

    state.h2 := Xor(state.h2, Size(key));

    state.h1 := Add(state.h1, state.h2);
    state.h2 := Add(state.h2, state.h1);

    state.h1 := Fmix(state.h1);
    state.h2 := Fmix(state.h2);

    state.h1 := Add(state.h1, state.h2);
    state.h2 := Add(state.h2, state.h1);
    h1, h2 := state.h1, state.h2;
  }

  method ComputeHash32(key: Octets, seed: bv64) returns (h: bv32)
    ensures h == Hash32(key, seed)
  {
    hide Hash128;
    var h64, _ := ComputeHash128(key, seed);
    h := (h64 >> 32) as bv32;
  }

  // ----- Every step of a round loses nothing -----
  //
  // The bit-level facts are proved on the raw operators; the lemmas that combine them hide the
  // operators' bodies, so that they reason about equal words and never about bits.

  predicate Odd(c: bv64) { c & 1 == 1 }

  function Sub(a: bv64, b: bv64): bv64 { a - b }

  lemma OddTimesZero(d: bv64, c: bv64)
    requires Odd(c) && Mul(d, c) == 0
    ensures d == 0
  {
  }

  lemma Unfold(a: bv64, b: bv64)
    ensures Mul(a, b) == a * b && Add(a, b) == a + b
  {
  }

  lemma RawDistributes(b: bv64, d: bv64, c: bv64)
    ensures Mul(b + d, c) == Add(b * c, d * c)
  {
  }

  lemma Distributes(b: bv64, d: bv64, c: bv64)
    ensures Mul(Add(b, d), c) == Add(Mul(b, c), Mul(d, c))
  {
    hide *;
    RawDistributes(b, d, c);
    Unfold(b, c);
    Unfold(d, c);
    Unfold(b, d);
  }

  lemma AddBack(a: bv64, b: bv64)
    ensures Sub(Add(a, b), b) == a && Sub(Add(b, a), b) == a
  {
  }

  lemma SubBack(a: bv64, b: bv64)
    ensures Add(b, Sub(a, b)) == a && Sub(b, b) == 0
  {
  }

  lemma AddZero(a: bv64)
    ensures Add(a, 0) == a
  {
  }

  /** Multiplying by an odd word is injective, whatever the word. */
  lemma OddInjective(a: bv64, b: bv64, c: bv64)
    requires Odd(c) && Mul(a, c) == Mul(b, c)
    ensures a == b
  {
    hide *;
    var d := Sub(a, b);
    SubBack(a, b);
    Distributes(b, d, c);
    AddBack(Mul(d, c), Mul(b, c));
    SubBack(Mul(b, c), Mul(b, c));
    OddTimesZero(d, c);
    AddZero(b);
  }

  lemma StaysOdd(c: bv64)
    requires Odd(c)
    ensures Odd(Next1(c)) && Odd(Next2(c))
  {
  }

  function Rotr23(x: bv64): bv64 { (x >> 23) | (x << 41) }

  function Rotr41(x: bv64): bv64 { (x >> 41) | (x << 23) }

  lemma RotateBack(x: bv64)
    ensures Rotr23(Rotl23(x)) == x && Rotr41(Rotl41(x)) == x
  {
  }

  lemma XorShiftTwice(x: bv64)
    ensures (x ^ (x >> 33)) ^ ((x ^ (x >> 33)) >> 33) == x
  {
  }

  lemma XorShiftUnfolds(x: bv64)
    ensures XorShift(x) == x ^ (x >> 33)
    ensures XorShift(x ^ (x >> 33)) == x
  {
    XorShiftTwice(x);
  }

  lemma XorShiftBack(x: bv64)
    ensures XorShift(XorShift(x)) == x
  {
    hide *;
    XorShiftUnfolds(x);
  }

  lemma XorBack(a: bv64, b: bv64)
    ensures Xor(Xor(a, b), b) == a && Xor(b, Xor(b, a)) == a
  {
  }

  lemma ScrambleInjective(k: bv64, l: bv64, a: bv64, b: bv64)
    requires Odd(a) && Odd(b) && Scramble(k, a, b) == Scramble(l, a, b)
    ensures k == l
  {
    hide Mul, Rotl23, Odd, Rotr23;
    OddInjective(Rotl23(Mul(k, a)), Rotl23(Mul(l, a)), b);
    RotateBack(Mul(k, a));
    RotateBack(Mul(l, a));
    OddInjective(k, l, a);
  }

  lemma ThreeIsOdd()
    ensures Odd(3) && Odd(0xff51afd7ed558ccd) && Odd(0xc4ceb9fe1a85ec53) && Odd(C1) && Odd(C2)
  {
  }

  lemma SpreadInjective(a: bv64, b: bv64)
    ensures Spread1(a) == Spread1(b) ==> a == b
    ensures Spread2(a) == Spread2(b) ==> a == b
  {
    hide Mul, Add, Odd, Sub;
    AddBack(Mul(a, 3), 0x52dce729);
    AddBack(Mul(b, 3), 0x52dce729);
    AddBack(Mul(a, 3), 0x38495ab5);
    AddBack(Mul(b, 3), 0x38495ab5);
    ThreeIsOdd();
    if Mul(a, 3) == Mul(b, 3) {
      OddInjective(a, b, 3);
    }
  }

  lemma FmixInjective(a: bv64, b: bv64)
    requires Fmix(a) == Fmix(b)
    ensures a == b
  {
    hide Mul, XorShift, Odd;
    var p, q := Mul(XorShift(a), 0xff51afd7ed558ccd), Mul(XorShift(b), 0xff51afd7ed558ccd);
    XorShiftBack(Mul(XorShift(p), 0xc4ceb9fe1a85ec53));
    XorShiftBack(Mul(XorShift(q), 0xc4ceb9fe1a85ec53));
    ThreeIsOdd();
    OddInjective(XorShift(p), XorShift(q), 0xc4ceb9fe1a85ec53);
    XorShiftBack(p);
    XorShiftBack(q);
    OddInjective(XorShift(a), XorShift(b), 0xff51afd7ed558ccd);
    XorShiftBack(a);
    XorShiftBack(b);
  }

  // ----- A whole round, and the finalization -----

  predicate SameMultipliers(m: Mix, n: Mix) { m.c1 == n.c1 && m.c2 == n.c2 }

  predicate OddMultipliers(m: Mix) { Odd(m.c1) && Odd(m.c2) }

  /** Equal results of the two folds: what entered them can differ only in both the hash words
      and the scrambled block, never in one of the two alone. */
  lemma FoldInjective(m: Mix, n: Mix, s1: bv64, t1: bv64, s2: bv64, t2: bv64)
    requires Fold1(m, s1) == Fold1(n, t1)
    requires Fold2(m, s2, Fold1(m, s1)) == Fold2(n, t2, Fold1(n, t1))
    ensures s1 == t1 && s2 == t2 ==> m.h1 == n.h1 && m.h2 == n.h2
    ensures m.h1 == n.h1 && m.h2 == n.h2 ==> s1 == t1 && s2 == t2
  {
    hide Xor, Add, Rotl41, Sub, Rotr41;
    AddBack(Xor(Rotl41(m.h2), s2), Fold1(m, s1));
    AddBack(Xor(Rotl41(n.h2), t2), Fold1(n, t1));
    XorBack(Rotl41(m.h2), s2);
    XorBack(Rotl41(n.h2), t2);
    XorBack(s2, Rotl41(m.h2));
    XorBack(t2, Rotl41(n.h2));
    RotateBack(m.h2);
    RotateBack(n.h2);
    AddBack(Xor(m.h1, s1), m.h2);
    AddBack(Xor(n.h1, t1), n.h2);
    XorBack(m.h1, s1);
    XorBack(n.h1, t1);
    XorBack(s1, m.h1);
    XorBack(t1, n.h1);
  }

  /** bmix is injective in (h1, h2) for a fixed block and in (k1, k2) for a fixed hash. */
  lemma RoundInjective(m: Mix, n: Mix, k1: bv64, k2: bv64, l1: bv64, l2: bv64)
    requires SameMultipliers(m, n) && OddMultipliers(m)
    requires Round(m, k1, k2) == Round(n, l1, l2)
    ensures k1 == l1 && k2 == l2 ==> m == n
    ensures m == n ==> k1 == l1 && k2 == l2
  {
    hide Scramble, Fold1, Fold2, Spread1, Spread2, Next1, Next2, Odd;
    var s1, t1 := Scramble(k1, m.c1, m.c2), Scramble(l1, n.c1, n.c2);
    var s2, t2 := Scramble(k2, m.c2, m.c1), Scramble(l2, n.c2, n.c1);
    SpreadInjective(Fold1(m, s1), Fold1(n, t1));
    SpreadInjective(Fold2(m, s2, Fold1(m, s1)), Fold2(n, t2, Fold1(n, t1)));
    FoldInjective(m, n, s1, t1, s2, t2);
    if m == n {
      ScrambleInjective(k1, l1, m.c1, m.c2);
      ScrambleInjective(k2, l2, m.c2, m.c1);
    }
  }

  lemma SumsInjective(a: bv64, b: bv64, c: bv64, d: bv64)
    requires Add(a, b) == Add(c, d) && Add(b, Add(a, b)) == Add(d, Add(c, d))
    ensures a == c && b == d
  {
    hide *;
    AddBack(b, Add(a, b));
    AddBack(d, Add(c, d));
    AddBack(a, b);
    AddBack(c, d);
  }

  lemma FinishInjective(g1: bv64, g2: bv64, h1: bv64, h2: bv64, size: bv64)
    requires Finish(g1, g2, size) == Finish(h1, h2, size)
    ensures g1 == h1 && g2 == h2
  {
    hide Add, Xor, Fmix;
    var x1, y1 := Add(g1, Xor(g2, size)), Add(h1, Xor(h2, size));
    var x2, y2 := Add(Xor(g2, size), x1), Add(Xor(h2, size), y1);
    SumsInjective(Fmix(x1), Fmix(x2), Fmix(y1), Fmix(y2));
    FmixInjective(x1, y1);
    FmixInjective(x2, y2);
    SumsInjective(g1, Xor(g2, size), h1, Xor(h2, size));
    XorBack(g2, size);
    XorBack(h2, size);
  }

  // ----- Packing bytes into words -----

  lemma WordBytes(b0: bv8, b1: bv8, b2: bv8, b3: bv8, b4: bv8, b5: bv8, b6: bv8, b7: bv8)
    ensures var w := Word(b0, b1, b2, b3, b4, b5, b6, b7);
      && (w & 0xff) as bv8 == b0 && ((w >> 8) & 0xff) as bv8 == b1
      && ((w >> 16) & 0xff) as bv8 == b2 && ((w >> 24) & 0xff) as bv8 == b3
      && ((w >> 32) & 0xff) as bv8 == b4 && ((w >> 40) & 0xff) as bv8 == b5
      && ((w >> 48) & 0xff) as bv8 == b6 && ((w >> 56) & 0xff) as bv8 == b7
  {
  }

  lemma WordInjective(key: Octets, other: Octets, i: nat)
    requires i + 8 <= |key| && i + 8 <= |other|
    requires GetBlock(key, i) == GetBlock(other, i)
    ensures forall j :: i <= j < i + 8 ==> key[j] == other[j]
  {
    hide Word;
    WordBytes(key[i], key[i + 1], key[i + 2], key[i + 3], key[i + 4], key[i + 5], key[i + 6], key[i + 7]);
    WordBytes(other[i], other[i + 1], other[i + 2], other[i + 3],
              other[i + 4], other[i + 5], other[i + 6], other[i + 7]);
  }

  predicate Clear(r: bv64, s: bv8)
    requires s <= 56
  {
    r & ((0xff as bv64) << s) == 0
  }

  function ByteAt(w: bv64, s: bv8): bv8
    requires s <= 56
  {
    ((w >> s) & 0xff) as bv8
  }

  lemma ByteOfShifted(x: bv64, s: bv8)
    requires s <= 56
    ensures ByteAt(Shl(x, s), s) == ByteAt(x, 0)
  {
  }

  lemma ByteOfSigned(b: bv8)
    ensures ByteAt(SignExtend(b), 0) == b
  {
  }

  lemma RawUnderClear(x: bv64, r: bv64, s: bv8)
    requires s <= 56 && Clear(r, s)
    ensures ByteAt(x ^ r, s) == ByteAt(x, s)
    ensures Xor(x, r) == x ^ r
  {
  }

  lemma ByteUnderClear(x: bv64, r: bv64, s: bv8)
    requires s <= 56 && Clear(r, s)
    ensures ByteAt(Xor(x, r), s) == ByteAt(x, s)
  {
    hide *;
    RawUnderClear(x, r, s);
  }

  lemma PeelByte(b: bv8, r: bv64, s: bv8)
    requires s <= 56 && Clear(r, s)
    ensures ByteAt(Xor(Lift(b, s), r), s) == b
  {
    hide Shl, SignExtend, Xor, ByteAt, Clear;
    ByteOfSigned(b);
    ByteOfShifted(SignExtend(b), s);
    ByteUnderClear(Lift(b, s), r, s);
  }

  lemma ShlClear(x: bv64, m: bv8, s: bv8)
    requires m <= 48 && m + 8 <= s <= 56
    ensures Clear(Shl(x, s), m)
  {
  }

  lemma ShiftGap(m: nat, i: nat)
    requires m < i < 8
    ensures Shift(m) <= 48 && Shift(m) + 8 <= Shift(i)
  {
  }

  lemma LiftClear(b: bv8, m: nat, i: nat)
    requires m < i < 8
    ensures Clear(Lift(b, Shift(i)), Shift(m))
  {
    hide Shift, Shl, SignExtend, Clear;
    ShiftGap(m, i);
    ShlClear(SignExtend(b), Shift(m), Shift(i));
  }

  lemma XorClear(x: bv64, y: bv64, s: bv8)
    requires s <= 56 && Clear(x, s) && Clear(y, s)
    ensures Clear(Xor(x, y), s)
  {
  }

  lemma ZeroClear(s: bv8)
    requires s <= 56
    ensures Clear(0, s)
  {
  }

  lemma {:induction false} PackClear(t: Octets, m: nat, i: nat)
    requires m < i && |t| <= 8
    ensures Clear(Pack(t, i), Shift(m))
    decreases |t| - i
  {
    hide Lift, Xor, Shift, Clear;
    ZeroClear(Shift(m));
    if i < |t| {
      PackClear(t, m, i + 1);
      LiftClear(t[i], m, i);
      XorClear(Lift(t[i], Shift(i)), Pack(t, i + 1), Shift(m));
    }
  }

  /** Sign extension smears a byte over everything above it, and still no two tails of one
      length pack into the same word. */
  lemma {:induction false} PackInjective(t: Octets, u: Octets, i: nat)
    requires |t| == |u| <= 8 && i <= |t|
    requires Pack(t, i) == Pack(u, i)
    ensures t[i..] == u[i..]
    decreases |t| - i
  {
    hide Lift, Xor, Shift, Clear, ByteAt;
    if i < |t| {
      PackClear(t, i, i + 1);
      PackClear(u, i, i + 1);
      PeelByte(t[i], Pack(t, i + 1), Shift(i));
      PeelByte(u[i], Pack(u, i + 1), Shift(i));
      XorBack(Pack(t, i + 1), Lift(t[i], Shift(i)));
      XorBack(Pack(u, i + 1), Lift(u[i], Shift(i)));
      PackInjective(t, u, i + 1);
    }
  }

  // ----- The whole hash -----

  lemma {:induction false} MultipliersAgree(a: Octets, b: Octets, n: nat, seed: bv64)
    requires 16 * n <= |a| && 16 * n <= |b|
    ensures SameMultipliers(Rounds(a, n, seed), Rounds(b, n, seed))
    ensures OddMultipliers(Rounds(a, n, seed))
  {
    hide Fold1, Fold2, Scramble, Spread1, Spread2, Next1, Next2, Odd, GetBlock;
    if n == 0 {
      ThreeIsOdd();
    } else {
      MultipliersAgree(a, b, n - 1, seed);
      StaysOdd(Rounds(a, n - 1, seed).c1);
      StaysOdd(Rounds(a, n - 1, seed).c2);
    }
  }

  /** The keys agree outside the 16-byte block number `i` (which may be the tail). */
  ghost predicate DifferOnlyIn(a: Octets, b: Octets, i: nat) {
    |a| == |b| && forall j :: 0 <= j < |a| && j / 16 != i ==> a[j] == b[j]
  }

  lemma SameBlock(a: Octets, b: Octets, i: nat, n: nat)
    requires DifferOnlyIn(a, b, i) && n != i && 16 * n + 16 <= |a|
    ensures GetBlock(a, 16 * n) == GetBlock(b, 16 * n)
    ensures GetBlock(a, 16 * n + 8) == GetBlock(b, 16 * n + 8)
  {
    hide Word;
    assert forall j :: 16 * n <= j < 16 * n + 16 ==> j / 16 == n && a[j] == b[j];
  }

  lemma WholeBlock(a: Octets, b: Octets, i: nat)
    requires DifferOnlyIn(a, b, i) && 16 * i + 16 <= |a|
    requires GetBlock(a, 16 * i) == GetBlock(b, 16 * i)
    requires GetBlock(a, 16 * i + 8) == GetBlock(b, 16 * i + 8)
    ensures a == b
  {
    hide GetBlock;
    WordInjective(a, b, 16 * i);
    WordInjective(a, b, 16 * i + 8);
  }

  /** Two keys that differ in one block share their hash words up to that block, and if they
      ever share them again they are the same key. */
  lemma {:induction false} RoundsMeet(a: Octets, b: Octets, i: nat, n: nat, seed: bv64)
    requires DifferOnlyIn(a, b, i) && 16 * n <= |a|
    ensures n <= i ==> Rounds(a, n, seed) == Rounds(b, n, seed)
    ensures n > i && Rounds(a, n, seed) == Rounds(b, n, seed) ==> a == b
  {
    hide Round, GetBlock, SameMultipliers, OddMultipliers;
    if n > 0 {
      var m := n - 1;
      RoundsMeet(a, b, i, m, seed);
      MultipliersAgree(a, b, m, seed);
      if m != i {
        SameBlock(a, b, i, m);
      }
      if n > i && Rounds(a, n, seed) == Rounds(b, n, seed) {
        RoundInjective(Rounds(a, m, seed), Rounds(b, m, seed),
                       GetBlock(a, 16 * m), GetBlock(a, 16 * m + 8),
                       GetBlock(b, 16 * m), GetBlock(b, 16 * m + 8));
        if m == i {
          WholeBlock(a, b, i);
        }
      }
    }
  }

  lemma Tails(a: Octets, b: Octets, i: nat)
    requires DifferOnlyIn(a, b, i)
    ensures |Tail(a)| == |Tail(b)| < 16
    ensures i != |a| / 16 ==> Tail(a) == Tail(b)
    ensures i == |a| / 16 && Tail(a) == Tail(b) ==> a == b
  {
    var k := 16 * (|a| / 16);
    forall j | k <= j < |a| ensures j / 16 == |a| / 16 { }
    if i != |a| / 16 {
      assert a[k..] == b[k..];
    } else {
      forall j | 0 <= j < k ensures a[j] == b[j] {
        assert j / 16 < |a| / 16;
      }
      assert a == a[..k] + a[k..] && b == b[..k] + b[k..];
      assert a[..k] == b[..k];
    }
  }

  lemma TailPacks(t: Octets, u: Octets)
    requires |t| == |u| < 16 && Pack(Low(t), 0) == Pack(Low(u), 0) && Pack(High(t), 0) == Pack(High(u), 0)
    ensures t == u
  {
    hide Pack;
    PackInjective(Low(t), Low(u), 0);
    PackInjective(High(t), High(u), 0);
    assert t == Low(t) + High(t) && u == Low(u) + High(u);
  }

  lemma SameLength(a: Octets, b: Octets, i: nat)
    requires DifferOnlyIn(a, b, i)
    ensures |a| == |b|
  {
  }

  lemma AbsorbedMeet(a: Octets, b: Octets, i: nat, seed: bv64)
    requires DifferOnlyIn(a, b, i) && i <= |a| / 16
    requires Absorbed(a, seed) == Absorbed(b, seed)
    ensures a == b
  {
    hide Round, Pack, Tail, SameMultipliers, OddMultipliers, DifferOnlyIn, Low, High, Rounds;
    SameLength(a, b, i);
    var n := |a| / 16;
    var t, u := Tail(a), Tail(b);
    Tails(a, b, i);
    RoundsMeet(a, b, i, n, seed);
    MultipliersAgree(a, b, n, seed);
    if t != [] {
      RoundInjective(Rounds(a, n, seed), Rounds(b, n, seed),
                     Pack(Low(t), 0), Pack(High(t), 0), Pack(Low(u), 0), Pack(High(u), 0));
      if i == n {
        TailPacks(t, u);
      }
    }
  }

  lemma AbsorbedMultipliers(a: Octets, b: Octets, seed: bv64)
    requires |a| == |b|
    ensures SameMultipliers(Absorbed(a, seed), Absorbed(b, seed))
  {
    hide Fold1, Fold2, Scramble, Spread1, Spread2, Next1, Next2, Odd, GetBlock, Rounds, Pack, Low, High;
    MultipliersAgree(a, b, |a| / 16, seed);
  }

  /** Collision-freedom: two keys of one length that agree outside one 16-byte block, or outside
      the tail, have the same 128-bit hash only if they are the same key. */
  lemma NoCollision(a: Octets, b: Octets, i: nat, seed: bv64)
    requires DifferOnlyIn(a, b, i) && i <= |a| / 16
    requires Hash128(a, seed) == Hash128(b, seed)
    ensures a == b
  {
    hide Absorbed, DifferOnlyIn, Finish;
    SameLength(a, b, i);
    var m, n := Absorbed(a, seed), Absorbed(b, seed);
    FinishInjective(m.h1, m.h2, n.h1, n.h2, Size(a));
    AbsorbedMultipliers(a, b, seed);
    AbsorbedMeet(a, b, i, seed);
  }

  /** On keys of one length up to 16 the 128-bit hash is injective. */
  lemma ShortKeysInjective(a: Octets, b: Octets, seed: bv64)
    requires |a| == |b| <= 16
    ensures Hash128(a, seed) == Hash128(b, seed) <==> a == b
  {
    hide Hash128, Hash32;
    if Hash128(a, seed) == Hash128(b, seed) {
      assert DifferOnlyIn(a, b, 0);
      NoCollision(a, b, 0, seed);
    }
  }
}
