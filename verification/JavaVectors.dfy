/** Values computed by the Java implementation, which the client must reproduce to find the owners
    of a key (tests/unit/MurmurHash3Test.cpp). They pin every constant of the hash. */
module JavaVectors {
  import opened Bytes
  import Hashing = ConsistentHashing
  import opened MurmurHash3

  const SEED: bv64 := 9001

  lemma Seeded()
    ensures Start(SEED) == Mix(0x9368e53c2f6ad15d, 0x586dcd208f7cf0d4, 0x87c37b91114253d5, 0x4cf5ad432745937f)
  {
  }

  lemma Size43()
    ensures Word64(43) == 43
  {
  }

  lemma Size5()
    ensures Word64(5) == 5
  {
  }

  lemma UpperHalf(key: Octets)
    ensures Hash128(key, SEED).0 == 0x3e94e0eb9faf3b4f ==> Hash32(key, SEED) == 1049944299
    ensures Hash128(key, SEED).0 == 0x9f35c96dcf47c036 ==> Hash32(key, SEED) == 0x9f35c96d
  {
    hide Hash128;
  }

  /** "The quick brown fox jumps over the lazy dog": two blocks and a tail of eleven bytes. */
  const FOX: Octets := FOX_1 + (FOX_2 + FOX_3)

  const FOX_1: Octets := [84, 104, 101, 32, 113, 117, 105, 99, 107, 32, 98, 114, 111, 119, 110, 32]
  const FOX_2: Octets := [102, 111, 120, 32, 106, 117, 109, 112, 115, 32, 111, 118, 101, 114, 32, 116]
  const FOX_3: Octets := [104, 101, 32, 108, 97, 122, 121, 32, 100, 111, 103]

  /** "cafe" with an acute accent, in UTF-8: a tail whose last two bytes are negative in Java. */
  const CAFE: Octets := [99, 97, 102, 195, 169]

  lemma FoxFirstRound()
    ensures Round(Mix(0x9368e53c2f6ad15d, 0x586dcd208f7cf0d4, 0x87c37b91114253d5, 0x4cf5ad432745937f),
                  0x6369757120656854, 0x206e776f7262206b)
         == Mix(0x7e4b8e80c41ab721, 0xa0465119cf5d286f, 0xa6d169d5d1c8b8c5, 0x80cc6250302a4511)
  {
  }

  lemma FoxSecondRound()
    ensures Round(Mix(0x7e4b8e80c41ab721, 0xa0465119cf5d286f, 0xa6d169d5d1c8b8c5, 0x80cc6250302a4511),
                  0x706d756a20786f66, 0x74207265766f2073)
         == Mix(0xefbe0c60d1326b9d, 0x9520b92e0400a6c8, 0x4217112d9468b175, 0x83fdeb915ca1bceb)
  {
  }

  lemma FoxLastRound()
    ensures Round(Mix(0xefbe0c60d1326b9d, 0x9520b92e0400a6c8, 0x4217112d9468b175, 0x83fdeb915ca1bceb),
                  0x20797a616c206568, 0x676f64)
         == Mix(0x1c65cc78c3cd7cce, 0xb69c4ce053a1cb1a, 0x4a7355e461888ce5, 0x93f599d73af7142d)
  {
  }

  lemma FoxFinish()
    ensures Finish(0x1c65cc78c3cd7cce, 0xb69c4ce053a1cb1a, 43) == (0x3e94e0eb9faf3b4f, 0xb7b389745401bcd0)
  {
  }

  lemma FoxWords()
    ensures Word(84, 104, 101, 32, 113, 117, 105, 99) == 0x6369757120656854
    ensures Word(107, 32, 98, 114, 111, 119, 110, 32) == 0x206e776f7262206b
    ensures Word(102, 111, 120, 32, 106, 117, 109, 112) == 0x706d756a20786f66
    ensures Word(115, 32, 111, 118, 101, 114, 32, 116) == 0x74207265766f2073
  {
  }

  lemma FoxBlocks()
    ensures GetBlock(FOX_1, 0) == 0x6369757120656854 && GetBlock(FOX_1, 8) == 0x206e776f7262206b
    ensures GetBlock(FOX_2, 0) == 0x706d756a20786f66 && GetBlock(FOX_2, 8) == 0x74207265766f2073
  {
    hide Word;
    FoxWords();
  }

  lemma BlockWithin(before: Octets, block: Octets, after: Octets, i: nat)
    requires i + 8 <= |block|
    ensures GetBlock(before + (block + after), |before| + i) == GetBlock(block, i)
  {
    hide Word;
    var key := before + (block + after);
    assert forall j :: 0 <= j < |block| ==> key[|before| + j] == block[j];
  }

  lemma FoxLayout()
    ensures |FOX| == 43
    ensures GetBlock(FOX, 0) == 0x6369757120656854 && GetBlock(FOX, 8) == 0x206e776f7262206b
    ensures GetBlock(FOX, 16) == 0x706d756a20786f66 && GetBlock(FOX, 24) == 0x74207265766f2073
    ensures Tail(FOX) == FOX_3
  {
    hide GetBlock;
    FoxBlocks();
    assert FOX == [] + (FOX_1 + (FOX_2 + FOX_3));
    BlockWithin([], FOX_1, FOX_2 + FOX_3, 0);
    BlockWithin([], FOX_1, FOX_2 + FOX_3, 8);
    BlockWithin(FOX_1, FOX_2, FOX_3, 0);
    BlockWithin(FOX_1, FOX_2, FOX_3, 8);
    assert FOX[32..] == FOX_3;
  }

  lemma FoxTail()
    ensures Low(FOX_3) == [104, 101, 32, 108, 97, 122, 121, 32] && High(FOX_3) == [100, 111, 103]
  {
  }

  lemma FoxLifts()
    ensures Lift(104, Shift(0)) == 0x68 && Lift(101, Shift(1)) == 0x6500
    ensures Lift(32, Shift(2)) == 0x200000 && Lift(108, Shift(3)) == 0x6c000000
    ensures Lift(97, Shift(4)) == 0x6100000000 && Lift(122, Shift(5)) == 0x7a0000000000
    ensures Lift(121, Shift(6)) == 0x79000000000000 && Lift(32, Shift(7)) == 0x2000000000000000
  {
  }

  lemma FoxLowPack()
    ensures Pack([104, 101, 32, 108, 97, 122, 121, 32], 0) == 0x20797a616c206568
  {
    hide Lift, Shift;
    FoxLifts();
    var t: Octets := [104, 101, 32, 108, 97, 122, 121, 32];
    assert Pack(t, 8) == 0;
    assert Pack(t, 7) == 0x2000000000000000;
    assert Pack(t, 6) == 0x2079000000000000;
    assert Pack(t, 5) == 0x20797a0000000000;
    assert Pack(t, 4) == 0x20797a6100000000;
    assert Pack(t, 3) == 0x20797a616c000000;
    assert Pack(t, 2) == 0x20797a616c200000;
    assert Pack(t, 1) == 0x20797a616c206500;
    assert Pack(t, 0) == 0x20797a616c206568;
  }

  lemma FoxHighPack()
    ensures Pack([100, 111, 103], 0) == 0x676f64
  {
  }

  lemma Fox()
    ensures Hash128(FOX, SEED) == (0x3e94e0eb9faf3b4f, 0xb7b389745401bcd0) && Hash32(FOX, SEED) == 1049944299
  {
    hide Round, Finish, Pack, GetBlock, Start, Word64, Hash32, Low, High, Tail;
    Seeded();
    Size43();
    UpperHalf(FOX);
    FoxLayout();
    FoxTail();
    FoxLowPack();
    FoxHighPack();
    FoxFirstRound();
    FoxSecondRound();
    FoxLastRound();
    FoxFinish();
    assert Rounds(FOX, 1, SEED) == Mix(0x7e4b8e80c41ab721, 0xa0465119cf5d286f, 0xa6d169d5d1c8b8c5, 0x80cc6250302a4511);
    assert Rounds(FOX, 2, SEED) == Mix(0xefbe0c60d1326b9d, 0x9520b92e0400a6c8, 0x4217112d9468b175, 0x83fdeb915ca1bceb);
  }

  lemma CafePack()
    ensures Pack(CAFE, 0) == 0x56c3666163 && Pack([], 0) == 0
  {
  }

  lemma CafeRound()
    ensures Round(Mix(0x9368e53c2f6ad15d, 0x586dcd208f7cf0d4, 0x87c37b91114253d5, 0x4cf5ad432745937f), 0x56c3666163, 0)
         == Mix(0xef2a65a41c65b1b4, 0xdccf5fb694a0e89a, 0xa6d169d5d1c8b8c5, 0x80cc6250302a4511)
  {
  }

  lemma CafeFinish()
    ensures Finish(0xef2a65a41c65b1b4, 0xdccf5fb694a0e89a, 5) == (0x9f35c96dcf47c036, 0xd28399f43a51482)
  {
  }

  /** As a signed 32-bit value this is -1623864979. */
  lemma Cafe()
    ensures Hash128(CAFE, SEED) == (0x9f35c96dcf47c036, 0xd28399f43a51482) && Hash32(CAFE, SEED) == 0x9f35c96d
  {
    hide Round, Finish, Pack, Start, Word64, Hash32;
    Seeded();
    Size5();
    UpperHalf(CAFE);
    assert Tail(CAFE) == CAFE;
    CafePack();
    CafeRound();
    CafeFinish();
  }

  // ----- The same for the keys of a cache -----

  const FOX_KEY: Blob := FOX_KEY_1 + (FOX_KEY_2 + FOX_KEY_3)

  const FOX_KEY_1: Blob := [84, 104, 101, 32, 113, 117, 105, 99, 107, 32, 98, 114, 111, 119, 110, 32]
  const FOX_KEY_2: Blob := [102, 111, 120, 32, 106, 117, 109, 112, 115, 32, 111, 118, 101, 114, 32, 116]
  const FOX_KEY_3: Blob := [104, 101, 32, 108, 97, 122, 121, 32, 100, 111, 103]

  const CAFE_KEY: Blob := [99, 97, 102, 195, 169]

  lemma OctetsMeet(key: Blob, octets: Octets)
    requires |key| == |octets| && forall i :: 0 <= i < |key| ==> octets[i] as int == key[i]
    ensures Hashing.Octets(key) == octets
  {
    hide Bits;
    forall i | 0 <= i < |key| ensures Hashing.Octets(key)[i] == octets[i] {
      BitsBack(octets[i]);
    }
  }

  lemma FoxFirstOctets()
    ensures Hashing.Octets(FOX_KEY_1) == FOX_1
  {
    OctetsMeet(FOX_KEY_1, FOX_1);
  }

  lemma FoxSecondOctets()
    ensures Hashing.Octets(FOX_KEY_2) == FOX_2
  {
    OctetsMeet(FOX_KEY_2, FOX_2);
  }

  lemma FoxLastOctets()
    ensures Hashing.Octets(FOX_KEY_3) == FOX_3
  {
    OctetsMeet(FOX_KEY_3, FOX_3);
  }

  lemma OctetsJoin(a: Blob, b: Blob)
    ensures Hashing.Octets(a + b) == Hashing.Octets(a) + Hashing.Octets(b)
  {
    hide Bits;
  }

  /** 1049944299 */
  lemma FoxKey()
    ensures Hashing.NormalizedHash(FOX_KEY) == 1049944299
  {
    hide Hashing.Octets, Hash32, Hashing.Masked;
    FoxFirstOctets();
    FoxSecondOctets();
    FoxLastOctets();
    OctetsJoin(FOX_KEY_2, FOX_KEY_3);
    OctetsJoin(FOX_KEY_1, FOX_KEY_2 + FOX_KEY_3);
    Fox();
    FoxMasked();
  }

  lemma FoxMasked()
    ensures Hashing.Masked(1049944299) == 1049944299
  {
  }

  /** -1623864979 without its sign bit. */
  lemma CafeKey()
    ensures Hashing.NormalizedHash(CAFE_KEY) == 523618669
  {
    hide Hashing.Octets, Hash32, Hashing.Masked;
    CafeOctets();
    Cafe();
    CafeMasked();
  }

  lemma CafeOctets()
    ensures Hashing.Octets(CAFE_KEY) == CAFE
  {
    OctetsMeet(CAFE_KEY, CAFE);
  }

  lemma CafeMasked()
    ensures Hashing.Masked(0x9f35c96d) == 523618669
  {
  }
}
