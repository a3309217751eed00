/** The mapping from normalized hashes to segments, and its relation to the Java client's. */
module Segments {
  import opened Arithmetic

  /** Normalized hashes are the 31-bit values: the sign bit is masked off. */
  const HASHES := 0x8000_0000

  type Hash = h: int | 0 <= h < HASHES

  /** A positive segment count, as the client's `int numSegments_` can hold it. */
  type Count = n: int | 1 <= n < HASHES witness 1

  /** The segment the client computes. */
  function SegmentOf(h: Hash, n: Count): nat { h * n / HASHES }

  function CeilDiv(a: nat, b: nat): nat
    requires b > 0
  {
    (a + b - 1) / b
  }

  /** The segment the Java client computes: hashes are cut into runs of ceil(2^31 / n). */
  function JavaSegment(h: Hash, n: Count): nat {
    JavaRunPositive(n);
    h / CeilDiv(HASHES, n)
  }

  lemma CeilDivLe(a: nat, b: nat, q: int)
    requires b > 0
    ensures CeilDiv(a, b) <= q <==> a <= q * b
  {
    DivGe(a + b - 1, b, q + 1);
  }

  lemma JavaRunPositive(n: Count)
    ensures CeilDiv(HASHES, n) > 0
  {
    CeilDivLe(HASHES, n, 0);
  }

  // ----- Range, order and balance -----

  /** Every hash maps into [0, n), so the client's fallback to segment 0 never acts. */
  lemma SegmentInRange(h: Hash, n: Count)
    ensures 0 <= SegmentOf(h, n) < n
  {
    DivGe(h * n, HASHES, 0);
    DivGe(h * n, HASHES, n);
    MulMono(h, HASHES - 1, n);
  }

  /** The first hash of segment `s`. */
  function Boundary(s: nat, n: Count): nat { CeilDiv(s * HASHES, n) }

  lemma AtLeast(h: Hash, n: Count, s: nat)
    ensures s <= SegmentOf(h, n) <==> Boundary(s, n) <= h
  {
    DivGe(h * n, HASHES, s);
    CeilDivLe(s * HASHES, n, h);
  }

  lemma Monotone(g: Hash, h: Hash, n: Count)
    requires g <= h
    ensures SegmentOf(g, n) <= SegmentOf(h, n)
  {
    AtLeast(g, n, SegmentOf(g, n));
    AtLeast(h, n, SegmentOf(g, n));
  }

  /** Segment `s` holds exactly the hashes from one boundary up to the next, and these runs
      differ in length by at most one: floor(2^31 / n) or ceil(2^31 / n) hashes each. */
  lemma Balanced(n: Count, s: nat)
    requires s < n
    ensures forall h: Hash :: SegmentOf(h, n) == s <==> Boundary(s, n) <= h < Boundary(s + 1, n)
    ensures Boundary(0, n) == 0 && Boundary(n, n) == HASHES
    ensures Boundary(s + 1, n) <= HASHES
    ensures Boundary(s + 1, n) - Boundary(s, n) in {HASHES / n, CeilDiv(HASHES, n)}
  {
    forall h: Hash
      ensures SegmentOf(h, n) == s <==> Boundary(s, n) <= h < Boundary(s + 1, n)
    {
      AtLeast(h, n, s);
      AtLeast(h, n, s + 1);
    }
    CeilDivLe(0, n, 0);
    CeilDivLe(n * HASHES, n, HASHES);
    CeilDivLe(n * HASHES, n, HASHES - 1);
    assert (HASHES - 1) * n < HASHES * n;
    CeilDivLe((s + 1) * HASHES, n, HASHES);
    MulMono(s + 1, n, HASHES);
    RunLength(n, s);
  }

  lemma RunLength(n: Count, s: nat)
    ensures HASHES / n <= Boundary(s + 1, n) - Boundary(s, n) <= CeilDiv(HASHES, n)
    ensures CeilDiv(HASHES, n) <= HASHES / n + 1
  {
    var f, c := HASHES / n, CeilDiv(HASHES, n);
    var lo, hi := Boundary(s, n), Boundary(s + 1, n);
    // lo is the least number with s * HASHES <= lo * n, hi likewise for s + 1
    CeilDivLe(s * HASHES, n, lo);
    CeilDivLe(HASHES, n, c);
    assert (lo + c) * n == lo * n + c * n;
    CeilDivLe((s + 1) * HASHES, n, lo + c);
    CeilDivLe((s + 1) * HASHES, n, hi);
    DivGe(HASHES, n, f);
    assert (hi - f) * n == hi * n - f * n;
    CeilDivLe(s * HASHES, n, hi - f);
    DivGe(HASHES, n, f + 1);
    CeilDivLe(HASHES, n, f + 1);
  }

  // ----- Against the Java formula -----

  lemma JavaAtLeast(h: Hash, n: Count, s: nat)
    ensures s <= JavaSegment(h, n) <==> s * CeilDiv(HASHES, n) <= h
  {
    JavaRunPositive(n);
    DivGe(h, CeilDiv(HASHES, n), s);
  }

  /** Both formulas are determined by where their segments begin. */
  ghost predicate SameBoundary(n: Count, s: nat) { Boundary(s, n) == s * CeilDiv(HASHES, n) }

  ghost predicate FormulasAgree(n: Count) {
    forall h: Hash :: SegmentOf(h, n) == JavaSegment(h, n)
  }

  lemma NeverBelowJava(h: Hash, n: Count)
    ensures JavaSegment(h, n) <= SegmentOf(h, n)
  {
    var c, j := CeilDiv(HASHES, n), JavaSegment(h, n);
    JavaAtLeast(h, n, j);
    CeilDivLe(HASHES, n, c);
    MulMono(j * c, h, n);
    MulMono(HASHES, c * n, j);
    assert j * c * n == c * n * j;
    DivGe(h * n, HASHES, j);
  }

  /** For up to floor(sqrt(2^31)) segments the client is at most one segment ahead of Java. */
  lemma AtMostOneAhead(h: Hash, n: Count)
    requires n * n <= HASHES
    ensures SegmentOf(h, n) in {JavaSegment(h, n), JavaSegment(h, n) + 1}
  {
    NeverBelowJava(h, n);
    var c, j := CeilDiv(HASHES, n), JavaSegment(h, n);
    // n <= c, because c * n >= 2^31 >= n * n
    CeilDivLe(HASHES, n, n - 1);
    assert (n - 1) * n < n * n;
    assert n <= c;
    // h < (j + 1) * c, and c * n < 2^31 + n, so h * n < (j + 2) * 2^31
    JavaAtLeast(h, n, j + 1);
    assert h + 1 <= (j + 1) * c;
    CeilDivLe(HASHES, n, c - 1);
    assert c * n < HASHES + n;
    AheadArithmetic(h, n, c, j);
    DivGe(h * n, HASHES, j + 2);
  }

  lemma AheadArithmetic(h: Hash, n: Count, c: nat, j: nat)
    requires n <= c && h + 1 <= (j + 1) * c && c * n < HASHES + n
    ensures h * n < (j + 2) * HASHES
  {
    MulMono(c * n, HASHES + n - 1, h);
    MulMono(h + 1, (j + 1) * c, HASHES);
    MulMono(h, HASHES - 1, n - 1);
    MulMono(n - 1, c - 1, HASHES);
    assert h * n * c == c * n * h;
    assert (HASHES + n - 1) * h == HASHES * h + (n - 1) * h;
    assert (j + 2) * HASHES * c == (j + 1) * c * HASHES + c * HASHES;
    CancelLess(h * n, (j + 2) * HASHES, c);
  }

  lemma RunOf(n: Count, c: nat)
    requires (c - 1) * n < HASHES <= c * n
    ensures CeilDiv(HASHES, n) == c
  {
    CeilDivLe(HASHES, n, c);
    CeilDivLe(HASHES, n, c - 1);
  }

  lemma AgreesWhenDivides(n: Count, s: nat)
    requires HASHES % n == 0
    ensures SameBoundary(n, s)
  {
    var f := HASHES / n;
    assert HASHES == f * n;
    assert (f - 1) * n == f * n - n;
    RunOf(n, f);
    assert s * HASHES == s * f * n;
    CeilDivLe(s * HASHES, n, s * f);
    CeilDivLe(s * HASHES, n, s * f - 1);
    assert (s * f - 1) * n == s * f * n - n;
  }

  lemma AgreesWhenNextDivides(n: Count, s: nat)
    requires n > 1 && (HASHES + 1) % n == 0 && s < n
    ensures SameBoundary(n, s)
  {
    var g := (HASHES + 1) / n;
    assert HASHES + 1 == g * n;
    assert (g - 1) * n == g * n - n;
    RunOf(n, g);
    assert s * HASHES == s * (g * n - 1) == s * g * n - s;
    CeilDivLe(s * HASHES, n, s * g);
    CeilDivLe(s * HASHES, n, s * g - 1);
    assert (s * g - 1) * n == s * g * n - n;
  }

  lemma AgreeThroughBoundaries(h: Hash, n: Count)
    requires SameBoundary(n, SegmentOf(h, n))
    ensures SegmentOf(h, n) == JavaSegment(h, n)
  {
    NeverBelowJava(h, n);
    AtLeast(h, n, SegmentOf(h, n));
    JavaAtLeast(h, n, SegmentOf(h, n));
  }

  /** Where the two formulas part: the first hash of the client's last segment. */
  lemma PartAt(n: Count)
    requires HASHES % n != 0 && (HASHES + 1) % n != 0
    ensures JavaSegment(HASHES - HASHES / n, n) < SegmentOf(HASHES - HASHES / n, n) == n - 1
  {
    var f, r := HASHES / n, HASHES % n;
    assert HASHES == f * n + r && 0 < r < n;
    if r == n - 1 {
      NextRemainder(n);
    }
    PartArithmetic(n, f, r);
    DivGe(HASHES, n, 1);
    RunOf(n, f + 1);
    JavaAtLeast(HASHES - f, n, n - 1);
    DivGe((HASHES - f) * n, HASHES, n - 1);
    SegmentInRange(HASHES - f, n);
  }

  lemma PartArithmetic(n: Count, f: nat, r: nat)
    requires HASHES == f * n + r && 0 < r < n - 1
    ensures f * n < HASHES <= (f + 1) * n
    ensures HASHES - f < (n - 1) * (f + 1)
    ensures (n - 1) * HASHES <= (HASHES - f) * n
  {
    assert (f + 1) * n == f * n + n;
    assert (n - 1) * (f + 1) == f * n + n - f - 1;
    assert (HASHES - f) * n == HASHES * n - f * n;
    assert (n - 1) * HASHES == n * HASHES - HASHES;
  }

  lemma NextRemainder(n: Count)
    requires HASHES % n == n - 1
    ensures (HASHES + 1) % n == 0
  {
    var f := HASHES / n;
    assert HASHES + 1 == f * n + n == (f + 1) * n;
    ModZero(f + 1, n);
  }

  /** The source says that the two formulas are equivalent. They are exactly for the segment
      counts that divide 2^31 or 2^31 + 1. */
  lemma FormulasAgreeIff(n: Count)
    ensures FormulasAgree(n) <==> HASHES % n == 0 || (HASHES + 1) % n == 0
  {
    if HASHES % n == 0 || (HASHES + 1) % n == 0 {
      forall h: Hash ensures SegmentOf(h, n) == JavaSegment(h, n) {
        SegmentInRange(h, n);
        if HASHES % n == 0 {
          AgreesWhenDivides(n, SegmentOf(h, n));
        } else {
          AgreesWhenNextDivides(n, SegmentOf(h, n));
        }
        AgreeThroughBoundaries(h, n);
      }
    } else {
      PartAt(n);
      DivGe(HASHES, n, 1);
      MulMono(1, n, HASHES / n);
      var h: Hash := HASHES - HASHES / n;
      assert SegmentOf(h, n) != JavaSegment(h, n);
    }
  }

  /** Five segments: the last hash of the fourth Java segment is in the client's fifth. */
  lemma FiveSegmentsPart()
    ensures !FormulasAgree(5)
    ensures SegmentOf(0x6666_6667, 5) == 4 && JavaSegment(0x6666_6667, 5) == 3
  {
    FormulasAgreeIff(5);
    assert SegmentOf(0x6666_6667, 5) == 4 && JavaSegment(0x6666_6667, 5) == 3;
  }
}
