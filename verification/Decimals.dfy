/** Decimal notation: std::to_string of a natural number, digit by digit. */
module Decimals {
  import opened Bytes

  type Digit = d: int | 0 <= d < 10

  /** Most significant digit first, no leading zero. */
  function Digits(n: nat): (r: seq<Digit>)
    ensures |r| >= 1
  {
    if n < 10 then [n] else Digits(n / 10) + [n % 10]
  }

  function Value(ds: seq<Digit>): nat {
    if ds == [] then 0 else Value(ds[..|ds| - 1]) * 10 + ds[|ds| - 1]
  }

  lemma {:induction false} ValueOfDigits(n: nat)
    ensures Value(Digits(n)) == n
  {
    if n < 10 {
      assert [n][..0] == [];
    } else {
      ValueOfDigits(n / 10);
      assert Digits(n)[..|Digits(n)| - 1] == Digits(n / 10);
    }
  }

  function AsciiDigit(d: Digit): byte {
    var x: int := d;
    48 + x
  }

  function Ascii(ds: seq<Digit>): (r: Blob)
    ensures |r| == |ds| && forall i :: 0 <= i < |ds| ==> r[i] == AsciiDigit(ds[i])
  {
    seq(|ds|, i requires 0 <= i < |ds| => AsciiDigit(ds[i]))
  }

  lemma AsciiInjective(ds: seq<Digit>, es: seq<Digit>)
    requires Ascii(ds) == Ascii(es)
    ensures ds == es
  {
    assert forall i :: 0 <= i < |ds| ==> Ascii(ds)[i] == Ascii(es)[i];
  }

  function DecimalBytes(n: nat): Blob { Ascii(Digits(n)) }
}
