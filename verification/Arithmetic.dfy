/** Powers of two, and numbers with digits of different bases. */
module Arithmetic {

  function Pow2(n: nat): (r: nat)
    ensures r > 0
  {
    if n == 0 then 1 else 2 * Pow2(n - 1)
  }

  function Digits(high: nat, low: nat, base: nat): nat {
    high * base + low
  }

  lemma MulMono(a: nat, b: nat, c: nat)
    requires a <= b
    ensures a * c <= b * c
  {
  }

  /** Two digits: the high one decides, then the low one. */
  lemma DigitsOrder(h: nat, l: nat, h1: nat, l1: nat, base: nat)
    requires l < base && l1 < base
    ensures Digits(h, l, base) < Digits(h1, l1, base) <==> h < h1 || (h == h1 && l < l1)
    ensures Digits(h, l, base) == Digits(h1, l1, base) <==> h == h1 && l == l1
  {
    if h < h1 {
      MulMono(h + 1, h1, base);
    } else if h1 < h {
      MulMono(h1 + 1, h, base);
    }
  }

  lemma DigitsBound(h: nat, l: nat, base: nat, top: nat)
    requires l < base && h < top
    ensures Digits(h, l, base) < top * base
  {
    MulMono(h + 1, top, base);
  }

  lemma DigitsSplit(h: nat, l: nat, base: nat)
    requires l < base
    ensures Digits(h, l, base) / base == h && Digits(h, l, base) % base == l
  {
    var x := Digits(h, l, base);
    assert x == Digits(x / base, x % base, base);
    DigitsOrder(h, l, x / base, x % base, base);
  }

  /** Every number below the product has two digits. */
  lemma SplitDigits(x: nat, base: nat, top: nat) returns (h: nat, l: nat)
    requires x < top * base
    ensures h < top && l < base && Digits(h, l, base) == x
  {
    h, l := x / base, x % base;
    assert x == h * base + l;
    if h >= top {
      MulMono(top, h, base);
    }
  }
}
