/**
  Go's built-in `int` on a 64-bit platform: a signed two's-complement word.
  An addition whose mathematical result leaves the range wraps around
  modulo 2^64, which is what the addition in SafeCounter.Inc does.
  */
module GoInt {

  const WordModulus: int := 0x1_0000_0000_0000_0000
  const MinInt: int := -0x8000_0000_0000_0000
  const MaxInt: int := 0x7FFF_FFFF_FFFF_FFFF

  /** A value of Go's `int`. */
  type Int = x: int | MinInt <= x <= MaxInt

  /** How far `x` lies outside the range of `int`. */
  function Excess(x: int): nat
  {
    if x > MaxInt then x - MaxInt else if x < MinInt then MinInt - x else 0
  }

  /** The `int` that a mathematical integer wraps to: `x` moved by whole
      multiples of 2^64 until it lies in range. */
  function Wrap(x: int): (r: Int)
    decreases Excess(x)
  {
    if x > MaxInt then Wrap(x - WordModulus)
    else if x < MinInt then Wrap(x + WordModulus)
    else x
  }

  /** Wrapping leaves an in-range value alone. */
  lemma WrapOfInt(x: Int)
    ensures Wrap(x) == x
  {
  }

  /** Adding one modulus does not change the wrapped value. */
  lemma WrapPeriod(x: int)
    ensures Wrap(x + WordModulus) == Wrap(x)
  {
  }

  /** The wrapped value differs from `x` by a multiple of 2^64, and it is
      the only `int` that does: Wrap is two's-complement reduction. */
  lemma {:induction false} WrapCongruent(x: int)
    ensures (x - Wrap(x)) % WordModulus == 0
    decreases Excess(x)
  {
    if x > MaxInt {
      WrapCongruent(x - WordModulus);
      var k := (x - WordModulus - Wrap(x)) / WordModulus;
      assert x - Wrap(x) == WordModulus * (k + 1);
    } else if x < MinInt {
      WrapCongruent(x + WordModulus);
      var k := (x + WordModulus - Wrap(x)) / WordModulus;
      assert x - Wrap(x) == WordModulus * (k - 1);
    }
  }

  lemma WrapUnique(x: int, r: Int)
    requires (x - r) % WordModulus == 0
    ensures r == Wrap(x)
  {
    WrapCongruent(x);
    var w := Wrap(x);
    var d1 := (x - r) / WordModulus;
    var d2 := (x - w) / WordModulus;
    assert x - r == WordModulus * d1;
    assert x - w == WordModulus * d2;
    assert w - r == WordModulus * (d1 - d2);
  }

  /** Wrapping an intermediate sum does not change the final wrapped sum,
      so a chain of wrapping additions equals one wrap of the exact sum. */
  lemma {:induction false} WrapAdd(a: int, b: int)
    ensures Wrap(Wrap(a) + b) == Wrap(a + b)
    decreases Excess(a)
  {
    if a > MaxInt {
      WrapAdd(a - WordModulus, b);
      WrapPeriod(a - WordModulus + b);
    } else if a < MinInt {
      WrapAdd(a + WordModulus, b);
      WrapPeriod(a + b);
    }
  }
}
