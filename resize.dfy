/**
 * `change_size` on a leaf: the size grows or shrinks by `factor` of itself,
 * the amount rounded up so that some change is made, and a shrink never
 * goes below 1.
 */
module Resize {
  import opened Geometry

  /** The amount of the change, `ceil(size * |factor|)`. */
  function Change(size: int, factor: real): int {
    Ceil(size as real * Abs(factor))
  }

  /** The new size of a leaf after `change_size(factor)`. */
  function NewSize(size: int, factor: real): int {
    var d := Change(size, factor);
    if factor >= 0.0 then size + d
    else if size - d < 1 then 1 else size - d
  }

  function Max(a: int, b: int): int {
    if a >= b then a else b
  }

  /** Moving an integer across `Ceil` and `Floor`. */
  lemma ShiftRounding(n: int, x: real)
    ensures Ceil(n as real + x) == n + Ceil(x)
    ensures (n as real - Ceil(x) as real).Floor == n - Ceil(x)
    ensures (n as real - x).Floor == n - Ceil(x)
  {
  }

  /**
   * Independent formula: growing gives `ceil(size * (1 + factor))`,
   * shrinking gives `floor(size * (1 + factor))` but at least 1.
   */
  lemma NewSizeScales(size: int, factor: real)
    ensures factor >= 0.0 ==> NewSize(size, factor) == Ceil(size as real * (1.0 + factor))
    ensures factor < 0.0 ==>
              NewSize(size, factor) == Max(1, (size as real * (1.0 + factor)).Floor)
  {
    var y := size as real * Abs(factor);
    ShiftRounding(size, y);
    assert size as real * (1.0 + factor) == size as real + size as real * factor;
    if factor < 0.0 {
      assert size as real * (1.0 + factor) == size as real - y;
    }
  }

  /** Growing a non-negative size never shrinks it, and strictly grows a positive one. */
  lemma GrowthIncreases(size: int, factor: real)
    requires size >= 0 && factor >= 0.0
    ensures NewSize(size, factor) >= size
    ensures size > 0 && factor > 0.0 ==> NewSize(size, factor) > size
  {
    var y := size as real * factor;
    if size > 0 && factor > 0.0 {
      assert y > 0.0;
    } else {
      assert y >= 0.0;
    }
  }

  /** Shrinking never goes below 1, and strictly shrinks any size above 1. */
  lemma ShrinkBounds(size: int, factor: real)
    requires factor < 0.0
    ensures NewSize(size, factor) >= 1
    ensures size > 1 ==> NewSize(size, factor) < size
    ensures size >= 1 ==> NewSize(size, factor) <= size
  {
    var y := size as real * Abs(factor);
    if size > 1 {
      assert y > 0.0;
    } else if size >= 1 {
      assert y >= 0.0;
    }
  }

  lemma ShrinkByHalf()
    ensures NewSize(5, -0.5) == 2
  {
    assert Change(5, -0.5) == 3;
  }

  lemma ShrinkClampsAtOne()
    ensures NewSize(5, -10.0) == 1
  {
    assert Change(5, -10.0) == 50;
  }

  lemma GrowRoundsUp()
    ensures NewSize(10, 0.15) == 12
  {
    assert Change(10, 0.15) == 2;
  }
}
