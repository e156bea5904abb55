/** Rounding addresses to multiples of a size. */
module Alignments {
  const PAGE_SIZE: int := 0x1000

  function AlignDown(x: int, alignment: int): int
    requires alignment > 0
  {
    x - x % alignment
  }

  function AlignUp(x: int, alignment: int): int
    requires alignment > 0
  {
    AlignDown(x + alignment - 1, alignment)
  }

  lemma Multiples(q: int, k: int, n: int)
    requires n > 0
    ensures q < k ==> q * n <= k * n - n
    ensures q > k ==> q * n >= k * n + n
  {
    if q < k {
      AtLeastOnce(k - q, n);
      assert (k - q) * n == k * n - q * n;
    }
    if q > k {
      AtLeastOnce(q - k, n);
      assert (q - k) * n == q * n - k * n;
    }
  }

  lemma {:induction false} AtLeastOnce(d: nat, n: nat)
    requires d > 0
    ensures d * n >= n
  {
    if d > 1 {
      AtLeastOnce(d - 1, n);
      assert d * n == (d - 1) * n + n;
    }
  }

  lemma Remainder(k: int, alignment: int, offset: int)
    requires 0 <= offset < alignment
    ensures (k * alignment + offset) % alignment == offset
  {
    var x := k * alignment + offset;
    var q := x / alignment;
    assert x == q * alignment + x % alignment;
    Multiples(q, k, alignment);
  }

  lemma DownIsMultiple(x: int, n: int)
    requires n > 0
    ensures AlignDown(x, n) % n == 0 && AlignDown(x, n) <= x < AlignDown(x, n) + n
  {
    var q := x / n;
    assert x == q * n + x % n;
    Remainder(q, n, 0);
  }

  lemma RoundedIsMultiple(x: int, n: int)
    requires n > 0
    ensures AlignDown(x, n) % n == 0 && AlignDown(x, n) <= x < AlignDown(x, n) + n
    ensures AlignUp(x, n) % n == 0 && x <= AlignUp(x, n) < x + n
  {
    hide AlignDown;
    DownIsMultiple(x, n);
    DownIsMultiple(x + n - 1, n);
  }

  /** Neighbouring multiples. */
  lemma MultipleNext(a: int, n: int)
    requires n > 0 && a % n == 0
    ensures (a + n) % n == 0 && (a - n) % n == 0
  {
    var k := a / n;
    Remainder(k + 1, n, 0);
    Remainder(k - 1, n, 0);
    assert (k + 1) * n == a + n && (k - 1) * n == a - n;
  }

  /** A multiple of `r * n` is one of `n`. */
  lemma MultipleOfPart(a: int, r: int, n: int)
    requires n > 0 && r > 0 && r * n > 0 && a % (r * n) == 0
    ensures a % n == 0
  {
    var k := a / (r * n);
    assert a == k * (r * n) == (k * r) * n;
    Remainder(k * r, n, 0);
  }

  /** Multiples less than `n` apart are ordered. */
  lemma MultipleNotBetween(x: int, y: int, n: int)
    requires n > 0 && x % n == 0 && y % n == 0 && x < y + n
    ensures x <= y
  {
    Multiples(x / n, y / n, n);
  }
}
