/** Division facts for cutting and windowing. */
module Arithmetic {

  lemma DivSmall(a: nat, size: nat)
    requires a < size
    ensures a / size == 0
  {
  }

  lemma Product(k: int, size: int)
    requires k >= 1 && size > 0
    ensures k * size >= size
  {
    assert k * size == (k - 1) * size + size;
    assert (k - 1) * size >= 0;
  }

  lemma DivUnique(x: int, size: int, q: int)
    requires size > 0 && q * size <= x < q * size + size
    ensures x / size == q
  {
    var p := x / size;
    assert p * size <= x < p * size + size;
    assert (q - p) * size == q * size - p * size < size;
    assert (p - q) * size == p * size - q * size < size;
    if p < q {
      Product(q - p, size);
    } else if q < p {
      Product(p - q, size);
    }
  }

  lemma DivStep(a: nat, size: nat)
    requires size > 0
    ensures (a + size) / size == a / size + 1
  {
    var q := a / size;
    assert q * size <= a < q * size + size;
    assert (q + 1) * size == q * size + size;
    DivUnique(a + size, size, q + 1);
  }

  /** `k` steps of the given size. */
  function Offset(k: nat, size: nat): nat {
    if k == 0 then 0 else Offset(k - 1, size) + size
  }

  lemma {:induction false} OffsetIndex(k: nat, size: nat)
    requires size > 0
    ensures Offset(k, size) / size == k
    decreases k
  {
    if k > 0 {
      OffsetIndex(k - 1, size);
      DivStep(Offset(k - 1, size), size);
    }
  }

  lemma FloorAtLeast(k: int, x: int, d: int)
    requires d > 0
    ensures k * d <= x <==> k <= x / d
  {
    var q := x / d;
    assert q * d <= x < q * d + d;
    assert (k - q) * d == k * d - q * d;
    if k > q {
      Product(k - q, d);
    } else if k < q {
      assert (q - k) * d == q * d - k * d;
      Product(q - k, d);
    }
  }
}
