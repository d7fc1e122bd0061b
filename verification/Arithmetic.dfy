/** Facts about products, quotients and aligned offsets that the block and region arithmetic rests on. */
module Arithmetic {

  lemma ProductOrder(a: nat, b: nat, size: nat)
    ensures a <= b ==> a * size <= b * size
    ensures a * size < b * size ==> a < b
  {
    if b <= a { assert b * size <= a * size; }
  }

  lemma DivisionIsUnique(q: nat, r: nat, b: nat)
    requires r < b
    ensures (q * b + r) / b == q && (q * b + r) % b == r
  {
    var p, m := (q * b + r) / b, (q * b + r) % b;
    assert p * b + m == q * b + r;
    ProductOrder(q + 1, p, b);
    ProductOrder(p + 1, q, b);
  }

  lemma MultipleIsAligned(q: nat, b: nat)
    requires b > 0
    ensures q * b % b == 0
  {
    DivisionIsUnique(q, 0, b);
  }

  lemma QuotientOfMultiple(x: nat, b: nat)
    requires b > 0 && x % b == 0
    ensures x == x / b * b
  {
  }

  lemma WholeBlocks(p: nat, q: nat, b: nat)
    requires p * b < q * b + b
    ensures p * b <= q * b
  {
    assert (q + 1) * b == q * b + b;
    ProductOrder(p, q + 1, b);
    ProductOrder(p, q, b);
  }

  /** Aligned offsets less than a block apart are ordered as whole blocks. */
  lemma AlignedOrder(x: nat, y: nat, b: nat)
    requires b > 0 && x % b == 0 && y % b == 0 && x < y + b
    ensures x <= y
  {
    var p, q := x / b, y / b;
    QuotientOfMultiple(x, b);
    QuotientOfMultiple(y, b);
    WholeBlocks(p, q, b);
  }

  lemma BoundaryIsCrossed(x: nat, size: nat, n: nat)
    requires size > 0
    ensures x >= n * size <==> x / size >= n
  {
    var q := x / size;
    assert x == q * size + x % size;
    ProductOrder(n, q, size);
    ProductOrder(q + 1, n, size);
  }

  /** A position belongs to part `n` exactly when it lies between its bounds. */
  lemma QuotientRange(x: nat, n: nat, size: nat)
    requires size > 0
    ensures n * size <= x < (n + 1) * size <==> x / size == n
  {
    BoundaryIsCrossed(x, size, n);
    BoundaryIsCrossed(x, size, n + 1);
  }
}
