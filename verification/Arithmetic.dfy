/** Integer division facts. Every operand the model divides is non-negative, where
    Dafny's Euclidean division and Python's floor division agree. */
module Arithmetic {

  function Min(a: int, b: int): int { if a <= b then a else b }

  function Max(a: int, b: int): int { if a <= b then b else a }

  function CeilDiv(a: int, b: int): int
    requires b > 0
  {
    (a + b - 1) / b
  }

  lemma MulMono(a: int, b: int, c: int)
    requires a <= b && 0 <= c
    ensures a * c <= b * c
  {
  }

  lemma MulCancel(a: int, b: int, c: int)
    requires a * c < b * c && 0 < c
    ensures a < b
  {
    if b <= a { MulMono(b, a, c); }
  }

  /** q is the floor of a / b exactly when it brackets it. */
  lemma FloorUnique(a: int, b: int, q: int)
    requires b > 0 && q * b <= a < (q + 1) * b
    ensures a / b == q
  {
    var p := a / b;
    assert p * b <= a < (p + 1) * b;
    MulCancel(p, q + 1, b);
    MulCancel(q, p + 1, b);
  }

  lemma FloorBrackets(a: int, b: int)
    requires b > 0
    ensures (a / b) * b <= a < (a / b + 1) * b
  {
  }

  /** The ceiling is the least integer whose product covers the numerator. */
  lemma CeilBrackets(a: int, b: int)
    requires b > 0
    ensures (CeilDiv(a, b) - 1) * b < a <= CeilDiv(a, b) * b
  {
    FloorBrackets(a + b - 1, b);
    assert (CeilDiv(a, b) + 1) * b == CeilDiv(a, b) * b + b;
    assert (CeilDiv(a, b) - 1) * b == CeilDiv(a, b) * b - b;
  }

  lemma CeilUnique(a: int, b: int, q: int)
    requires b > 0 && (q - 1) * b < a <= q * b
    ensures CeilDiv(a, b) == q
  {
    CeilBrackets(a, b);
    MulCancel(CeilDiv(a, b) - 1, q, b);
    MulCancel(q - 1, CeilDiv(a, b), b);
  }

  lemma FloorMono(a: int, b: int, c: int)
    requires a <= b && c > 0
    ensures a / c <= b / c
  {
    FloorBrackets(a, c);
    FloorBrackets(b, c);
    MulCancel(a / c, b / c + 1, c);
  }

  /** x is at least the floor of a / b from the ceiling side: x * b reaches a or not. */
  lemma FloorAtLeast(a: int, b: int, x: int)
    requires b > 0
    ensures x <= a / b <==> x * b <= a
  {
    FloorBrackets(a, b);
    if x * b <= a { MulCancel(x, a / b + 1, b); }
    if x <= a / b { MulMono(x, a / b, b); }
  }

  lemma CeilAtMost(a: int, b: int, x: int)
    requires b > 0
    ensures CeilDiv(a, b) <= x <==> a <= x * b
  {
    CeilBrackets(a, b);
    if a <= x * b { MulCancel(CeilDiv(a, b) - 1, x, b); }
    if CeilDiv(a, b) <= x { MulMono(CeilDiv(a, b), x, b); }
  }

  lemma DivModUnique(a: int, b: int, q: int, r: int)
    requires b > 0 && a == q * b + r && 0 <= r < b
    ensures a / b == q && a % b == r
  {
    assert (q + 1) * b == q * b + b;
    FloorUnique(a, b, q);
  }
}
