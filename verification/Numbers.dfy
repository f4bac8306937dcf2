/** Positive constants, of which nothing but their sign is used, and what multiples of them are like. */
module Numbers {
  type Positive = x: nat | x > 0 witness 1

  lemma {:induction false} MulAtLeast(a: nat, b: nat, c: Positive)
    requires a < b
    ensures a * c + c <= b * c
    decreases b
  {
    assert b * c == (b - 1) * c + c;
    if a == b - 1 {
    } else {
      MulAtLeast(a, b - 1, c);
    }
  }

  /** Quotient and remainder are what they are in the one way of writing the number. */
  lemma DivModIs(q: nat, r: nat, c: Positive)
    requires r < c
    ensures (q * c + r) / c == q && (q * c + r) % c == r
  {
    var a := q * c + r;
    var q' := a / c;
    assert a == q' * c + a % c;
    if q < q' { MulAtLeast(q, q', c); }
    if q' < q { MulAtLeast(q', q, c); }
  }
}
