/** Go's int64: two's-complement wrap-around, and division that truncates. */
module Int64 {
  const MIN: int := -0x8000_0000_0000_0000
  const MAX: int := 0x7fff_ffff_ffff_ffff
  const SPAN: int := 0x1_0000_0000_0000_0000

  predicate Fits(x: int) {
    MIN <= x <= MAX
  }

  /** What an int64 holds after an operation whose exact result is `x`. */
  function Wrap(x: int): (w: int)
    ensures Fits(w)
    ensures Fits(x) ==> w == x
    decreases if x > MAX then x else if x < MIN then -x else 0
  {
    if x > MAX then Wrap(x - SPAN) else if x < MIN then Wrap(x + SPAN) else x
  }

  /** The one value in range that differs from `x` by a multiple of 2^64. */
  lemma {:induction false} WrapIsUnique(x: int, w: int, k: int)
    requires Fits(w) && w == x + k * SPAN
    ensures Wrap(x) == w
    decreases if k < 0 then -k else k
  {
    if k < 0 {
      WrapIsUnique(x - SPAN, w, k + 1);
    } else if k > 0 {
      WrapIsUnique(x + SPAN, w, k - 1);
    }
  }

  lemma {:induction false} WrapDistance(x: int) returns (k: int)
    ensures Wrap(x) == x + k * SPAN
    decreases if x > MAX then x else if x < MIN then -x else 0
  {
    if x > MAX {
      k := WrapDistance(x - SPAN);
      k := k - 1;
    } else if x < MIN {
      k := WrapDistance(x + SPAN);
      k := k + 1;
    } else {
      k := 0;
    }
  }

  /** Wrapping early or late makes no difference to a sum. */
  lemma WrapAdd(a: int, b: int)
    ensures Wrap(Wrap(a) + b) == Wrap(a + b)
    ensures Wrap(a + Wrap(b)) == Wrap(a + b)
  {
    WrapFirst(a, b);
    WrapFirst(b, a);
    hide Wrap;
    assert a + Wrap(b) == Wrap(b) + a;
  }

  lemma WrapFirst(a: int, b: int)
    ensures Wrap(Wrap(a) + b) == Wrap(a + b)
  {
    hide Wrap;
    var j := WrapDistance(a);
    var k := WrapDistance(Wrap(a) + b);
    WrapIsUnique(a + b, Wrap(Wrap(a) + b), j + k);
  }

  lemma WrapNegate(a: int)
    ensures Wrap(-Wrap(a)) == Wrap(-a)
  {
    var ka := WrapDistance(a);
    var k := WrapDistance(-Wrap(a));
    WrapIsUnique(-a, Wrap(-Wrap(a)), k - ka);
  }

  /** How often `p` goes into `n`, and what is left. */
  function Div(n: nat, p: nat): (q: nat)
    requires p > 0
    ensures q * p <= n && q <= n
  {
    if n < p then 0 else 1 + Div(n - p, p)
  }

  function Mod(n: nat, p: nat): (r: nat)
    requires p > 0
    ensures r < p && n == Div(n, p) * p + r
  {
    if n < p then n else Mod(n - p, p)
  }

  lemma {:induction false} DivModIsUnique(n: nat, p: nat, q: nat, r: nat)
    requires p > 0 && n == q * p + r && r < p
    ensures Div(n, p) == q && Mod(n, p) == r
  {
    OneLess(q, p);
    if q > 0 {
      DivModIsUnique(n - p, p, q - 1, r);
    }
  }

  lemma OneLess(q: nat, p: nat)
    ensures q == 0 ==> q * p == 0
    ensures q > 0 ==> q * p >= p && (q - 1) * p == q * p - p
  {
  }

  /** Go's / and % truncate toward zero. */
  function Quotient(a: int, b: nat): int
    requires b > 0
  {
    if a >= 0 then Div(a, b) else 0 - Div(-a, b)
  }

  function Remainder(a: int, b: nat): int
    requires b > 0
  {
    if a >= 0 then Mod(a, b) else 0 - Mod(-a, b)
  }

  lemma QuotientIs(a: nat, b: nat, q: nat, r: nat)
    requires b > 0 && r < b && a == q * b + r
    ensures a / b == q && a % b == r
  {
    var p, x := a / b, a % b;
    assert a == p * b + x && 0 <= x < b;
    assert (p - q) * b == r - x;
    NoMultipleBetween(p - q, b, r - x);
  }

  lemma NoMultipleBetween(d: int, b: nat, e: int)
    requires d * b == e && 0 - b < e < b
    ensures d == 0
  {
    assert (d >= 1 ==> d * b >= b) && (d <= -1 ==> d * b <= 0 - b);
  }
}
