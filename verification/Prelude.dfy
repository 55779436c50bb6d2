/** Vocabulary shared by the modules: optional values and Go's fixed-width integer arithmetic. */
module Prelude {

  datatype Option<+T> = None | Some(value: T)

  const TWO_32: int := 0x1_0000_0000
  const TWO_63: int := 0x8000_0000_0000_0000
  const TWO_64: int := 0x1_0000_0000_0000_0000

  /** What a 64-bit signed Go integer holds when the exact result of an operation is n. */
  function Wrap64(n: int): (r: int)
    ensures -TWO_63 <= r < TWO_63 && (r - n) % TWO_64 == 0
    ensures -TWO_63 <= n < TWO_63 ==> r == n
  {
    (n + TWO_63) % TWO_64 - TWO_63
  }

  lemma DivBounds(a: nat, b: int)
    requires b > 0
    ensures a / b >= 0 && a / b * b <= a < a / b * b + b
    ensures -(a / b) * b == -(a / b * b)
  {
    assert a == a / b * b + a % b;
  }

  /** Go's `/` for a positive divisor: truncation toward zero. */
  function TruncDiv(a: int, b: int): (q: int)
    requires b > 0
    ensures a >= 0 ==> q >= 0 && q * b <= a < q * b + b
    ensures a < 0 ==> q <= 0 && q * b - b < a <= q * b
  {
    DivBounds(if a >= 0 then a else -a, b);
    if a >= 0 then a / b else -((-a) / b)
  }

  /** Go's `%` for a positive divisor: the sign follows the dividend. */
  function TruncMod(a: int, b: int): (m: int)
    requires b > 0
    ensures -b < m < b && a == TruncDiv(a, b) * b + m
    ensures a >= 0 ==> m >= 0
    ensures a <= 0 ==> m <= 0
  {
    a - TruncDiv(a, b) * b
  }

  lemma AtLeastOnce(k: int, n: int)
    requires n > 0 && k > 0
    ensures k * n >= n
  {
  }

  /** Quotient and remainder are the only pair that reconstructs a number. */
  lemma DivModUnique(x: int, q: int, r: int, n: int)
    requires n > 0 && x == q * n + r && 0 <= r < n
    ensures x / n == q && x % n == r
  {
    ghost var p, s := x / n, x % n;
    assert x == p * n + s && 0 <= s < n;
    Same(p, s, q, r, n);
  }

  lemma Same(p: int, s: int, q: int, r: int, n: int)
    requires 0 <= s < n && 0 <= r < n && p * n + s == q * n + r
    ensures p == q && s == r
  {
    assert (q - p) * n == s - r && (p - q) * n == r - s;
    if q > p { AtLeastOnce(q - p, n); }
    if q < p { AtLeastOnce(p - q, n); }
  }

  lemma MultipleDropsOut(x: nat, j: nat, n: int)
    requires n > 0
    ensures (j * n + x) % n == x % n
  {
    assert j * n + x == (j + x / n) * n + x % n;
    DivModUnique(j * n + x, j + x / n, x % n, n);
  }

  lemma ModOfMod(k: nat, big: int, n: int)
    requires n > 0 && big > 0 && big % n == 0
    ensures (k % big) % n == k % n
  {
    var (q, c, x) := (k / big, big / n, k % big);
    assert k == q * (c * n) + x;
    assert q * (c * n) == (q * c) * n;
    MultipleDropsOut(x, q * c, n);
  }

  /** Some element of a set, as a Go map iteration yields its keys in no particular order. */
  method Pick<T>(s: set<T>) returns (x: T)
    requires s != {}
    ensures x in s
  {
    x :| x in s;
  }

  lemma SomeOutside<T>(s: set<T>, t: set<T>) returns (x: T)
    requires !(s <= t)
    ensures x in s && x !in t
  {
    x :| x in s && x !in t;
  }

  lemma {:induction false} SubsetSize<T>(a: set<T>, b: set<T>)
    requires a <= b
    ensures |a| <= |b|
  {
    if a != {} {
      var x := SomeOutside(a, {});
      SubsetSize(a - {x}, b - {x});
    }
  }
}
