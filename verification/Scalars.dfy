/** Arithmetic modulo the group order, and points as formal pairs blind·G + value·H. */
module Scalars {

  type Order = q: nat | q > 1 witness 2

  /** The same scalar modulo q. */
  predicate Same(q: Order, a: int, b: int)
  {
    a % q == b % q
  }

  lemma ModPlus(q: Order, a: int, k: int)
    ensures (a + k * q) % q == a % q
  {
    var r, d := a % q, a / q;
    assert a + k * q == (d + k) * q + r;
    ModUnique(q, a + k * q, d + k, r);
  }

  lemma ModUnique(q: Order, n: int, d: int, r: int)
    requires n == d * q + r && 0 <= r < q
    ensures n % q == r
  {
    var d', r' := n / q, n % q;
    assert n == d' * q + r';
    assert (d - d') * q == r' - r;
    if d > d' {
      assert (d - d') * q >= q by { MulAtLeast(d - d', q); }
    } else if d < d' {
      assert (d' - d) * q >= q by { MulAtLeast(d' - d, q); }
    }
  }

  lemma MulAtLeast(x: int, q: int)
    requires x >= 1 && q >= 0
    ensures x * q >= q
  {
  }

  /** Two scalars are the same exactly when they differ by a multiple of the order. */
  lemma SameDiffers(q: Order, a: int, b: int, k: int)
    requires a == b + k * q
    ensures Same(q, a, b)
  {
    ModPlus(q, b, k);
  }

  lemma SameGap(q: Order, a: int, b: int) returns (k: int)
    requires Same(q, a, b)
    ensures a == b + k * q
  {
    k := a / q - b / q;
    assert a == a / q * q + a % q && b == b / q * q + b % q;
    assert (a / q - b / q) * q == a / q * q - b / q * q;
  }

  lemma SameMod(q: Order, a: int)
    ensures Same(q, a % q, a)
  {
    assert a % q == a + (-(a / q)) * q;
    SameDiffers(q, a % q, a, -(a / q));
  }

  lemma SameTrans(q: Order, a: int, b: int, c: int)
    requires Same(q, a, b) && Same(q, b, c)
    ensures Same(q, a, c)
  {
  }

  lemma SameSym(q: Order, a: int, b: int)
    requires Same(q, a, b)
    ensures Same(q, b, a)
  {
  }

  lemma SameRefl(q: Order, a: int)
    ensures Same(q, a, a)
  {
  }

  lemma SameAdd(q: Order, a: int, b: int, c: int, d: int)
    requires Same(q, a, b) && Same(q, c, d)
    ensures Same(q, a + c, b + d)
  {
    var k := SameGap(q, a, b);
    var m := SameGap(q, c, d);
    assert (k + m) * q == k * q + m * q;
    SameDiffers(q, a + c, b + d, k + m);
  }

  lemma SameSub(q: Order, a: int, b: int, c: int, d: int)
    requires Same(q, a, b) && Same(q, c, d)
    ensures Same(q, a - c, b - d)
  {
    var k := SameGap(q, a, b);
    var m := SameGap(q, c, d);
    assert (k - m) * q == k * q - m * q;
    SameDiffers(q, a - c, b - d, k - m);
  }

  lemma SameMul(q: Order, e: int, a: int, b: int)
    requires Same(q, a, b)
    ensures Same(q, e * a, e * b)
  {
    var k := SameGap(q, a, b);
    assert e * (b + k * q) == e * b + e * k * q;
    SameDiffers(q, e * a, e * b, e * k);
  }

  // ----- points -----

  /** blind·G + value·H, both coefficients reduced. */
  datatype Point = Point(blind: int, value: int)

  const IDENTITY := Point(0, 0)

  function Commit(q: Order, blind: int, value: int): Point {
    Point(blind % q, value % q)
  }

  function KeyPoint(q: Order, secret: int): Point {
    Commit(q, secret, 0)
  }

  function AddPoints(q: Order, a: Point, b: Point): Point {
    Commit(q, a.blind + b.blind, a.value + b.value)
  }

  function Scale(q: Order, e: int, p: Point): Point {
    Commit(q, e * p.blind, e * p.value)
  }

  lemma AddCommits(q: Order, a: int, v: int, b: int, w: int)
    ensures AddPoints(q, Commit(q, a, v), Commit(q, b, w)) == Commit(q, a + b, v + w)
  {
    SameMod(q, a);
    SameMod(q, b);
    SameMod(q, v);
    SameMod(q, w);
    SameAdd(q, a % q, a, b % q, b);
    SameAdd(q, v % q, v, w % q, w);
  }

  lemma ScaleCommit(q: Order, e: int, a: int, v: int)
    ensures Scale(q, e, Commit(q, a, v)) == Commit(q, e * a, e * v)
  {
    SameMod(q, a);
    SameMod(q, v);
    SameMul(q, e, a % q, a);
    SameMul(q, e, v % q, v);
  }

  lemma ReducedKey(q: Order, a: int)
    ensures KeyPoint(q, a % q) == KeyPoint(q, a)
  {
    SameMod(q, a);
  }

  function SumPoints(q: Order, ps: seq<Point>): Point {
    if ps == [] then IDENTITY else AddPoints(q, SumPoints(q, ps[..|ps| - 1]), ps[|ps| - 1])
  }

  function Sum(xs: seq<int>): int {
    if xs == [] then 0 else Sum(xs[..|xs| - 1]) + xs[|xs| - 1]
  }

  lemma SumAppend(xs: seq<int>, x: int)
    ensures Sum(xs + [x]) == Sum(xs) + x
  {
    assert (xs + [x])[..|xs|] == xs;
  }

  /** The sum of public keys is the public key of the sum. */
  lemma {:induction false} SumOfKeys(q: Order, ps: seq<Point>, keys: seq<int>)
    requires |ps| == |keys| && forall i | 0 <= i < |ps| :: ps[i] == KeyPoint(q, keys[i])
    ensures SumPoints(q, ps) == KeyPoint(q, Sum(keys))
  {
    if ps != [] {
      var n := |ps| - 1;
      SumOfKeys(q, ps[..n], keys[..n]);
      SameMod(q, Sum(keys[..n]));
      SameMod(q, keys[n]);
      SameAdd(q, Sum(keys[..n]) % q, Sum(keys[..n]), keys[n] % q, keys[n]);
    }
  }

  function Blinds(ps: seq<Point>): int {
    if ps == [] then 0 else Blinds(ps[..|ps| - 1]) + ps[|ps| - 1].blind
  }

  function Values(ps: seq<Point>): int {
    if ps == [] then 0 else Values(ps[..|ps| - 1]) + ps[|ps| - 1].value
  }

  lemma TotalsAppend(ps: seq<Point>, p: Point)
    ensures Blinds(ps + [p]) == Blinds(ps) + p.blind
    ensures Values(ps + [p]) == Values(ps) + p.value
  {
    assert (ps + [p])[..|ps|] == ps;
  }

  /** The sum of commitments commits to the sums. */
  lemma {:induction false} SumOfCommitments(q: Order, ps: seq<Point>)
    ensures SumPoints(q, ps) == Commit(q, Blinds(ps), Values(ps))
  {
    if ps != [] {
      var n := |ps| - 1;
      var front, p := ps[..n], ps[n];
      SumOfCommitments(q, front);
      SameMod(q, Blinds(front));
      SameMod(q, Values(front));
      SameAdd(q, Blinds(front) % q, Blinds(front), p.blind, p.blind);
      SameAdd(q, Values(front) % q, Values(front), p.value, p.value);
    }
  }
}
