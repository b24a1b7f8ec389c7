/**
 Positional numerals: big-endian digit strings, the numbers they denote, and the canonical
 (shortest) digit string of a number. Everything the codecs say about "the same number in another
 base" is said with these functions.
 */
module Numerals {

  function Pow(b: nat, n: nat): (p: nat)
  {
    if n == 0 then 1 else b * Pow(b, n - 1)
  }

  /** The number written by the digits ds, most significant first. */
  function Value(b: nat, ds: seq<nat>): nat
  {
    if ds == [] then 0 else Value(b, ds[..|ds| - 1]) * b + ds[|ds| - 1]
  }

  predicate AllBelow(b: nat, ds: seq<nat>)
  {
    forall i | 0 <= i < |ds| :: ds[i] < b
  }

  /** The shortest digit string of n; zero is the empty string. */
  function Digits(b: nat, n: nat): (ds: seq<nat>)
    requires b > 1
    ensures AllBelow(b, ds)
    decreases n
  {
    if n == 0 then [] else
      DivShrinks(n, b);
      Digits(b, n / b) + [n % b]
  }

  lemma DivShrinks(n: nat, b: nat)
    requires b > 1 && n > 0
    ensures 0 <= n / b < n && 0 <= n % b < b && n == n / b * b + n % b
  {
    var q := n / b;
    if q >= n {
      assert q * b >= n * 2 by { MulMono(2, b, q); }
    }
  }

  function Zeros(k: nat): (zs: seq<nat>)
    ensures |zs| == k && forall i | 0 <= i < k :: zs[i] == 0
  {
    seq(k, _ => 0)
  }

  /** How many elements at the front of s equal x. */
  function LeadingCount<T(==)>(x: T, s: seq<T>): (k: nat)
    ensures k <= |s|
    ensures forall i | 0 <= i < k :: s[i] == x
    ensures k < |s| ==> s[k] != x
  {
    if s == [] || s[0] != x then 0 else 1 + LeadingCount(x, s[1..])
  }

  // ----- powers -----

  lemma MulMono(x: nat, y: nat, z: nat)
    requires x <= y
    ensures x * z <= y * z
  {
  }

  lemma {:induction false} PowPositive(b: nat, n: nat)
    requires b > 0
    ensures Pow(b, n) > 0
  {
    if n > 0 {
      PowPositive(b, n - 1);
    }
  }

  lemma {:induction false} PowAdd(b: nat, m: nat, n: nat)
    ensures Pow(b, m + n) == Pow(b, m) * Pow(b, n)
  {
    if m > 0 {
      PowAdd(b, m - 1, n);
      PowStep(b, m);
      PowStep(b, m + n);
      hide Pow;
      MulAssoc(b, Pow(b, m - 1), Pow(b, n));
    }
  }

  lemma PowStep(b: nat, m: nat)
    requires m > 0
    ensures Pow(b, m) == b * Pow(b, m - 1)
  {
  }

  lemma MulAssoc(x: nat, y: nat, z: nat)
    ensures x * (y * z) == x * y * z
  {
  }

  lemma PowMono(b: nat, m: nat, n: nat)
    requires b > 0 && m <= n
    ensures Pow(b, m) <= Pow(b, n)
  {
    hide Pow;
    assert m + (n - m) == n;
    PowAdd(b, m, n - m);
    PowPositive(b, n - m);
    MulGrows(Pow(b, m), Pow(b, n - m));
  }

  lemma MulGrows(a: nat, b: nat)
    requires b > 0
    ensures a <= a * b
  {
  }

  lemma MulLe(a: nat, b: nat, c: nat, d: nat)
    requires a <= b && c <= d
    ensures a * c <= b * d
  {
    MulMono(a, b, c);
    MulMono(c, d, b);
  }

  // ----- values -----

  lemma {:induction false} ValueConcat(b: nat, xs: seq<nat>, ys: seq<nat>)
    ensures Value(b, xs + ys) == Value(b, xs) * Pow(b, |ys|) + Value(b, ys)
  {
    if ys == [] {
      assert xs + ys == xs;
    } else {
      var front, last := ys[..|ys| - 1], ys[|ys| - 1];
      ValueConcat(b, xs, front);
      assert (xs + ys)[..|xs + ys| - 1] == xs + front;
      assert ys == front + [last] && Pow(b, |ys|) == b * Pow(b, |front|);
      Regroup(Value(b, xs), Pow(b, |front|), Value(b, front), b, last);
    }
  }

  lemma Regroup(v: nat, p: nat, f: nat, b: nat, d: nat)
    ensures (v * p + f) * b + d == v * (b * p) + (f * b + d)
  {
    assert v * p * b == v * (b * p);
  }

  lemma ValueSingle(b: nat, d: nat)
    ensures Value(b, [d]) == d
  {
    assert [d][..0] == [];
  }

  lemma ValueCons(b: nat, d: nat, ys: seq<nat>)
    ensures Value(b, [d] + ys) == d * Pow(b, |ys|) + Value(b, ys)
  {
    ValueConcat(b, [d], ys);
    ValueSingle(b, d);
  }

  lemma {:induction false} ValueZeros(b: nat, k: nat)
    ensures Value(b, Zeros(k)) == 0
  {
    if k > 0 {
      ValueZeros(b, k - 1);
      assert Zeros(k)[..k - 1] == Zeros(k - 1);
    }
  }

  lemma {:induction false} ValueBound(b: nat, ds: seq<nat>)
    requires b > 0 && AllBelow(b, ds)
    ensures Value(b, ds) < Pow(b, |ds|)
  {
    if ds != [] {
      var front := ds[..|ds| - 1];
      ValueBound(b, front);
      BoundStep(Value(b, front), Pow(b, |front|), b, ds[|ds| - 1]);
    }
  }

  lemma BoundStep(v: nat, p: nat, b: nat, d: nat)
    requires v < p && d < b
    ensures v * b + d < b * p
  {
    MulMono(v + 1, p, b);
  }

  lemma {:induction false} ValueDigits(b: nat, n: nat)
    requires b > 1
    ensures Value(b, Digits(b, n)) == n
  {
    if n > 0 {
      DivShrinks(n, b);
      ValueDigits(b, n / b);
      var ds := Digits(b, n);
      assert ds[..|ds| - 1] == Digits(b, n / b);
    }
  }

  lemma {:induction false} DigitsLeading(b: nat, n: nat)
    requires b > 1
    ensures n > 0 ==> |Digits(b, n)| > 0 && Digits(b, n)[0] != 0
  {
    if n > 0 {
      DivShrinks(n, b);
      DigitsLeading(b, n / b);
    }
  }

  lemma DivModUnique(b: nat, q: nat, r: nat)
    requires r < b
    ensures (q * b + r) / b == q && (q * b + r) % b == r
  {
    var n := q * b + r;
    var q', r' := n / b, n % b;
    assert n == q' * b + r' && 0 <= r' < b;
    if q' > q {
      MulGap(q, q', b);
    } else if q' < q {
      MulGap(q', q, b);
    }
  }

  lemma MulGap(x: nat, y: nat, z: nat)
    requires x < y
    ensures x * z + z <= y * z
  {
    MulMono(x + 1, y, z);
  }

  /** A digit string without leading zeros is the canonical string of its value. */
  lemma {:induction false} DigitsValue(b: nat, ds: seq<nat>)
    requires b > 1 && AllBelow(b, ds)
    requires ds != [] ==> ds[0] != 0
    ensures Digits(b, Value(b, ds)) == ds
  {
    if ds != [] {
      var front, last := ds[..|ds| - 1], ds[|ds| - 1];
      DigitsValue(b, front);
      DivModUnique(b, Value(b, front), last);
      if front == [] {
        assert ds == [last];
      } else {
        NonzeroValue(b, front);
        MulMono(1, Value(b, front), b);
      }
      assert ds == front + [last];
    }
  }

  lemma NonzeroValue(b: nat, ds: seq<nat>)
    requires b > 0 && ds != [] && ds[0] != 0
    ensures Value(b, ds) >= Pow(b, |ds| - 1) > 0
  {
    assert ds == [ds[0]] + ds[1..];
    ValueCons(b, ds[0], ds[1..]);
    PowPositive(b, |ds| - 1);
    MulMono(1, ds[0], Pow(b, |ds| - 1));
  }

  lemma LeadingZeros(ds: seq<nat>, k: nat)
    requires k == LeadingCount(0, ds)
    ensures ds == Zeros(k) + ds[k..] && forall i | 0 <= i < k :: ds[i] == 0
    ensures ds[k..] != [] ==> ds[k..][0] != 0
  {
  }

  lemma BelowTail(b: nat, ds: seq<nat>, k: nat)
    requires AllBelow(b, ds) && k <= |ds|
    ensures AllBelow(b, ds[k..])
  {
  }

  /** Dropping the leading zeros of any digit string leaves the canonical string of its value. */
  lemma StripZeros(b: nat, ds: seq<nat>)
    requires b > 1 && AllBelow(b, ds)
    ensures ds[LeadingCount(0, ds)..] == Digits(b, Value(b, ds))
    ensures ds == Zeros(LeadingCount(0, ds)) + Digits(b, Value(b, ds))
  {
    hide LeadingCount, Value, Digits;
    var k := LeadingCount(0, ds);
    LeadingZeros(ds, k);
    SkippedZeros(b, ds, k);
    BelowTail(b, ds, k);
    hide AllBelow;
    DigitsValue(b, ds[k..]);
  }

  /** Zeros followed by a canonical string give back both parts. */
  lemma PaddedDigits(b: nat, z: nat, n: nat, ds: seq<nat>)
    requires b > 1 && ds == Zeros(z) + Digits(b, n)
    ensures LeadingCount(0, ds) == z && Value(b, ds) == n
  {
    assert ds[z..] == Digits(b, n);
    if n > 0 {
      DigitsLeading(b, n);
    }
    LeadingCountPrefix(0, z, ds[z..], ds);
    SkippedZeros(b, ds, z);
    ValueDigits(b, n);
  }

  /** The length of the canonical string measures the number. */
  lemma DigitsLength(b: nat, n: nat, k: nat)
    requires b > 1
    ensures |Digits(b, n)| <= k <==> n < Pow(b, k)
  {
    var ds := Digits(b, n);
    ValueDigits(b, n);
    ValueBound(b, ds);
    if |ds| <= k {
      PowMono(b, |ds|, k);
    } else {
      DigitsLeading(b, n);
      NonzeroValue(b, ds);
      PowMono(b, k, |ds| - 1);
    }
  }

  lemma {:induction false} LeadingCountPrefix<T>(x: T, k: nat, rest: seq<T>, s: seq<T>)
    requires |s| == k + |rest| && s[k..] == rest
    requires forall i | 0 <= i < k :: s[i] == x
    requires rest != [] ==> rest[0] != x
    ensures LeadingCount(x, s) == k
  {
    if rest != [] {
      assert s[k] == rest[0];
    }
  }

  // ----- multiplying a row of cells in place -----

  /**
   A row of cells in base w, which held was, is being replaced by m times itself plus b, from its last
   cell to its first: the cells of now from p on hold the low digits of the new number, carry holds
   what goes beyond them, and the cells before p are as they were.
   */
  ghost predicate Carrying(w: nat, m: nat, was: seq<nat>, now: seq<nat>, p: nat, carry: nat, b: nat)
  {
    && p <= |was| == |now|
    && carry < m
    && AllBelow(w, now)
    && now[..p] == was[..p]
    && carry * Pow(w, |now| - p) + Value(w, now[p..]) == m * Value(w, was[p..]) + b
  }

  lemma CarryStart(w: nat, m: nat, was: seq<nat>, b: nat)
    requires AllBelow(w, was) && b < m
    ensures Carrying(w, m, was, was, |was|, b, b)
  {
    assert was[|was|..] == [];
  }

  lemma CarryCell(w: nat, m: nat, was: seq<nat>, now: seq<nat>, p: nat, carry: nat, b: nat)
    requires Carrying(w, m, was, now, p, carry, b) && p > 0 && w > 0
    ensures var t := carry + m * now[p - 1];
            0 <= t / w < m && Carrying(w, m, was, now[p - 1 := t % w], p - 1, t / w, b)
  {
    hide Pow, Value;
    var j := p - 1;
    var t := carry + m * now[j];
    var next := now[j := t % w];
    CarryBelow(w, m, now[j], carry);
    CarryStep(w, m, now[j], carry, b, was[p..], now[p..]);
    assert now[j] == now[..p][j] == was[j];
    assert next[j..] == [t % w] + now[p..];
    assert was[j..] == [was[j]] + was[p..];
    assert next[..j] == now[..p][..j] == was[..p][..j] == was[..j];
    assert AllBelow(w, next);
  }

  lemma CarryBelow(w: nat, m: nat, d: nat, c: nat)
    requires d < w && c < m
    ensures 0 <= (c + m * d) / w < m && 0 <= (c + m * d) % w < w
  {
    var t := c + m * d;
    MulMono(d + 1, w, m);
    assert t == t / w * w + t % w;
    if t / w >= m {
      MulMono(m, t / w, w);
    }
  }

  /** When the cells never visited hold zeros and nothing is carried, the row holds the new number. */
  lemma CarryDone(w: nat, m: nat, was: seq<nat>, now: seq<nat>, p: nat, b: nat)
    requires Carrying(w, m, was, now, p, 0, b)
    requires forall k | 0 <= k < p :: was[k] == 0
    ensures Value(w, now) == m * Value(w, was) + b
    ensures AllBelow(w, now) && forall k | 0 <= k < p :: now[k] == 0
  {
    assert forall k | 0 <= k < p :: now[k] == now[..p][k] == was[..p][k];
    SkippedZeros(w, was, p);
    SkippedZeros(w, now, p);
  }

  /** When every cell was visited, the carry is what does not fit the row. */
  lemma CarryOut(w: nat, m: nat, was: seq<nat>, now: seq<nat>, carry: nat, b: nat)
    requires Carrying(w, m, was, now, 0, carry, b) && w > 0
    ensures carry * Pow(w, |now|) + Value(w, now) == m * Value(w, was) + b
    ensures carry == 0 <==> m * Value(w, was) + b < Pow(w, |now|)
  {
    assert was[0..] == was && now[0..] == now;
    ValueBound(w, now);
    if carry > 0 {
      MulMono(1, carry, Pow(w, |now|));
    }
  }

  lemma SkippedZeros(b: nat, ds: seq<nat>, p: nat)
    requires p <= |ds| && forall k | 0 <= k < p :: ds[k] == 0
    ensures Value(b, ds) == Value(b, ds[p..])
  {
    assert ds == Zeros(p) + ds[p..];
    ValueConcat(b, Zeros(p), ds[p..]);
    ValueZeros(b, p);
  }

  lemma AppendDigit(b: nat, s: seq<nat>, lo: nat, i: nat)
    requires lo <= i < |s|
    ensures Value(b, s[lo..i + 1]) == Value(b, s[lo..i]) * b + s[i]
  {
    var t := s[lo..i + 1];
    assert t[..|t| - 1] == s[lo..i];
  }

  lemma CarryStep(w: nat, m: nat, d: nat, c: nat, a: nat, was: seq<nat>, now: seq<nat>)
    requires w > 0 && |was| == |now|
    requires c * Pow(w, |now|) + Value(w, now) == m * Value(w, was) + a
    ensures var t := c + m * d;
            t / w * Pow(w, |now| + 1) + Value(w, [t % w] + now) == m * Value(w, [d] + was) + a
  {
    hide Value;
    var t, p := c + m * d, Pow(w, |now|);
    assert Pow(w, |now| + 1) == w * p;
    hide Pow;
    ValueCons(w, t % w, now);
    ValueCons(w, d, was);
    CarryArithmetic(w, m, d, c, a, t / w, t % w, p, Value(w, was), Value(w, now));
  }

  lemma CarryArithmetic(w: int, m: int, d: int, c: int, a: int, q: int, r: int, p: int, vWas: int, vNow: int)
    requires d * m + c == q * w + r
    requires c * p + vNow == m * vWas + a
    ensures q * (w * p) + (r * p + vNow) == m * (d * p + vWas) + a
  {
    calc {
      q * (w * p) + r * p;
    ==
      (q * w + r) * p;
    ==
      (d * m + c) * p;
    ==
      d * m * p + c * p;
    }
    assert m * (d * p + vWas) == d * m * p + m * vWas;
  }
}
