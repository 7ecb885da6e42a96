/**
 Arithmetic of wrapping indices.
 */
module Modular {

  lemma MulDist(n: int, a: int, b: int)
    ensures n * a - n * b == n * (a - b)
  {
  }

  lemma MulGrows(n: int, d: int)
    requires n >= 0 && d >= 1
    ensures n * d >= n
  {
    assert n * d == n + n * (d - 1);
  }

  /** Quotient and remainder are determined by their defining equation. */
  lemma ModUnique(x: int, n: int, q: int, r: int)
    requires 0 <= r < n && x == n * q + r
    ensures x % n == r && x / n == q
  {
    var q', r' := x / n, x % n;
    assert x == n * q' + r';
    MulDist(n, q, q');
    if q > q' {
      MulGrows(n, q - q');
    } else if q < q' {
      MulDist(n, q', q);
      MulGrows(n, q' - q);
    }
  }

  lemma ModShift(b: int, k: int, n: int)
    requires n > 0
    ensures (n * k + b) % n == b % n
  {
    var q := b / n;
    assert b == n * q + b % n;
    assert n * k + n * q == n * (k + q);
    ModUnique(n * k + b, n, k + q, b % n);
  }

  /** Reducing one summand first changes nothing. */
  lemma ModAdd(x: int, y: int, n: int)
    requires n > 0
    ensures (x % n + y) % n == (x + y) % n
  {
    assert x + y == n * (x / n) + (x % n + y);
    ModShift(x % n + y, x / n, n);
  }

  /** Numbers less than n apart have different residues. */
  lemma ResiduesDiffer(a: int, b: int, n: int)
    requires a < b < a + n
    ensures a % n != b % n
  {
    var d := b / n - a / n;
    assert a == n * (a / n) + a % n;
    assert b == n * (b / n) + b % n;
    MulDist(n, b / n, a / n);
    assert b - a == n * d + (b % n - a % n);
    if d >= 1 {
      MulGrows(n, d);
    } else if d <= -1 {
      MulGrows(n, -d);
    }
  }

  /** An index kept modulo w selects the same cell of a ring of n as the unbounded count,
      when n divides w. */
  lemma WrapThenCell(x: nat, w: nat, n: nat)
    requires 0 < n && 0 < w && w % n == 0
    ensures x % w % n == x % n
  {
    var m, a, b := w / n, x / w, x % w;
    assert w == n * m;
    assert x == w * a + b;
    MulAssoc(n, m, a);
    ModShift(b, m * a, n);
  }

  lemma MulAssoc(n: int, m: int, a: int)
    ensures n * m * a == n * (m * a)
  {
  }

  /** The wrapped difference of two counters is their distance, if that is below w. */
  lemma WrappedDistance(lo: nat, hi: nat, w: nat)
    requires lo <= hi < lo + w
    ensures (hi % w - lo % w) % w == hi - lo
    ensures hi % w == lo % w <==> hi == lo
  {
    assert lo == w * (lo / w) + lo % w;
    assert hi == w * (hi / w) + hi % w;
    MulDist(w, hi / w, lo / w);
    var d := hi / w - lo / w;
    assert hi - lo == w * d + (hi % w - lo % w);
    assert hi % w - lo % w == w * (-d) + (hi - lo) by { MulDist(w, 0, d); }
    ModUnique(hi % w - lo % w, w, -d, hi - lo);
    if lo < hi {
      ResiduesDiffer(lo, hi, w);
    }
  }
}
