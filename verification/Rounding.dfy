/**
 Single precision arithmetic as far as the request profile needs it: any rounding whose
 results are off by at most 2^-24 of themselves, as rounding to nearest is for numbers of
 the sizes that occur here.
 */
module Rounding {

  /** A result is off by at most 2^-24 of itself. */
  ghost predicate Rounds(fl: real -> real) {
    forall x: real :: -Size(x) <= 16777216.0 * (fl(x) - x) <= Size(x)
  }

  function Size(x: real): real {
    if x < 0.0 then -x else x
  }

  type Float = fl: real -> real | Rounds(fl) witness (x => x)

  const UP: real := 16777217.0 / 16777216.0
  const DOWN: real := 16777215.0 / 16777216.0

  lemma RoundedAt(fl: Float, x: real)
    requires x >= 0.0
    ensures DOWN * x <= fl(x) <= UP * x
  {
  }

  /** `(int)` of a float. */
  function ToInt(x: real): int {
    if x >= 0.0 then x.Floor else -(-x).Floor
  }

  lemma Scaled(a: real, b: real, c: real)
    requires a <= b && c >= 0.0
    ensures a * c <= b * c && c * a <= c * b
  {
  }

  lemma Moved(a: real, b: real, c: real)
    ensures (a * b) * c == a * (b * c) && (a * b) * c == b * (a * c)
  {
  }

  /** The rounded quotient x of two rounded numbers, times the divisor. */
  lemma Quotient(a: real, r: real, a1: real, r1: real, x: real, q: real)
    requires a >= 0.0 && r > 0.0 && a1 >= 0.0 && r1 > 0.0 && x >= 0.0 && q >= 0.0
    requires a1 <= UP * a && DOWN * r <= r1 && x * r1 == a1 && q <= UP * x
    ensures DOWN * (q * r) <= UP * (UP * a)
  {
    Scaled(q, UP * x, r1);
    Moved(UP, x, r1);
    Scaled(DOWN * r, r1, q);
    Moved(DOWN, q, r);
    Moved(q, DOWN, r);
    assert q * (DOWN * r) == DOWN * (q * r) by { Moved(q, DOWN, r); }
    Scaled(a1, UP * a, UP);
  }

  /** The rounded product p of a rounded number and q, in terms of z = b1 * (q * r). */
  lemma Product(b: real, r: real, b1: real, q: real, p: real, c: real)
    requires b >= 0.0 && r > 0.0 && b1 >= 0.0 && q >= 0.0 && c >= 0.0
    requires b1 <= UP * b && p <= UP * (b1 * q) && DOWN * (q * r) <= c
    ensures DOWN * (b1 * (q * r)) <= UP * (b * c)
    ensures p * r <= UP * (b1 * (q * r))
  {
    var qr := q * r;
    assert qr >= 0.0 by { Scaled(0.0, q, r); }
    Scaled(p, UP * (b1 * q), r);
    Moved(UP, b1 * q, r);
    Moved(b1, q, r);
    assert b1 * (DOWN * qr) == DOWN * (b1 * qr) by { Moved(b1, DOWN, qr); }
    Scaled(DOWN * qr, c, b1);
    Scaled(b1, UP * b, c);
    Moved(UP, b, c);
  }

  lemma InAll(z: real, w: real, y: real)
    requires w >= 0.0 && DOWN * z <= UP * (UP * (UP * w)) && y <= UP * z
    ensures 2097152.0 * y <= 2097153.0 * w
  {
  }

  /** Five roundings: of the numbers, of the quotient, and of the product. */
  lemma FiveRoundings(a: real, b: real, r: real, a1: real, b1: real, r1: real, x: real, q: real, p: real)
    requires a >= 0.0 && b >= 0.0 && r > 0.0 && a1 >= 0.0 && b1 >= 0.0 && r1 > 0.0 && x >= 0.0 && q >= 0.0
    requires a1 <= UP * a && b1 <= UP * b && DOWN * r <= r1 && x * r1 == a1 && q <= UP * x && p <= UP * (b1 * q)
    ensures 2097152.0 * (p * r) <= 2097153.0 * (b * a)
  {
    Quotient(a, r, a1, r1, x, q);
    Product(b, r, b1, q, p, UP * (UP * a));
    assert b * (UP * (UP * a)) == UP * (UP * (b * a)) by {
      Moved(b, UP, UP * a);
      Moved(b, UP, a);
    }
    Scaled(0.0, b, a);
    InAll(b1 * (q * r), b * a, p * r);
  }

  /** The same from below. */
  lemma QuotientLeast(a: real, r: real, a1: real, r1: real, x: real, q: real)
    requires a >= 0.0 && r > 0.0 && a1 >= 0.0 && r1 > 0.0 && x >= 0.0 && q >= 0.0
    requires DOWN * a <= a1 && r1 <= UP * r && x * r1 == a1 && DOWN * x <= q
    ensures DOWN * (DOWN * a) <= UP * (q * r)
  {
    Scaled(DOWN * x, q, r1);
    Moved(DOWN, x, r1);
    Scaled(DOWN * a, a1, DOWN);
    Scaled(r1, UP * r, q);
    assert q * (UP * r) == UP * (q * r) by { Moved(q, UP, r); }
  }

  lemma ProductLeast(b: real, r: real, b1: real, q: real, p: real, c: real)
    requires b >= 0.0 && r > 0.0 && b1 >= 0.0 && q >= 0.0 && c >= 0.0
    requires DOWN * b <= b1 && DOWN * (b1 * q) <= p && c <= UP * (q * r)
    ensures DOWN * (b * c) <= UP * (b1 * (q * r))
    ensures DOWN * (b1 * (q * r)) <= p * r
  {
    var qr := q * r;
    Scaled(DOWN * (b1 * q), p, r);
    Moved(DOWN, b1 * q, r);
    Moved(b1, q, r);
    assert b1 * (UP * qr) == UP * (b1 * qr) by { Moved(b1, UP, qr); }
    Scaled(c, UP * qr, b1);
    Scaled(DOWN * b, b1, c);
    Moved(DOWN, b, c);
  }

  lemma InAllLeast(z: real, w: real, y: real)
    requires w >= 0.0 && DOWN * (DOWN * (DOWN * w)) <= UP * z && DOWN * z <= y
    ensures 2097151.0 * w <= 2097152.0 * y
  {
  }

  lemma FiveRoundingsLeast(a: real, b: real, r: real, a1: real, b1: real, r1: real, x: real, q: real, p: real)
    requires a >= 0.0 && b >= 0.0 && r > 0.0 && a1 >= 0.0 && b1 >= 0.0 && r1 > 0.0 && x >= 0.0 && q >= 0.0
    requires DOWN * a <= a1 && DOWN * b <= b1 && r1 <= UP * r && x * r1 == a1
    requires DOWN * x <= q && DOWN * (b1 * q) <= p
    ensures 2097151.0 * (b * a) <= 2097152.0 * (p * r)
  {
    QuotientLeast(a, r, a1, r1, x, q);
    ProductLeast(b, r, b1, q, p, DOWN * (DOWN * a));
    assert b * (DOWN * (DOWN * a)) == DOWN * (DOWN * (b * a)) by {
      Moved(b, DOWN, DOWN * a);
      Moved(b, DOWN, a);
    }
    Scaled(0.0, b, a);
    InAllLeast(b1 * (q * r), b * a, p * r);
  }

  /** The quotient of two rounded numbers, and it times the divisor. */
  function Quot(a: real, r: real, fl: Float): real
    requires r > 0.0
  {
    RoundedAt(fl, r);
    fl(a) / fl(r)
  }

  lemma QuotIs(a: real, r: real, fl: Float)
    requires a >= 0.0 && r > 0.0
    ensures fl(a) >= 0.0 && fl(r) > 0.0 && Quot(a, r, fl) >= 0.0 && Quot(a, r, fl) * fl(r) == fl(a)
  {
    RoundedAt(fl, a);
    RoundedAt(fl, r);
  }

  function Parted(a: real, b: real, r: real, fl: Float): real
    requires r > 0.0
  {
    fl(fl(b) * fl(Quot(a, r, fl)))
  }

  /** The intermediate results: the rounded numbers, the quotient, and it rounded. */
  lemma Roundings(a: real, b: real, r: real, fl: Float)
    requires a >= 0.0 && b >= 0.0 && r > 0.0
    ensures var x := Quot(a, r, fl);
            && fl(a) >= 0.0 && fl(b) >= 0.0 && fl(r) > 0.0 && x >= 0.0 && fl(x) >= 0.0 && x * fl(r) == fl(a)
            && DOWN * a <= fl(a) <= UP * a && DOWN * b <= fl(b) <= UP * b && DOWN * r <= fl(r) <= UP * r
            && DOWN * x <= fl(x) <= UP * x
            && DOWN * (fl(b) * fl(x)) <= Parted(a, b, r, fl) <= UP * (fl(b) * fl(x)) && Parted(a, b, r, fl) >= 0.0
  {
    var x := Quot(a, r, fl);
    QuotIs(a, r, fl);
    RoundedAt(fl, a);
    RoundedAt(fl, b);
    RoundedAt(fl, r);
    RoundedAt(fl, x);
    Scaled(0.0, fl(b), fl(x));
    RoundedAt(fl, fl(b) * fl(x));
  }

  lemma PartedMost(a: real, b: real, r: real, fl: Float)
    requires a >= 0.0 && b >= 0.0 && r > 0.0
    ensures 2097152.0 * (Parted(a, b, r, fl) * r) <= 2097153.0 * (b * a)
  {
    Roundings(a, b, r, fl);
    FiveRoundings(a, b, r, fl(a), fl(b), fl(r), Quot(a, r, fl), fl(Quot(a, r, fl)), Parted(a, b, r, fl));
  }

  lemma PartedLeast(a: real, b: real, r: real, fl: Float)
    requires a >= 0.0 && b >= 0.0 && r > 0.0
    ensures 2097151.0 * (b * a) <= 2097152.0 * (Parted(a, b, r, fl) * r)
  {
    Roundings(a, b, r, fl);
    FiveRoundingsLeast(a, b, r, fl(a), fl(b), fl(r), Quot(a, r, fl), fl(Quot(a, r, fl)), Parted(a, b, r, fl));
  }

  lemma IntProduct(a: int, b: int)
    ensures a as real * b as real == (a * b) as real
  {
  }

  /** What is cut to an int keeps the bound, and loses less than one. */
  lemma CutBound(p: real, n: int, m: int, r: int)
    requires p >= 0.0 && r > 0 && 2097152.0 * (p * r as real) <= 2097153.0 * (m as real * n as real)
    ensures 0x20_0000 * (ToInt(p) * r) <= 0x20_0001 * (m * n)
  {
    var k := p.Floor;
    Scaled(k as real, p, r as real);
    IntProduct(k, r);
    IntProduct(m, n);
    IntProduct(0x20_0000, k * r);
    IntProduct(0x20_0001, m * n);
  }

  lemma CutLeast(p: real, n: int, m: int, r: int)
    requires p >= 0.0 && r > 0 && 2097151.0 * (m as real * n as real) <= 2097152.0 * (p * r as real)
    ensures 0x1F_FFFF * (m * n) < 0x20_0000 * ((ToInt(p) + 1) * r)
  {
    var k := ToInt(p) + 1;
    var d := k as real - p;
    assert d > 0.0 && d * r as real > 0.0;
    assert k as real * r as real == p * r as real + d * r as real;
    IntProduct(k, r);
    IntProduct(m, n);
    IntProduct(0x20_0000, k * r);
    IntProduct(0x1F_FFFF, m * n);
  }

  /** The part n has in r of m, in floats: (int)(m * (n / r)). */
  function Part(n: int, m: int, r: int, fl: Float): int
    requires r > 0
  {
    ToInt(Parted(n as real, m as real, r as real, fl))
  }

  /** The part is the exact one, m * n / r, but for one in 2^21 and less than one for the
      cut. */
  lemma PartBound(n: int, m: int, r: int, fl: Float)
    requires n >= 0 && m >= 0 && r > 0
    ensures Part(n, m, r, fl) >= 0
    ensures 0x20_0000 * (Part(n, m, r, fl) * r) <= 0x20_0001 * (m * n)
    ensures 0x1F_FFFF * (m * n) < 0x20_0000 * ((Part(n, m, r, fl) + 1) * r)
  {
    Roundings(n as real, m as real, r as real, fl);
    PartedMost(n as real, m as real, r as real, fl);
    PartedLeast(n as real, m as real, r as real, fl);
    CutBound(Parted(n as real, m as real, r as real, fl), n, m, r);
    CutLeast(Parted(n as real, m as real, r as real, fl), n, m, r);
  }

  lemma MovedInt(a: int, b: int, c: int)
    ensures a * (b * c) == (a * b) * c
  {
  }

  lemma AddTimes(a: int, b: int, c: int)
    ensures (a + b) * c == a * c + b * c && c * (a + b) == c * a + c * b
  {
  }

  lemma FitsInto(a: int, b: int, c: int)
    requires c > 0 && a * c <= b * c
    ensures a <= b
  {
    var d := a - b;
    AddTimes(d, b, c);
    if d > 0 {
      AddTimes(d - 1, 1, c);
    }
  }
}
