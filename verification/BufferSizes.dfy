/**
 Size classes of the buffer pool (XrdBuffer.cc and XrdBuffXL.cc, Obtain, Recalc
 and Init; XrdOucUtils::Log2).
 */
module BufferSizes {

  const BUCKETS: nat := 12              // XRD_BUCKETS
  const MIN_SIZE: nat := 1024           // 1 << XRD_BUSHIFT
  const MAX_SIZE: nat := 0x20_0000      // 1 << (XRD_BUSHIFT + XRD_BUCKETS - 1)
  const XL_MIN_SIZE: nat := 0x40_0000   // 1 << (XRD_BUSHIFT + XRD_BUCKETS)
  const XL_MAX_SIZE: nat := 0x4000_0000 // 1 << 30
  const INT_MAX: int := 0x7fff_ffff

  function Pow2(n: nat): (p: nat)
    ensures p > 0
  {
    if n == 0 then 1 else 2 * Pow2(n - 1)
  }

  lemma {:induction false} Pow2Add(a: nat, b: nat)
    ensures Pow2(a + b) == Pow2(a) * Pow2(b)
  {
    if b > 0 {
      Pow2Add(a, b - 1);
    }
  }

  lemma {:induction false} Pow2Mono(a: nat, b: nat)
    requires a < b
    ensures 2 * Pow2(a) <= Pow2(b)
  {
    if a + 1 < b {
      Pow2Mono(a, b - 1);
    }
  }

  lemma Pow2Facts()
    ensures Pow2(10) == MIN_SIZE && Pow2(21) == MAX_SIZE && Pow2(22) == XL_MIN_SIZE && Pow2(30) == XL_MAX_SIZE
  {
    var p := Pow2(10);
    assert p == 1024;
    Pow2Add(10, 11);
    Pow2Add(11, 11);
    Pow2Add(8, 22);
    assert Pow2(11) == 2048 && Pow2(8) == 256;
  }

  // ---------------------------------------------------------------------
  // XrdOucUtils::Log2

  /** `SHFT(k)` on the pair (i, n). */
  function Shift(k: nat, s: (nat, nat)): (nat, nat) {
    if s.1 >= Pow2(k) then (s.0 + k, s.1 / Pow2(k)) else s
  }

  function Shifts(w: nat, s: (nat, nat)): (nat, nat) {
    Shift(w, Shift(2 * w, Shift(4 * w, s)))
  }

  /** SHFT(32) SHFT(16) SHFT(8), then SHFT(4) SHFT(2) SHFT(1). */
  function Log2(n: nat): nat {
    Shifts(1, Shifts(8, (0, n))).0
  }

  lemma MulLe(a: nat, b: nat, c: nat)
    requires a <= b
    ensures a * c <= b * c
  {
  }

  /** The quotient is the one q with d*q <= n < d*q + d. */
  lemma QuotientIs(n: nat, d: nat, q: nat)
    requires d > 0 && q * d <= n < q * d + d
    ensures n / d == q
  {
    var x := n / d;
    assert n == x * d + n % d;
    if x < q {
      MulLe(x + 1, q, d);
    } else if x > q {
      MulLe(q + 1, x, d);
    }
  }

  lemma Regroup(a: nat, b: nat, r: nat)
    ensures r * b * a == r * (a * b) && (b - 1) * a == a * b - a
  {
  }

  lemma Combine(n: nat, a: nat, b: nat, r: nat, low: nat, rest: nat)
    requires a > 0 && b > 0 && rest < a && low < b
    requires n == (r * b + low) * a + rest
    ensures r * (a * b) <= n < r * (a * b) + a * b
  {
    Regroup(a, b, r);
    MulLe(low, b - 1, a);
    Distribute(r * b, low, a);
  }

  lemma DivideTwice(n: nat, a: nat, b: nat)
    requires a > 0 && b > 0
    ensures a * b > 0 && n / a / b == n / (a * b)
  {
    var q := n / a;
    assert q == q / b * b + q % b;
    assert n == q * a + n % a;
    Combine(n, a, b, q / b, q % b, n % a);
    QuotientIs(n, a * b, q / b);
  }

  lemma Distribute(x: nat, y: nat, a: nat)
    ensures (x + y) * a == x * a + y * a
  {
  }

  lemma QuotientBounds(m: nat, p: nat)
    requires p <= m < p * p
    ensures 0 < m / p < p
  {
    var q := m / p;
    assert m == q * p + m % p;
    if q >= p {
      MulLe(p, q, p);
    }
  }

  /** s is n shifted right by s.0 places. */
  ghost predicate Shifted(n: nat, s: (nat, nat)) {
    s.1 == n / Pow2(s.0)
  }

  lemma ShiftKeeps(n: nat, k: nat, s: (nat, nat))
    requires Shifted(n, s) && s.1 < Pow2(k + k)
    ensures Shifted(n, Shift(k, s)) && Shift(k, s).1 < Pow2(k)
    ensures s.1 > 0 ==> Shift(k, s).1 > 0
  {
    if s.1 >= Pow2(k) {
      Pow2Add(s.0, k);
      Pow2Add(k, k);
      DivideTwice(n, Pow2(s.0), Pow2(k));
      QuotientBounds(s.1, Pow2(k));
    }
  }

  lemma ShiftsKeep(n: nat, w: nat, s: (nat, nat))
    requires Shifted(n, s) && s.1 < Pow2(8 * w)
    ensures Shifted(n, Shifts(w, s)) && Shifts(w, s).1 < Pow2(w)
    ensures s.1 > 0 ==> Shifts(w, s).1 > 0
  {
    assert 8 * w == 4 * w + 4 * w && 4 * w == 2 * w + 2 * w && 2 * w == w + w;
    ShiftKeeps(n, 4 * w, s);
    ShiftKeeps(n, 2 * w, Shift(4 * w, s));
    ShiftKeeps(n, w, Shift(2 * w, Shift(4 * w, s)));
  }

  /** Log2 is the position of the highest bit, for any 64-bit n; 0 for 0. */
  lemma Log2Exact(n: nat)
    requires n < Pow2(64)
    ensures n > 0 ==> Pow2(Log2(n)) <= n < Pow2(Log2(n) + 1)
    ensures n == 0 ==> Log2(n) == 0
  {
    ShiftsKeep(n, 8, (0, n));
    ShiftsKeep(n, 1, Shifts(8, (0, n)));
    if n > 0 {
      HighestBit(n, Log2(n));
    }
  }

  lemma HighestBit(n: nat, i: nat)
    requires n / Pow2(i) == 1
    ensures Pow2(i) <= n < Pow2(i + 1)
  {
    assert n == n / Pow2(i) * Pow2(i) + n % Pow2(i);
  }

  lemma Log2OfInt(n: nat)
    requires n <= INT_MAX
    ensures n > 0 ==> Pow2(Log2(n)) <= n < Pow2(Log2(n) + 1)
    ensures n == 0 ==> Log2(n) == 0
  {
    Pow2Facts();
    Pow2Mono(30, 31);
    Pow2Mono(31, 64);
    Log2Exact(n);
  }

  // ---------------------------------------------------------------------
  // Size classes

  /** A bucket index and the size of the buffers in that bucket. */
  datatype Class = Class(index: nat, size: nat)

  function Rounded(c: Class, sz: nat): Class {
    if c.size < sz then Class(c.index + 1, c.size * 2) else c
  }

  /** The computation of XrdBuffManager::Obtain and Recalc. */
  function ClassOf(sz: nat): Class {
    var bindex := Log2(sz / MIN_SIZE);
    Rounded(Class(bindex, MIN_SIZE * Pow2(bindex)), sz)
  }

  /** The computation of XrdBuffXL::Obtain and Recalc. */
  function XlClassOf(sz: nat): Class {
    var mk := sz / XL_MIN_SIZE;
    if mk == 0 then Class(0, XL_MIN_SIZE)
    else
      var bindex := Log2(mk);
      Rounded(Class(bindex, if bindex != 0 then XL_MIN_SIZE * Pow2(bindex) else XL_MIN_SIZE), sz)
  }

  /** The big-buffer tier: its largest buffer and its number of buckets. */
  datatype Xl = Xl(maxsz: nat, slots: nat)

  /** The big-buffer tier before Init. */
  const XL_NONE := Xl(MAX_SIZE, 0)

  function Clipped(maxMSZ: int): int {
    if maxMSZ > XL_MAX_SIZE then XL_MAX_SIZE else maxMSZ
  }

  /** XrdBuffXL::Init on a tier with `slots` buckets. */
  function XlInit(maxMSZ: int, slots: nat): Xl {
    if maxMSZ <= MAX_SIZE then Xl(MAX_SIZE, slots)
    else
      var most := Clipped(maxMSZ);
      var lg2 := Log2(most / XL_MIN_SIZE);
      var chunk := XL_MIN_SIZE * Pow2(lg2);
      if chunk < most then Xl(chunk * 2, lg2 + 2) else Xl(chunk, lg2 + 1)
  }

  function XlRecalc(xl: Xl, sz: int): nat {
    if sz <= 0 || sz > xl.maxsz then 0
    else if XlClassOf(sz).index >= xl.slots then 0
    else XlClassOf(sz).size
  }

  /** XrdBuffManager::Recalc, with the tier it falls back on. */
  function Recalc(xl: Xl, sz: int): nat {
    if sz <= 0 then 0
    else if sz > MAX_SIZE then XlRecalc(xl, sz)
    else if ClassOf(sz).index >= BUCKETS then 0
    else ClassOf(sz).size
  }

  /** The class holds n, in multiples of `unit`, and half its size does not. */
  ghost predicate Fits(c: Class, unit: nat, n: nat) {
    && c.size == unit * Pow2(c.index) && c.size >= n
    && (c.index > 0 ==> unit * Pow2(c.index - 1) < n)
  }

  lemma UnitBounds(sz: nat, unit: nat, mk: nat, p: nat)
    requires unit > 0 && mk * unit <= sz < mk * unit + unit && p <= mk < 2 * p
    ensures unit * p <= sz < 2 * (unit * p)
  {
    MulLe(p, mk, unit);
    MulLe(mk + 1, 2 * p, unit);
  }

  lemma RoundedFits(sz: nat, unit: nat, i: nat)
    requires unit > 0 && unit * Pow2(i) <= sz < 2 * (unit * Pow2(i))
    ensures Fits(Rounded(Class(i, unit * Pow2(i)), sz), unit, sz)
  {
    Doubled(unit, Pow2(i));
    if i > 0 {
      Doubled(unit, Pow2(i - 1));
    }
  }

  lemma ShiftFits(sz: nat, unit: nat, mk: nat)
    requires 0 < sz <= INT_MAX && unit > 0 && mk == sz / unit
    ensures var i := Log2(mk); Fits(Rounded(Class(i, unit * Pow2(i)), sz), unit, sz)
  {
    Divided(sz, unit);
    Log2OfInt(mk);
    if mk > 0 {
      UnitBounds(sz, unit, mk, Pow2(Log2(mk)));
      RoundedFits(sz, unit, Log2(mk));
    }
  }

  lemma Divided(n: nat, d: nat)
    requires d > 0
    ensures n / d * d <= n < n / d * d + d && n / d <= n
  {
    assert n == n / d * d + n % d;
    MulLe(1, d, n / d);
  }

  lemma Doubled(unit: nat, p: nat)
    requires unit > 0 && p > 0
    ensures unit * (2 * p) == 2 * (unit * p) && unit * p > 0
  {
  }

  lemma ClassFits(sz: nat)
    requires 0 < sz <= INT_MAX
    ensures Fits(ClassOf(sz), MIN_SIZE, sz) && Fits(XlClassOf(sz), XL_MIN_SIZE, sz)
  {
    ShiftFits(sz, MIN_SIZE, sz / MIN_SIZE);
    ShiftFits(sz, XL_MIN_SIZE, sz / XL_MIN_SIZE);
  }

  lemma ScaledLe(unit: nat, a: nat, b: nat)
    requires a <= b
    ensures unit * Pow2(a) <= unit * Pow2(b)
  {
    PowLe(a, b);
    MulLe(Pow2(a), Pow2(b), unit);
  }

  /** A size within a tier's largest has a bucket below the tier's number of them. */
  lemma FitsBelow(c: Class, unit: nat, n: nat, top: nat)
    requires Fits(c, unit, n) && n <= unit * Pow2(top)
    ensures c.index <= top && c.size <= unit * Pow2(top)
  {
    if c.index > top {
      ScaledLe(unit, top, c.index - 1);
    } else {
      ScaledLe(unit, c.index, top);
    }
  }

  lemma PowLe(a: nat, b: nat)
    requires a <= b
    ensures Pow2(a) <= Pow2(b)
  {
    if a < b {
      Pow2Mono(a, b);
    }
  }

  /** p is the least power of two not below n. */
  ghost predicate LeastPower(p: nat, n: nat) {
    && (exists k: nat :: p == Pow2(k))
    && p >= n
    && forall k: nat :: Pow2(k) >= n ==> Pow2(k) >= p
  }

  lemma FitsIsLeast(c: Class, u: nat, unit: nat, n: nat)
    requires unit == Pow2(u) && Fits(c, unit, n)
    ensures LeastPower(c.size, if n > unit then n else unit)
  {
    Pow2Add(u, c.index);
    PowLe(u, u + c.index);
    if c.index > 0 {
      Pow2Add(u, c.index - 1);
    }
    forall k: nat | Pow2(k) >= (if n > unit then n else unit) ensures Pow2(k) >= c.size {
      if k >= u + c.index {
        PowLe(u + c.index, k);
      } else if c.index > 0 {
        PowLe(k, u + c.index - 1);
      } else {
        Pow2Mono(k, u);
      }
    }
  }

  lemma TopClass(most: nat, i: nat)
    requires MAX_SIZE < most <= XL_MAX_SIZE && i == Log2(most / XL_MIN_SIZE)
    ensures var c := Rounded(Class(i, XL_MIN_SIZE * Pow2(i)), most); Fits(c, XL_MIN_SIZE, most) && c.size <= XL_MAX_SIZE
  {
    ShiftFits(most, XL_MIN_SIZE, most / XL_MIN_SIZE);
    Tops();
    FitsBelow(Rounded(Class(i, XL_MIN_SIZE * Pow2(i)), most), XL_MIN_SIZE, most, 8);
  }

  lemma InitFits(maxMSZ: int, slots: nat)
    requires MAX_SIZE < maxMSZ <= INT_MAX
    ensures var xl := XlInit(maxMSZ, slots);
            && xl.slots > 0 && xl.maxsz <= XL_MAX_SIZE
            && Fits(Class(xl.slots - 1, xl.maxsz), XL_MIN_SIZE, Clipped(maxMSZ))
  {
    var most := Clipped(maxMSZ);
    TopClass(most, Log2(most / XL_MIN_SIZE));
  }

  /** Init makes the largest big buffer the least power of two, up to 1 GB, that
      holds what was asked for, and as many buckets as there are sizes up to it. */
  lemma InitExact(maxMSZ: int, slots: nat)
    requires MAX_SIZE < maxMSZ <= INT_MAX
    ensures var xl := XlInit(maxMSZ, slots);
            && xl.slots > 0 && xl.maxsz == XL_MIN_SIZE * Pow2(xl.slots - 1) <= XL_MAX_SIZE
            && LeastPower(xl.maxsz, if Clipped(maxMSZ) > XL_MIN_SIZE then Clipped(maxMSZ) else XL_MIN_SIZE)
  {
    InitFits(maxMSZ, slots);
    Tops();
    var xl := XlInit(maxMSZ, slots);
    FitsIsLeast(Class(xl.slots - 1, xl.maxsz), 22, XL_MIN_SIZE, Clipped(maxMSZ));
  }

  lemma Tops()
    ensures Pow2(10) == MIN_SIZE && Pow2(22) == XL_MIN_SIZE
    ensures MIN_SIZE * Pow2(11) == MAX_SIZE && XL_MIN_SIZE * Pow2(8) == XL_MAX_SIZE
  {
    Pow2Facts();
    Pow2Add(10, 11);
    Pow2Add(22, 8);
  }

  /** For every size asked of Init and every int request: a request from 1 to the
      largest size is rounded to the least power of two not below it and 1024, any
      other gives 0. No class index reaches the number of buckets and nothing
      exceeds 1 GB, so nothing overflows an int. */
  lemma RecalcExact(maxMSZ: int, slots: nat, sz: int)
    requires maxMSZ <= INT_MAX && sz <= INT_MAX
    ensures var xl := XlInit(maxMSZ, slots);
            if 1 <= sz <= xl.maxsz then
              && LeastPower(Recalc(xl, sz), if sz > MIN_SIZE then sz else MIN_SIZE)
              && Recalc(xl, sz) <= XL_MAX_SIZE
              && (if sz <= MAX_SIZE then ClassOf(sz).index < BUCKETS && Recalc(xl, sz) == ClassOf(sz).size
                  else XlClassOf(sz).index < xl.slots && Recalc(xl, sz) == XlClassOf(sz).size)
            else Recalc(xl, sz) == 0
  {
    var xl := XlInit(maxMSZ, slots);
    if 1 <= sz <= MAX_SIZE {
      SmallRecalc(sz);
    } else if MAX_SIZE < sz <= xl.maxsz {
      BigRecalc(maxMSZ, slots, sz);
    }
    if maxMSZ > MAX_SIZE {
      BigRecalc(maxMSZ, slots, MAX_SIZE + 1);
    }
  }

  lemma BigRecalc(maxMSZ: int, slots: nat, sz: int)
    requires MAX_SIZE < maxMSZ <= INT_MAX
    ensures XlInit(maxMSZ, slots).maxsz > MAX_SIZE
    ensures MAX_SIZE < sz <= XlInit(maxMSZ, slots).maxsz ==>
              && XlClassOf(sz).index < XlInit(maxMSZ, slots).slots
              && XlClassOf(sz).size == XL_MIN_SIZE * Pow2(XlClassOf(sz).index) <= XL_MAX_SIZE
              && LeastPower(XlClassOf(sz).size, sz)
  {
    var xl := XlInit(maxMSZ, slots);
    InitExact(maxMSZ, slots);
    if MAX_SIZE < sz <= xl.maxsz {
      ClassFits(sz);
      FitsBelow(XlClassOf(sz), XL_MIN_SIZE, sz, xl.slots - 1);
      BigIsLeast(XlClassOf(sz), sz);
    }
  }

  lemma SmallRecalc(sz: nat)
    requires 0 < sz <= MAX_SIZE
    ensures ClassOf(sz).index < BUCKETS && ClassOf(sz).size == MIN_SIZE * Pow2(ClassOf(sz).index) <= MAX_SIZE
    ensures LeastPower(ClassOf(sz).size, if sz > MIN_SIZE then sz else MIN_SIZE)
  {
    ClassFits(sz);
    Tops();
    FitsBelow(ClassOf(sz), MIN_SIZE, sz, 11);
    FitsIsLeast(ClassOf(sz), 10, MIN_SIZE, sz);
  }

  /** Above 2 MB, rounding up to 4 MB first changes nothing. */
  lemma BigIsLeast(c: Class, n: nat)
    requires Fits(c, XL_MIN_SIZE, n) && n > MAX_SIZE
    ensures LeastPower(c.size, n)
  {
    Pow2Facts();
    FitsIsLeast(c, 22, XL_MIN_SIZE, n);
    forall k: nat | Pow2(k) >= n ensures Pow2(k) >= c.size {
      if k <= 21 {
        PowLe(k, 21);
      } else {
        PowLe(22, k);
      }
    }
  }
}
