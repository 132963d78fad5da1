/** rand.c: the 48-bit linear congruential generator, kept in three 16-bit limbs. */
module Rand {
  import opened Arithmetic

  const MASK: nat := 65535
  const X0: nat := 0x330E
  const X1: nat := 0xABCD
  const X2: nat := 0x1234
  const A0: nat := 0xE66D
  const A1: nat := 0xDEEC
  const A2: nat := 0x5
  const C: nat := 0xB

  const LIMB: nat := 0x1_0000
  const WORD: nat := 0x1_0000_0000
  const MODULUS: nat := 0x1_0000_0000_0000
  const A: nat := 0x5DEECE66D

  // ---- the generator as POSIX states it

  function Step(x: nat): nat { (A * x + C) % MODULUS }

  /** The state after `n` calls. */
  function Iter(x: nat, n: nat): nat { if n == 0 then x else Step(Iter(x, n - 1)) }

  function Value(x0: nat, x1: nat, x2: nat): nat { x0 + LIMB * x1 + WORD * x2 }

  // ---- C arithmetic

  /** LOW: the value converted to 32 unsigned bits, then masked. */
  function Low(x: int): nat { (x % WORD) % LIMB }

  /** HIGH: the shift of a negative int32_t is an arithmetic one. */
  function High(x: int): nat { Low(x / LIMB) }

  /** Conversion to int32_t. */
  function Signed(x: int): int { if x % WORD < 0x8000_0000 then x % WORD else x % WORD - WORD }

  /** The two limbs of a product, through a wrapped int32_t. */
  function Mul(x: nat, y: nat): (nat, nat) { (Low(Signed(x * y)), High(Signed(x * y))) }

  function Carry(x: nat, y: nat): nat { if Signed(x) + y > MASK then 1 else 0 }

  lemma LowIs(x: int)
    ensures Low(x) == x % LIMB
  {}

  lemma SplitsAt(p: nat)
    requires p < WORD
    ensures Low(Signed(p)) < LIMB && High(Signed(p)) < LIMB
    ensures Low(Signed(p)) + LIMB * High(Signed(p)) == p
  {
    LowIs(Signed(p));
    LowIs(Signed(p) / LIMB);
  }

  lemma ProductFits(x: nat, y: nat)
    requires x < LIMB && y < LIMB
    ensures 0 <= x * y < WORD
  {
    MulMono(x, y, MASK);
    MulMono(MASK, x, MASK);
  }

  lemma MulMono(x: nat, y: nat, b: nat)
    requires y <= b
    ensures 0 <= x * y <= x * b
  {
    assert x * (b - y) >= 0;
  }

  /** The wrap of a product to a negative int32_t loses nothing. */
  lemma MulSplits(x: nat, y: nat)
    requires x < LIMB && y < LIMB
    ensures var (lo, hi) := Mul(x, y); lo < LIMB && hi < LIMB && lo + LIMB * hi == x * y
  {
    hide Low, High, Signed;
    ProductFits(x, y);
    SplitsAt(x * y);
  }

  /** ADDEQU: the sum's low limb and its carry. */
  lemma CarrySplits(x: nat, y: nat)
    requires x < LIMB && y < LIMB
    ensures Low(x + y) < LIMB && Low(x + y) + LIMB * Carry(x, y) == x + y
  {}

  /** The carries into the high limb account for the two low ones. */
  lemma Assemble(x0: nat, x1: nat, x2: nat, y0: nat, y1: nat, t: nat)
    requires y0 < LIMB && y1 < LIMB
    requires y0 + LIMB * y1 + WORD * t == A0 * x0 + C + LIMB * (A0 * x1 + A1 * x0)
    ensures Value(y0, y1, (t + A0 * x2 + A1 * x1 + A2 * x0) % LIMB) == Step(Value(x0, x1, x2))
  {
    hide Step;
    var high := t + A0 * x2 + A1 * x1 + A2 * x0;
    var over := high / LIMB + A1 * x2 + A2 * x1 + LIMB * (A2 * x2);
    assert A * Value(x0, x1, x2) + C == Value(y0, y1, high % LIMB) + MODULUS * over;
    StepIs(Value(x0, x1, x2), Value(y0, y1, high % LIMB), over);
  }

  lemma StepIs(x: nat, y: nat, over: nat)
    requires A * x + C == y + MODULUS * over && y < MODULUS
    ensures Step(x) == y
  {}

  /** next up to the two low limbs, with what they carry into the high one. */
  method LowLimbs(x0: nat, x1: nat) returns (y0: nat, y1: nat, t: nat)
    requires x0 < LIMB && x1 < LIMB
    ensures y0 < LIMB && y1 < LIMB
    ensures y0 + LIMB * y1 + WORD * t == A0 * x0 + C + LIMB * (A0 * x1 + A1 * x0)
  {
    hide Low, High, Mul, Carry;
    var p, q, r := Mul(A0, x0), Mul(A0, x1), Mul(A1, x0);
    MulSplits(A0, x0);
    MulSplits(A0, x1);
    MulSplits(A1, x0);
    hide *;
    y0, y1, t := AddLimbs(p.0, p.1, q.0, q.1, r.0, r.1);
  }

  /** The additions: each carry is taken before the limb is cut. */
  method AddLimbs(p0: nat, p1: nat, q0: nat, q1: nat, r0: nat, r1: nat) returns (y0: nat, y1: nat, t: nat)
    requires p0 < LIMB && p1 < LIMB && q0 < LIMB && r0 < LIMB
    ensures y0 < LIMB && y1 < LIMB
    ensures y0 + LIMB * y1 + WORD * t == p0 + C + LIMB * (p1 + q0 + r0) + WORD * (q1 + r1)
  {
    hide Low, Carry;
    var carry0 := Carry(p0, C);
    y0 := Low(p0 + C);
    CarrySplits(p0, C);
    var carry1 := Carry(p1, carry0);
    var limb := Low(p1 + carry0);
    CarrySplits(p1, carry0);
    carry0 := Carry(limb, q0);
    CarrySplits(limb, q0);
    limb := Low(limb + q0);
    CarrySplits(limb, r0);
    y1 := Low(limb + r0);
    t := carry0 + carry1 + Carry(limb, r0) + q1 + r1;
  }

  /** next, on the three limbs. */
  method NextLimbs(x0: nat, x1: nat, x2: nat) returns (y0: nat, y1: nat, y2: nat)
    requires x0 < LIMB && x1 < LIMB && x2 < LIMB
    ensures y0 < LIMB && y1 < LIMB && y2 < LIMB
    ensures Value(y0, y1, y2) == Step(Value(x0, x1, x2))
  {
    hide Low, Step, Value;
    var t;
    y0, y1, t := LowLimbs(x0, x1);
    Assemble(x0, x1, x2, y0, y1, t);
    LowIs(t + A0 * x2 + A1 * x1 + A2 * x0);
    y2 := Low(t + A0 * x2 + A1 * x1 + A2 * x0);
  }

  lemma SeedLimbs(v: int)
    ensures Low(v) < LIMB && High(v) < LIMB && Low(v) + LIMB * High(v) == v % WORD
  {
    LowIs(v);
    LowIs(v / LIMB);
    hide Low;
    SplitMod(v);
  }

  lemma SplitMod(v: int)
    ensures v % 65536 + 65536 * ((v / 65536) % 65536) == v % 0x1_0000_0000
  {
    var h, g := v / 65536, v / 65536 / 65536;
    assert v == 65536 * h + v % 65536 && h == 65536 * g + h % 65536;
    assert v == 0x1_0000_0000 * g + (65536 * (h % 65536) + v % 65536);
  }

  class Generator {
    const x: array<nat>
    ghost var seeded: nat
    ghost var calls: nat

    ghost predicate Limbs()
      reads this, x
    {
      x.Length == 3 && x[0] < LIMB && x[1] < LIMB && x[2] < LIMB
    }

    ghost function State(): nat
      reads this, x
      requires x.Length == 3
    {
      Value(x[0], x[1], x[2])
    }

    ghost predicate Valid()
      reads this, x
    {
      Limbs() && State() == Iter(seeded, calls)
    }

    constructor ()
      ensures Valid() && fresh(x) && calls == 0 && seeded == 0x1234_ABCD_330E
    {
      x := new nat[] [X0, X1, X2];
      seeded, calls := 0x1234_ABCD_330E, 0;
    }

    /** Srand48: the seed's 32 bits above the constant low limb. */
    method Srand48(seedval: int)
      requires Valid() && -0x8000_0000 <= seedval < 0x8000_0000
      modifies this, x
      ensures Valid() && calls == 0 && seeded == X0 + LIMB * (seedval % WORD)
    {
      SeedLimbs(seedval);
      hide Low, High;
      x[0], x[1], x[2] := X0, Low(seedval), High(seedval);
      seeded, calls := X0 + LIMB * (seedval % WORD), 0;
    }

    method Next()
      requires Valid()
      modifies this, x
      ensures Valid() && seeded == old(seeded) && calls == old(calls) + 1
    {
      hide Step, Value;
      x[0], x[1], x[2] := NextLimbs(x[0], x[1], x[2]);
      calls := calls + 1;
    }

    /** Each output is the state shifted right by 17. */
    method Lrand48() returns (r: nat)
      requires Valid()
      modifies this, x
      ensures Valid() && seeded == old(seeded) && calls == old(calls) + 1
      ensures r == Iter(seeded, calls) / 0x2_0000 && r < 0x8000_0000
    {
      Next();
      hide Iter;
      r := x[2] * 0x8000 + x[1] / 2;
    }
  }

  // ---- the stream as a whole

  /** 1 + A + ... + A^(n-1). */
  function Powers(n: nat): nat { if n == 0 then 0 else A * Powers(n - 1) + 1 }

  /** The state after `n` calls in closed form: every difference of states is a multiple of
      the same odd number. */
  lemma {:induction false} IterIs(x: nat, n: nat)
    requires x < MODULUS
    ensures Iter(x, n) == (x + Powers(n) * ((A - 1) * x + C)) % MODULUS
  {
    if n > 0 {
      IterIs(x, n - 1);
      StepOfMod(x + Powers(n - 1) * ((A - 1) * x + C));
      assert A * (x + Powers(n - 1) * ((A - 1) * x + C)) + C == x + Powers(n) * ((A - 1) * x + C) by {
        ClosedStep(x, Powers(n - 1), (A - 1) * x + C);
      }
    }
  }

  lemma StepOfMod(y: nat)
    ensures Step(y % MODULUS) == (A * y + C) % MODULUS
  {
    var q := y / MODULUS;
    ModDrop(A * (y % MODULUS) + C, A * q);
  }

  lemma ModDrop(r: nat, k: nat)
    ensures (r + k * MODULUS) % MODULUS == r % MODULUS
  {}

  lemma ClosedStep(x: nat, s: nat, d: nat)
    requires d == (A - 1) * x + C
    ensures A * (x + s * d) + C == x + (A * s + 1) * d
  {
    assert A * (s * d) == (A * s) * d;
  }

  lemma {:induction false} PowersAdd(m: nat, n: nat)
    ensures Powers(m + n) == Powers(n) + ((A - 1) * Powers(n) + 1) * Powers(m)
  {
    PowersNext(0);
    PowersNext(m);
    PowersNext(m + n);
    hide Powers;
    if m > 0 {
      PowersAdd(m - 1, n);
      AddStep(Powers(n), Powers(m - 1));
    }
  }

  lemma AddStep(a: nat, b: nat)
    ensures A * (a + ((A - 1) * a + 1) * b) + 1 == a + ((A - 1) * a + 1) * (A * b + 1)
  {}

  /** The doubled sum is twice the sum, up to an odd factor, since A is 1 modulo 4. */
  lemma PowersDouble(m: nat)
    ensures Powers(m + m) == 2 * (Powers(m) * (1 + 2 * (((A - 1) / 4) * Powers(m))))
  {
    PowersAdd(m, m);
    var a, k := Powers(m), (A - 1) / 4;
    assert A - 1 == 4 * k;
    assert a + (4 * k * a + 1) * a == 2 * (a * (1 + 2 * (k * a)));
  }

  lemma {:induction false} PowersParity(n: nat)
    ensures Powers(n) % 2 == n % 2
  {
    PowersNext(n);
    hide *;
    if n > 0 {
      PowersParity(n - 1);
      var b := Powers(n - 1);
      OddStep(b);
      ParityNext(b, n - 1);
    }
  }

  lemma ParityNext(b: nat, n: nat)
    requires b % 2 == n % 2
    ensures (b + 1) % 2 == (n + 1) % 2
  {}

  lemma PowersNext(n: nat)
    ensures Powers(n) == if n == 0 then 0 else A * Powers(n - 1) + 1
  {}

  lemma OddStep(b: nat)
    ensures (A * b + 1) % 2 == (b + 1) % 2
  {
    assert A * b + 1 == 2 * (0x2_EF76_7336 * b) + (b + 1);
    EvenMore(b + 1, 0x2_EF76_7336 * b);
  }

  lemma EvenMore(x: nat, h: nat)
    ensures (2 * h + x) % 2 == x % 2
  {
  }

  /** 2^k divides `x`. */
  predicate Divides2(k: nat, x: nat)
    decreases k
  {
    k == 0 || (x % 2 == 0 && Divides2(k - 1, x / 2))
  }

  function Pow2(k: nat): (p: nat) ensures p > 0 { if k == 0 then 1 else 2 * Pow2(k - 1) }

  lemma {:induction false} Divides2Is(k: nat, x: nat)
    ensures Divides2(k, x) <==> x % Pow2(k) == 0
    decreases k
  {
    if k > 0 {
      Divides2Is(k - 1, x / 2);
      HalfMod(x, Pow2(k - 1));
    }
  }

  lemma HalfMod(x: nat, p: nat)
    requires p > 0
    ensures x % (2 * p) == 0 <==> x % 2 == 0 && x / 2 % p == 0
  {
    var q, r := x / 2 / p, x / 2 % p;
    assert x / 2 == p * q + r;
    ModUnique(x, 2 * p, q, 2 * r + x % 2);
  }

  lemma OddProduct(x: nat, h: nat)
    ensures x % 2 == 0 <==> (x * (1 + 2 * h)) % 2 == 0
    ensures x % 2 == 0 ==> x * (1 + 2 * h) / 2 == (x / 2) * (1 + 2 * h)
  {
    var y, o := x / 2, 1 + 2 * h;
    if x % 2 == 0 {
      assert x * o == (2 * y) * o == 2 * (y * o);
    } else {
      assert x * o == (2 * y + 1) * o == 2 * (y * o) + o;
    }
  }

  lemma {:induction false} OddFactor(k: nat, x: nat, h: nat)
    ensures Divides2(k, x * (1 + 2 * h)) <==> Divides2(k, x)
    decreases k
  {
    if k > 0 {
      OddProduct(x, h);
      if x % 2 == 0 {
        OddFactor(k - 1, x / 2, h);
      }
    }
  }

  lemma {:induction false} PowersDivide(k: nat, n: nat)
    ensures Divides2(k, Powers(n)) <==> Divides2(k, n)
    decreases k
  {
    if k > 0 {
      PowersParity(n);
      if n % 2 == 0 {
        var m := n / 2;
        PowersDouble(m);
        OddFactor(k - 1, Powers(m), ((A - 1) / 4) * Powers(m));
        PowersDivide(k - 1, m);
      }
    }
  }

  lemma {:induction false} Pow2Adds(k: nat, j: nat)
    ensures Pow2(k + j) == Pow2(k) * Pow2(j)
  {
    if k > 0 { Pow2Adds(k - 1, j); }
  }

  lemma ModulusIs()
    ensures Pow2(48) == MODULUS
  {
    assert Pow2(8) == 256;
    Pow2Adds(8, 8);
    Pow2Adds(16, 16);
    Pow2Adds(32, 16);
  }

  /** The generator has full period: from any state it comes back for the first time after
      exactly 2^48 calls, so every state is reached from every other. */
  lemma FullPeriod(x: nat, n: nat)
    requires x < MODULUS
    ensures Iter(x, n) == x <==> n % MODULUS == 0
  {
    hide Iter, Powers, Divides2, Pow2;
    IterIs(x, n);
    ModulusIs();
    var h, s := ((A - 1) / 2) * x + 5, Powers(n);
    assert (A - 1) * x + C == 1 + 2 * h;
    ReturnIff(x, s * (1 + 2 * h));
    Divides2Is(48, s * (1 + 2 * h));
    OddFactor(48, s, h);
    PowersDivide(48, n);
    Divides2Is(48, n);
  }

  lemma ReturnIff(x: nat, d: nat)
    requires x < MODULUS
    ensures (x + d) % MODULUS == x <==> d % MODULUS == 0
  {}
}
