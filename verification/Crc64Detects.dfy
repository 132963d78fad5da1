/** What the checksum of crc64.c detects: two messages of one length that differ within 8
    consecutive bytes have different checksums. */
module Crc64Detects {
  import opened Crc64

  const ZERO: Reg := Reg(0)

  function Shl8(a: Reg): Reg { Reg(a.v << 8) }

  // ---- a step loses nothing

  lemma StepTop(w: Reg)
    ensures High1(Step(w)) <==> Odd(w)
  {}

  lemma SameWord(w: Reg, v: Reg)
    requires Half(w) == Half(v) && (Odd(w) <==> Odd(v))
    ensures w == v
  {}

  lemma StepInjective(w: Reg, v: Reg)
    requires Step(w) == Step(v)
    ensures w == v
  {
    hide *;
    StepTop(w);
    StepTop(v);
    StepIs(w);
    StepIs(v);
    Cancel(Half(w), RPOLY);
    Cancel(Half(v), RPOLY);
    SameWord(w, v);
  }

  lemma Step8Injective(w: Reg, v: Reg)
    requires Step8(w) == Step8(v)
    ensures w == v
  {
    hide *;
    Step8Is(w);
    Step8Is(v);
    var w1, v1 := Step(w), Step(v);
    var w2, v2 := Step(w1), Step(v1);
    var w3, v3 := Step(w2), Step(v2);
    var w4, v4 := Step(w3), Step(v3);
    var w5, v5 := Step(w4), Step(v4);
    var w6, v6 := Step(w5), Step(v5);
    StepInjective(Step(w6), Step(v6));
    StepInjective(w6, v6);
    StepInjective(w5, v5);
    StepInjective(w4, v4);
    StepInjective(w3, v3);
    StepInjective(w2, v2);
    StepInjective(w1, v1);
    StepInjective(w, v);
  }

  /** The same bytes, from different registers, never give the same register. */
  lemma {:induction false} SerialInjective(a: Reg, b: Reg, s: Data)
    requires Serial(a, s) == Serial(b, s)
    ensures a == b
    decreases |s|
  {
    if s != [] {
      SerialFirst(a, s);
      SerialFirst(b, s);
      hide *;
      SerialInjective(Step8(X(a, Byte(s[0]))), Step8(X(b, Byte(s[0]))), s[1..]);
      Step8Injective(X(a, Byte(s[0])), X(b, Byte(s[0])));
      Cancel(a, Byte(s[0]));
      Cancel(b, Byte(s[0]));
    }
  }

  // ---- backwards from a register whose top is clear

  /** The bits of `mask` are clear. */
  predicate Without(q: Reg, mask: bv64) { q.v & mask == 0 }

  lemma StepBack(w: Reg)
    requires !High1(Step(w))
    ensures w == Double(Step(w))
  {}

  lemma OneUp(q: Reg, mask: bv64)
    requires Without(q, mask) && mask >= 0x8000_0000_0000_0000
    ensures !High1(q) && Without(Double(q), mask << 1)
  {}

  lemma EightDoubles(q: Reg)
    ensures Double(Double(Double(Double(Double(Double(Double(Double(q)))))))) == Shl8(q)
  {}

  lemma Step8Back(w: Reg)
    requires Without(Step8(w), 0xff00_0000_0000_0000)
    ensures w == Shl8(Step8(w))
  {
    hide *;
    Step8Is(w);
    var w1 := Step(w);
    var w2 := Step(w1);
    var w3 := Step(w2);
    var w4 := Step(w3);
    var w5 := Step(w4);
    var w6 := Step(w5);
    var w7 := Step(w6);
    var q := Step(w7);
    OneUp(q, 0xff00_0000_0000_0000);
    StepBack(w7);
    OneUp(w7, 0xfe00_0000_0000_0000);
    StepBack(w6);
    OneUp(w6, 0xfc00_0000_0000_0000);
    StepBack(w5);
    OneUp(w5, 0xf800_0000_0000_0000);
    StepBack(w4);
    OneUp(w4, 0xf000_0000_0000_0000);
    StepBack(w3);
    OneUp(w3, 0xe000_0000_0000_0000);
    StepBack(w2);
    OneUp(w2, 0xc000_0000_0000_0000);
    StepBack(w1);
    OneUp(w1, 0x8000_0000_0000_0000);
    StepBack(w);
    EightDoubles(q);
  }

  // ---- up to 8 bytes

  /** The bytes as one word, the first one lowest. */
  function Pack(d: Data): Reg {
    if d == [] then ZERO else X(Shl8(Pack(d[1..])), Byte(d[0]))
  }

  /** The bits above `n` bytes. */
  function Above(n: nat): bv64
    requires n <= 8
  {
    if n == 0 then 0xffff_ffff_ffff_ffff else if n == 1 then 0xffff_ffff_ffff_ff00 else if n == 2 then 0xffff_ffff_ffff_0000
    else if n == 3 then 0xffff_ffff_ff00_0000 else if n == 4 then 0xffff_ffff_0000_0000 else if n == 5 then 0xffff_ff00_0000_0000
    else if n == 6 then 0xffff_0000_0000_0000 else if n == 7 then 0xff00_0000_0000_0000 else 0
  }

  lemma OneByteMore(q: Reg, b: bv8, n: nat)
    requires n < 8 && Without(q, Above(n))
    ensures Without(X(Shl8(q), Byte(b)), Above(n + 1)) && Without(q, 0xff00_0000_0000_0000)
  {}

  lemma NoByte(q: Reg, b: bv8)
    requires Without(q, 0xff00_0000_0000_0000) && X(Shl8(q), Byte(b)) == ZERO
    ensures q == ZERO && b == 0
  {}

  lemma ZeroFits()
    ensures Without(ZERO, Above(0))
  {}

  /** Bytes that take a register to zero are the bytes of that register. */
  lemma {:induction false} BackToStart(u: Reg, d: Data)
    requires |d| <= 8 && Serial(u, d) == ZERO
    ensures u == Pack(d) && Without(u, Above(|d|))
    decreases |d|
  {
    if d == [] {
      ZeroFits();
    } else {
      var b := d[0];
      var w := X(u, Byte(b));
      SerialFirst(u, d);
      assert Pack(d) == X(Shl8(Pack(d[1..])), Byte(b));
      assert |d[1..]| == |d| - 1;
      hide *;
      BackToStart(Step8(w), d[1..]);
      OneByteMore(Step8(w), b, |d| - 1);
      Step8Back(w);
      Cancel(u, Byte(b));
    }
  }

  lemma {:induction false} PackZero(d: Data)
    requires |d| <= 8 && Pack(d) == ZERO
    ensures forall i :: 0 <= i < |d| ==> d[i] == 0
    decreases |d|
  {
    if d != [] {
      PackFits(d[1..]);
      assert Pack(d) == X(Shl8(Pack(d[1..])), Byte(d[0]));
      assert |d[1..]| == |d| - 1;
      hide *;
      OneByteMore(Pack(d[1..]), d[0], |d| - 1);
      NoByte(Pack(d[1..]), d[0]);
      PackZero(d[1..]);
      assert forall i :: 0 < i < |d| ==> d[i] == d[1..][i - 1];
    }
  }

  lemma {:induction false} PackFits(d: Data)
    requires |d| <= 8
    ensures Without(Pack(d), Above(|d|))
    decreases |d|
  {
    if d == [] {
      ZeroFits();
    } else {
      assert Pack(d) == X(Shl8(Pack(d[1..])), Byte(d[0]));
      assert |d[1..]| == |d| - 1;
      hide *;
      PackFits(d[1..]);
      OneByteMore(Pack(d[1..]), d[0], |d| - 1);
    }
  }

  lemma SelfCancels(a: Reg)
    ensures X(a, a) == ZERO
  {}

  lemma EqualBytes(a: bv8, b: bv8)
    requires a ^ b == 0
    ensures a == b
  {}

  /** From any register, different strings of the same length up to 8 give different registers. */
  lemma ShortDiffer(r: Reg, a: Data, b: Data)
    requires |a| == |b| <= 8 && Serial(r, a) == Serial(r, b)
    ensures a == b
  {
    var d := XorBytes(a, b);
    SerialXor(r, r, a, b);
    assert |d| == |a| && forall i :: 0 <= i < |d| ==> d[i] == a[i] ^ b[i];
    hide *;
    SelfCancels(r);
    SelfCancels(Serial(r, a));
    BackToStart(ZERO, d);
    PackZero(d);
    forall i | 0 <= i < |a| ensures a[i] == b[i] {
      EqualBytes(a[i], b[i]);
    }
  }

  /** Two messages that differ within 8 consecutive bytes have different checksums. */
  lemma BurstDetected(r: Reg, p: Data, a: Data, b: Data, q: Data)
    requires |a| == |b| <= 8 && a != b
    ensures Serial(r, p + a + q) != Serial(r, p + b + q)
  {
    SerialConcat(r, p + a, q);
    SerialConcat(r, p, a);
    SerialConcat(r, p + b, q);
    SerialConcat(r, p, b);
    hide *;
    if Serial(r, p + a + q) == Serial(r, p + b + q) {
      SerialInjective(Serial(Serial(r, p), a), Serial(Serial(r, p), b), q);
      ShortDiffer(Serial(r, p), a, b);
      assert false;
    }
  }
}
