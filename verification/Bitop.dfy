/** bitops.c, bitopCommand: the result of a BITOP, by words while every string lasts and
    then byte by byte. */
module Bitop {
  datatype Byte = Byte(v: bv8)
  type Bytes = seq<Byte>

  datatype Op = And | Or | Xor | Not

  // ---- the definition: byte by byte, short strings padded with zeros

  function ByteAt(s: Bytes, j: nat): Byte { if |s| <= j then Byte(0) else s[j] }

  function AndByte(a: Byte, b: Byte): Byte { Byte(a.v & b.v) }

  function OrByte(a: Byte, b: Byte): Byte { Byte(a.v | b.v) }

  function XorByte(a: Byte, b: Byte): Byte { Byte(a.v ^ b.v) }

  function Apply(op: Op, a: Byte, b: Byte): Byte {
    match op case And => AndByte(a, b) case Or => OrByte(a, b) case Xor => XorByte(a, b) case Not => a
  }

  function NotByte(a: Byte): Byte { Byte(!a.v) }

  /** The first `n` strings, combined at index `j`. */
  function Fold(op: Op, src: seq<Bytes>, n: nat, j: nat): Byte
    requires 0 < n <= |src|
  {
    if n == 1 then (if op == Not then NotByte(ByteAt(src[0], j)) else ByteAt(src[0], j))
    else Apply(op, Fold(op, src, n - 1, j), ByteAt(src[n - 1], j))
  }

  // ---- what that means for each bit

  /** The bits of a byte, the lowest first. */
  function Mask(k: nat): Byte {
    match k
    case 0 => Byte(1) case 1 => Byte(2) case 2 => Byte(4) case 3 => Byte(8)
    case 4 => Byte(16) case 5 => Byte(32) case 6 => Byte(64) case _ => Byte(128)
  }

  function IsZero(a: Byte): bool { a.v == 0 }

  predicate Bit(a: Byte, k: nat) { !IsZero(AndByte(a, Mask(k))) }

  lemma BitAnd(a: Byte, b: Byte, k: nat)
    ensures Bit(AndByte(a, b), k) <==> Bit(a, k) && Bit(b, k)
  {}

  lemma BitOr(a: Byte, b: Byte, k: nat)
    ensures Bit(OrByte(a, b), k) <==> Bit(a, k) || Bit(b, k)
  {}

  lemma OneBit(a: Byte, k: nat)
    ensures AndByte(a, Mask(k)) == Byte(0) || AndByte(a, Mask(k)) == Mask(k)
    ensures !IsZero(Mask(k)) && IsZero(Byte(0))
  {}

  lemma XorMasked(a: Byte, b: Byte, m: Byte)
    ensures AndByte(XorByte(a, b), m) == XorByte(AndByte(a, m), AndByte(b, m))
  {}

  lemma XorZero(a: Byte)
    ensures XorByte(a, Byte(0)) == a && XorByte(Byte(0), a) == a && XorByte(a, a) == Byte(0)
  {}

  lemma BitXor(a: Byte, b: Byte, k: nat)
    ensures Bit(XorByte(a, b), k) <==> Bit(a, k) != Bit(b, k)
  {
    OneBit(a, k);
    OneBit(b, k);
    XorMasked(a, b, Mask(k));
    XorZero(Mask(k));
    XorZero(Byte(0));
    hide XorByte, AndByte, Mask, IsZero;
  }

  lemma BitNot(a: Byte, k: nat)
    ensures Bit(NotByte(a), k) <==> !Bit(a, k)
  {}

  /** Bit `k` of the byte at index `j`, which is 0 in a string that has ended. */
  predicate BitAt(s: Bytes, j: nat, k: nat) { Bit(ByteAt(s, j), k) }

  /** In how many of the first `n` strings that bit is set. */
  function SetIn(src: seq<Bytes>, n: nat, j: nat, k: nat): (c: nat)
    requires n <= |src|
    ensures c <= n
  {
    if n == 0 then 0 else SetIn(src, n - 1, j, k) + if BitAt(src[n - 1], j, k) then 1 else 0
  }

  lemma {:induction false} SetInAll(src: seq<Bytes>, n: nat, j: nat, k: nat)
    requires n <= |src|
    ensures SetIn(src, n, j, k) == n <==> forall i :: 0 <= i < n ==> BitAt(src[i], j, k)
    ensures SetIn(src, n, j, k) == 0 <==> forall i :: 0 <= i < n ==> !BitAt(src[i], j, k)
  {
    hide BitAt;
    if n > 0 { SetInAll(src, n - 1, j, k); }
  }

  /** A bit of the result is set if it is in all strings, in some, in an odd number of them, or
      not in the only one. */
  ghost predicate Combined(op: Op, src: seq<Bytes>, n: nat, j: nat, k: nat)
    requires 0 < n <= |src|
  {
    match op
    case And => forall i :: 0 <= i < n ==> BitAt(src[i], j, k)
    case Or => exists i :: 0 <= i < n && BitAt(src[i], j, k)
    case Xor => SetIn(src, n, j, k) % 2 == 1
    case Not => !BitAt(src[0], j, k)
  }

  lemma {:induction false} FoldBit(op: Op, src: seq<Bytes>, n: nat, j: nat, k: nat)
    requires 0 < n <= |src| && (op == Not ==> n == 1)
    ensures Bit(Fold(op, src, n, j), k) <==> Combined(op, src, n, j, k)
  {
    SetInAll(src, n, j, k);
    if n == 1 {
      BitNot(ByteAt(src[0], j), k);
      hide Bit, NotByte;
    } else {
      FoldBit(op, src, n - 1, j, k);
      SetInAll(src, n - 1, j, k);
      var a, b := Fold(op, src, n - 1, j), ByteAt(src[n - 1], j);
      BitAnd(a, b, k);
      BitOr(a, b, k);
      BitXor(a, b, k);
      hide Bit, AndByte, OrByte, XorByte, ByteAt;
    }
  }

  function MaxLen(src: seq<Bytes>): nat {
    if src == [] then 0 else if |src[|src| - 1]| > MaxLen(src[..|src| - 1]) then |src[|src| - 1]| else MaxLen(src[..|src| - 1])
  }

  // ---- words of 8 bytes

  datatype Word = Word(v: bv64)

  function Load(a: Byte, b: Byte, c: Byte, d: Byte, e: Byte, f: Byte, g: Byte, h: Byte): Word {
    Word((a.v as bv64) | ((b.v as bv64) << 8) | ((c.v as bv64) << 16) | ((d.v as bv64) << 24)
         | ((e.v as bv64) << 32) | ((f.v as bv64) << 40) | ((g.v as bv64) << 48) | ((h.v as bv64) << 56))
  }

  function Shift8(w: Word): Word { Word(w.v >> 8) }

  function Shift(w: Word, k: nat): Word { if k == 0 then w else Shift8(Shift(w, k - 1)) }

  function Low(w: Word): Byte { Byte((w.v & 0xff) as bv8) }

  /** The byte at index `k` of a word in memory. */
  function Nth(w: Word, k: nat): Byte { Low(Shift(w, k)) }

  function AndWord(u: Word, v: Word): Word { Word(u.v & v.v) }

  function OrWord(u: Word, v: Word): Word { Word(u.v | v.v) }

  function XorWord(u: Word, v: Word): Word { Word(u.v ^ v.v) }

  function ApplyWord(op: Op, u: Word, v: Word): Word {
    match op case And => AndWord(u, v) case Or => OrWord(u, v) case Xor => XorWord(u, v) case Not => u
  }

  function NotWord(u: Word): Word { Word(!u.v) }

  lemma LoadNth(a: Byte, b: Byte, c: Byte, d: Byte, e: Byte, f: Byte, g: Byte, h: Byte)
    ensures var w := Load(a, b, c, d, e, f, g, h);
      && Nth(w, 0) == a && Nth(w, 1) == b && Nth(w, 2) == c && Nth(w, 3) == d
      && Nth(w, 4) == e && Nth(w, 5) == f && Nth(w, 6) == g && Nth(w, 7) == h
  {}

  lemma Shift8And(u: Word, v: Word)
    ensures Shift8(AndWord(u, v)) == AndWord(Shift8(u), Shift8(v))
  {}

  lemma LowAnd(u: Word, v: Word)
    ensures Low(AndWord(u, v)) == AndByte(Low(u), Low(v))
  {}

  lemma Shift8Or(u: Word, v: Word)
    ensures Shift8(OrWord(u, v)) == OrWord(Shift8(u), Shift8(v))
  {}

  lemma LowOr(u: Word, v: Word)
    ensures Low(OrWord(u, v)) == OrByte(Low(u), Low(v))
  {}

  lemma Shift8Xor(u: Word, v: Word)
    ensures Shift8(XorWord(u, v)) == XorWord(Shift8(u), Shift8(v))
  {}

  lemma LowXor(u: Word, v: Word)
    ensures Low(XorWord(u, v)) == XorByte(Low(u), Low(v))
  {}

  lemma Shift8Apply(op: Op, u: Word, v: Word)
    ensures Shift8(ApplyWord(op, u, v)) == ApplyWord(op, Shift8(u), Shift8(v))
  {
    hide Shift8, AndWord, OrWord, XorWord;
    match op
    case And => Shift8And(u, v);
    case Or => Shift8Or(u, v);
    case Xor => Shift8Xor(u, v);
    case Not =>
  }

  lemma {:induction false} ShiftApply(op: Op, u: Word, v: Word, k: nat)
    ensures Shift(ApplyWord(op, u, v), k) == ApplyWord(op, Shift(u, k), Shift(v, k))
  {
    hide Shift8, ApplyWord;
    if k > 0 {
      ShiftApply(op, u, v, k - 1);
      Shift8Apply(op, Shift(u, k - 1), Shift(v, k - 1));
    }
  }

  lemma LowApply(op: Op, u: Word, v: Word)
    ensures Low(ApplyWord(op, u, v)) == Apply(op, Low(u), Low(v))
  {
    hide Low, AndWord, OrWord, XorWord, AndByte, OrByte, XorByte;
    match op
    case And => LowAnd(u, v);
    case Or => LowOr(u, v);
    case Xor => LowXor(u, v);
    case Not =>
  }

  lemma NthApply(op: Op, u: Word, v: Word, k: nat)
    ensures Nth(ApplyWord(op, u, v), k) == Apply(op, Nth(u, k), Nth(v, k))
  {
    ShiftApply(op, u, v, k);
    LowApply(op, Shift(u, k), Shift(v, k));
    hide Shift, Low, ApplyWord, Apply;
  }

  // ---- complement, as the exclusive or with ones

  const ONES: Word := Word(0xffff_ffff_ffff_ffff)

  lemma NotIsXor(u: Word, a: Byte)
    ensures NotWord(u) == ApplyWord(Xor, u, ONES) && NotByte(a) == Apply(Xor, a, Byte(0xff))
  {}

  lemma OnesNth(k: nat)
    requires k < 8
    ensures Nth(ONES, k) == Byte(0xff)
  {
    var w1 := Shift8(ONES);
    var w2 := Shift8(w1);
    var w3 := Shift8(w2);
    var w4 := Shift8(w3);
    var w5 := Shift8(w4);
    var w6 := Shift8(w5);
    assert Shift(ONES, 1) == w1 && Shift(ONES, 2) == w2 && Shift(ONES, 3) == w3 && Shift(ONES, 4) == w4;
    assert Shift(ONES, 5) == w5 && Shift(ONES, 6) == w6 && Shift(ONES, 7) == Shift8(w6);
    assert k == 0 || k == 1 || k == 2 || k == 3 || k == 4 || k == 5 || k == 6 || k == 7;
  }

  lemma NthNot(u: Word, k: nat)
    requires k < 8
    ensures Nth(NotWord(u), k) == NotByte(Nth(u, k))
  {
    hide *;
    NotIsXor(u, Nth(u, k));
    NthApply(Xor, u, ONES, k);
    OnesNth(k);
  }

  function LoadAt(s: Bytes, i: nat): Word
    requires i + 8 <= |s|
  {
    Load(s[i], s[i + 1], s[i + 2], s[i + 3], s[i + 4], s[i + 5], s[i + 6], s[i + 7])
  }

  lemma LoadAtNth(s: Bytes, i: nat, k: nat)
    requires i + 8 <= |s| && k < 8
    ensures Nth(LoadAt(s, i), k) == s[i + k]
  {
    LoadNth(s[i], s[i + 1], s[i + 2], s[i + 3], s[i + 4], s[i + 5], s[i + 6], s[i + 7]);
    assert k == 0 || k == 1 || k == 2 || k == 3 || k == 4 || k == 5 || k == 6 || k == 7;
    hide Load, Nth;
  }

  // ---- word operations on the result

  /** A range of `r` combined with the same range of `s`. */
  function Blended(r: Bytes, op: Op, s: Bytes, lo: nat, hi: nat): (r': Bytes)
    requires hi <= |r| && hi <= |s|
    ensures |r'| == |r| && forall i :: 0 <= i < |r| ==> r'[i] == if lo <= i < hi then Apply(op, r[i], s[i]) else r[i]
  {
    seq(|r|, i requires 0 <= i < |r| => if lo <= i < hi then Apply(op, r[i], s[i]) else r[i])
  }

  lemma BlendedJoin(r: Bytes, op: Op, s: Bytes, a: nat, b: nat, c: nat)
    requires a <= b <= c <= |r| && c <= |s|
    ensures Blended(Blended(r, op, s, a, b), op, s, b, c) == Blended(r, op, s, a, c)
  {
    hide Apply;
  }

  /** lres[x] &= lp[i][x], and the same with the other operators. */
  method WordOp(res: array<Byte>, at: nat, op: Op, s: Bytes)
    requires at + 8 <= res.Length && at + 8 <= |s|
    modifies res
    ensures res[..] == Blended(old(res[..]), op, s, at, at + 8)
  {
    ghost var r := res[..];
    var u, v := Load(res[at], res[at + 1], res[at + 2], res[at + 3], res[at + 4], res[at + 5], res[at + 6], res[at + 7]), LoadAt(s, at);
    assert u == LoadAt(r, at);
    var w := ApplyWord(op, u, v);
    forall k | 0 <= k < 8 ensures Nth(w, k) == Apply(op, r[at + k], s[at + k]) {
      NthApply(op, u, v, k);
      LoadAtNth(r, at, k);
      LoadAtNth(s, at, k);
      hide Load, ApplyWord, Nth, Apply;
    }
    hide Load, ApplyWord, Nth, Apply, Blended;
    StoreWord(res, at, w);
    assert res[..] == Blended(r, op, s, at, at + 8);
  }

  method StoreWord(res: array<Byte>, at: nat, w: Word)
    requires at + 8 <= res.Length
    modifies res
    ensures forall i :: 0 <= i < res.Length ==> res[i] == if at <= i < at + 8 then Nth(w, i - at) else old(res[i])
  {
    hide Nth;
    forall k | 0 <= k < 8 {
      res[at + k] := Nth(w, k);
    }
  }

  /** The four words of a round, for one key. */
  method BlockOp(res: array<Byte>, at: nat, op: Op, s: Bytes)
    requires at + 32 <= res.Length && at + 32 <= |s|
    modifies res
    ensures res[..] == Blended(old(res[..]), op, s, at, at + 32)
  {
    hide *;
    ghost var r := res[..];
    WordOp(res, at, op, s);
    WordOp(res, at + 8, op, s);
    BlendedJoin(r, op, s, at, at + 8, at + 16);
    WordOp(res, at + 16, op, s);
    BlendedJoin(r, op, s, at, at + 16, at + 24);
    WordOp(res, at + 24, op, s);
    BlendedJoin(r, op, s, at, at + 24, at + 32);
  }

  function Complemented(r: Bytes, lo: nat, hi: nat): (r': Bytes)
    requires hi <= |r|
    ensures |r'| == |r| && forall i :: 0 <= i < |r| ==> r'[i] == if lo <= i < hi then NotByte(r[i]) else r[i]
  {
    seq(|r|, i requires 0 <= i < |r| => if lo <= i < hi then NotByte(r[i]) else r[i])
  }

  lemma ComplementedJoin(r: Bytes, a: nat, b: nat, c: nat)
    requires a <= b <= c <= |r|
    ensures Complemented(Complemented(r, a, b), b, c) == Complemented(r, a, c)
  {
    hide NotByte;
  }

  /** lres[x] = ~lres[x] */
  method WordNot(res: array<Byte>, at: nat)
    requires at + 8 <= res.Length
    modifies res
    ensures res[..] == Complemented(old(res[..]), at, at + 8)
  {
    ghost var r := res[..];
    var u := Load(res[at], res[at + 1], res[at + 2], res[at + 3], res[at + 4], res[at + 5], res[at + 6], res[at + 7]);
    assert u == LoadAt(r, at);
    var w := NotWord(u);
    forall k | 0 <= k < 8 ensures Nth(w, k) == NotByte(r[at + k]) {
      NthNot(u, k);
      LoadAtNth(r, at, k);
      hide Load, NotWord, Nth, NotByte;
    }
    hide Load, NotWord, Nth, NotByte, Complemented;
    StoreWord(res, at, w);
    assert res[..] == Complemented(r, at, at + 8);
  }

  method BlockNot(res: array<Byte>, at: nat)
    requires at + 32 <= res.Length
    modifies res
    ensures res[..] == Complemented(old(res[..]), at, at + 32)
  {
    hide *;
    ghost var r := res[..];
    WordNot(res, at);
    WordNot(res, at + 8);
    ComplementedJoin(r, at, at + 8, at + 16);
    WordNot(res, at + 16);
    ComplementedJoin(r, at, at + 16, at + 24);
    WordNot(res, at + 24);
    ComplementedJoin(r, at, at + 24, at + 32);
  }

  // ---- the fast path

  /** The bytes before `done` are final, the others up to `copied` still those of the first string. */
  ghost predicate Ready(r: Bytes, op: Op, src: seq<Bytes>, done: nat, copied: nat)
    requires src != []
  {
    && done <= copied <= |r| && copied <= |src[0]|
    && (forall k :: 0 <= k < done ==> r[k] == Fold(op, src, |src|, k))
    && (forall k :: done <= k < copied ==> r[k] == src[0][k])
  }

  /** Within a round: `n` strings are combined in the 32 bytes from `done`. */
  ghost predicate Mixed(r: Bytes, op: Op, src: seq<Bytes>, n: nat, done: nat, copied: nat)
    requires 0 < n <= |src|
  {
    && done + 32 <= copied <= |r| && copied <= |src[0]|
    && (forall k :: 0 <= k < done ==> r[k] == Fold(op, src, |src|, k))
    && (forall k :: done <= k < done + 32 ==> r[k] == Fold(op, src, n, k))
    && (forall k :: done + 32 <= k < copied ==> r[k] == src[0][k])
  }

  lemma FoldOne(op: Op, src: seq<Bytes>, j: nat)
    requires src != [] && j < |src[0]|
    ensures Fold(op, src, 1, j) == if op == Not then NotByte(src[0][j]) else src[0][j]
  {}

  lemma FoldMore(op: Op, src: seq<Bytes>, n: nat, j: nat)
    requires 0 < n < |src| && j < |src[n]|
    ensures Fold(op, src, n + 1, j) == Apply(op, Fold(op, src, n, j), src[n][j])
  {}

  lemma MixStart(r: Bytes, op: Op, src: seq<Bytes>, done: nat, copied: nat)
    requires src != [] && op != Not && Ready(r, op, src, done, copied) && done + 32 <= copied
    ensures Mixed(r, op, src, 1, done, copied)
  {
    forall k | done <= k < done + 32 ensures r[k] == Fold(op, src, 1, k) {
      FoldOne(op, src, k);
      hide Fold;
    }
    hide Fold;
  }

  lemma MixStep(r: Bytes, op: Op, src: seq<Bytes>, n: nat, done: nat, copied: nat)
    requires 0 < n < |src| && Mixed(r, op, src, n, done, copied) && copied <= |src[n]|
    ensures Mixed(Blended(r, op, src[n], done, done + 32), op, src, n + 1, done, copied)
  {
    forall k | done <= k < done + 32 ensures Fold(op, src, n + 1, k) == Apply(op, r[k], src[n][k]) {
      FoldMore(op, src, n, k);
      hide Fold, Apply;
    }
    hide Fold, Apply, Blended;
  }

  lemma MixEnd(r: Bytes, op: Op, src: seq<Bytes>, done: nat, copied: nat)
    requires src != [] && Mixed(r, op, src, |src|, done, copied)
    ensures Ready(r, op, src, done + 32, copied)
  {
    hide Fold;
  }

  lemma NotStep(r: Bytes, src: seq<Bytes>, done: nat, copied: nat)
    requires |src| == 1 && Ready(r, Not, src, done, copied) && done + 32 <= copied
    ensures Ready(Complemented(r, done, done + 32), Not, src, done + 32, copied)
  {
    forall k | done <= k < done + 32 ensures Fold(Not, src, 1, k) == NotByte(r[k]) {
      FoldOne(Not, src, k);
      hide Fold, NotByte;
    }
    hide Fold, NotByte, Complemented;
  }

  /** One round of 32 bytes. */
  method Round(res: array<Byte>, op: Op, src: seq<Bytes>, j: nat, ghost copied: nat)
    requires src != [] && (op == Not ==> |src| == 1)
    requires forall i :: 0 <= i < |src| ==> copied <= |src[i]|
    requires Ready(res[..], op, src, j, copied) && j + 32 <= copied <= res.Length
    modifies res
    ensures Ready(res[..], op, src, j + 32, copied)
  {
    hide *;
    if op == Not {
      NotStep(res[..], src, j, copied);
      BlockNot(res, j);
    } else {
      MixStart(res[..], op, src, j, copied);
      var i := 1;
      while i < |src|
        invariant 1 <= i <= |src| && Mixed(res[..], op, src, i, j, copied)
      {
        MixStep(res[..], op, src, i, j, copied);
        BlockOp(res, j, op, src[i]);
        i := i + 1;
      }
      MixEnd(res[..], op, src, j, copied);
    }
  }

  lemma CopiedIsReady(r: Bytes, op: Op, src: seq<Bytes>, n: nat)
    requires src != [] && n <= |r| && n <= |src[0]|
    requires forall k :: 0 <= k < n ==> r[k] == src[0][k]
    ensures Ready(r, op, src, 0, n)
  {}

  /** memcpy of the first string, then rounds while 32 bytes remain in every string. */
  method FastPath(res: array<Byte>, op: Op, src: seq<Bytes>, minlen: nat) returns (j: nat)
    requires src != [] && (op == Not ==> |src| == 1)
    requires minlen <= res.Length && forall i :: 0 <= i < |src| ==> minlen <= |src[i]|
    modifies res
    ensures j <= res.Length && Ready(res[..], op, src, j, minlen)
    ensures minlen < j + 32
  {
    hide *;
    forall k | 0 <= k < minlen {
      res[k] := src[0][k];
    }
    CopiedIsReady(res[..], op, src, minlen);
    j := 0;
    var left := minlen;
    while left >= 32
      invariant j + left == minlen && Ready(res[..], op, src, j, minlen)
    {
      Round(res, op, src, j, minlen);
      j := j + 32;
      left := left - 32;
    }
  }

  // ---- the slow path

  /** The inner loop of the byte-wise path. */
  method OneByte(op: Op, src: seq<Bytes>, j: nat) returns (output: Byte)
    requires src != [] && (op == Not ==> |src| == 1)
    ensures output == Fold(op, src, |src|, j)
  {
    hide Apply, NotByte;
    output := if |src[0]| <= j then Byte(0) else src[0][j];
    if op == Not { output := NotByte(output); }
    var i := 1;
    while i < |src|
      invariant 1 <= i <= |src| && output == Fold(op, src, i, j)
    {
      var byte := if |src[i]| <= j then Byte(0) else src[i][j];
      output := Apply(op, output, byte);
      i := i + 1;
    }
  }

  ghost predicate Final(r: Bytes, op: Op, src: seq<Bytes>, done: nat)
    requires src != []
  {
    done <= |r| && forall k :: 0 <= k < done ==> r[k] == Fold(op, src, |src|, k)
  }

  lemma ReadyIsFinal(r: Bytes, op: Op, src: seq<Bytes>, done: nat, copied: nat)
    requires src != [] && Ready(r, op, src, done, copied)
    ensures Final(r, op, src, done)
  {
    hide Fold;
  }

  lemma FinalStep(r: Bytes, op: Op, src: seq<Bytes>, done: nat, b: Byte)
    requires src != [] && Final(r, op, src, done) && done < |r| && b == Fold(op, src, |src|, done)
    ensures Final(r[done := b], op, src, done + 1)
  {
    hide Fold;
  }

  method SlowPath(res: array<Byte>, op: Op, src: seq<Bytes>, from: nat)
    requires src != [] && (op == Not ==> |src| == 1)
    requires from <= res.Length && Final(res[..], op, src, from)
    modifies res
    ensures Final(res[..], op, src, res.Length)
  {
    hide *;
    var j := from;
    while j < res.Length
      invariant from <= j <= res.Length && Final(res[..], op, src, j)
    {
      var output := OneByte(op, src, j);
      ghost var r := res[..];
      FinalStep(r, op, src, j, output);
      res[j] := output;
      assert res[..] == r[j := output];
      j := j + 1;
    }
  }

  // ---- the command

  /** What a key holds. */
  datatype Value = Missing | Text(bytes: Bytes) | OtherType

  datatype Result = NotOneKey | WrongType | Stored(value: Bytes)

  /** The string of a key: a missing key counts as an empty one. */
  function TextOf(v: Value): Bytes { if v.Text? then v.bytes else [] }

  function Texts(vs: seq<Value>): seq<Bytes> { seq(|vs|, i requires 0 <= i < |vs| => TextOf(vs[i])) }

  lemma MaxLenSnoc(src: seq<Bytes>, s: Bytes)
    ensures MaxLen(src + [s]) == if |s| > MaxLen(src) then |s| else MaxLen(src)
  {
    assert (src + [s])[..|src|] == src;
  }

  /** MaxLen is the length of a longest string. */
  lemma {:induction false} MaxLenIsMax(src: seq<Bytes>)
    ensures forall i :: 0 <= i < |src| ==> |src[i]| <= MaxLen(src)
    ensures src != [] ==> exists i :: 0 <= i < |src| && |src[i]| == MaxLen(src)
  {
    if src != [] {
      var init := src[..|src| - 1];
      MaxLenIsMax(init);
      assert forall i :: 0 <= i < |init| ==> src[i] == init[i];
      if |src[|src| - 1]| <= MaxLen(init) && init != [] {
        var i :| 0 <= i < |init| && |init[i]| == MaxLen(init);
        assert |src[i]| == MaxLen(src);
      } else {
        assert |src[|src| - 1]| == MaxLen(src);
      }
    }
  }

  /** Look up the source keys; `minlen` is a lower bound on every length, `maxlen` the greatest. */
  method LookupSources(vs: seq<Value>) returns (ok: bool, src: seq<Bytes>, minlen: nat, maxlen: nat)
    ensures ok <==> OtherType !in vs
    ensures ok ==> src == Texts(vs) && maxlen == MaxLen(src)
    ensures ok ==> forall i :: 0 <= i < |src| ==> minlen <= |src[i]|
    ensures ok && src != [] ==> exists i :: 0 <= i < |src| && minlen == |src[i]|
  {
    hide MaxLen;
    ok, src, minlen, maxlen := true, [], 0, 0;
    MaxLenNone();
    var j := 0;
    while j < |vs|
      invariant 0 <= j <= |vs| && OtherType !in vs[..j]
      invariant src == Texts(vs[..j]) && maxlen == MaxLen(src)
      invariant forall i :: 0 <= i < j ==> minlen <= |src[i]|
      invariant j > 0 ==> exists i :: 0 <= i < j && minlen == |src[i]|
      invariant j == 0 ==> minlen == 0
    {
      var v := vs[j];
      assert vs[..j + 1] == vs[..j] + [v];
      if v.OtherType? {
        ok := false;
        return;
      }
      ghost var was := src;
      MaxLenSnoc(src, TextOf(v));
      src := src + [TextOf(v)];
      assert src == Texts(vs[..j + 1]);
      if v.Missing? {
        minlen := 0;
      } else {
        if |v.bytes| > maxlen { maxlen := |v.bytes|; }
        if j == 0 || |v.bytes| < minlen { minlen := |v.bytes|; }
      }
      assert minlen == |src[j]| || (j > 0 && exists i :: 0 <= i < j && minlen == |was[i]|);
      assert forall i :: 0 <= i < j ==> src[i] == was[i];
      j := j + 1;
    }
    assert vs[..j] == vs;
  }

  lemma MaxLenNone()
    ensures MaxLen([]) == 0
  {}

  lemma FinalIsWhole(r: Bytes, op: Op, src: seq<Bytes>)
    requires src != [] && Final(r, op, src, |r|)
    ensures forall j :: 0 <= j < |r| ==> r[j] == Fold(op, src, |src|, j)
  {
    hide Fold;
  }

  /** BITOP: the stored string is as long as the longest source, and each of its bytes is the
      combination of the sources' bytes, absent ones reading as zero. An empty result deletes
      the target key. */
  method BitopCommand(op: Op, vs: seq<Value>) returns (r: Result)
    requires vs != []
    ensures r.NotOneKey? <==> op == Not && |vs| != 1
    ensures r.WrongType? <==> !r.NotOneKey? && OtherType in vs
    ensures r.Stored? ==> |r.value| == MaxLen(Texts(vs))
    ensures r.Stored? ==> forall j :: 0 <= j < |r.value| ==> r.value[j] == Fold(op, Texts(vs), |vs|, j)
  {
    hide *;
    if op == Not && |vs| != 1 { return NotOneKey; }
    var ok, src, minlen, maxlen := LookupSources(vs);
    if !ok { return WrongType; }
    TextsLength(vs);
    if maxlen == 0 { return Stored([]); }
    var res := new Byte[maxlen](_ => Byte(0));
    MaxLenIsMax(src);
    var j := 0;
    NoneFinal(res[..], op, src);
    if minlen > 0 && |vs| <= 16 {
      j := FastPath(res, op, src, minlen);
      ReadyIsFinal(res[..], op, src, j, minlen);
    }
    SlowPath(res, op, src, j);
    FinalIsWhole(res[..], op, src);
    r := Stored(res[..]);
  }

  lemma TextsLength(vs: seq<Value>)
    ensures |Texts(vs)| == |vs|
  {}

  lemma NoneFinal(r: Bytes, op: Op, src: seq<Bytes>)
    requires src != []
    ensures Final(r, op, src, 0)
  {}
}
