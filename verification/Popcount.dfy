/** bitops.c, popcount: 16 bytes at a time by adding bits in parallel, then byte by byte. */
module Popcount {
  type Bytes = seq<bv8>

  function One(b: bool): nat { if b then 1 else 0 }

  /** How many bits of a byte are set. */
  function BitsSet(b: bv8): nat {
    One(b & 1 != 0) + One(b & 2 != 0) + One(b & 4 != 0) + One(b & 8 != 0)
    + One(b & 16 != 0) + One(b & 32 != 0) + One(b & 64 != 0) + One(b & 128 != 0)
  }

  function Total(s: Bytes): nat {
    if s == [] then 0 else Total(s[..|s| - 1]) + BitsSet(s[|s| - 1])
  }

  // ---- the table, 16 entries a row

  function BitsRow0(j: bv8): nat {
    if j == 0 then 0 else if j == 1 then 1 else if j == 2 then 1 else if j == 3 then 2 else if j == 4 then 1 else if j == 5 then 2 else if j == 6 then 2 else if j == 7 then 3 else
    if j == 8 then 1 else if j == 9 then 2 else if j == 10 then 2 else if j == 11 then 3 else if j == 12 then 2 else if j == 13 then 3 else if j == 14 then 3 else 4
  }

  function BitsRow1(j: bv8): nat {
    if j == 0 then 1 else if j == 1 then 2 else if j == 2 then 2 else if j == 3 then 3 else if j == 4 then 2 else if j == 5 then 3 else if j == 6 then 3 else if j == 7 then 4 else
    if j == 8 then 2 else if j == 9 then 3 else if j == 10 then 3 else if j == 11 then 4 else if j == 12 then 3 else if j == 13 then 4 else if j == 14 then 4 else 5
  }

  function BitsRow2(j: bv8): nat {
    if j == 0 then 1 else if j == 1 then 2 else if j == 2 then 2 else if j == 3 then 3 else if j == 4 then 2 else if j == 5 then 3 else if j == 6 then 3 else if j == 7 then 4 else
    if j == 8 then 2 else if j == 9 then 3 else if j == 10 then 3 else if j == 11 then 4 else if j == 12 then 3 else if j == 13 then 4 else if j == 14 then 4 else 5
  }

  function BitsRow3(j: bv8): nat {
    if j == 0 then 2 else if j == 1 then 3 else if j == 2 then 3 else if j == 3 then 4 else if j == 4 then 3 else if j == 5 then 4 else if j == 6 then 4 else if j == 7 then 5 else
    if j == 8 then 3 else if j == 9 then 4 else if j == 10 then 4 else if j == 11 then 5 else if j == 12 then 4 else if j == 13 then 5 else if j == 14 then 5 else 6
  }

  function BitsRow4(j: bv8): nat {
    if j == 0 then 1 else if j == 1 then 2 else if j == 2 then 2 else if j == 3 then 3 else if j == 4 then 2 else if j == 5 then 3 else if j == 6 then 3 else if j == 7 then 4 else
    if j == 8 then 2 else if j == 9 then 3 else if j == 10 then 3 else if j == 11 then 4 else if j == 12 then 3 else if j == 13 then 4 else if j == 14 then 4 else 5
  }

  function BitsRow5(j: bv8): nat {
    if j == 0 then 2 else if j == 1 then 3 else if j == 2 then 3 else if j == 3 then 4 else if j == 4 then 3 else if j == 5 then 4 else if j == 6 then 4 else if j == 7 then 5 else
    if j == 8 then 3 else if j == 9 then 4 else if j == 10 then 4 else if j == 11 then 5 else if j == 12 then 4 else if j == 13 then 5 else if j == 14 then 5 else 6
  }

  function BitsRow6(j: bv8): nat {
    if j == 0 then 2 else if j == 1 then 3 else if j == 2 then 3 else if j == 3 then 4 else if j == 4 then 3 else if j == 5 then 4 else if j == 6 then 4 else if j == 7 then 5 else
    if j == 8 then 3 else if j == 9 then 4 else if j == 10 then 4 else if j == 11 then 5 else if j == 12 then 4 else if j == 13 then 5 else if j == 14 then 5 else 6
  }

  function BitsRow7(j: bv8): nat {
    if j == 0 then 3 else if j == 1 then 4 else if j == 2 then 4 else if j == 3 then 5 else if j == 4 then 4 else if j == 5 then 5 else if j == 6 then 5 else if j == 7 then 6 else
    if j == 8 then 4 else if j == 9 then 5 else if j == 10 then 5 else if j == 11 then 6 else if j == 12 then 5 else if j == 13 then 6 else if j == 14 then 6 else 7
  }

  function BitsRow8(j: bv8): nat {
    if j == 0 then 1 else if j == 1 then 2 else if j == 2 then 2 else if j == 3 then 3 else if j == 4 then 2 else if j == 5 then 3 else if j == 6 then 3 else if j == 7 then 4 else
    if j == 8 then 2 else if j == 9 then 3 else if j == 10 then 3 else if j == 11 then 4 else if j == 12 then 3 else if j == 13 then 4 else if j == 14 then 4 else 5
  }

  function BitsRow9(j: bv8): nat {
    if j == 0 then 2 else if j == 1 then 3 else if j == 2 then 3 else if j == 3 then 4 else if j == 4 then 3 else if j == 5 then 4 else if j == 6 then 4 else if j == 7 then 5 else
    if j == 8 then 3 else if j == 9 then 4 else if j == 10 then 4 else if j == 11 then 5 else if j == 12 then 4 else if j == 13 then 5 else if j == 14 then 5 else 6
  }

  function BitsRow10(j: bv8): nat {
    if j == 0 then 2 else if j == 1 then 3 else if j == 2 then 3 else if j == 3 then 4 else if j == 4 then 3 else if j == 5 then 4 else if j == 6 then 4 else if j == 7 then 5 else
    if j == 8 then 3 else if j == 9 then 4 else if j == 10 then 4 else if j == 11 then 5 else if j == 12 then 4 else if j == 13 then 5 else if j == 14 then 5 else 6
  }

  function BitsRow11(j: bv8): nat {
    if j == 0 then 3 else if j == 1 then 4 else if j == 2 then 4 else if j == 3 then 5 else if j == 4 then 4 else if j == 5 then 5 else if j == 6 then 5 else if j == 7 then 6 else
    if j == 8 then 4 else if j == 9 then 5 else if j == 10 then 5 else if j == 11 then 6 else if j == 12 then 5 else if j == 13 then 6 else if j == 14 then 6 else 7
  }

  function BitsRow12(j: bv8): nat {
    if j == 0 then 2 else if j == 1 then 3 else if j == 2 then 3 else if j == 3 then 4 else if j == 4 then 3 else if j == 5 then 4 else if j == 6 then 4 else if j == 7 then 5 else
    if j == 8 then 3 else if j == 9 then 4 else if j == 10 then 4 else if j == 11 then 5 else if j == 12 then 4 else if j == 13 then 5 else if j == 14 then 5 else 6
  }

  function BitsRow13(j: bv8): nat {
    if j == 0 then 3 else if j == 1 then 4 else if j == 2 then 4 else if j == 3 then 5 else if j == 4 then 4 else if j == 5 then 5 else if j == 6 then 5 else if j == 7 then 6 else
    if j == 8 then 4 else if j == 9 then 5 else if j == 10 then 5 else if j == 11 then 6 else if j == 12 then 5 else if j == 13 then 6 else if j == 14 then 6 else 7
  }

  function BitsRow14(j: bv8): nat {
    if j == 0 then 3 else if j == 1 then 4 else if j == 2 then 4 else if j == 3 then 5 else if j == 4 then 4 else if j == 5 then 5 else if j == 6 then 5 else if j == 7 then 6 else
    if j == 8 then 4 else if j == 9 then 5 else if j == 10 then 5 else if j == 11 then 6 else if j == 12 then 5 else if j == 13 then 6 else if j == 14 then 6 else 7
  }

  function BitsRow15(j: bv8): nat {
    if j == 0 then 4 else if j == 1 then 5 else if j == 2 then 5 else if j == 3 then 6 else if j == 4 then 5 else if j == 5 then 6 else if j == 6 then 6 else if j == 7 then 7 else
    if j == 8 then 5 else if j == 9 then 6 else if j == 10 then 6 else if j == 11 then 7 else if j == 12 then 6 else if j == 13 then 7 else if j == 14 then 7 else 8
  }

  /** bitsinbyte */
  function BitsInByte(i: bv8): nat {
    var r, j := i >> 4, i & 15;
    if r == 0 then BitsRow0(j) else if r == 1 then BitsRow1(j) else if r == 2 then BitsRow2(j) else if r == 3 then BitsRow3(j)
    else if r == 4 then BitsRow4(j) else if r == 5 then BitsRow5(j) else if r == 6 then BitsRow6(j) else if r == 7 then BitsRow7(j)
    else if r == 8 then BitsRow8(j) else if r == 9 then BitsRow9(j) else if r == 10 then BitsRow10(j) else if r == 11 then BitsRow11(j)
    else if r == 12 then BitsRow12(j) else if r == 13 then BitsRow13(j) else if r == 14 then BitsRow14(j) else BitsRow15(j)
  }

  lemma BitsRow0Ok(j: bv8)
    requires j < 16
    ensures BitsRow0(j) == BitsSet(j | 0x00)
  {}

  lemma BitsRow1Ok(j: bv8)
    requires j < 16
    ensures BitsRow1(j) == BitsSet(j | 0x10)
  {}

  lemma BitsRow2Ok(j: bv8)
    requires j < 16
    ensures BitsRow2(j) == BitsSet(j | 0x20)
  {}

  lemma BitsRow3Ok(j: bv8)
    requires j < 16
    ensures BitsRow3(j) == BitsSet(j | 0x30)
  {}

  lemma BitsRow4Ok(j: bv8)
    requires j < 16
    ensures BitsRow4(j) == BitsSet(j | 0x40)
  {}

  lemma BitsRow5Ok(j: bv8)
    requires j < 16
    ensures BitsRow5(j) == BitsSet(j | 0x50)
  {}

  lemma BitsRow6Ok(j: bv8)
    requires j < 16
    ensures BitsRow6(j) == BitsSet(j | 0x60)
  {}

  lemma BitsRow7Ok(j: bv8)
    requires j < 16
    ensures BitsRow7(j) == BitsSet(j | 0x70)
  {}

  lemma BitsRow8Ok(j: bv8)
    requires j < 16
    ensures BitsRow8(j) == BitsSet(j | 0x80)
  {}

  lemma BitsRow9Ok(j: bv8)
    requires j < 16
    ensures BitsRow9(j) == BitsSet(j | 0x90)
  {}

  lemma BitsRow10Ok(j: bv8)
    requires j < 16
    ensures BitsRow10(j) == BitsSet(j | 0xa0)
  {}

  lemma BitsRow11Ok(j: bv8)
    requires j < 16
    ensures BitsRow11(j) == BitsSet(j | 0xb0)
  {}

  lemma BitsRow12Ok(j: bv8)
    requires j < 16
    ensures BitsRow12(j) == BitsSet(j | 0xc0)
  {}

  lemma BitsRow13Ok(j: bv8)
    requires j < 16
    ensures BitsRow13(j) == BitsSet(j | 0xd0)
  {}

  lemma BitsRow14Ok(j: bv8)
    requires j < 16
    ensures BitsRow14(j) == BitsSet(j | 0xe0)
  {}

  lemma BitsRow15Ok(j: bv8)
    requires j < 16
    ensures BitsRow15(j) == BitsSet(j | 0xf0)
  {}

  lemma ByteSplit(i: bv8)
    ensures var r, j := i >> 4, i & 15;
      && j < 16 && r <= 15
      && (r == 0 ==> j | 0x00 == i) && (r == 1 ==> j | 0x10 == i) && (r == 2 ==> j | 0x20 == i) && (r == 3 ==> j | 0x30 == i)
      && (r == 4 ==> j | 0x40 == i) && (r == 5 ==> j | 0x50 == i) && (r == 6 ==> j | 0x60 == i) && (r == 7 ==> j | 0x70 == i)
      && (r == 8 ==> j | 0x80 == i) && (r == 9 ==> j | 0x90 == i) && (r == 10 ==> j | 0xa0 == i) && (r == 11 ==> j | 0xb0 == i)
      && (r == 12 ==> j | 0xc0 == i) && (r == 13 ==> j | 0xd0 == i) && (r == 14 ==> j | 0xe0 == i) && (r == 15 ==> j | 0xf0 == i)
  {}

  lemma TableCounts(i: bv8)
    ensures BitsInByte(i) == BitsSet(i)
  {
    ByteSplit(i);
    var r, j := i >> 4, i & 15;
    if r == 0 { BitsRow0Ok(j); } else if r == 1 { BitsRow1Ok(j); } else if r == 2 { BitsRow2Ok(j); } else if r == 3 { BitsRow3Ok(j); }
    else if r == 4 { BitsRow4Ok(j); } else if r == 5 { BitsRow5Ok(j); } else if r == 6 { BitsRow6Ok(j); } else if r == 7 { BitsRow7Ok(j); }
    else if r == 8 { BitsRow8Ok(j); } else if r == 9 { BitsRow9Ok(j); } else if r == 10 { BitsRow10Ok(j); } else if r == 11 { BitsRow11Ok(j); }
    else if r == 12 { BitsRow12Ok(j); } else if r == 13 { BitsRow13Ok(j); } else if r == 14 { BitsRow14Ok(j); } else { BitsRow15Ok(j); }
    hide BitsSet, BitsRow0, BitsRow1, BitsRow2, BitsRow3, BitsRow4, BitsRow5, BitsRow6, BitsRow7, BitsRow8, BitsRow9,
         BitsRow10, BitsRow11, BitsRow12, BitsRow13, BitsRow14, BitsRow15;
  }

  // ---- counting the bits of four bytes at once

  datatype Word = Word(v: bv32)
  datatype Byte = Byte(v: bv8)

  /** Four bytes as the little-endian machine loads them. */
  function Load(a: Byte, b: Byte, c: Byte, d: Byte): Word {
    Word((a.v as bv32) | ((b.v as bv32) << 8) | ((c.v as bv32) << 16) | ((d.v as bv32) << 24))
  }

  /** Sums of 2 bits, of 4 bits, of 8 bits, each in its own field. */
  function Sums2(w: Word): Word { Word(w.v - ((w.v >> 1) & 0x5555_5555)) }

  function Sums4(w: Word): Word { Word((w.v & 0x3333_3333) + ((w.v >> 2) & 0x3333_3333)) }

  function Sums8(w: Word): Word { Word((w.v + (w.v >> 4)) & 0x0F0F_0F0F) }

  /** The sum of the four bytes. */
  function SumOfBytes(w: Word): Word { Word((w.v * 0x0101_0101) >> 24) }

  function WordCount(w: Word): nat { Value(SumOfBytes(Sums8(Sums4(Sums2(w))))) }

  function Value(w: Word): nat { w.v as int }

  function ByteValue(b: Byte): nat { b.v as int }

  function Wide(b: Byte): Word { Word(b.v as bv32) }

  function Plus(u: Word, v: Word): Word { Word(u.v + v.v) }

  /** The same steps on one byte. */
  function Byte2(b: Byte): Byte { Byte(b.v - ((b.v >> 1) & 0x55)) }

  function Byte4(b: Byte): Byte { Byte((b.v & 0x33) + ((b.v >> 2) & 0x33)) }

  function Byte8(b: Byte): Byte { Byte((b.v + (b.v >> 4)) & 0x0f) }

  function ByteCount(b: Byte): Byte { Byte8(Byte4(Byte2(b))) }

  /** Taking the upper bit of a pair from the pair leaves the sum of its bits. */
  function Pairs(w: Word): Word { Word((w.v & 0x5555_5555) + ((w.v >> 1) & 0x5555_5555)) }

  function BytePairs(b: Byte): Byte { Byte((b.v & 0x55) + ((b.v >> 1) & 0x55)) }

  lemma PairSumsOf(v: bv32)
    ensures Sums2(Word(v)) == Pairs(Word(v))
  {}

  lemma PairSums(w: Word)
    ensures Sums2(w) == Pairs(w)
  {
    PairSumsOf(w.v);
    hide *;
    assert Word(w.v) == w;
  }

  lemma BytePairSums(b: Byte)
    ensures Byte2(b) == BytePairs(b)
  {}

  lemma PairsOfBytes(a: Byte, b: Byte, c: Byte, d: Byte)
    ensures Pairs(Load(a, b, c, d)) == Load(BytePairs(a), BytePairs(b), BytePairs(c), BytePairs(d))
  {}

  lemma NoBorrow(a: Byte, b: Byte, c: Byte, d: Byte)
    ensures Sums2(Load(a, b, c, d)) == Load(Byte2(a), Byte2(b), Byte2(c), Byte2(d))
  {
    hide *;
    PairSums(Load(a, b, c, d));
    PairsOfBytes(a, b, c, d);
    BytePairSums(a);
    BytePairSums(b);
    BytePairSums(c);
    BytePairSums(d);
  }

  lemma NoCarry4(a: Byte, b: Byte, c: Byte, d: Byte)
    ensures Sums4(Load(a, b, c, d)) == Load(Byte4(a), Byte4(b), Byte4(c), Byte4(d))
  {}

  /** No nibble is above 4. */
  predicate SmallNibbles(b: Byte) { (b.v & 0x0f) <= 4 && (b.v >> 4) <= 4 }

  lemma SmallAfter4(b: Byte)
    ensures SmallNibbles(Byte4(Byte2(b)))
  {}

  lemma NoCarry8(a: Byte, b: Byte, c: Byte, d: Byte)
    requires SmallNibbles(a) && SmallNibbles(b) && SmallNibbles(c) && SmallNibbles(d)
    ensures Sums8(Load(a, b, c, d)) == Load(Byte8(a), Byte8(b), Byte8(c), Byte8(d))
  {}

  lemma ByteCounts(b: Byte)
    ensures ByteCount(b).v <= 8 && ByteValue(ByteCount(b)) == BitsSet(b.v)
  {
    assert ByteCount(b).v == (b.v & 1) + ((b.v >> 1) & 1) + ((b.v >> 2) & 1) + ((b.v >> 3) & 1)
      + ((b.v >> 4) & 1) + ((b.v >> 5) & 1) + ((b.v >> 6) & 1) + ((b.v >> 7) & 1);
  }

  /** The multiplication adds the four bytes, which are small. */
  lemma BytesAdd(a: Byte, b: Byte, c: Byte, d: Byte)
    requires a.v <= 8 && b.v <= 8 && c.v <= 8 && d.v <= 8
    ensures SumOfBytes(Load(a, b, c, d)) == Plus(Plus(Plus(Wide(a), Wide(b)), Wide(c)), Wide(d))
  {}

  lemma WideSmall(b: Byte)
    requires b.v <= 8
    ensures Wide(b).v <= 8
  {}

  lemma WideValue(b: Byte)
    ensures Value(Wide(b)) == ByteValue(b)
  {}

  /** A sum of bytes that are small does not overflow. */
  lemma PlusValue(u: Word, v: Word, max: bv32)
    requires u.v <= max <= 24 && v.v <= 8
    ensures Value(Plus(u, v)) == Value(u) + Value(v)
  {}

  lemma PlusSmall(u: Word, v: Word, max: bv32)
    requires u.v <= max <= 24 && v.v <= 8
    ensures Plus(u, v).v <= max + 8
  {}

  lemma SumAsInt(a: Byte, b: Byte, c: Byte, d: Byte)
    requires a.v <= 8 && b.v <= 8 && c.v <= 8 && d.v <= 8
    ensures Value(Plus(Plus(Plus(Wide(a), Wide(b)), Wide(c)), Wide(d))) == ByteValue(a) + ByteValue(b) + ByteValue(c) + ByteValue(d)
  {
    hide *;
    WideSmall(a);
    WideSmall(b);
    WideSmall(c);
    WideSmall(d);
    WideValue(a);
    WideValue(b);
    WideValue(c);
    WideValue(d);
    var ab := Plus(Wide(a), Wide(b));
    var abc := Plus(ab, Wide(c));
    PlusValue(Wide(a), Wide(b), 8);
    PlusSmall(Wide(a), Wide(b), 8);
    PlusValue(ab, Wide(c), 16);
    PlusSmall(ab, Wide(c), 16);
    PlusValue(abc, Wide(d), 24);
  }

  lemma WordCountIs(w: Word)
    ensures WordCount(w) == Value(SumOfBytes(Sums8(Sums4(Sums2(w)))))
  {}

  lemma ByteCountIs(b: Byte)
    ensures ByteCount(b) == Byte8(Byte4(Byte2(b)))
  {}

  /** The bit-parallel count of a word is the sum over its bytes. */
  lemma WordCounts(a: Byte, b: Byte, c: Byte, d: Byte)
    ensures WordCount(Load(a, b, c, d)) == BitsSet(a.v) + BitsSet(b.v) + BitsSet(c.v) + BitsSet(d.v)
  {
    hide *;
    var a2, b2, c2, d2 := Byte2(a), Byte2(b), Byte2(c), Byte2(d);
    WordCountIs(Load(a, b, c, d));
    ByteCountIs(a);
    ByteCountIs(b);
    ByteCountIs(c);
    ByteCountIs(d);
    NoBorrow(a, b, c, d);
    NoCarry4(a2, b2, c2, d2);
    SmallAfter4(a);
    SmallAfter4(b);
    SmallAfter4(c);
    SmallAfter4(d);
    NoCarry8(Byte4(a2), Byte4(b2), Byte4(c2), Byte4(d2));
    CountsAdd(a, b, c, d);
  }

  lemma CountsAdd(a: Byte, b: Byte, c: Byte, d: Byte)
    ensures Value(SumOfBytes(Load(ByteCount(a), ByteCount(b), ByteCount(c), ByteCount(d))))
      == BitsSet(a.v) + BitsSet(b.v) + BitsSet(c.v) + BitsSet(d.v)
  {
    hide *;
    ByteCounts(a);
    ByteCounts(b);
    ByteCounts(c);
    ByteCounts(d);
    BytesAdd(ByteCount(a), ByteCount(b), ByteCount(c), ByteCount(d));
    SumAsInt(ByteCount(a), ByteCount(b), ByteCount(c), ByteCount(d));
  }

  lemma TotalSnoc(s: Bytes, i: nat)
    requires i < |s|
    ensures Total(s[..i + 1]) == Total(s[..i]) + BitsSet(s[i])
  {
    assert s[..i + 1][..i] == s[..i];
  }

  function LoadAt(s: Bytes, i: nat): Word
    requires i + 4 <= |s|
  {
    Load(Byte(s[i]), Byte(s[i + 1]), Byte(s[i + 2]), Byte(s[i + 3]))
  }

  lemma LoadAtIs(s: Bytes, i: nat)
    requires i + 4 <= |s|
    ensures LoadAt(s, i) == Load(Byte(s[i]), Byte(s[i + 1]), Byte(s[i + 2]), Byte(s[i + 3]))
  {}

  lemma FourMore(s: Bytes, i: nat)
    requires i + 4 <= |s|
    ensures Total(s[..i + 4]) == Total(s[..i]) + WordCount(LoadAt(s, i))
  {
    hide *;
    LoadAtIs(s, i);
    TotalSnoc(s, i);
    TotalSnoc(s, i + 1);
    TotalSnoc(s, i + 2);
    TotalSnoc(s, i + 3);
    WordCounts(Byte(s[i]), Byte(s[i + 1]), Byte(s[i + 2]), Byte(s[i + 3]));
  }

  /** popcount */
  method Popcount(s: Bytes) returns (bits: nat)
    ensures bits == Total(s)
  {
    bits := 0;
    var p: nat, count: nat := 0, |s|;
    assert s[..0] == [] && Total(s[..0]) == 0;
    hide *;
    while count >= 16
      invariant 0 <= p <= |s| && p + count == |s| && bits == Total(s[..p])
    {
      FourMore(s, p);
      FourMore(s, p + 4);
      FourMore(s, p + 8);
      FourMore(s, p + 12);
      var aux1, aux2, aux3, aux4 := LoadAt(s, p), LoadAt(s, p + 4), LoadAt(s, p + 8), LoadAt(s, p + 12);
      p, count := p + 16, count - 16;
      bits := bits + WordCount(aux1) + WordCount(aux2) + WordCount(aux3) + WordCount(aux4);
    }
    while count > 0
      invariant 0 <= p <= |s| && p + count == |s| && bits == Total(s[..p])
    {
      TotalSnoc(s, p);
      TableCounts(s[p]);
      bits := bits + BitsInByte(s[p]);
      p, count := p + 1, count - 1;
    }
    assert s[..p] == s;
  }
}
