/** A byte as a number and as 8 bits. */
module ByteBits {
  lemma BackAgain(v: bv8)
    ensures (v as int) as bv8 == v
  {}

  lemma Successor(v: bv8)
    requires v != 255
    ensures (v + 1) as int == v as int + 1
  {}

  /** Every byte is the number of some 8 bits. */
  lemma {:induction false} SomeBits(b: nat) returns (v: bv8)
    requires b < 256
    ensures v as int == b
  {
    if b == 0 {
      v := 0;
    } else {
      var u := SomeBits(b - 1);
      assert u != 255;
      Successor(u);
      v := u + 1;
    }
  }

  lemma ByteOfBits(b: int)
    requires 0 <= b < 256
    ensures (b as bv8) as int == b
  {
    var v := SomeBits(b);
    BackAgain(v);
  }
}

/** rio.c and rio.h: a stream with a running checksum. */
module RioStream {
  import opened Wrappers
  import opened ByteBits
  import opened Bytes
  import opened Crc64
  import opened Crc64Detects

  /** Bytes as the checksum takes them. */
  function Bits(s: bytes): (d: Data)
    ensures |d| == |s|
  {
    seq(|s|, i requires 0 <= i < |s| => s[i] as bv8)
  }

  lemma BitsConcat(s: bytes, t: bytes)
    ensures Bits(s + t) == Bits(s) + Bits(t)
  {}

  /** The checksum of all of `s`. */
  function Sum(s: bytes): Reg { Serial(Reg(0), Bits(s)) }

  lemma SumConcat(s: bytes, t: bytes)
    ensures Sum(s + t) == Serial(Sum(s), Bits(t))
  {
    hide Serial, Bits;
    BitsConcat(s, t);
    SerialConcat(Reg(0), Bits(s), Bits(t));
  }

  lemma BitsDiffer(a: bytes, b: bytes)
    requires |a| == |b| && Bits(a) == Bits(b)
    ensures a == b
  {
    forall i | 0 <= i < |a| ensures a[i] == b[i] {
      assert Bits(a)[i] == Bits(b)[i];
      ByteOfBits(a[i]);
      ByteOfBits(b[i]);
    }
  }

  /** Damage within 8 consecutive bytes changes the checksum. */
  lemma SumDiffers(p: bytes, a: bytes, b: bytes, q: bytes)
    requires |a| == |b| <= 8 && a != b
    ensures Sum(p + a + q) != Sum(p + b + q)
  {
    BitsConcat(p + a, q);
    BitsConcat(p, a);
    BitsConcat(p + b, q);
    BitsConcat(p, b);
    if Bits(a) == Bits(b) { BitsDiffer(a, b); }
    hide Serial, Bits;
    BurstDetected(Reg(0), Bits(p), Bits(a), Bits(b), Bits(q));
  }

  /** From `pos` on the stream holds exactly `s`. */
  ghost predicate At(data: bytes, pos: nat, s: bytes) { pos <= |data| && data[pos..] == s }

  lemma AtCut(data: bytes, pos: nat, a: bytes, more: bytes)
    requires At(data, pos, a + more)
    ensures pos + |a| <= |data| && data[pos..pos + |a|] == a && At(data, pos + |a|, more)
  {
    var rest := data[pos..];
    assert rest[..|a|] == a && rest[|a|..] == more;
    assert data[pos..pos + |a|] == rest[..|a|] && data[pos + |a|..] == rest[|a|..];
  }

  /** A stream that is read, or written. When it is written, `data` is all that was handed to
      rioWrite, and `file` what stdio took of it and, after a flush, what the disk got. */
  class Rio {
    var data: bytes
    var pos: nat
    const sums: bool
    var cksum: bv64
    /** What becomes of the i-th write: None, or how many bytes are taken before it fails. */
    const disk: nat -> Option<nat>
    var writes: nat
    var file: bytes
    /** When it is read: what the file was before it lost `cut` bytes at its end. */
    ghost var full: bytes
    ghost var cut: nat
    /** How many bytes were lost; how many of them in writes whose failure was not reported. */
    ghost var lost: nat
    ghost var quiet: nat

    /** The checksum is that of the bytes before the position, however they were grouped. */
    ghost predicate Valid()
      reads this
    {
      pos <= |data| && data <= full && |full| == |data| + cut && (sums ==> Reg(cksum) == Sum(data[..pos])) && (!sums ==> cksum == 0)
    }

    /** The file is what was written, if and only if every write succeeded. */
    ghost predicate Kept()
      reads this
    {
      && |file| + lost == |data| && (lost == 0 ==> file == data)
      && (lost == 0 <==> forall i :: 0 <= i < writes ==> disk(i) == None)
    }

    constructor (data: bytes, sums: bool, disk: nat -> Option<nat>, ghost full: bytes)
      requires data <= full
      ensures this.full == full && cut == |full| - |data|
      ensures Valid() && this.data == data && pos == 0 && this.sums == sums && this.disk == disk
      ensures Kept() && writes == 0 && lost == 0 && quiet == 0
    {
      this.data, pos, this.sums, cksum := data, 0, sums, 0;
      this.full, cut := full, |full| - |data|;
      this.disk, writes, file, lost, quiet := disk, 0, data, 0, 0;
      new;
      assert data[..0] == [] && Bits([]) == [];
    }

    /** rioFileWrite, which is fwrite: stdio takes all of the bytes, or not all of them. */
    method WriteFile(buf: bytes) returns (ok: bool, ghost missing: nat)
      requires buf != []
      modifies `writes, `file
      ensures writes == old(writes) + 1 && (ok <==> disk(old(writes)) == None)
      ensures |file| + missing == |old(file)| + |buf| && (ok ==> file == old(file) + buf) && (missing == 0 <==> ok)
    {
      var w := disk(writes);
      writes := writes + 1;
      ok := w == None;
      if ok {
        file, missing := file + buf, 0;
      } else {
        var n := if w.value < |buf| then w.value else |buf| - 1;
        file, missing := file + buf[..n], |buf| - n;
      }
    }

    /** rioWrite, at the end of the stream: the checksum is updated before anything is written. */
    method Write(buf: bytes) returns (ok: bool)
      requires Valid() && Kept() && pos == |data| && buf != []
      modifies this
      ensures Valid() && Kept() && data == old(data) + buf && pos == |data| && quiet == old(quiet)
      ensures writes == old(writes) + 1 && (ok <==> disk(old(writes)) == None)
      ensures if ok then lost == old(lost) else lost > old(lost)
    {
      Sums(buf);
      ghost var missing;
      ok, missing := WriteFile(buf);
      lost := lost + missing;
    }

    /** fflush, fsync and fclose, whose results nobody looks at: all that stdio took reaches the
        disk, or a part of it is lost, at the end of the file. */
    method Flush(outcome: Option<nat>)
      requires data != [] && |file| <= |data|
      modifies `file
      ensures file <= old(file) && if outcome == None then file == old(file) else |file| < |data|
    {
      if outcome.Some? {
        file := if outcome.value < |file| then file[..outcome.value] else if file == [] then [] else file[..|file| - 1];
      }
    }

    /** A failure that the caller does not see. */
    ghost method Overlook()
      requires Valid() && Kept()
      modifies `quiet
      ensures Valid() && Kept() && quiet == lost
    {
      quiet := lost;
    }

    method Sums(buf: bytes)
      requires Valid() && pos == |data|
      modifies `cksum, `data, `pos, `full, `cut
      ensures Valid() && data == old(data) + buf && pos == |data|
    {
      assert data[..pos] == data;
      if sums {
        SumConcat(data, buf);
        cksum := Crc64.Crc64(cksum, Bits(buf));
      }
      data := data + buf;
      full, cut := data, 0;
      pos := pos + |buf|;
      assert data[..pos] == data;
      hide Sum, Serial, Bits;
    }

    /** rioRead: all of the `n` bytes, or nothing. */
    method Read(n: nat, ghost a: bytes, ghost more: bytes) returns (ok: bool, buf: bytes)
      requires Valid()
      modifies `pos, `cksum
      ensures Valid() && (ok <==> 0 < n <= |data| - old(pos))
      ensures if ok then pos == old(pos) + n && buf == data[old(pos)..pos] else pos == old(pos)
      ensures At(full, old(pos), a + more) && |a| == n && n > 0 ==>
        (cut <= |more| ==> ok) && (ok ==> buf == a && At(full, pos, more))
    {
      ok, buf := 0 < n <= |data| - pos, [];
      if At(full, pos, a + more) && |a| == n { AtCut(full, pos, a, more); }
      if ok {
        buf := data[pos..pos + n];
        Advance(buf);
      }
    }

    method Advance(buf: bytes)
      requires Valid() && pos + |buf| <= |data| && buf == data[pos..pos + |buf|]
      modifies `pos, `cksum
      ensures Valid() && pos == old(pos) + |buf|
    {
      assert data[..pos + |buf|] == data[..pos] + buf;
      if sums {
        SumConcat(data[..pos], buf);
        cksum := Crc64.Crc64(cksum, Bits(buf));
      }
      pos := pos + |buf|;
      hide Sum, Serial, Bits;
    }
  }

  // ---- the checksum as it is stored

  function ToBv(b: byte): bv8 { b as bv8 }

  function FromBv(v: bv8): byte { v as int }

  function Low8(c: bv64): bv8 { (c & 0xff) as bv8 }

  function Widen(v: bv8): bv64 { v as bv64 }

  function Low(c: bv64): byte { FromBv(Low8(c)) }

  /** The 8 bytes of the checksum, the lowest first. */
  function PutSum(c: bv64): (s: bytes)
    ensures |s| == 8
  {
    [Low(c), Low(c >> 8), Low(c >> 16), Low(c >> 24), Low(c >> 32), Low(c >> 40), Low(c >> 48), Low(c >> 56)]
  }

  function Wide(b: byte): bv64 { Widen(ToBv(b)) }

  function GetSum(s: bytes): bv64
    requires |s| == 8
  {
    Wide(s[0]) | (Wide(s[1]) << 8) | (Wide(s[2]) << 16) | (Wide(s[3]) << 24)
    | (Wide(s[4]) << 32) | (Wide(s[5]) << 40) | (Wide(s[6]) << 48) | (Wide(s[7]) << 56)
  }

  lemma ToFrom(v: bv8)
    ensures ToBv(FromBv(v)) == v
  {}

  lemma WidenLow(c: bv64)
    ensures Widen(Low8(c)) == c & 0xff
  {}

  lemma WideLow(c: bv64)
    ensures Wide(Low(c)) == c & 0xff
  {
    hide Widen, ToBv, FromBv, Low8;
    ToFrom(Low8(c));
    WidenLow(c);
  }

  lemma Assembled(c: bv64)
    ensures (c & 0xff) | (((c >> 8) & 0xff) << 8) | (((c >> 16) & 0xff) << 16) | (((c >> 24) & 0xff) << 24)
      | (((c >> 32) & 0xff) << 32) | (((c >> 40) & 0xff) << 40) | (((c >> 48) & 0xff) << 48) | (((c >> 56) & 0xff) << 56) == c
  {}

  lemma GetPutSum(c: bv64)
    ensures GetSum(PutSum(c)) == c
  {
    hide Wide, Low;
    WideLow(c);
    WideLow(c >> 8);
    WideLow(c >> 16);
    WideLow(c >> 24);
    WideLow(c >> 32);
    WideLow(c >> 40);
    WideLow(c >> 48);
    WideLow(c >> 56);
    Assembled(c);
  }
}
