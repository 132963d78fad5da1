/** rdb.c: lengths, integers and strings of a dump file. */
module RdbStrings {
  import opened Arithmetic
  import opened Sequences
  import opened Wrappers
  import opened Bytes
  import opened Decimal
  import opened LittleEndian
  import opened LzfFormat
  import LzfC
  import LzfD
  import opened RioStream
  import Resp

  const REDIS_RDB_LENERR := 0xFFFF_FFFF
  const ENCVAL := 192
  const ENC_INT8 := 0
  const ENC_INT16 := 1
  const ENC_INT32 := 2
  const ENC_LZF := 3

  // ---- lengths

  /** 6, 14 or 32 bits. */
  function LenCode(n: nat): (c: bytes)
    requires n < TWO32
    ensures c != []
  {
    if n < 64 then [n]
    else if n < 16384 then [64 + n / 256, n % 256]
    else [128, n / 0x100_0000, n / 0x1_0000 % 256, n / 256 % 256, n % 256]
  }

  ghost predicate Ready(rio: Rio)
    reads rio
  {
    rio.Valid() && rio.Kept() && rio.pos == |rio.data| && rio.lost == rio.quiet
  }

  /** A write failed, and the caller knows. */
  ghost predicate Failed(rio: Rio)
    reads rio
  {
    rio.Kept() && rio.lost > rio.quiet
  }

  /** rdbWriteRaw */
  method WriteRaw(rio: Rio, buf: bytes) returns (ok: bool)
    requires Ready(rio) && buf != []
    modifies rio
    ensures if ok then Ready(rio) && rio.data == old(rio.data) + buf else Failed(rio)
    ensures rio.writes == old(rio.writes) + 1 && (ok <==> rio.disk(old(rio.writes)) == None) && (ok ==> rio.lost == old(rio.lost))
  {
    hide Rio.Valid, Rio.Kept;
    ok := rio.Write(buf);
  }

  /** The four bytes of a long length: rdb.c:102 takes -1 for no error. */
  method WriteUnseen(rio: Rio, buf: bytes)
    requires Ready(rio) && buf != []
    modifies rio
    ensures Ready(rio) && rio.data == old(rio.data) + buf
    ensures rio.writes == old(rio.writes) + 1 && (rio.lost == old(rio.lost) <==> rio.disk(old(rio.writes)) == None)
  {
    hide Rio.Valid, Rio.Kept;
    var ok := rio.Write(buf);
    rio.Overlook();
  }

  /** rdbSaveLen: the number of bytes of the length, or -1. Only the first write counts: the
      length is whole if the second, of a long length, succeeded too. */
  method SaveLen(rio: Rio, len: nat) returns (n: int)
    requires Ready(rio) && len < TWO32
    modifies rio
    ensures n == if rio.disk(old(rio.writes)) == None then |LenCode(len)| else -1
    ensures if n == -1 then Failed(rio) else Ready(rio) && rio.data == old(rio.data) + LenCode(len)
    ensures n != -1 ==>
      (rio.lost == old(rio.lost) <==> len < 16384 || rio.disk(old(rio.writes) + 1) == None)
  {
    hide Rio.Valid, Rio.Kept;
    if len < 64 {
      var ok := WriteRaw(rio, [len]);
      n := if ok then 1 else -1;
    } else if len < 16384 {
      var ok := WriteRaw(rio, [64 + len / 256, len % 256]);
      n := if ok then 2 else -1;
    } else {
      var network: bytes := [len / 0x100_0000, len / 0x1_0000 % 256, len / 256 % 256, len % 256];
      Assoc(rio.data, [128], network);
      var ok := WriteRaw(rio, [128]);
      if !ok { return -1; }
      WriteUnseen(rio, network);
      n := 1 + 4;
    }
  }

  /** What starts a string: a length, or the type of a special encoding. */
  datatype Head = Length(n: nat) | Encoding(t: nat)

  ghost predicate Proper(h: Head) { match h case Length(n) => n < TWO32 case Encoding(t) => t < 64 }

  function HeadCode(h: Head): (c: bytes)
    requires Proper(h)
    ensures c != []
  {
    match h case Length(n) => LenCode(n) case Encoding(t) => [ENCVAL + t]
  }

  ghost predicate HeadRead(h: Head, len: nat, encoded: bool) {
    match h case Length(n) => len == n && !encoded case Encoding(t) => len == t && encoded
  }

  /** The first byte tells how many follow, and with them the value. */
  lemma HeadBytes(h: Head)
    requires Proper(h)
    ensures var c := HeadCode(h);
      var kind, low := c[0] / 64, c[0] as nat % 64;
      && |c| == (if kind == 1 then 2 else if kind == 2 then 5 else 1)
      && HeadRead(h, if kind == 1 then low * 256 + c[1] as nat else if kind == 2 then FromBE(c[1..]) else low, kind == 3)
  {
    if h.Length? && h.n >= 16384 {
      var n := h.n;
      var c := LenCode(n);
      assert c[1..] == [n / 0x100_0000, n / 0x1_0000 % 256, n / 256 % 256, n % 256];
      NetworkOrder(n);
    }
  }

  /** ntohl */
  function FromBE(s: bytes): nat
    requires |s| == 4
  {
    s[0] as nat * 0x100_0000 + s[1] as nat * 0x1_0000 + s[2] as nat * 256 + s[3] as nat
  }

  lemma NetworkOrder(n: nat)
    requires n < TWO32
    ensures n / 0x100_0000 * 0x100_0000 + n / 0x1_0000 % 256 * 0x1_0000 + n / 256 % 256 * 256 + n % 256 == n
  {
    assert n / 0x1_0000 / 256 == n / 0x100_0000 && n / 256 / 256 == n / 0x1_0000;
  }

  lemma HeadSplit(data: bytes, pos: nat, h: Head, more: bytes)
    requires Proper(h)
    ensures At(data, pos, HeadCode(h) + more) ==> At(data, pos, [HeadCode(h)[0]] + (HeadCode(h)[1..] + more))
  {
    var c := HeadCode(h);
    assert c == [c[0]] + c[1..];
    Assoc([c[0]], c[1..], more);
  }

  /** rdbLoadLen: a length, or an encoding type. */
  method LoadLen(rio: Rio, ghost h: Head, ghost more: bytes) returns (len: nat, encoded: bool)
    requires rio.Valid() && Proper(h)
    modifies rio`pos, rio`cksum
    ensures rio.Valid() && rio.pos >= old(rio.pos) && (len == REDIS_RDB_LENERR ==> !encoded)
    ensures At(rio.full, old(rio.pos), HeadCode(h) + more) ==>
      && (rio.cut <= |more| ==> HeadRead(h, len, encoded) && At(rio.full, rio.pos, more))
      && (len != REDIS_RDB_LENERR ==> HeadRead(h, len, encoded) && At(rio.full, rio.pos, more))
  {
    ghost var c := HeadCode(h);
    ghost var wf := At(rio.full, rio.pos, c + more);
    HeadBytes(h);
    HeadSplit(rio.full, rio.pos, h, more);
    NoMore(more);
    hide *;
    len, encoded := REDIS_RDB_LENERR, false;
    var ok, b := rio.Read(1, [c[0]], c[1..] + more);
    if !ok { return; }
    var kind, low: nat := b[0] / 64, b[0] as nat % 64;
    if kind == 3 {
      len, encoded := low, true;
    } else if kind == 0 {
      len := low;
    } else if kind == 1 {
      ok, b := rio.Read(1, c[1..], more);
      if ok { len := low * 256 + b[0] as nat; }
    } else {
      ok, b := rio.Read(4, c[1..], more);
      if ok { len := FromBE(b); }
    }
  }

  lemma NoMore(more: bytes)
    ensures [] + more == more
  {}

  // ---- integers

  predicate In32(v: int) { -0x8000_0000 <= v <= 0x7FFF_FFFF }

  /** The width that rdbEncodeInteger chooses, and the type it announces. */
  function Width(v: int): (w: nat)
    requires In32(v)
    ensures w == 1 || w == 2 || w == 4
  {
    if -0x80 <= v <= 0x7F then 1 else if -0x8000 <= v <= 0x7FFF then 2 else 4
  }

  function TypeOf(w: nat): nat { if w == 1 then ENC_INT8 else if w == 2 then ENC_INT16 else ENC_INT32 }

  function IntCode(v: int): (c: bytes)
    requires In32(v)
    ensures c != []
  {
    HeadCode(Encoding(TypeOf(Width(v)))) + EncodeInt(v, Width(v))
  }

  lemma Powers()
    ensures Pow256(0) == 1 && Pow256(1) == 256 && Pow256(2) == 0x1_0000 && Pow256(3) == 0x100_0000 && Pow256(4) == 0x1_0000_0000
    ensures LittleEndian.Half(1) == 0x80 && LittleEndian.Half(2) == 0x8000 && LittleEndian.Half(4) == 0x8000_0000
  {}

  lemma WidthFits(v: int)
    requires In32(v)
    ensures Fits(v, Width(v))
  {
    Powers();
  }

  /** Shifting a two's complement value to the right and masking gives its bytes. */
  lemma {:induction false} ShiftedBytes(v: int, n: nat)
    requires n > 0
    ensures EncodeInt(v, n) == [v % 256] + EncodeInt(v / 256, n - 1)
  {
    var p := Pow256(n - 1);
    ModSplit(v, p);
    assert ToLE(v % (256 * p), n) == [v % (256 * p) % 256] + ToLE(v % (256 * p) / 256, n - 1);
  }

  lemma ModSplit(v: int, p: nat)
    requires p > 0
    ensures v % (256 * p) % 256 == v % 256 && v % (256 * p) / 256 == v / 256 % p
  {
    var q, r := v / 256, v % 256;
    var a, b := q / p, q % p;
    assert v == 256 * q + r && q == p * a + b;
    assert v == (256 * p) * a + (256 * b + r) by {
      assert 256 * (p * a) == (256 * p) * a;
    }
    assert 0 <= 256 * b + r < 256 * p;
    ModUnique(v, 256 * p, a, 256 * b + r);
  }

  lemma FourBytes(v: int)
    ensures EncodeInt(v, 1) == [v % 256]
    ensures EncodeInt(v, 2) == [v % 256, v / 256 % 256]
    ensures EncodeInt(v, 4) == [v % 256, v / 256 % 256, v / 0x1_0000 % 256, v / 0x100_0000 % 256]
  {
    var v1 := v / 256;
    var v2 := v1 / 256;
    var v3 := v2 / 256;
    assert v2 == v / 0x1_0000 && v3 == v / 0x100_0000;
    ShiftedBytes(v, 1);
    ShiftedBytes(v, 2);
    ShiftedBytes(v1, 1);
    ShiftedBytes(v, 4);
    ShiftedBytes(v1, 3);
    ShiftedBytes(v2, 2);
    ShiftedBytes(v3, 1);
    hide EncodeInt;
    NoneLeft(v1);
    NoneLeft(v2);
    NoneLeft(v3 / 256);
  }

  lemma NoneLeft(v: int)
    ensures EncodeInt(v, 0) == []
  {}

  /** rdbEncodeInteger: empty when the value does not fit 32 bits. */
  method EncodeInteger(value: int) returns (enc: bytes)
    ensures enc == if In32(value) then IntCode(value) else []
  {
    FourBytes(value);
    hide EncodeInt;
    if -0x80 <= value <= 0x7F {
      enc := [ENCVAL + ENC_INT8, value % 256];
    } else if -0x8000 <= value <= 0x7FFF {
      enc := [ENCVAL + ENC_INT16, value % 256, value / 256 % 256];
    } else if In32(value) {
      enc := [ENCVAL + ENC_INT32, value % 256, value / 256 % 256, value / 0x1_0000 % 256, value / 0x100_0000 % 256];
    } else {
      enc := [];
    }
  }

  /** The casts to signed types, on what was read. */
  method Signed(enc: bytes) returns (val: int)
    requires |enc| == 1 || |enc| == 2 || |enc| == 4
    ensures val == DecodeInt(enc)
  {
    Powers();
    FromBytes(enc);
    hide FromLE, LittleEndian.Half, Pow256;
    if |enc| == 1 {
      val := if enc[0] >= 0x80 then enc[0] as int - 0x100 else enc[0];
    } else if |enc| == 2 {
      var v: int := enc[0] as int + enc[1] as int * 256;
      val := if v >= 0x8000 then v - 0x1_0000 else v;
    } else {
      var v: int := enc[0] as int + enc[1] as int * 256 + enc[2] as int * 0x1_0000 + enc[3] as int * 0x100_0000;
      val := if v >= 0x8000_0000 then v - 0x1_0000_0000 else v;
    }
  }

  lemma FromBytes(s: bytes)
    requires |s| == 1 || |s| == 2 || |s| == 4
    ensures FromLE(s) == s[0] as int + (if |s| >= 2 then s[1] as int * 256 else 0)
      + (if |s| == 4 then s[2] as int * 0x1_0000 + s[3] as int * 0x100_0000 else 0)
  {
    var s1 := s[1..];
    if |s| == 1 {
      assert FromLE(s1) == 0;
    } else if |s| == 2 {
      assert s1[1..] == [] && FromLE(s1) == s1[0] as int + 256 * FromLE(s1[1..]);
    } else {
      var s2 := s1[1..];
      var s3 := s2[1..];
      assert s3[1..] == [] && FromLE(s3) == s3[0] as int + 256 * FromLE(s3[1..]);
      assert FromLE(s2) == s2[0] as int + 256 * FromLE(s3);
      assert FromLE(s1) == s1[0] as int + 256 * FromLE(s2);
    }
  }

  predicate IsSpace(b: byte) { b == 32 || 9 <= b <= 13 }

  function Clamp(v: int): int { if v > LLONG_MAX then LLONG_MAX else if v < LLONG_MIN then LLONG_MIN else v }

  /** White space up to `a`, perhaps a sign up to `b`, all digits up to `c`: their value, kept
      within 64 bits, and where it ends, which is the start when there is no digit. */
  ghost predicate Scanned(s: bytes, a: nat, b: nat, c: nat, value: int, end: nat) {
    && a <= b <= c <= |s| && (forall k :: 0 <= k < a ==> IsSpace(s[k])) && (a < |s| ==> !IsSpace(s[a]))
    && b == (if a < |s| && (s[a] == MINUS || s[a] == 43) then a + 1 else a)
    && AllDigits(s[b..c]) && (c < |s| ==> !IsDigit(s[c])) && end == (if c == b then 0 else c)
    && var u: int := Decimal.Value(s[b..c]); value == Clamp(if a < |s| && s[a] == MINUS then -u else u)
  }

  /** strtoll, base 10, on any string. */
  method Strtoll(s: bytes) returns (value: int, end: nat)
    ensures exists a, b, c :: Scanned(s, a, b, c, value, end)
    ensures InLL(value) && end <= |s|
    ensures forall v :: InLL(v) && s == Print(v) ==> value == v && end == |s|
    ensures s != [] && AllDigits(s) && Decimal.Value(s) <= LLONG_MAX ==> value == Decimal.Value(s)
  {
    var i := 0;
    while i < |s| && IsSpace(s[i])
      invariant 0 <= i <= |s| && forall k :: 0 <= k < i ==> IsSpace(s[k])
    {
      i := i + 1;
    }
    ghost var a := i;
    var negative := i < |s| && s[i] == MINUS;
    if i < |s| && (s[i] == MINUS || s[i] == 43) { i := i + 1; }
    var start := i;
    var u: nat := 0;
    assert s[start..i] == [];
    while i < |s| && IsDigit(s[i])
      invariant start <= i <= |s| && AllDigits(s[start..i]) && u == Decimal.Value(s[start..i])
    {
      DigitNext(s, start, i);
      hide Decimal.Value, AllDigits;
      u := u * 10 + (s[i] - ZERO);
      i := i + 1;
    }
    var signed: int := if negative then -(u as int) else u;
    end := if i == start then 0 else i;
    value := Clamp(signed);
    assert Scanned(s, a, start, i, value, end);
    if s != [] && AllDigits(s) {
      assert IsDigit(s[0]) && i == |s| && s[start..i] == s;
    }
    forall v | InLL(v) && s == Print(v) ensures value == v && end == |s| {
      Converted(s, v, negative, start, i, u);
    }
  }

  /** A printed number is read to its end, and back. */
  lemma Converted(s: bytes, v: int, negative: bool, start: nat, i: nat, u: nat)
    requires InLL(v) && s == Print(v) && start <= i <= |s| && AllDigits(s[start..i]) && u == Decimal.Value(s[start..i])
    requires i < |s| ==> !IsDigit(s[i])
    requires start == 0 || start == 1 || IsSpace(s[0])
    requires IsSpace(s[0]) || (negative == (s[0] == MINUS) && start == if s[0] == MINUS || s[0] == 43 then 1 else 0)
    ensures i == |s| && start < i && v == if negative then -(u as int) else u
  {
    PrintShape(v);
    ValueOfDigits(if v < 0 then -v else v);
    assert !IsSpace(s[0]);
    assert start == Decimal.Start(s);
    assert forall k :: start <= k < |s| ==> s[k] == s[start..][k - start];
    assert s[start..] == s[start..|s|];
  }

  /** rdbTryIntegerEncoding: only what the number prints as again. */
  method TryIntegerEncoding(s: bytes) returns (enc: bytes)
    ensures forall v :: In32(v) && s == Print(v) ==> enc == IntCode(v)
    ensures enc != [] ==> IsInteger(enc, s)
  {
    var value, end := Strtoll(s);
    enc := [];
    hide Print, IntCode;
    if end < |s| && s[end] != 0 { return; }
    var buf := Ll2string(value);
    if |buf| != |s| || buf != s { return; }
    enc := EncodeInteger(value);
    forall v | In32(v) && s == Print(v) ensures enc == IntCode(v) {
      PrintInjective(v, value);
    }
  }

  // ---- strings

  /** One of the three forms of a string: an integer, compressed, or verbatim. */
  ghost predicate IsString(c: bytes, s: bytes) {
    |s| < REDIS_RDB_LENERR && (IsInteger(c, s) || IsCompressed(c, s) || c == LenCode(|s|) + s)
  }

  ghost predicate IsInteger(c: bytes, s: bytes) { exists v :: In32(v) && s == Print(v) && c == IntCode(v) }

  ghost predicate IsCompressed(c: bytes, s: bytes) { exists z :: Compressed(c, s, z) }

  ghost predicate Compressed(c: bytes, s: bytes, z: bytes) {
    && 0 < |z| < REDIS_RDB_LENERR && 0 < |s| < REDIS_RDB_LENERR && Decode(z, [], |s|) == Decoded(s)
    && c == HeadCode(Encoding(ENC_LZF)) + (LenCode(|z|) + (LenCode(|s|) + z))
  }

  /** What lzf_compress finds in memory: a table of any contents, an address for its
      input, and some hash function. */
  datatype Memory = Memory(htab: array<u64>, basis: int, idx: u32 -> int)

  ghost predicate Usable(m: Memory, n: nat) {
    && m.htab.Length == LzfC.HSIZE && (forall h :: 0 <= m.idx(h) < LzfC.HSIZE)
    && LzfC.MAX_OFF <= m.basis && m.basis + n <= TWO64
  }

  /** The compressed form of `s`, when it is at least 4 bytes shorter. */
  method CompressString(s: bytes, m: Memory) returns (z: bytes)
    requires Usable(m, |s|) && |s| > 4
    modifies m.htab
    ensures |z| <= |s| - 4 && (z != [] ==> Decode(z, [], |s|) == Decoded(s))
    ensures LzfC.AllSame(s) && LzfC.SameSize(|s|) + 8 <= |s| ==> |z| == LzfC.SameSize(|s|)
    ensures LzfC.AllDistinct(s) ==> z == []
  {
    var input := new byte[|s|](i requires 0 <= i < |s| => s[i]);
    var outlen := |s| - 4;
    var out := new byte[outlen + 1];
    assert input[..|s|] == s;
    hide Decode, LzfC.AllSame, LzfC.AllDistinct, LzfC.SameSize;
    var k := LzfC.Compress(input, |s|, out, outlen, m.htab, m.basis, m.idx);
    z := out[..k];
  }

  method DecompressString(z: bytes, len: nat, ghost s: bytes) returns (ok: bool, val: bytes)
    requires z != []
    ensures |s| == len && len > 0 && Decode(z, [], len) == Decoded(s) ==> ok && val == s
  {
    var c := new byte[|z|](i requires 0 <= i < |z| => z[i]);
    var out := new byte[len];
    assert c[..|z|] == z;
    hide Decode;
    var r, errno := LzfD.Decompress(c, |z|, out, len);
    ok := r != 0;
    val := out[..];
    assert out[..len] == out[..];
  }

  /** rdbSaveLzfStringObject: false when compression saves less than 4 bytes. */
  method SaveLzfString(rio: Rio, s: bytes, m: Memory) returns (ok: bool, saved: bool, ghost code: bytes)
    requires Ready(rio) && Usable(m, |s|) && |s| < REDIS_RDB_LENERR
    modifies rio, m.htab
    ensures if ok then Ready(rio) && rio.data == old(rio.data) + code else Failed(rio)
    ensures if saved then IsString(code, s) && IsSmaller(code, s) else code == []
    ensures ok && |s| > 4 ==> Saving(code, s, saved)
  {
    ok, saved, code := true, false, [];
    ghost var data := rio.data;
    assert data + [] == data;
    if |s| <= 4 { return; }
    var out := CompressString(s, m);
    SavingIs(s, out);
    if |out| == 0 { return; }
    assert Compressed(HeadCode(Encoding(ENC_LZF)) + (LenCode(|out|) + (LenCode(|s|) + out)), s, out);
    assert HeadCode(Encoding(ENC_LZF)) == [ENCVAL + ENC_LZF];
    hide *;
    ok := WriteRaw(rio, [ENCVAL + ENC_LZF]);
    if !ok { return; }
    var n := SaveLen(rio, |out|);
    if n == -1 { return false, false, []; }
    n := SaveLen(rio, |s|);
    if n == -1 { return false, false, []; }
    ok := WriteRaw(rio, out);
    if !ok { return; }
    FourParts(data, [ENCVAL + ENC_LZF], LenCode(|out|), LenCode(|s|), out);
    saved, code := true, [ENCVAL + ENC_LZF] + (LenCode(|out|) + (LenCode(|s|) + out));
    StringForms(code, s, out, 0);
    SmallerIs(code, s, out);
  }

  /** A compressed form that saves at least four bytes. */
  ghost predicate IsSmaller(c: bytes, s: bytes) { exists z :: Compressed(c, s, z) && |z| + 4 <= |s| }

  ghost predicate IsOfSize(c: bytes, s: bytes, n: nat) { exists z :: Compressed(c, s, z) && |z| == n }

  /** Equal octets are compressed if that saves eight bytes, and octets that all differ never. */
  ghost predicate Saving(c: bytes, s: bytes, saved: bool) {
    && (LzfC.AllSame(s) && LzfC.SameSize(|s|) + 8 <= |s| ==> saved && IsOfSize(c, s, LzfC.SameSize(|s|)))
    && (LzfC.AllDistinct(s) ==> !saved)
  }

  lemma SavingIs(s: bytes, z: bytes)
    requires LzfC.AllSame(s) && LzfC.SameSize(|s|) + 8 <= |s| ==> |z| == LzfC.SameSize(|s|)
    requires LzfC.AllDistinct(s) ==> z == []
    ensures |s| > 4 && z == [] ==> Saving([], s, false)
    ensures forall c :: z != [] && Compressed(c, s, z) ==> Saving(c, s, true)
  {
    if |s| > 4 { LzfC.SameSizeLeast(|s|); }
    hide Compressed, LzfC.SameSize, LzfC.AllSame, LzfC.AllDistinct;
  }

  lemma SmallerIs(c: bytes, s: bytes, z: bytes)
    requires Compressed(c, s, z) && |z| + 4 <= |s|
    ensures IsSmaller(c, s)
  {
    hide Compressed;
  }

  /** The form that is written: an integer whenever the string is the print of one; else
      verbatim, unless compression is on and the string is longer than 20, compressing it if
      that saves four bytes. More than 20 equal octets are always compressed. */
  ghost predicate AsChosen(c: bytes, s: bytes, compression: bool)
    requires |s| < REDIS_RDB_LENERR
  {
    if PrintsInt(s) then IsInteger(c, s)
    else if !compression || |s| <= 20 || LzfC.AllDistinct(s) then c == LenCode(|s|) + s
    else if LzfC.AllSame(s) then IsOfSize(c, s, LzfC.SameSize(|s|))
    else IsSmaller(c, s) || c == LenCode(|s|) + s
  }

  ghost predicate PrintsInt(s: bytes) { exists v :: In32(v) && s == Print(v) }

  /** The integer form is tried for every string that is the print of a 32-bit number. */
  lemma ShortInt(s: bytes)
    ensures PrintsInt(s) ==> |s| <= 11
  {
    if PrintsInt(s) {
      var v :| In32(v) && s == Print(v);
      PrintWithin(v);
    }
  }

  lemma IntChosen(enc: bytes, s: bytes, compression: bool)
    requires forall v :: In32(v) && s == Print(v) ==> enc == IntCode(v)
    requires enc != [] ==> IsInteger(enc, s)
    requires |s| < REDIS_RDB_LENERR
    ensures PrintsInt(s) <==> enc != []
    ensures enc != [] ==> AsChosen(enc, s, compression)
  {
    if PrintsInt(s) {
      var v :| In32(v) && s == Print(v);
      assert IntCode(v) != [];
    }
    hide Print, IntCode;
  }

  lemma LongChosen(c: bytes, s: bytes, saved: bool)
    requires 20 < |s| < REDIS_RDB_LENERR && !PrintsInt(s) && Saving(c, s, saved)
    ensures saved && IsSmaller(c, s) ==> AsChosen(c, s, true)
    ensures !saved ==> AsChosen(LenCode(|s|) + s, s, true)
  {
    LzfC.SameSizeSmall(|s|);
    hide Compressed, LzfC.SameSize, LzfC.AllSame, LzfC.AllDistinct, PrintsInt, LenCode;
  }

  lemma VerbatimChosen(s: bytes, compression: bool)
    requires |s| < REDIS_RDB_LENERR && !PrintsInt(s) && (!compression || |s| <= 20)
    ensures AsChosen(LenCode(|s|) + s, s, compression)
  {
    hide PrintsInt, LenCode;
  }

  lemma FourParts(d: bytes, a: bytes, b: bytes, c: bytes, e: bytes)
    ensures d + a + b + c + e == d + (a + (b + (c + e)))
  {
    Assoc(d + a + b, c, e);
    Assoc(d + a, b, c + e);
    Assoc(d, a, b + (c + e));
  }

  lemma StringForms(c: bytes, s: bytes, z: bytes, v: int)
    requires |s| < REDIS_RDB_LENERR
    ensures Compressed(c, s, z) ==> IsString(c, s)
    ensures In32(v) && s == Print(v) && c == IntCode(v) ==> IsString(c, s)
    ensures c == LenCode(|s|) + s ==> IsString(c, s)
  {
    hide Compressed, In32, Print, IntCode, LenCode;
  }

  lemma IntegerForm(enc: bytes, s: bytes)
    requires |s| < REDIS_RDB_LENERR && enc != [] && IsInteger(enc, s)
    ensures IsString(enc, s)
  {
    hide IsInteger;
  }

  /** rdbSaveRawString */
  method SaveRawString(rio: Rio, s: bytes, compression: bool, m: Memory) returns (ok: bool, ghost code: bytes)
    requires Ready(rio) && Usable(m, |s|) && |s| < REDIS_RDB_LENERR
    modifies rio, m.htab
    ensures if ok then Ready(rio) && rio.data == old(rio.data) + code && IsString(code, s) else Failed(rio)
    ensures ok ==> AsChosen(code, s, compression)
  {
    hide *;
    code := [];
    ShortInt(s);
    if |s| <= 11 {
      var enc := TryIntegerEncoding(s);
      IntChosen(enc, s, compression);
      if |enc| > 0 {
        IntegerForm(enc, s);
        ok := WriteRaw(rio, enc);
        code := enc;
        return;
      }
    }
    if compression && |s| > 20 {
      var saved;
      ok, saved, code := SaveLzfString(rio, s, m);
      if ok { LongChosen(code, s, saved); }
      if !ok || saved { return; }
      NoMore(rio.data);
    } else {
      VerbatimChosen(s, compression);
    }
    ok, code := SaveVerbatim(rio, s);
  }

  method SaveVerbatim(rio: Rio, s: bytes) returns (ok: bool, ghost code: bytes)
    requires Ready(rio) && |s| < REDIS_RDB_LENERR
    modifies rio
    ensures if ok then Ready(rio) && rio.data == old(rio.data) + code && IsString(code, s) else Failed(rio)
    ensures code == LenCode(|s|) + s
  {
    assert |s| < TWO32;
    hide *;
    code := LenCode(|s|) + s;
    StringForms(code, s, [], 0);
    Assoc(rio.data, LenCode(|s|), s);
    var n := SaveLen(rio, |s|);
    ok := n != -1;
    if !ok { return; }
    if |s| > 0 {
      ok := WriteRaw(rio, s);
    } else {
      NothingAppended(rio.data, s);
    }
  }

  lemma NothingAppended(d: bytes, s: bytes)
    requires |s| == 0
    ensures d + s == d
  {}

  /** A string object: raw, or an integer in the place of its text. */
  datatype StringObject = Raw(s: bytes) | Integer(v: int)

  function Text(o: StringObject): bytes { match o case Raw(s) => s case Integer(v) => Print(v) }

  ghost predicate Storable(o: StringObject) { match o case Raw(s) => |s| < REDIS_RDB_LENERR case Integer(v) => InLL(v) }

  /** rdbSaveLongLongAsStringObject */
  method SaveLongLong(rio: Rio, value: int) returns (ok: bool, ghost code: bytes)
    requires Ready(rio) && InLL(value)
    modifies rio
    ensures if ok then Ready(rio) && rio.data == old(rio.data) + code && IsString(code, Print(value)) else Failed(rio)
    ensures ok ==> code == if In32(value) then IntCode(value) else LenCode(|Print(value)|) + Print(value)
  {
    PrintedSize(value);
    assert In32(value) ==> IntCode(value) != [];
    hide *;
    var enc := EncodeInteger(value);
    if |enc| > 0 {
      ok := WriteRaw(rio, enc);
      StringForms(enc, Print(value), [], value);
      code := enc;
      return;
    }
    var buf := Ll2string(value);
    ok, code := SaveVerbatim(rio, buf);
  }

  lemma PrintedSize(v: int)
    requires InLL(v)
    ensures |Print(v)| <= 20
  {
    Resp.PrintLL(v);
  }

  /** The two forms of an integer object are those of its print. */
  lemma NumberChosen(v: int, compression: bool)
    requires InLL(v)
    ensures |Print(v)| < REDIS_RDB_LENERR
    ensures AsChosen(if In32(v) then IntCode(v) else LenCode(|Print(v)|) + Print(v), Print(v), compression)
  {
    PrintedSize(v);
    if In32(v) {
      assert PrintsInt(Print(v));
    } else {
      if PrintsInt(Print(v)) {
        var w :| In32(w) && Print(v) == Print(w);
        PrintInjective(v, w);
      }
      VerbatimChosen(Print(v), compression);
    }
    hide Print, IntCode, LenCode;
  }

  /** rdbSaveStringObject */
  method SaveStringObject(rio: Rio, o: StringObject, compression: bool, m: Memory) returns (ok: bool, ghost code: bytes)
    requires Ready(rio) && Storable(o) && Usable(m, |Text(o)|)
    modifies rio, m.htab
    ensures if ok then Ready(rio) && rio.data == old(rio.data) + code && IsString(code, Text(o)) else Failed(rio)
    ensures ok ==> |Text(o)| < REDIS_RDB_LENERR && AsChosen(code, Text(o), compression)
  {
    match o
    case Integer(v) =>
      ok, code := SaveLongLong(rio, v);
      NumberChosen(v, compression);
    case Raw(s) => ok, code := SaveRawString(rio, s, compression, m);
  }

  // ---- loading

  /** What follows the head of a string. */
  ghost predicate IsBody(h: Head, body: bytes, s: bytes, v: int, z: bytes) {
    && Proper(h) && |s| < REDIS_RDB_LENERR
    && match h
       case Length(n) => n == |s| && body == s
       case Encoding(t) =>
         if t == ENC_LZF
         then 0 < |z| < REDIS_RDB_LENERR && |s| > 0 && body == LenCode(|z|) + (LenCode(|s|) + z) && Decode(z, [], |s|) == Decoded(s)
         else In32(v) && t == TypeOf(Width(v)) && body == EncodeInt(v, Width(v)) && s == Print(v)
  }

  lemma StringBody(c: bytes, s: bytes) returns (h: Head, body: bytes, v: int, z: bytes)
    ensures Proper(h) && (IsString(c, s) ==> c == HeadCode(h) + body && IsBody(h, body, s, v, z))
  {
    h, body, v, z := Length(0), [], 0, [];
    if IsString(c, s) {
      if IsInteger(c, s) {
        v :| In32(v) && s == Print(v) && c == IntCode(v);
        h, body := Encoding(TypeOf(Width(v))), EncodeInt(v, Width(v));
      } else if IsCompressed(c, s) {
        z :| Compressed(c, s, z);
        h, body := Encoding(ENC_LZF), LenCode(|z|) + (LenCode(|s|) + z);
      } else {
        h, body := Length(|s|), s;
      }
    }
    hide LenCode, EncodeInt, Print, Decode;
  }

  /** rdbLoadIntegerObject, for the types 0 to 2. */
  method LoadInteger(rio: Rio, enctype: nat, ghost v: int, ghost more: bytes) returns (ok: bool, val: bytes)
    requires rio.Valid() && enctype <= ENC_INT32
    modifies rio`pos, rio`cksum
    ensures rio.Valid() && rio.pos >= old(rio.pos)
    ensures In32(v) && enctype == TypeOf(Width(v)) && At(rio.full, old(rio.pos), EncodeInt(v, Width(v)) + more) ==>
      (rio.cut <= |more| ==> ok) && (ok ==> val == Print(v) && At(rio.full, rio.pos, more))
  {
    var w := if enctype == ENC_INT8 then 1 else if enctype == ENC_INT16 then 2 else 4;
    ghost var wf := In32(v) && enctype == TypeOf(Width(v));
    assert wf ==> w == Width(v);
    if wf {
      WidthFits(v);
      DecodeEncode(v, w);
    }
    hide *;
    var enc;
    ok, enc := rio.Read(w, EncodeInt(v, w), more);
    val := [];
    if !ok { return; }
    var n := Signed(enc);
    SignedFits(enc);
    val := Ll2string(n);
  }

  lemma SignedFits(enc: bytes)
    requires |enc| == 1 || |enc| == 2 || |enc| == 4
    ensures InLL(DecodeInt(enc))
  {
    DecodeFits(enc);
    Powers();
  }

  /** rdbLoadLzfStringObject */
  method LoadLzfString(rio: Rio, ghost s: bytes, ghost z: bytes, ghost more: bytes) returns (ok: bool, val: bytes)
    requires rio.Valid()
    modifies rio`pos, rio`cksum
    ensures rio.Valid() && rio.pos >= old(rio.pos)
    ensures 0 < |z| < REDIS_RDB_LENERR && 0 < |s| < REDIS_RDB_LENERR && Decode(z, [], |s|) == Decoded(s)
      && At(rio.full, old(rio.pos), LenCode(|z|) + (LenCode(|s|) + z) + more)
      ==> (rio.cut <= |more| ==> ok) && (ok ==> val == s && At(rio.full, rio.pos, more))
  {
    ghost var wf := 0 < |z| < REDIS_RDB_LENERR && 0 < |s| < REDIS_RDB_LENERR;
    ghost var zn, sn := if wf then |z| else 0, if wf then |s| else 0;
    ok, val := false, [];
    LzfParts(LenCode(zn), LenCode(sn), z, more);
    HeadOfLength(zn);
    HeadOfLength(sn);
    hide LenCode, HeadCode, Decode, At, Rio.Valid;
    var clen, len, e;
    clen, e := LoadLen(rio, Length(zn), LenCode(sn) + (z + more));
    if clen == REDIS_RDB_LENERR { return; }
    len, e := LoadLen(rio, Length(sn), z + more);
    if len == REDIS_RDB_LENERR { return; }
    var c;
    ok, c := rio.Read(clen, z, more);
    if !ok { return; }
    ok, val := DecompressString(c, len, s);
  }

  lemma HeadOfLength(n: nat)
    requires n < TWO32
    ensures HeadCode(Length(n)) == LenCode(n)
  {}

  lemma LzfParts(a: bytes, b: bytes, z: bytes, more: bytes)
    ensures a + (b + z) + more == a + (b + (z + more))
  {
    Assoc(a, b + z, more);
    Assoc(b, z, more);
  }

  /** rdbGenericLoadStringObject: whichever form was written, the string comes back. */
  method LoadString(rio: Rio, ghost code: bytes, ghost s: bytes, ghost more: bytes) returns (ok: bool, val: bytes)
    requires rio.Valid()
    modifies rio`pos, rio`cksum
    ensures rio.Valid() && rio.pos >= old(rio.pos)
    ensures IsString(code, s) && At(rio.full, old(rio.pos), code + more) ==>
      (rio.cut <= |more| ==> ok) && (ok ==> val == s && At(rio.full, rio.pos, more))
  {
    ghost var wf := IsString(code, s) && At(rio.full, rio.pos, code + more);
    ghost var h, body, v, z := StringBody(code, s);
    Assoc(HeadCode(h), body, more);
    hide *;
    var len, isencoded := LoadLen(rio, h, body + more);
    wf := wf && (len != REDIS_RDB_LENERR || rio.cut <= |body + more|);
    if wf { BodyFacts(h, body, s, v, z, len, isencoded); }
    ok, val := LoadBody(rio, len, isencoded, body, s, v, z, more, wf);
  }

  lemma BodyFacts(h: Head, body: bytes, s: bytes, v: int, z: bytes, len: nat, isencoded: bool)
    requires IsBody(h, body, s, v, z) && HeadRead(h, len, isencoded)
    ensures BodyOk(len, isencoded, body, s, v, z)
  {
    hide LenCode, EncodeInt, Print, Decode;
  }

  /** The body, in terms of what was read of its head. */
  ghost predicate BodyOk(len: nat, isencoded: bool, body: bytes, s: bytes, v: int, z: bytes) {
    && |s| < REDIS_RDB_LENERR
    && if !isencoded then len == |s| && body == s
       else if len == ENC_LZF
       then 0 < |z| < REDIS_RDB_LENERR && |s| > 0 && body == LenCode(|z|) + (LenCode(|s|) + z) && Decode(z, [], |s|) == Decoded(s)
       else len <= ENC_INT32 && In32(v) && len == TypeOf(Width(v)) && body == EncodeInt(v, Width(v)) && s == Print(v)
  }

  method LoadBody(rio: Rio, len: nat, isencoded: bool, ghost body: bytes, ghost s: bytes, ghost v: int, ghost z: bytes,
                  ghost more: bytes, ghost wf: bool)
    returns (ok: bool, val: bytes)
    requires rio.Valid() && (wf ==> BodyOk(len, isencoded, body, s, v, z) && At(rio.full, rio.pos, body + more))
    modifies rio`pos, rio`cksum
    ensures rio.Valid() && rio.pos >= old(rio.pos)
    ensures wf ==> (rio.cut <= |more| ==> ok) && (ok ==> val == s && At(rio.full, rio.pos, more))
    ensures len == REDIS_RDB_LENERR && !isencoded ==> !ok
  {
    hide At, LenCode, EncodeInt, Print, Decode, Rio.Valid, TypeOf, Width;
    ok, val := false, [];
    if isencoded {
      if len == ENC_INT8 || len == ENC_INT16 || len == ENC_INT32 {
        ok, val := LoadInteger(rio, len, v, more);
      } else if len == ENC_LZF {
        ok, val := LoadLzfString(rio, s, z, more);
      }
      return;
    }
    if len == REDIS_RDB_LENERR { return; }
    if len > 0 {
      ok, val := rio.Read(len, s, more);
      return;
    }
    ok := true;
    NoMore(more);
    assert wf ==> s == [];
  }

  /** Every string comes back as it was, with compression on or off, with checksums on or off. */
  method RoundTrip(s: bytes, compression: bool, m: Memory, sums: bool) returns (r: bytes)
    requires |s| < REDIS_RDB_LENERR && Usable(m, |s|)
    modifies m.htab
    ensures r == s
  {
    var writer := new Rio([], sums, _ => None, []);
    var saved;
    ghost var code;
    saved, code := SaveRawString(writer, s, compression, m);
    assert saved && writer.file == writer.data;
    var reader := new Rio(writer.file, sums, _ => None, writer.file);
    NoMore(code);
    assert code + [] == code && reader.data[0..] == code;
    hide *;
    var ok;
    ok, r := LoadString(reader, code, s, []);
  }
}
