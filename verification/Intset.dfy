/** Little-endian two's complement integers of 2, 4 or 8 bytes. */
module LittleEndian {
  import opened Bytes

  function Pow256(n: nat): (p: nat)
    ensures p > 0
  {
    if n == 0 then 1 else 256 * Pow256(n - 1)
  }

  function ToLE(u: nat, n: nat): (s: bytes)
    ensures |s| == n
  {
    if n == 0 then [] else [u % 256] + ToLE(u / 256, n - 1)
  }

  function FromLE(s: bytes): (u: nat)
    ensures u < Pow256(|s|)
  {
    if s == [] then 0 else s[0] + 256 * FromLE(s[1..])
  }

  lemma {:induction false} FromToLE(u: nat, n: nat)
    requires u < Pow256(n)
    ensures FromLE(ToLE(u, n)) == u
  {
    if n > 0 {
      FromToLE(u / 256, n - 1);
      assert ToLE(u, n)[1..] == ToLE(u / 256, n - 1);
    }
  }

  /** Half the range of a signed integer of `n` bytes. */
  function Half(n: nat): (h: nat) { Pow256(n) / 2 }

  ghost predicate Fits(v: int, n: nat) { 0 - Half(n) <= v < Half(n) }

  function EncodeInt(v: int, n: nat): (s: bytes)
    ensures |s| == n
  {
    ToLE(v % Pow256(n), n)
  }

  function DecodeInt(s: bytes): (v: int) {
    var u := FromLE(s);
    if u < Half(|s|) then u else u - Pow256(|s|)
  }

  lemma PowEven(n: nat)
    requires n > 0
    ensures Pow256(n) == 2 * Half(n)
  {
    assert Pow256(n) == 2 * (128 * Pow256(n - 1));
  }

  lemma DecodeEncode(v: int, n: nat)
    requires n > 0 && Fits(v, n)
    ensures DecodeInt(EncodeInt(v, n)) == v
  {
    PowEven(n);
    var u := v % Pow256(n);
    assert u == if v >= 0 then v else v + Pow256(n) by {
      ModRange(v, Pow256(n));
    }
    FromToLE(u, n);
  }

  lemma ModRange(v: int, m: nat)
    requires m > 0 && 0 - m <= v < m
    ensures v % m == if v >= 0 then v else v + m
  {
    if v < 0 {
      assert v == -1 * m + (v + m);
    }
  }

  lemma DecodeFits(s: bytes)
    requires s != []
    ensures Fits(DecodeInt(s), |s|)
  {
    PowEven(|s|);
  }

  /** The concrete ranges of the three widths. */
  lemma Ranges()
    ensures Half(2) == 0x8000 && Half(4) == 0x8000_0000 && Half(8) == 0x8000_0000_0000_0000
  {
    assert Pow256(1) == 256;
    assert Pow256(2) == 256 * Pow256(1) == 0x1_0000;
    assert Pow256(3) == 256 * Pow256(2) == 0x100_0000;
    assert Pow256(4) == 256 * Pow256(3) == 0x1_0000_0000;
    assert Pow256(5) == 256 * Pow256(4) == 0x100_0000_0000;
    assert Pow256(6) == 256 * Pow256(5) == 0x1_0000_0000_0000;
    assert Pow256(7) == 256 * Pow256(6) == 0x100_0000_0000_0000;
    assert Pow256(8) == 256 * Pow256(7) == 0x1_0000_0000_0000_0000;
  }
}

/** intset.c: a sorted set of integers packed at 2, 4 or 8 bytes each. */
module IntsetClass {
  import opened Bytes
  import opened LittleEndian

  const INT16 := 2
  const INT32 := 4
  const INT64 := 8

  predicate IsEncoding(enc: nat) { enc == INT16 || enc == INT32 || enc == INT64 }

  function ValueEncoding(v: int): (enc: nat)
    ensures IsEncoding(enc)
  {
    if v < -0x8000_0000 || v > 0x7FFF_FFFF then INT64
    else if v < -0x8000 || v > 0x7FFF then INT32
    else INT16
  }

  /** The chosen encoding is the narrowest that holds the value. */
  lemma NarrowestEncoding(v: int, enc: nat)
    requires IsEncoding(enc) && Fits(v, INT64)
    ensures Fits(v, enc) <==> ValueEncoding(v) <= enc
  {
    Ranges();
  }

  /** The byte offset of element `i`. */
  function Off(i: nat, enc: nat): (o: nat) {
    if enc == INT64 then 8 * i else if enc == INT32 then 4 * i else 2 * i
  }

  function Element(c: bytes, enc: nat, i: nat): int
    requires IsEncoding(enc) && Off(i + 1, enc) <= |c|
  {
    DecodeInt(c[Off(i, enc)..Off(i + 1, enc)])
  }

  /** The integers that the bytes hold. */
  function Values(c: bytes, enc: nat, n: nat): (v: seq<int>)
    requires IsEncoding(enc) && Off(n, enc) <= |c|
    ensures |v| == n && forall i :: 0 <= i < n ==> v[i] == Element(c, enc, i)
  {
    seq(n, i requires 0 <= i < n => Element(c, enc, i))
  }

  ghost predicate Increasing(s: seq<int>) { forall i, j :: 0 <= i < j < |s| ==> s[i] < s[j] }

  ghost predicate Below(v: seq<int>, k: nat, value: int) { k <= |v| && forall i :: 0 <= i < k ==> v[i] < value }

  ghost predicate Above(v: seq<int>, k: int, value: int) { forall i :: 0 <= i && k < i < |v| ==> v[i] > value }

  /** The place of a value: where it is, or where it has to be inserted. */
  ghost predicate Located(v: seq<int>, found: bool, pos: nat, value: int) {
    && pos <= |v| && (found <==> pos < |v| && v[pos] == value)
    && (forall i :: 0 <= i < pos ==> v[i] < value) && (forall i :: pos <= i < |v| ==> v[i] >= value)
  }

  lemma GoRight(v: seq<int>, k: nat, value: int)
    requires Increasing(v) && k < |v| && v[k] < value
    ensures Below(v, k + 1, value)
  {}

  lemma GoLeft(v: seq<int>, k: nat, value: int)
    requires Increasing(v) && k < |v| && v[k] > value
    ensures Above(v, k - 1, value)
  {}

  lemma Hit(v: seq<int>, k: nat, value: int)
    requires Increasing(v) && k < |v| && v[k] == value
    ensures Located(v, true, k, value)
  {}

  lemma Miss(v: seq<int>, min: nat, max: int, value: int)
    requires Below(v, min, value) && Above(v, max, value) && max < min
    ensures Located(v, false, min, value)
  {}

  /** Bytes `b` written at offset `o`. */
  function Put(c: bytes, o: nat, b: bytes): (c': bytes)
    requires o + |b| <= |c|
    ensures |c'| == |c|
  {
    c[..o] + b + c[o + |b|..]
  }

  lemma PutElement(c: bytes, enc: nat, pos: nat, v: int, i: nat)
    requires IsEncoding(enc) && Off(pos + 1, enc) <= |c| && Off(i + 1, enc) <= |c| && Fits(v, enc)
    ensures var c' := Put(c, Off(pos, enc), EncodeInt(v, enc));
      Element(c', enc, i) == if i == pos then v else Element(c, enc, i)
  {
    var b := EncodeInt(v, enc);
    Offsets(pos, i, enc);
    PutSlices(c, Off(pos, enc), b, Off(i, enc), Off(i + 1, enc));
    if i == pos { DecodeEncode(v, enc); }
    hide Off, Put, EncodeInt, DecodeInt;
  }

  /** Elements lie one after the other. */
  lemma Offsets(pos: nat, i: nat, enc: nat)
    requires IsEncoding(enc)
    ensures Off(pos + 1, enc) == Off(pos, enc) + enc
    ensures i < pos ==> Off(i + 1, enc) <= Off(pos, enc)
    ensures i > pos ==> Off(pos + 1, enc) <= Off(i, enc)
    ensures Off(i + 1, enc) == Off(i, enc) + enc
  {}

  lemma OffPlus(i: nat, k: nat, enc: nat)
    requires IsEncoding(enc)
    ensures Off(i + k, enc) == Off(i, enc) + Off(k, enc)
  {}

  lemma OffGrows(i: nat, j: nat, enc: nat)
    requires i <= j
    ensures Off(i, enc) <= Off(j, enc)
  {}

  /** Element `i` is there, and is `x`. */
  ghost predicate At(c: bytes, enc: nat, i: nat, x: int)
    requires IsEncoding(enc)
  {
    Off(i + 1, enc) <= |c| && Element(c, enc, i) == x
  }

  /** Values with these elements. */
  lemma ValuesAre(c: bytes, enc: nat, v: seq<int>)
    requires IsEncoding(enc) && Off(|v|, enc) <= |c|
    requires forall i :: 0 <= i < |v| ==> At(c, enc, i, v[i])
    ensures Values(c, enc, |v|) == v
  {
    hide Element, Off;
  }

  lemma PutSlices(c: bytes, o: nat, b: bytes, from: nat, to: nat)
    requires o + |b| <= |c| && from <= to <= |c|
    ensures to <= o || o + |b| <= from ==> Put(c, o, b)[from..to] == c[from..to]
    ensures from == o && to == o + |b| ==> Put(c, o, b)[from..to] == b
  {
    var c' := Put(c, o, b);
    if o + |b| <= from {
      assert c'[o + |b|..] == c[o + |b|..];
      assert c'[from..to] == c'[o + |b|..][from - o - |b|..to - o - |b|];
      assert c[from..to] == c[o + |b|..][from - o - |b|..to - o - |b|];
    }
  }

  /** Writing at or after a prefix leaves it alone: the element at a narrower width survives. */
  lemma PutPrefix(c: bytes, o: nat, b: bytes, n: nat)
    requires o + |b| <= |c| && n <= o
    ensures Put(c, o, b)[..n] == c[..n]
  {}

  lemma ElementPrefix(c: bytes, c': bytes, enc: nat, i: nat, n: nat)
    requires IsEncoding(enc) && Off(i + 1, enc) <= n <= |c| && n <= |c'| && c[..n] == c'[..n]
    ensures Element(c, enc, i) == Element(c', enc, i)
  {
    assert c[Off(i, enc)..Off(i + 1, enc)] == c[..n][Off(i, enc)..Off(i + 1, enc)];
    assert c'[Off(i, enc)..Off(i + 1, enc)] == c'[..n][Off(i, enc)..Off(i + 1, enc)];
  }

  method Memmove(a: array<byte>, src: nat, dst: nat, n: nat)
    requires src + n <= a.Length && dst + n <= a.Length
    modifies a
    ensures a[dst..dst + n] == old(a[src..src + n]) && a[..dst] == old(a[..dst])
  {
    forall k | 0 <= k < n {
      a[dst + k] := a[src + k];
    }
  }

  class Intset {
    var encoding: nat
    var length: nat
    var contents: array<byte>

    ghost predicate Sized()
      reads this, contents
    {
      IsEncoding(encoding) && contents.Length == Off(length, encoding)
    }

    ghost function View(): seq<int>
      reads this, contents
      requires Sized()
    {
      Values(contents[..], encoding, length)
    }

    ghost predicate Valid()
      reads this, contents
    {
      Sized() && Increasing(View())
    }

    constructor ()
      ensures Valid() && fresh(contents) && View() == [] && encoding == INT16
    {
      encoding, length := INT16, 0;
      contents := new byte[0];
    }

    /** _intsetGetEncoded */
    function GetEncoded(pos: nat, enc: nat): (v: int)
      requires IsEncoding(enc) && Off(pos + 1, enc) <= contents.Length
      reads this, contents
    {
      Element(contents[..], enc, pos)
    }

    /** _intsetSet, at the configured encoding. */
    method Set(pos: nat, value: int)
      requires IsEncoding(encoding) && Off(pos + 1, encoding) <= contents.Length
      modifies contents
      ensures contents[..] == Put(old(contents[..]), Off(pos, encoding), EncodeInt(value, encoding))
    {
      var b, o := EncodeInt(value, encoding), Off(pos, encoding);
      forall k | 0 <= k < |b| {
        contents[o + k] := b[k];
      }
    }

    /** intsetResize: the common prefix of the old bytes is kept. */
    method Resize(len: nat)
      requires IsEncoding(encoding)
      modifies this`contents
      ensures fresh(contents) && contents.Length == Off(len, encoding)
      ensures contents.Length <= old(contents.Length) ==> contents[..] == old(contents[..])[..contents.Length]
      ensures old(contents.Length) <= contents.Length ==> contents[..old(contents.Length)] == old(contents[..])
    {
      var c := new byte[Off(len, encoding)];
      var n := if c.Length < contents.Length then c.Length else contents.Length;
      forall k | 0 <= k < n {
        c[k] := contents[k];
      }
      contents := c;
    }

    /** intsetSearch: whether the value is there, and its place or the place to insert it. */
    method Search(value: int) returns (found: bool, pos: nat)
      requires Valid()
      ensures Located(View(), found, pos, value)
    {
      ghost var v := View();
      assert Increasing(v) && |v| == length;
      assert Above(v, length - 1, value) && Below(v, 0, value);
      hide Element, Increasing, Below, Above, Values;
      if length == 0 { return false, 0; }
      if value > GetEncoded(length - 1, encoding) {
        GoRight(v, length - 1, value);
        Miss(v, length, length - 1, value);
        return false, length;
      }
      if value < GetEncoded(0, encoding) {
        GoLeft(v, 0, value);
        Miss(v, 0, -1, value);
        return false, 0;
      }
      found, pos := Bisect(value);
    }

    /** The binary search: `cur` is the last element compared. */
    method Bisect(value: int) returns (found: bool, pos: nat)
      requires Valid() && length > 0
      ensures Located(View(), found, pos, value)
    {
      ghost var v := View();
      assert Increasing(v) && |v| == length;
      var min: int, max: int, mid: int, cur: int := 0, length - 1, -1, -1;
      assert Below(v, 0, value) && Above(v, length - 1, value);
      hide Element, Increasing, Values, Below, Above, Located;
      while max >= min
        invariant 0 <= min <= length && -1 <= max < length && Below(v, min, value) && Above(v, max, value)
        invariant mid >= 0 || (min == 0 && max == length - 1)
        invariant mid >= 0 ==> cur != value
        decreases max - min
      {
        mid := (min + max) / 2;
        cur := GetEncoded(mid, encoding);
        assert cur == v[mid];
        if value > cur {
          GoRight(v, mid, value);
          min := mid + 1;
        } else if value < cur {
          GoLeft(v, mid, value);
          max := mid - 1;
        } else {
          break;
        }
      }
      if value == cur {
        Hit(v, mid, value);
        found, pos := true, mid;
      } else {
        Miss(v, min, max, value);
        found, pos := false, min;
      }
    }

    /** intsetFind */
    method Find(value: int) returns (found: bool)
      requires Valid() && Fits(value, INT64)
      ensures found <==> value in View()
    {
      if ValueEncoding(value) > encoding {
        TooWide(value);
        return false;
      }
      ghost var v := View();
      var pos;
      found, pos := Search(value);
      if !found && pos < |v| {
        assert v[pos] > value;
        assert forall i :: pos < i < |v| ==> v[pos] < v[i];
      }
    }

    /** A value that needs a wider encoding is outside the range of everything stored. */
    lemma TooWide(value: int)
      requires Sized() && Fits(value, INT64) && ValueEncoding(value) > encoding
      ensures value !in View()
      ensures forall i :: 0 <= i < length ==> if value < 0 then value < View()[i] else View()[i] < value
    {
      Ranges();
      forall i | 0 <= i < length ensures if value < 0 then value < View()[i] else View()[i] < value {
        DecodeFits(contents[..][Off(i, encoding)..Off(i + 1, encoding)]);
      }
    }

    /** intsetUpgradeAndAdd: widen every element in place, back to front, then add. */
    method UpgradeAndAdd(value: int)
      requires Valid() && Fits(value, INT64) && ValueEncoding(value) > encoding
      modifies this, contents
      ensures Valid() && encoding == ValueEncoding(value) && fresh(contents)
      ensures View() == if value < 0 then [value] + old(View()) else old(View()) + [value]
    {
      UpgradeAhead(value);
      hide *;
      var curenc, n := encoding, length;
      var prepend := if value < 0 then 1 else 0;
      ghost var c0, v := contents[..], View();
      StartUpgrade(ValueEncoding(value), prepend, c0, v);
      Widen(curenc, n, prepend, c0, v);
      UpgradeLast(c0, contents[..], v, curenc, encoding, n, prepend, value);
      UpgradingSize(c0, contents[..], v, curenc, encoding, n, prepend);
      Set(if prepend == 1 then 0 else n, value);
      length := n + 1;
      Stored(if prepend == 1 then [value] + v else v + [value]);
    }

    /** What the widening starts from. */
    lemma UpgradeAhead(value: int)
      requires Valid() && Fits(value, INT64) && ValueEncoding(value) > encoding
      ensures IsEncoding(encoding) && contents.Length == Off(length, encoding) && IsEncoding(ValueEncoding(value))
      ensures View() == Values(contents[..], encoding, length) && Increasing(View()) && |View()| == length
      ensures Fits(value, ValueEncoding(value))
      ensures forall i :: 0 <= i < length ==> if value < 0 then value < View()[i] else View()[i] < value
    {
      TooWide(value);
      NarrowestEncoding(value, ValueEncoding(value));
      hide Element, Fits, Off, Increasing;
    }

    lemma Stored(v: seq<int>)
      requires IsEncoding(encoding) && contents.Length == Off(length, encoding)
      requires Values(contents[..], encoding, length) == v && Increasing(v)
      ensures Valid() && View() == v
    {
      hide Values, Increasing, Off;
    }

    /** The new encoding, and room for one more element at that. */
    method StartUpgrade(newenc: nat, prepend: nat, ghost c0: bytes, ghost v: seq<int>)
      requires IsEncoding(encoding) && contents.Length == Off(length, encoding) && c0 == contents[..] && v == Values(c0, encoding, length)
      requires encoding < newenc && IsEncoding(newenc) && prepend <= 1
      modifies `encoding, `contents
      ensures fresh(contents) && encoding == newenc
      ensures Upgrading(c0, contents[..], v, old(encoding), newenc, length, prepend, length)
    {
      ghost var curenc := encoding;
      hide Element, Values;
      encoding := newenc;
      Resize(length + 1);
      assert contents[..Off(length, curenc)] == c0[..Off(length, curenc)];
    }

    /** The loop `while (length--)`: read at the old width, write at the new one. */
    method Widen(curenc: nat, n: nat, prepend: nat, ghost c0: bytes, ghost v: seq<int>)
      requires Upgrading(c0, contents[..], v, curenc, encoding, n, prepend, n)
      modifies contents
      ensures Upgrading(c0, contents[..], v, curenc, encoding, n, prepend, 0)
    {
      var k := n;
      hide Element, Put, EncodeInt, Values;
      while k > 0
        invariant 0 <= k <= n && Upgrading(c0, contents[..], v, curenc, encoding, n, prepend, k)
      {
        UpgradeStep(c0, contents[..], v, curenc, encoding, n, prepend, k);
        k := k - 1;
        Set(k + prepend, GetEncoded(k, curenc));
      }
    }

    /** intsetMoveTail: a memmove of the bytes of elements [from, length) to `to`. */
    method MoveTail(from: nat, to: nat)
      requires IsEncoding(encoding) && from <= length
      requires Off(length, encoding) <= contents.Length && Off(to, encoding) + Off(length - from, encoding) <= contents.Length
      modifies contents
      ensures Moved(old(contents[..]), contents[..], encoding, from, to, length - from)
    {
      var src, dst, n := Off(from, encoding), Off(to, encoding), Off(length - from, encoding);
      assert src + n == Off(length, encoding);
      ghost var c := contents[..];
      Memmove(contents, src, dst, n);
      assert dst + n == Off(to + (length - from), encoding);
    }

    /** intsetAdd */
    method Add(value: int) returns (success: bool)
      requires Valid() && Fits(value, INT64)
      modifies this, contents
      ensures Valid() && (contents == old(contents) || fresh(contents))
      ensures success <==> value !in old(View())
      ensures !success ==> View() == old(View())
      ensures forall x :: x in View() <==> x in old(View()) || x == value
    {
      ghost var v := View();
      if ValueEncoding(value) > encoding {
        TooWide(value);
        UpgradeAndAdd(value);
        return true;
      }
      NarrowestEncoding(value, encoding);
      var found, pos := Search(value);
      if found { return false; }
      InsertNarrow(value, pos);
      success := true;
      assert forall i :: 0 <= i < |v| ==> v[i] != value;
      assert forall x :: x in v <==> x in v[..pos] || x in v[pos..];
    }

    /** Make room at `pos` and store the value there. */
    method InsertNarrow(value: int, pos: nat)
      requires Valid() && Fits(value, encoding) && pos <= length
      requires forall i :: 0 <= i < pos ==> View()[i] < value
      requires forall i :: pos <= i < length ==> View()[i] > value
      modifies this, contents
      ensures Valid() && fresh(contents) && View() == InsertAt(old(View()), pos, value)
    {
      ghost var c0, v, n := contents[..], View(), length;
      MakeRoom(pos);
      ghost var c1 := contents[..];
      hide Element, Put, EncodeInt, Fits, Moved, Values;
      Set(pos, value);
      length := length + 1;
      Inserted(c0, c1, contents[..], encoding, n, pos, value);
      InsertAtIncreasing(v, pos, value);
    }

    /** Grow by one element and move the tail up. */
    method MakeRoom(pos: nat)
      requires Sized() && pos <= length
      modifies this`contents, contents
      ensures fresh(contents)
      ensures Opened(old(contents[..]), contents[..], encoding, length, pos)
    {
      ghost var c0 := contents[..];
      OffGrows(length, length + 1, encoding);
      OffPlus(pos + 1, length - pos, encoding);
      assert pos + 1 + (length - pos) == length + 1;
      assert IsEncoding(encoding) && contents.Length == Off(length, encoding);
      hide *;
      Resize(length + 1);
      ghost var c1 := contents[..];
      assert c1[..|c0|] == contents[..|c0|];
      if pos < length { MoveTail(pos, pos + 1); }
      MovedOpens(c0, c1, contents[..], encoding, length, pos);
    }

    /** intsetRemove */
    method Remove(value: int) returns (success: bool)
      requires Valid() && Fits(value, INT64)
      modifies this, contents
      ensures Valid() && (contents == old(contents) || fresh(contents))
      ensures success <==> value in old(View())
      ensures !success ==> View() == old(View())
      ensures forall x :: x in View() <==> x in old(View()) && x != value
    {
      ghost var v := View();
      success := false;
      if ValueEncoding(value) > encoding {
        TooWide(value);
        return;
      }
      var found, pos := Search(value);
      if found {
        RemoveAt(pos);
        success := true;
        assert v == v[..pos] + [value] + v[pos + 1..];
      } else {
        assert forall i :: 0 <= i < |v| ==> v[i] != value;
      }
    }

    method RemoveAt(pos: nat)
      requires Valid() && pos < length
      modifies this, contents
      ensures Valid() && fresh(contents) && View() == Without(old(View()), pos)
    {
      ghost var c0, v, n := contents[..], View(), length;
      assert Increasing(v) && v == Values(c0, encoding, n);
      CloseGap(pos);
      hide Element, Values, Increasing, Without, Closed;
      length := length - 1;
      Removed(c0, contents[..], encoding, n, pos);
    }

    /** Move the tail down over the element and shrink by one. */
    method CloseGap(pos: nat)
      requires Sized() && pos < length
      modifies this`contents, contents
      ensures fresh(contents) && contents.Length == Off(length - 1, encoding)
      ensures Closed(old(contents[..]), contents[..], encoding, length, pos)
    {
      ghost var c0 := contents[..];
      OffPlus(pos, length - (pos + 1), encoding);
      OffGrows(length - 1, length, encoding);
      assert pos + (length - (pos + 1)) == length - 1;
      assert IsEncoding(encoding) && contents.Length == Off(length, encoding);
      hide *;
      if pos < length - 1 { MoveTail(pos + 1, pos); }
      ghost var c1 := contents[..];
      Resize(length - 1);
      MovedCloses(c0, c1, contents[..], encoding, length, pos);
    }
  }

  // ---- the byte movements

  /** Elements [k, n) are already wide, and the bytes of the first `k` narrow ones intact. */
  ghost predicate Upgrading(c0: bytes, c: bytes, v: seq<int>, enc: nat, enc': nat, n: nat, prepend: nat, k: nat) {
    && IsEncoding(enc) && IsEncoding(enc') && enc < enc' && prepend <= 1 && k <= n
    && |c0| == Off(n, enc) && v == Values(c0, enc, n) && |c| == Off(n + 1, enc')
    && c[..Off(k, enc)] == c0[..Off(k, enc)]
    && forall j :: k <= j < n ==> Element(c, enc', j + prepend) == v[j]
  }

  lemma UpgradingSize(c0: bytes, c: bytes, v: seq<int>, enc: nat, enc': nat, n: nat, prepend: nat)
    requires Upgrading(c0, c, v, enc, enc', n, prepend, 0)
    ensures IsEncoding(enc') && |c| == Off(n + 1, enc') && Off(1, enc') <= |c| && |v| == n && prepend <= 1
    ensures Off(n, enc') + |EncodeInt(0, enc')| <= |c|
  {}

  lemma UpgradeStep(c0: bytes, c: bytes, v: seq<int>, enc: nat, enc': nat, n: nat, prepend: nat, k: nat)
    requires Upgrading(c0, c, v, enc, enc', n, prepend, k) && k > 0
    ensures Element(c, enc, k - 1) == v[k - 1]
    ensures Upgrading(c0, Put(c, Off(k - 1 + prepend, enc'), EncodeInt(v[k - 1], enc')), v, enc, enc', n, prepend, k - 1)
  {
    var x, o, b := v[k - 1], Off(k - 1 + prepend, enc'), EncodeInt(v[k - 1], enc');
    ElementPrefix(c, c0, enc, k - 1, Off(k, enc));
    WiderFits(c0[Off(k - 1, enc)..Off(k, enc)], enc');
    assert Fits(x, enc');
    OffGrows(k - 1, k, enc);
    assert Off(k - 1, enc) <= o && o + |b| <= |c|;
    hide Element, EncodeInt, DecodeInt, Fits, Put, Values, Off;
    PutPrefix(c, o, b, Off(k - 1, enc));
    ShorterPrefix(c, c0, Off(k - 1, enc), Off(k, enc));
    UpgradeWide(c, v, enc', n, prepend, k, x);
  }

  lemma ShorterPrefix(s: bytes, t: bytes, m: nat, n: nat)
    requires m <= n <= |s| && n <= |t| && s[..n] == t[..n]
    ensures s[..m] == t[..m]
  {
    assert s[..n][..m] == s[..m] && t[..n][..m] == t[..m];
  }

  lemma UpgradeWide(c: bytes, v: seq<int>, enc': nat, n: nat, prepend: nat, k: nat, x: int)
    requires IsEncoding(enc') && prepend <= 1 && 0 < k <= n == |v| && |c| == Off(n + 1, enc') && x == v[k - 1] && Fits(x, enc')
    requires forall j :: k <= j < n ==> Element(c, enc', j + prepend) == v[j]
    ensures forall j :: k - 1 <= j < n ==> Element(Put(c, Off(k - 1 + prepend, enc'), EncodeInt(x, enc')), enc', j + prepend) == v[j]
  {
    hide Element, EncodeInt, Fits, Put;
    forall j | k - 1 <= j < n
      ensures Element(Put(c, Off(k - 1 + prepend, enc'), EncodeInt(x, enc')), enc', j + prepend) == v[j]
    {
      PutElement(c, enc', k - 1 + prepend, x, j + prepend);
    }
  }

  lemma WiderFits(s: bytes, enc: nat)
    requires IsEncoding(|s|) && IsEncoding(enc) && |s| < enc
    ensures Fits(DecodeInt(s), enc)
  {
    DecodeFits(s);
    Ranges();
  }

  lemma UpgradeLast(c0: bytes, c: bytes, v: seq<int>, enc: nat, enc': nat, n: nat, prepend: nat, value: int)
    requires Upgrading(c0, c, v, enc, enc', n, prepend, 0) && Fits(value, enc') && Increasing(v)
    requires forall i :: 0 <= i < n ==> if prepend == 1 then value < v[i] else v[i] < value
    ensures var c' := Put(c, Off(if prepend == 1 then 0 else n, enc'), EncodeInt(value, enc'));
      var v' := if prepend == 1 then [value] + v else v + [value];
      Values(c', enc', n + 1) == v' && Increasing(v')
  {
    var at := if prepend == 1 then 0 else n;
    var c' := Put(c, Off(at, enc'), EncodeInt(value, enc'));
    var v' := if prepend == 1 then [value] + v else v + [value];
    AtEnd(v, prepend == 1, value);
    UpgradingSize(c0, c, v, enc, enc', n, prepend);
    hide *;
    forall i | 0 <= i < |v'| ensures At(c', enc', i, v'[i]) {
      UpgradedElement(c0, c, v, enc, enc', n, prepend, value, i, v'[i]);
    }
    ValuesAre(c', enc', v');
  }

  lemma AtEnd(v: seq<int>, front: bool, value: int)
    requires Increasing(v) && forall i :: 0 <= i < |v| ==> if front then value < v[i] else v[i] < value
    ensures var v' := if front then [value] + v else v + [value];
      && Increasing(v') && |v'| == |v| + 1
      && forall i :: 0 <= i <= |v| ==> v'[i] == if i == (if front then 0 else |v|) then value else v[if front then i - 1 else i]
  {}

  lemma UpgradedElement(c0: bytes, c: bytes, v: seq<int>, enc: nat, enc': nat, n: nat, prepend: nat, value: int, i: nat, x: int)
    requires Upgrading(c0, c, v, enc, enc', n, prepend, 0) && Fits(value, enc') && i <= n == |v|
    requires x == if i == (if prepend == 1 then 0 else n) then value else v[if prepend == 1 then i - 1 else i]
    ensures At(Put(c, Off(if prepend == 1 then 0 else n, enc'), EncodeInt(value, enc')), enc', i, x)
  {
    var at := if prepend == 1 then 0 else n;
    OffGrows(i + 1, n + 1, enc');
    hide Element, Put, EncodeInt, Off, Fits;
    PutElement(c, enc', at, value, i);
    if i != at { assert Element(c, enc', (i - prepend) + prepend) == v[i - prepend]; }
  }

  /** The bytes of `count` elements moved from element `from` to element `to`. */
  ghost predicate Moved(c: bytes, c': bytes, enc: nat, from: nat, to: nat, count: nat) {
    && IsEncoding(enc) && |c'| == |c| && Off(from + count, enc) <= |c| && Off(to + count, enc) <= |c|
    && c'[Off(to, enc)..Off(to + count, enc)] == c[Off(from, enc)..Off(from + count, enc)]
    && c'[..Off(to, enc)] == c[..Off(to, enc)]
  }

  lemma SubSlice(s: bytes, a: nat, b: nat, x: nat, y: nat)
    requires a <= b <= |s| && x <= y <= b - a
    ensures s[a..b][x..y] == s[a + x..a + y]
  {
    var t, u := s[a..b][x..y], s[a + x..a + y];
    assert |t| == |u|;
    assert forall k :: 0 <= k < |t| ==> t[k] == s[a..b][x + k] == u[k];
  }

  lemma ToEnd(s: bytes, a: nat, n: nat)
    requires a <= n == |s|
    ensures s[a..n] == s[a..]
  {}

  lemma SameSlice(s: bytes, s': bytes, a: nat, a': nat, n: nat, x: nat, y: nat)
    requires a + n <= |s| && a' + n <= |s'| && s[a..a + n] == s'[a'..a' + n] && x <= y <= n
    ensures s[a + x..a + y] == s'[a' + x..a' + y]
  {
    SubSlice(s, a, a + n, x, y);
    SubSlice(s', a', a' + n, x, y);
  }

  /** Equal bytes hold equal elements, wherever they are. */
  lemma SliceElement(c: bytes, c': bytes, enc: nat, from: nat, to: nat, count: nat, j: nat)
    requires IsEncoding(enc) && j < count && Off(from + count, enc) <= |c| && Off(to + count, enc) <= |c'|
    requires Off(from, enc) <= Off(from + count, enc) && Off(to, enc) <= Off(to + count, enc)
    requires c[Off(from, enc)..Off(from + count, enc)] == c'[Off(to, enc)..Off(to + count, enc)]
    ensures Off(from + j + 1, enc) <= |c| && Off(to + j + 1, enc) <= |c'|
    ensures Element(c', enc, to + j) == Element(c, enc, from + j)
  {
    OffPlus(from, j, enc);
    OffPlus(from, j + 1, enc);
    OffPlus(to, j, enc);
    OffPlus(to, j + 1, enc);
    OffPlus(from, count, enc);
    OffPlus(to, count, enc);
    Offsets(j, j, enc);
    Offsets(count, j, enc);
    hide Off, DecodeInt;
    SameSlice(c, c', Off(from, enc), Off(to, enc), Off(count, enc), Off(j, enc), Off(j + 1, enc));
  }

  function InsertAt(v: seq<int>, pos: nat, x: int): (v': seq<int>)
    requires pos <= |v|
    ensures |v'| == |v| + 1
    ensures forall i :: 0 <= i <= |v| ==> v'[i] == if i < pos then v[i] else if i == pos then x else v[i - 1]
  {
    v[..pos] + [x] + v[pos..]
  }

  lemma InsertAtIncreasing(v: seq<int>, pos: nat, x: int)
    requires pos <= |v| && Increasing(v)
    requires forall i :: 0 <= i < |v| ==> if i < pos then v[i] < x else v[i] > x
    ensures Increasing(InsertAt(v, pos, x))
  {}

  /** Room for one element at `pos`, the elements after it moved up by one. */
  ghost predicate Opened(c0: bytes, c: bytes, enc: nat, n: nat, pos: nat) {
    && IsEncoding(enc) && pos <= n && |c0| == Off(n, enc) && |c| == Off(n + 1, enc)
    && c[..Off(pos, enc)] == c0[..Off(pos, enc)]
    && c[Off(pos + 1, enc)..] == c0[Off(pos, enc)..]
  }

  lemma MovedOpens(c0: bytes, c1: bytes, c: bytes, enc: nat, n: nat, pos: nat)
    requires IsEncoding(enc) && pos <= n && |c0| == Off(n, enc) && |c1| == Off(n + 1, enc) && c1[..|c0|] == c0
    requires if pos < n then Moved(c1, c, enc, pos, pos + 1, n - pos) else c == c1
    ensures Opened(c0, c, enc, n, pos)
  {
    assert c0[..Off(pos, enc)] == c1[..Off(pos, enc)];
    assert c0[Off(pos, enc)..] == c1[Off(pos, enc)..Off(n, enc)];
    if pos < n {
      assert c[..Off(pos, enc)] == c[..Off(pos + 1, enc)][..Off(pos, enc)];
      assert c1[..Off(pos, enc)] == c1[..Off(pos + 1, enc)][..Off(pos, enc)];
    }
  }

  lemma OpenedBefore(c0: bytes, c: bytes, enc: nat, n: nat, pos: nat, i: nat)
    requires Opened(c0, c, enc, n, pos) && i < pos
    ensures Off(i + 1, enc) <= |c| && Off(i + 1, enc) <= |c0| && Element(c, enc, i) == Element(c0, enc, i)
  {
    Offsets(pos, i, enc);
    OffGrows(pos, n, enc);
    OffGrows(pos, n + 1, enc);
    hide Off, Element;
    ElementPrefix(c0, c, enc, i, Off(pos, enc));
  }

  lemma OpenedAfter(c0: bytes, c: bytes, enc: nat, n: nat, pos: nat, j: nat)
    requires Opened(c0, c, enc, n, pos) && pos + j < n
    ensures Off(pos + 1 + j + 1, enc) <= |c| && Off(pos + j + 1, enc) <= |c0|
    ensures Element(c, enc, pos + 1 + j) == Element(c0, enc, pos + j)
  {
    var m := n - pos;
    assert pos + m == n && pos + 1 + m == n + 1;
    OffGrows(pos, pos + m, enc);
    OffGrows(pos + 1, pos + 1 + m, enc);
    assert c[Off(pos + 1, enc)..] == c0[Off(pos, enc)..] && |c| == Off(pos + 1 + m, enc) && |c0| == Off(pos + m, enc);
    hide *;
    ToEnd(c, Off(pos + 1, enc), Off(pos + 1 + m, enc));
    ToEnd(c0, Off(pos, enc), Off(pos + m, enc));
    SliceElement(c0, c, enc, pos, pos + 1, m, j);
  }

  lemma InsertedElement(c0: bytes, c1: bytes, enc: nat, n: nat, pos: nat, value: int, i: nat, x: int)
    requires Opened(c0, c1, enc, n, pos) && Fits(value, enc) && i <= n
    requires Off(n, enc) <= |c0| && Off(pos, enc) + |EncodeInt(value, enc)| <= |c1|
    requires x == if i == pos then value else Values(c0, enc, n)[if i < pos then i else i - 1]
    ensures At(Put(c1, Off(pos, enc), EncodeInt(value, enc)), enc, i, x)
  {
    OffGrows(i + 1, n + 1, enc);
    OffGrows(pos + 1, n + 1, enc);
    assert |c1| == Off(n + 1, enc);
    hide Element, EncodeInt, Fits, Put, Opened, Off;
    if i < pos { OpenedBefore(c0, c1, enc, n, pos, i); }
    if i > pos { OpenedAfter(c0, c1, enc, n, pos, i - pos - 1); }
    PutElement(c1, enc, pos, value, i);
  }

  lemma OpenedSize(c0: bytes, c: bytes, enc: nat, n: nat, pos: nat, value: int)
    requires Opened(c0, c, enc, n, pos)
    ensures IsEncoding(enc) && pos <= n && |c| == Off(n + 1, enc) && Off(n, enc) <= |c0| && Off(pos, enc) + |EncodeInt(value, enc)| <= |c|
  {}

  /** Storing `value` in the room at `pos` inserts it. */
  lemma Inserted(c0: bytes, c1: bytes, c: bytes, enc: nat, n: nat, pos: nat, value: int)
    requires Opened(c0, c1, enc, n, pos) && Fits(value, enc) && c == Put(c1, Off(pos, enc), EncodeInt(value, enc))
    ensures Off(n + 1, enc) == |c| && Values(c, enc, n + 1) == InsertAt(Values(c0, enc, n), pos, value)
  {
    OpenedSize(c0, c1, enc, n, pos, value);
    hide *;
    var v' := InsertAt(Values(c0, enc, n), pos, value);
    forall i | 0 <= i < |v'| ensures At(c, enc, i, v'[i]) {
      InsertedElement(c0, c1, enc, n, pos, value, i, v'[i]);
    }
    ValuesAre(c, enc, v');
  }

  function Without(v: seq<int>, pos: nat): seq<int>
    requires pos < |v|
  {
    v[..pos] + v[pos + 1..]
  }

  /** The element at `pos` is gone, the elements after it moved down by one. */
  ghost predicate Closed(c0: bytes, c: bytes, enc: nat, n: nat, pos: nat) {
    && IsEncoding(enc) && pos < n && |c0| == Off(n, enc) && |c| == Off(n - 1, enc)
    && c[..Off(pos, enc)] == c0[..Off(pos, enc)]
    && c[Off(pos, enc)..] == c0[Off(pos + 1, enc)..]
  }

  lemma MovedCloses(c0: bytes, c1: bytes, c: bytes, enc: nat, n: nat, pos: nat)
    requires IsEncoding(enc) && pos < n && |c0| == |c1| == Off(n, enc) && |c| == Off(n - 1, enc) && c == c1[..Off(n - 1, enc)]
    requires if pos < n - 1 then Moved(c0, c1, enc, pos + 1, pos, n - pos - 1) else c0 == c1
    ensures Closed(c0, c, enc, n, pos)
  {
    assert c[..Off(pos, enc)] == c1[..Off(pos, enc)];
    if pos < n - 1 {
      assert c[Off(pos, enc)..] == c1[Off(pos, enc)..Off(n - 1, enc)];
      assert c0[Off(pos + 1, enc)..] == c0[Off(pos + 1, enc)..Off(n, enc)];
    }
  }

  lemma ClosedBefore(c0: bytes, c: bytes, enc: nat, n: nat, pos: nat, i: nat)
    requires Closed(c0, c, enc, n, pos) && i < pos
    ensures Off(i + 1, enc) <= |c| && Off(i + 1, enc) <= |c0| && Element(c, enc, i) == Element(c0, enc, i)
  {
    Offsets(pos, i, enc);
    OffGrows(pos, n - 1, enc);
    Offsets(n - 1, n - 1, enc);
    assert n - 1 + 1 == n;
    hide Off, Element;
    ElementPrefix(c0, c, enc, i, Off(pos, enc));
  }

  lemma ClosedAfter(c0: bytes, c: bytes, enc: nat, n: nat, pos: nat, j: nat)
    requires Closed(c0, c, enc, n, pos) && pos + j < n - 1
    ensures Off(pos + j + 1, enc) <= |c| && Off(pos + 1 + j + 1, enc) <= |c0|
    ensures Element(c, enc, pos + j) == Element(c0, enc, pos + 1 + j)
  {
    var m := n - 1 - pos;
    assert pos + m == n - 1 && pos + 1 + m == n;
    OffGrows(pos, pos + m, enc);
    OffGrows(pos + 1, pos + 1 + m, enc);
    assert c[Off(pos, enc)..] == c0[Off(pos + 1, enc)..] && |c| == Off(pos + m, enc) && |c0| == Off(pos + 1 + m, enc);
    hide *;
    ToEnd(c, Off(pos, enc), Off(pos + m, enc));
    ToEnd(c0, Off(pos + 1, enc), Off(pos + 1 + m, enc));
    SliceElement(c0, c, enc, pos + 1, pos, m, j);
  }

  lemma ClosedSize(c0: bytes, c: bytes, enc: nat, n: nat, pos: nat)
    requires Closed(c0, c, enc, n, pos)
    ensures IsEncoding(enc) && pos < n && Off(n, enc) <= |c0| && Off(n - 1, enc) <= |c|
  {}

  lemma RemovedElement(c0: bytes, c: bytes, enc: nat, n: nat, pos: nat, i: nat, x: int)
    requires Closed(c0, c, enc, n, pos) && Off(n, enc) <= |c0| && i < n - 1
    requires x == Values(c0, enc, n)[if i < pos then i else i + 1]
    ensures At(c, enc, i, x)
  {
    hide Off, Element, Closed;
    if i < pos {
      ClosedBefore(c0, c, enc, n, pos, i);
    } else {
      ClosedAfter(c0, c, enc, n, pos, i - pos);
    }
  }

  lemma WithoutIs(v: seq<int>, pos: nat)
    requires pos < |v|
    ensures |Without(v, pos)| == |v| - 1 && (Increasing(v) ==> Increasing(Without(v, pos)))
    ensures forall i :: 0 <= i < |v| - 1 ==> Without(v, pos)[i] == v[if i < pos then i else i + 1]
  {}

  /** Closing the gap at `pos` removes the element. */
  lemma Removed(c0: bytes, c: bytes, enc: nat, n: nat, pos: nat)
    requires Closed(c0, c, enc, n, pos) && Off(n, enc) <= |c0| && Increasing(Values(c0, enc, n))
    ensures Off(n - 1, enc) <= |c| && Values(c, enc, n - 1) == Without(Values(c0, enc, n), pos)
    ensures Increasing(Values(c, enc, n - 1))
  {
    ClosedSize(c0, c, enc, n, pos);
    hide *;
    var v' := Without(Values(c0, enc, n), pos);
    WithoutIs(Values(c0, enc, n), pos);
    forall i | 0 <= i < |v'| ensures At(c, enc, i, v'[i]) {
      RemovedElement(c0, c, enc, n, pos, i, v'[i]);
    }
    ValuesAre(c, enc, v');
  }
}
