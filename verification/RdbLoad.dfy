/** rdb.c: loading a dump file. */
module RdbLoad {
  import opened Sequences
  import opened Wrappers
  import opened Bytes
  import opened Decimal
  import opened LittleEndian
  import opened RioStream
  import opened RdbStrings
  import opened RdbRecords
  import opened RdbSave
  import opened AofData
  import opened AofLoad
  import Crc64

  datatype Result = Success(data: Dataset) | WrongFormat | Aborted

  /** The strings from number `i` on are ahead. */
  ghost predicate Strings(data: bytes, pos: nat, sc: seq<bytes>, strings: seq<bytes>, i: nat, more: bytes) {
    AllStrings(sc, strings) && i <= |sc| && At(data, pos, Cat(sc[i..]) + more)
  }

  lemma StringAhead(data: bytes, pos: nat, sc: seq<bytes>, strings: seq<bytes>, i: nat, more: bytes)
    requires Strings(data, pos, sc, strings, i, more) && i < |strings|
    ensures i < |sc| && IsString(sc[i], strings[i]) && At(data, pos, sc[i] + (Cat(sc[i + 1..]) + more))
  {
    CatHead(sc, i);
    Assoc(sc[i], Cat(sc[i + 1..]), more);
    hide Cat, IsString;
  }

  lemma StringsDone(data: bytes, pos: nat, sc: seq<bytes>, strings: seq<bytes>, more: bytes)
    requires Strings(data, pos, sc, strings, |strings|, more)
    ensures At(data, pos, more)
  {
    assert Cat(sc[|strings|..]) == [];
    NoMore(more);
  }

  method LoadNext(rio: Rio, ghost sc: seq<bytes>, ghost strings: seq<bytes>, ghost i: nat, ghost more: bytes, ghost wf: bool)
    returns (ok: bool, val: bytes)
    requires rio.Valid() && (wf ==> i < |strings| && Strings(rio.full, rio.pos, sc, strings, i, more))
    modifies rio`pos, rio`cksum
    ensures rio.Valid() && rio.pos >= old(rio.pos)
    ensures wf ==> (rio.cut <= |more| ==> ok) && (ok ==> val == strings[i] && Strings(rio.full, rio.pos, sc, strings, i + 1, more))
  {
    if wf { StringAhead(rio.full, rio.pos, sc, strings, i, more); }
    ghost var code, s, tail := [], [], [];
    if wf { code, s, tail := sc[i], strings[i], Cat(sc[i + 1..]) + more; }
    hide At, IsString, Cat, Rio.Valid;
    ok, val := LoadString(rio, code, s, tail);
  }

  method LoadList(rio: Rio, n: nat, ghost sc: seq<bytes>, ghost strings: seq<bytes>, ghost more: bytes, ghost wf: bool)
    returns (ok: bool, l: seq<bytes>)
    requires rio.Valid() && (wf ==> n == |strings| && Strings(rio.full, rio.pos, sc, strings, 0, more))
    modifies rio`pos, rio`cksum
    ensures rio.Valid() && rio.pos >= old(rio.pos)
    ensures wf ==> (rio.cut <= |more| ==> ok) && (ok ==> l == strings && At(rio.full, rio.pos, more))
  {
    ok, l := true, [];
    var len := n;
    hide Strings, Rio.Valid;
    while len > 0
      invariant 0 <= len <= n && ok && |l| == n - len && rio.Valid() && rio.pos >= old(rio.pos)
      invariant wf ==> l == strings[..n - len] && Strings(rio.full, rio.pos, sc, strings, n - len, more)
    {
      var ele;
      ghost var i := n - len;
      ok, ele := LoadNext(rio, sc, strings, i, more, wf);
      len := len - 1;
      if !ok { return; }
      assert wf ==> strings[..i + 1] == strings[..i] + [strings[i]];
      l := l + [ele];
    }
    if wf { StringsDone(rio.full, rio.pos, sc, strings, more); }
    assert wf ==> strings[..n] == strings;
  }

  lemma ToSetTake(strings: seq<bytes>, i: nat)
    requires i < |strings|
    ensures ToSet(strings[..i + 1]) == ToSet(strings[..i]) + {strings[i]}
  {
    assert strings[..i + 1] == strings[..i] + [strings[i]];
  }

  /** Whether the set stays an intset or becomes a table, the elements are the same. */
  method LoadSet(rio: Rio, len: nat, ghost sc: seq<bytes>, ghost strings: seq<bytes>, ghost more: bytes, ghost wf: bool)
    returns (ok: bool, m: set<bytes>)
    requires rio.Valid() && (wf ==> len == |strings| && Strings(rio.full, rio.pos, sc, strings, 0, more))
    modifies rio`pos, rio`cksum
    ensures rio.Valid() && rio.pos >= old(rio.pos)
    ensures wf ==> (rio.cut <= |more| ==> ok) && (ok ==> m == ToSet(strings) && At(rio.full, rio.pos, more))
  {
    ok, m := true, {};
    var i := 0;
    assert ToSet(strings[..0]) == {};
    hide Strings, Rio.Valid, ToSet;
    while i < len
      invariant 0 <= i <= len && ok && rio.Valid() && rio.pos >= old(rio.pos)
      invariant wf ==> m == ToSet(strings[..i]) && Strings(rio.full, rio.pos, sc, strings, i, more)
    {
      var ele;
      ok, ele := LoadNext(rio, sc, strings, i, more, wf);
      if !ok { return; }
      if wf { ToSetTake(strings, i); }
      m := m + {ele};
      i := i + 1;
    }
    if wf { StringsDone(rio.full, rio.pos, sc, strings, more); }
    assert wf ==> strings[..len] == strings;
  }

  lemma ToMapTake(strings: seq<bytes>, i: nat)
    requires 2 * i + 1 < |strings|
    ensures ToMap(strings[..2 * i + 2]) == ToMap(strings[..2 * i])[strings[2 * i] := strings[2 * i + 1]]
  {
    var s := strings[..2 * i + 2];
    assert s[..|s| - 2] == strings[..2 * i];
  }

  /** `i` fields and values were read. */
  ghost predicate Pairs(data: bytes, pos: nat, sc: seq<bytes>, strings: seq<bytes>, h: map<bytes, bytes>, i: nat, n: nat, more: bytes) {
    i <= n && |strings| == 2 * n && h == ToMap(strings[..2 * i]) && Strings(data, pos, sc, strings, 2 * i, more)
  }

  lemma NoPairs(data: bytes, pos: nat, sc: seq<bytes>, strings: seq<bytes>, n: nat, more: bytes)
    requires |strings| == 2 * n && Strings(data, pos, sc, strings, 0, more)
    ensures Pairs(data, pos, sc, strings, map[], 0, n, more)
  {
    hide Strings;
    assert ToMap(strings[..0]) == map[];
  }

  lemma AllPairs(data: bytes, pos: nat, sc: seq<bytes>, strings: seq<bytes>, h: map<bytes, bytes>, n: nat, more: bytes)
    requires Pairs(data, pos, sc, strings, h, n, n, more)
    ensures h == ToMap(strings) && At(data, pos, more)
  {
    assert strings[..2 * n] == strings;
    hide ToMap;
    StringsDone(data, pos, sc, strings, more);
  }

  lemma PairAhead(data: bytes, pos: nat, sc: seq<bytes>, strings: seq<bytes>, h: map<bytes, bytes>, i: nat, n: nat, more: bytes)
    requires Pairs(data, pos, sc, strings, h, i, n, more) && i < n
    ensures |strings| == 2 * n && Strings(data, pos, sc, strings, 2 * i, more)
  {
    hide Strings, ToMap;
  }

  lemma PairTaken(data: bytes, pos: nat, pos': nat, sc: seq<bytes>, strings: seq<bytes>, h: map<bytes, bytes>, i: nat, n: nat, more: bytes)
    requires Pairs(data, pos, sc, strings, h, i, n, more) && i < n && Strings(data, pos', sc, strings, 2 * i + 1 + 1, more)
    ensures |strings| == 2 * n && Pairs(data, pos', sc, strings, h[strings[2 * i] := strings[2 * i + 1]], i + 1, n, more)
  {
    hide Strings, ToMap;
    ToMapTake(strings, i);
    assert 2 * (i + 1) == 2 * i + 1 + 1;
  }

  method LoadPair(rio: Rio, h0: map<bytes, bytes>, ghost sc: seq<bytes>, ghost strings: seq<bytes>, ghost i: nat, ghost n: nat,
                  ghost more: bytes, ghost wf: bool)
    returns (ok: bool, h: map<bytes, bytes>)
    requires rio.Valid() && i < n && (wf ==> Pairs(rio.full, rio.pos, sc, strings, h0, i, n, more))
    modifies rio`pos, rio`cksum
    ensures rio.Valid() && rio.pos >= old(rio.pos)
    ensures wf ==> (rio.cut <= |more| ==> ok) && (ok ==> Pairs(rio.full, rio.pos, sc, strings, h, i + 1, n, more))
  {
    hide *;
    h := h0;
    if wf { PairAhead(rio.full, rio.pos, sc, strings, h0, i, n, more); }
    var field, value;
    ok, field := LoadNext(rio, sc, strings, 2 * i, more, wf);
    if !ok { return; }
    ok, value := LoadNext(rio, sc, strings, 2 * i + 1, more, wf);
    if !ok { return; }
    if wf { PairTaken(rio.full, old(rio.pos), rio.pos, sc, strings, h0, i, n, more); }
    h := h0[field := value];
  }

  /** The two loops of the source, before and after the conversion to a table, as one. */
  method LoadHash(rio: Rio, n: nat, ghost sc: seq<bytes>, ghost strings: seq<bytes>, ghost more: bytes, ghost wf: bool)
    returns (ok: bool, h: map<bytes, bytes>)
    requires rio.Valid() && (wf ==> 2 * n == |strings| && Strings(rio.full, rio.pos, sc, strings, 0, more))
    modifies rio`pos, rio`cksum
    ensures rio.Valid() && rio.pos >= old(rio.pos)
    ensures wf ==> (rio.cut <= |more| ==> ok) && (ok ==> h == ToMap(strings) && At(rio.full, rio.pos, more))
  {
    hide *;
    ok, h := true, map[];
    var len := n;
    if wf { NoPairs(rio.full, rio.pos, sc, strings, n, more); }
    while len > 0
      invariant 0 <= len <= n && ok && rio.Valid() && rio.pos >= old(rio.pos)
      invariant wf ==> Pairs(rio.full, rio.pos, sc, strings, h, n - len, n, more)
    {
      ghost var i := n - len;
      len := len - 1;
      ok, h := LoadPair(rio, h, sc, strings, i, n, more, wf);
      if !ok { return; }
    }
    if wf { AllPairs(rio.full, rio.pos, sc, strings, h, n, more); }
  }

  // ---- objects

  lemma CountAhead(kind: nat, sc: seq<bytes>, strings: seq<bytes>, more: bytes)
    requires RecOk(Entry(None, kind, [], strings)) && AllStrings(sc, strings) && HasCount(kind)
    ensures CountOf(kind, |sc|) < REDIS_RDB_LENERR && (kind == TYPE_HASH ==> 2 * CountOf(kind, |sc|) == |strings|)
    ensures Body(kind, sc) + more == HeadCode(Length(CountOf(kind, |sc|))) + (Cat(sc) + more)
  {
    Assoc(LenCode(CountOf(kind, |sc|)), Cat(sc), more);
  }

  lemma OneAhead(kind: nat, sc: seq<bytes>, strings: seq<bytes>, more: bytes)
    requires RecOk(Entry(None, kind, [], strings)) && AllStrings(sc, strings) && !HasCount(kind)
    ensures |sc| == |strings| == 1 && IsString(sc[0], strings[0]) && Body(kind, sc) + more == sc[0] + more
  {
    assert sc == [sc[0]];
    CatOne(sc[0]);
  }

  lemma StringsAt(data: bytes, pos: nat, sc: seq<bytes>, strings: seq<bytes>, more: bytes)
    requires AllStrings(sc, strings) && At(data, pos, Cat(sc) + more)
    ensures Strings(data, pos, sc, strings, 0, more)
  {
    assert sc[0..] == sc;
  }

  /** The object of a record is ahead. */
  ghost predicate ObjectAhead(data: bytes, pos: nat, kind: nat, sc: seq<bytes>, strings: seq<bytes>, more: bytes) {
    && RecOk(Entry(None, kind, [], strings)) && AllStrings(sc, strings)
    && At(data, pos, Body(kind, sc) + more)
  }

  /** rdbLoadObject, of the types that are modelled. */
  method LoadObject(rio: Rio, kind: nat, unpack: Unpack, ghost sc: seq<bytes>, ghost strings: seq<bytes>, ghost more: bytes, ghost wf: bool)
    returns (ok: bool, v: Value)
    requires rio.Valid() && (wf ==> ObjectAhead(rio.full, rio.pos, kind, sc, strings, more))
    modifies rio`pos, rio`cksum
    ensures rio.Valid() && rio.pos >= old(rio.pos)
    ensures !IsType(kind) ==> !ok
    ensures wf ==> (rio.cut <= |more| ==> ok) && (ok ==> At(rio.full, rio.pos, more))
    ensures wf && ok ==> IsType(kind) && (!HasCount(kind) ==> |strings| == 1) && v == ValueOf(unpack, kind, strings)
  {
    if HasCount(kind) {
      ok, v := LoadCollection(rio, kind, sc, strings, more, wf);
      return;
    }
    ok, v := false, Str([]);
    if !IsType(kind) { return; }
    if wf { OneAhead(kind, sc, strings, more); }
    ghost var code, text := [], [];
    if wf { code, text := sc[0], strings[0]; }
    hide At, IsString, Body, AllStrings, Rio.Valid;
    var s;
    ok, s := LoadString(rio, code, text, more);
    v := if kind == TYPE_STRING then Str(s) else unpack(kind, s);
  }

  method LoadCollection(rio: Rio, kind: nat, ghost sc: seq<bytes>, ghost strings: seq<bytes>, ghost more: bytes, ghost wf: bool)
    returns (ok: bool, v: Value)
    requires rio.Valid() && HasCount(kind) && (wf ==> ObjectAhead(rio.full, rio.pos, kind, sc, strings, more))
    modifies rio`pos, rio`cksum
    ensures rio.Valid() && rio.pos >= old(rio.pos)
    ensures wf ==> (rio.cut <= |more| ==> ok) && (ok ==> At(rio.full, rio.pos, more))
    ensures wf && ok ==>
      v == if kind == TYPE_LIST then List(strings) else if kind == TYPE_SET then Members(ToSet(strings)) else Hash(ToMap(strings))
  {
    ghost var n := if wf then CountOf(kind, |sc|) else 0;
    if wf { CountAhead(kind, sc, strings, more); }
    ok, v := false, Str([]);
    hide At, IsString, Body, Cat, Rio.Valid, ToSet, ToMap, HeadCode, Strings;
    var len, e := LoadLen(rio, Length(n), Cat(sc) + more);
    if len == REDIS_RDB_LENERR { return; }
    if wf { StringsAt(rio.full, rio.pos, sc, strings, more); }
    if kind == TYPE_LIST {
      var l;
      ok, l := LoadList(rio, len, sc, strings, more, wf);
      v := List(l);
    } else if kind == TYPE_SET {
      var m;
      ok, m := LoadSet(rio, len, sc, strings, more, wf);
      v := Members(m);
    } else {
      var h;
      ok, h := LoadHash(rio, len, sc, strings, more, wf);
      v := Hash(h);
    }
  }

  // ---- records

  /** What one turn of the main loop found. */
  datatype Found = Nothing | Eof | Db(id: nat) | Key(expire: Option<int>, key: bytes, val: Value)

  ghost predicate Matches(unpack: Unpack, f: Found, r: Rec) {
    match r
    case End => f == Eof
    case UseDb(j) => f == Db(j)
    case Entry(expire, kind, key, strings, _) =>
      IsType(kind) && (!HasCount(kind) ==> |strings| == 1) && f == Key(expire, key, ValueOf(unpack, kind, strings))
  }

  /** A record is ahead. */
  ghost predicate RecAhead(data: bytes, pos: nat, r: Rec, kc: bytes, sc: seq<bytes>, more: bytes) {
    Coded(r, kc, sc) && At(data, pos, RecCode(r, kc, sc) + more)
  }

  /** rdbLoadType */
  method LoadType(rio: Rio, ghost t: byte, ghost more: bytes) returns (ok: bool, kind: byte)
    requires rio.Valid()
    modifies rio`pos, rio`cksum
    ensures rio.Valid() && rio.pos >= old(rio.pos) && (ok ==> rio.pos > old(rio.pos))
    ensures At(rio.full, old(rio.pos), [t] + more) ==>
      (rio.cut <= |more| ==> ok) && (ok ==> kind == t && At(rio.full, rio.pos, more))
  {
    hide At, Rio.Valid;
    var b;
    ok, b := rio.Read(1, [t], more);
    kind := if ok then b[0] else 0;
  }

  /** rdbLoadMillisecondTime: -1 on error, or when that is what is stored. */
  method LoadMillisecondTime(rio: Rio, ghost w: int, ghost more: bytes) returns (t: int)
    requires rio.Valid()
    modifies rio`pos, rio`cksum
    ensures rio.Valid() && rio.pos >= old(rio.pos)
    ensures InLL(w) && At(rio.full, old(rio.pos), EncodeInt(w, 8) + more) ==>
      (rio.cut <= |more| || t != -1 ==> t == w && At(rio.full, rio.pos, more))
  {
    if InLL(w) {
      Ranges();
      DecodeEncode(w, 8);
    }
    hide *;
    var ok, b := rio.Read(8, EncodeInt(w, 8), more);
    t := if ok then DecodeInt(b) else -1;
  }

  /** rdbLoadTime: 4 bytes, of older dumps. */
  method LoadTime(rio: Rio, ghost w: int, ghost more: bytes) returns (t: int)
    requires rio.Valid()
    modifies rio`pos, rio`cksum
    ensures rio.Valid() && rio.pos >= old(rio.pos)
    ensures In32(w) && At(rio.full, old(rio.pos), EncodeInt(w, 4) + more) ==>
      (rio.cut <= |more| || t != -1 ==> t == w && At(rio.full, rio.pos, more))
  {
    if In32(w) {
      Powers();
      DecodeEncode(w, 4);
    }
    hide *;
    var ok, b := rio.Read(4, EncodeInt(w, 4), more);
    t := if ok then DecodeInt(b) else -1;
  }

  /** After its expire, if any: the type, the key and the object of a record. */
  ghost predicate TypedAhead(data: bytes, pos: nat, kind: byte, r: Rec, kc: bytes, sc: seq<bytes>, more: bytes) {
    && Coded(r, kc, sc)
    && match r
       case End => kind == OPCODE_EOF && At(data, pos, more)
       case UseDb(j) => kind == OPCODE_SELECTDB && At(data, pos, LenCode(j) + more)
       case Entry(_, k, key, _, _) => kind == k && At(data, pos, kc + (Body(k, sc) + more))
  }

  /** The first byte of a record, and what is left of it. */
  function FirstByte(r: Rec): byte
    requires RecOk(r)
  {
    match r
    case End => OPCODE_EOF
    case UseDb(_) => OPCODE_SELECTDB
    case Entry(expire, kind, _, _, _) =>
      if expire.None? then kind else if r.inSeconds then OPCODE_EXPIRETIME else OPCODE_EXPIRETIME_MS
  }

  function AfterFirst(r: Rec, kc: bytes, sc: seq<bytes>): bytes
    requires Coded(r, kc, sc)
  {
    match r
    case End => []
    case UseDb(j) => LenCode(j)
    case Entry(expire, kind, _, _, _) =>
      if expire.None? then kc + Body(kind, sc)
      else if r.inSeconds then EncodeInt(expire.value / 1000, 4) + KeyValue(kind, kc, sc)
      else EncodeInt(expire.value, 8) + KeyValue(kind, kc, sc)
  }

  lemma FirstIs(r: Rec, kc: bytes, sc: seq<bytes>, more: bytes)
    requires Coded(r, kc, sc)
    ensures RecCode(r, kc, sc) + more == [FirstByte(r)] + (AfterFirst(r, kc, sc) + more)
  {
    hide LenCode, EncodeInt, IsString, Body;
    var c := RecCode(r, kc, sc);
    assert c == [FirstByte(r)] + AfterFirst(r, kc, sc);
    Assoc([FirstByte(r)], AfterFirst(r, kc, sc), more);
  }

  ghost predicate ExpireIs(expire: int, r: Rec) {
    r.Entry? ==> expire == if r.expire.Some? then r.expire.value else -1
  }

  lemma NoExpire(data: bytes, pos: nat, r: Rec, kc: bytes, sc: seq<bytes>, more: bytes)
    requires Coded(r, kc, sc) && !(r.Entry? && r.expire.Some?) && At(data, pos, AfterFirst(r, kc, sc) + more)
    ensures FirstByte(r) != OPCODE_EXPIRETIME && FirstByte(r) != OPCODE_EXPIRETIME_MS
    ensures TypedAhead(data, pos, FirstByte(r), r, kc, sc, more) && ExpireIs(-1, r)
  {
    NoMore(more);
    if r.Entry? { Assoc(kc, Body(r.kind, sc), more); }
    hide LenCode, IsString, Body, At;
  }

  lemma SomeExpire(r: Rec, kc: bytes, sc: seq<bytes>, more: bytes)
    requires Coded(r, kc, sc) && r.Entry? && r.expire.Some?
    ensures r.kind < 256 && InLL(r.expire.value) && r.expire.value >= 0
    ensures FirstByte(r) == if r.inSeconds then OPCODE_EXPIRETIME else OPCODE_EXPIRETIME_MS
    ensures r.inSeconds ==> In32(r.expire.value / 1000) && r.expire.value / 1000 * 1000 == r.expire.value
    ensures AfterFirst(r, kc, sc) + more
      == (if r.inSeconds then EncodeInt(r.expire.value / 1000, 4) else EncodeInt(r.expire.value, 8)) + ([r.kind] + (kc + (Body(r.kind, sc) + more)))
  {
    var body := Body(r.kind, sc);
    var e := if r.inSeconds then EncodeInt(r.expire.value / 1000, 4) else EncodeInt(r.expire.value, 8);
    hide LenCode, IsString, Body, EncodeInt;
    assert AfterFirst(r, kc, sc) == e + ([r.kind] + (kc + body));
    Assoc(e, [r.kind] + (kc + body), more);
    Assoc([r.kind], kc + body, more);
    Assoc(kc, body, more);
  }

  lemma ExpireRead(data: bytes, pos: nat, r: Rec, kc: bytes, sc: seq<bytes>, more: bytes)
    requires Coded(r, kc, sc) && r.Entry? && r.expire.Some? && r.kind < 256 && At(data, pos, kc + (Body(r.kind, sc) + more))
    ensures TypedAhead(data, pos, r.kind, r, kc, sc, more) && ExpireIs(r.expire.value, r)
  {
    hide LenCode, IsString, Body, At;
  }

  /** Lines 1111-1126: the type of the next record, after its expire if it has one. */
  method LoadExpire(rio: Rio, ghost r: Rec, ghost kc: bytes, ghost sc: seq<bytes>, ghost more: bytes, ghost wf: bool)
    returns (ok: bool, kind: byte, expire: int)
    requires rio.Valid() && (wf ==> RecAhead(rio.full, rio.pos, r, kc, sc, more))
    modifies rio`pos, rio`cksum
    ensures rio.Valid() && (ok ==> rio.pos > old(rio.pos))
    ensures wf ==> (rio.cut <= |more| ==> ok) && (ok ==> TypedAhead(rio.full, rio.pos, kind, r, kc, sc, more) && ExpireIs(expire, r))
  {
    ghost var first: byte, rest: bytes := 0, [];
    ghost var timed := wf && r.Entry? && r.expire.Some?;
    if wf {
      FirstIs(r, kc, sc, more);
      first, rest := FirstByte(r), AfterFirst(r, kc, sc) + more;
    }
    if timed { SomeExpire(r, kc, sc, more); }
    assert wf ==> Coded(r, kc, sc);
    assert OPCODE_EXPIRETIME != OPCODE_EXPIRETIME_MS;
    hide *;
    expire := -1;
    ok, kind := LoadType(rio, first, rest);
    if !ok { return; }
    if wf && !timed { NoExpire(rio.full, rio.pos, r, kc, sc, more); }
    if kind == OPCODE_EXPIRETIME {
      ok, kind, expire := LoadSeconds(rio, r, kc, sc, more, timed);
    } else if kind == OPCODE_EXPIRETIME_MS {
      ok, kind, expire := LoadMilliseconds(rio, r, kc, sc, more, timed);
    }
  }

  method LoadSeconds(rio: Rio, ghost r: Rec, ghost kc: bytes, ghost sc: seq<bytes>, ghost more: bytes, ghost wf: bool)
    returns (ok: bool, kind: byte, expire: int)
    requires rio.Valid()
    requires wf ==> r.Entry? && r.expire.Some? && r.inSeconds && Coded(r, kc, sc) && At(rio.full, rio.pos, AfterFirst(r, kc, sc) + more)
    modifies rio`pos, rio`cksum
    ensures rio.Valid() && rio.pos >= old(rio.pos)
    ensures wf ==> (rio.cut <= |more| ==> ok) && (ok ==> TypedAhead(rio.full, rio.pos, kind, r, kc, sc, more) && ExpireIs(expire, r))
  {
    ghost var w, k: byte, rest: bytes := 0, 0, [];
    if wf {
      SomeExpire(r, kc, sc, more);
      w, k, rest := r.expire.value / 1000, r.kind, kc + (Body(r.kind, sc) + more);
    }
    hide *;
    ok, kind := false, 0;
    expire := LoadTime(rio, w, [k] + rest);
    if expire == -1 { return; }
    ok, kind := LoadType(rio, k, rest);
    expire := expire * 1000;
    if wf && ok { ExpireRead(rio.full, rio.pos, r, kc, sc, more); }
  }

  method LoadMilliseconds(rio: Rio, ghost r: Rec, ghost kc: bytes, ghost sc: seq<bytes>, ghost more: bytes, ghost wf: bool)
    returns (ok: bool, kind: byte, expire: int)
    requires rio.Valid()
    requires wf ==> r.Entry? && r.expire.Some? && !r.inSeconds && Coded(r, kc, sc) && At(rio.full, rio.pos, AfterFirst(r, kc, sc) + more)
    modifies rio`pos, rio`cksum
    ensures rio.Valid() && rio.pos >= old(rio.pos)
    ensures wf ==> (rio.cut <= |more| ==> ok) && (ok ==> TypedAhead(rio.full, rio.pos, kind, r, kc, sc, more) && ExpireIs(expire, r))
  {
    ghost var w, k: byte, rest: bytes := 0, 0, [];
    if wf {
      SomeExpire(r, kc, sc, more);
      w, k, rest := r.expire.value, r.kind, kc + (Body(r.kind, sc) + more);
    }
    hide *;
    ok, kind := false, 0;
    expire := LoadMillisecondTime(rio, w, [k] + rest);
    if expire == -1 { return; }
    ok, kind := LoadType(rio, k, rest);
    if wf && ok { ExpireRead(rio.full, rio.pos, r, kc, sc, more); }
  }

  lemma KeyAhead(data: bytes, pos: nat, kind: byte, r: Rec, kc: bytes, sc: seq<bytes>, more: bytes)
    requires TypedAhead(data, pos, kind, r, kc, sc, more) && r.Entry?
    ensures IsString(kc, r.key) && kind == r.kind && kind != OPCODE_EOF && kind != OPCODE_SELECTDB
    ensures At(data, pos, kc + (Body(r.kind, sc) + more))
  {
    hide IsString, Body, At;
  }

  lemma OtherAhead(data: bytes, pos: nat, kind: byte, r: Rec, kc: bytes, sc: seq<bytes>, more: bytes)
    requires TypedAhead(data, pos, kind, r, kc, sc, more) && !r.Entry?
    ensures r.End? ==> kind == OPCODE_EOF && At(data, pos, more)
    ensures r.UseDb? ==> kind == OPCODE_SELECTDB && r.db < REDIS_RDB_LENERR && At(data, pos, HeadCode(Length(r.db)) + more)
  {
    hide LenCode, At;
  }

  lemma BodyAhead(data: bytes, pos: nat, r: Rec, kc: bytes, sc: seq<bytes>, more: bytes)
    requires Coded(r, kc, sc) && r.Entry? && At(data, pos, Body(r.kind, sc) + more)
    ensures ObjectAhead(data, pos, r.kind, sc, r.strings, more)
  {
    hide IsString, Body, At;
  }

  /** One turn of the loop of rdbLoad, up to what it does with what it read. */
  method LoadRecord(rio: Rio, unpack: Unpack, ghost r: Rec, ghost kc: bytes, ghost sc: seq<bytes>, ghost more: bytes, ghost wf: bool)
    returns (f: Found)
    requires rio.Valid() && (wf ==> RecAhead(rio.full, rio.pos, r, kc, sc, more))
    modifies rio`pos, rio`cksum
    ensures rio.Valid() && (f != Nothing ==> rio.pos > old(rio.pos))
    ensures wf ==> (rio.cut <= |more| ==> f != Nothing) && (f != Nothing ==> Matches(unpack, f, r) && At(rio.full, rio.pos, more))
  {
    f := Nothing;
    assert OPCODE_EOF != OPCODE_SELECTDB;
    if wf { CodedAhead(rio.full, rio.pos, r, kc, sc, more); }
    hide *;
    var ok, kind, expire := LoadExpire(rio, r, kc, sc, more, wf);
    if !ok { return; }
    if wf {
      if r.Entry? {
        KeyAhead(rio.full, rio.pos, kind, r, kc, sc, more);
      } else {
        OtherAhead(rio.full, rio.pos, kind, r, kc, sc, more);
      }
    }
    if kind == OPCODE_EOF {
      if wf { FoundEof(unpack, r); }
      return Eof;
    }
    if kind == OPCODE_SELECTDB {
      f := LoadDbId(rio, unpack, r, more, wf);
      return;
    }
    f := LoadKey(rio, unpack, kind, expire, r, kc, sc, more, wf);
  }

  lemma CodedAhead(data: bytes, pos: nat, r: Rec, kc: bytes, sc: seq<bytes>, more: bytes)
    requires RecAhead(data, pos, r, kc, sc, more)
    ensures Coded(r, kc, sc)
  {}

  lemma FoundEof(unpack: Unpack, r: Rec)
    requires r.End?
    ensures Matches(unpack, Eof, r)
  {}

  method LoadDbId(rio: Rio, ghost unpack: Unpack, ghost r: Rec, ghost more: bytes, ghost wf: bool) returns (f: Found)
    requires rio.Valid()
    requires wf ==> r.UseDb? && r.db < REDIS_RDB_LENERR && At(rio.full, rio.pos, HeadCode(Length(r.db)) + more)
    modifies rio`pos, rio`cksum
    ensures rio.Valid() && rio.pos >= old(rio.pos)
    ensures wf ==> (rio.cut <= |more| ==> f != Nothing) && (f != Nothing ==> Matches(unpack, f, r) && At(rio.full, rio.pos, more))
  {
    hide At, LenCode, Rio.Valid;
    var dbid, e := LoadLen(rio, Length(if wf then r.db else 0), more);
    f := if dbid == REDIS_RDB_LENERR then Nothing else Db(dbid);
  }

  method LoadKey(rio: Rio, unpack: Unpack, kind: byte, expire: int, ghost r: Rec, ghost kc: bytes, ghost sc: seq<bytes>,
                 ghost more: bytes, ghost wf: bool)
    returns (f: Found)
    requires rio.Valid()
    requires wf ==> r.Entry? && Coded(r, kc, sc) && IsString(kc, r.key) && kind == r.kind && ExpireIs(expire, r)
    requires wf ==> At(rio.full, rio.pos, kc + (Body(r.kind, sc) + more))
    modifies rio`pos, rio`cksum
    ensures rio.Valid() && rio.pos >= old(rio.pos)
    ensures wf ==> (rio.cut <= |more| ==> f != Nothing) && (f != Nothing ==> Matches(unpack, f, r) && At(rio.full, rio.pos, more))
  {
    ghost var s, rest, strings := [], [], [];
    if wf {
      s, rest, strings := r.key, Body(r.kind, sc) + more, r.strings;
      ExpireFacts(expire, r, kc, sc);
    }
    hide *;
    f := Nothing;
    var ok, key := LoadString(rio, kc, s, rest);
    if !ok { return; }
    if wf { BodyAhead(rio.full, rio.pos, r, kc, sc, more); }
    var val;
    ok, val := LoadObject(rio, kind, unpack, sc, strings, more, wf);
    if !ok { return; }
    f := Key(if expire != -1 then Some(expire) else None, key, val);
    if wf { FoundKey(unpack, f, expire, r); }
  }

  lemma ExpireFacts(expire: int, r: Rec, kc: bytes, sc: seq<bytes>)
    requires Coded(r, kc, sc) && r.Entry? && ExpireIs(expire, r)
    ensures r.expire == if expire != -1 then Some(expire) else None
  {
    hide IsString;
  }

  lemma FoundKey(unpack: Unpack, f: Found, expire: int, r: Rec)
    requires r.Entry? && IsType(r.kind) && (!HasCount(r.kind) ==> |r.strings| == 1)
    requires f == Key(r.expire, r.key, ValueOf(unpack, r.kind, r.strings))
    ensures Matches(unpack, f, r)
  {
    hide ValueOf;
  }

  // ---- the whole file

  /** `k` records were loaded, and gave `st`. */
  ghost predicate Loading(unpack: Unpack, now: Option<int>, data: bytes, pos: nat, recs: seq<Rec>, codes: seq<bytes>, tail: bytes,
                          dbnum: nat, k: nat, st: State) {
    && 0 < dbnum && AllRecs(codes, recs) && Typed(recs) && k <= |recs| && Typed(recs[..k])
    && At(data, pos, Cat(codes[k..]) + ([OPCODE_EOF] + tail))
    && LoadAll(unpack, now, State(NoData(dbnum), 0), recs) != None
    && LoadAll(unpack, now, State(NoData(dbnum), 0), recs[..k]) == Some(st)
  }

  /** The next record of the file; after the last one, the EOF opcode. */
  lemma NextRecord(unpack: Unpack, now: Option<int>, data: bytes, pos: nat, recs: seq<Rec>, codes: seq<bytes>, tail: bytes,
                   dbnum: nat, k: nat, st: State)
    returns (r: Rec, kc: bytes, sc: seq<bytes>, more: bytes)
    requires Loading(unpack, now, data, pos, recs, codes, tail, dbnum, k, st)
    ensures RecAhead(data, pos, r, kc, sc, more)
    ensures if k < |recs| then r == recs[k] && !r.End? && more == Cat(codes[k + 1..]) + ([OPCODE_EOF] + tail) else r == End && more == tail
  {
    if k < |recs| {
      r, more := recs[k], Cat(codes[k + 1..]) + ([OPCODE_EOF] + tail);
      assert IsRec(codes[k], r) && !r.End?;
      kc, sc :| Coded(r, kc, sc) && codes[k] == RecCode(r, kc, sc);
      CatHead(codes, k);
      Assoc(codes[k], Cat(codes[k + 1..]), [OPCODE_EOF] + tail);
    } else {
      r, kc, sc, more := End, [], [], tail;
      assert codes[k..] == [] && Cat(codes[k..]) == [];
      NoMore([OPCODE_EOF] + tail);
    }
    hide Cat, IsString, LoadAll;
  }

  lemma TypedParts(recs: seq<Rec>, k: nat)
    requires Typed(recs) && k < |recs|
    ensures Typed(recs[..k]) && Typed([recs[k]]) && Typed(recs[..k + 1]) && Typed(recs[k + 1..])
    ensures recs[..k + 1] == recs[..k] + [recs[k]] && recs == recs[..k + 1] + recs[k + 1..]
    ensures recs[k].Entry? ==> IsType(recs[k].kind) && (!HasCount(recs[k].kind) ==> |recs[k].strings| == 1)
  {}

  lemma StepLoaded(unpack: Unpack, now: Option<int>, st0: State, recs: seq<Rec>, k: nat, st: State)
    requires st0.db < |st0.data| && Typed(recs) && k < |recs| && Typed(recs[..k])
    requires LoadAll(unpack, now, st0, recs) != None && LoadAll(unpack, now, st0, recs[..k]) == Some(st)
    ensures st.db < |st.data| == |st0.data| && Typed(recs[..k + 1])
    ensures recs[k].Entry? ==> IsType(recs[k].kind) && (!HasCount(recs[k].kind) ==> |recs[k].strings| == 1)
    ensures LoadRec(unpack, now, st, recs[k]).Some? && LoadAll(unpack, now, st0, recs[..k + 1]) == LoadRec(unpack, now, st, recs[k])
  {
    TypedParts(recs, k);
    hide *;
    LoadConcat(unpack, now, st0, recs[..k], [recs[k]]);
    LoadOne(unpack, now, st, recs[k]);
    LoadConcat(unpack, now, st0, recs[..k + 1], recs[k + 1..]);
  }

  /** What the record does to the state, the record that comes after it being ahead. */
  lemma RecordLoaded(unpack: Unpack, now: Option<int>, data: bytes, pos: nat, pos': nat, recs: seq<Rec>, codes: seq<bytes>, tail: bytes,
                     dbnum: nat, k: nat, st: State)
    requires Loading(unpack, now, data, pos, recs, codes, tail, dbnum, k, st) && k < |recs|
    requires At(data, pos', Cat(codes[k + 1..]) + ([OPCODE_EOF] + tail))
    ensures st.db < |st.data| == dbnum && (recs[k].Entry? ==> IsType(recs[k].kind) && (!HasCount(recs[k].kind) ==> |recs[k].strings| == 1))
    ensures var s := LoadRec(unpack, now, st, recs[k]);
      s.Some? && Loading(unpack, now, data, pos', recs, codes, tail, dbnum, k + 1, s.value)
  {
    hide LoadRec, LoadAll, Cat, At, Typed;
    StepLoaded(unpack, now, State(NoData(dbnum), 0), recs, k, st);
  }

  lemma LoadingDone(unpack: Unpack, now: Option<int>, data: bytes, pos: nat, recs: seq<Rec>, codes: seq<bytes>, tail: bytes,
                    dbnum: nat, k: nat, st: State)
    requires Loading(unpack, now, data, pos, recs, codes, tail, dbnum, k, st) && k >= |recs|
    ensures LoadAll(unpack, now, State(NoData(dbnum), 0), recs) == Some(st)
  {
    assert recs[..k] == recs;
    hide LoadAll;
  }

  /** Whether the file begins as a dump of a version that is understood. */
  method Header(rio: Rio, ghost more: bytes) returns (ok: bool, version: int)
    requires rio.Valid()
    modifies rio`pos, rio`cksum
    ensures rio.Valid() && (ok ==> rio.pos == old(rio.pos) + 9 && |rio.data| >= rio.pos)
    ensures old(rio.pos) + 9 <= |rio.data| ==> HeaderIs(rio.data[old(rio.pos)..old(rio.pos) + 9], ok, version)
    ensures At(rio.full, old(rio.pos), MAGIC + more) ==>
      (rio.cut <= |more| ==> ok) && (ok ==> version == 6 && At(rio.full, rio.pos, more))
  {
    MagicLength();
    hide *;
    version := 0;
    var buf;
    ok, buf := rio.Read(9, MAGIC, more);
    if !ok { return; }
    ok, version := ParseHeader(buf);
    MagicIs(ok, version);
  }

  /** Five letters, and a version from 1 to 6; four digits are that number. */
  ghost predicate HeaderIs(head: bytes, ok: bool, version: int) {
    && |head| == 9 && (ok ==> head[..5] == MAGIC[..5] && 1 <= version <= 6)
    && (AllDigits(head[5..9]) ==>
          && (ok <==> head[..5] == MAGIC[..5] && 1 <= Decimal.Value(head[5..9]) <= 6)
          && (ok ==> version == Decimal.Value(head[5..9])))
  }

  lemma MagicIs(ok: bool, version: int)
    ensures HeaderIs(MAGIC, ok, version) ==> ok && version == 6
  {
    MagicVersion();
    assert MAGIC[5..] == MAGIC[5..9];
    hide Decimal.Value;
  }

  method ParseHeader(head: bytes) returns (ok: bool, version: int)
    requires |head| == 9
    ensures HeaderIs(head, ok, version)
  {
    hide Decimal.Value, AllDigits;
    assert head[5..] == head[5..9];
    if AllDigits(head[5..]) { FewDigits(head[5..]); }
    if head[..5] != MAGIC[..5] { return false, 0; }
    var end;
    version, end := Strtoll(head[5..]);
    ok := 1 <= version <= 6;
  }

  lemma {:induction false} FewDigits(s: bytes)
    requires AllDigits(s) && |s| <= 4
    ensures Decimal.Value(s) <= 9999
  {
    if s != [] {
      var s1 := s[..|s| - 1];
      if s1 != [] {
        var s2 := s1[..|s1| - 1];
        if s2 != [] {
          var s3 := s2[..|s2| - 1];
          assert s3 != [] ==> s3[..|s3| - 1] == [];
          assert Decimal.Value(s3) <= 9;
        }
        assert Decimal.Value(s2) <= 99;
      }
      assert Decimal.Value(s1) <= 999;
    }
  }

  lemma MagicVersion()
    ensures AllDigits(MAGIC[5..]) && Decimal.Value(MAGIC[5..]) == 6
  {
    var s := MAGIC[5..];
    assert s == [48, 48, 48, 54];
    assert s[..3] == [48, 48, 48] && s[..3][..2] == [48, 48] && s[..3][..2][..1] == [48] && s[..3][..2][..1][..0] == [];
    assert Decimal.Value(s[..3][..2][..1]) == 0;
    assert Decimal.Value(s[..3][..2]) == 0;
    assert Decimal.Value(s[..3]) == 0;
  }

  datatype Turned = More(st: State) | Ended | GivenUp

  /** Lines 1128-1162: what becomes of a record. */
  method Apply(f: Found, st: State, now: Option<int>) returns (t: Turned)
    requires st.db < |st.data|
    ensures t.More? ==> t.st.db < |t.st.data| == |st.data|
    ensures t == match f
      case Nothing => GivenUp
      case Eof => Ended
      case Db(id) => if id < |st.data| then More(State(st.data, id)) else GivenUp
      case Key(expire, key, val) => match AddKey(now, st, expire, key, val) case None => GivenUp case Some(s) => More(s)
  {
    match f
    case Nothing => t := GivenUp;
    case Eof => t := Ended;
    case Db(id) =>
      t := if id >= |st.data| then GivenUp else More(State(st.data, id));
    case Key(expire, key, val) =>
      if now.Some? && expire.Some? && expire.value < now.value {
        t := More(st);
      } else if key in st.data[st.db] {
        t := GivenUp;
      } else {
        t := More(State(Put(st.data, st.db, key, Obj(val, expire)), st.db));
      }
  }

  lemma Applied(unpack: Unpack, f: Found, st: State, now: Option<int>, r: Rec, t: Turned)
    requires st.db < |st.data| && Matches(unpack, f, r) && !r.End?
    requires r.Entry? ==> IsType(r.kind) && (!HasCount(r.kind) ==> |r.strings| == 1)
    requires LoadRec(unpack, now, st, r).Some?
    requires t == match f
      case Nothing => GivenUp
      case Eof => Ended
      case Db(id) => if id < |st.data| then More(State(st.data, id)) else GivenUp
      case Key(expire, key, val) => match AddKey(now, st, expire, key, val) case None => GivenUp case Some(s) => More(s)
    ensures t.More? && LoadRec(unpack, now, st, r) == Some(t.st)
  {
    hide ValueOf, AddKey;
  }

  /** One turn of the loop of rdbLoad. */
  method Turn(rio: Rio, unpack: Unpack, now: Option<int>, st: State, ghost recs: seq<Rec>, ghost codes: seq<bytes>, ghost tail: bytes,
              ghost dbnum: nat, ghost k: nat, ghost wf: bool)
    returns (t: Turned)
    requires rio.Valid() && st.db < |st.data|
    requires wf ==> Loading(unpack, now, rio.full, rio.pos, recs, codes, tail, dbnum, k, st)
    modifies rio`pos, rio`cksum
    ensures rio.Valid() && (t != GivenUp ==> rio.pos > old(rio.pos))
    ensures t.More? ==> t.st.db < |t.st.data| == |st.data|
    ensures wf && t != GivenUp && k < |recs| ==> t.More? && Loading(unpack, now, rio.full, rio.pos, recs, codes, tail, dbnum, k + 1, t.st)
    ensures wf && t != GivenUp && k >= |recs| ==> t == Ended && At(rio.full, rio.pos, tail)
    ensures wf && rio.cut <= |tail| ==> t != GivenUp
  {
    hide *;
    ghost var r, kc, sc, more := End, [], [], [];
    if wf { r, kc, sc, more := NextRecord(unpack, now, rio.full, rio.pos, recs, codes, tail, dbnum, k, st); }
    var f := LoadRecord(rio, unpack, r, kc, sc, more, wf);
    t := Apply(f, st, now);
    assert f == Nothing ==> t == GivenUp;
    if wf && f != Nothing {
      if k < |recs| {
        RecordLoaded(unpack, now, rio.full, old(rio.pos), rio.pos, recs, codes, tail, dbnum, k, st);
        Applied(unpack, f, st, now, r, t);
      } else {
        EndMatches(unpack, f);
      }
    }
  }

  lemma EndMatches(unpack: Unpack, f: Found)
    requires Matches(unpack, f, End)
    ensures f == Eof
  {}

  /** The 8 bytes at `e` are 0, or the checksum of all bytes before them. */
  ghost predicate EndsWell(file: bytes, e: nat) {
    e + 8 <= |file| && (GetSum(file[e..e + 8]) == 0 || Crc64.Reg(GetSum(file[e..e + 8])) == Sum(file[..e]))
  }

  /** The checksum of a dump, once the EOF opcode was read: accepted exactly if it is that of
      what was read, or 0. */
  method Verify(rio: Rio, ghost sum: bv64, ghost wf: bool) returns (ok: bool)
    requires rio.Valid() && (wf ==> At(rio.full, rio.pos, PutSum(sum)) && (rio.sums && sum != 0 ==> rio.cksum == sum))
    modifies rio`pos, rio`cksum
    ensures wf ==> (ok <==> !rio.sums || rio.cut == 0)
    ensures rio.sums ==> (ok <==> EndsWell(rio.data, old(rio.pos)))
  {
    if !rio.sums { return true; }
    var expected := rio.cksum;
    StoredSum(sum);
    ghost var data, pos := rio.data, rio.pos;
    TooShort(data, pos);
    if wf { SumLeft(rio, sum); }
    Running(rio);
    hide *;
    var b;
    ok, b := rio.Read(8, PutSum(sum), []);
    if !ok { return; }
    Judged(data, pos, expected, b);
    var cksum := GetSum(b);
    ok := cksum == 0 || cksum == expected;
  }

  lemma StoredSum(sum: bv64)
    ensures GetSum(PutSum(sum)) == sum && PutSum(sum) + [] == PutSum(sum) && |PutSum(sum)| == 8
  {
    GetPutSum(sum);
    hide GetSum, PutSum;
  }

  /** The stored checksum is all there only if nothing was cut off. */
  lemma SumLeft(rio: Rio, sum: bv64)
    requires rio.Valid() && At(rio.full, rio.pos, PutSum(sum))
    ensures rio.pos + 8 == |rio.data| + rio.cut
  {
    hide Sum, PutSum;
  }

  lemma TooShort(data: bytes, pos: nat)
    ensures pos + 8 > |data| ==> !EndsWell(data, pos)
  {
    hide Sum, GetSum;
  }

  lemma Running(rio: Rio)
    requires rio.Valid() && rio.sums
    ensures rio.pos <= |rio.data| && Crc64.Reg(rio.cksum) == Sum(rio.data[..rio.pos])
  {
    hide Sum;
  }

  lemma Judged(data: bytes, pos: nat, cksum: bv64, b: bytes)
    requires pos + 8 <= |data| && b == data[pos..pos + 8] && Crc64.Reg(cksum) == Sum(data[..pos])
    ensures EndsWell(data, pos) <==> GetSum(b) == 0 || GetSum(b) == cksum
  {
    hide Sum, GetSum;
  }

  /** The version that the file announces has a checksum at the end of the file. */
  predicate Checked(file: bytes) { |file| >= 9 && AllDigits(file[5..9]) && Decimal.Value(file[5..9]) >= 5 }

  /** `file` is what is left of a dump that can be loaded. */
  ghost predicate Loadable(file: bytes, whole: bytes, dbnum: nat, now: Option<int>, unpack: Unpack,
                           recs: seq<Rec>, codes: seq<bytes>, sum: bv64)
    requires dbnum > 0
  {
    file <= whole && IsDump(whole, recs, codes, sum) && Typed(recs) && LoadAll(unpack, now, State(NoData(dbnum), 0), recs).Some?
  }

  lemma LoadableMeans(file: bytes, whole: bytes, dbnum: nat, now: Option<int>, unpack: Unpack,
                      recs: seq<Rec>, codes: seq<bytes>, sum: bv64)
    requires dbnum > 0 && Loadable(file, whole, dbnum, now, unpack, recs, codes, sum)
    ensures file <= whole && |whole| >= 18 && (|file| == |whole| ==> file == whole)
    ensures IsDump(whole, recs, codes, sum) && AllRecs(codes, recs) && Typed(recs)
    ensures LoadAll(unpack, now, State(NoData(dbnum), 0), recs).Some?
    ensures At(whole, 0, MAGIC + (Cat(codes) + ([OPCODE_EOF] + PutSum(sum))))
  {
    DumpAhead(file, whole, recs, codes, sum);
    hide LoadAll, Cat, Sum, PutSum, AllRecs;
  }

  method OpenFile(file: bytes, sums: bool, ghost full: bytes, ghost body: bytes) returns (rio: Rio, ok: bool, version: int)
    requires file <= full
    ensures fresh(rio) && rio.Valid() && rio.data == file && rio.sums == sums && rio.full == full && rio.cut == |full| - |file|
    ensures ok ==> rio.pos == 9 <= |file| && file[..5] == MAGIC[..5] && (Checked(file) ==> version >= 5)
    ensures |file| >= 9 && AllDigits(file[5..9]) ==> (ok <==> file[..5] == MAGIC[..5] && 1 <= Decimal.Value(file[5..9]) <= 6)
    ensures At(full, 0, MAGIC + body) ==> (rio.cut <= |body| ==> ok) && (ok ==> version == 6 && At(full, rio.pos, body))
  {
    CheckedIs(file);
    if |file| >= 9 { HeadOf(file); }
    hide *;
    rio := new Rio(file, sums, _ => None, full);
    ok, version := Header(rio, body);
    if |file| >= 9 { HeaderMeans(file, ok, version); }
  }

  lemma HeadOf(file: bytes)
    requires |file| >= 9
    ensures file[0..0 + 9] == file[..9]
  {}

  lemma HeaderMeans(file: bytes, ok: bool, version: int)
    requires |file| >= 9 && HeaderIs(file[..9], ok, version)
    ensures ok ==> file[..5] == MAGIC[..5] && (Checked(file) ==> version >= 5)
    ensures AllDigits(file[5..9]) ==> (ok <==> file[..5] == MAGIC[..5] && 1 <= Decimal.Value(file[5..9]) <= 6)
  {
    assert file[..9][..5] == file[..5] && file[..9][5..9] == file[5..9];
    hide Decimal.Value, AllDigits;
  }

  lemma CheckedIs(file: bytes)
    ensures Checked(file) <==> |file| >= 9 && AllDigits(file[5..9]) && Decimal.Value(file[5..9]) >= 5
  {}

  /** The main loop: false when the server gives up, which it does not while only bytes of `tail`
      are missing. */
  method LoadRecords(rio: Rio, dbnum: nat, now: Option<int>, unpack: Unpack, ghost recs: seq<Rec>, ghost codes: seq<bytes>,
                     ghost tail: bytes, ghost wf: bool)
    returns (ended: bool, st: State)
    requires rio.Valid() && dbnum > 0 && rio.pos >= 9
    requires wf ==> Loading(unpack, now, rio.full, rio.pos, recs, codes, tail, dbnum, 0, State(NoData(dbnum), 0))
    modifies rio`pos, rio`cksum
    ensures rio.Valid() && (ended ==> rio.pos > 9)
    ensures wf ==> Typed(recs) && (rio.cut <= |tail| ==> ended)
    ensures wf && ended ==> At(rio.full, rio.pos, tail) && LoadAll(unpack, now, State(NoData(dbnum), 0), recs) == Some(st)
  {
    st := State(NoData(dbnum), 0);
    if wf { LoadingTyped(unpack, now, rio.full, rio.pos, recs, codes, tail, dbnum, 0, st); }
    ghost var k := 0;
    var t := More(st);
    hide *;
    while t.More?
      invariant rio.Valid() && (t.More? ==> t.st.db < |t.st.data| == dbnum)
      invariant t != GivenUp ==> rio.pos >= 9 && (t == Ended ==> rio.pos > 9)
      invariant wf && t.More? ==> Loading(unpack, now, rio.full, rio.pos, recs, codes, tail, dbnum, k, t.st)
      invariant wf && t == Ended ==> At(rio.full, rio.pos, tail) && LoadAll(unpack, now, State(NoData(dbnum), 0), recs) == Some(st)
      invariant wf && rio.cut <= |tail| ==> t != GivenUp
      decreases t.More?, |rio.data| - rio.pos
    {
      st := t.st;
      if wf && k >= |recs| { LoadingDone(unpack, now, rio.full, rio.pos, recs, codes, tail, dbnum, k, st); }
      t := Turn(rio, unpack, now, st, recs, codes, tail, dbnum, k, wf);
      InStream(rio);
      k := k + 1;
    }
    ended := t == Ended;
  }

  lemma LoadingTyped(unpack: Unpack, now: Option<int>, data: bytes, pos: nat, recs: seq<Rec>, codes: seq<bytes>, tail: bytes,
                     dbnum: nat, k: nat, st: State)
    requires Loading(unpack, now, data, pos, recs, codes, tail, dbnum, k, st)
    ensures Typed(recs) && LoadAll(unpack, now, State(NoData(dbnum), 0), recs).Some?
  {}

  /** rdbLoad; `now` is None when the server has a master. A dump is loaded as its records say,
      and what is left of one is loaded if and only if nothing is missing, or, with checksums
      off, nothing but bytes of the checksum. Any file of a version with a checksum that is
      accepted held, where reading ended, a checksum of 0 or that of all bytes before it. */
  method Load(file: bytes, dbnum: nat, now: Option<int>, sums: bool, unpack: Unpack,
              ghost whole: bytes, ghost recs: seq<Rec>, ghost codes: seq<bytes>, ghost sum: bv64)
    returns (res: Result, ghost end: nat)
    requires dbnum > 0
    ensures Loadable(file, whole, dbnum, now, unpack, recs, codes, sum) ==>
      && (res.Success? <==> if sums then file == whole else |file| + 8 >= |whole|)
      && (res.Success? ==> res.data == LoadAll(unpack, now, State(NoData(dbnum), 0), recs).value.data)
    ensures res.Success? && sums && Checked(file) ==> 9 < end && EndsWell(file, end)
    ensures |file| < 9 ==> res == Aborted
    ensures |file| >= 9 && file[..5] != MAGIC[..5] ==> res == WrongFormat
    ensures |file| >= 9 && AllDigits(file[5..9]) ==>
      (res == WrongFormat <==> file[..5] != MAGIC[..5] || !(1 <= Decimal.Value(file[5..9]) <= 6))
  {
    ghost var body: bytes := Cat(codes) + ([OPCODE_EOF] + PutSum(sum));
    hide *;
    ghost var wf := Loadable(file, whole, dbnum, now, unpack, recs, codes, sum);
    if wf { LoadableMeans(file, whole, dbnum, now, unpack, recs, codes, sum); }
    assert WrongFormat != Aborted;
    end := 0;
    var rio, ok, version := OpenFile(file, sums, if wf then whole else file, body);
    if !ok {
      res := if |file| < 9 then Aborted else WrongFormat;
      return;
    }
    if wf { Opened(unpack, now, whole, rio.pos, recs, codes, PutSum(sum), dbnum); }
    res, end := LoadRest(rio, version, dbnum, now, unpack, recs, codes, sum, wf);
  }

  /** Lines 1109-1187: the records, then the checksum, in versions that have one. */
  method LoadRest(rio: Rio, version: int, dbnum: nat, now: Option<int>, unpack: Unpack,
                  ghost recs: seq<Rec>, ghost codes: seq<bytes>, ghost sum: bv64, ghost wf: bool)
    returns (res: Result, ghost end: nat)
    requires rio.Valid() && dbnum > 0 && rio.pos >= 9
    requires wf ==> version >= 5 && IsDump(rio.full, recs, codes, sum)
    requires wf ==> Loading(unpack, now, rio.full, rio.pos, recs, codes, PutSum(sum), dbnum, 0, State(NoData(dbnum), 0))
    modifies rio`pos, rio`cksum
    ensures res.Success? || res == Aborted
    ensures wf ==> Typed(recs) && LoadAll(unpack, now, State(NoData(dbnum), 0), recs).Some?
    ensures wf ==> (res.Success? <==> rio.cut <= if rio.sums then 0 else 8)
    ensures wf && res.Success? ==> res.data == LoadAll(unpack, now, State(NoData(dbnum), 0), recs).value.data
    ensures res.Success? && rio.sums && version >= 5 ==> 9 < end && EndsWell(rio.data, end)
  {
    if wf { LoadingTyped(unpack, now, rio.full, rio.pos, recs, codes, PutSum(sum), dbnum, 0, State(NoData(dbnum), 0)); }
    hide *;
    end := 0;
    var ended, st := LoadRecords(rio, dbnum, now, unpack, recs, codes, PutSum(sum), wf);
    if !ended { return Aborted, 0; }
    end := rio.pos;
    if wf { SumLeft(rio, sum); }
    if version >= 5 {
      if wf { SumRead(rio, rio.full, recs, codes, sum); }
      var ok := Verify(rio, sum, wf);
      if !ok { return Aborted, 0; }
    }
    res := Success(st.data);
  }

  /** A dump damaged within 8 consecutive bytes before its checksum, which is not 0, does not
      end well where it ended before: it is refused, or something in it was taken for its end. */
  lemma DamageShows(file: bytes, recs: seq<Rec>, codes: seq<bytes>, sum: bv64, bad: bytes, lo: nat, n: nat)
    requires IsDump(file, recs, codes, sum) && sum != 0
    requires |bad| == |file| && bad != file && n <= 8 && lo + n <= |file| - 8
    requires bad[..lo] == file[..lo] && bad[lo + n..] == file[lo + n..]
    ensures !EndsWell(bad, |bad| - 8)
  {
    var e := |file| - 8;
    SummedDump(file, recs, codes, sum);
    DumpEnds(file, recs, codes, sum);
    DamagedParts(file, bad, lo, n, e);
    hide *;
    if file[lo..lo + n] != bad[lo..lo + n] {
      SumDiffers(file[..lo], file[lo..lo + n], bad[lo..lo + n], file[lo + n..e]);
    }
    NotWell(bad, e, sum);
  }

  lemma DamagedParts(file: bytes, bad: bytes, lo: nat, n: nat, e: nat)
    requires |bad| == |file| && bad != file && lo + n <= e <= |file|
    requires bad[..lo] == file[..lo] && bad[lo + n..] == file[lo + n..]
    ensures file[lo..lo + n] != bad[lo..lo + n] && bad[e..] == file[e..]
    ensures file[..e] == file[..lo] + file[lo..lo + n] + file[lo + n..e]
    ensures bad[..e] == file[..lo] + bad[lo..lo + n] + file[lo + n..e]
  {
    assert file == file[..lo] + file[lo..lo + n] + file[lo + n..];
    assert bad == file[..lo] + bad[lo..lo + n] + file[lo + n..];
    assert bad[lo + n..e] == bad[lo + n..][..e - lo - n] == file[lo + n..e];
    assert bad[e..] == bad[lo + n..][e - lo - n..] == file[lo + n..][e - lo - n..] == file[e..];
  }

  lemma NotWell(bad: bytes, e: nat, sum: bv64)
    requires e + 8 == |bad| && GetSum(bad[e..]) == sum && sum != 0 && Crc64.Reg(sum) != Sum(bad[..e])
    ensures !EndsWell(bad, e)
  {
    assert bad[e..e + 8] == bad[e..];
    hide GetSum, Sum;
  }

  lemma DumpEnds(file: bytes, recs: seq<Rec>, codes: seq<bytes>, sum: bv64)
    requires IsDump(file, recs, codes, sum) && Summed(codes, sum)
    ensures |file| >= 18 && GetSum(file[|file| - 8..]) == sum && Crc64.Reg(sum) == Sum(file[..|file| - 8])
  {
    var rest := MAGIC + (Cat(codes) + [OPCODE_EOF]);
    Assoc(Cat(codes), [OPCODE_EOF], PutSum(sum));
    Assoc(MAGIC, Cat(codes) + [OPCODE_EOF], PutSum(sum));
    GetPutSum(sum);
    hide Cat, PutSum, Sum, GetSum;
    assert file == rest + PutSum(sum);
    assert file[..|file| - 8] == rest && file[|file| - 8..] == PutSum(sum);
  }

  lemma SummedDump(file: bytes, recs: seq<Rec>, codes: seq<bytes>, sum: bv64)
    requires IsDump(file, recs, codes, sum) && sum != 0
    ensures Summed(codes, sum)
  {}

  lemma InStream(rio: Rio)
    requires rio.Valid()
    ensures rio.pos <= |rio.data|
  {}

  lemma DumpAhead(file: bytes, whole: bytes, recs: seq<Rec>, codes: seq<bytes>, sum: bv64)
    requires IsDump(whole, recs, codes, sum) && file <= whole
    ensures At(whole, 0, MAGIC + (Cat(codes) + ([OPCODE_EOF] + PutSum(sum)))) && |whole| >= 18 && AllRecs(codes, recs)
    ensures |file| == |whole| ==> file == whole
  {
    hide Cat, PutSum, Sum;
    assert whole[0..] == whole;
  }

  lemma Opened(unpack: Unpack, now: Option<int>, file: bytes, pos: nat, recs: seq<Rec>, codes: seq<bytes>, tail: bytes, dbnum: nat)
    requires 0 < dbnum && AllRecs(codes, recs) && Typed(recs) && At(file, pos, Cat(codes) + ([OPCODE_EOF] + tail))
    requires LoadAll(unpack, now, State(NoData(dbnum), 0), recs).Some?
    ensures Loading(unpack, now, file, pos, recs, codes, tail, dbnum, 0, State(NoData(dbnum), 0))
  {
    assert codes[0..] == codes && recs[..0] == [];
  }

  /** When only the stored checksum is left, the running one is that of the rest. */
  lemma SumRead(rio: Rio, file: bytes, recs: seq<Rec>, codes: seq<bytes>, sum: bv64)
    requires rio.Valid() && rio.full == file && IsDump(file, recs, codes, sum) && At(file, rio.pos, PutSum(sum))
    ensures rio.sums && sum != 0 ==> rio.cksum == sum
  {
    var rest := MAGIC + (Cat(codes) + [OPCODE_EOF]);
    hide Cat, PutSum, Sum;
    Assoc(Cat(codes), [OPCODE_EOF], PutSum(sum));
    Assoc(MAGIC, Cat(codes) + [OPCODE_EOF], PutSum(sum));
    assert file == rest + PutSum(sum);
    assert |file[rio.pos..]| == |PutSum(sum)|;
    assert rio.pos == |rest| && file[..rio.pos] == rest;
    assert rio.data[..rio.pos] == file[..rio.pos];
  }

  /** A dataset that is saved, every write succeeding, and loaded again is what it was, minus the
      keys that had expired at either time; a server with a master drops none at the second. A
      dump of which the flush lost a part is refused, unless checksums are off and only bytes of
      the checksum are missing. */
  method SaveAndLoad(saved: seq<StoredDb>, how: How, saveTime: int, saveSums: bool, disk: nat -> Option<nat>, flush: Option<nat>,
                     loadTime: Option<int>, loadSums: bool, unpack: Unpack)
    returns (ok: bool, writes: nat, file: bytes, res: Result, ghost whole: bytes)
    requires 0 < |saved| < REDIS_RDB_LENERR && AllOk(saved) && Sane(how)
    modifies how.memory.htab
    ensures AllWritten(disk, writes) ==> ok && (file == whole <==> flush == None)
    ensures AllWritten(disk, writes) ==> (res.Success? <==> if loadSums then file == whole else |file| + 8 >= |whole|)
    ensures AllWritten(disk, writes) && res.Success? ==> |res.data| == |saved|
    ensures AllWritten(disk, writes) && res.Success? ==>
      forall j :: 0 <= j < |saved| ==> res.data[j] == Kept(unpack, Unexpired(saved[j], saveTime), loadTime)
  {
    hide *;
    ghost var recs, codes, sum;
    ok, file, writes, whole, recs, codes, sum := Save(saved, how, saveTime, saveSums, disk, flush, unpack);
    if AllWritten(disk, writes) {
      RebuiltAll(unpack, recs, saved, saveTime, loadTime);
      LoadableIs(file, whole, |saved|, loadTime, unpack, recs, codes, sum);
    }
    ghost var end;
    res, end := Load(file, |saved|, loadTime, loadSums, unpack, whole, recs, codes, sum);
  }

  lemma LoadableIs(file: bytes, whole: bytes, dbnum: nat, now: Option<int>, unpack: Unpack, recs: seq<Rec>, codes: seq<bytes>, sum: bv64)
    requires dbnum > 0 && file <= whole && IsDump(whole, recs, codes, sum) && Typed(recs)
    requires LoadAll(unpack, now, State(NoData(dbnum), 0), recs).Some?
    ensures Loadable(file, whole, dbnum, now, unpack, recs, codes, sum)
  {
    hide IsDump, Typed, LoadAll;
  }

  /** A dump that was saved with checksums on, whose checksum is not 0, is damaged within 8
      consecutive bytes before that checksum. Loaded with checksums on, it is refused, or its
      reading ends elsewhere than it did, or the damage is to the version, which then names none
      whose files have a checksum. */
  method SaveDamageAndLoad(saved: seq<StoredDb>, how: How, saveTime: int, disk: nat -> Option<nat>, flush: Option<nat>,
                           damage: bytes -> bytes, ghost lo: nat, ghost n: nat, loadTime: Option<int>, unpack: Unpack)
    returns (ok: bool, file: bytes, writes: nat, res: Result, ghost sum: bv64, ghost end: nat)
    requires 0 < |saved| < REDIS_RDB_LENERR && AllOk(saved) && Sane(how)
    modifies how.memory.htab
    ensures AllWritten(disk, writes) && flush == None ==> ok
    ensures AllWritten(disk, writes) && flush == None ==>
      |file| >= 18 && GetSum(file[|file| - 8..]) == sum && Crc64.Reg(sum) == Sum(file[..|file| - 8])
    ensures AllWritten(disk, writes) && flush == None && sum != 0 && Damaged(file, damage(file), lo, n) && res.Success? ==>
      end != |file| - 8 || !Checked(damage(file))
  {
    hide *;
    ghost var whole, recs, codes;
    ok, file, writes, whole, recs, codes, sum := Save(saved, how, saveTime, true, disk, flush, unpack);
    var bad := damage(file);
    if AllWritten(disk, writes) && flush == None {
      DumpEnds(file, recs, codes, sum);
      if Damaged(file, bad, lo, n) && sum != 0 {
        DamagedIs(file, bad, lo, n);
        DamageShows(file, recs, codes, sum, bad, lo, n);
      }
    }
    res, end := Load(bad, |saved|, loadTime, true, unpack, [], [], [], 0);
  }

  /** Within `n` bytes from `lo` on, at most 8 and before the checksum. */
  ghost predicate Damaged(file: bytes, bad: bytes, lo: nat, n: nat) {
    && |bad| == |file| && bad != file && n <= 8 && lo + n <= |file| - 8
    && bad[..lo] == file[..lo] && bad[lo + n..] == file[lo + n..]
  }

  lemma DamagedIs(file: bytes, bad: bytes, lo: nat, n: nat)
    requires Damaged(file, bad, lo, n)
    ensures |bad| == |file| && bad != file && n <= 8 && lo + n <= |file| - 8
    ensures bad[..lo] == file[..lo] && bad[lo + n..] == file[lo + n..]
  {}

  lemma RebuiltAll(unpack: Unpack, recs: seq<Rec>, saved: seq<StoredDb>, saveTime: int, now: Option<int>)
    requires RdbSave.Rebuilds(unpack, recs, saved, saveTime, |saved|)
    ensures Typed(recs) && 0 < |saved|
    ensures var r := LoadAll(unpack, now, State(NoData(|saved|), 0), recs);
      && r.Some? && |r.value.data| == |saved|
      && forall j :: 0 <= j < |saved| ==> r.value.data[j] == Kept(unpack, Unexpired(saved[j], saveTime), now)
  {
    hide LoadAll, Kept, Unexpired;
  }
}
