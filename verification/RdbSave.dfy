/** rdb.c: saving a dataset to a dump file. */
module RdbSave {
  import opened Sequences
  import opened Wrappers
  import opened Bytes
  import opened Decimal
  import opened LittleEndian
  import opened RioStream
  import opened RdbStrings
  import opened RdbRecords
  import opened AofData
  import opened AofLoad
  import Crc64

  /** "REDIS0006" */
  const MAGIC: bytes := [82, 69, 68, 73, 83, 48, 48, 48, 54]

  /** An object in memory: of a general encoding, or packed into a string of bytes. */
  datatype Stored = Plain(value: Value) | Packed(kind: nat, blob: bytes)
  datatype Item = Item(obj: Stored, expire: Option<int>)
  type StoredDb = map<bytes, Item>

  function View(unpack: Unpack, o: Stored): Value { match o case Plain(v) => v case Packed(k, b) => unpack(k, b) }

  function KindOf(o: Stored): nat {
    match o
    case Packed(k, _) => k
    case Plain(v) => match v case Str(_) => TYPE_STRING case List(_) => TYPE_LIST case Members(_) => TYPE_SET case Hash(_) => TYPE_HASH
  }

  ghost predicate Short(s: bytes) { |s| < REDIS_RDB_LENERR }

  ghost predicate Savable(o: Stored) {
    match o
    case Packed(k, b) => IsPacked(k) && Short(b)
    case Plain(v) =>
      match v
      case Str(s) => Short(s)
      case List(l) => |l| < REDIS_RDB_LENERR && forall i :: 0 <= i < |l| ==> Short(l[i])
      case Members(m) => |m| < REDIS_RDB_LENERR && forall x :: x in m ==> Short(x)
      case Hash(h) => |h| < REDIS_RDB_LENERR && forall f :: f in h ==> Short(f) && Short(h[f])
  }

  ghost predicate ItemOk(key: bytes, it: Item) {
    Short(key) && Savable(it.obj) && (it.expire.Some? ==> 0 <= it.expire.value <= LLONG_MAX)
  }

  /** How the server happens to save: the object that holds a string, compression, memory. */
  datatype How = How(enc: bytes -> StringObject, compression: bool, memory: Memory)

  ghost predicate Sane(how: How) {
    && Usable(how.memory, REDIS_RDB_LENERR)
    && forall s: bytes :: Text(how.enc(s)) == s && (Short(s) ==> Storable(how.enc(s)))
  }

  method SaveText(rio: Rio, s: bytes, how: How) returns (ok: bool, ghost code: bytes)
    requires Ready(rio) && Sane(how) && Short(s)
    modifies rio, how.memory.htab
    ensures if ok then Ready(rio) && rio.data == old(rio.data) + code && IsString(code, s) else Failed(rio)
    ensures ok ==> AllChosen([code], [s], how.compression)
  {
    var o := how.enc(s);
    assert Text(o) == s && Usable(how.memory, |s|);
    hide Ready, Failed, IsString;
    hide AsChosen;
    ok, code := SaveStringObject(rio, o, how.compression, how.memory);
  }

  /** Each string was written in the form that it should have. */
  ghost predicate AllChosen(sc: seq<bytes>, strings: seq<bytes>, compression: bool) {
    && |sc| == |strings|
    && forall i :: 0 <= i < |sc| ==> |strings[i]| < REDIS_RDB_LENERR && AsChosen(sc[i], strings[i], compression)
  }

  lemma ChosenMore(sc: seq<bytes>, strings: seq<bytes>, c: bytes, s: bytes, compression: bool)
    requires AllChosen(sc, strings, compression) && AllChosen([c], [s], compression)
    ensures AllChosen(sc + [c], strings + [s], compression)
  {
    assert AllChosen([c], [s], compression) ==> |[s][0]| < REDIS_RDB_LENERR && AsChosen([c][0], [s][0], compression);
    hide AsChosen;
  }

  lemma NoneChosen(compression: bool)
    ensures AllChosen([], [], compression)
  {}

  /** Strings written one after the other since the stream held `base`. */
  ghost predicate Wrote(data: bytes, base: bytes, sc: seq<bytes>, strings: seq<bytes>) {
    data == base + Cat(sc) && AllStrings(sc, strings)
  }

  lemma WroteNone(base: bytes)
    ensures Wrote(base, base, [], [])
  {
    assert base + [] == base;
  }

  lemma WroteMore(data: bytes, base: bytes, sc: seq<bytes>, strings: seq<bytes>, c: bytes, s: bytes)
    requires Wrote(data, base, sc, strings) && IsString(c, s)
    ensures Wrote(data + c, base, sc + [c], strings + [s])
  {
    CatSnoc(sc, c);
    Assoc(base, Cat(sc), c);
    hide Cat, IsString;
  }

  method SaveNext(rio: Rio, s: bytes, how: How, ghost base: bytes, ghost sc: seq<bytes>, ghost strings: seq<bytes>)
    returns (ok: bool, ghost sc': seq<bytes>)
    requires Ready(rio) && Sane(how) && Short(s) && Wrote(rio.data, base, sc, strings) && AllChosen(sc, strings, how.compression)
    modifies rio, how.memory.htab
    ensures if ok then Ready(rio) && Wrote(rio.data, base, sc', strings + [s]) else Failed(rio)
    ensures ok ==> AllChosen(sc', strings + [s], how.compression)
  {
    hide *;
    ghost var data := rio.data;
    ghost var c;
    ok, c := SaveText(rio, s, how);
    sc' := sc;
    if !ok { return; }
    WroteMore(data, base, sc, strings, c, s);
    ChosenMore(sc, strings, c, s, how.compression);
    sc' := sc + [c];
  }

  method SaveList(rio: Rio, l: seq<bytes>, how: How, ghost base: bytes) returns (ok: bool, ghost sc: seq<bytes>)
    requires Ready(rio) && Sane(how) && rio.data == base && forall i :: 0 <= i < |l| ==> Short(l[i])
    modifies rio, how.memory.htab
    ensures if ok then Ready(rio) && Wrote(rio.data, base, sc, l) else Failed(rio)
    ensures ok ==> AllChosen(sc, l, how.compression)
  {
    ok, sc := true, [];
    WroteNone(base);
    NoneChosen(how.compression);
    var i := 0;
    assert l[..0] == [];
    hide *;
    while i < |l|
      invariant ok && 0 <= i <= |l| && Ready(rio) && Sane(how) && Wrote(rio.data, base, sc, l[..i])
      invariant AllChosen(sc, l[..i], how.compression)
    {
      ListSnoc(l, i);
      ok, sc := SaveNext(rio, l[i], how, base, sc, l[..i]);
      if !ok { return; }
      i := i + 1;
    }
    assert l[..i] == l;
  }

  lemma ListSnoc(l: seq<bytes>, i: nat)
    requires i < |l|
    ensures l[..i] + [l[i]] == l[..i + 1]
  {}

  lemma ToSetSnoc(strings: seq<bytes>, x: bytes)
    ensures ToSet(strings + [x]) == ToSet(strings) + {x}
  {}

  /** The members in the order some iterator gives them. */
  method SaveSet(rio: Rio, m: set<bytes>, how: How, ghost base: bytes)
    returns (ok: bool, ghost sc: seq<bytes>, ghost strings: seq<bytes>)
    requires Ready(rio) && Sane(how) && rio.data == base && forall x :: x in m ==> Short(x)
    modifies rio, how.memory.htab
    ensures if ok then Ready(rio) && Wrote(rio.data, base, sc, strings) && ToSet(strings) == m && |strings| == |m| else Failed(rio)
    ensures ok ==> AllChosen(sc, strings, how.compression)
  {
    ok, sc, strings := true, [], [];
    WroteNone(base);
    NoneChosen(how.compression);
    var left := m;
    assert ToSet([]) == {};
    hide Ready, Failed, Sane, Wrote, Short, ToSet, AllChosen;
    while left != {}
      invariant AllChosen(sc, strings, how.compression)
      invariant ok && left <= m && Ready(rio) && Sane(how) && Wrote(rio.data, base, sc, strings)
      invariant ToSet(strings) == m - left && |strings| == |m| - |left|
      decreases left
    {
      var x :| x in left;
      ok, sc := SaveNext(rio, x, how, base, sc, strings);
      if !ok { return; }
      ToSetSnoc(strings, x);
      strings := strings + [x];
      assert m - (left - {x}) == m - left + {x};
      left := left - {x};
    }
    assert m - {} == m;
  }

  lemma ToMapSnoc(strings: seq<bytes>, f: bytes, x: bytes)
    requires |strings| % 2 == 0
    ensures ToMap(strings + [f] + [x]) == ToMap(strings)[f := x]
  {
    var s := strings + [f] + [x];
    assert s[..|s| - 2] == strings;
  }

  /** The fields not in `left` were written. */
  ghost predicate Fields(strings: seq<bytes>, h: map<bytes, bytes>, left: set<bytes>) {
    left <= h.Keys && ToMap(strings) == h - left && |strings| == 2 * (|h| - |left|)
  }

  lemma NoFields(h: map<bytes, bytes>)
    ensures Fields([], h, h.Keys)
  {
    assert h - h.Keys == map[] && |h.Keys| == |h|;
  }

  lemma OneField(strings: seq<bytes>, h: map<bytes, bytes>, left: set<bytes>, f: bytes)
    requires Fields(strings, h, left) && f in left
    ensures f in h && Fields(strings + [f] + [h[f]], h, left - {f})
  {
    ToMapSnoc(strings, f, h[f]);
    assert h - (left - {f}) == (h - left)[f := h[f]];
    hide ToMap;
  }

  lemma AllFields(strings: seq<bytes>, h: map<bytes, bytes>)
    requires Fields(strings, h, {})
    ensures ToMap(strings) == h && |strings| == 2 * |h|
  {
    assert h - {} == h;
  }

  lemma ShortField(h: map<bytes, bytes>, f: bytes)
    requires f in h && forall f :: f in h ==> Short(f) && Short(h[f])
    ensures Short(f) && Short(h[f])
  {}

  method SaveHash(rio: Rio, h: map<bytes, bytes>, how: How, ghost base: bytes)
    returns (ok: bool, ghost sc: seq<bytes>, ghost strings: seq<bytes>)
    requires Ready(rio) && Sane(how) && rio.data == base && forall f :: f in h ==> Short(f) && Short(h[f])
    modifies rio, how.memory.htab
    ensures if ok then Ready(rio) && Wrote(rio.data, base, sc, strings) && ToMap(strings) == h && |strings| == 2 * |h| else Failed(rio)
    ensures ok ==> AllChosen(sc, strings, how.compression)
  {
    hide *;
    ok, sc, strings := true, [], [];
    WroteNone(base);
    NoneChosen(how.compression);
    NoFields(h);
    var left := h.Keys;
    while left != {}
      invariant ok && Ready(rio) && Sane(how) && Wrote(rio.data, base, sc, strings) && Fields(strings, h, left)
      invariant AllChosen(sc, strings, how.compression)
      decreases left
    {
      var f :| f in left;
      OneField(strings, h, left, f);
      ShortField(h, f);
      ok, sc := SaveNext(rio, f, how, base, sc, strings);
      if !ok { return; }
      ok, sc := SaveNext(rio, h[f], how, base, sc, strings + [f]);
      if !ok { return; }
      strings := strings + [f] + [h[f]];
      left := left - {f};
    }
    AllFields(strings, h);
  }

  // ---- objects

  /** An object was written: its strings, and what they make up. */
  ghost predicate ObjectWritten(unpack: Unpack, data: bytes, base: bytes, o: Stored, sc: seq<bytes>, strings: seq<bytes>) {
    && RecOk(Entry(None, KindOf(o), [], strings)) && AllStrings(sc, strings)
    && data == base + Body(KindOf(o), sc) && ValueOf(unpack, KindOf(o), strings) == View(unpack, o)
  }

  /** The strings make up the collection, and the count is right. */
  ghost predicate MakesUp(v: Value, n: nat, strings: seq<bytes>) {
    match v
    case Str(_) => false
    case List(l) => strings == l && n == |l|
    case Members(m) => ToSet(strings) == m && |strings| == n
    case Hash(h) => ToMap(strings) == h && |strings| == 2 * n
  }

  lemma MadeUp(unpack: Unpack, v: Value, n: nat, strings: seq<bytes>)
    requires MakesUp(v, n, strings) && n < REDIS_RDB_LENERR
    ensures var kind := KindOf(Plain(v));
      HasCount(kind) && n == CountOf(kind, |strings|) && RecOk(Entry(None, kind, [], strings)) && ValueOf(unpack, kind, strings) == v
  {
    hide ToSet, ToMap;
    match v
    case List(l) =>
    case Members(m) =>
    case Hash(h) =>
      assert 2 * n / 2 == n;
  }

  lemma CountedWritten(unpack: Unpack, data: bytes, base: bytes, v: Value, n: nat, sc: seq<bytes>, strings: seq<bytes>)
    requires n < REDIS_RDB_LENERR && Wrote(data, base + LenCode(n), sc, strings) && MakesUp(v, n, strings)
    ensures ObjectWritten(unpack, data, base, Plain(v), sc, strings)
  {
    MadeUp(unpack, v, n, strings);
    CountedBody(data, base, KindOf(Plain(v)), n, sc, strings);
    assert View(unpack, Plain(v)) == v;
    hide LenCode, Cat, IsString, AllStrings, Wrote, Body, RecOk, ValueOf, View, KindOf, MakesUp, HasCount, CountOf;
  }

  lemma CountedBody(data: bytes, base: bytes, kind: nat, n: nat, sc: seq<bytes>, strings: seq<bytes>)
    requires n < REDIS_RDB_LENERR && Wrote(data, base + LenCode(n), sc, strings)
    requires HasCount(kind) && n == CountOf(kind, |strings|)
    ensures AllStrings(sc, strings) && |sc| == |strings| && data == base + Body(kind, sc)
  {
    Assoc(base, LenCode(n), Cat(sc));
    hide LenCode, Cat, IsString;
  }

  lemma OneWritten(unpack: Unpack, base: bytes, o: Stored, c: bytes, s: bytes)
    requires IsString(c, s) && (o == Plain(Str(s)) || (o.Packed? && IsPacked(o.kind) && o.blob == s))
    ensures ObjectWritten(unpack, base + c, base, o, [c], [s])
  {
    CatOne(c);
    hide Cat, IsString;
  }

  /** rdbSaveObject */
  method SaveObject(rio: Rio, o: Stored, how: How, ghost unpack: Unpack)
    returns (ok: bool, ghost sc: seq<bytes>, ghost strings: seq<bytes>)
    requires Ready(rio) && Sane(how) && Savable(o)
    modifies rio, how.memory.htab
    ensures if ok then Ready(rio) && ObjectWritten(unpack, rio.data, old(rio.data), o, sc, strings) else Failed(rio)
    ensures ok ==> AllChosen(sc, strings, how.compression)
  {
    match o
    case Packed(kind, blob) =>
      ok, sc, strings := SaveOne(rio, o, blob, how, unpack);
    case Plain(v) =>
      match v
      case Str(s) =>
        ok, sc, strings := SaveOne(rio, o, s, how, unpack);
      case _ =>
        ok, sc, strings := SaveCollection(rio, v, how, unpack);
  }

  method SaveOne(rio: Rio, o: Stored, s: bytes, how: How, ghost unpack: Unpack)
    returns (ok: bool, ghost sc: seq<bytes>, ghost strings: seq<bytes>)
    requires Ready(rio) && Sane(how) && Short(s) && (o == Plain(Str(s)) || (o.Packed? && IsPacked(o.kind) && o.blob == s))
    modifies rio, how.memory.htab
    ensures if ok then Ready(rio) && ObjectWritten(unpack, rio.data, old(rio.data), o, sc, strings) else Failed(rio)
    ensures ok ==> AllChosen(sc, strings, how.compression)
  {
    assert Usable(how.memory, |s|);
    hide Ready, Failed, IsString, ObjectWritten, AsChosen;
    ghost var c, data := [], rio.data;
    if o.Packed? {
      ok, c := SaveRawString(rio, s, how.compression, how.memory);
    } else {
      ok, c := SaveText(rio, s, how);
    }
    sc, strings := [c], [s];
    if ok { OneWritten(unpack, data, o, c, s); }
  }

  method SaveCollection(rio: Rio, v: Value, how: How, ghost unpack: Unpack)
    returns (ok: bool, ghost sc: seq<bytes>, ghost strings: seq<bytes>)
    requires Ready(rio) && Sane(how) && Savable(Plain(v)) && !v.Str?
    modifies rio, how.memory.htab
    ensures if ok then Ready(rio) && ObjectWritten(unpack, rio.data, old(rio.data), Plain(v), sc, strings) else Failed(rio)
    ensures ok ==> AllChosen(sc, strings, how.compression)
  {
    hide Ready, Failed, Sane, Wrote, ObjectWritten, ToSet, ToMap, LenCode, Short, KindOf, AllChosen;
    ghost var data := rio.data;
    ok, sc, strings := false, [], [];
    match v
    case List(l) =>
      var n := SaveLen(rio, |l|);
      if n == -1 { return; }
      ok, sc := SaveList(rio, l, how, rio.data);
      if !ok { return; }
      strings := l;
      CountedWritten(unpack, rio.data, data, v, |l|, sc, strings);
    case Members(m) =>
      var n := SaveLen(rio, |m|);
      if n == -1 { return; }
      ok, sc, strings := SaveSet(rio, m, how, rio.data);
      if !ok { return; }
      CountedWritten(unpack, rio.data, data, v, |m|, sc, strings);
    case Hash(h) =>
      var n := SaveLen(rio, |h|);
      if n == -1 { return; }
      ok, sc, strings := SaveHash(rio, h, how, rio.data);
      if !ok { return; }
      CountedWritten(unpack, rio.data, data, v, |h|, sc, strings);
  }

  // ---- keys

  /** The record of a key and its object. */
  ghost predicate EntryFor(unpack: Unpack, r: Rec, key: bytes, it: Item) {
    && r.Entry? && RecOk(r) && r.expire == it.expire && !r.inSeconds && r.key == key
    && ValueOf(unpack, r.kind, r.strings) == View(unpack, it.obj)
  }

  predicate Expired(it: Item, now: int) { it.expire.Some? && it.expire.value < now }

  /** rdbSaveKeyValuePair: a key that has expired is skipped. */
  method SaveKeyValuePair(rio: Rio, key: bytes, it: Item, how: How, now: int, ghost unpack: Unpack)
    returns (ok: bool, saved: bool, ghost r: Rec, ghost code: bytes)
    requires Ready(rio) && Sane(how) && ItemOk(key, it)
    modifies rio, how.memory.htab
    ensures if ok then Ready(rio) && (saved <==> !Expired(it, now)) else Failed(rio)
    ensures ok && saved ==> rio.data == old(rio.data) + code && IsRec(code, r) && r.Entry? && EntryFor(unpack, r, key, it)
    ensures ok && !saved ==> rio.data == old(rio.data)
  {
    ok, saved, r, code := true, false, End, [];
    hide Ready, Failed, Sane, Savable, IsRec, EntryFor, EncodeInt;
    ghost var data, pre := rio.data, [];
    if it.expire.Some? {
      if it.expire.value < now { return; }
      ok := WriteRaw(rio, [OPCODE_EXPIRETIME_MS]);
      if !ok { return; }
      EightBytes(it.expire.value);
      ok := WriteRaw(rio, EncodeInt(it.expire.value, 8));
      if !ok { return; }
      pre := Prefix(it.expire);
      Assoc(data, [OPCODE_EXPIRETIME_MS], EncodeInt(it.expire.value, 8));
    } else {
      NothingAppended(data, pre);
    }
    saved := true;
    ghost var kv;
    ok, r, kv := SaveTyped(rio, key, it, how, unpack);
    if !ok { return; }
    code := pre + kv;
    Assoc(data, pre, kv);
    WithExpire(unpack, r, kv, key, it);
    KeyedEntry(unpack, kv, r, key, it.obj);
    r := r.(expire := it.expire);
  }

  lemma EightBytes(w: int)
    ensures |EncodeInt(w, 8)| == 8
  {}

  function Prefix(expire: Option<int>): bytes {
    match expire case None => [] case Some(w) => [OPCODE_EXPIRETIME_MS] + EncodeInt(w, 8)
  }

  lemma KeyedEntry(unpack: Unpack, c: bytes, r: Rec, key: bytes, o: Stored)
    requires Keyed(unpack, c, r, key, o)
    ensures r.Entry?
  {}

  lemma WithExpire(unpack: Unpack, r: Rec, kv: bytes, key: bytes, it: Item)
    requires Keyed(unpack, kv, r, key, it.obj) && (it.expire.Some? ==> 0 <= it.expire.value <= LLONG_MAX)
    ensures var r' := r.(expire := it.expire); IsRec(Prefix(it.expire) + kv, r') && EntryFor(unpack, r', key, it)
  {
    hide ValueOf, View, KeyValue, IsString, EncodeInt;
    var r' := r.(expire := it.expire);
    var kc, sc :| Coded(r, kc, sc) && kv == KeyValue(r.kind, kc, sc);
    assert Coded(r', kc, sc);
    if it.expire.Some? {
      Assoc([OPCODE_EXPIRETIME_MS], EncodeInt(it.expire.value, 8), kv);
    } else {
      NoMore(kv);
    }
    assert Prefix(it.expire) + kv == RecCode(r', kc, sc);
  }

  /** With no expire in front, the type, the key and the object. */
  ghost predicate Keyed(unpack: Unpack, c: bytes, r: Rec, key: bytes, o: Stored) {
    && r.Entry? && r.expire == None && r.key == key && RecOk(r) && ValueOf(unpack, r.kind, r.strings) == View(unpack, o)
    && exists kc, sc :: Coded(r, kc, sc) && c == KeyValue(r.kind, kc, sc)
  }

  method SaveTyped(rio: Rio, key: bytes, it: Item, how: How, ghost unpack: Unpack) returns (ok: bool, ghost r: Rec, ghost kv: bytes)
    requires Ready(rio) && Sane(how) && ItemOk(key, it)
    modifies rio, how.memory.htab
    ensures if ok then Ready(rio) && rio.data == old(rio.data) + kv && Keyed(unpack, kv, r, key, it.obj) else Failed(rio)
  {
    assert Short(key) && Savable(it.obj);
    hide *;
    ghost var data := rio.data;
    KindByte(it.obj);
    r, kv := End, [];
    ok := WriteRaw(rio, [KindOf(it.obj)]);
    if !ok { return; }
    ghost var kc, sc, strings;
    ok, kc := SaveText(rio, key, how);
    if !ok { return; }
    ok, sc, strings := SaveObject(rio, it.obj, how, unpack);
    if !ok { return; }
    r := Entry(None, KindOf(it.obj), key, strings);
    kv := TypedCode(unpack, rio.data, data, key, it.obj, kc, sc, strings);
  }

  lemma KindByte(o: Stored)
    requires Savable(o)
    ensures KindOf(o) < 256
  {}

  lemma TypedCode(unpack: Unpack, data: bytes, base: bytes, key: bytes, o: Stored, kc: bytes, sc: seq<bytes>, strings: seq<bytes>)
    returns (kv: bytes)
    requires Savable(o) && KindOf(o) < 256 && ObjectWritten(unpack, data, base + [KindOf(o)] + kc, o, sc, strings) && IsString(kc, key)
    ensures data == base + kv && Keyed(unpack, kv, Entry(None, KindOf(o), key, strings), key, o)
  {
    var kind := KindOf(o);
    var body := Body(kind, sc);
    var r := Entry(None, kind, key, strings);
    kv := KeyValue(kind, kc, sc);
    assert kv == [kind] + (kc + body);
    assert Coded(r, kc, sc);
    assert data == base + [kind] + kc + body;
    hide *;
    Assoc(base + [kind], kc, body);
    Assoc(base, [kind], kc + body);
    KeyedBy(unpack, kv, r, key, o, kc, sc);
  }

  lemma KeyedBy(unpack: Unpack, c: bytes, r: Rec, key: bytes, o: Stored, kc: bytes, sc: seq<bytes>)
    requires r.Entry? && r.expire == None && r.key == key && RecOk(r) && ValueOf(unpack, r.kind, r.strings) == View(unpack, o)
    requires Coded(r, kc, sc) && c == KeyValue(r.kind, kc, sc)
    ensures Keyed(unpack, c, r, key, o)
  {
    hide ValueOf, View;
  }

  // ---- databases

  /** What is left of a DB at the time it is loaded. */
  function Kept(unpack: Unpack, items: StoredDb, now: Option<int>): Db {
    map k | k in items && !Late(items[k].expire, now) :: Obj(View(unpack, items[k].obj), items[k].expire)
  }

  function Unexpired(db: StoredDb, now: int): StoredDb { map k | k in db && !Expired(db[k], now) :: db[k] }

  /** The records, loaded at any time, fill DB `j`, which was empty, with `items`. */
  ghost predicate Fills(unpack: Unpack, recs: seq<Rec>, dbnum: nat, j: nat, items: StoredDb) {
    && Typed(recs) && j < dbnum
    && forall now: Option<int>, st: State :: st.db < |st.data| == dbnum && st.data[j] == map[] ==>
         LoadAll(unpack, now, st, recs) == Some(State(st.data[j := Kept(unpack, items, now)], j))
  }

  lemma SelectFills(unpack: Unpack, dbnum: nat, j: nat)
    requires j < dbnum
    ensures Fills(unpack, [UseDb(j)], dbnum, j, map[])
  {
    forall now: Option<int>, st: State | st.db < |st.data| == dbnum && st.data[j] == map[]
      ensures LoadAll(unpack, now, st, [UseDb(j)]) == Some(State(st.data[j := Kept(unpack, map[], now)], j))
    {
      LoadOne(unpack, now, st, UseDb(j));
      assert Kept(unpack, map[], now) == map[];
      assert st.data[j := map[]] == st.data;
    }
  }

  lemma KeptMore(unpack: Unpack, items: StoredDb, key: bytes, it: Item, now: Option<int>)
    requires key !in items
    ensures var m, m' := Kept(unpack, items, now), Kept(unpack, items[key := it], now);
      key !in m && m' == if Late(it.expire, now) then m else m[key := Obj(View(unpack, it.obj), it.expire)]
  {
    hide View;
  }

  lemma EntryFills(unpack: Unpack, recs: seq<Rec>, dbnum: nat, j: nat, items: StoredDb, r: Rec, key: bytes, it: Item)
    requires Fills(unpack, recs, dbnum, j, items) && key !in items && EntryFor(unpack, r, key, it)
    ensures Fills(unpack, recs + [r], dbnum, j, items[key := it])
  {
    assert Typed([r]);
    assert Typed(recs + [r]);
    hide ValueOf, View, Kept;
    forall now: Option<int>, st: State | st.db < |st.data| == dbnum && st.data[j] == map[]
      ensures LoadAll(unpack, now, st, recs + [r]) == Some(State(st.data[j := Kept(unpack, items[key := it], now)], j))
    {
      var st' := State(st.data[j := Kept(unpack, items, now)], j);
      LoadConcat(unpack, now, st, recs, [r]);
      LoadOne(unpack, now, st', r);
      KeptMore(unpack, items, key, it, now);
      EntryLoaded(unpack, now, st', r, key, it, j);
      Replaced(st.data, j, Kept(unpack, items, now), Kept(unpack, items[key := it], now));
    }
  }

  lemma EntryLoaded(unpack: Unpack, now: Option<int>, st: State, r: Rec, key: bytes, it: Item, j: nat)
    requires EntryFor(unpack, r, key, it) && st.db == j < |st.data| && key !in st.data[j]
    ensures LoadRec(unpack, now, st, r)
      == Some(if Late(it.expire, now) then st else State(st.data[j := st.data[j][key := Obj(View(unpack, it.obj), it.expire)]], j))
  {
    hide ValueOf, View;
  }

  lemma Replaced(data: Dataset, j: nat, m: Db, m': Db)
    requires j < |data|
    ensures data[j := m][j := m'] == data[j := m'] && data[j := m][j] == m
  {}

  /** What was written so far. */
  ghost predicate Holds(data: bytes, recs: seq<Rec>, codes: seq<bytes>) {
    data == MAGIC + Cat(codes) && AllRecs(codes, recs)
  }

  lemma HoldsMore(data: bytes, recs: seq<Rec>, codes: seq<bytes>, c: bytes, r: Rec)
    requires Holds(data, recs, codes) && IsRec(c, r) && !r.End?
    ensures Holds(data + c, recs + [r], codes + [c])
  {
    CatSnoc(codes, c);
    Assoc(MAGIC, Cat(codes), c);
    hide Cat, IsRec;
  }

  lemma SelectCode(j: nat)
    requires j < REDIS_RDB_LENERR
    ensures IsRec([OPCODE_SELECTDB] + LenCode(j), UseDb(j))
  {
    assert Coded(UseDb(j), [], []);
    assert RecCode(UseDb(j), [], []) == [OPCODE_SELECTDB] + LenCode(j);
  }

  ghost predicate DbOk(db: StoredDb) { forall k :: k in db ==> ItemOk(k, db[k]) }

  /** The items of a DB that were written: all that had not expired, but those in `left`. */
  function Done(db: StoredDb, now: int, left: set<bytes>): StoredDb { map k | k in db && k !in left && !Expired(db[k], now) :: db[k] }

  lemma DoneStep(db: StoredDb, now: int, left: set<bytes>, key: bytes)
    requires key in left && key in db
    ensures key !in Done(db, now, left)
    ensures Done(db, now, left - {key}) == if Expired(db[key], now) then Done(db, now, left) else Done(db, now, left)[key := db[key]]
  {}

  lemma DoneEnds(db: StoredDb, now: int)
    ensures Done(db, now, db.Keys) == map[] && Done(db, now, {}) == Unexpired(db, now)
  {}

  lemma DbItem(db: StoredDb, key: bytes)
    requires DbOk(db) && key in db
    ensures ItemOk(key, db[key])
  {}

  /** One DB: its number, then its keys in the order some iterator gives them. */
  method SaveDb(rio: Rio, dbnum: nat, j: nat, db: StoredDb, how: How, now: int, ghost unpack: Unpack,
                ghost recs0: seq<Rec>, ghost codes0: seq<bytes>)
    returns (ok: bool, ghost more: seq<Rec>, ghost codes: seq<bytes>)
    requires Ready(rio) && Sane(how) && DbOk(db) && j < dbnum && j < REDIS_RDB_LENERR && Holds(rio.data, recs0, codes0)
    modifies rio, how.memory.htab
    ensures if ok then Ready(rio) && Holds(rio.data, recs0 + more, codes) && Fills(unpack, more, dbnum, j, Unexpired(db, now)) else Failed(rio)
  {
    assert j < TWO32;
    hide *;
    ghost var data := rio.data;
    more, codes := [], codes0;
    ok := WriteRaw(rio, [OPCODE_SELECTDB]);
    if !ok { return; }
    var n := SaveLen(rio, j);
    if n == -1 { return false, [], codes0; }
    SelectCode(j);
    Assoc(data, [OPCODE_SELECTDB], LenCode(j));
    HoldsMore(data, recs0, codes0, [OPCODE_SELECTDB] + LenCode(j), UseDb(j));
    SelectFills(unpack, dbnum, j);
    DoneEnds(db, now);
    more, codes := [UseDb(j)], codes0 + [[OPCODE_SELECTDB] + LenCode(j)];
    var left := db.Keys;
    while left != {}
      invariant ok && left <= db.Keys && Ready(rio) && Sane(how) && Holds(rio.data, recs0 + more, codes)
      invariant Fills(unpack, more, dbnum, j, Done(db, now, left))
      decreases left
    {
      var key :| key in left;
      DbItem(db, key);
      DoneStep(db, now, left, key);
      data := rio.data;
      var saved;
      ghost var r, code;
      ok, saved, r, code := SaveKeyValuePair(rio, key, db[key], how, now, unpack);
      if !ok { return; }
      if saved {
        HoldsMore(data, recs0 + more, codes, code, r);
        EntryFills(unpack, more, dbnum, j, Done(db, now, left), r, key, db[key]);
        Assoc(recs0, more, [r]);
        more, codes := more + [r], codes + [code];
      }
      left := left - {key};
    }
  }

  // ---- the whole file

  ghost predicate AllOk(saved: seq<StoredDb>) { forall j :: 0 <= j < |saved| ==> DbOk(saved[j]) }

  /** The records, loaded at any time, rebuild the first `j` DBs but for expired keys. */
  ghost predicate Rebuilds(unpack: Unpack, recs: seq<Rec>, saved: seq<StoredDb>, saveTime: int, j: nat) {
    && Typed(recs) && 0 < |saved| && j <= |saved|
    && forall now: Option<int> ::
         var r := LoadAll(unpack, now, State(NoData(|saved|), 0), recs);
         r.Some? && forall i :: 0 <= i < |saved| ==>
           r.value.data[i] == if i < j then Kept(unpack, Unexpired(saved[i], saveTime), now) else map[]
  }

  lemma DbRebuilt(unpack: Unpack, recs: seq<Rec>, more: seq<Rec>, saved: seq<StoredDb>, saveTime: int, j: nat)
    requires Rebuilds(unpack, recs, saved, saveTime, j) && j < |saved|
    requires if saved[j] == map[] then more == [] else Fills(unpack, more, |saved|, j, Unexpired(saved[j], saveTime))
    ensures Rebuilds(unpack, recs + more, saved, saveTime, j + 1)
  {
    assert Typed(more);
    TypedConcat(recs, more);
    hide Kept, Unexpired;
    forall now: Option<int>
      ensures var r := LoadAll(unpack, now, State(NoData(|saved|), 0), recs + more);
        r.Some? && forall i :: 0 <= i < |saved| ==>
          r.value.data[i] == if i < j + 1 then Kept(unpack, Unexpired(saved[i], saveTime), now) else map[]
    {
      LoadConcat(unpack, now, State(NoData(|saved|), 0), recs, more);
      var st := LoadAll(unpack, now, State(NoData(|saved|), 0), recs).value;
      assert st.data[j] == map[];
      if saved[j] == map[] {
        NothingKept(unpack, saveTime, now);
      }
    }
  }

  lemma NothingKept(unpack: Unpack, saveTime: int, now: Option<int>)
    ensures Kept(unpack, Unexpired(map[], saveTime), now) == map[]
  {
    assert Unexpired(map[], saveTime) == map[];
  }

  lemma TypedConcat(a: seq<Rec>, b: seq<Rec>)
    requires Typed(a) && Typed(b)
    ensures Typed(a + b)
  {}

  lemma NothingYet(unpack: Unpack, saved: seq<StoredDb>, saveTime: int)
    requires 0 < |saved|
    ensures Rebuilds(unpack, [], saved, saveTime, 0) && Holds(MAGIC, [], [])
  {
    assert MAGIC + [] == MAGIC;
  }

  /** A complete dump: its checksum is right, or 0 when none was computed. */
  ghost predicate IsDump(file: bytes, recs: seq<Rec>, codes: seq<bytes>, sum: bv64) {
    && AllRecs(codes, recs) && file == MAGIC + (Cat(codes) + ([OPCODE_EOF] + PutSum(sum)))
    && (sum == 0 || Summed(codes, sum))
  }

  /** The checksum is that of everything before it. */
  ghost predicate Summed(codes: seq<bytes>, sum: bv64) { Crc64.Reg(sum) == Sum(MAGIC + (Cat(codes) + [OPCODE_EOF])) }

  lemma DbsOk(saved: seq<StoredDb>, j: nat)
    requires AllOk(saved) && j < |saved|
    ensures DbOk(saved[j])
  {}

  /** All the writes of a save succeeded. */
  predicate AllWritten(disk: nat -> Option<nat>, writes: nat) { forall i :: 0 <= i < writes ==> disk(i) == None }

  /** rdbSave, up to the renaming: `file` is on the disk, `whole` what should be. `ok` is what the
      caller is told. It is told of every failure but those of the last bytes of a long length,
      of the checksum and of the flush at the end, so a save reported as good left a whole dump
      if and only if none of the `writes` writes failed and the flush lost nothing. */
  method Save(saved: seq<StoredDb>, how: How, now: int, sums: bool, disk: nat -> Option<nat>, flush: Option<nat>,
              ghost unpack: Unpack)
    returns (ok: bool, file: bytes, writes: nat, ghost whole: bytes, ghost recs: seq<Rec>, ghost codes: seq<bytes>, ghost sum: bv64)
    requires 0 < |saved| < REDIS_RDB_LENERR && AllOk(saved) && Sane(how)
    modifies how.memory.htab
    ensures ok ==> IsDump(whole, recs, codes, sum) && Rebuilds(unpack, recs, saved, now, |saved|)
    ensures if sums then ok ==> Summed(codes, sum) else sum == 0
    ensures ok && file == whole <==> AllWritten(disk, writes) && flush == None
    ensures AllWritten(disk, writes) ==> ok && file <= whole
  {
    var rio := new Rio([], sums, disk, []);
    assert Ready(rio) && |saved| < REDIS_RDB_LENERR;
    recs, codes, sum, whole := [], [], 0, [];
    NothingYet(unpack, saved, now);
    NoMore(MAGIC);
    MagicLength();
    hide *;
    ok := WriteRaw(rio, MAGIC);
    if ok { ok, recs, codes := SaveDbs(rio, saved, how, now, unpack); }
    if ok { ok, sum := Finish(rio, recs, codes); }
    Outcome(rio, ok);
    if ok {
      DumpIsLong(rio.data, recs, codes, sum);
      rio.Flush(flush);
    }
    file, writes, whole := rio.file, rio.writes, rio.data;
  }

  /** The loop over the DBs. */
  method SaveDbs(rio: Rio, saved: seq<StoredDb>, how: How, now: int, ghost unpack: Unpack)
    returns (ok: bool, ghost recs: seq<Rec>, ghost codes: seq<bytes>)
    requires 0 < |saved| < REDIS_RDB_LENERR && AllOk(saved) && Sane(how) && Ready(rio)
    requires Holds(rio.data, [], []) && Rebuilds(unpack, [], saved, now, 0)
    modifies rio, how.memory.htab
    ensures if ok then Ready(rio) && Holds(rio.data, recs, codes) && Rebuilds(unpack, recs, saved, now, |saved|) else Failed(rio)
  {
    assert REDIS_RDB_LENERR > |saved|;
    hide *;
    ok, recs, codes := true, [], [];
    var j := 0;
    while ok && j < |saved|
      invariant 0 <= j <= |saved| && Sane(how)
      invariant if ok then Ready(rio) && Holds(rio.data, recs, codes) && Rebuilds(unpack, recs, saved, now, j) else Failed(rio)
    {
      ghost var more: seq<Rec> := [];
      NoRecs(recs);
      if saved[j] != map[] {
        DbsOk(saved, j);
        ok, more, codes := SaveDb(rio, |saved|, j, saved[j], how, now, unpack, recs, codes);
      }
      if ok {
        DbRebuilt(unpack, recs, more, saved, now, j);
        recs := recs + more;
        j := j + 1;
      }
    }
  }

  lemma MagicLength()
    ensures |MAGIC| == 9
  {}

  lemma Outcome(rio: Rio, ok: bool)
    requires if ok then rio.Kept() else Failed(rio)
    ensures ok && rio.file == rio.data <==> AllWritten(rio.disk, rio.writes)
    ensures ok ==> |rio.file| <= |rio.data|
  {}

  lemma DumpIsLong(file: bytes, recs: seq<Rec>, codes: seq<bytes>, sum: bv64)
    requires IsDump(file, recs, codes, sum)
    ensures file != []
  {
    hide Cat, PutSum, Sum;
  }

  lemma NoRecs(recs: seq<Rec>)
    ensures recs + [] == recs
  {}

  /** The EOF opcode, then the checksum of everything before it, whose write nobody checks. */
  method Finish(rio: Rio, ghost recs: seq<Rec>, ghost codes: seq<bytes>) returns (ok: bool, ghost sum: bv64)
    requires Ready(rio) && Holds(rio.data, recs, codes)
    modifies rio
    ensures if ok then rio.Kept() && IsDump(rio.data, recs, codes, sum) else Failed(rio)
    ensures if rio.sums then ok ==> Summed(codes, sum) else sum == 0
  {
    hide Sum, PutSum, Cat, AllRecs, Rio.Kept;
    sum := 0;
    ok := WriteRaw(rio, [OPCODE_EOF]);
    if !ok { return; }
    assert rio.data[..rio.pos] == rio.data;
    var cksum := rio.cksum;
    sum := cksum;
    assert rio.sums ==> Crc64.Reg(sum) == Sum(rio.data);
    Assoc(MAGIC, Cat(codes), [OPCODE_EOF]);
    Assoc(MAGIC + Cat(codes), [OPCODE_EOF], PutSum(sum));
    Assoc(MAGIC, Cat(codes), [OPCODE_EOF] + PutSum(sum));
    var _ := rio.Write(PutSum(cksum));
  }
}
