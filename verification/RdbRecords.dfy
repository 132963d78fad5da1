/** What the records of a dump file are, and what loading them gives. */
module RdbRecords {
  import opened Sequences
  import opened Wrappers
  import opened Bytes
  import opened Decimal
  import opened LittleEndian
  import opened RioStream
  import opened RdbStrings
  import opened AofData

  const TYPE_STRING := 0
  const TYPE_LIST := 1
  const TYPE_SET := 2
  const TYPE_HASH := 4
  const TYPE_LIST_ZIPLIST := 10
  const TYPE_SET_INTSET := 11
  const TYPE_HASH_ZIPLIST := 13
  const OPCODE_EXPIRETIME_MS := 252
  const OPCODE_EXPIRETIME := 253
  const OPCODE_SELECTDB := 254
  const OPCODE_EOF := 255

  /** What a packed object (a ziplist or an intset) holds, given its type and its bytes. */
  type Unpack = (nat, bytes) -> Value

  predicate IsPacked(t: nat) { t == TYPE_LIST_ZIPLIST || t == TYPE_SET_INTSET || t == TYPE_HASH_ZIPLIST }

  predicate IsType(t: nat) { t == TYPE_STRING || t == TYPE_LIST || t == TYPE_SET || t == TYPE_HASH || IsPacked(t) }

  /** A record: the strings of a collection follow in the order in which they are written. An
      expire is in milliseconds; in older dumps it was stored in seconds. */
  datatype Rec =
    | UseDb(db: nat)
    | Entry(expire: Option<int>, kind: nat, key: bytes, strings: seq<bytes>, inSeconds: bool := false)
    | End

  /** How many the count before the strings says; strings and packed objects have none. */
  function CountOf(kind: nat, n: nat): nat { if kind == TYPE_HASH then n / 2 else n }

  predicate HasCount(kind: nat) { kind == TYPE_LIST || kind == TYPE_SET || kind == TYPE_HASH }

  ghost predicate RecOk(r: Rec) {
    match r
    case UseDb(j) => j < REDIS_RDB_LENERR
    case End => true
    case Entry(expire, kind, key, strings, inSeconds) =>
      && (expire.Some? ==> 0 <= expire.value <= LLONG_MAX) && IsType(kind)
      && (inSeconds ==> expire.Some? && expire.value % 1000 == 0 && expire.value / 1000 <= 0x7FFF_FFFF)
      && CountOf(kind, |strings|) < REDIS_RDB_LENERR
      && (kind == TYPE_HASH ==> |strings| % 2 == 0) && (!HasCount(kind) ==> |strings| == 1)
  }

  function Cat(codes: seq<bytes>): bytes {
    if codes == [] then [] else codes[0] + Cat(codes[1..])
  }

  ghost predicate AllStrings(codes: seq<bytes>, strings: seq<bytes>) {
    |codes| == |strings| && forall i :: 0 <= i < |codes| ==> IsString(codes[i], strings[i])
  }

  /** The codes of a record's key and strings. */
  ghost predicate Coded(r: Rec, kc: bytes, sc: seq<bytes>) {
    RecOk(r) && (r.Entry? ==> IsString(kc, r.key) && AllStrings(sc, r.strings))
  }

  function Body(kind: nat, sc: seq<bytes>): bytes
    requires HasCount(kind) ==> CountOf(kind, |sc|) < TWO32
  {
    if HasCount(kind) then LenCode(CountOf(kind, |sc|)) + Cat(sc) else Cat(sc)
  }

  function KeyValue(kind: byte, kc: bytes, sc: seq<bytes>): (c: bytes)
    requires HasCount(kind) ==> CountOf(kind, |sc|) < TWO32
    ensures c != [] && c[0] == kind
  {
    [kind] + (kc + Body(kind, sc))
  }

  function RecCode(r: Rec, kc: bytes, sc: seq<bytes>): (c: bytes)
    requires r.UseDb? ==> r.db < TWO32
    requires r.Entry? ==> r.kind < 256 && (HasCount(r.kind) ==> CountOf(r.kind, |sc|) < TWO32)
    ensures c != []
  {
    match r
    case UseDb(j) => [OPCODE_SELECTDB] + LenCode(j)
    case End => [OPCODE_EOF]
    case Entry(expire, kind, key, strings, inSeconds) =>
      match expire
      case None => KeyValue(kind, kc, sc)
      case Some(w) =>
        if inSeconds then [OPCODE_EXPIRETIME] + (EncodeInt(w / 1000, 4) + KeyValue(kind, kc, sc))
        else [OPCODE_EXPIRETIME_MS] + (EncodeInt(w, 8) + KeyValue(kind, kc, sc))
  }

  ghost predicate IsRec(c: bytes, r: Rec) { exists kc, sc :: Coded(r, kc, sc) && c == RecCode(r, kc, sc) }

  ghost predicate AllRecs(codes: seq<bytes>, recs: seq<Rec>) {
    |codes| == |recs| && forall i :: 0 <= i < |codes| ==> IsRec(codes[i], recs[i]) && !recs[i].End?
  }

  lemma {:induction false} CatConcat(a: seq<bytes>, b: seq<bytes>)
    ensures Cat(a + b) == Cat(a) + Cat(b)
  {
    if a == [] {
      assert a + b == b;
    } else {
      assert (a + b)[1..] == a[1..] + b;
      CatConcat(a[1..], b);
      Assoc(a[0], Cat(a[1..]), Cat(b));
    }
  }

  lemma CatSnoc(a: seq<bytes>, c: bytes)
    ensures Cat(a + [c]) == Cat(a) + c
  {
    CatConcat(a, [c]);
    assert [c][1..] == [] && Cat([c]) == c + [];
  }

  lemma CatHead(codes: seq<bytes>, i: nat)
    requires i < |codes|
    ensures Cat(codes[i..]) == codes[i] + Cat(codes[i + 1..])
  {
    assert codes[i..][0] == codes[i] && codes[i..][1..] == codes[i + 1..];
  }

  lemma CatOne(c: bytes)
    ensures Cat([c]) == c
  {
    assert [c][1..] == [] && Cat([c]) == c + [];
  }

  // ---- loading

  /** The value that the strings of a record make up. */
  function ValueOf(unpack: Unpack, kind: nat, strings: seq<bytes>): Value
    requires IsType(kind) && (!HasCount(kind) ==> |strings| == 1)
  {
    if kind == TYPE_STRING then Str(strings[0])
    else if kind == TYPE_LIST then List(strings)
    else if kind == TYPE_SET then Members(ToSet(strings))
    else if kind == TYPE_HASH then Hash(ToMap(strings))
    else unpack(kind, strings[0])
  }

  datatype State = State(data: Dataset, db: nat)

  predicate Late(expire: Option<int>, now: Option<int>) { expire.Some? && now.Some? && expire.value < now.value }

  /** A key of a dump, once its value is known; None when the server gives up. */
  function AddKey(now: Option<int>, st: State, expire: Option<int>, key: bytes, v: Value): (r: Option<State>)
    requires st.db < |st.data|
    ensures r.Some? ==> r.value.db < |r.value.data| == |st.data|
  {
    if Late(expire, now) then Some(st)
    else if key in st.data[st.db] then None
    else Some(State(Put(st.data, st.db, key, Obj(v, expire)), st.db))
  }

  /** A record: `now` is None for a server with a master, which does not expire keys. */
  function LoadRec(unpack: Unpack, now: Option<int>, st: State, r: Rec): (s: Option<State>)
    requires st.db < |st.data| && (r.Entry? ==> IsType(r.kind) && (!HasCount(r.kind) ==> |r.strings| == 1))
    ensures s.Some? ==> s.value.db < |s.value.data| == |st.data|
  {
    match r
    case UseDb(j) => if j < |st.data| then Some(State(st.data, j)) else None
    case End => Some(st)
    case Entry(expire, kind, key, strings, inSeconds) => AddKey(now, st, expire, key, ValueOf(unpack, kind, strings))
  }

  ghost predicate Typed(recs: seq<Rec>) {
    forall i :: 0 <= i < |recs| && recs[i].Entry? ==> IsType(recs[i].kind) && (!HasCount(recs[i].kind) ==> |recs[i].strings| == 1)
  }

  ghost function LoadAll(unpack: Unpack, now: Option<int>, st: State, recs: seq<Rec>): (s: Option<State>)
    requires st.db < |st.data| && Typed(recs)
    ensures s.Some? ==> s.value.db < |s.value.data| == |st.data|
    decreases |recs|
  {
    if recs == [] then Some(st)
    else
      match LoadRec(unpack, now, st, recs[0])
      case None => None
      case Some(st') => LoadAll(unpack, now, st', recs[1..])
  }

  lemma {:induction false} LoadConcat(unpack: Unpack, now: Option<int>, st: State, a: seq<Rec>, b: seq<Rec>)
    requires st.db < |st.data| && Typed(a) && Typed(b)
    ensures Typed(a + b)
    ensures LoadAll(unpack, now, st, a + b)
      == match LoadAll(unpack, now, st, a) case None => None case Some(s) => LoadAll(unpack, now, s, b)
    decreases |a|
  {
    if a == [] {
      assert a + b == b;
    } else {
      assert (a + b)[1..] == a[1..] + b;
      match LoadRec(unpack, now, st, a[0])
      case None =>
      case Some(s) => LoadConcat(unpack, now, s, a[1..], b);
    }
  }

  lemma LoadOne(unpack: Unpack, now: Option<int>, st: State, r: Rec)
    requires st.db < |st.data| && (r.Entry? ==> IsType(r.kind) && (!HasCount(r.kind) ==> |r.strings| == 1))
    ensures LoadAll(unpack, now, st, [r]) == LoadRec(unpack, now, st, r)
  {
    assert [r][1..] == [];
  }
}
