/** aof.c, rewriteAppendOnlyFile: the shortest log that rebuilds a dataset. */
module AofRewrite {
  import opened Sequences
  import opened Wrappers
  import opened Bytes
  import opened Decimal
  import opened Resp
  import opened AofData
  import opened AofLoad

  const ITEMS_PER_CMD := 64

  /** The strings of items, one after the other. */
  function Flat(items: seq<Argv>): Argv {
    if items == [] then [] else Flat(items[..|items| - 1]) + items[|items| - 1]
  }

  function ChunkSize(n: nat): (k: nat)
    ensures k <= n && (n > 0 ==> k > 0)
  {
    if n > ITEMS_PER_CMD then ITEMS_PER_CMD else n
  }

  /** The argument count announced for `n` items: the command, the key, the items. */
  function Announced(n: nat, per: nat): nat { 2 + n * per }

  /** The commands that rebuild a collection, at most ITEMS_PER_CMD items each. */
  function Chunks(name: bytes, key: bytes, items: seq<Argv>): seq<Argv>
    decreases |items|
  {
    if items == [] then []
    else
      var n := ChunkSize(|items|);
      [[name, key] + Flat(items[..n])] + Chunks(name, key, items[n..])
  }

  ghost predicate Uniform(items: seq<Argv>, per: nat) { forall i :: 0 <= i < |items| ==> |items[i]| == per }

  lemma {:induction false} FlatLength(items: seq<Argv>, per: nat)
    requires Uniform(items, per)
    ensures |Flat(items)| == per * |items|
  {
    if items != [] {
      FlatLength(items[..|items| - 1], per);
      Times(per, |items| - 1);
    }
  }

  lemma Times(per: nat, n: nat)
    ensures per * (n + 1) == per * n + per
  {}

  lemma ChunksStep(name: bytes, key: bytes, items: seq<Argv>, s: nat)
    requires s < |items|
    ensures var n := ChunkSize(|items| - s);
      Chunks(name, key, items[s..]) == [[name, key] + Flat(items[s..s + n])] + Chunks(name, key, items[s + n..])
  {
    var n := ChunkSize(|items| - s);
    assert items[s..][..n] == items[s..s + n] && items[s..][n..] == items[s + n..];
  }

  /** Where the loop is in a collection: `i` items are written, `count` of them in the open
      command, which was announced at item `i - count`; the commands before it are `done`. */
  ghost predicate At(out: bytes, base: bytes, name: bytes, key: bytes, items: seq<Argv>, per: nat, i: nat, count: nat, done: seq<Argv>) {
    && count <= i <= |items|
    && Chunks(name, key, items) == done + Chunks(name, key, items[i - count..])
    && if count == 0 then out == base + Log(done)
       else
         && count < ChunkSize(|items| - (i - count))
         && Writing(out, base, done, Announced(ChunkSize(|items| - (i - count)), per), [name, key] + Flat(items[i - count..i]))
  }

  /** rioWriteBulkCount and the two leading arguments. */
  method OpenCommand(out0: bytes, name: bytes, key: bytes, announced: nat, ghost base: bytes, ghost done: seq<Argv>)
    returns (out: bytes)
    requires out0 == base + Log(done)
    ensures Writing(out, base, done, announced, [name, key])
  {
    WriteCount(base, done, announced);
    out := out0 + Line(STAR, announced);
    WriteBulk(out, base, done, announced, [], name);
    assert [] + [name] == [name];
    hide Writing, Line, Bulk;
    out := out + Bulk(name);
    WriteBulk(out, base, done, announced, [name], key);
    out := out + Bulk(key);
    assert [name] + [key] == [name, key];
  }

  /** The strings of one item. */
  method WriteItem(out0: bytes, item: Argv, ghost base: bytes, ghost done: seq<Argv>, ghost announced: nat, ghost args: Argv)
    returns (out: bytes)
    requires Writing(out0, base, done, announced, args)
    ensures Writing(out, base, done, announced, args + item)
  {
    out := out0;
    var j := 0;
    assert args + item[..0] == args;
    hide Writing;
    while j < |item|
      invariant 0 <= j <= |item| && Writing(out, base, done, announced, args + item[..j])
    {
      WriteBulk(out, base, done, announced, args + item[..j], item[j]);
      assert args + item[..j] + [item[j]] == args + item[..j + 1];
      out := out + Bulk(item[j]);
      j := j + 1;
    }
    assert item[..j] == item;
  }

  lemma NoItems(items: seq<Argv>, i: nat)
    requires i <= |items|
    ensures Flat(items[i..i]) == []
  {}

  lemma FlatNext(items: seq<Argv>, s: nat, i: nat)
    requires s <= i < |items|
    ensures Flat(items[s..i]) + items[i] == Flat(items[s..i + 1])
  {
    assert items[s..i + 1][..i - s] == items[s..i];
  }

  /** The command that starts at item `s` is complete: as many arguments as announced. */
  lemma CommandDone(out: bytes, base: bytes, name: bytes, key: bytes, items: seq<Argv>, per: nat, s: nat, done: seq<Argv>)
    requires s < |items| && Uniform(items, per) && Chunks(name, key, items) == done + Chunks(name, key, items[s..])
    requires var n := ChunkSize(|items| - s);
      Writing(out, base, done, Announced(n, per), [name, key] + Flat(items[s..s + n]))
    ensures var n := ChunkSize(|items| - s);
      At(out, base, name, key, items, per, s + n, 0, done + [[name, key] + Flat(items[s..s + n])])
    ensures s + ChunkSize(|items| - s) == |items| ==> out == base + Log(Chunks(name, key, items))
  {
    hide *;
    var n := ChunkSize(|items| - s);
    ChunkFits(|items| - s);
    var cmd, rest := [name, key] + Flat(items[s..s + n]), Chunks(name, key, items[s + n..]);
    CommandLength(name, key, items, per, s, n);
    ChunksStep(name, key, items, s);
    WriteEnd(out, base, done, Announced(n, per), cmd);
    DoneNext(done, cmd, rest);
    AtStart(out, base, name, key, items, per, s + n, done + [cmd]);
    if s + n == |items| {
      NoChunks(name, key, items[s + n..]);
    }
  }

  lemma ChunkFits(n: nat)
    ensures ChunkSize(n) <= n
  {}

  lemma DoneNext(done: seq<Argv>, cmd: Argv, rest: seq<Argv>)
    ensures done + ([cmd] + rest) == done + [cmd] + rest
    ensures rest == [] ==> done + ([cmd] + rest) == done + [cmd]
  {}

  lemma AtStart(out: bytes, base: bytes, name: bytes, key: bytes, items: seq<Argv>, per: nat, i: nat, done: seq<Argv>)
    requires i <= |items| && Chunks(name, key, items) == done + Chunks(name, key, items[i..]) && out == base + Log(done)
    ensures At(out, base, name, key, items, per, i, 0, done)
  {
    hide Chunks, Log;
  }

  lemma NoChunks(name: bytes, key: bytes, items: seq<Argv>)
    requires |items| == 0
    ensures Chunks(name, key, items) == []
  {}

  lemma CommandLength(name: bytes, key: bytes, items: seq<Argv>, per: nat, s: nat, n: nat)
    requires s + n <= |items| && Uniform(items, per)
    ensures |[name, key] + Flat(items[s..s + n])| == Announced(n, per)
  {
    FlatLength(items[s..s + n], per);
    assert per * n == n * per;
  }

  /** One turn of the loop of rewriteListObject, rewriteSetObject or rewriteHashObject. */
  method RewriteItem(out0: bytes, name: bytes, key: bytes, items: seq<Argv>, per: nat, i: nat, count0: nat,
                     ghost base: bytes, ghost done0: seq<Argv>)
    returns (out: bytes, count: nat, ghost done: seq<Argv>)
    requires i < |items| && Uniform(items, per) && At(out0, base, name, key, items, per, i, count0, done0)
    ensures if i + 1 == |items| then out == base + Log(Chunks(name, key, items))
      else At(out, base, name, key, items, per, i + 1, count, done)
  {
    out := OpenIfFirst(out0, name, key, items, per, i, count0, base, done0);
    out := WriteItem(out, items[i], base, done0, Announced(ChunkSize(|items| - (i - count0)), per),
                     [name, key] + Flat(items[i - count0..i]));
    AfterItem(out, base, name, key, items, per, i, count0, done0);
    hide At, Writing, Chunks, Log, Flat, Announced;
    count, done := count0 + 1, done0;
    if count == ChunkSize(|items| - (i - count0)) { done := done + [[name, key] + Flat(items[i - count0..i + 1])]; }
    if count == ITEMS_PER_CMD { count := 0; }
  }

  /** `count == 0`: announce the next command. */
  method OpenIfFirst(out0: bytes, name: bytes, key: bytes, items: seq<Argv>, per: nat, i: nat, count: nat,
                     ghost base: bytes, ghost done: seq<Argv>)
    returns (out: bytes)
    requires i < |items| && At(out0, base, name, key, items, per, i, count, done)
    ensures count <= i && count < ChunkSize(|items| - (i - count))
    ensures Chunks(name, key, items) == done + Chunks(name, key, items[i - count..])
    ensures Writing(out, base, done, Announced(ChunkSize(|items| - (i - count)), per), [name, key] + Flat(items[i - count..i]))
  {
    out := out0;
    hide Chunks, Flat, Log;
    if count == 0 {
      var left := |items| - i;
      var cmdItems := if left > ITEMS_PER_CMD then ITEMS_PER_CMD else left;
      assert cmdItems == ChunkSize(left);
      hide Announced, Writing;
      out := OpenCommand(out, name, key, Announced(cmdItems, per), base, done);
      NoItems(items, i);
      assert [name, key] + Flat(items[i..i]) == [name, key];
    }
  }

  lemma AfterItem(out: bytes, base: bytes, name: bytes, key: bytes, items: seq<Argv>, per: nat, i: nat, count: nat, done: seq<Argv>)
    requires count <= i < |items| && Uniform(items, per) && count < ChunkSize(|items| - (i - count))
    requires Chunks(name, key, items) == done + Chunks(name, key, items[i - count..])
    requires Writing(out, base, done, Announced(ChunkSize(|items| - (i - count)), per),
                     [name, key] + Flat(items[i - count..i]) + items[i])
    ensures count + 1 < ChunkSize(|items| - (i - count)) ==> At(out, base, name, key, items, per, i + 1, count + 1, done)
    ensures count + 1 == ChunkSize(|items| - (i - count)) ==>
      && At(out, base, name, key, items, per, i + 1, 0, done + [[name, key] + Flat(items[i - count..i + 1])])
      && (i + 1 == |items| ==> out == base + Log(Chunks(name, key, items)))
  {
    hide *;
    var s := i - count;
    FlatNext(items, s, i);
    var args := [name, key] + Flat(items[s..i + 1]);
    AssocArgs([name, key], Flat(items[s..i]), items[i]);
    if count + 1 == ChunkSize(|items| - s) {
      assert s + ChunkSize(|items| - s) == i + 1;
      CommandDone(out, base, name, key, items, per, s, done);
    } else {
      assert (i + 1) - (count + 1) == s;
      AtMiddle(out, base, name, key, items, per, i + 1, count + 1, done);
    }
  }

  lemma AssocArgs(a: Argv, b: Argv, c: Argv)
    ensures a + b + c == a + (b + c)
  {}

  lemma AtMiddle(out: bytes, base: bytes, name: bytes, key: bytes, items: seq<Argv>, per: nat, i: nat, count: nat, done: seq<Argv>)
    requires 0 < count <= i <= |items| && Chunks(name, key, items) == done + Chunks(name, key, items[i - count..])
    requires count < ChunkSize(|items| - (i - count))
    requires Writing(out, base, done, Announced(ChunkSize(|items| - (i - count)), per), [name, key] + Flat(items[i - count..i]))
    ensures At(out, base, name, key, items, per, i, count, done)
  {
    hide Chunks, Writing, Flat, Announced, ChunkSize;
  }

  lemma NothingWritten(out0: bytes, name: bytes, key: bytes, items: seq<Argv>, per: nat)
    ensures if items == [] then out0 == out0 + Log(Chunks(name, key, items)) else At(out0, out0, name, key, items, per, 0, 0, [])
  {
    assert items[0..] == items && [] + Chunks(name, key, items) == Chunks(name, key, items);
    if items == [] {
      assert out0 + [] == out0;
    } else {
      assert out0 == out0 + Log([]);
      hide Chunks, Log;
    }
  }

  method RewriteItems(out0: bytes, name: bytes, key: bytes, items: seq<Argv>, per: nat) returns (out: bytes)
    requires Uniform(items, per)
    ensures out == out0 + Log(Chunks(name, key, items))
  {
    out := out0;
    var i, count := 0, 0;
    ghost var done: seq<Argv> := [];
    assert items[0..] == items;
    NothingWritten(out0, name, key, items, per);
    hide *;
    while i < |items|
      invariant 0 <= i <= |items| && count >= 0
      invariant if i == |items| then out == out0 + Log(Chunks(name, key, items))
        else At(out, out0, name, key, items, per, i, count, done)
    {
      out, count, done := RewriteItem(out, name, key, items, per, i, count, out0, done);
      i := i + 1;
    }
  }

  // ---- replaying the commands of one key

  ghost predicate Builder(name: bytes, per: nat, v: Value) {
    (name == RPUSH && per == 1 && v.List?) || (name == SADD && per == 1 && v.Members?) || (name == HMSET && per == 2 && v.Hash?)
  }

  /** The collection after more arguments of its command. */
  function Grow(v: Value, args: Argv): Value {
    match v
    case List(p) => List(p + args)
    case Members(p) => Members(p + ToSet(args))
    case Hash(p) => Hash(p + ToMap(args))
    case Str(_) => v
  }

  predicate IsNothing(v: Value) { v == List([]) || v == Members({}) || v == Hash(map[]) }

  /** `key` holds `v` without an expire, or is absent when `v` is nothing. */
  ghost predicate Has(r: Replay, key: bytes, v: Value) {
    r.db < |r.data| && if key in r.data[r.db] then r.data[r.db][key] == Obj(v, None) else IsNothing(v)
  }

  /** What the command gives, whichever of the three it is. */
  lemma ReplayGrow(other: Other, t: int, r: Replay, name: bytes, per: nat, key: bytes, v: Value, args: Argv)
    requires Builder(name, per, v) && Has(r, key, v) && args != [] && |args| % per == 0
    ensures ReplayCmd(other, t, r, [name, key] + args) == r.(data := Put(r.data, r.db, key, Obj(Grow(v, args), None)))
  {
    Names();
    var cmd := [name, key] + args;
    assert cmd[2..] == args && cmd[0] == name && cmd[1] == key;
    hide Upper, Lookup, Grow, Put;
    ReplayRun(other, t, r, cmd);
    CollectIs(other, Loading(t), r.data, r.db, cmd);
    hide Run, ReplayCmd, ReplayAll;
    if name == RPUSH {
      RunRPushGrows(r, key, v, args, cmd);
    } else if name == SADD {
      RunSAddGrows(r, key, v.members, args, cmd);
      GrowMembers(v, args);
    } else {
      RunHMSetGrows(r, key, v, args, cmd);
    }
    hide Has, RunRPush, RunSAdd, RunHMSet;
  }

  lemma GrowMembers(v: Value, args: Argv)
    requires v.Members?
    ensures Grow(v, args) == Members(v.members + ToSet(args))
  {}

  lemma RunRPushGrows(r: Replay, key: bytes, v: Value, args: Argv, cmd: Argv)
    requires Has(r, key, v) && v.List? && args != [] && |cmd| == 2 + |args| && cmd[2..] == args && cmd[1] == key
    ensures RunRPush(r.data, r.db, cmd).data == Put(r.data, r.db, key, Obj(Grow(v, args), None))
  {
    hide Put;
  }

  lemma RunHMSetGrows(r: Replay, key: bytes, v: Value, args: Argv, cmd: Argv)
    requires Has(r, key, v) && v.Hash? && args != [] && |args| % 2 == 0 && |cmd| == 2 + |args| && cmd[2..] == args && cmd[1] == key
    ensures RunHMSet(r.data, r.db, cmd).data == Put(r.data, r.db, key, Obj(Grow(v, args), None))
  {
    hide Put, ToMap;
  }

  lemma RunSAddGrows(r: Replay, key: bytes, m: set<bytes>, args: Argv, cmd: Argv)
    requires Has(r, key, Members(m)) && args != [] && |cmd| == 2 + |args| && cmd[2..] == args && cmd[1] == key
    ensures RunSAdd(r.data, r.db, cmd).data == Put(r.data, r.db, key, Obj(Members(m + ToSet(args)), None))
  {
    if ToSet(args) <= m {
      assert args[0] in ToSet(args);
      assert m + ToSet(args) == m;
      assert r.data[r.db][key := Obj(Members(m), None)] == r.data[r.db];
      assert Put(r.data, r.db, key, Obj(Members(m), None)) == r.data;
    }
  }

  lemma {:induction false} ToMapConcat(a: Argv, b: Argv)
    requires |a| % 2 == 0 && |b| % 2 == 0
    ensures ToMap(a + b) == ToMap(a) + ToMap(b)
    decreases |b|
  {
    if b == [] {
      assert a + b == a;
    } else {
      var b' := b[..|b| - 2];
      assert (a + b)[..|a + b| - 2] == a + b';
      ToMapConcat(a, b');
    }
  }

  lemma GrowTwice(v: Value, a: Argv, b: Argv)
    requires v.Hash? ==> |a| % 2 == 0 && |b| % 2 == 0
    ensures Grow(Grow(v, a), b) == Grow(v, a + b)
  {
    match v
    case List(p) => assert p + a + b == p + (a + b);
    case Members(p) => assert p + ToSet(a) + ToSet(b) == p + ToSet(a + b);
    case Hash(p) =>
      ToMapConcat(a, b);
      assert p + ToMap(a) + ToMap(b) == p + (ToMap(a) + ToMap(b));
    case Str(_) =>
  }

  lemma {:induction false} FlatConcat(a: seq<Argv>, b: seq<Argv>)
    ensures Flat(a + b) == Flat(a) + Flat(b)
    decreases |b|
  {
    if b == [] {
      assert a + b == a;
    } else {
      assert (a + b)[..|a + b| - 1] == a + b[..|b| - 1];
      FlatConcat(a, b[..|b| - 1]);
    }
  }

  /** All the chunks of a collection, replayed, add all its items. */
  lemma {:induction false} ChunksReplay(other: Other, t: int, r: Replay, name: bytes, per: nat, key: bytes, v: Value, items: seq<Argv>)
    requires Builder(name, per, v) && (per == 1 || per == 2) && Has(r, key, v) && Uniform(items, per) && items != []
    ensures ReplayAll(other, t, r, Chunks(name, key, items)) == r.(data := Put(r.data, r.db, key, Obj(Grow(v, Flat(items)), None)))
    decreases |items|
  {
    var n := ChunkSize(|items|);
    var a, rest := items[..n], items[n..];
    var cmd, v' := [name, key] + Flat(a), Grow(v, Flat(a));
    var r' := r.(data := Put(r.data, r.db, key, Obj(v', None)));
    UniformParts(items, per, n);
    assert Chunks(name, key, items) == [cmd] + Chunks(name, key, rest);
    hide *;
    FlatLength(a, per);
    EvenLength(per, n);
    Grown(r, name, per, key, v, Flat(a));
    FlatLength(rest, per);
    EvenLength(per, |rest|);
    FlatConcat(a, rest);
    ReplayGrow(other, t, r, name, per, key, v, Flat(a));
    ReplayConcat(other, t, r, [cmd], Chunks(name, key, rest));
    ReplayOne(other, t, r, cmd);
    if rest == [] {
      NoChunks(name, key, rest);
      NoReplay(other, t, r');
      assert a == items;
    } else {
      ChunksReplay(other, t, r', name, per, key, v', rest);
      GrownTwice(r, key, name, per, v, Flat(a), Flat(rest));
    }
  }

  lemma UniformParts(items: seq<Argv>, per: nat, n: nat)
    requires Uniform(items, per) && n <= |items|
    ensures Uniform(items[..n], per) && Uniform(items[n..], per) && items[..n] + items[n..] == items
  {
    forall i | 0 <= i < |items| - n ensures |items[n..][i]| == per {
      assert items[n..][i] == items[n + i];
    }
  }

  lemma Grown(r: Replay, name: bytes, per: nat, key: bytes, v: Value, args: Argv)
    requires Builder(name, per, v) && Has(r, key, v)
    ensures Builder(name, per, Grow(v, args)) && Has(r.(data := Put(r.data, r.db, key, Obj(Grow(v, args), None))), key, Grow(v, args))
  {}

  lemma EvenLength(per: nat, n: nat)
    requires per == 1 || per == 2
    ensures (per * n) % per == 0 && (per == 2 ==> (per * n) % 2 == 0) && (n > 0 ==> per * n > 0)
  {}

  lemma NoReplay(other: Other, t: int, r: Replay)
    requires r.db < |r.data|
    ensures ReplayAll(other, t, r, []) == r
  {}

  lemma GrownTwice(r: Replay, key: bytes, name: bytes, per: nat, v: Value, a: Argv, b: Argv)
    requires r.db < |r.data| && Builder(name, per, v) && (per == 2 ==> |a| % 2 == 0 && |b| % 2 == 0)
    ensures Put(Put(r.data, r.db, key, Obj(Grow(v, a), None)), r.db, key, Obj(Grow(Grow(v, a), b), None))
         == Put(r.data, r.db, key, Obj(Grow(v, a + b), None))
  {
    GrowTwice(v, a, b);
    PutPut(r.data, r.db, key, Obj(Grow(v, a), None), Obj(Grow(v, a + b), None));
  }

  // ---- the whole rewrite

  /** What a live dataset is: no empty collection, expires that are times, sizes in range. */
  predicate HealthyObj(key: bytes, o: Obj) {
    && |key| <= MAX_ARG && (o.expire.Some? ==> 0 <= o.expire.value <= LLONG_MAX)
    && match o.value
       case Str(s) => |s| <= MAX_ARG
       case List(l) => l != [] && forall i :: 0 <= i < |l| ==> |l[i]| <= MAX_ARG
       case Members(m) => m != {} && forall x :: x in m ==> |x| <= MAX_ARG
       case Hash(h) => h != map[] && forall f :: f in h ==> |f| <= MAX_ARG && |h[f]| <= MAX_ARG
  }

  predicate Healthy(data: Dataset) {
    forall j, k :: 0 <= j < |data| && k in data[j] ==> HealthyObj(k, data[j][k])
  }

  predicate Overdue(o: Obj, now: int) { o.expire.Some? && o.expire.value < now }

  function WithoutOverdue(db: Db, now: int): Db {
    map k | k in db && !Overdue(db[k], now) :: db[k]
  }

  /** The commands set a key that was absent. */
  ghost predicate SetsKey(other: Other, cmds: seq<Argv>, key: bytes, o: Obj) {
    forall t: int, r: Replay :: r.db < |r.data| && key !in r.data[r.db] ==>
      ReplayAll(other, t, r, cmds) == Replay(Put(r.data, r.db, key, o), r.db)
  }

  /** A string of the collection. */
  ghost predicate Within(v: Value, x: bytes) {
    match v
    case Str(s) => x == s
    case List(l) => x in l
    case Members(m) => x in m
    case Hash(h) => x in h || exists f :: f in h && h[f] == x
  }

  ghost predicate AllWithin(v: Value, items: seq<Argv>) {
    forall i, j :: 0 <= i < |items| && 0 <= j < |items[i]| ==> Within(v, items[i][j])
  }

  /** Adding the items to `none`, an empty collection, gives `v`. */
  ghost predicate ItemsOf(v: Value, none: Value, name: bytes, per: nat, items: seq<Argv>) {
    && IsNothing(none) && Builder(name, per, none) && Grow(none, Flat(items)) == v
    && Uniform(items, per) && items != [] && AllWithin(v, items)
  }

  lemma FlatOne(items: seq<Argv>, x: bytes)
    requires Uniform(items, 1)
    ensures Uniform(items + [[x]], 1) && Flat(items + [[x]]) == Flat(items) + [x]
  {
    assert (items + [[x]])[..|items|] == items;
  }

  lemma AllWithinOne(v: Value, items: seq<Argv>, x: bytes)
    requires AllWithin(v, items) && Within(v, x)
    ensures AllWithin(v, items + [[x]])
  {}

  method ListItems(l: seq<bytes>) returns (items: seq<Argv>)
    requires l != []
    ensures ItemsOf(List(l), List([]), RPUSH, 1, items)
  {
    items := [];
    while |items| < |l|
      invariant |items| <= |l| && Uniform(items, 1) && Flat(items) == l[..|items|] && AllWithin(List(l), items)
    {
      FlatOne(items, l[|items|]);
      AllWithinOne(List(l), items, l[|items|]);
      assert l[..|items| + 1] == l[..|items|] + [l[|items|]];
      hide *;
      items := items + [[l[|items|]]];
    }
    assert l[..|items|] == l && [] + l == l;
  }

  /** The members in the order some iterator gives them. */
  method SetItems(m: set<bytes>) returns (items: seq<Argv>)
    requires m != {}
    ensures ItemsOf(Members(m), Members({}), SADD, 1, items)
  {
    items := [];
    var left := m;
    while left != {}
      invariant left <= m && Uniform(items, 1) && ToSet(Flat(items)) + left == m && (items == [] ==> left == m)
      invariant AllWithin(Members(m), items)
      decreases left
    {
      var x :| x in left;
      FlatOne(items, x);
      AllWithinOne(Members(m), items, x);
      assert ToSet(Flat(items) + [x]) == ToSet(Flat(items)) + {x};
      hide *;
      items := items + [[x]];
      left := left - {x};
    }
    assert {} + m == m;
  }

  lemma FlatPair(items: seq<Argv>, f: bytes, x: bytes)
    requires Uniform(items, 2)
    ensures Uniform(items + [[f, x]], 2) && ToMap(Flat(items + [[f, x]])) == ToMap(Flat(items))[f := x]
  {
    var more := items + [[f, x]];
    assert more[..|more| - 1] == items;
    assert Flat(more) == Flat(items) + [f, x];
    assert Flat(more)[..|Flat(more)| - 2] == Flat(items);
  }

  lemma AllWithinPair(h: map<bytes, bytes>, items: seq<Argv>, f: bytes)
    requires AllWithin(Hash(h), items) && f in h
    ensures AllWithin(Hash(h), items + [[f, h[f]]])
  {}

  lemma KeysLeft(h: map<bytes, bytes>, left: set<bytes>, f: bytes)
    requires left <= h.Keys && f in left
    ensures h - (left - {f}) == (h - left)[f := h[f]]
  {}

  method HashItems(h: map<bytes, bytes>) returns (items: seq<Argv>)
    requires h != map[]
    ensures ItemsOf(Hash(h), Hash(map[]), HMSET, 2, items)
  {
    items := [];
    var left := h.Keys;
    while left != {}
      invariant left <= h.Keys && Uniform(items, 2) && (items == [] ==> left == h.Keys)
      invariant ToMap(Flat(items)) == h - left && AllWithin(Hash(h), items)
      decreases left
    {
      var f :| f in left;
      FlatPair(items, f, h[f]);
      AllWithinPair(h, items, f);
      KeysLeft(h, left, f);
      hide *;
      items := items + [[f, h[f]]];
      left := left - {f};
    }
    assert h - {} == h && map[] + h == h;
  }

  lemma KeySet(other: Other, t: int, r: Replay, cmds: seq<Argv>, key: bytes, o: Obj)
    requires SetsKey(other, cmds, key, o) && r.db < |r.data| && key !in r.data[r.db]
    ensures ReplayAll(other, t, r, cmds) == Replay(Put(r.data, r.db, key, o), r.db)
  {}

  /** The chunks of a collection, from nothing, set the key to it. */
  lemma ChunksSetKey(other: Other, v: Value, none: Value, name: bytes, per: nat, key: bytes, items: seq<Argv>)
    requires ItemsOf(v, none, name, per, items)
    ensures SetsKey(other, Chunks(name, key, items), key, Obj(v, None))
  {
    forall t: int, r: Replay | r.db < |r.data| && key !in r.data[r.db]
      ensures ReplayAll(other, t, r, Chunks(name, key, items)) == Replay(Put(r.data, r.db, key, Obj(v, None)), r.db)
    {
      ChunksReplay(other, t, r, name, per, key, none, items);
    }
  }

  lemma StringSetsKey(other: Other, key: bytes, s: bytes)
    ensures SetsKey(other, [[SET, key, s]], key, Obj(Str(s), None))
  {
    forall t: int, r: Replay | r.db < |r.data| && key !in r.data[r.db]
      ensures ReplayAll(other, t, r, [[SET, key, s]]) == Replay(Put(r.data, r.db, key, Obj(Str(s), None)), r.db)
    {
      ReplayOne(other, t, r, [SET, key, s]);
      ReplayPlainSet(other, t, r, key, s);
    }
  }

  /** The expire, written after the value. */
  lemma ThenExpire(other: Other, cmds: seq<Argv>, key: bytes, v: Value, when: int)
    requires SetsKey(other, cmds, key, Obj(v, None)) && InLL(when)
    ensures SetsKey(other, cmds + [PExpireAtCmd(key, when)], key, Obj(v, Some(when)))
  {
    forall t: int, r: Replay | r.db < |r.data| && key !in r.data[r.db]
      ensures ReplayAll(other, t, r, cmds + [PExpireAtCmd(key, when)]) == Replay(Put(r.data, r.db, key, Obj(v, Some(when))), r.db)
    {
      var r' := Replay(Put(r.data, r.db, key, Obj(v, None)), r.db);
      KeySet(other, t, r, cmds, key, Obj(v, None));
      ReplayConcat(other, t, r, cmds, [PExpireAtCmd(key, when)]);
      ReplayOne(other, t, r', PExpireAtCmd(key, when));
      ReplayPExpireAt(other, t, r', key, when);
      PutPut(r.data, r.db, key, Obj(v, None), Obj(v, Some(when)));
    }
  }

  // ---- sizes

  lemma {:induction false} FlatSmall(v: Value, items: seq<Argv>)
    requires AllWithin(v, items) && forall x :: Within(v, x) ==> |x| <= MAX_ARG
    ensures forall j :: 0 <= j < |Flat(items)| ==> |Flat(items)[j]| <= MAX_ARG
  {
    if items != [] {
      var front, last := items[..|items| - 1], items[|items| - 1];
      FlatSmall(v, front);
      assert forall j :: 0 <= j < |last| ==> last[j] == items[|items| - 1][j] && Within(v, last[j]);
    }
  }

  lemma {:induction false} ChunksLoggable(v: Value, name: bytes, per: nat, key: bytes, items: seq<Argv>)
    requires AllWithin(v, items) && (forall x :: Within(v, x) ==> |x| <= MAX_ARG) && Uniform(items, per) && per <= 2
    requires |name| <= MAX_ARG && |key| <= MAX_ARG
    ensures AllLoggable(Chunks(name, key, items))
    decreases |items|
  {
    if items != [] {
      var n := ChunkSize(|items|);
      var a, rest := items[..n], items[n..];
      FlatSmall(v, a);
      FlatLength(a, per);
      assert |Flat(a)| <= 128;
      ChunksLoggable(v, name, per, key, rest);
      assert Loggable([name, key] + Flat(a));
    }
  }

  // ---- one key, one DB, the dataset

  /** The value of one key. */
  method RewriteValue(other: Other, out0: bytes, key: bytes, v: Value) returns (out: bytes, ghost cmds: seq<Argv>)
    requires HealthyObj(key, Obj(v, None))
    ensures out == out0 + Log(cmds) && AllLoggable(cmds)
    ensures SetsKey(other, cmds, key, Obj(v, None))
  {
    hide SetsKey, Chunks, Log;
    if v.Str? {
      cmds := [[SET, key, v.s]];
      out := out0 + Cat([SET, key, v.s]);
      LogAppend([], [SET, key, v.s]);
      NoLog();
      assert [] + cmds == cmds && [] + Cat([SET, key, v.s]) == Cat([SET, key, v.s]);
      StringSetsKey(other, key, v.s);
    } else {
      var name, per, items := SADD, 1, [];
      ghost var none := v;
      match v {
        case List(l) => items := ListItems(l); name, none := RPUSH, List([]);
        case Members(m) => items := SetItems(m); none := Members({});
        case Hash(h) => items := HashItems(h); name, per, none := HMSET, 2, Hash(map[]);
      }
      cmds := Chunks(name, key, items);
      assert ItemsOf(v, none, name, per, items);
      out := RewriteItems(out0, name, key, items, per);
      ChunksSetKey(other, v, none, name, per, key, items);
      ChunksLoggable(v, name, per, key, items);
    }
  }

  lemma NoLog()
    ensures Log([]) == []
  {}

  /** A key with its value and expire: lines 890-915. */
  method RewriteKey(other: Other, out0: bytes, key: bytes, o: Obj) returns (out: bytes, ghost cmds: seq<Argv>)
    requires HealthyObj(key, o)
    ensures out == out0 + Log(cmds) && AllLoggable(cmds)
    ensures SetsKey(other, cmds, key, o)
  {
    out, cmds := RewriteValue(other, out0, key, o.value);
    if o.expire.Some? {
      var when := o.expire.value;
      hide SetsKey, Log;
      ThenExpire(other, cmds, key, o.value, when);
      PrintLL(when);
      LogAppend(cmds, PExpireAtCmd(key, when));
      Assoc(out0, Log(cmds), Cat(PExpireAtCmd(key, when)));
      out := out + Cat(PExpireAtCmd(key, when));
      cmds := cmds + [PExpireAtCmd(key, when)];
    }
  }

  function SelectCmd(j: nat): Argv { [SELECT, Print(j)] }

  lemma ReplaySelect(other: Other, t: int, r: Replay, j: nat)
    requires r.db < |r.data| && j < |r.data| <= LLONG_MAX
    ensures ReplayCmd(other, t, r, SelectCmd(j)) == r.(db := j)
  {
    Names();
    ParsePrinted(j);
  }

  /** The commands fill DB `j`, that was empty, with `m`, and leave it selected. */
  ghost predicate FillsDb(other: Other, cmds: seq<Argv>, dbnum: nat, j: nat, m: Db) {
    j < dbnum <= LLONG_MAX &&
    forall t: int, r: Replay :: r.db < |r.data| == dbnum && r.data[j] == map[] ==>
      ReplayAll(other, t, r, cmds) == Replay(r.data[j := m], j)
  }

  lemma SelectFills(other: Other, dbnum: nat, j: nat)
    requires j < dbnum <= LLONG_MAX
    ensures FillsDb(other, [SelectCmd(j)], dbnum, j, map[])
  {
    forall t: int, r: Replay | r.db < |r.data| == dbnum && r.data[j] == map[]
      ensures ReplayAll(other, t, r, [SelectCmd(j)]) == Replay(r.data[j := map[]], j)
    {
      ReplayOne(other, t, r, SelectCmd(j));
      ReplaySelect(other, t, r, j);
      assert r.data[j := map[]] == r.data;
    }
  }

  lemma KeyFills(other: Other, cmds: seq<Argv>, dbnum: nat, j: nat, m: Db, more: seq<Argv>, key: bytes, o: Obj)
    requires FillsDb(other, cmds, dbnum, j, m) && SetsKey(other, more, key, o) && key !in m
    ensures FillsDb(other, cmds + more, dbnum, j, m[key := o])
  {
    forall t: int, r: Replay | r.db < |r.data| == dbnum && r.data[j] == map[]
      ensures ReplayAll(other, t, r, cmds + more) == Replay(r.data[j := m[key := o]], j)
    {
      var r' := Replay(r.data[j := m], j);
      assert ReplayAll(other, t, r, cmds) == r';
      ReplayConcat(other, t, r, cmds, more);
      KeySet(other, t, r', more, key, o);
      assert Put(r'.data, j, key, o) == r.data[j := m[key := o]];
    }
  }

  lemma OnlySelect(j: nat)
    requires j < LLONG_MAX
    ensures Log([SelectCmd(j)]) == Cat(SelectCmd(j)) && AllLoggable([SelectCmd(j)])
  {
    PrintLL(j);
    LogAppend([], SelectCmd(j));
    NoLog();
    assert [] + [SelectCmd(j)] == [SelectCmd(j)] && [] + Cat(SelectCmd(j)) == Cat(SelectCmd(j));
    hide Log, Cat;
  }

  /** One DB: lines 860-917. The keys come in the order some iterator gives them. */
  method RewriteDb(other: Other, out0: bytes, dbnum: nat, j: nat, db: Db, now: int) returns (out: bytes, ghost cmds: seq<Argv>)
    requires j < dbnum <= LLONG_MAX && forall k :: k in db ==> HealthyObj(k, db[k])
    ensures out == out0 + Log(cmds) && AllLoggable(cmds)
    ensures FillsDb(other, cmds, dbnum, j, WithoutOverdue(db, now))
  {
    cmds := [SelectCmd(j)];
    OnlySelect(j);
    out := out0 + Cat(SelectCmd(j));
    SelectFills(other, dbnum, j);
    var left := db.Keys;
    ghost var m: Db := map[];
    hide FillsDb, SetsKey, Log, HealthyObj, AllLoggable, Cat;
    while left != {}
      invariant left <= db.Keys && m == map k | k in db && k !in left && !Overdue(db[k], now) :: db[k]
      invariant out == out0 + Log(cmds) && AllLoggable(cmds) && FillsDb(other, cmds, dbnum, j, m)
      decreases left
    {
      var key :| key in left;
      if !Overdue(db[key], now) {
        ghost var more;
        ghost var before := out;
        out, more := RewriteKey(other, out, key, db[key]);
        KeyFills(other, cmds, dbnum, j, m, more, key, db[key]);
        LogConcat(cmds, more);
        LoggableConcat(cmds, more);
        Assoc(out0, Log(cmds), Log(more));
        cmds := cmds + more;
        m := m[key := db[key]];
      }
      left := left - {key};
    }
    assert m == WithoutOverdue(db, now);
  }

  /** The first `j` DBs are rebuilt. */
  ghost predicate Rebuilds(other: Other, cmds: seq<Argv>, data: Dataset, now: int, j: nat) {
    && 0 < |data| && j <= |data|
    && forall t: int ::
      var r := ReplayAll(other, t, Replay(NoData(|data|), 0), cmds);
      forall i :: 0 <= i < |data| ==> r.data[i] == if i < j then WithoutOverdue(data[i], now) else map[]
  }

  lemma DbRebuilt(other: Other, cmds: seq<Argv>, more: seq<Argv>, data: Dataset, now: int, j: nat)
    requires Rebuilds(other, cmds, data, now, j) && j < |data|
    requires if data[j] == map[] then more == [] else FillsDb(other, more, |data|, j, WithoutOverdue(data[j], now))
    ensures Rebuilds(other, cmds + more, data, now, j + 1)
  {
    forall t: int
      ensures var r := ReplayAll(other, t, Replay(NoData(|data|), 0), cmds + more);
        forall i :: 0 <= i < |data| ==> r.data[i] == if i < j + 1 then WithoutOverdue(data[i], now) else map[]
    {
      var r0 := ReplayAll(other, t, Replay(NoData(|data|), 0), cmds);
      ReplayConcat(other, t, Replay(NoData(|data|), 0), cmds, more);
      assert r0.data[j] == map[];
      if data[j] == map[] {
        assert WithoutOverdue(data[j], now) == map[];
      }
    }
  }

  /** rewriteAppendOnlyFile: the log of a dataset, which rebuilds it but for overdue keys. */
  method RewriteAppendOnlyFile(other: Other, data: Dataset, now: int) returns (out: bytes, ghost cmds: seq<Argv>)
    requires 0 < |data| <= LLONG_MAX && Healthy(data)
    ensures out == Log(cmds) && AllLoggable(cmds)
    ensures Rebuilds(other, cmds, data, now, |data|)
  {
    out, cmds := [], [];
    var j := 0;
    while j < |data|
      invariant 0 <= j <= |data| && out == Log(cmds) && AllLoggable(cmds) && Rebuilds(other, cmds, data, now, j)
    {
      ghost var more: seq<Argv> := [];
      NoMore(cmds);
      hide Healthy, Rebuilds, AllLoggable, Log, FillsDb;
      if data[j] != map[] {
        HealthyDb(data, j);
        out, more := RewriteDb(other, out, |data|, j, data[j], now);
        LogConcat(cmds, more);
        LoggableConcat(cmds, more);
      }
      DbRebuilt(other, cmds, more, data, now, j);
      cmds := cmds + more;
      j := j + 1;
    }
  }

  lemma NoMore(cmds: seq<Argv>)
    ensures cmds + [] == cmds
  {}

  lemma HealthyDb(data: Dataset, j: nat)
    requires Healthy(data) && j < |data|
    ensures forall k :: k in data[j] ==> HealthyObj(k, data[j][k])
  {}

  lemma LoggableConcat(a: seq<Argv>, b: seq<Argv>)
    requires AllLoggable(a) && AllLoggable(b)
    ensures AllLoggable(a + b)
  {}

  /** Without overdue keys, the rewritten log replays to exactly the dataset. */
  lemma RebuildsAll(other: Other, cmds: seq<Argv>, data: Dataset, now: int, t: int)
    requires Rebuilds(other, cmds, data, now, |data|)
    requires forall j, k :: 0 <= j < |data| && k in data[j] ==> !Overdue(data[j][k], now)
    ensures ReplayAll(other, t, Replay(NoData(|data|), 0), cmds).data == data
  {
    var r := ReplayAll(other, t, Replay(NoData(|data|), 0), cmds);
    forall i | 0 <= i < |data| ensures r.data[i] == data[i] {
      assert WithoutOverdue(data[i], now) == data[i];
    }
  }

  /** A dataset rewritten and loaded, at any two times: every DB without its overdue keys. */
  method RewriteAndLoad(other: Other, data: Dataset, now: int, t: int) returns (res: LoadResult)
    requires 0 < |data| <= LLONG_MAX && Healthy(data)
    ensures res != Fatal
    ensures res.Loaded? ==> |res.data| == |data| && forall i :: 0 <= i < |data| ==> res.data[i] == WithoutOverdue(data[i], now)
    ensures res.NothingToLoad? ==> forall i :: 0 <= i < |data| ==> WithoutOverdue(data[i], now) == map[]
  {
    var file;
    ghost var cmds;
    file, cmds := RewriteAppendOnlyFile(other, data, now);
    res := LoadAppendOnlyFile(other, t, file, |data|, cmds, [], []);
    hide Log, AllLoggable, WithoutOverdue;
    var _ := ReplayAll(other, t, Replay(NoData(|data|), 0), cmds);
  }
}
