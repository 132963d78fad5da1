/** Safe iteration over a dictionary whose loop body may change it. The pointer to an
    entry is represented by the entry's key, keys being unique. */
module DictIteration {
  import opened Wrappers
  import opened DictTables
  import opened DictClass

  /** A cursor: the table, the bucket, whether an entry was just returned (`entry` is not
      NULL), and the entry saved to follow it. */
  datatype Cursor<K> = Cursor(table: nat, index: int, entry: bool, next: Option<K>)

  ghost function Of<K, V>(c: Cursor<K>, t0: Table<K, V>, t1: Table<K, V>): Table<K, V> {
    if c.table == 0 then t0 else t1
  }

  ghost predicate Ok<K, V>(c: Cursor<K>, t0: Table<K, V>, t1: Table<K, V>) {
    var t := Of(c, t0, t1);
    && c.table <= 1 && (c.table == 1 ==> |t1| > 0 && c.index >= 0) && -1 <= c.index <= |t|
    && (c.entry ==> 0 <= c.index < |t| && (c.next.Some? ==> c.next.value in Keys(t[c.index])))
  }

  /** The keys the cursor has still to reach. */
  ghost predicate Pending<K(!new), V>(c: Cursor<K>, t0: Table<K, V>, t1: Table<K, V>, hash: K -> nat, k: K) {
    var t := Of(c, t0, t1);
    || (c.entry && c.next.Some? && 0 <= c.index < |t| && k in From(Keys(t[c.index]), c.next.value))
    || (|t| > 0 && Find(t, hash, k).Some? && Home(hash, k, |t|) > c.index)
    || (c.table == 0 && Find(t1, hash, k).Some?)
  }

  // ---- moving the cursor

  lemma InChain<K(!new), V>(t: Table<K, V>, hash: K -> nat, i: nat, k: K)
    requires Homed(t, hash) && i < |t|
    ensures k in Keys(t[i]) <==> Find(t, hash, k).Some? && Home(hash, k, |t|) == i
  {
    FindInNone(t[i], k);
    if k in Keys(t[i]) {
      var p :| 0 <= p < |t[i]| && Keys(t[i])[p] == k;
      assert Home(hash, t[i][p].key, |t|) == i;
    }
  }

  /** Entering bucket `i + 1`. */
  lemma EnterBucket<K(!new), V>(c: Cursor<K>, t0: Table<K, V>, t1: Table<K, V>, hash: K -> nat, k: K)
    requires Homed(t0, hash) && Homed(t1, hash) && Ok(c, t0, t1) && c.index + 1 < |Of(c, t0, t1)|
    requires !(c.entry && c.next.Some?)
    ensures Pending(c, t0, t1, hash, k) <==>
      k in Keys(Of(c, t0, t1)[c.index + 1]) || Pending(Cursor(c.table, c.index + 1, false, None), t0, t1, hash, k)
  {
    InChain(Of(c, t0, t1), hash, c.index + 1, k);
  }

  /** Passing from the end of the first table to the start of the second. */
  lemma EnterSecond<K(!new), V>(c: Cursor<K>, t0: Table<K, V>, t1: Table<K, V>, hash: K -> nat, k: K)
    requires Homed(t0, hash) && Homed(t1, hash) && Ok(c, t0, t1) && c.table == 0 && c.index + 1 >= |t0| && |t1| > 0
    requires !(c.entry && c.next.Some?)
    ensures Pending(c, t0, t1, hash, k) <==> k in Keys(t1[0]) || Pending(Cursor(1, 0, false, None), t0, t1, hash, k)
  {
    InChain(t1, hash, 0, k);
  }

  /** A fresh cursor has every key of the map before it. */
  lemma PendingAtStart<K(!new), V>(t0: Table<K, V>, t1: Table<K, V>, used0: nat, used1: nat, rehashidx: int,
                                   hash: K -> nat, m: map<K, V>, k: K)
    requires Inv(t0, t1, used0, used1, rehashidx, hash, m)
    ensures Pending(Cursor(0, -1, false, None), t0, t1, hash, k) <==> k in m
  {
    assert Holds(t0, t1, hash, m, k);
  }

  function NextOf<K, V>(chain: Chain<K, V>, p: nat): Option<K> {
    if p + 1 < |chain| then Some(chain[p + 1].key) else None
  }

  lemma {:induction false} FromAt<K>(ks: seq<K>, p: nat)
    requires p < |ks| && forall i, j :: 0 <= i < j < |ks| ==> ks[i] != ks[j]
    ensures From(ks, ks[p]) == ks[p..]
  {
    if p > 0 {
      assert ks[1..][p - 1] == ks[p];
      FromAt(ks[1..], p - 1);
    }
  }

  /** Returning entry `p` of a chain: it is pending before and not after, nothing else changes. */
  lemma Land<K(!new), V>(t0: Table<K, V>, t1: Table<K, V>, hash: K -> nat, table: nat, i: nat, p: nat, k: K)
    requires Homed(t0, hash) && Homed(t1, hash) && table <= 1
    requires var t := if table == 0 then t0 else t1; i < |t| && p < |t[i]|
    requires table == 0 ==> forall x :: Find(t0, hash, x).Some? ==> Find(t1, hash, x) == None
    ensures var t := if table == 0 then t0 else t1;
      var c := Cursor(table, i, true, NextOf(t[i], p));
      && Ok(c, t0, t1)
      && !Pending(c, t0, t1, hash, t[i][p].key)
      && (k != t[i][p].key ==> (Pending(c, t0, t1, hash, k) <==>
           k in From(Keys(t[i]), t[i][p].key) || Pending(Cursor(table, i, false, None), t0, t1, hash, k)))
  {
    var t: Table<K, V> := if table == 0 then t0 else t1;
    var ks, c := Keys(t[i]), Cursor(table, i, true, NextOf(t[i], p));
    NoDupPairs(t[i]);
    FromAt(ks, p);
    InChain(t, hash, i, t[i][p].key);
    if p + 1 < |ks| {
      FromAt(ks, p + 1);
      assert c.next.value == ks[p + 1] && From(ks, c.next.value) == ks[p + 1..];
      assert ks[p..] == [ks[p]] + ks[p + 1..];
    } else {
      assert ks[p..] == [ks[p]];
    }
  }

  /** Nothing is left. */
  ghost predicate Exhausted<K(!new), V>(c: Cursor<K>, t0: Table<K, V>, t1: Table<K, V>, hash: K -> nat) {
    forall k :: !Pending(c, t0, t1, hash, k)
  }

  /** From `c0` the cursor has come to bucket `c.index`, with nothing lost on the way. */
  ghost predicate Reached<K(!new), V>(c0: Cursor<K>, c: Cursor<K>, t0: Table<K, V>, t1: Table<K, V>, hash: K -> nat) {
    var t := Of(c, t0, t1);
    && c.table <= 1 && 0 <= c.index < |t| && !c.entry
    && (c.table > c0.table || (c.table == c0.table && c.index > c0.index))
    && forall k :: Pending(c0, t0, t1, hash, k) <==> k in Keys(t[c.index]) || Pending(c, t0, t1, hash, k)
  }

  ghost predicate Entered<K(!new), V>(c0: Cursor<K>, c: Cursor<K>, t0: Table<K, V>, t1: Table<K, V>, hash: K -> nat) {
    Reached(c0, c, t0, t1, hash) && Of(c, t0, t1)[c.index] != []
  }

  lemma ReachBucket<K(!new), V>(c: Cursor<K>, t0: Table<K, V>, t1: Table<K, V>, hash: K -> nat)
    requires Homed(t0, hash) && Homed(t1, hash) && Ok(c, t0, t1) && c.index + 1 < |Of(c, t0, t1)| && !(c.entry && c.next.Some?)
    ensures var c' := Cursor(c.table, c.index + 1, false, None); Reached(c, c', t0, t1, hash) && Ok(c', t0, t1)
  {
    forall k { EnterBucket(c, t0, t1, hash, k); }
    hide Pending;
  }

  lemma ReachSecond<K(!new), V>(c: Cursor<K>, t0: Table<K, V>, t1: Table<K, V>, hash: K -> nat)
    requires Homed(t0, hash) && Homed(t1, hash) && Ok(c, t0, t1) && c.table == 0 && c.index + 1 >= |t0| && |t1| > 0
    requires !(c.entry && c.next.Some?)
    ensures Reached(c, Cursor(1, 0, false, None), t0, t1, hash) && Ok(Cursor(1, 0, false, None), t0, t1)
  {
    forall k { EnterSecond(c, t0, t1, hash, k); }
    hide Pending;
  }

  lemma AllExhausted<K(!new), V>(c: Cursor<K>, t0: Table<K, V>, t1: Table<K, V>, hash: K -> nat)
    requires Ok(c, t0, t1) && c.index + 1 >= |Of(c, t0, t1)| && (c.table == 1 || |t1| == 0) && !(c.entry && c.next.Some?)
    ensures Exhausted(c, t0, t1, hash)
    ensures Ok(Cursor(c.table, |Of(c, t0, t1)|, false, None), t0, t1)
  {}

  /** An empty bucket is passed over. */
  lemma PassEmpty<K(!new), V>(c0: Cursor<K>, c: Cursor<K>, c': Cursor<K>, t0: Table<K, V>, t1: Table<K, V>, hash: K -> nat)
    requires Reached(c0, c, t0, t1, hash) && Of(c, t0, t1)[c.index] == []
    ensures Reached(c, c', t0, t1, hash) ==> Reached(c0, c', t0, t1, hash)
    ensures Exhausted(c, t0, t1, hash) ==> Exhausted(c0, t0, t1, hash)
  {}

  lemma ReachedBucket<K(!new), V>(c0: Cursor<K>, c: Cursor<K>, t0: Table<K, V>, t1: Table<K, V>, hash: K -> nat)
    requires Reached(c0, c, t0, t1, hash)
    ensures c.table <= 1 && 0 <= c.index < |Of(c, t0, t1)|
    ensures c.table > c0.table || (c.table == c0.table && c.index > c0.index)
  {}

  /** How many entries of the current chain follow the one just returned. */
  ghost function ChainLeft<K, V>(c: Cursor<K>, t0: Table<K, V>, t1: Table<K, V>): nat {
    var t := Of(c, t0, t1);
    if c.entry && c.next.Some? && 0 <= c.index < |t| then |From(Keys(t[c.index]), c.next.value)| else 0
  }

  /** One call of dictNext: `e`, an entry of the map that was pending, is the one key that
      no longer is, and the cursor has advanced. */
  ghost predicate Returned<K(!new), V>(c0: Cursor<K>, c: Cursor<K>, t0: Table<K, V>, t1: Table<K, V>,
                                       hash: K -> nat, m: map<K, V>, e: Entry<K, V>) {
    && Pending(c0, t0, t1, hash, e.key) && e.key in m && m[e.key] == e.val
    && (forall k :: Pending(c, t0, t1, hash, k) <==> Pending(c0, t0, t1, hash, k) && k != e.key)
    && Progress(c0, c, t0, t1)
  }

  lemma LandAll<K(!new), V>(c0: Cursor<K>, c: Cursor<K>, t0: Table<K, V>, t1: Table<K, V>, used0: nat, used1: nat,
                            rehashidx: int, hash: K -> nat, m: map<K, V>, p: nat)
    requires Inv(t0, t1, used0, used1, rehashidx, hash, m) && Ok(c, t0, t1) && 0 <= c.index < |Of(c, t0, t1)|
    requires p < |Of(c, t0, t1)[c.index]|
    requires (Entered(c0, c, t0, t1, hash) && p == 0)
      || (c == c0 && c.entry && c.next == Some(Of(c, t0, t1)[c.index][p].key))
    ensures var chain := Of(c, t0, t1)[c.index];
      var c' := Cursor(c.table, c.index, true, NextOf(chain, p));
      Ok(c', t0, t1) && Returned(c0, c', t0, t1, hash, m, chain[p])
  {
    var t := Of(c, t0, t1);
    var chain := t[c.index];
    var e, c' := chain[p], Cursor(c.table, c.index, true, NextOf(chain, p));
    InMap(t0, t1, used0, used1, rehashidx, hash, m, c, p);
    LandProgress(c0, c, t0, t1, hash, p);
    forall k ensures Landed(c0, c', t0, t1, hash, e.key, k) {
      LandKey(c0, c, t0, t1, hash, p, k);
    }
    hide *;
    ByLanding(c0, c', t0, t1, hash, m, e);
  }

  lemma ByLanding<K(!new), V>(c0: Cursor<K>, c': Cursor<K>, t0: Table<K, V>, t1: Table<K, V>, hash: K -> nat, m: map<K, V>, e: Entry<K, V>)
    requires forall k :: Landed(c0, c', t0, t1, hash, e.key, k)
    requires e.key in m && m[e.key] == e.val && Progress(c0, c', t0, t1)
    ensures Returned(c0, c', t0, t1, hash, m, e)
  {
    hide Pending, ChainLeft;
    assert Landed(c0, c', t0, t1, hash, e.key, e.key);
    forall k ensures Pending(c', t0, t1, hash, k) <==> Pending(c0, t0, t1, hash, k) && k != e.key {
      assert Landed(c0, c', t0, t1, hash, e.key, k);
    }
  }

  ghost predicate Progress<K, V>(c0: Cursor<K>, c: Cursor<K>, t0: Table<K, V>, t1: Table<K, V>) {
    || c.table > c0.table
    || (c.table == c0.table && c.index > c0.index)
    || (c.table == c0.table && c.index == c0.index && c0.entry && ChainLeft(c, t0, t1) < ChainLeft(c0, t0, t1))
  }

  /** What returning the entry of `key` does to the key `k`. */
  ghost predicate Landed<K(!new), V>(c0: Cursor<K>, c': Cursor<K>, t0: Table<K, V>, t1: Table<K, V>, hash: K -> nat, key: K, k: K) {
    if k == key then Pending(c0, t0, t1, hash, k) && !Pending(c', t0, t1, hash, k)
    else Pending(c', t0, t1, hash, k) <==> Pending(c0, t0, t1, hash, k)
  }

  lemma InMap<K(!new), V>(t0: Table<K, V>, t1: Table<K, V>, used0: nat, used1: nat, rehashidx: int, hash: K -> nat, m: map<K, V>,
                          c: Cursor<K>, p: nat)
    requires Inv(t0, t1, used0, used1, rehashidx, hash, m) && Ok(c, t0, t1) && 0 <= c.index < |Of(c, t0, t1)|
    requires p < |Of(c, t0, t1)[c.index]|
    ensures Homed(t0, hash) && Homed(t1, hash) && c.table <= 1
    ensures var e: Entry<K, V> := Of(c, t0, t1)[c.index][p]; e.key in m && m[e.key] == e.val
    ensures forall x :: Find(t0, hash, x).Some? ==> Find(t1, hash, x) == None
  {
    var t: Table<K, V> := Of(c, t0, t1);
    var e: Entry<K, V> := t[c.index][p];
    FindInAt(t[c.index], p);
    assert Home(hash, t[c.index][p].key, |t|) == c.index;
    assert Holds(t0, t1, hash, m, e.key);
    forall x | Find(t0, hash, x).Some? ensures Find(t1, hash, x) == None {
      assert Holds(t0, t1, hash, m, x);
    }
  }

  lemma LandKey<K(!new), V>(c0: Cursor<K>, c: Cursor<K>, t0: Table<K, V>, t1: Table<K, V>, hash: K -> nat, p: nat, k: K)
    requires Homed(t0, hash) && Homed(t1, hash) && c.table <= 1 && 0 <= c.index < |Of(c, t0, t1)|
    requires forall x :: Find(t0, hash, x).Some? ==> Find(t1, hash, x) == None
    requires p < |Of(c, t0, t1)[c.index]|
    requires (Entered(c0, c, t0, t1, hash) && p == 0)
      || (c == c0 && c.entry && c.next == Some(Of(c, t0, t1)[c.index][p].key))
    ensures var chain: Chain<K, V> := Of(c, t0, t1)[c.index];
      Landed(c0, Cursor(c.table, c.index, true, NextOf(chain, p)), t0, t1, hash, chain[p].key, k)
  {
    var chain: Chain<K, V> := Of(c, t0, t1)[c.index];
    var ks, key := Keys(chain), chain[p].key;
    Land(t0, t1, hash, c.table, c.index, p, k);
    NoDupPairs(chain);
    FromAt(ks, p);
    assert key == ks[p..][0];
    assert p == 0 ==> ks[p..] == ks;
    hide Find, Homed, FindIn;
  }

  lemma LandProgress<K(!new), V>(c0: Cursor<K>, c: Cursor<K>, t0: Table<K, V>, t1: Table<K, V>, hash: K -> nat, p: nat)
    requires Homed(t0, hash) && Homed(t1, hash) && c.table <= 1 && 0 <= c.index < |Of(c, t0, t1)|
    requires p < |Of(c, t0, t1)[c.index]|
    requires (Entered(c0, c, t0, t1, hash) && p == 0)
      || (c == c0 && c.entry && c.next == Some(Of(c, t0, t1)[c.index][p].key))
    ensures var c' := Cursor(c.table, c.index, true, NextOf(Of(c, t0, t1)[c.index], p));
      && Ok(c', t0, t1)
      && Progress(c0, c', t0, t1)
  {
    var chain := Of(c, t0, t1)[c.index];
    NoDupPairs(chain);
    FromAt(Keys(chain), p);
    if p + 1 < |chain| { FromAt(Keys(chain), p + 1); }
    if Entered(c0, c, t0, t1, hash) { ReachedBucket(c0, c, t0, t1, hash); }
    hide Entered, Reached, Pending;
  }

  // ---- what the loop body does to the cursor

  /** The cursor after an operation: the same place, and the same keys before it. */
  ghost predicate Undisturbed<K(!new), V>(c: Cursor<K>, t0: Table<K, V>, t1: Table<K, V>, u0: Table<K, V>, u1: Table<K, V>,
                                          hash: K -> nat, except: set<K>) {
    && |Of(c, u0, u1)| == |Of(c, t0, t1)| && ChainLeft(c, u0, u1) == ChainLeft(c, t0, t1)
    && forall k :: k !in except ==> (Pending(c, u0, u1, hash, k) <==> Pending(c, t0, t1, hash, k))
  }

  /** An update that unlinks nothing still pending leaves the cursor in place. */
  lemma SteadyCursor<K(!new), V>(c: Cursor<K>, t0: Table<K, V>, t1: Table<K, V>, u0: Table<K, V>, u1: Table<K, V>,
                                 hash: K -> nat, gone: set<K>, came: set<K>)
    requires Ok(c, t0, t1) && Steady(t0, t1, u0, u1, hash, gone, came)
    requires forall g :: g in gone ==> !Pending(c, t0, t1, hash, g)
    ensures Ok(c, u0, u1) && Undisturbed(c, t0, t1, u0, u1, hash, gone + came)
  {
    var t, u := Of(c, t0, t1), Of(c, u0, u1);
    if c.entry && c.next.Some? {
      assert ChainSteady(t[c.index], u[c.index], gone);
      assert Disjoint(From(Keys(t[c.index]), c.next.value), gone);
    }
  }

  /** Unlinking the entry just returned changes nothing that is pending. */
  lemma DeletedCursor<K(!new), V>(c: Cursor<K>, t0: Table<K, V>, t1: Table<K, V>, u0: Table<K, V>, u1: Table<K, V>,
                                  used0: nat, used1: nat, rehashidx: int, hash: K -> nat, m: map<K, V>, key: K)
    requires Ok(c, t0, t1) && Steady(t0, t1, u0, u1, hash, {key}, {})
    requires !Pending(c, t0, t1, hash, key) && Inv(u0, u1, used0, used1, rehashidx, hash, m) && key !in m
    ensures Ok(c, u0, u1) && Undisturbed(c, t0, t1, u0, u1, hash, {})
  {
    SteadyCursor(c, t0, t1, u0, u1, hash, {key}, {});
    PendingInMap(c, u0, u1, used0, used1, rehashidx, hash, m, key);
  }

  /** Only keys of the map can be pending. */
  lemma PendingInMap<K(!new), V>(c: Cursor<K>, t0: Table<K, V>, t1: Table<K, V>, used0: nat, used1: nat, rehashidx: int,
                                 hash: K -> nat, m: map<K, V>, k: K)
    requires Inv(t0, t1, used0, used1, rehashidx, hash, m) && Ok(c, t0, t1)
    ensures Pending(c, t0, t1, hash, k) ==> k in m
  {
    assert Holds(t0, t1, hash, m, k);
    if c.entry && c.next.Some? {
      var t := Of(c, t0, t1);
      FromSubset(Keys(t[c.index]), c.next.value, k);
      InChain(t, hash, c.index, k);
    }
  }

  lemma {:induction false} FromSubset<K>(ks: seq<K>, k: K, x: K)
    ensures x in From(ks, k) ==> x in ks
  {
    if ks != [] && ks[0] != k { FromSubset(ks[1..], k, x); }
  }

  class SafeIterator<K(==, !new), V> {
    const d: Dict<K, V>
    var table: nat
    var index: int
    var entry: bool
    var next: Option<K>

    constructor (d: Dict<K, V>)
      requires d.Valid()
      ensures this.d == d && Valid() && !Started() && next == None
      ensures forall k :: IsPending(k) <==> k in d.Map
    {
      this.d := d;
      table, index, entry, next := 0, -1, false, None;
      new;
      forall k ensures IsPending(k) <==> k in d.Map {
        PendingAtStart(d.table0[..], d.table1[..], d.used0, d.used1, d.rehashidx, d.hash, d.Map, k);
      }
    }

    ghost function Cur(): Cursor<K> reads this { Cursor(table, index, entry, next) }

    ghost predicate Started() reads this { !(table == 0 && index == -1) }

    ghost predicate Valid()
      reads this, d, d.table0, d.table1
    {
      && d.Valid() && Ok(Cur(), d.table0[..], d.table1[..])
      && (Started() ==> d.iterators > 0)
      && (index == -1 ==> !entry)
    }

    ghost predicate IsPending(k: K)
      reads this, d, d.table0, d.table1
    {
      Pending(Cur(), d.table0[..], d.table1[..], d.hash, k)
    }

    ghost function BucketsLeft(): int
      reads this, d, d.table0, d.table1
    {
      |Of(Cur(), d.table0[..], d.table1[..])| - index
    }

    function Size(): nat
      reads this, d
    {
      if table == 0 then d.table0.Length else d.table1.Length
    }

    lemma Inside()
      requires Valid()
      ensures Ok(Cur(), d.table0[..], d.table1[..]) && table <= 1 && -1 <= index <= Size() && (index == -1 ==> !entry)
      ensures d.Valid() && (Started() ==> d.iterators > 0) && Homed(d.table0[..], d.hash) && Homed(d.table1[..], d.hash)
      ensures (d.IsRehashing() <==> d.table1.Length > 0) && |Of(Cur(), d.table0[..], d.table1[..])| == Size()
      ensures entry && next.Some? ==> 0 <= index < Size()
    {}

    lemma Placed()
      requires d.Valid() && Ok(Cur(), d.table0[..], d.table1[..]) && (Started() ==> d.iterators > 0) && (index == -1 ==> !entry)
      ensures Valid()
    {
      hide Inv;
    }

    lemma CurIs()
      ensures Cur() == Cursor(table, index, entry, next) && (Started() <==> !(table == 0 && index == -1))
    {}

    lemma FirstSize(c: Cursor<K>, t0: Table<K, V>, t1: Table<K, V>)
      ensures c.table == 0 ==> Of(c, t0, t1) == t0
    {}

    lemma StartedIs()
      ensures Started() <==> !(table == 0 && index == -1)
    {}

    /** The iteration begins: no rehash steps from now on. */
    method Begin()
      requires Valid()
      modifies d`iterators
      ensures Valid() && d.iterators == old(d.iterators) + 1
    {
      hide Inv, Ok;
      d.iterators := d.iterators + 1;
    }

    /** Step to the first entry of the next bucket; `more` is false at the end. */
    method NextBucket() returns (more: bool)
      requires Valid() && !(entry && next.Some?)
      modifies this, d`iterators
      ensures Valid() && Started() && !entry && d.iterators == old(d.iterators) + (if old(Started()) then 0 else 1)
      ensures !more ==> Exhausted(old(Cur()), d.table0[..], d.table1[..], d.hash)
      ensures more ==> Reached(old(Cur()), Cur(), d.table0[..], d.table1[..], d.hash)
    {
      hide *;
      StartedIs();
      Inside();
      if index == -1 && table == 0 { Begin(); }
      Inside();
      more := Forward();
    }

    method Forward() returns (more: bool)
      requires Valid() && !(entry && next.Some?) && d.iterators > 0
      modifies this
      ensures Valid() && Started() && !entry
      ensures !more ==> Exhausted(old(Cur()), d.table0[..], d.table1[..], d.hash)
      ensures more ==> Reached(old(Cur()), Cur(), d.table0[..], d.table1[..], d.hash)
    {
      ghost var c, t0, t1, hash := Cur(), d.table0[..], d.table1[..], d.hash;
      Inside();
      CurIs();
      FirstSize(c, t0, t1);
      assert Size() == if table == 0 then |t0| else |t1|;
      hide *;
      entry, next := false, None;
      index := index + 1;
      more := true;
      var size := if table == 0 then d.table0.Length else d.table1.Length;
      if index >= size {
        if d.IsRehashing() && table == 0 {
          table, index := 1, 0;
          ReachSecond(c, t0, t1, hash);
        } else {
          more := false;
          AllExhausted(c, t0, t1, hash);
          index := size;
        }
      } else {
        ReachBucket(c, t0, t1, hash);
      }
      CurIs();
      Placed();
    }

    /** dictNext: an entry not returned before, or None when nothing is left. */
    method Next() returns (r: Option<Entry<K, V>>)
      requires Valid()
      modifies this, d`iterators
      ensures Valid() && Started() && d.iterators == old(d.iterators) + (if old(Started()) then 0 else 1)
      ensures r == None ==> Exhausted(old(Cur()), d.table0[..], d.table1[..], d.hash)
      ensures r.Some? ==>
        entry && Returned(old(Cur()), Cur(), d.table0[..], d.table1[..], d.hash, d.Map, r.value)
    {
      hide *;
      Inside();
      if entry && next.Some? {
        StartedIs();
        r := NextInChain();
      } else {
        var more := NextNonEmpty();
        if !more { return None; }
        r := FirstOfChain(old(Cur()));
      }
    }

    /** The entry that was saved is returned. */
    method NextInChain() returns (r: Option<Entry<K, V>>)
      requires Valid() && entry && next.Some?
      modifies this
      ensures Valid() && Started() && entry && r.Some?
      ensures Returned(old(Cur()), Cur(), d.table0[..], d.table1[..], d.hash, d.Map, r.value)
    {
      Inside();
      ghost var c0 := Cur();
      var chain := if table == 0 then d.table0[index] else d.table1[index];
      var p := Dict<K, V>.Scan(chain, next.value);
      FindInNone(chain, next.value);
      assert p < |chain| && chain[p].key == next.value;
      r := LandOn(c0, p);
    }

    /** The first entry of a chain is returned. */
    method FirstOfChain(ghost c0: Cursor<K>) returns (r: Option<Entry<K, V>>)
      requires Valid() && Started() && Entered(c0, Cur(), d.table0[..], d.table1[..], d.hash)
      modifies this
      ensures Valid() && Started() && entry && r.Some?
      ensures Returned(c0, Cur(), d.table0[..], d.table1[..], d.hash, d.Map, r.value)
    {
      ReachedBucket(c0, Cur(), d.table0[..], d.table1[..], d.hash);
      r := LandOn(c0, 0);
    }

    method LandOn(ghost c0: Cursor<K>, p: nat) returns (r: Option<Entry<K, V>>)
      requires Valid() && Started() && 0 <= index < Size() && table <= 1
      requires p < |Of(Cur(), d.table0[..], d.table1[..])[index]|
      requires (Entered(c0, Cur(), d.table0[..], d.table1[..], d.hash) && p == 0)
        || (Cur() == c0 && entry && next == Some(Of(Cur(), d.table0[..], d.table1[..])[index][p].key))
      modifies this
      ensures Valid() && Started() && entry && r.Some?
      ensures Returned(c0, Cur(), d.table0[..], d.table1[..], d.hash, d.Map, r.value)
    {
      var chain := if table == 0 then d.table0[index] else d.table1[index];
      LandAll(c0, Cur(), d.table0[..], d.table1[..], d.used0, d.used1, d.rehashidx, d.hash, d.Map, p);
      hide Ok, Pending, Returned, Inv, Entered;
      next := NextOf(chain, p);
      entry := true;
      r := Some(chain[p]);
    }

    /** Step to the first entry of the next bucket that has one. */
    method NextNonEmpty() returns (more: bool)
      requires Valid() && !(entry && next.Some?)
      modifies this, d`iterators
      ensures Valid() && Started() && !entry && d.iterators == old(d.iterators) + (if old(Started()) then 0 else 1)
      ensures !more ==> Exhausted(old(Cur()), d.table0[..], d.table1[..], d.hash)
      ensures more ==> Entered(old(Cur()), Cur(), d.table0[..], d.table1[..], d.hash)
    {
      ghost var c0, t0, t1 := Cur(), d.table0[..], d.table1[..];
      ghost var n := d.iterators + (if Started() then 0 else 1);
      more := NextBucket();
      hide *;
      while more
        invariant Valid() && Started() && !entry && d.iterators == n
        invariant more ==> Reached(c0, Cur(), t0, t1, d.hash)
        invariant !more ==> Exhausted(c0, t0, t1, d.hash)
        decreases more, 1 - table, BucketsLeft()
      {
        var empty;
        empty, more := PassBucket(c0);
        if !empty { return; }
      }
    }

    /** A bucket was reached: stay there, or pass it when it is empty. */
    method PassBucket(ghost c0: Cursor<K>) returns (empty: bool, more: bool)
      requires Valid() && Started() && !entry && Reached(c0, Cur(), d.table0[..], d.table1[..], d.hash)
      modifies this, d`iterators
      ensures Valid() && Started() && !entry && d.iterators == old(d.iterators) && table <= 1
      ensures !empty ==> more && Entered(c0, Cur(), d.table0[..], d.table1[..], d.hash)
      ensures empty && more ==>
        && Reached(c0, Cur(), d.table0[..], d.table1[..], d.hash)
        && (table > old(table) || (table == old(table) && BucketsLeft() < old(BucketsLeft())))
      ensures empty && !more ==> Exhausted(c0, d.table0[..], d.table1[..], d.hash)
    {
      ghost var c, t0, t1 := Cur(), d.table0[..], d.table1[..];
      ReachedBucket(c0, c, t0, t1, d.hash);
      hide Pending, Reached, Inv, Ok, Exhausted;
      empty := (if table == 0 then d.table0[index] else d.table1[index]) == [];
      more := true;
      if empty {
        more := NextBucket();
        PassEmpty(c0, c, Cur(), t0, t1, d.hash);
        if more { ReachedBucket(c, Cur(), t0, t1, d.hash); }
      }
    }

    /** dictReleaseIterator */
    method Release()
      requires Valid()
      modifies d`iterators
      ensures d.Valid() && d.Map == old(d.Map)
      ensures d.iterators == old(d.iterators) - (if Started() then 1 else 0)
    {
      if !(index == -1 && table == 0) { d.iterators := d.iterators - 1; }
    }
  }

  // ---- a whole iteration

  /** What the loop body may do between two calls of dictNext. */
  datatype Op<K, V> = FindKey(key: K) | AddKey(key: K, val: V) | ReplaceKey(key: K, val: V) | DeleteReturned

  function Came<K, V>(op: Op<K, V>): set<K> {
    match op case AddKey(k, _) => {k} case ReplaceKey(k, _) => {k} case _ => {}
  }

  /** An operation on the dictionary alone: what it makes of the map and of the tables. */
  method RunOnDict<K(!new, ==), V>(d: Dict<K, V>, op: Op<K, V>, current: K)
    requires d.Valid() && d.iterators > 0 && d.table0.Length > 0
    requires op.DeleteReturned? ==> current in d.Map
    modifies d, d.table0, d.table1
    ensures d.Valid() && d.iterators == old(d.iterators)
    ensures d.Map == AfterOp(op, old(d.Map), current)
    ensures Steady(old(d.table0[..]), old(d.table1[..]), d.table0[..], d.table1[..], d.hash,
                   if op.DeleteReturned? then {current} else {}, Came(op) - old(d.Map).Keys)
    ensures fresh({d.table0, d.table1} - old({d.table0, d.table1}))
  {
    hide Inv, Steady;
    ghost var t0, t1, m := d.table0[..], d.table1[..], d.Map;
    match op
    case FindKey(k) =>
      var _ := d.DictFind(k);
      SteadySame(t0, t1, d.hash);
      assert d.table0[..] == t0 && d.table1[..] == t1 && {} == Came(op) - m.Keys;
    case AddKey(k, v) =>
      var ok := d.Add(k, v);
      assert (if ok then {k} else {}) == Came(op) - m.Keys;
    case ReplaceKey(k, v) =>
      var added := d.Replace(k, v);
      assert (if added then {k} else {}) == Came(op) - m.Keys;
    case DeleteReturned =>
      var ok := d.Delete(current);
      assert {} == Came(op) - m.Keys;
  }

  function AfterOp<K, V>(op: Op<K, V>, m: map<K, V>, current: K): map<K, V> {
    match op
    case FindKey(_) => m
    case AddKey(k, v) => if k in m then m else m[k := v]
    case ReplaceKey(k, v) => m[k := v]
    case DeleteReturned => m - {current}
  }

  /** One operation of the body, `current` being the key just returned. */
  method RunOp<K(!new, ==), V>(it: SafeIterator<K, V>, op: Op<K, V>, current: K)
    requires it.Valid() && it.entry
    requires op.DeleteReturned? ==> current in it.d.Map && !it.IsPending(current)
    modifies it.d, it.d.table0, it.d.table1
    ensures it.Valid() && it.d.iterators == old(it.d.iterators)
    ensures it.d.Map == AfterOp(op, old(it.d.Map), current)
    ensures Undisturbed(it.Cur(), old(it.d.table0[..]), old(it.d.table1[..]), it.d.table0[..], it.d.table1[..], it.d.hash,
                        Came(op) - old(it.d.Map).Keys)
    ensures fresh({it.d.table0, it.d.table1} - old({it.d.table0, it.d.table1}))
  {
    ghost var d := it.d;
    ghost var c, t0, t1, came := it.Cur(), d.table0[..], d.table1[..], Came(op) - d.Map.Keys;
    hide Steady, Pending, Ok, Undisturbed, Inv;
    CursorOnTable(it);
    RunOnDict(it.d, op, current);
    if op.DeleteReturned? {
      assert came == {};
      DeletedCursor(c, t0, t1, d.table0[..], d.table1[..], d.used0, d.used1, d.rehashidx, d.hash, d.Map, current);
    } else {
      SteadyCursor(c, t0, t1, d.table0[..], d.table1[..], d.hash, {}, came);
      assert {} + came == came;
    }
  }

  /** An entry was just returned, so there is a first table. */
  lemma CursorOnTable<K(!new), V>(it: SafeIterator<K, V>)
    requires it.Valid() && it.entry
    ensures it.d.table0.Length > 0 && it.Started()
  {}

  /** What has been returned so far against what is still pending. Keys that the body
      deleted at some time (`deleted`) are exempt: they may have been added again. */
  ghost predicate Covered<K(!new), V>(c: Cursor<K>, t0: Table<K, V>, t1: Table<K, V>, hash: K -> nat, m: map<K, V>,
                                      initial: set<K>, returned: seq<K>, deleted: set<K>) {
    && (forall k :: k in returned && k !in deleted ==> k in m && !Pending(c, t0, t1, hash, k))
    && (forall k :: k in initial && k !in deleted ==> k in m && (k in returned || Pending(c, t0, t1, hash, k)))
    && (forall i, j :: 0 <= i < j < |returned| && returned[i] !in deleted ==> returned[i] != returned[j])
    && (forall k :: k in deleted ==> k in returned)
  }

  lemma CoveredNext<K(!new), V>(c0: Cursor<K>, c: Cursor<K>, t0: Table<K, V>, t1: Table<K, V>, hash: K -> nat, m: map<K, V>,
                                e: Entry<K, V>, initial: set<K>, returned: seq<K>, deleted: set<K>)
    requires Covered(c0, t0, t1, hash, m, initial, returned, deleted) && Returned(c0, c, t0, t1, hash, m, e)
    ensures Covered(c, t0, t1, hash, m, initial, returned + [e.key], deleted)
    ensures !Pending(c, t0, t1, hash, e.key) && e.key in m
  {}

  lemma CoveredEnd<K(!new), V>(c: Cursor<K>, t0: Table<K, V>, t1: Table<K, V>, hash: K -> nat, m: map<K, V>,
                               initial: set<K>, returned: seq<K>, deleted: set<K>)
    requires Covered(c, t0, t1, hash, m, initial, returned, deleted) && Exhausted(c, t0, t1, hash)
    ensures Final(initial, returned, deleted)
  {}

  lemma Advances<K(!new), V>(c0: Cursor<K>, c: Cursor<K>, t0: Table<K, V>, t1: Table<K, V>, hash: K -> nat, m: map<K, V>, e: Entry<K, V>)
    requires Returned(c0, c, t0, t1, hash, m, e)
    ensures || c.table > c0.table
        || (c.table == c0.table && c.index > c0.index)
        || (c.table == c0.table && c.index == c0.index && ChainLeft(c, t0, t1) < ChainLeft(c0, t0, t1))
  {}

  lemma CoveredOp<K(!new), V>(c: Cursor<K>, t0: Table<K, V>, t1: Table<K, V>, u0: Table<K, V>, u1: Table<K, V>, hash: K -> nat,
                              m: map<K, V>, op: Op<K, V>, current: K, initial: set<K>, returned: seq<K>, deleted: set<K>)
    requires Covered(c, t0, t1, hash, m, initial, returned, deleted) && current in returned
    requires Undisturbed(c, t0, t1, u0, u1, hash, Came(op) - m.Keys)
    ensures Covered(c, u0, u1, hash, AfterOp(op, m, current), initial, returned,
                    if op.DeleteReturned? then deleted + {current} else deleted)
    ensures |Of(c, u0, u1)| == |Of(c, t0, t1)| && ChainLeft(c, u0, u1) == ChainLeft(c, t0, t1)
    ensures current in m && !op.DeleteReturned? && !Pending(c, t0, t1, hash, current) ==>
      current in AfterOp(op, m, current) && !Pending(c, u0, u1, hash, current)
  {}

  /** The key just returned is still there and no longer pending. */
  ghost predicate Handed<K(!new), V>(it: SafeIterator<K, V>, current: K)
    reads it, it.d, it.d.table0, it.d.table1
  {
    it.Valid() && it.entry && current in it.d.Map && !it.IsPending(current)
  }

  /** In the body: the cursor stays at the place `at`, and everything is covered. */
  datatype Place = Place(iterators: nat, buckets: int, chain: nat)

  ghost function PlaceOf<K(!new), V>(it: SafeIterator<K, V>): Place
    reads it, it.d, it.d.table0, it.d.table1
  {
    Place(it.d.iterators, it.BucketsLeft(), ChainLeft(it.Cur(), it.d.table0[..], it.d.table1[..]))
  }

  ghost predicate InBody<K(!new), V>(it: SafeIterator<K, V>, at: Place, initial: set<K>, returned: seq<K>, deleted: set<K>)
    reads it, it.d, it.d.table0, it.d.table1
  {
    && it.Valid() && it.entry && PlaceOf(it) == at
    && Covered(it.Cur(), it.d.table0[..], it.d.table1[..], it.d.hash, it.d.Map, initial, returned, deleted)
  }

  method BodyOp<K(!new, ==), V>(it: SafeIterator<K, V>, op: Op<K, V>, current: K,
                                ghost at: Place, ghost initial: set<K>, ghost returned: seq<K>, ghost deleted: set<K>)
    requires InBody(it, at, initial, returned, deleted)
    requires current in returned && (op.DeleteReturned? ==> Handed(it, current))
    modifies it.d, it.d.table0, it.d.table1
    ensures InBody(it, at, initial, returned, if op.DeleteReturned? then deleted + {current} else deleted)
    ensures fresh({it.d.table0, it.d.table1} - old({it.d.table0, it.d.table1}))
    ensures old(Handed(it, current)) && !op.DeleteReturned? ==> Handed(it, current)
    ensures it.d.Map == AfterOp(op, old(it.d.Map), current)
  {
    ghost var d, c := it.d, it.Cur();
    hide Covered, Undisturbed, Pending, Inv, Ok, ChainLeft;
    ghost var t0, t1, m := d.table0[..], d.table1[..], d.Map;
    RunOp(it, op, current);
    CoveredOp(c, t0, t1, d.table0[..], d.table1[..], d.hash, m, op, current, initial, returned, deleted);
  }

  /** What the operations of one turn of the body make of the map. */
  ghost function AfterOps<K(!new), V>(ops: seq<Op<K, V>>, m: map<K, V>, current: K): map<K, V> {
    if ops == [] then m
    else
      var init, op := ops[..|ops| - 1], ops[|ops| - 1];
      if op.DeleteReturned? && DeleteReturned in init then AfterOps(init, m, current)
      else AfterOp(op, AfterOps(init, m, current), current)
  }

  lemma NoOps<K(!new), V>(ops: seq<Op<K, V>>, m: map<K, V>, current: K)
    ensures AfterOps(ops[..0], m, current) == m && ops[..|ops|] == ops
  {}

  lemma OneOp<K(!new), V>(ops: seq<Op<K, V>>, j: nat, m: map<K, V>, current: K)
    requires j < |ops|
    ensures AfterOps(ops[..j + 1], m, current)
      == if ops[j].DeleteReturned? && DeleteReturned in ops[..j] then AfterOps(ops[..j], m, current)
         else AfterOp(ops[j], AfterOps(ops[..j], m, current), current)
  {
    assert ops[..j + 1][..j] == ops[..j];
    hide AfterOp;
  }

  /** What a whole iteration makes of the map, given the keys it returned. */
  ghost function AfterBodies<K(!new), V>(body: (nat, K) -> seq<Op<K, V>>, m: map<K, V>, returned: seq<K>): map<K, V> {
    if returned == [] then m
    else
      var n := |returned| - 1;
      AfterOps(body(n, returned[n]), AfterBodies(body, m, returned[..n]), returned[n])
  }

  lemma OneBody<K(!new), V>(body: (nat, K) -> seq<Op<K, V>>, m: map<K, V>, returned0: seq<K>, returned: seq<K>, m1: map<K, V>)
    requires |returned| == |returned0| + 1 && returned[..|returned0|] == returned0
    requires m1 == AfterOps(body(|returned0|, returned[|returned0|]), AfterBodies(body, m, returned0), returned[|returned0|])
    ensures AfterBodies(body, m, returned) == m1
  {
    hide AfterOps;
  }

  /** The operations of one turn of the body; the entry just returned is deleted at most once. */
  method RunBody<K(!new, ==), V>(it: SafeIterator<K, V>, ops: seq<Op<K, V>>, current: K,
                                 ghost at: Place, ghost initial: set<K>, ghost returned: seq<K>, ghost deleted0: set<K>)
    returns (ghost deleted: set<K>)
    requires InBody(it, at, initial, returned, deleted0) && Handed(it, current) && current in returned
    modifies it.d, it.d.table0, it.d.table1
    ensures InBody(it, at, initial, returned, deleted)
    ensures fresh({it.d.table0, it.d.table1} - old({it.d.table0, it.d.table1}))
    ensures deleted == deleted0 + (if DeleteReturned in ops then {current} else {})
    ensures it.d.Map == AfterOps(ops, old(it.d.Map), current)
  {
    deleted := deleted0;
    var done, j := false, 0;
    ghost var m := it.d.Map;
    assert ops[..0] == [];
    OpsStart(it, ops, current, at, initial, returned, deleted0);
    hide *;
    while j < |ops|
      invariant 0 <= j <= |ops| && done == (DeleteReturned in ops[..j])
      invariant OpsDone(it, ops, j, m, current, at, initial, returned, deleted0, deleted)
      invariant fresh({it.d.table0, it.d.table1} - old({it.d.table0, it.d.table1}))
    {
      done, deleted := RunNth(it, ops, j, done, m, current, at, initial, returned, deleted0, deleted);
      j := j + 1;
    }
    OpsEnd(it, ops, m, current, at, initial, returned, deleted0, deleted);
  }

  /** The first `j` operations were done. */
  ghost predicate OpsDone<K(!new), V>(it: SafeIterator<K, V>, ops: seq<Op<K, V>>, j: nat, m: map<K, V>, current: K,
                                      at: Place, initial: set<K>, returned: seq<K>, deleted0: set<K>, deleted: set<K>)
    reads it, it.d, it.d.table0, it.d.table1
  {
    && j <= |ops| && deleted == deleted0 + (if DeleteReturned in ops[..j] then {current} else {})
    && InBody(it, at, initial, returned, deleted) && (DeleteReturned in ops[..j] || Handed(it, current))
    && current in returned && it.d.Map == AfterOps(ops[..j], m, current)
  }

  lemma OpsStart<K(!new), V>(it: SafeIterator<K, V>, ops: seq<Op<K, V>>, current: K,
                             at: Place, initial: set<K>, returned: seq<K>, deleted: set<K>)
    requires InBody(it, at, initial, returned, deleted) && Handed(it, current) && current in returned
    ensures OpsDone(it, ops, 0, it.d.Map, current, at, initial, returned, deleted, deleted)
  {
    NoOps(ops, it.d.Map, current);
    assert ops[..0] == [];
    hide InBody, Handed, AfterOps;
  }

  lemma OpsEnd<K(!new), V>(it: SafeIterator<K, V>, ops: seq<Op<K, V>>, m: map<K, V>, current: K,
                           at: Place, initial: set<K>, returned: seq<K>, deleted0: set<K>, deleted: set<K>)
    requires OpsDone(it, ops, |ops|, m, current, at, initial, returned, deleted0, deleted)
    ensures InBody(it, at, initial, returned, deleted) && it.d.Map == AfterOps(ops, m, current)
    ensures deleted == deleted0 + (if DeleteReturned in ops then {current} else {})
  {
    assert ops[..|ops|] == ops;
    hide InBody, Handed, AfterOps;
  }

  lemma OpsAre<K(!new), V>(it: SafeIterator<K, V>, ops: seq<Op<K, V>>, j: nat, m: map<K, V>, current: K,
                           at: Place, initial: set<K>, returned: seq<K>, deleted0: set<K>, deleted: set<K>)
    ensures OpsDone(it, ops, j, m, current, at, initial, returned, deleted0, deleted) <==>
      && j <= |ops| && deleted == deleted0 + (if DeleteReturned in ops[..j] then {current} else {})
      && InBody(it, at, initial, returned, deleted) && (DeleteReturned in ops[..j] || Handed(it, current))
      && current in returned && it.d.Map == AfterOps(ops[..j], m, current)
  {
    hide InBody, Handed, AfterOps;
  }

  /** The operation number `j`: the entry just returned is deleted at most once. */
  method RunNth<K(!new, ==), V>(it: SafeIterator<K, V>, ops: seq<Op<K, V>>, j: nat, done0: bool, ghost m: map<K, V>, current: K,
                                ghost at: Place, ghost initial: set<K>, ghost returned: seq<K>, ghost deleted0: set<K>, ghost deleted1: set<K>)
    returns (done: bool, ghost deleted: set<K>)
    requires j < |ops| && done0 == (DeleteReturned in ops[..j])
    requires OpsDone(it, ops, j, m, current, at, initial, returned, deleted0, deleted1)
    modifies it.d, it.d.table0, it.d.table1
    ensures OpsDone(it, ops, j + 1, m, current, at, initial, returned, deleted0, deleted) && done == (DeleteReturned in ops[..j + 1])
    ensures fresh({it.d.table0, it.d.table1} - old({it.d.table0, it.d.table1}))
  {
    done, deleted := done0, deleted1;
    OpsAre(it, ops, j, m, current, at, initial, returned, deleted0, deleted);
    OneOp(ops, j, m, current);
    assert ops[..j + 1] == ops[..j] + [ops[j]];
    hide *;
    if !(ops[j].DeleteReturned? && done) {
      BodyOp(it, ops[j], current, at, initial, returned, deleted);
      if ops[j].DeleteReturned? { done, deleted := true, deleted + {current}; }
    }
    OpsAre(it, ops, j + 1, m, current, at, initial, returned, deleted0, deleted);
  }

  /** How far a cursor is from the end: tables, buckets of this table, entries of this chain. */
  ghost predicate Nearer(tables: int, buckets: int, chain: nat, tables0: int, buckets0: int, chain0: nat) {
    tables < tables0 || (tables == tables0 && buckets < buckets0) || (tables == tables0 && buckets == buckets0 && chain < chain0)
  }

  /** One more key was returned, and it was deleted exactly when the body said so. */
  ghost predicate Appended<K, V>(body: K -> seq<Op<K, V>>, returned0: seq<K>, deleted0: set<K>, returned: seq<K>, deleted: set<K>) {
    && |returned| == |returned0| + 1 && returned[..|returned0|] == returned0
    && deleted == deleted0 + (if DeleteReturned in body(returned[|returned0|]) then {returned[|returned0|]} else {})
  }

  /** dictNext, as the loop sees it. */
  method TakeKey<K(!new, ==), V>(it: SafeIterator<K, V>, ghost initial: set<K>, ghost returned: seq<K>, ghost deleted: set<K>)
    returns (r: Option<K>)
    requires it.Valid()
    requires Covered(it.Cur(), it.d.table0[..], it.d.table1[..], it.d.hash, it.d.Map, initial, returned, deleted)
    modifies it, it.d`iterators
    ensures it.Valid() && it.Started() && it.d.iterators == old(it.d.iterators) + (if old(it.Started()) then 0 else 1)
    ensures r == None ==> Final(initial, returned, deleted)
    ensures r.Some? ==> InBody(it, PlaceOf(it), initial, returned + [r.value], deleted) && Handed(it, r.value)
    ensures r.Some? ==>
      Nearer(2 - it.table, PlaceOf(it).buckets, PlaceOf(it).chain, 2 - old(it.table), old(PlaceOf(it).buckets), old(PlaceOf(it).chain))
  {
    ghost var d, c0 := it.d, it.Cur();
    hide Covered, Pending, Returned, Inv, Ok, ChainLeft, Exhausted, Final;
    var e := it.Next();
    ghost var c, t0, t1 := it.Cur(), d.table0[..], d.table1[..];
    if e == None {
      CoveredEnd(c0, t0, t1, d.hash, d.Map, initial, returned, deleted);
      return None;
    }
    Advances(c0, c, t0, t1, d.hash, d.Map, e.value);
    CoveredNext(c0, c, t0, t1, d.hash, d.Map, e.value, initial, returned, deleted);
    r := Some(e.value.key);
  }

  /** In the body everything is covered, and the place is where the cursor was. */
  lemma InBodyIs<K(!new), V>(it: SafeIterator<K, V>, at: Place, initial: set<K>, returned: seq<K>, deleted: set<K>)
    requires InBody(it, at, initial, returned, deleted)
    ensures it.Valid() && it.Started() && PlaceOf(it) == at && it.d.iterators == at.iterators
    ensures Covered(it.Cur(), it.d.table0[..], it.d.table1[..], it.d.hash, it.d.Map, initial, returned, deleted)
  {
    hide Inv, Covered, ChainLeft;
  }

  lemma PlaceIs<K(!new), V>(it: SafeIterator<K, V>)
    ensures PlaceOf(it) == Place(it.d.iterators, it.BucketsLeft(), ChainLeft(it.Cur(), it.d.table0[..], it.d.table1[..]))
  {
    hide ChainLeft;
  }

  lemma OneAppended<K, V>(body: K -> seq<Op<K, V>>, returned: seq<K>, deleted: set<K>, key: K, deleted': set<K>)
    requires deleted' == deleted + (if DeleteReturned in body(key) then {key} else {})
    ensures Appended(body, returned, deleted, returned + [key], deleted')
  {}

  /** One turn of the loop: dictNext, and the body on what it returned. */
  method Turn<K(!new, ==), V>(it: SafeIterator<K, V>, body: K -> seq<Op<K, V>>,
                              ghost initial: set<K>, returned0: seq<K>, ghost deleted0: set<K>)
    returns (more: bool, returned: seq<K>, ghost deleted: set<K>)
    requires it.Valid()
    requires Covered(it.Cur(), it.d.table0[..], it.d.table1[..], it.d.hash, it.d.Map, initial, returned0, deleted0)
    modifies it, it.d, it.d.table0, it.d.table1
    ensures it.Valid() && it.Started() && it.d.iterators == old(it.d.iterators) + (if old(it.Started()) then 0 else 1)
    ensures fresh({it.d.table0, it.d.table1} - old({it.d.table0, it.d.table1}))
    ensures more ==>
      && Covered(it.Cur(), it.d.table0[..], it.d.table1[..], it.d.hash, it.d.Map, initial, returned, deleted)
      && Nearer(2 - it.table, PlaceOf(it).buckets, PlaceOf(it).chain, 2 - old(it.table), old(PlaceOf(it).buckets), old(PlaceOf(it).chain))
    ensures !more ==> returned == returned0 && deleted == deleted0 && Final(initial, returned, deleted)
    ensures more ==> Appended(body, returned0, deleted0, returned, deleted)
    ensures more ==> |returned| == |returned0| + 1
    ensures more ==> it.d.Map == AfterOps(body(returned[|returned0|]), old(it.d.Map), returned[|returned0|])
    ensures !more ==> it.d.Map == old(it.d.Map)
  {
    hide *;
    returned, deleted := returned0, deleted0;
    var r := TakeKey(it, initial, returned, deleted);
    more := r.Some?;
    if more {
      ghost var at := PlaceOf(it);
      PlaceIs(it);
      returned := returned + [r.value];
      deleted := RunBody(it, body(r.value), r.value, at, initial, returned, deleted);
      InBodyIs(it, at, initial, returned, deleted);
      OneAppended(body, returned0, deleted0, r.value, deleted);
    }
  }

  /** Every initial key that was never deleted was returned, and exactly once. */
  ghost predicate Final<K(!new)>(initial: set<K>, returned: seq<K>, deleted: set<K>) {
    && (forall k :: k in initial && k !in deleted ==> k in returned)
    && (forall i, j :: 0 <= i < j < |returned| && returned[i] !in deleted ==> returned[i] != returned[j])
    && (forall k :: k in deleted ==> k in returned)
  }

  /** Each key of `deleted` was deleted by the body when it was handed that key. */
  ghost predicate AllAsked<K(!new), V>(body: (nat, K) -> seq<Op<K, V>>, returned: seq<K>, deleted: set<K>) {
    forall k :: k in deleted ==> exists n :: 0 <= n < |returned| && returned[n] == k && DeleteReturned in body(n, k)
  }

  lemma AskedAlso<K(!new), V>(body: (nat, K) -> seq<Op<K, V>>, returned0: seq<K>, deleted0: set<K>, returned: seq<K>, deleted: set<K>)
    requires AllAsked(body, returned0, deleted0)
    requires Appended(k => body(|returned0|, k), returned0, deleted0, returned, deleted)
    ensures AllAsked(body, returned, deleted)
  {
    forall k | k in deleted
      ensures exists n :: 0 <= n < |returned| && returned[n] == k && DeleteReturned in body(n, k)
    {
      if k in deleted0 {
        var n :| 0 <= n < |returned0| && returned0[n] == k && DeleteReturned in body(n, k);
        assert returned[n] == returned[..|returned0|][n] == k;
      } else {
        assert returned[|returned0|] == k;
      }
    }
  }

  lemma NothingReturned<K(!new), V>(it: SafeIterator<K, V>, body: (nat, K) -> seq<Op<K, V>>)
    requires forall k :: it.IsPending(k) <==> k in it.d.Map
    ensures Covered(it.Cur(), it.d.table0[..], it.d.table1[..], it.d.hash, it.d.Map, it.d.Map.Keys, [], {})
    ensures AllAsked(body, [], {})
  {
    hide Pending;
    forall k ensures Pending(it.Cur(), it.d.table0[..], it.d.table1[..], it.d.hash, k) <==> k in it.d.Map {
      assert it.IsPending(k) <==> k in it.d.Map;
    }
  }

  lemma NoBodies<K(!new), V>(body: (nat, K) -> seq<Op<K, V>>, m: map<K, V>)
    ensures AfterBodies(body, m, []) == m
  {}

  lemma OneTurn<K(!new), V>(body: (nat, K) -> seq<Op<K, V>>, m: map<K, V>, returned0: seq<K>, deleted0: set<K>,
                            returned: seq<K>, deleted: set<K>, m1: map<K, V>)
    requires AllAsked(body, returned0, deleted0)
    requires Appended(k => body(|returned0|, k), returned0, deleted0, returned, deleted)
    requires |returned| == |returned0| + 1
    requires m1 == AfterOps(body(|returned0|, returned[|returned0|]), AfterBodies(body, m, returned0), returned[|returned0|])
    ensures AllAsked(body, returned, deleted) && m1 == AfterBodies(body, m, returned)
  {
    AskedAlso(body, returned0, deleted0, returned, deleted);
    OneBody(body, m, returned0, returned, m1);
  }

  lemma NearerIs(tables: int, buckets: int, chain: nat, tables0: int, buckets0: int, chain0: nat)
    ensures Nearer(tables, buckets, chain, tables0, buckets0, chain0) <==>
      tables < tables0 || (tables == tables0 && buckets < buckets0) || (tables == tables0 && buckets == buckets0 && chain < chain0)
  {}

  /** A whole safe iteration with an arbitrary body: every key present at the start and
      never deleted is returned exactly once, and the iteration ends. */
  method Iterate<K(!new, ==), V>(d: Dict<K, V>, body: (nat, K) -> seq<Op<K, V>>)
    returns (returned: seq<K>, ghost deleted: set<K>)
    requires d.Valid()
    modifies d, d.table0, d.table1
    ensures d.Valid() && d.iterators == old(d.iterators)
    ensures Final(old(d.Map).Keys, returned, deleted)
    ensures AllAsked(body, returned, deleted)
    ensures d.Map == AfterBodies(body, old(d.Map), returned)
  {
    ghost var m, iterators := d.Map, d.iterators;
    var it := new SafeIterator<K, V>(d);
    NothingReturned(it, body);
    LoopStart(it, body);
    hide *;
    returned, deleted := RunLoop(it, body, m, iterators);
    LoopIs(it, body, m, iterators, returned, deleted, false);
    it.Release();
  }

  lemma Bounded<K(!new), V>(it: SafeIterator<K, V>)
    requires it.Valid()
    ensures it.table <= 1 && PlaceOf(it).buckets >= 0
  {
    it.Inside();
  }

  /** The loop. */
  method RunLoop<K(!new, ==), V>(it: SafeIterator<K, V>, body: (nat, K) -> seq<Op<K, V>>, ghost m: map<K, V>, ghost iterators: nat)
    returns (returned: seq<K>, ghost deleted: set<K>)
    requires Looping(it, body, m, iterators, [], {}, true)
    modifies it, it.d, it.d.table0, it.d.table1
    ensures Looping(it, body, m, iterators, returned, deleted, false)
    ensures fresh({it.d.table0, it.d.table1} - old({it.d.table0, it.d.table1}))
  {
    hide *;
    returned, deleted := [], {};
    var more := true;
    while more
      invariant Looping(it, body, m, iterators, returned, deleted, more)
      invariant fresh({it.d.table0, it.d.table1} - old({it.d.table0, it.d.table1}))
      decreases more, 2 - it.table, PlaceOf(it).buckets, PlaceOf(it).chain
    {
      ghost var at, tables := PlaceOf(it), 2 - it.table;
      LoopIs(it, body, m, iterators, returned, deleted, true);
      Bounded(it);
      more, returned, deleted := Round(it, body, m, iterators, returned, deleted);
      NearerIs(2 - it.table, PlaceOf(it).buckets, PlaceOf(it).chain, tables, at.buckets, at.chain);
    }
  }

  /** Between two turns of the loop. */
  ghost predicate Looping<K(!new), V>(it: SafeIterator<K, V>, body: (nat, K) -> seq<Op<K, V>>, m: map<K, V>, iterators: nat,
                                      returned: seq<K>, deleted: set<K>, more: bool)
    reads it, it.d, it.d.table0, it.d.table1
  {
    && it.Valid() && it.d.iterators == iterators + (if it.Started() then 1 else 0)
    && (more ==> Covered(it.Cur(), it.d.table0[..], it.d.table1[..], it.d.hash, it.d.Map, m.Keys, returned, deleted))
    && (!more ==> it.Started() && Final(m.Keys, returned, deleted))
    && AllAsked(body, returned, deleted) && it.d.Map == AfterBodies(body, m, returned)
  }

  lemma LoopIs<K(!new), V>(it: SafeIterator<K, V>, body: (nat, K) -> seq<Op<K, V>>, m: map<K, V>, iterators: nat,
                           returned: seq<K>, deleted: set<K>, more: bool)
    ensures Looping(it, body, m, iterators, returned, deleted, more) <==>
      && it.Valid() && it.d.iterators == iterators + (if it.Started() then 1 else 0)
      && (more ==> Covered(it.Cur(), it.d.table0[..], it.d.table1[..], it.d.hash, it.d.Map, m.Keys, returned, deleted))
      && (!more ==> it.Started() && Final(m.Keys, returned, deleted))
      && AllAsked(body, returned, deleted) && it.d.Map == AfterBodies(body, m, returned)
  {
    hide Covered, Final, AllAsked, AfterBodies, Inv, Ok;
  }

  lemma LoopStart<K(!new), V>(it: SafeIterator<K, V>, body: (nat, K) -> seq<Op<K, V>>)
    requires it.Valid() && !it.Started() && AllAsked(body, [], {})
    requires Covered(it.Cur(), it.d.table0[..], it.d.table1[..], it.d.hash, it.d.Map, it.d.Map.Keys, [], {})
    ensures Looping(it, body, it.d.Map, it.d.iterators, [], {}, true)
  {
    NoBodies(body, it.d.Map);
    LoopIs(it, body, it.d.Map, it.d.iterators, [], {}, true);
    hide *;
  }

  method Round<K(!new, ==), V>(it: SafeIterator<K, V>, body: (nat, K) -> seq<Op<K, V>>, ghost m: map<K, V>, ghost iterators: nat,
                               returned0: seq<K>, ghost deleted0: set<K>)
    returns (more: bool, returned: seq<K>, ghost deleted: set<K>)
    requires Looping(it, body, m, iterators, returned0, deleted0, true)
    modifies it, it.d, it.d.table0, it.d.table1
    ensures Looping(it, body, m, iterators, returned, deleted, more)
    ensures fresh({it.d.table0, it.d.table1} - old({it.d.table0, it.d.table1}))
    ensures more ==>
      Nearer(2 - it.table, PlaceOf(it).buckets, PlaceOf(it).chain, 2 - old(it.table), old(PlaceOf(it).buckets), old(PlaceOf(it).chain))
  {
    LoopIs(it, body, m, iterators, returned0, deleted0, true);
    hide *;
    var n := |returned0|;
    more, returned, deleted := Turn(it, k => body(n, k), m.Keys, returned0, deleted0);
    if more { OneTurn(body, m, returned0, deleted0, returned, deleted, it.d.Map); }
    LoopIs(it, body, m, iterators, returned, deleted, more);
  }
}
