/** Chained hash tables as values: a table is a sequence of chains. */
module DictTables {
  import opened Wrappers

  datatype Entry<K, V> = Entry(key: K, val: V)
  type Chain<K, V> = seq<Entry<K, V>>
  type Table<K, V> = seq<Chain<K, V>>

  /** The first entry of a chain with the key. */
  function FindIn<K(==), V>(c: Chain<K, V>, k: K): Option<V> {
    if c == [] then None else if c[0].key == k then Some(c[0].val) else FindIn(c[1..], k)
  }

  /** The bucket of a key: `hash & sizemask`, the size being a power of two. */
  function Home<K>(hash: K -> nat, k: K, size: nat): (i: nat)
    requires size > 0
    ensures i < size
  {
    hash(k) % size
  }

  function Find<K(==), V>(t: Table<K, V>, hash: K -> nat, k: K): Option<V> {
    if |t| == 0 then None else FindIn(t[Home(hash, k, |t|)], k)
  }

  function Total<K, V>(t: Table<K, V>): nat {
    if t == [] then 0 else Total(t[..|t| - 1]) + |t[|t| - 1]|
  }

  function Empty<K, V>(n: nat): (t: Table<K, V>)
    ensures |t| == n && forall i :: 0 <= i < n ==> t[i] == []
  {
    seq(n, _ => [])
  }

  ghost predicate NoDup<K, V>(c: Chain<K, V>) {
    c == [] || (FindIn(c[1..], c[0].key) == None && NoDup(c[1..]))
  }

  /** Every entry sits in its own bucket, once. */
  ghost predicate Homed<K, V>(t: Table<K, V>, hash: K -> nat) {
    forall i :: 0 <= i < |t| ==> NoDup(t[i]) && forall p :: 0 <= p < |t[i]| ==> Home(hash, t[i][p].key, |t|) == i
  }

  /** The two tables together represent the map `m`, no key being in both. */
  ghost predicate Represents<K(!new), V>(t0: Table<K, V>, t1: Table<K, V>, hash: K -> nat, m: map<K, V>) {
    && Homed(t0, hash) && Homed(t1, hash)
    && forall k :: Holds(t0, t1, hash, m, k)
  }

  ghost predicate Holds<K(!new), V>(t0: Table<K, V>, t1: Table<K, V>, hash: K -> nat, m: map<K, V>, k: K) {
    && (Find(t0, hash, k) == None || Find(t1, hash, k) == None)
    && (if k in m then Find(t0, hash, k) == Some(m[k]) || Find(t1, hash, k) == Some(m[k])
        else Find(t0, hash, k) == None && Find(t1, hash, k) == None)
  }

  /** Entry `p` of the key's own chain has that key. */
  ghost predicate At<K, V>(t: Table<K, V>, hash: K -> nat, key: K, p: nat) {
    |t| > 0 && p < |t[Home(hash, key, |t|)]| && t[Home(hash, key, |t|)][p].key == key
  }

  // ---- chains

  lemma {:induction false} FindInAt<K, V>(c: Chain<K, V>, p: nat)
    requires NoDup(c) && p < |c|
    ensures FindIn(c, c[p].key) == Some(c[p].val)
  {
    if p > 0 {
      FindInAt(c[1..], p - 1);
    }
  }

  lemma {:induction false} FindInNone<K, V>(c: Chain<K, V>, k: K)
    ensures FindIn(c, k) == None <==> forall p :: 0 <= p < |c| ==> c[p].key != k
  {
    if c != [] {
      FindInNone(c[1..], k);
      assert forall p :: 0 <= p < |c| - 1 ==> c[p + 1] == c[1..][p];
      assert forall p :: 0 < p < |c| ==> c[p] == c[1..][p - 1];
    }
  }

  /** A chain has no duplicates exactly when its keys differ pairwise. */
  lemma {:induction false} NoDupPairs<K, V>(c: Chain<K, V>)
    ensures NoDup(c) <==> forall p, q :: 0 <= p < q < |c| ==> c[p].key != c[q].key
  {
    if c != [] {
      NoDupPairs(c[1..]);
      FindInNone(c[1..], c[0].key);
      assert forall p :: 0 < p < |c| ==> c[p] == c[1..][p - 1];
      assert forall p :: 0 <= p < |c| - 1 ==> c[p + 1] == c[1..][p];
    }
  }

  /** Unlinking entry `p` removes its key and no other. */
  lemma {:induction false} Unlink<K, V>(c: Chain<K, V>, p: nat, k: K)
    requires NoDup(c) && p < |c|
    ensures var c' := c[..p] + c[p + 1..];
      NoDup(c') && FindIn(c', k) == if k == c[p].key then None else FindIn(c, k)
  {
    var c' := c[..p] + c[p + 1..];
    if p == 0 {
      assert c' == c[1..];
    } else {
      Unlink(c[1..], p - 1, k);
      Unlink(c[1..], p - 1, c[0].key);
      assert c'[1..] == c[1..][..p - 1] + c[1..][p..];
      FindInNone(c[1..], c[0].key);
      assert c[p] == c[1..][p - 1];
    }
  }

  /** Setting the value of entry `p` changes the value found for its key only. */
  lemma {:induction false} Overwrite<K, V>(c: Chain<K, V>, p: nat, v: V, k: K)
    requires NoDup(c) && p < |c|
    ensures var c' := c[p := Entry(c[p].key, v)];
      NoDup(c') && FindIn(c', k) == if k == c[p].key then Some(v) else FindIn(c, k)
  {
    var c' := c[p := Entry(c[p].key, v)];
    if p == 0 {
      assert c'[1..] == c[1..];
    } else {
      Overwrite(c[1..], p - 1, v, k);
      Overwrite(c[1..], p - 1, v, c[0].key);
      assert c'[1..] == c[1..][p - 1 := Entry(c[p].key, v)];
      FindInNone(c[1..], c[0].key);
      assert c[p] == c[1..][p - 1];
    }
  }

  // ---- tables

  lemma {:induction false} TotalUpdate<K, V>(t: Table<K, V>, i: nat, c: Chain<K, V>)
    requires i < |t|
    ensures Total(t[i := c]) == Total(t) - |t[i]| + |c|
    ensures Total(t) >= |t[i]|
  {
    var n := |t| - 1;
    if i == n {
      assert t[i := c][..n] == t[..n];
    } else {
      assert t[i := c][..n] == t[..n][i := c];
      TotalUpdate(t[..n], i, c);
    }
  }

  lemma {:induction false} TotalZero<K, V>(t: Table<K, V>)
    ensures Total(t) == 0 <==> forall i :: 0 <= i < |t| ==> t[i] == []
  {
    if t != [] { TotalZero(t[..|t| - 1]); }
  }

  /** Writing bucket `i` of a table: only the keys at home there can be affected. */
  lemma FindElsewhere<K, V>(t: Table<K, V>, hash: K -> nat, i: nat, c: Chain<K, V>, k: K)
    requires i < |t|
    ensures Find(t[i := c], hash, k) == if Home(hash, k, |t|) == i then FindIn(c, k) else Find(t, hash, k)
  {}

  /** A new key at the head of its chain. */
  function Insert<K, V>(t: Table<K, V>, hash: K -> nat, e: Entry<K, V>): (t': Table<K, V>)
    requires |t| > 0
    ensures |t'| == |t|
  {
    var i := Home(hash, e.key, |t|);
    t[i := [e] + t[i]]
  }

  lemma InsertKeeps<K, V>(t: Table<K, V>, hash: K -> nat, e: Entry<K, V>)
    requires |t| > 0 && Homed(t, hash) && Find(t, hash, e.key) == None
    ensures Homed(Insert(t, hash, e), hash) && Total(Insert(t, hash, e)) == Total(t) + 1
    ensures forall k :: Find(Insert(t, hash, e), hash, k) == if k == e.key then Some(e.val) else Find(t, hash, k)
  {
    var i := Home(hash, e.key, |t|);
    TotalUpdate(t, i, [e] + t[i]);
    assert ([e] + t[i])[1..] == t[i];
    assert NoDup([e] + t[i]);
  }

  /** Moving the head of a chain of the old table to the new table changes nothing in the map. */
  lemma MoveKeeps<K(!new), V>(t0: Table<K, V>, t1: Table<K, V>, hash: K -> nat, m: map<K, V>, i: nat)
    requires Represents(t0, t1, hash, m) && |t1| > 0 && i < |t0| && t0[i] != []
    ensures Represents(t0[i := t0[i][1..]], Insert(t1, hash, t0[i][0]), hash, m)
    ensures Total(t0[i := t0[i][1..]]) == Total(t0) - 1
    ensures Total(Insert(t1, hash, t0[i][0])) == Total(t1) + 1
  {
    var e, rest := t0[i][0], t0[i][1..];
    var t0', t1' := t0[i := rest], Insert(t1, hash, e);
    assert Home(hash, t0[i][0].key, |t0|) == i;
    assert Find(t0, hash, e.key) == Some(e.val);
    assert Holds(t0, t1, hash, m, e.key);
    InsertKeeps(t1, hash, e);
    TotalUpdate(t0, i, rest);
    forall k ensures Holds(t0', t1', hash, m, k) {
      assert Holds(t0, t1, hash, m, k);
      FindElsewhere(t0, hash, i, rest, k);
    }
    assert Homed(t0', hash) by {
      assert NoDup(rest);
      assert forall p :: 0 <= p < |rest| ==> rest[p] == t0[i][p + 1];
    }
  }

  /** Writing one bucket of a table to add, overwrite or remove the single key `k`. */
  lemma {:induction false} RepresentsUpdate<K(!new), V>(t0: Table<K, V>, t1: Table<K, V>, t0': Table<K, V>, t1': Table<K, V>,
                                                        hash: K -> nat, m: map<K, V>, k: K, v: Option<V>)
    requires Represents(t0, t1, hash, m) && Homed(t0', hash) && Homed(t1', hash)
    requires forall x :: x != k ==> Find(t0', hash, x) == Find(t0, hash, x) && Find(t1', hash, x) == Find(t1, hash, x)
    requires Find(t0', hash, k) == None || Find(t1', hash, k) == None
    requires v == if Find(t0', hash, k) == None then Find(t1', hash, k) else Find(t0', hash, k)
    ensures Represents(t0', t1', hash, if v == None then m - {k} else m[k := v.value])
  {
    var m' := if v == None then m - {k} else m[k := v.value];
    forall x ensures Holds(t0', t1', hash, m', x) {
      assert Holds(t0, t1, hash, m, x);
    }
  }

  // ---- what an iterator sees of an update

  function Keys<K, V>(c: Chain<K, V>): (ks: seq<K>)
    ensures |ks| == |c| && forall i :: 0 <= i < |c| ==> ks[i] == c[i].key
  {
    seq(|c|, i requires 0 <= i < |c| => c[i].key)
  }

  /** The part of a chain's keys that starts at `k`. */
  function From<K(==)>(ks: seq<K>, k: K): (r: seq<K>)
    ensures k in ks ==> r != [] && r[0] == k
  {
    if ks == [] then [] else if ks[0] == k then ks else From(ks[1..], k)
  }

  ghost predicate Disjoint<K>(ks: seq<K>, gone: set<K>) { forall g :: g in gone ==> g !in ks }

  /** Whatever part of a chain does not hold a key of `gone` is still there, in order. */
  ghost predicate ChainSteady<K(!new), V>(c: Chain<K, V>, c': Chain<K, V>, gone: set<K>) {
    forall k :: k in Keys(c) && Disjoint(From(Keys(c), k), gone) ==> k in Keys(c') && From(Keys(c'), k) == From(Keys(c), k)
  }

  ghost predicate TableSteady<K(!new), V>(t: Table<K, V>, t': Table<K, V>, hash: K -> nat, gone: set<K>, came: set<K>) {
    && |t'| == |t|
    && (forall i :: 0 <= i < |t| ==> ChainSteady(t[i], t'[i], gone))
    && (forall k :: k !in gone && k !in came ==> (Find(t', hash, k) == None <==> Find(t, hash, k) == None))
  }

  /** An update that moves no entry: only `gone` was unlinked, only `came` was linked. */
  ghost predicate Steady<K(!new), V>(t0: Table<K, V>, t1: Table<K, V>, t0': Table<K, V>, t1': Table<K, V>,
                                     hash: K -> nat, gone: set<K>, came: set<K>) {
    && TableSteady(t0, t0', hash, gone, came)
    && (if |t1| > 0 then TableSteady(t1, t1', hash, gone, came)
        else forall k :: k !in came ==> Find(t1', hash, k) == None)
  }

  /** Unlinking a key that is not at or after `k` leaves the part from `k` as it is. */
  lemma {:induction false} FromUnlinked<K>(ks: seq<K>, p: nat, k: K)
    requires p < |ks| && k in ks && ks[p] !in From(ks, k)
    ensures var ks' := ks[..p] + ks[p + 1..]; k in ks' && From(ks', k) == From(ks, k)
  {
    var ks' := ks[..p] + ks[p + 1..];
    if p == 0 {
      assert ks' == ks[1..];
    } else {
      assert ks[0] != k;
      assert ks'[1..] == ks[1..][..p - 1] + ks[1..][p..];
      FromUnlinked(ks[1..], p - 1, k);
    }
  }

  lemma InsertSteady<K(!new), V>(t: Table<K, V>, hash: K -> nat, e: Entry<K, V>, gone: set<K>)
    requires |t| > 0 && Homed(t, hash) && Find(t, hash, e.key) == None
    ensures TableSteady(t, Insert(t, hash, e), hash, gone, {e.key})
  {
    InsertKeeps(t, hash, e);
    var t' := Insert(t, hash, e);
    var h := Home(hash, e.key, |t|);
    PushSteady(t[h], e, gone);
    hide ChainSteady, Homed, Find;
    forall i | 0 <= i < |t| ensures ChainSteady(t[i], t'[i], gone) {
      if i != h {
        ChainSame(t[i], gone);
      }
    }
  }

  lemma ChainSame<K(!new), V>(c: Chain<K, V>, gone: set<K>)
    ensures ChainSteady(c, c, gone)
  {}

  lemma PushSteady<K(!new), V>(c: Chain<K, V>, e: Entry<K, V>, gone: set<K>)
    requires FindIn(c, e.key) == None
    ensures ChainSteady(c, [e] + c, gone)
  {
    FindInNone(c, e.key);
    assert ([e] + c)[1..] == c;
    assert Keys([e] + c) == [e.key] + Keys(c) && Keys([e] + c)[1..] == Keys(c);
    forall k | k in Keys(c) ensures k in Keys([e] + c) && From(Keys([e] + c), k) == From(Keys(c), k) {
      var p :| 0 <= p < |c| && Keys(c)[p] == k;
      assert c[p].key == k && Keys([e] + c)[p + 1] == k;
    }
  }

  lemma OverwriteSteady<K(!new), V>(t: Table<K, V>, hash: K -> nat, key: K, p: nat, v: V)
    requires Homed(t, hash) && At(t, hash, key, p)
    ensures var i := Home(hash, key, |t|);
      TableSteady(t, t[i := t[i][p := Entry(key, v)]], hash, {}, {})
  {
    var i := Home(hash, key, |t|);
    var c := t[i][p := Entry(key, v)];
    assert Keys(c) == Keys(t[i]);
    forall k ensures Find(t[i := c], hash, k) == None <==> Find(t, hash, k) == None {
      FindElsewhere(t, hash, i, c, k);
      Overwrite(t[i], p, v, k);
      FindInAt(t[i], p);
    }
  }

  lemma UnlinkSteady<K(!new), V>(t: Table<K, V>, hash: K -> nat, key: K, p: nat)
    requires Homed(t, hash) && At(t, hash, key, p)
    ensures var i := Home(hash, key, |t|);
      TableSteady(t, t[i := t[i][..p] + t[i][p + 1..]], hash, {key}, {})
  {
    var i := Home(hash, key, |t|);
    var c, c' := t[i], t[i][..p] + t[i][p + 1..];
    forall k | k in Keys(c) && Disjoint(From(Keys(c), k), {key})
      ensures k in Keys(c') && From(Keys(c'), k) == From(Keys(c), k)
    {
      FromUnlinked(Keys(c), p, k);
      assert Keys(c') == Keys(c)[..p] + Keys(c)[p + 1..];
    }
    forall k | k != key ensures Find(t[i := c'], hash, k) == None <==> Find(t, hash, k) == None {
      FindElsewhere(t, hash, i, c', k);
      Unlink(c, p, k);
    }
  }

  lemma TableSteadySame<K(!new), V>(t: Table<K, V>, hash: K -> nat, gone: set<K>, came: set<K>)
    ensures TableSteady(t, t, hash, gone, came)
  {}

  lemma SteadySame<K(!new), V>(t0: Table<K, V>, t1: Table<K, V>, hash: K -> nat)
    ensures Steady(t0, t1, t0, t1, hash, {}, {})
  {}

  /** The first table is as it was, and so is the second unless it is new. */
  ghost predicate Grown<K, V>(t0: Table<K, V>, t1: Table<K, V>, u0: Table<K, V>, u1: Table<K, V>) {
    u0 == t0 && (u1 == t1 || (t1 == [] && u1 == Empty(|u1|)))
  }

  lemma ExpandSteady<K(!new), V>(t0: Table<K, V>, t1: Table<K, V>, t1': Table<K, V>, hash: K -> nat)
    requires t1' == t1 || (t1 == [] && t1' == Empty(|t1'|))
    ensures Steady(t0, t1, t0, t1', hash, {}, {})
  {}

  /** Linking `e` in the second table if there is one, else in the first, with the second
      table possibly allocated just before. */
  lemma LinkSteady<K(!new), V>(t0: Table<K, V>, t1: Table<K, V>, t1': Table<K, V>, hash: K -> nat, e: Entry<K, V>)
    requires Homed(t0, hash) && Homed(t1', hash) && |t0| > 0
    requires t1' == t1 || (t1 == [] && t1' == Empty(|t1'|))
    requires Find(t0, hash, e.key) == None && Find(t1', hash, e.key) == None
    ensures if |t1'| > 0 then Steady(t0, t1, t0, Insert(t1', hash, e), hash, {}, {e.key})
      else Steady(t0, t1, Insert(t0, hash, e), t1', hash, {}, {e.key})
  {
    if |t1'| > 0 {
      InsertSteady(t1', hash, e, {});
      TableSteadySame(t0, hash, {}, {e.key});
    } else {
      InsertSteady(t0, hash, e, {});
    }
  }

  lemma SteadyTrans<K(!new), V>(t0: Table<K, V>, t1: Table<K, V>, u0: Table<K, V>, u1: Table<K, V>, v0: Table<K, V>, v1: Table<K, V>,
                                hash: K -> nat, came: set<K>)
    requires Steady(t0, t1, u0, u1, hash, {}, came) && Steady(u0, u1, v0, v1, hash, {}, {})
    ensures Steady(t0, t1, v0, v1, hash, {}, came)
  {
    TableSteadyTrans(t0, u0, v0, hash, came);
    if |t1| > 0 { TableSteadyTrans(t1, u1, v1, hash, came); }
  }

  lemma TableSteadyTrans<K(!new), V>(t: Table<K, V>, u: Table<K, V>, v: Table<K, V>, hash: K -> nat, came: set<K>)
    requires TableSteady(t, u, hash, {}, came) && TableSteady(u, v, hash, {}, {})
    ensures TableSteady(t, v, hash, {}, came)
  {
    forall i | 0 <= i < |t| ensures ChainSteady(t[i], v[i], {}) {
      assert ChainSteady(t[i], u[i], {}) && ChainSteady(u[i], v[i], {});
    }
  }
}

/** What the operations make of the two tables and of the migration index, as values. */
module DictShape {
  import opened Wrappers
  import opened DictTables

  /** The tables and the bucket where the migration goes on, or -1. */
  datatype Shape<K, V> = Shape(t0: Table<K, V>, t1: Table<K, V>, idx: int)

  const INITIAL := 4
  const FORCE_RATIO := 5

  /** The first bucket from `i` on that holds something, or the end. */
  function FirstFull<K, V>(t: Table<K, V>, i: nat): (j: nat)
    requires i <= |t|
    ensures i <= j <= |t| && (forall k :: i <= k < j ==> t[k] == []) && (j < |t| ==> t[j] != [])
    decreases |t| - i
  {
    if i == |t| || t[i] != [] then i else FirstFull(t, i + 1)
  }

  /** The entries of a chain, linked one after the other in their new buckets. */
  function Poured<K, V>(c: Chain<K, V>, t: Table<K, V>, hash: K -> nat): (t': Table<K, V>)
    requires |t| > 0
    ensures |t'| == |t|
    decreases |c|
  {
    if c == [] then t else Poured(c[1..], Insert(t, hash, c[0]), hash)
  }

  /** A migration that can go on: everything before the index has moved. */
  ghost predicate Migrating<K, V>(s: Shape<K, V>) {
    0 <= s.idx <= |s.t0| && |s.t1| > 0 && forall i :: 0 <= i < s.idx ==> s.t0[i] == []
  }

  /** One step: the next chain moves, or the second table takes the place of the empty first. */
  ghost function Moved<K, V>(s: Shape<K, V>, hash: K -> nat): Shape<K, V> {
    if !Migrating(s) then s
    else if Total(s.t0) == 0 then Shape(s.t1, [], -1)
    else
      var j := FirstFull(s.t0, s.idx);
      if j == |s.t0| then s else Shape(s.t0[j := []], Poured(s.t0[j], s.t1, hash), j + 1)
  }

  ghost function MovedBy<K, V>(s: Shape<K, V>, hash: K -> nat, n: nat): Shape<K, V>
    decreases n
  {
    if n == 0 || s.idx == -1 then s else MovedBy(Moved(s, hash), hash, n - 1)
  }

  /** The step that every look-up and update makes while no safe iterator runs. */
  ghost function Ticked<K, V>(s: Shape<K, V>, hash: K -> nat, iterators: nat): Shape<K, V> {
    if s.idx != -1 && iterators == 0 then Moved(s, hash) else s
  }

  /** The least power of two from `i` on that is at least `size`. */
  function PowerFrom(i: nat, size: nat): (p: nat)
    requires i > 0
    ensures p >= i && p >= size && (p == i || p < 2 * size)
    decreases size - i
  {
    if i >= size then i else PowerFrom(2 * i, size)
  }

  ghost function Expanded<K, V>(s: Shape<K, V>, size: nat): Shape<K, V> {
    var n: Table<K, V> := Empty(PowerFrom(INITIAL, size));
    if |s.t0| == 0 then s.(t0 := n) else s.(t1 := n, idx := 0)
  }

  ghost predicate Full<K, V>(s: Shape<K, V>, canResize: bool) {
    Total(s.t0) >= |s.t0| && (|s.t0| == 0 || canResize || Total(s.t0) / |s.t0| > FORCE_RATIO)
  }

  /** A first table of 4 buckets, or one that is doubled when it is full. */
  ghost function WithRoom<K, V>(s: Shape<K, V>, canResize: bool): Shape<K, V> {
    if s.idx != -1 then s
    else if |s.t0| == 0 then Expanded(s, INITIAL)
    else if Full(s, canResize) then Expanded(s, Total(s.t0) * 2)
    else s
  }

  ghost function Linked<K, V>(s: Shape<K, V>, hash: K -> nat, e: Entry<K, V>): Shape<K, V> {
    if s.idx != -1 then (if |s.t1| > 0 then s.(t1 := Insert(s.t1, hash, e)) else s)
    else if |s.t0| > 0 then s.(t0 := Insert(s.t0, hash, e)) else s
  }

  function WithoutKey<K(==), V>(c: Chain<K, V>, k: K): Chain<K, V> {
    if c == [] then [] else if c[0].key == k then c[1..] else [c[0]] + WithoutKey(c[1..], k)
  }

  function WithVal<K(==), V>(c: Chain<K, V>, k: K, v: V): Chain<K, V> {
    if c == [] then [] else if c[0].key == k then [Entry(k, v)] + c[1..] else [c[0]] + WithVal(c[1..], k, v)
  }

  /** The chain of the key's own bucket, changed by `f`. */
  function AtHome<K, V>(t: Table<K, V>, hash: K -> nat, k: K, f: Chain<K, V> -> Chain<K, V>): Table<K, V> {
    if |t| == 0 then t else t[Home(hash, k, |t|) := f(t[Home(hash, k, |t|)])]
  }

  ghost function Unlinked<K, V>(s: Shape<K, V>, hash: K -> nat, k: K): Shape<K, V> {
    Shape(AtHome(s.t0, hash, k, c => WithoutKey(c, k)), AtHome(s.t1, hash, k, c => WithoutKey(c, k)), s.idx)
  }

  ghost function Overwritten<K, V>(s: Shape<K, V>, hash: K -> nat, k: K, v: V): Shape<K, V> {
    Shape(AtHome(s.t0, hash, k, c => WithVal(c, k, v)), AtHome(s.t1, hash, k, c => WithVal(c, k, v)), s.idx)
  }

  lemma {:induction false} WithoutKeyIs<K, V>(c: Chain<K, V>, k: K, p: nat)
    requires NoDup(c)
    ensures p < |c| && c[p].key == k ==> WithoutKey(c, k) == c[..p] + c[p + 1..]
    ensures FindIn(c, k) == None ==> WithoutKey(c, k) == c
  {
    if c != [] {
      if p > 0 {
        WithoutKeyIs(c[1..], k, p - 1);
        if p < |c| && c[p].key == k {
          assert c[1..][p - 1] == c[p];
          FindInNone(c[1..], c[0].key);
          assert c[0].key != k;
          assert [c[0]] + (c[1..][..p - 1] + c[1..][p..]) == c[..p] + c[p + 1..];
        }
      } else {
        WithoutKeyIs(c[1..], k, 0);
        assert c[..0] + c[1..] == c[1..];
      }
    }
  }

  lemma {:induction false} WithValIs<K, V>(c: Chain<K, V>, k: K, v: V, p: nat)
    requires NoDup(c)
    ensures p < |c| && c[p].key == k ==> WithVal(c, k, v) == c[p := Entry(k, v)]
    ensures FindIn(c, k) == None ==> WithVal(c, k, v) == c
  {
    if c != [] {
      if p > 0 {
        WithValIs(c[1..], k, v, p - 1);
        if p < |c| && c[p].key == k {
          assert c[1..][p - 1] == c[p];
          FindInNone(c[1..], c[0].key);
          assert c[0].key != k;
          assert [c[0]] + c[1..][p - 1 := Entry(k, v)] == c[p := Entry(k, v)];
        }
      } else {
        WithValIs(c[1..], k, v, 0);
        assert [Entry(k, v)] + c[1..] == c[0 := Entry(k, v)];
      }
    }
  }

  /** A step moves the index on, or ends the migration. */
  lemma MovedOn<K, V>(s: Shape<K, V>, hash: K -> nat)
    requires Migrating(s)
    ensures var s' := Moved(s, hash);
      s'.idx == -1 || (Migrating(s') && s.idx < s'.idx && |s'.t0| == |s.t0| && |s'.t1| == |s.t1|)
  {
    if Total(s.t0) > 0 {
      var j := FirstFull(s.t0, s.idx);
      TotalZero(s.t0);
      assert j < |s.t0|;
    }
  }

  /** As many steps as there are buckets left, and one more, end it. */
  lemma {:induction false} MovedByEnds<K, V>(s: Shape<K, V>, hash: K -> nat, n: nat)
    requires Migrating(s) && n > |s.t0| - s.idx
    ensures MovedBy(s, hash, n).idx == -1
    decreases n
  {
    MovedOn(s, hash);
    var s' := Moved(s, hash);
    if s'.idx != -1 { MovedByEnds(s', hash, n - 1); }
  }

  lemma {:induction false} MovedBySnoc<K, V>(s: Shape<K, V>, hash: K -> nat, n: nat)
    ensures MovedBy(s, hash, n + 1) == Ticked(MovedBy(s, hash, n), hash, 0)
    decreases n
  {
    hide Moved;
    if n > 0 && s.idx != -1 { MovedBySnoc(Moved(s, hash), hash, n - 1); }
  }
}

/** dict.c: two tables and an index that moves while buckets migrate from the first to
    the second. A table with no buckets stands for the NULL table. */
module DictClass {
  import opened Wrappers
  import opened DictTables
  import opened DictShape

  const DICT_HT_INITIAL_SIZE := INITIAL
  const DICT_FORCE_RESIZE_RATIO := FORCE_RATIO

  ghost predicate PowerOfTwo(n: nat) {
    n == 1 || (n > 1 && n % 2 == 0 && PowerOfTwo(n / 2))
  }

  /** The object invariant, on the values of the fields. */
  ghost predicate Inv<K(!new), V>(t0: Table<K, V>, t1: Table<K, V>, used0: nat, used1: nat, rehashidx: int,
                                  hash: K -> nat, m: map<K, V>) {
    && Represents(t0, t1, hash, m)
    && used0 == Total(t0) && used1 == Total(t1)
    && -1 <= rehashidx <= |t0|
    && (|t0| == 0 || PowerOfTwo(|t0|)) && (|t1| == 0 || PowerOfTwo(|t1|))
    && (rehashidx == -1 ==> |t1| == 0)
    && (rehashidx >= 0 ==> |t0| > 0 && |t1| > 0)
    && (forall i :: 0 <= i < rehashidx ==> t0[i] == [])
  }

  lemma EmptyTables<K(!new), V>(hash: K -> nat)
    ensures Inv<K, V>([], [], 0, 0, -1, hash, map[])
  {
    var none: Table<K, V> := [];
    forall k ensures Holds(none, none, hash, map[], k) {}
  }

  lemma {:induction false} EmptyTotal<K, V>(n: nat)
    ensures Total(Empty<K, V>(n)) == 0
  {
    TotalZero(Empty<K, V>(n));
  }

  /** A fresh second table, or a fresh first table when there was none. */
  lemma ExpandKeeps<K(!new), V>(t0: Table<K, V>, t1: Table<K, V>, used0: nat, used1: nat, hash: K -> nat, m: map<K, V>, n: Table<K, V>)
    requires Inv(t0, t1, used0, used1, -1, hash, m) && PowerOfTwo(|n|) && n == Empty(|n|)
    ensures if |t0| == 0 then Inv(n, t1, 0, used1, -1, hash, m) else Inv(t0, n, used0, 0, 0, hash, m)
  {
    EmptyTotal<K, V>(|n|);
    forall k
      ensures |t0| == 0 ==> Holds(n, t1, hash, m, k)
      ensures |t0| > 0 ==> Holds(t0, n, hash, m, k)
    {
      assert Holds(t0, t1, hash, m, k);
    }
  }

  /** Once the first table is empty the second takes its place. */
  lemma SwitchKeeps<K(!new), V>(t0: Table<K, V>, t1: Table<K, V>, used1: nat, rehashidx: nat, hash: K -> nat, m: map<K, V>)
    requires Inv(t0, t1, 0, used1, rehashidx, hash, m)
    ensures Inv(t1, [], used1, 0, -1, hash, m)
  {
    TotalZero(t0);
    forall k ensures Holds(t1, [], hash, m, k) {
      assert Holds(t0, t1, hash, m, k);
    }
  }

  /** While entries remain in the first table, the migration index is inside it. */
  lemma IndexInside<K(!new), V>(t0: Table<K, V>, i: nat)
    requires i <= |t0| && Total(t0) > 0 && forall j :: 0 <= j < i ==> t0[j] == []
    ensures i < |t0|
  {
    TotalZero(t0);
  }

  /** The state inside the bucket move: `rest` of bucket `i` has not moved yet. */
  ghost predicate Moving<K(!new), V>(t0: Table<K, V>, t1: Table<K, V>, used0: nat, used1: nat, i: nat, rest: Chain<K, V>,
                                     hash: K -> nat, m: map<K, V>) {
    i < |t0| && Inv(t0[i := rest], t1, used0, used1, i, hash, m)
  }

  lemma MovingStep<K(!new), V>(t0: Table<K, V>, t1: Table<K, V>, used0: nat, used1: nat, i: nat, rest: Chain<K, V>,
                               hash: K -> nat, m: map<K, V>)
    requires Moving(t0, t1, used0, used1, i, rest, hash, m) && rest != []
    ensures |t1| > 0 && used0 > 0
    ensures Moving(t0, Insert(t1, hash, rest[0]), used0 - 1, used1 + 1, i, rest[1..], hash, m)
  {
    var t := t0[i := rest];
    MoveKeeps(t, t1, hash, m, i);
    assert t[i := rest[1..]] == t0[i := rest[1..]];
  }

  class Dict<K(==, !new), V> {
    const hash: K -> nat
    ghost var Map: map<K, V>
    var canResize: bool
    var table0: array<Chain<K, V>>
    var used0: nat
    var table1: array<Chain<K, V>>
    var used1: nat
    var rehashidx: int
    var iterators: nat

    ghost predicate Valid()
      reads this, table0, table1
    {
      table0 != table1 && Inv(table0[..], table1[..], used0, used1, rehashidx, hash, Map)
    }

    ghost function Shaped(): Shape<K, V>
      reads this, table0, table1
    {
      Shape(table0[..], table1[..], rehashidx)
    }

    predicate IsRehashing() reads this { rehashidx != -1 }

    constructor (hash: K -> nat, canResize: bool)
      ensures Valid() && fresh(table0) && fresh(table1) && Map == map[] && iterators == 0 && this.hash == hash
      ensures this.canResize == canResize && Shaped() == Shape([], [], -1)
    {
      this.hash, this.canResize := hash, canResize;
      Map, used0, used1, rehashidx, iterators := map[], 0, 0, -1, 0;
      table0, table1 := new Chain<K, V>[0], new Chain<K, V>[0];
      new;
      EmptyTables<K, V>(hash);
      assert table0[..] == [] && table1[..] == [];
    }

    /** The least power of two, from the initial size, that is at least `size`. */
    static method NextPower(size: nat) returns (i: nat)
      ensures size <= i && PowerOfTwo(i) && (i == DICT_HT_INITIAL_SIZE || i < 2 * size) && i == PowerFrom(INITIAL, size)
    {
      i := DICT_HT_INITIAL_SIZE;
      assert PowerOfTwo(4) by { assert PowerOfTwo(2); }
      while i < size
        invariant PowerOfTwo(i) && i > 0 && (i == DICT_HT_INITIAL_SIZE || i < 2 * size) && PowerFrom(i, size) == PowerFrom(INITIAL, size)
        decreases size - i
      {
        i := i * 2;
      }
    }

    method Expand(size: nat) returns (ok: bool)
      requires Valid()
      modifies this
      ensures Valid() && Map == old(Map) && iterators == old(iterators)
      ensures ok <==> !old(IsRehashing()) && old(used0) <= size
      ensures !ok ==> unchanged(this)
      ensures ok && old(table0.Length) == 0 ==> table1 == old(table1) && fresh(table0) && table0.Length >= size && !IsRehashing() && used0 == 0
      ensures ok && old(table0.Length) > 0 ==> table0 == old(table0) && fresh(table1) && table1.Length >= size && rehashidx == 0
      ensures ok && old(table0.Length) == 0 ==> table0[..] == Empty(table0.Length)
      ensures ok && old(table0.Length) > 0 ==> table1[..] == Empty(table1.Length)
      ensures Shaped() == (if ok then Expanded(old(Shaped()), size) else old(Shaped())) && canResize == old(canResize)
    {
      var realsize := NextPower(size);
      if IsRehashing() || used0 > size { return false; }
      var n := new Chain<K, V>[realsize](_ => []);
      assert n[..] == Empty(realsize);
      ExpandKeeps(table0[..], table1[..], used0, used1, hash, Map, n[..]);
      ok := true;
      if table0.Length == 0 {
        TotalZero(table0[..]);
        table0, used0 := n, 0;
      } else {
        table1, used1, rehashidx := n, 0, 0;
      }
    }

    /** Advance the migration index to a bucket that holds something. */
    method SkipEmpty()
      requires Valid() && IsRehashing() && used0 > 0
      modifies this`rehashidx
      ensures Valid() && IsRehashing() && old(rehashidx) <= rehashidx < table0.Length
      ensures old(0 <= rehashidx <= table0.Length) && rehashidx == FirstFull(table0[..], old(rehashidx))
    {
      hide Represents;
      IndexInside(table0[..], rehashidx);
      while table0[rehashidx] == []
        invariant old(rehashidx) <= rehashidx < table0.Length
        invariant forall i :: 0 <= i < rehashidx ==> table0[i] == []
        invariant FirstFull(table0[..], rehashidx) == FirstFull(table0[..], old(rehashidx))
        decreases table0.Length - rehashidx
      {
        rehashidx := rehashidx + 1;
        IndexInside(table0[..], rehashidx);
      }
    }

    /** Move the chain of bucket `rehashidx`, head first. */
    method MoveChain()
      requires Valid() && 0 <= rehashidx < table0.Length
      modifies this`rehashidx, this`used0, this`used1, table0, table1
      ensures Valid() && rehashidx == old(rehashidx) + 1 && old(table1.Length) > 0
      ensures table0[..] == old(table0[..])[old(rehashidx) := []]
      ensures table1[..] == Poured(old(table0[..])[old(rehashidx)], old(table1[..]), hash)
    {
      var i, de := rehashidx, table0[rehashidx];
      ghost var t0, goal := table0[..], Poured(table0[rehashidx], table1[..], hash);
      assert t0[i := de] == t0;
      assert Moving(t0, table1[..], used0, used1, i, de, hash, Map);
      hide *;
      while de != []
        invariant table0[..] == t0
        invariant Moving(t0, table1[..], used0, used1, i, de, hash, Map)
        invariant table1.Length > 0 && Poured(de, table1[..], hash) == goal
        decreases |de|
      {
        PouredNext(de, table1[..], hash);
        MovingStep(t0, table1[..], used0, used1, i, de, hash, Map);
        MoveEntry(de[0]);
        de := de[1..];
      }
      PouredOut(table1[..], hash);
      table0[i] := [];
      rehashidx := i + 1;
      assert table0[..] == t0[i := []];
      MovingDone(t0, table1[..], used0, used1, i, hash, Map);
    }

    static lemma PouredNext(c: Chain<K, V>, t: Table<K, V>, hash: K -> nat)
      requires c != [] && |t| > 0
      ensures Poured(c, t, hash) == Poured(c[1..], Insert(t, hash, c[0]), hash)
    {}

    static lemma PouredOut(t: Table<K, V>, hash: K -> nat)
      requires |t| > 0
      ensures Poured([], t, hash) == t
    {}

    /** Link one entry at the head of its chain in the second table. */
    method MoveEntry(e: Entry<K, V>)
      requires table0 != table1 && table1.Length > 0 && used0 > 0
      modifies this`used0, this`used1, table1
      ensures table1[..] == Insert(old(table1[..]), hash, e)
      ensures used0 == old(used0) - 1 && used1 == old(used1) + 1
    {
      var h := Home(hash, e.key, table1.Length);
      table1[h] := [e] + table1[h];
      used0, used1 := used0 - 1, used1 + 1;
    }

    /** `n` steps of migration; true when it is still going on. */
    method Rehash(n: nat) returns (more: bool)
      requires Valid()
      modifies this, table0, table1
      ensures Valid() && Map == old(Map) && iterators == old(iterators)
      ensures fresh({table0, table1} - old({table0, table1}))
      ensures more == IsRehashing()
      ensures old(IsRehashing()) && n > old(table0.Length) - old(rehashidx) ==> !IsRehashing()
      ensures !old(IsRehashing()) ==> !more && unchanged(this) && unchanged(table0) && unchanged(table1)
      ensures Shaped() == MovedBy(old(Shaped()), hash, n) && canResize == old(canResize)
    {
      MovedByNone(Shaped(), hash, n);
      if !IsRehashing() { return false; }
      InMigration();
      if n > table0.Length - rehashidx { MovedByEnds(Shaped(), hash, n); }
      hide *;
      more := RehashOn(n);
      Going();
    }

    /** The loop, once it is known that a migration is on. */
    method RehashOn(n: nat) returns (more: bool)
      requires Valid() && IsRehashing()
      modifies this, table0, table1
      ensures Valid() && Map == old(Map) && iterators == old(iterators) && canResize == old(canResize)
      ensures fresh({table0, table1} - old({table0, table1}))
      ensures more == IsRehashing() && Shaped() == MovedBy(old(Shaped()), hash, n)
    {
      var m := n;
      ghost var s0 := Shaped();
      more := true;
      hide *;
      while m > 0 && more
        invariant 0 <= m <= n && Valid() && more == IsRehashing() && Map == old(Map) && iterators == old(iterators) && canResize == old(canResize)
        invariant fresh({table0, table1} - old({table0, table1}))
        invariant MovedBy(Shaped(), hash, m) == MovedBy(s0, hash, n)
        decreases m
      {
        Going();
        MovedByStep(Shaped(), hash, m);
        m := m - 1;
        more := RehashOne();
      }
      Going();
      MovedByNone(Shaped(), hash, m);
    }

    lemma Going()
      requires Valid()
      ensures (IsRehashing() <==> Shaped().idx != -1) && Shaped().idx == rehashidx && rehashidx <= table0.Length
    {}

    static lemma MovedByStep(s: Shape<K, V>, hash: K -> nat, m: nat)
      requires m > 0 && s.idx != -1
      ensures MovedBy(s, hash, m) == MovedBy(Moved(s, hash), hash, m - 1)
    {}

    static lemma MovedByNone(s: Shape<K, V>, hash: K -> nat, m: nat)
      ensures m == 0 || s.idx == -1 ==> MovedBy(s, hash, m) == s
    {}

    /** One turn of the loop: false once the whole table has moved. */
    method RehashOne() returns (on: bool)
      requires Valid() && IsRehashing()
      modifies this, table0, table1
      ensures Valid() && Map == old(Map) && iterators == old(iterators) && canResize == old(canResize)
      ensures on == IsRehashing() && Shaped() == Moved(old(Shaped()), hash)
      ensures if on then table0 == old(table0) && table1 == old(table1) && rehashidx > old(rehashidx)
        else table0 == old(table1) && fresh(table1)
    {
      hide *;
      on := used0 != 0;
      if used0 == 0 {
        Switch();
        return false;
      }
      MoveNext();
    }

    method MoveNext()
      requires Valid() && IsRehashing() && used0 > 0
      modifies this`rehashidx, this`used0, this`used1, table0, table1
      ensures Valid() && IsRehashing() && rehashidx > old(rehashidx) && Shaped() == Moved(old(Shaped()), hash)
    {
      ghost var s := Shaped();
      InMigration();
      hide Inv;
      SkipEmpty();
      MoveChain();
    }

    lemma InMigration()
      requires Valid() && IsRehashing()
      ensures Migrating(Shaped()) && used0 == Total(table0[..])
    {}

    /** The second table becomes the first. */
    method Switch()
      requires Valid() && IsRehashing() && used0 == 0
      modifies this
      ensures Valid() && !IsRehashing() && Map == old(Map) && iterators == old(iterators)
      ensures table0 == old(table1) && fresh(table1) && Shaped() == Moved(old(Shaped()), hash) && canResize == old(canResize)
    {
      InMigration();
      SwitchKeeps(table0[..], table1[..], used1, rehashidx, hash, Map);
      hide Inv;
      table0, used0 := table1, used1;
      table1, used1 := new Chain<K, V>[0], 0;
      rehashidx := -1;
      assert table1[..] == [];
    }

    method Step()
      requires Valid()
      modifies this, table0, table1
      ensures Valid() && Map == old(Map) && iterators == old(iterators)
      ensures fresh({table0, table1} - old({table0, table1}))
      ensures old(iterators) > 0 || !old(IsRehashing()) ==> unchanged(this) && unchanged(table0) && unchanged(table1)
      ensures Shaped() == Ticked(old(Shaped()), hash, iterators) && canResize == old(canResize)
    {
      hide Inv, Moved;
      if IsRehashing() && iterators == 0 {
        var _ := Rehash(1);
      }
    }

    /** The position of a key in a chain, or the chain's length. */
    static method Scan(c: Chain<K, V>, key: K) returns (p: nat)
      ensures p <= |c|
      ensures p < |c| ==> c[p].key == key && FindIn(c, key) == Some(c[p].val)
      ensures p == |c| ==> FindIn(c, key) == None
    {
      p := 0;
      assert c[0..] == c;
      while p < |c|
        invariant 0 <= p <= |c| && FindIn(c, key) == FindIn(c[p..], key)
      {
        if c[p].key == key { return; }
        assert c[p..][1..] == c[p + 1..];
        p := p + 1;
      }
    }

    /** Where the entry of a key is: the table (0 or 1) and the position in its chain there. */
    method Locate(key: K) returns (found: bool, table: nat, p: nat)
      requires Valid()
      ensures found <==> key in Map
      ensures found ==> table <= 1 && (table == 1 ==> IsRehashing())
      ensures found ==>
        var t := if table == 0 then table0[..] else table1[..];
        At(t, hash, key, p) && t[Home(hash, key, |t|)][p].val == Map[key]
    {
      assert Holds(table0[..], table1[..], hash, Map, key);
      found, table, p := false, 0, 0;
      if table0.Length == 0 { return; }
      var c := table0[Home(hash, key, table0.Length)];
      p := Scan(c, key);
      if p < |c| { return true, 0, p; }
      if !IsRehashing() { return; }
      c := table1[Home(hash, key, table1.Length)];
      p := Scan(c, key);
      found, table := p < |c|, 1;
    }

    method DictFind(key: K) returns (r: Option<V>)
      requires Valid()
      modifies this, table0, table1
      ensures Valid() && Map == old(Map) && iterators == old(iterators)
      ensures r == if key in Map then Some(Map[key]) else None
      ensures fresh({table0, table1} - old({table0, table1}))
      ensures old(iterators) > 0 ==> unchanged(this) && unchanged(table0) && unchanged(table1)
      ensures Shaped() == Ticked(old(Shaped()), hash, iterators) && canResize == old(canResize)
    {
      r := None;
      Step();
      hide Ticked, Inv;
      var found, table, p := Locate(key);
      if found {
        var t: array<Chain<K, V>> := if table == 0 then table0 else table1;
        r := Some(t[Home(hash, key, t.Length)][p].val);
      }
    }

    /** _dictExpandIfNeeded: what it asks of dictExpand can always be had. */
    method ExpandIfNeeded() returns (ok: bool)
      requires Valid()
      modifies this
      ensures ok
      ensures Valid() && Map == old(Map) && iterators == old(iterators) && table0.Length > 0
      ensures old(IsRehashing()) ==> unchanged(this)
      ensures old(table0.Length) > 0 ==> table0 == old(table0) && used0 == old(used0)
      ensures table0 != old(table0) ==> fresh(table0)
      ensures table1 != old(table1) ==> fresh(table1) && table1[..] == Empty(table1.Length) && IsRehashing() && !old(IsRehashing())
      ensures table1 == old(table1) ==> IsRehashing() == old(IsRehashing())
      ensures !IsRehashing() ==> used0 < table0.Length || !canResize
      ensures Shaped() == WithRoom(old(Shaped()), canResize) && canResize == old(canResize)
    {
      if IsRehashing() { return true; }
      var size := table0.Length;
      ok := true;
      if size == 0 {
        TotalZero(table0[..]);
        ok := Expand(DICT_HT_INITIAL_SIZE);
      } else if used0 >= size && (canResize || used0 / size > DICT_FORCE_RESIZE_RATIO) {
        assert (if size > used0 then size else used0) == used0 == Total(table0[..]);
        ok := Expand((if size > used0 then size else used0) * 2);
      }
    }

    /** dictAdd: false when the key is there already. */
    method Add(key: K, val: V) returns (ok: bool)
      requires Valid()
      modifies this, table0, table1
      ensures Valid() && iterators == old(iterators)
      ensures ok <==> key !in old(Map)
      ensures Map == if ok then old(Map)[key := val] else old(Map)
      ensures fresh({table0, table1} - old({table0, table1}))
      ensures old(iterators) > 0 && old(table0.Length) > 0 ==>
        Steady(old(table0[..]), old(table1[..]), table0[..], table1[..], hash, {}, if ok then {key} else {})
      ensures var s := WithRoom(Ticked(old(Shaped()), hash, iterators), canResize);
        Shaped() == if ok then Linked(s, hash, Entry(key, val)) else s
      ensures canResize == old(canResize)
    {
      ghost var quiet, t0, t1 := iterators > 0 && table0.Length > 0, table0[..], table1[..];
      hide *;
      var expanded := MakeReady();
      assert expanded;  // so the index is never refused for want of a table
      ok := AddReady(key, val, t0, t1, quiet);
    }

    /** A rehash step, if one is due, and a table to add to. */
    method MakeReady() returns (ok: bool)
      requires Valid()
      modifies this, table0, table1
      ensures ok && Valid() && Map == old(Map) && iterators == old(iterators) && table0.Length > 0
      ensures fresh({table0, table1} - old({table0, table1}))
      ensures old(iterators) > 0 && old(table0.Length) > 0 ==> Grown(old(table0[..]), old(table1[..]), table0[..], table1[..])
      ensures Shaped() == WithRoom(Ticked(old(Shaped()), hash, iterators), canResize) && canResize == old(canResize)
    {
      ghost var t0, t1 := table0[..], table1[..];
      assert !IsRehashing() ==> t1 == [];
      hide Inv, WithRoom, Ticked;
      Step();
      ok := ExpandIfNeeded();
      assert old(iterators) > 0 && |t0| > 0 ==> table0[..] == t0;
    }

    method AddReady(key: K, val: V, ghost t0: Table<K, V>, ghost t1: Table<K, V>, ghost quiet: bool) returns (ok: bool)
      requires Valid() && table0.Length > 0 && (quiet ==> Grown(t0, t1, table0[..], table1[..]))
      modifies this`Map, this`used0, this`used1, table0, table1
      ensures Valid() && (ok <==> key !in old(Map)) && Map == if ok then old(Map)[key := val] else old(Map)
      ensures quiet ==> Steady(t0, t1, table0[..], table1[..], hash, {}, if ok then {key} else {})
      ensures Shaped() == if ok then Linked(old(Shaped()), hash, Entry(key, val)) else old(Shaped())
    {
      ghost var t1' := table1[..];
      var found, _, _ := Locate(key);
      if found {
        if quiet { ExpandSteady(t0, t1, t1', hash); }
        return false;
      }
      if quiet {
        assert Holds(t0, t1', hash, Map, key);
        LinkSteady(t0, t1, t1', hash, Entry(key, val));
      }
      hide Inv, Steady, Holds;
      Link(Entry(key, val));
      ok := true;
    }

    /** Link a new entry at the head of its chain in the table that receives new keys. */
    method Link(e: Entry<K, V>)
      requires Valid() && e.key !in Map && table0.Length > 0
      modifies this`Map, this`used0, this`used1, table0, table1
      ensures Valid() && Map == old(Map)[e.key := e.val]
      ensures IsRehashing() ==> table1[..] == Insert(old(table1[..]), hash, e) && table0[..] == old(table0[..])
      ensures !IsRehashing() ==> table0[..] == Insert(old(table0[..]), hash, e) && table1[..] == old(table1[..])
      ensures Shaped() == Linked(old(Shaped()), hash, e)
    {
      LinkKeeps(table0[..], table1[..], used0, used1, rehashidx, hash, Map, e);
      hide Inv;
      if IsRehashing() {
        ghost var t1 := table1[..];
        var i := Home(hash, e.key, table1.Length);
        table1[i] := [e] + table1[i];
        used1 := used1 + 1;
        assert table1[..] == Insert(t1, hash, e);
      } else {
        ghost var t0 := table0[..];
        var i := Home(hash, e.key, table0.Length);
        table0[i] := [e] + table0[i];
        used0 := used0 + 1;
        assert table0[..] == Insert(t0, hash, e);
      }
      Map := Map[e.key := e.val];
    }

    /** Overwrite entry `p` of the chain of its key. */
    method SetVal(table: nat, key: K, p: nat, val: V)
      requires Valid() && key in Map && table <= 1 && (table == 1 ==> IsRehashing())
      requires At(if table == 0 then table0[..] else table1[..], hash, key, p)
      modifies this`Map, table0, table1
      ensures Valid() && Map == old(Map)[key := val]
      ensures Steady(old(table0[..]), old(table1[..]), table0[..], table1[..], hash, {}, {})
      ensures Shaped() == Overwritten(old(Shaped()), hash, key, val)
    {
      OverwrittenIs(table0[..], table1[..], used0, used1, rehashidx, hash, Map, table, key, p, val);
      OverwriteSteady(if table == 0 then table0[..] else table1[..], hash, key, p, val);
      TableSteadySame(if table == 0 then table1[..] else table0[..], hash, {}, {});
      SetKeeps(table0[..], table1[..], used0, used1, rehashidx, hash, Map, table, key, p, val);
      var t: array<Chain<K, V>> := if table == 0 then table0 else table1;
      ghost var before := t[..];
      var i := Home(hash, key, t.Length);
      hide *;
      t[i] := t[i][p := Entry(key, val)];
      assert t[..] == before[i := before[i][p := Entry(key, val)]];
      Map := Map[key := val];
    }

    /** dictReplace: 1 when the key is new, 0 when its value was overwritten. */
    method Replace(key: K, val: V) returns (added: bool)
      requires Valid()
      modifies this, table0, table1
      ensures Valid() && Map == old(Map)[key := val] && iterators == old(iterators)
      ensures added <==> key !in old(Map)
      ensures fresh({table0, table1} - old({table0, table1}))
      ensures old(iterators) > 0 && old(table0.Length) > 0 ==>
        Steady(old(table0[..]), old(table1[..]), table0[..], table1[..], hash, {}, if added then {key} else {})
      ensures var s := WithRoom(Ticked(old(Shaped()), hash, iterators), canResize);
        Shaped() == if added then Linked(s, hash, Entry(key, val)) else Overwritten(Ticked(s, hash, iterators), hash, key, val)
      ensures canResize == old(canResize)
    {
      hide Inv, Steady, Ticked, WithRoom, Linked, Overwritten;
      ghost var quiet := iterators > 0 && table0.Length > 0;
      ghost var t0, t1 := table0[..], table1[..];
      added := Add(key, val);
      if !added {
        ghost var u0, u1 := table0[..], table1[..];
        Step();
        assert quiet ==> table0[..] == u0 && table1[..] == u1;
        var found, table, p := Locate(key);
        SetVal(table, key, p, val);
        if quiet { SteadyTrans(t0, t1, u0, u1, table0[..], table1[..], hash, {}); }
      }
    }

    /** dictGenericDelete */
    method Delete(key: K) returns (ok: bool)
      requires Valid()
      modifies this, table0, table1
      ensures Valid() && Map == old(Map) - {key} && iterators == old(iterators)
      ensures ok <==> key in old(Map)
      ensures fresh({table0, table1} - old({table0, table1}))
      ensures old(iterators) > 0 ==>
        Steady(old(table0[..]), old(table1[..]), table0[..], table1[..], hash, if ok then {key} else {}, {})
      ensures var s := Ticked(old(Shaped()), hash, iterators); Shaped() == if ok then Unlinked(s, hash, key) else s
      ensures canResize == old(canResize)
    {
      hide Inv, Steady, Ticked, Unlinked;
      ghost var quiet, t0, t1 := iterators > 0, table0[..], table1[..];
      SteadySame(t0, t1, hash);
      Step();
      assert quiet ==> table0[..] == t0 && table1[..] == t1;
      var found, table, p := Locate(key);
      ok := found;
      if found {
        UnlinkEntry(table, key, p);
      } else {
        assert Map - {key} == Map;
      }
    }

    method UnlinkEntry(table: nat, key: K, p: nat)
      requires Valid() && key in Map && table <= 1 && (table == 1 ==> IsRehashing())
      requires At(if table == 0 then table0[..] else table1[..], hash, key, p)
      modifies this`Map, this`used0, this`used1, table0, table1
      ensures Valid() && Map == old(Map) - {key}
      ensures Steady(old(table0[..]), old(table1[..]), table0[..], table1[..], hash, {key}, {})
      ensures Shaped() == Unlinked(old(Shaped()), hash, key)
    {
      UnlinkedIs(table0[..], table1[..], used0, used1, rehashidx, hash, Map, table, key, p);
      UnlinkSteady(if table == 0 then table0[..] else table1[..], hash, key, p);
      TableSteadySame(if table == 0 then table1[..] else table0[..], hash, {key}, {});
      UnlinkKeeps(table0[..], table1[..], used0, used1, rehashidx, hash, Map, table, key, p);
      var t: array<Chain<K, V>> := if table == 0 then table0 else table1;
      ghost var before := t[..];
      var i := Home(hash, key, t.Length);
      hide *;
      t[i] := t[i][..p] + t[i][p + 1..];
      assert t[..] == before[i := before[i][..p] + before[i][p + 1..]];
      if table == 0 { used0 := used0 - 1; } else { used1 := used1 - 1; }
      Map := Map - {key};
    }

    /** dictResize: the smallest table that holds everything. */
    method Resize() returns (ok: bool)
      requires Valid()
      modifies this
      ensures Valid() && Map == old(Map) && iterators == old(iterators)
      ensures ok <==> old(canResize && !IsRehashing())
      ensures Shaped() == if ok then Expanded(old(Shaped()), if old(used0) < INITIAL then INITIAL else old(used0)) else old(Shaped())
      ensures canResize == old(canResize)
    {
      if !canResize || IsRehashing() { return false; }
      var minimal := if used0 < DICT_HT_INITIAL_SIZE then DICT_HT_INITIAL_SIZE else used0;
      ok := Expand(minimal);
    }

    /** Looking keys up, whichever they are, is enough to end a migration. */
    method FindAll(keys: seq<K>) returns (found: seq<Option<V>>)
      requires Valid()
      modifies this, table0, table1
      ensures Valid() && Map == old(Map) && iterators == old(iterators)
      ensures |found| == |keys| && forall j :: 0 <= j < |keys| ==> found[j] == if keys[j] in Map then Some(Map[keys[j]]) else None
      ensures iterators == 0 ==> Shaped() == MovedBy(old(Shaped()), hash, |keys|)
      ensures iterators == 0 && |keys| > old(table0.Length) ==> !IsRehashing()
    {
      found := [];
      var j := 0;
      ghost var s := Shaped();
      if IsRehashing() { InMigration(); }
      hide Inv, Moved;
      while j < |keys|
        invariant 0 <= j == |found| <= |keys| && Valid() && Map == old(Map) && iterators == old(iterators)
        invariant forall i :: 0 <= i < j ==> found[i] == if keys[i] in Map then Some(Map[keys[i]]) else None
        invariant iterators == 0 ==> Shaped() == MovedBy(s, hash, j)
        invariant fresh({table0, table1} - old({table0, table1}))
      {
        MovedBySnoc(s, hash, j);
        var r := DictFind(keys[j]);
        found := found + [r];
        j := j + 1;
      }
      if s.idx != -1 && |keys| > |s.t0| { MovedByEnds(s, hash, |keys|); }
    }
  }

  lemma UnlinkedIs<K(!new), V>(t0: Table<K, V>, t1: Table<K, V>, used0: nat, used1: nat, rehashidx: int,
                               hash: K -> nat, m: map<K, V>, table: nat, key: K, p: nat)
    requires Inv(t0, t1, used0, used1, rehashidx, hash, m) && key in m
    requires At(if table == 0 then t0 else t1, hash, key, p)
    ensures var t := if table == 0 then t0 else t1;
      var i := Home(hash, key, |t|);
      var t' := t[i := t[i][..p] + t[i][p + 1..]];
      Unlinked(Shape(t0, t1, rehashidx), hash, key) == if table == 0 then Shape(t', t1, rehashidx) else Shape(t0, t', rehashidx)
  {
    var t, u := if table == 0 then t0 else t1, if table == 0 then t1 else t0;
    var i := Home(hash, key, |t|);
    FindInAt(t[i], p);
    assert Holds(t0, t1, hash, m, key);
    WithoutKeyIs(t[i], key, p);
    if |u| > 0 {
      WithoutKeyIs(u[Home(hash, key, |u|)], key, 0);
      assert u[Home(hash, key, |u|) := u[Home(hash, key, |u|)]] == u;
    }
  }

  lemma OverwrittenIs<K(!new), V>(t0: Table<K, V>, t1: Table<K, V>, used0: nat, used1: nat, rehashidx: int,
                                  hash: K -> nat, m: map<K, V>, table: nat, key: K, p: nat, val: V)
    requires Inv(t0, t1, used0, used1, rehashidx, hash, m) && key in m
    requires At(if table == 0 then t0 else t1, hash, key, p)
    ensures var t := if table == 0 then t0 else t1;
      var i := Home(hash, key, |t|);
      var t' := t[i := t[i][p := Entry(key, val)]];
      Overwritten(Shape(t0, t1, rehashidx), hash, key, val) == if table == 0 then Shape(t', t1, rehashidx) else Shape(t0, t', rehashidx)
  {
    var t, u := if table == 0 then t0 else t1, if table == 0 then t1 else t0;
    var i := Home(hash, key, |t|);
    FindInAt(t[i], p);
    assert Holds(t0, t1, hash, m, key);
    WithValIs(t[i], key, val, p);
    if |u| > 0 {
      WithValIs(u[Home(hash, key, |u|)], key, val, 0);
      assert u[Home(hash, key, |u|) := u[Home(hash, key, |u|)]] == u;
    }
  }

  lemma LinkKeeps<K(!new), V>(t0: Table<K, V>, t1: Table<K, V>, used0: nat, used1: nat, rehashidx: int,
                              hash: K -> nat, m: map<K, V>, e: Entry<K, V>)
    requires Inv(t0, t1, used0, used1, rehashidx, hash, m) && e.key !in m && |t0| > 0
    ensures rehashidx != -1 ==> |t1| > 0 && Inv(t0, Insert(t1, hash, e), used0, used1 + 1, rehashidx, hash, m[e.key := e.val])
    ensures rehashidx == -1 ==> Inv(Insert(t0, hash, e), t1, used0 + 1, used1, rehashidx, hash, m[e.key := e.val])
  {
    assert Holds(t0, t1, hash, m, e.key);
    if rehashidx != -1 {
      InsertKeeps(t1, hash, e);
      RepresentsUpdate(t0, t1, t0, Insert(t1, hash, e), hash, m, e.key, Some(e.val));
    } else {
      InsertKeeps(t0, hash, e);
      RepresentsUpdate(t0, t1, Insert(t0, hash, e), t1, hash, m, e.key, Some(e.val));
    }
  }

  lemma SetKeeps<K(!new), V>(t0: Table<K, V>, t1: Table<K, V>, used0: nat, used1: nat, rehashidx: int,
                             hash: K -> nat, m: map<K, V>, table: nat, key: K, p: nat, val: V)
    requires Inv(t0, t1, used0, used1, rehashidx, hash, m) && key in m
    requires At(if table == 0 then t0 else t1, hash, key, p)
    ensures var t := if table == 0 then t0 else t1;
      var i := Home(hash, key, |t|);
      var t' := t[i := t[i][p := Entry(key, val)]];
      Inv(if table == 0 then t' else t0, if table == 0 then t1 else t', used0, used1, rehashidx, hash, m[key := val])
  {
    var t := if table == 0 then t0 else t1;
    var i := Home(hash, key, |t|);
    var c := t[i][p := Entry(key, val)];
    var t' := t[i := c];
    WriteBucket(t, hash, i, c, key, Some(val)) by {
      forall k { Overwrite(t[i], p, val, k); }
      Overwrite(t[i], p, val, key);
    }
    FindInAt(t[i], p);
    assert Holds(t0, t1, hash, m, key);
    if table == 0 {
      RepresentsUpdate(t0, t1, t', t1, hash, m, key, Some(val));
    } else {
      RepresentsUpdate(t0, t1, t0, t', hash, m, key, Some(val));
    }
  }

  lemma UnlinkKeeps<K(!new), V>(t0: Table<K, V>, t1: Table<K, V>, used0: nat, used1: nat, rehashidx: int,
                                hash: K -> nat, m: map<K, V>, table: nat, key: K, p: nat)
    requires Inv(t0, t1, used0, used1, rehashidx, hash, m) && key in m
    requires At(if table == 0 then t0 else t1, hash, key, p)
    ensures (if table == 0 then used0 else used1) > 0
    ensures var t := if table == 0 then t0 else t1;
      var i := Home(hash, key, |t|);
      var t' := t[i := t[i][..p] + t[i][p + 1..]];
      if table == 0 then Inv(t', t1, used0 - 1, used1, rehashidx, hash, m - {key})
      else Inv(t0, t', used0, used1 - 1, rehashidx, hash, m - {key})
  {
    var t := if table == 0 then t0 else t1;
    var i := Home(hash, key, |t|);
    var c := t[i][..p] + t[i][p + 1..];
    var t' := t[i := c];
    WriteBucket(t, hash, i, c, key, None) by {
      forall k { Unlink(t[i], p, k); }
      Unlink(t[i], p, key);
    }
    FindInAt(t[i], p);
    assert Holds(t0, t1, hash, m, key);
    if table == 0 {
      RepresentsUpdate(t0, t1, t', t1, hash, m, key, None);
    } else {
      RepresentsUpdate(t0, t1, t0, t', hash, m, key, None);
    }
  }

  /** A bucket rewritten so that only the key `key`, at home there, changes. */
  lemma WriteBucket<K(!new), V>(t: Table<K, V>, hash: K -> nat, i: nat, c: Chain<K, V>, key: K, v: Option<V>)
    requires Homed(t, hash) && i < |t| && Home(hash, key, |t|) == i && NoDup(c)
    requires forall k :: FindIn(c, k) == if k == key then v else FindIn(t[i], k)
    requires forall p :: 0 <= p < |c| ==> Home(hash, c[p].key, |t|) == i
    ensures Homed(t[i := c], hash) && Total(t[i := c]) == Total(t) - |t[i]| + |c| && Total(t) >= |t[i]|
    ensures forall k :: Find(t[i := c], hash, k) == if k == key then v else Find(t, hash, k)
  {
    TotalUpdate(t, i, c);
    var t' := t[i := c];
    forall j | 0 <= j < |t'|
      ensures NoDup(t'[j]) && forall p :: 0 <= p < |t'[j]| ==> Home(hash, t'[j][p].key, |t'|) == j
    {
      if j != i { assert t'[j] == t[j]; }
    }
    forall k ensures Find(t', hash, k) == if k == key then v else Find(t, hash, k) {
      FindElsewhere(t, hash, i, c, k);
    }
  }

  /** Keys are unique across both tables. */
  lemma KeysUnique<K(!new), V>(t0: Table<K, V>, t1: Table<K, V>, used0: nat, used1: nat, rehashidx: int, hash: K -> nat, m: map<K, V>,
                               x: nat, i: nat, p: nat, y: nat, j: nat, q: nat)
    requires Inv(t0, t1, used0, used1, rehashidx, hash, m) && x <= 1 && y <= 1
    requires var t := if x == 0 then t0 else t1; i < |t| && p < |t[i]|
    requires var u := if y == 0 then t0 else t1; j < |u| && q < |u[j]|
    requires (if x == 0 then t0 else t1)[i][p].key == (if y == 0 then t0 else t1)[j][q].key
    ensures x == y && i == j && p == q
  {
    var t: Table<K, V>, u: Table<K, V> := if x == 0 then t0 else t1, if y == 0 then t0 else t1;
    var k := t[i][p].key;
    assert Home(hash, t[i][p].key, |t|) == i && Home(hash, u[j][q].key, |u|) == j;
    FindInAt(t[i], p);
    FindInAt(u[j], q);
    assert Holds(t0, t1, hash, m, k);
    NoDupPairs(t[i]);
  }

  /** The `used` counters together count the keys of the map: dictSize. */
  lemma {:induction false} SizeExact<K(!new), V>(t0: Table<K, V>, t1: Table<K, V>, used0: nat, used1: nat, rehashidx: int,
                                                 hash: K -> nat, m: map<K, V>)
    requires Inv(t0, t1, used0, used1, rehashidx, hash, m)
    ensures |m| == used0 + used1
    decreases used0 + used1
  {
    TotalZero(t0);
    TotalZero(t1);
    if used0 + used1 == 0 {
      forall k ensures k !in m {
        assert Holds(t0, t1, hash, m, k);
      }
      assert m == map[];
    } else {
      var table := if used0 > 0 then 0 else 1;
      var t: Table<K, V> := if table == 0 then t0 else t1;
      var i :| 0 <= i < |t| && t[i] != [];
      var key := t[i][0].key;
      HeadInMap(t0, t1, used0, used1, rehashidx, hash, m, table, i);
      hide Inv, Holds;
      UnlinkKeeps(t0, t1, used0, used1, rehashidx, hash, m, table, key, 0);
      var t' := t[i := t[i][..0] + t[i][1..]];
      OneFewer(m, key);
      if table == 0 {
        SizeExact(t', t1, used0 - 1, used1, rehashidx, hash, m - {key});
      } else {
        SizeExact(t0, t', used0, used1 - 1, rehashidx, hash, m - {key});
      }
    }
  }

  lemma OneFewer<K, V>(m: map<K, V>, key: K)
    requires key in m
    ensures |m - {key}| == |m| - 1
  {
    assert m.Keys == (m - {key}).Keys + {key};
  }

  /** The first entry of a chain is where its key is looked for, and in the map. */
  lemma HeadInMap<K(!new), V>(t0: Table<K, V>, t1: Table<K, V>, used0: nat, used1: nat, rehashidx: int,
                              hash: K -> nat, m: map<K, V>, table: nat, i: nat)
    requires Inv(t0, t1, used0, used1, rehashidx, hash, m) && table <= 1
    requires var t := if table == 0 then t0 else t1; i < |t| && t[i] != []
    ensures var t: Table<K, V> := if table == 0 then t0 else t1;
      t[i][0].key in m && Home(hash, t[i][0].key, |t|) == i && At(t, hash, t[i][0].key, 0)
    ensures rehashidx == -1 ==> |t1| == 0
  {
    var t: Table<K, V> := if table == 0 then t0 else t1;
    assert Home(hash, t[i][0].key, |t|) == i;
    FindInAt(t[i], 0);
    assert Holds(t0, t1, hash, m, t[i][0].key);
  }

  lemma MovingDone<K(!new), V>(t0: Table<K, V>, t1: Table<K, V>, used0: nat, used1: nat, i: nat, hash: K -> nat, m: map<K, V>)
    requires Moving(t0, t1, used0, used1, i, [], hash, m)
    ensures Inv(t0[i := []], t1, used0, used1, i + 1, hash, m)
  {}
}
