/** pqsort.c: quicksort of only the part of an array that a window needs. */
module Pqsort {

  /** A C comparison function that orders its arguments by some total preorder. */
  ghost predicate Preorder<T(!new)>(cmp: (T, T) -> int) {
    && (forall x, y :: cmp(x, y) < 0 <==> cmp(y, x) > 0)
    && (forall x, y, z :: cmp(x, y) <= 0 && cmp(y, z) <= 0 ==> cmp(x, z) <= 0)
  }

  /** `t` is `s` with the elements at [lo, hi) permuted. */
  ghost predicate Rearranged<T>(s: seq<T>, t: seq<T>, lo: nat, hi: nat) {
    && lo <= hi <= |s| == |t|
    && s[..lo] == t[..lo] && s[hi..] == t[hi..]
    && multiset(s[lo..hi]) == multiset(t[lo..hi])
  }

  /** Nothing greater before `i` and nothing smaller after it, within [lo, hi). */
  ghost predicate Placed<T>(s: seq<T>, cmp: (T, T) -> int, lo: nat, hi: nat, i: nat) {
    && lo <= i < hi <= |s|
    && (forall j :: lo <= j < i ==> cmp(s[j], s[i]) <= 0)
    && (forall j :: i < j < hi ==> cmp(s[i], s[j]) <= 0)
  }

  ghost predicate WindowPlaced<T>(s: seq<T>, cmp: (T, T) -> int, lo: nat, hi: nat, l: nat, r: nat) {
    hi <= |s| && forall i :: lo <= i < hi && l <= i <= r ==> Placed(s, cmp, lo, hi, i)
  }

  ghost predicate Sorted<T>(s: seq<T>, cmp: (T, T) -> int, lo: nat, hi: nat) {
    hi <= |s| && forall i, j :: lo <= i < j < hi ==> cmp(s[i], s[j]) <= 0
  }

  // ---- rearrangements

  lemma RearrangedWiden<T>(s: seq<T>, t: seq<T>, lo: nat, hi: nat, lo': nat, hi': nat)
    requires Rearranged(s, t, lo, hi) && lo' <= lo && hi <= hi' <= |s|
    ensures Rearranged(s, t, lo', hi')
  {
    assert s[..lo'] == s[..lo][..lo'] && s[hi'..] == s[hi..][hi' - hi..];
    assert s[lo'..lo] == s[..lo][lo'..] && s[hi..hi'] == s[hi..][..hi' - hi];
    assert t[lo'..lo] == t[..lo][lo'..] && t[hi..hi'] == t[hi..][..hi' - hi];
    assert s[lo'..hi'] == s[lo'..lo] + s[lo..hi] + s[hi..hi'];
    assert t[lo'..hi'] == t[lo'..lo] + t[lo..hi] + t[hi..hi'];
  }

  lemma RearrangedTrans<T>(s: seq<T>, t: seq<T>, u: seq<T>, lo: nat, hi: nat)
    requires Rearranged(s, t, lo, hi) && Rearranged(t, u, lo, hi)
    ensures Rearranged(s, u, lo, hi)
  {}

  function Swapped<T>(s: seq<T>, i: nat, j: nat): seq<T>
    requires i < |s| && j < |s|
  {
    s[i := s[j]][j := s[i]]
  }

  lemma SwapRearranges<T>(s: seq<T>, t: seq<T>, i: nat, j: nat, lo: nat, hi: nat)
    requires lo <= i <= j < hi <= |s| && t == Swapped(s, i, j)
    ensures Rearranged(s, t, lo, hi)
  {
    if i < j {
      assert s[i..j + 1] == [s[i]] + s[i + 1..j] + [s[j]];
      assert t[i..j + 1] == [s[j]] + s[i + 1..j] + [s[i]];
      SameThree(s[i], s[i + 1..j], s[j]);
    } else {
      assert t == s;
    }
    assert s[..i] == t[..i] && s[j + 1..] == t[j + 1..];
    assert Rearranged(s, t, i, j + 1);
    hide *;
    RearrangedWiden(s, t, i, j + 1, lo, hi);
  }

  lemma SameThree<T>(x: T, m: seq<T>, y: T)
    ensures multiset([x] + m + [y]) == multiset([y] + m + [x])
  {}

  /** Every element of the rearranged part was somewhere in that part before. */
  lemma RearrangedFrom<T>(s: seq<T>, t: seq<T>, lo: nat, hi: nat, k: nat) returns (k': nat)
    requires Rearranged(s, t, lo, hi) && lo <= k < hi
    ensures lo <= k' < hi && s[k'] == t[k]
  {
    assert t[lo..hi][k - lo] in multiset(t[lo..hi]);
    var d :| 0 <= d < |s[lo..hi]| && s[lo..hi][d] == t[k];
    k' := lo + d;
  }

  method Swap<T(!new)>(a: array<T>, i: nat, j: nat, ghost lo: nat, ghost hi: nat)
    requires lo <= i < hi <= a.Length && lo <= j < hi
    modifies a
    ensures a[..] == Swapped(old(a[..]), i, j)
    ensures Rearranged(old(a[..]), a[..], lo, hi)
  {
    ghost var s := a[..];
    a[i], a[j] := a[j], a[i];
    if i <= j {
      SwapRearranges(s, a[..], i, j, lo, hi);
    } else {
      assert a[..] == Swapped(s, j, i);
      SwapRearranges(s, a[..], j, i, lo, hi);
    }
  }

  /** swapfunc on `n` elements: the blocks at `i` and `j` change places. */
  method VecSwap<T(!new)>(a: array<T>, i: nat, j: nat, n: nat, ghost lo: nat, ghost hi: nat)
    requires lo <= i && i + n <= j && j + n <= hi <= a.Length
    modifies a
    ensures Exchanged(old(a[..]), a[..], i, j, n)
    ensures Rearranged(old(a[..]), a[..], lo, hi)
  {
    hide *;
    var m := 0;
    ghost var s0 := a[..];
    RearrangedSame(s0, lo, hi);
    NoneExchanged(s0, i, j);
    while m < n
      invariant 0 <= m <= n && Exchanged(s0, a[..], i, j, m) && Rearranged(s0, a[..], lo, hi)
    {
      ghost var s := a[..];
      OneMore(s0, s, i, j, m);
      Swap(a, i + m, j + m, lo, hi);
      RearrangedTrans(s0, s, a[..], lo, hi);
      m := m + 1;
    }
  }

  lemma NoneExchanged<T>(s: seq<T>, i: nat, j: nat)
    requires i <= j <= |s|
    ensures Exchanged(s, s, i, j, 0)
  {}

  lemma OneMore<T>(s: seq<T>, t: seq<T>, i: nat, j: nat, m: nat)
    requires Exchanged(s, t, i, j, m) && i + m < j && j + m < |s|
    ensures Exchanged(s, Swapped(t, i + m, j + m), i, j, m + 1)
  {}

  /** Sorted on [lo, hi) but for the element at `hole`, which nothing after it precedes. */
  ghost predicate SortedBut<T>(s: seq<T>, cmp: (T, T) -> int, lo: nat, hi: nat, hole: nat) {
    hi <= |s| && forall i, j :: lo <= i < j < hi && j != hole ==> cmp(s[i], s[j]) <= 0
  }

  lemma HoleOpens<T(!new)>(s: seq<T>, cmp: (T, T) -> int, lo: nat, pm: nat)
    requires pm < |s| && Sorted(s, cmp, lo, pm)
    ensures SortedBut(s, cmp, lo, pm + 1, pm)
  {}

  lemma HoleMoves<T(!new)>(s: seq<T>, cmp: (T, T) -> int, lo: nat, hi: nat, hole: nat)
    requires Preorder(cmp) && lo < hole < hi && SortedBut(s, cmp, lo, hi, hole)
    requires cmp(s[hole - 1], s[hole]) > 0
    ensures SortedBut(Swapped(s, hole, hole - 1), cmp, lo, hi, hole - 1)
  {}

  lemma HoleCloses<T(!new)>(s: seq<T>, cmp: (T, T) -> int, lo: nat, hi: nat, hole: nat)
    requires Preorder(cmp) && lo <= hole < hi && SortedBut(s, cmp, lo, hi, hole)
    requires hole == lo || cmp(s[hole - 1], s[hole]) <= 0
    ensures Sorted(s, cmp, lo, hi)
  {}

  /** The inner loop: sink the element at `pm` into the sorted prefix. */
  method Sink<T(!new)>(a: array<T>, lo: nat, pm: nat, hi: nat, cmp: (T, T) -> int)
    requires lo <= pm < hi <= a.Length
    modifies a
    ensures Rearranged(old(a[..]), a[..], lo, hi)
    ensures Preorder(cmp) && old(Sorted(a[..], cmp, lo, pm)) ==> Sorted(a[..], cmp, lo, pm + 1)
  {
    hide *;
    ghost var before, ordered := a[..], Preorder(cmp) && Sorted(a[..], cmp, lo, pm);
    RearrangedSame(before, lo, hi);
    if ordered { HoleOpens(before, cmp, lo, pm); }
    var pl := pm;
    while pl > lo && cmp(a[pl - 1], a[pl]) > 0
      invariant lo <= pl <= pm && |before| == a.Length
      invariant ordered ==> Preorder(cmp) && SortedBut(a[..], cmp, lo, pm + 1, pl)
      invariant Rearranged(before, a[..], lo, hi)
    {
      ghost var s := a[..];
      assert s[pl - 1] == a[pl - 1] && s[pl] == a[pl];
      if ordered { HoleMoves(s, cmp, lo, pm + 1, pl); }
      Swap(a, pl, pl - 1, lo, hi);
      RearrangedTrans(before, s, a[..], lo, hi);
      pl := pl - 1;
    }
    if ordered { HoleCloses(a[..], cmp, lo, pm + 1, pl); }
  }

  method InsertionSort<T(!new)>(a: array<T>, lo: nat, hi: nat, cmp: (T, T) -> int)
    requires lo <= hi <= a.Length
    modifies a
    ensures Rearranged(old(a[..]), a[..], lo, hi)
    ensures Preorder(cmp) ==> Sorted(a[..], cmp, lo, hi)
  {
    var pm := lo + 1;
    while pm < hi
      invariant lo < pm && (pm <= hi || pm == lo + 1)
      invariant Rearranged(old(a[..]), a[..], lo, hi)
      invariant Preorder(cmp) && pm <= hi ==> Sorted(a[..], cmp, lo, pm)
    {
      Sink(a, lo, pm, hi, cmp);
      pm := pm + 1;
    }
  }

  ghost predicate TwoOf(x: bool, y: bool, z: bool) { (x && y) || (x && z) || (y && z) }

  /** The index, among three, of a median element. */
  function Med3<T(!new)>(s: array<T>, a: nat, b: nat, c: nat, cmp: (T, T) -> int): (m: nat)
    requires a < s.Length && b < s.Length && c < s.Length
    reads s
    ensures m == a || m == b || m == c
    ensures Preorder(cmp) ==>
      && TwoOf(cmp(s[a], s[m]) <= 0, cmp(s[b], s[m]) <= 0, cmp(s[c], s[m]) <= 0)
      && TwoOf(cmp(s[a], s[m]) >= 0, cmp(s[b], s[m]) >= 0, cmp(s[c], s[m]) >= 0)
  {
    if cmp(s[a], s[b]) < 0 then
      (if cmp(s[b], s[c]) < 0 then b else if cmp(s[a], s[c]) < 0 then c else a)
    else
      (if cmp(s[b], s[c]) > 0 then b else if cmp(s[a], s[c]) < 0 then a else c)
  }

  /** The four zones of the partition: [lo, pa) and (pd, hi) equal the pivot `p` (or are
      it), [pa, pb) are smaller and (pc, pd] are greater. */
  ghost predicate Zones<T>(s: seq<T>, cmp: (T, T) -> int, p: T, lo: nat, hi: nat,
                           pa: nat, pb: nat, pc: nat, pd: nat) {
    && lo < pa <= pb <= pc + 1 <= pd + 1 <= hi <= |s| && s[lo] == p
    && (forall k :: lo <= k < pa ==> s[k] == p || cmp(s[k], p) == 0)
    && (forall k :: pa <= k < pb ==> cmp(s[k], p) < 0)
    && (forall k :: pc < k <= pd ==> cmp(s[k], p) > 0)
    && (forall k :: pd < k < hi ==> s[k] == p || cmp(s[k], p) == 0)
  }

  /** The element at `pb` equals the pivot: it joins the left zone of equals. */
  lemma LeftEqual<T>(s: seq<T>, cmp: (T, T) -> int, p: T, lo: nat, hi: nat, pa: nat, pb: nat, pc: nat, pd: nat)
    requires Zones(s, cmp, p, lo, hi, pa, pb, pc, pd) && pb <= pc && cmp(s[pb], p) == 0
    ensures Zones(Swapped(s, pa, pb), cmp, p, lo, hi, pa + 1, pb + 1, pc, pd) && Swapped(s, pa, pb)[lo] == p
  {}

  lemma LeftLess<T>(s: seq<T>, cmp: (T, T) -> int, p: T, lo: nat, hi: nat, pa: nat, pb: nat, pc: nat, pd: nat)
    requires Zones(s, cmp, p, lo, hi, pa, pb, pc, pd) && pb <= pc && cmp(s[pb], p) < 0
    ensures Zones(s, cmp, p, lo, hi, pa, pb + 1, pc, pd)
  {}

  lemma RightEqual<T>(s: seq<T>, cmp: (T, T) -> int, p: T, lo: nat, hi: nat, pa: nat, pb: nat, pc: nat, pd: nat)
    requires Zones(s, cmp, p, lo, hi, pa, pb, pc, pd) && pb < pc && cmp(s[pc], p) == 0
    ensures Zones(Swapped(s, pc, pd), cmp, p, lo, hi, pa, pb, pc - 1, pd - 1)
    ensures Swapped(s, pc, pd)[lo] == p && Swapped(s, pc, pd)[pb] == s[pb]
  {}

  lemma RightGreater<T>(s: seq<T>, cmp: (T, T) -> int, p: T, lo: nat, hi: nat, pa: nat, pb: nat, pc: nat, pd: nat)
    requires Zones(s, cmp, p, lo, hi, pa, pb, pc, pd) && pb <= pc && cmp(s[pc], p) > 0
    ensures Zones(s, cmp, p, lo, hi, pa, pb, pc - 1, pd)
  {}

  lemma BothMoved<T>(s: seq<T>, cmp: (T, T) -> int, p: T, lo: nat, hi: nat, pa: nat, pb: nat, pc: nat, pd: nat)
    requires Zones(s, cmp, p, lo, hi, pa, pb, pc, pd) && pb < pc && cmp(s[pb], p) > 0 && cmp(s[pc], p) < 0
    ensures Zones(Swapped(s, pb, pc), cmp, p, lo, hi, pa, pb + 1, pc - 1, pd) && Swapped(s, pb, pc)[lo] == p
  {}

  lemma ZoneBounds<T>(s: seq<T>, cmp: (T, T) -> int, p: T, lo: nat, hi: nat, pa: nat, pb: nat, pc: nat, pd: nat)
    requires Zones(s, cmp, p, lo, hi, pa, pb, pc, pd)
    ensures lo < pa <= pb <= pc + 1 <= pd + 1 <= hi <= |s| && s[lo] == p
  {}

  lemma RearrangedSame<T>(s: seq<T>, lo: nat, hi: nat)
    requires lo <= hi <= |s|
    ensures Rearranged(s, s, lo, hi)
  {}

  method ScanLeft<T(!new)>(a: array<T>, cmp: (T, T) -> int, lo: nat, ghost hi: nat,
                     pa0: nat, pb0: nat, pc: nat, ghost pd: nat)
    returns (pa: nat, pb: nat, swapped: bool)
    requires lo < hi <= a.Length && Zones(a[..], cmp, a[lo], lo, hi, pa0, pb0, pc, pd)
    modifies a
    ensures a[lo] == old(a[lo]) && Zones(a[..], cmp, a[lo], lo, hi, pa, pb, pc, pd)
    ensures Rearranged(old(a[..]), a[..], lo, hi)
    ensures pb0 <= pb <= pc + 1 <= hi && (pb <= pc ==> cmp(a[pb], a[lo]) > 0)
    ensures !swapped ==> pa == pa0
  {
    pa, pb, swapped := pa0, pb0, false;
    ghost var s0, p := a[..], a[lo];
    ZoneBounds(s0, cmp, p, lo, hi, pa, pb, pc, pd);
    RearrangedSame(s0, lo, hi);
    hide Zones, Rearranged, Swapped;
    while pb <= pc && cmp(a[pb], a[lo]) <= 0
      invariant lo < pa <= pb <= pc + 1 <= hi && pb0 <= pb && a[lo] == p
      invariant Zones(a[..], cmp, p, lo, hi, pa, pb, pc, pd) && Rearranged(s0, a[..], lo, hi)
      invariant !swapped ==> pa == pa0
      decreases pc + 1 - pb
    {
      ghost var s := a[..];
      if cmp(a[pb], a[lo]) == 0 {
        swapped := true;
        LeftEqual(s, cmp, p, lo, hi, pa, pb, pc, pd);
        Swap(a, pa, pb, lo, hi);
        assert a[lo] == a[..][lo];
        RearrangedTrans(s0, s, a[..], lo, hi);
        pa := pa + 1;
      } else {
        LeftLess(s, cmp, p, lo, hi, pa, pb, pc, pd);
      }
      pb := pb + 1;
    }
  }

  method ScanRight<T(!new)>(a: array<T>, cmp: (T, T) -> int, lo: nat, ghost hi: nat,
                      ghost pa: nat, pb: nat, pc0: nat, pd0: nat)
    returns (pc: nat, pd: nat, swapped: bool)
    requires lo < hi <= a.Length && Zones(a[..], cmp, a[lo], lo, hi, pa, pb, pc0, pd0)
    requires pb <= pc0 < hi ==> cmp(a[pb], a[lo]) > 0
    modifies a
    ensures a[lo] == old(a[lo]) && Zones(a[..], cmp, a[lo], lo, hi, pa, pb, pc, pd)
    ensures Rearranged(old(a[..]), a[..], lo, hi)
    ensures pb <= pc + 1 && pc <= pc0 && pc < hi && (pb <= pc ==> pb < pc && cmp(a[pb], a[lo]) > 0 && cmp(a[pc], a[lo]) < 0)
    ensures !swapped ==> pd == pd0
  {
    pc, pd, swapped := pc0, pd0, false;
    ghost var s0, p := a[..], a[lo];
    ZoneBounds(s0, cmp, p, lo, hi, pa, pb, pc, pd);
    RearrangedSame(s0, lo, hi);
    hide Zones, Rearranged, Swapped;
    while pb <= pc && cmp(a[pc], a[lo]) >= 0
      invariant lo < pb <= pc + 1 && pc <= pc0 && pc <= pd < hi && a[lo] == p
      invariant Zones(a[..], cmp, p, lo, hi, pa, pb, pc, pd) && Rearranged(s0, a[..], lo, hi)
      invariant pb <= pc ==> cmp(a[pb], p) > 0
      invariant !swapped ==> pd == pd0
      decreases pc + 1 - pb
    {
      ghost var s := a[..];
      if cmp(a[pc], a[lo]) == 0 {
        swapped := true;
        RightEqual(s, cmp, p, lo, hi, pa, pb, pc, pd);
        Swap(a, pc, pd, lo, hi);
        assert a[lo] == a[..][lo] && a[pb] == a[..][pb];
        RearrangedTrans(s0, s, a[..], lo, hi);
        pd := pd - 1;
      } else {
        RightGreater(s, cmp, p, lo, hi, pa, pb, pc, pd);
      }
      pc := pc - 1;
    }
  }

  method Partition<T(!new)>(a: array<T>, cmp: (T, T) -> int, lo: nat, hi: nat)
    returns (pa: nat, pb: nat, pc: nat, pd: nat, swapped: bool)
    requires lo + 1 < hi <= a.Length
    modifies a
    ensures Rearranged(old(a[..]), a[..], lo, hi)
    ensures pb == pc + 1 && Zones(a[..], cmp, a[lo], lo, hi, pa, pb, pc, pd)
  {
    pa, pb, pc, pd, swapped := lo + 1, lo + 1, hi - 1, hi - 1, false;
    ghost var s0, p := a[..], a[lo];
    RearrangedSame(s0, lo, hi);
    assert Zones(s0, cmp, p, lo, hi, pa, pb, pc, pd);
    hide Zones, Rearranged, Swapped;
    while true
      invariant a[lo] == p && pb <= pc + 1 && pc < hi
      invariant Zones(a[..], cmp, p, lo, hi, pa, pb, pc, pd) && Rearranged(s0, a[..], lo, hi)
      decreases pc + 1 - pb
    {
      ghost var s := a[..];
      var moved;
      pa, pb, pc, pd, moved := ScanBoth(a, cmp, lo, hi, pa, pb, pc, pd);
      RearrangedTrans(s0, s, a[..], lo, hi);
      swapped := swapped || moved;
      if pb > pc { break; }
      s := a[..];
      ZoneBounds(s, cmp, p, lo, hi, pa, pb, pc, pd);
      BothMoved(s, cmp, p, lo, hi, pa, pb, pc, pd);
      Swap(a, pb, pc, lo, hi);
      assert a[lo] == a[..][lo];
      RearrangedTrans(s0, s, a[..], lo, hi);
      swapped := true;
      pb, pc := pb + 1, pc - 1;
    }
  }

  method ScanBoth<T(!new)>(a: array<T>, cmp: (T, T) -> int, lo: nat, ghost hi: nat, pa0: nat, pb0: nat, pc0: nat, pd0: nat)
    returns (pa: nat, pb: nat, pc: nat, pd: nat, swapped: bool)
    requires lo < hi <= a.Length && Zones(a[..], cmp, a[lo], lo, hi, pa0, pb0, pc0, pd0)
    modifies a
    ensures a[lo] == old(a[lo]) && Zones(a[..], cmp, a[lo], lo, hi, pa, pb, pc, pd)
    ensures Rearranged(old(a[..]), a[..], lo, hi)
    ensures pb0 <= pb <= pc + 1 && pc <= pc0 && pc < hi && (pb <= pc ==> pb < pc && cmp(a[pb], a[lo]) > 0 && cmp(a[pc], a[lo]) < 0)
  {
    hide *;
    var more;
    pa, pb, swapped := ScanLeft(a, cmp, lo, hi, pa0, pb0, pc0, pd0);
    ghost var s := a[..];
    pc, pd, more := ScanRight(a, cmp, lo, hi, pa, pb, pc0, pd0);
    swapped := swapped || more;
    RearrangedTrans(old(a[..]), s, a[..], lo, hi);
  }

  // ---- one round: pivot, partition, and the equal elements moved to the middle

  /** [lo, lo + nl) is below the pivot `p`, the last `nr` of [lo, hi) above it, the rest equal. */
  ghost predicate Split<T>(s: seq<T>, cmp: (T, T) -> int, p: T, lo: nat, hi: nat, nl: nat, nr: nat) {
    && lo + nl + nr < hi <= |s|
    && (forall k :: lo <= k < lo + nl ==> cmp(s[k], p) < 0)
    && (forall k :: lo + nl <= k < hi - nr ==> s[k] == p || cmp(s[k], p) == 0)
    && (forall k :: hi - nr <= k < hi ==> cmp(s[k], p) > 0)
  }

  ghost predicate SplitBySome<T(!new)>(s: seq<T>, cmp: (T, T) -> int, lo: nat, hi: nat, nl: nat, nr: nat) {
    exists p :: Split(s, cmp, p, lo, hi, nl, nr)
  }

  lemma SplitFacts<T(!new)>(s: seq<T>, cmp: (T, T) -> int, p: T, lo: nat, hi: nat, nl: nat, nr: nat)
    requires Split(s, cmp, p, lo, hi, nl, nr)
    ensures SplitBySome(s, cmp, lo, hi, nl, nr) && lo + nl + nr < hi
  {}

  method ChoosePivot<T(!new)>(a: array<T>, lo: nat, hi: nat, cmp: (T, T) -> int) returns (pm: nat)
    requires lo + 7 <= hi <= a.Length
    ensures lo <= pm < hi
  {
    var n := hi - lo;
    pm := lo + n / 2;
    if n > 7 {
      var pl, pn := lo, hi - 1;
      if n > 40 {
        var d := n / 8;
        pl := Med3(a, pl, pl + d, pl + 2 * d, cmp);
        pm := Med3(a, pm - d, pm, pm + d, cmp);
        pn := Med3(a, pn - 2 * d, pn - d, pn, cmp);
      }
      pm := Med3(a, pl, pm, pn, cmp);
    }
  }

  /** `done` when the round found nothing to swap and sorted the range by insertion. */
  method Round<T(!new)>(a: array<T>, lo: nat, hi: nat, cmp: (T, T) -> int)
    returns (done: bool, nl: nat, nr: nat)
    requires lo <= hi <= a.Length
    modifies a
    ensures Rearranged(old(a[..]), a[..], lo, hi)
    ensures done ==> (Preorder(cmp) ==> Sorted(a[..], cmp, lo, hi))
    ensures !done ==> SplitBySome(a[..], cmp, lo, hi, nl, nr) && lo + nl + nr < hi && Rearranged(a[..], a[..], lo, lo + nl)
  {
    hide *;
    if hi - lo < 7 {
      InsertionSort(a, lo, hi, cmp);
      done, nl, nr := true, 0, 0;
      return;
    }
    ghost var s0 := a[..];
    var pm := ChoosePivot(a, lo, hi, cmp);
    Swap(a, lo, pm, lo, hi);
    ghost var s1 := a[..];
    var pa, pb, pc, pd, swapped := Partition(a, cmp, lo, hi);
    ghost var s2 := a[..];
    ghost var p := a[lo];
    RearrangedTrans(s0, s1, s2, lo, hi);
    ZoneBounds(s2, cmp, p, lo, hi, pa, pb, pc, pd);
    done, nl, nr := !swapped, pb - pa, pd - pc;
    if done {
      InsertionSort(a, lo, hi, cmp);
      RearrangedTrans(s0, s2, a[..], lo, hi);
    } else {
      GatherEqual(a, cmp, p, lo, hi, pa, pb, pc, pd);
      RearrangedTrans(s0, s2, a[..], lo, hi);
      SplitFacts(a[..], cmp, p, lo, hi, nl, nr);
      RearrangedSame(a[..], lo, lo + nl);
    }
  }

  method GatherEqual<T(!new)>(a: array<T>, ghost cmp: (T, T) -> int, ghost p: T, lo: nat, hi: nat,
                              pa: nat, pb: nat, pc: nat, pd: nat)
    requires hi <= a.Length && pb == pc + 1 && Zones(a[..], cmp, p, lo, hi, pa, pb, pc, pd)
    modifies a
    ensures Rearranged(old(a[..]), a[..], lo, hi)
    ensures Split(a[..], cmp, p, lo, hi, pb - pa, pd - pc)
  {
    hide *;
    ghost var s0 := a[..];
    ZoneBounds(s0, cmp, p, lo, hi, pa, pb, pc, pd);
    var r := if pa - lo < pb - pa then pa - lo else pb - pa;
    VecSwap(a, lo, pb - r, r, lo, hi);
    ghost var s1 := a[..];
    LeftGathered(s0, s1, cmp, p, lo, hi, pa, pb, pc, pd, r);
    r := if pd - pc < hi - pd - 1 then pd - pc else hi - pd - 1;
    VecSwap(a, pb, hi - r, r, lo, hi);
    RightGathered(s1, a[..], cmp, p, lo, hi, pa, pb, pc, pd, r);
    RearrangedTrans(s0, s1, a[..], lo, hi);
  }

  /** The left zone of equals is behind the smaller elements. */
  ghost predicate HalfGathered<T>(s: seq<T>, cmp: (T, T) -> int, p: T, lo: nat, hi: nat, pa: nat, pb: nat, pc: nat, pd: nat) {
    && lo < pa <= pb == pc + 1 <= pd + 1 <= hi <= |s|
    && (forall k :: lo <= k < lo + (pb - pa) ==> cmp(s[k], p) < 0)
    && (forall k :: lo + (pb - pa) <= k < pb ==> s[k] == p || cmp(s[k], p) == 0)
    && (forall k :: pc < k <= pd ==> cmp(s[k], p) > 0)
    && (forall k :: pd < k < hi ==> s[k] == p || cmp(s[k], p) == 0)
  }

  /** `t` is `s` with the blocks of `n` elements at `i` and `j` exchanged. */
  ghost predicate Exchanged<T>(s: seq<T>, t: seq<T>, i: nat, j: nat, n: nat) {
    && |t| == |s| && i + n <= j && j + n <= |s|
    && forall k :: 0 <= k < |s| ==> t[k] == s[Partner(k, i, j, n)]
  }

  /** Where the element at `k` comes from when the blocks of `n` at `i` and `j` are exchanged. */
  function Partner(k: nat, i: nat, j: nat, n: nat): (k': nat)
    requires i + n <= j
  {
    if i <= k < i + n then k + (j - i) else if j <= k < j + n then k - (j - i) else k
  }

  lemma LeftGathered<T>(s: seq<T>, t: seq<T>, cmp: (T, T) -> int, p: T, lo: nat, hi: nat, pa: nat, pb: nat, pc: nat, pd: nat, r: nat)
    requires Zones(s, cmp, p, lo, hi, pa, pb, pc, pd) && pb == pc + 1
    requires r <= pb && (r == pa - lo <= pb - pa || r == pb - pa <= pa - lo) && Exchanged(s, t, lo, pb - r, r)
    ensures HalfGathered(t, cmp, p, lo, hi, pa, pb, pc, pd)
  {}

  lemma RightGathered<T>(s: seq<T>, t: seq<T>, cmp: (T, T) -> int, p: T, lo: nat, hi: nat, pa: nat, pb: nat, pc: nat, pd: nat, r: nat)
    requires HalfGathered(s, cmp, p, lo, hi, pa, pb, pc, pd)
    requires r <= hi && (r == pd - pc <= hi - pd - 1 || r == hi - pd - 1 <= pd - pc) && Exchanged(s, t, pb, hi - r, r)
    ensures Split(t, cmp, p, lo, hi, pb - pa, pd - pc)
  {}

  // ---- the recursion

  /** Nothing in [lo0, lo) is above anything in [lo, hi). */
  ghost predicate Below<T>(s: seq<T>, cmp: (T, T) -> int, lo0: nat, lo: nat, hi: nat) {
    lo0 <= lo <= hi <= |s| && forall x, y :: lo0 <= x < lo <= y < hi ==> cmp(s[x], s[y]) <= 0
  }

  /** Indices below `lo` in the window are final for [lo0, hi). */
  ghost predicate DoneBelow<T>(s: seq<T>, cmp: (T, T) -> int, lo0: nat, lo: nat, hi: nat, l: nat, r: nat) {
    lo0 <= lo <= hi <= |s| && forall i :: lo0 <= i < lo && l <= i <= r ==> Placed(s, cmp, lo0, hi, i)
  }

  lemma BelowKept<T>(s: seq<T>, t: seq<T>, cmp: (T, T) -> int, lo0: nat, lo: nat, hi: nat, l: nat, r: nat)
    requires Rearranged(s, t, lo, hi) && Below(s, cmp, lo0, lo, hi) && DoneBelow(s, cmp, lo0, lo, hi, l, r)
    ensures Below(t, cmp, lo0, lo, hi) && DoneBelow(t, cmp, lo0, lo, hi, l, r)
  {
    assert forall x :: 0 <= x < lo ==> t[x] == t[..lo][x] == s[..lo][x] == s[x];
    forall x, y | lo0 <= x < lo <= y < hi ensures cmp(t[x], t[y]) <= 0 {
      var y' := RearrangedFrom(s, t, lo, hi, y);
    }
    forall i | lo0 <= i < lo && l <= i <= r ensures Placed(t, cmp, lo0, hi, i) {
      assert Placed(s, cmp, lo0, hi, i);
    }
  }

  /** Sorting the left part of a split keeps the split. */
  lemma SplitKept<T>(s: seq<T>, t: seq<T>, cmp: (T, T) -> int, p: T, lo: nat, hi: nat, nl: nat, nr: nat)
    requires Split(s, cmp, p, lo, hi, nl, nr) && Rearranged(s, t, lo, lo + nl)
    ensures Split(t, cmp, p, lo, hi, nl, nr)
  {
    assert forall x :: lo + nl <= x < hi ==> t[x] == t[lo + nl..][x - lo - nl] == s[lo + nl..][x - lo - nl] == s[x];
    forall k | lo <= k < lo + nl ensures cmp(t[k], p) < 0 {
      var k' := RearrangedFrom(s, t, lo, lo + nl, k);
    }
  }

  lemma SplitOrders<T(!new)>(s: seq<T>, cmp: (T, T) -> int, p: T, lo: nat, hi: nat, nl: nat, nr: nat, x: nat, y: nat)
    requires Preorder(cmp) && Split(s, cmp, p, lo, hi, nl, nr) && lo <= x < hi && lo <= y < hi
    requires x < lo + nl <= y || x < hi - nr <= y || (lo + nl <= x < hi - nr && lo + nl <= y < hi - nr)
    ensures cmp(s[x], s[y]) <= 0
  {
    assert cmp(p, p) == 0;
    assert cmp(s[x], p) <= 0 && cmp(p, s[y]) <= 0;
  }

  /** After the left part is done, everything up to the right part is. */
  lemma LeftDone<T(!new)>(s: seq<T>, cmp: (T, T) -> int, p: T, lo0: nat, lo: nat, hi: nat, nl: nat, nr: nat, l: nat, r: nat)
    requires Preorder(cmp) && Split(s, cmp, p, lo, hi, nl, nr) && WindowPlaced(s, cmp, lo, lo + nl, l, r)
    requires Below(s, cmp, lo0, lo, hi) && DoneBelow(s, cmp, lo0, lo, hi, l, r)
    ensures Below(s, cmp, lo0, hi - nr, hi) && DoneBelow(s, cmp, lo0, hi - nr, hi, l, r)
  {
    forall x, y | lo0 <= x < hi - nr <= y < hi ensures cmp(s[x], s[y]) <= 0 {
      if x >= lo { SplitOrders(s, cmp, p, lo, hi, nl, nr, x, y); }
    }
    forall i | lo <= i < hi - nr && l <= i <= r ensures Placed(s, cmp, lo0, hi, i) {
      if i < lo + nl { assert Placed(s, cmp, lo, lo + nl, i); }
      forall j | lo0 <= j < i ensures cmp(s[j], s[i]) <= 0 {
        if j >= lo && i >= lo + nl { SplitOrders(s, cmp, p, lo, hi, nl, nr, j, i); }
      }
      forall j | i < j < hi ensures cmp(s[i], s[j]) <= 0 {
        if j >= lo + nl { SplitOrders(s, cmp, p, lo, hi, nl, nr, i, j); }
      }
    }
  }

  /** Nothing left to do in [lo, hi). */
  lemma LastDone<T>(s: seq<T>, cmp: (T, T) -> int, lo0: nat, lo: nat, hi: nat, l: nat, r: nat)
    requires Below(s, cmp, lo0, lo, hi) && DoneBelow(s, cmp, lo0, lo, hi, l, r)
    requires Sorted(s, cmp, lo, hi) || hi - lo <= 1 || !Meets(lo, hi - lo, l, r)
    ensures WindowPlaced(s, cmp, lo0, hi, l, r)
  {}

  /** The test of lines 170-171 and 183-184, in element indices. */
  predicate Meets(lo: nat, n: nat, l: nat, r: nat) {
    !((l < lo && r < lo) || (l >= lo + n && r >= lo + n))
  }

  /** What holds before each round on [lo, hi): the rest of [lo0, hi) is final. */
  ghost predicate Progress<T(!new)>(s0: seq<T>, s: seq<T>, cmp: (T, T) -> int, lo0: nat, lo: nat, hi: nat, l: nat, r: nat) {
    && lo0 <= lo <= hi && Rearranged(s0, s, lo0, hi)
    && (Preorder(cmp) ==> Below(s, cmp, lo0, lo, hi) && DoneBelow(s, cmp, lo0, lo, hi, l, r))
  }

  lemma ProgressKept<T(!new)>(s0: seq<T>, s: seq<T>, t: seq<T>, cmp: (T, T) -> int, lo0: nat, lo: nat, hi: nat, l: nat, r: nat)
    requires Progress(s0, s, cmp, lo0, lo, hi, l, r) && Rearranged(s, t, lo, hi)
    ensures Progress(s0, t, cmp, lo0, lo, hi, l, r)
  {
    RearrangedWiden(s, t, lo, hi, lo0, hi);
    if Preorder(cmp) { BelowKept(s, t, cmp, lo0, lo, hi, l, r); }
  }

  lemma ProgressEnds<T(!new)>(s0: seq<T>, s: seq<T>, cmp: (T, T) -> int, lo0: nat, lo: nat, hi: nat, l: nat, r: nat)
    requires Progress(s0, s, cmp, lo0, lo, hi, l, r)
    requires Finished(s, cmp, lo, hi, l, r)
    ensures Rearranged(s0, s, lo0, hi) && (Preorder(cmp) ==> WindowPlaced(s, cmp, lo0, hi, l, r))
  {
    if Preorder(cmp) { LastDone(s, cmp, lo0, lo, hi, l, r); }
  }

  lemma ProgressRight<T(!new)>(s0: seq<T>, s: seq<T>, t: seq<T>, cmp: (T, T) -> int,
                               lo0: nat, lo: nat, hi: nat, nl: nat, nr: nat, l: nat, r: nat)
    requires Progress(s0, s, cmp, lo0, lo, hi, l, r) && SplitBySome(s, cmp, lo, hi, nl, nr)
    requires Rearranged(s, t, lo, lo + nl)
    requires (Preorder(cmp) ==> WindowPlaced(t, cmp, lo, lo + nl, l, r)) || nl <= 1 || !Meets(lo, nl, l, r)
    ensures Progress(s0, t, cmp, lo0, hi - nr, hi, l, r)
  {
    var p :| Split(s, cmp, p, lo, hi, nl, nr);
    SplitKept(s, t, cmp, p, lo, hi, nl, nr);
    RearrangedWiden(s, t, lo, lo + nl, lo, hi);
    ProgressKept(s0, s, t, cmp, lo0, lo, hi, l, r);
    if Preorder(cmp) { LeftDone(t, cmp, p, lo0, lo, hi, nl, nr, l, r); }
  }

  method PqsortRange<T(!new)>(a: array<T>, lo0: nat, hi: nat, cmp: (T, T) -> int, l: nat, r: nat)
    requires lo0 <= hi <= a.Length
    modifies a
    ensures Rearranged(old(a[..]), a[..], lo0, hi)
    ensures Preorder(cmp) ==> WindowPlaced(a[..], cmp, lo0, hi, l, r)
    decreases hi - lo0, 1
  {
    var lo := lo0;
    ghost var s0 := a[..];
    assert Progress(s0, s0, cmp, lo0, lo, hi, l, r);
    hide *;
    var more := true;
    while more
      invariant lo0 <= lo <= hi && Progress(s0, a[..], cmp, lo0, lo, hi, l, r)
      invariant !more ==> Finished(a[..], cmp, lo, hi, l, r)
      decreases more, hi - lo
    {
      more, lo := RoundOfRange(a, lo0, lo, hi, cmp, l, r, s0);
    }
    ProgressEnds(s0, a[..], cmp, lo0, lo, hi, l, r);
  }

  /** Nothing more to do in [lo, hi). */
  ghost predicate Finished<T(!new)>(s: seq<T>, cmp: (T, T) -> int, lo: nat, hi: nat, l: nat, r: nat) {
    (Preorder(cmp) ==> Sorted(s, cmp, lo, hi)) || hi - lo <= 1 || !Meets(lo, hi - lo, l, r)
  }

  /** One turn of the `goto loop`: a round, and the recursion into the left part. */
  method RoundOfRange<T(!new)>(a: array<T>, ghost lo0: nat, lo: nat, hi: nat, cmp: (T, T) -> int,
                               l: nat, r: nat, ghost s0: seq<T>)
    returns (more: bool, next: nat)
    requires lo0 <= lo <= hi <= a.Length && Progress(s0, a[..], cmp, lo0, lo, hi, l, r)
    modifies a
    ensures lo <= next <= hi && (more ==> lo < next)
    ensures Progress(s0, a[..], cmp, lo0, next, hi, l, r)
    ensures !more ==> Finished(a[..], cmp, next, hi, l, r)
    decreases hi - lo, 0
  {
    hide Progress, Rearranged, Preorder, WindowPlaced, Sorted, SplitBySome;
    ghost var s := a[..];
    var done, nl, nr := Round(a, lo, hi, cmp);
    ghost var t := a[..];
    ProgressKept(s0, s, t, cmp, lo0, lo, hi, l, r);
    if done { return false, lo; }
    if nl > 1 && Meets(lo, nl, l, r) {
      PqsortRange(a, lo, lo + nl, cmp, l, r);
    }
    ProgressRight(s0, t, a[..], cmp, lo0, lo, hi, nl, nr, l, r);
    next := hi - nr;
    more := nr > 1 && Meets(next, nr, l, r);
  }

  /** Sort the window [lrange, rrange] of the first `n` elements. */
  method Pqsort<T(!new)>(a: array<T>, n: nat, cmp: (T, T) -> int, lrange: nat, rrange: nat)
    requires n <= a.Length
    modifies a
    ensures Rearranged(old(a[..]), a[..], 0, n)
    ensures Preorder(cmp) ==> WindowPlaced(a[..], cmp, 0, n, lrange, rrange)
  {
    PqsortRange(a, 0, n, cmp, lrange, rrange);
  }

  // ---- the window is that of a full sort

  function Count<T>(s: seq<T>, f: T -> bool): nat {
    if s == [] then 0 else (if f(s[0]) then 1 else 0) + Count(s[1..], f)
  }

  lemma {:induction false} CountConcat<T>(s: seq<T>, t: seq<T>, f: T -> bool)
    ensures Count(s + t, f) == Count(s, f) + Count(t, f)
  {
    if s == [] {
      assert s + t == t;
    } else {
      assert (s + t)[1..] == s[1..] + t;
      CountConcat(s[1..], t, f);
    }
  }

  lemma CountRemove<T>(t: seq<T>, k: nat, f: T -> bool)
    requires k < |t|
    ensures multiset(t) == multiset(t[..k] + t[k + 1..]) + multiset{t[k]}
    ensures Count(t, f) == Count(t[..k] + t[k + 1..], f) + if f(t[k]) then 1 else 0
  {
    assert t == t[..k] + t[k..] && t[k..] == [t[k]] + t[k + 1..];
    CountConcat(t[..k], t[k + 1..], f);
    CountConcat(t[..k], t[k..], f);
  }

  lemma WithoutFirst<T>(s: seq<T>)
    requires s != []
    ensures multiset(s) == multiset(s[1..]) + multiset{s[0]}
  {
    assert s == [s[0]] + s[1..];
  }

  lemma SameRest<T>(a: multiset<T>, b: multiset<T>, x: T)
    ensures a + multiset{x} == b + multiset{x} ==> a == b
  {
    assert a + multiset{x} - multiset{x} == a && b + multiset{x} - multiset{x} == b;
  }

  lemma CountFirst<T>(s: seq<T>, f: T -> bool)
    requires s != []
    ensures Count(s, f) == Count(s[1..], f) + if f(s[0]) then 1 else 0
  {}

  lemma {:induction false} CountPermuted<T>(s: seq<T>, t: seq<T>, f: T -> bool)
    requires multiset(s) == multiset(t)
    ensures Count(s, f) == Count(t, f)
  {
    if s == [] {
      assert |multiset(t)| == 0;
    } else {
      assert s[0] in multiset(t);
      var k :| 0 <= k < |t| && t[k] == s[0];
      CountRemove(t, k, f);
      WithoutFirst(s);
      SameRest(multiset(s[1..]), multiset(t[..k] + t[k + 1..]), s[0]);
      hide *;
      CountPermuted(s[1..], t[..k] + t[k + 1..], f);
      CountFirst(s, f);
    }
  }

  lemma {:induction false} CountBounds<T>(s: seq<T>, f: T -> bool)
    ensures Count(s, f) <= |s|
    ensures (forall x :: x in s ==> f(x)) ==> Count(s, f) == |s|
    ensures (forall x :: x in s ==> !f(x)) ==> Count(s, f) == 0
  {
    if s != [] { CountBounds(s[1..], f); }
  }

  lemma CountSplit<T>(s: seq<T>, f: T -> bool, i: nat)
    requires i <= |s|
    ensures (forall j :: 0 <= j < i ==> f(s[j])) ==> Count(s, f) >= i
    ensures (forall j :: i <= j < |s| ==> !f(s[j])) ==> Count(s, f) <= i
  {
    assert s == s[..i] + s[i..];
    CountConcat(s[..i], s[i..], f);
    CountBounds(s[..i], f);
    CountBounds(s[i..], f);
  }

  /** A placed element is, up to the preorder, the one a full sort puts at that index. */
  lemma PlacedMatchesSorted<T(!new)>(s: seq<T>, t: seq<T>, cmp: (T, T) -> int, i: nat)
    requires Preorder(cmp) && multiset(s) == multiset(t) && |s| == |t|
    requires Placed(s, cmp, 0, |s|, i) && Sorted(t, cmp, 0, |t|)
    ensures cmp(s[i], t[i]) == 0
  {
    PlacedNotBelow(s, t, cmp, i);
    PlacedNotAbove(s, t, cmp, i);
  }

  lemma Refl<T(!new)>(cmp: (T, T) -> int, x: T)
    requires Preorder(cmp)
    ensures cmp(x, x) == 0
  {}

  /** Transitivity, for an `x` that is not below, or not above, some `y`. */
  lemma Beyond<T(!new)>(cmp: (T, T) -> int, x: T, y: T, z: T)
    requires Preorder(cmp)
    ensures cmp(x, y) < 0 && cmp(y, z) <= 0 ==> cmp(z, x) > 0
    ensures cmp(x, y) > 0 && cmp(z, y) <= 0 ==> cmp(z, x) < 0
  {
    assert cmp(y, z) <= 0 && cmp(z, x) <= 0 ==> cmp(y, x) <= 0;
    assert cmp(x, z) <= 0 && cmp(z, y) <= 0 ==> cmp(x, y) <= 0;
  }

  lemma PlacedNotBelow<T(!new)>(s: seq<T>, t: seq<T>, cmp: (T, T) -> int, i: nat)
    requires Preorder(cmp) && multiset(s) == multiset(t) && |s| == |t|
    requires Placed(s, cmp, 0, |s|, i) && Sorted(t, cmp, 0, |t|)
    ensures cmp(s[i], t[i]) >= 0
  {
    hide Preorder, Count;
    var atMost := x => cmp(x, s[i]) <= 0;
    CountPermuted(s, t, atMost);
    if cmp(s[i], t[i]) < 0 {
      Refl(cmp, s[i]);
      Refl(cmp, t[i]);
      forall j | i <= j < |t| ensures !atMost(t[j]) { Beyond(cmp, s[i], t[i], t[j]); }
      CountSplit(s, atMost, i + 1);
      CountSplit(t, atMost, i);
    }
  }

  lemma PlacedNotAbove<T(!new)>(s: seq<T>, t: seq<T>, cmp: (T, T) -> int, i: nat)
    requires Preorder(cmp) && multiset(s) == multiset(t) && |s| == |t|
    requires Placed(s, cmp, 0, |s|, i) && Sorted(t, cmp, 0, |t|)
    ensures cmp(s[i], t[i]) <= 0
  {
    hide Preorder, Count;
    var under := x => cmp(x, s[i]) < 0;
    CountPermuted(s, t, under);
    if cmp(s[i], t[i]) > 0 {
      Refl(cmp, s[i]);
      Refl(cmp, t[i]);
      forall j | 0 <= j < i + 1 ensures under(t[j]) { Beyond(cmp, s[i], t[i], t[j]); }
      forall j | i <= j < |s| ensures !under(s[j]) { NotUnder(cmp, s[i], s[j]); }
      CountSplit(s, under, i);
      CountSplit(t, under, i + 1);
    }
  }

  lemma NotUnder<T(!new)>(cmp: (T, T) -> int, x: T, y: T)
    requires Preorder(cmp) && cmp(x, y) <= 0
    ensures cmp(y, x) >= 0
  {}
}
