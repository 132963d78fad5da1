/** What several files need and none of them is about. */
module Wrappers {
  datatype Option<T> = None | Some(value: T)
}

module Sequences {
  lemma Assoc<T>(a: seq<T>, b: seq<T>, c: seq<T>)
    ensures a + b + c == a + (b + c)
  {}
}

module Arithmetic {
  /** A multiple of `m` that is not 0 is at least `m` away from it. */
  lemma MultipleFar(m: nat, d: int)
    requires m > 0
    ensures (d >= 1 ==> m * d >= m) && (d <= -1 ==> m * d <= 0 - m)
  {
    if d >= 1 { assert m * (d - 1) >= 0; } else if d <= -1 { assert m * (0 - d - 1) >= 0; }
  }

  /** The remainder is the only number below `m` that differs from `v` by a multiple. */
  lemma ModUnique(v: int, m: nat, a: int, r: int)
    requires m > 0 && v == m * a + r && 0 <= r < m
    ensures v % m == r
  {
    var q := v / m;
    assert v == m * q + v % m;
    assert m * (a - q) == v % m - r by {
      assert m * (a - q) == m * a - m * q;
    }
    MultipleFar(m, a - q);
  }
}
