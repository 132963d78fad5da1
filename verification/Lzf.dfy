/** The meaning of an LZF stream, as the decoder `lzf_decompress` reads it:

      000LLLLL <L+1 octets>         literal run
      LLLooooo oooooooo             copy L+2 octets from offset o+1 back
      111ooooo LLLLLLLL oooooooo    copy L+9 octets from offset o+1 back
  */
module LzfFormat {
  import opened Sequences
  import opened Bytes

  datatype Errno = E2BIG | EINVAL
  datatype Decoding = Decoded(out: bytes) | Failed(error: Errno)
  datatype TokenResult = Token(used: nat, out: bytes) | BadToken(error: Errno)

  /** `len` octets copied one at a time from `dist` octets back; the source and the
      destination overlap when `dist < len`. */
  function CopyBack(out: bytes, dist: nat, len: nat): (r: bytes)
    requires 1 <= dist <= |out|
    ensures |r| == |out| + len && out <= r
    decreases len
  {
    if len == 0 then out else CopyBack(out + [out[|out| - dist]], dist, len - 1)
  }

  function ReadToken(c: bytes, out: bytes, cap: nat): (r: TokenResult)
    requires c != [] && |out| <= cap
    ensures r.Token? ==> 1 < r.used <= |c| && |out| < |r.out| <= cap && out <= r.out
  {
    var ctrl := c[0];
    if ctrl < 32 then
      if |out| + ctrl + 1 > cap then BadToken(E2BIG)
      else if 1 + ctrl + 1 > |c| then BadToken(EINVAL)
      else Token(ctrl + 2, out + c[1..ctrl + 2])
    else
      var k := RefSize(c);
      if |c| <= k then BadToken(EINVAL)
      else
        var n, dist := RefLength(c), RefDistance(c);
        if |out| + n > cap then BadToken(E2BIG)
        else if dist > |out| then BadToken(EINVAL)
        else Token(k + 1, CopyBack(out, dist, n))
  }

  /** How many octets follow the control octet of a reference. */
  function RefSize(c: bytes): (k: nat)
    requires c != [] && c[0] >= 32
  {
    if c[0] / 32 == 7 then 2 else 1
  }

  function RefLength(c: bytes): (n: nat)
    requires c != [] && c[0] >= 32 && |c| > RefSize(c)
  {
    (if c[0] / 32 == 7 then 7 + c[1] as nat else c[0] as nat / 32) + 2
  }

  function RefDistance(c: bytes): (d: nat)
    requires c != [] && c[0] >= 32 && |c| > RefSize(c)
    ensures d > 0
  {
    (c[0] as nat % 32) * 256 + c[RefSize(c)] as nat + 1
  }

  lemma ReferenceIs(c: bytes, out: bytes, cap: nat)
    requires c != [] && c[0] >= 32 && |out| <= cap
    ensures ReadToken(c, out, cap) ==
      if |c| <= RefSize(c) then BadToken(EINVAL)
      else if |out| + RefLength(c) > cap then BadToken(E2BIG)
      else if RefDistance(c) > |out| then BadToken(EINVAL)
      else Token(RefSize(c) + 1, CopyBack(out, RefDistance(c), RefLength(c)))
  {
    hide RefSize, RefLength, RefDistance, CopyBack;
  }

  /** What the whole stream `c` adds to the octets `out` already produced. */
  function Decode(c: bytes, out: bytes, cap: nat): (r: Decoding)
    requires |out| <= cap
    ensures r.Decoded? ==> |r.out| <= cap && out <= r.out
    decreases |c|
  {
    if c == [] then Decoded(out)
    else match ReadToken(c, out, cap)
      case BadToken(e) => Failed(e)
      case Token(k, o) => Decode(c[k..], o, cap)
  }

  /** A token is read the same way whatever follows it. */
  lemma ReadTokenPrefix(c: bytes, rest: bytes, out: bytes, cap: nat)
    requires c != [] && |out| <= cap
    requires ReadToken(c, out, cap).Token?
    ensures ReadToken(c + rest, out, cap) == ReadToken(c, out, cap)
  {
    var ctrl := c[0];
    if ctrl < 32 {
      assert (c + rest)[1..ctrl + 2] == c[1..ctrl + 2];
    }
  }

  /** Streams compose: decoding a concatenation continues from the first part's output. */
  lemma {:induction false} DecodeConcat(c: bytes, rest: bytes, out: bytes, cap: nat)
    requires |out| <= cap
    requires Decode(c, out, cap).Decoded?
    ensures Decode(c + rest, out, cap) == Decode(rest, Decode(c, out, cap).out, cap)
    decreases |c|
  {
    if c == [] {
      assert c + rest == rest;
    } else {
      ReadTokenPrefix(c, rest, out, cap);
      var Token(k, o) := ReadToken(c, out, cap);
      assert (c + rest)[k..] == c[k..] + rest;
      DecodeConcat(c[k..], rest, o, cap);
    }
  }

  lemma AppendToken(c: bytes, token: bytes, data: bytes, i: nat, n: nat)
    requires i <= n <= |data| && token != []
    requires Decode(c, [], |data|) == Decoded(data[..i])
    requires ReadToken(token, data[..i], |data|) == Token(|token|, data[..n])
    ensures Decode(c + token, [], |data|) == Decoded(data[..n])
  {
    DecodeConcat(c, token, [], |data|);
    assert token[|token|..] == [];
  }

  lemma LiteralToken(data: bytes, i: nat, lit: nat)
    requires 1 <= lit <= 32 && i + lit <= |data|
    ensures var token: bytes := [lit - 1] + data[i..i + lit];
      |token| == lit + 1 && ReadToken(token, data[..i], |data|) == Token(|token|, data[..i + lit])
  {
    var token: bytes := [lit - 1] + data[i..i + lit];
    assert token[0] == lit - 1 && token[1..lit + 1] == data[i..i + lit];
    assert data[..i] + data[i..i + lit] == data[..i + lit];
  }

  /** A literal run of 1 to 32 octets adds those octets. */
  lemma AppendLiteral(c: bytes, data: bytes, i: nat, lit: nat)
    requires 1 <= lit <= 32 && i + lit <= |data|
    requires Decode(c, [], |data|) == Decoded(data[..i])
    ensures Decode(c + [lit - 1] + data[i..i + lit], [], |data|) == Decoded(data[..i + lit])
  {
    LiteralToken(data, i, lit);
    hide *;
    Assoc(c, [lit - 1], data[i..i + lit]);
    AppendToken(c, [lit - 1] + data[i..i + lit], data, i, i + lit);
  }

  ghost predicate SameBack(data: bytes, p: nat, dist: nat) { dist <= p < |data| && data[p] == data[p - dist] }

  /** `n` octets from `i` on repeat what is `dist` octets before them. */
  ghost predicate Repeats(data: bytes, i: nat, n: nat, dist: nat) {
    i + n <= |data| && forall p :: i <= p < i + n ==> SameBack(data, p, dist)
  }

  /** Copying back over data that repeats at distance `dist` reproduces it. */
  lemma {:induction false} CopyBackRepeats(data: bytes, i: nat, dist: nat, n: nat)
    requires 1 <= dist <= i && Repeats(data, i, n, dist)
    ensures CopyBack(data[..i], dist, n) == data[..i + n]
    decreases n
  {
    if n > 0 {
      assert SameBack(data, i, dist);
      assert data[..i] + [data[i - dist]] == data[..i + 1];
      CopyBackRepeats(data, i + 1, dist, n - 1);
    }
  }

  /** The octets the encoder writes for a match of `len + 2` octets at offset `off + 1`. */
  function RefToken(off: nat, len: nat): (r: bytes)
    requires off < 8192 && 1 <= len <= 262
  {
    if len < 7 then [off / 256 + len * 32, off % 256]
    else [off / 256 + 7 * 32, len - 7, off % 256]
  }

  lemma ControlByte(low: nat, high: nat)
    requires low < 32 && high < 8
    ensures (low + high * 32) / 32 == high && (low + high * 32) % 32 == low
  {}

  lemma ReadRefToken(data: bytes, i: nat, off: nat, len: nat)
    requires off < 8192 && 1 <= len <= 262 && off < i && i + len + 2 <= |data|
    ensures ReadToken(RefToken(off, len), data[..i], |data|)
         == Token(|RefToken(off, len)|, CopyBack(data[..i], off + 1, len + 2))
  {
    RefFields(off, len);
    ReferenceIs(RefToken(off, len), data[..i], |data|);
    var c := RefToken(off, len);
    assert RefSize(c) == |c| - 1 && RefLength(c) == len + 2 && RefDistance(c) == off + 1;
    hide *;
  }

  lemma RefFields(off: nat, len: nat)
    requires off < 8192 && 1 <= len <= 262
    ensures var c := RefToken(off, len);
      && |c| == (if len < 7 then 2 else 3) && (len >= 7 ==> c[1] as int == len - 7)
      && c[0] >= 32 && c[0] as int / 32 == (if len < 7 then len else 7)
      && (c[0] as int % 32) * 256 + c[|c| - 1] as int == off
  {
    ControlByte(off / 256, if len < 7 then len else 7);
    var c := RefToken(off, len);
    assert c[0] as int % 32 == off / 256 && c[|c| - 1] as int == off % 256;
  }

  lemma AppendRef(c: bytes, data: bytes, i: nat, off: nat, len: nat)
    requires off < 8192 && 1 <= len <= 262 && off < i && Repeats(data, i, len + 2, off + 1)
    requires Decode(c, [], |data|) == Decoded(data[..i])
    ensures Decode(c + RefToken(off, len), [], |data|) == Decoded(data[..i + len + 2])
  {
    CopyBackRepeats(data, i, off + 1, len + 2);
    var token := RefToken(off, len);
    ReadRefToken(data, i, off, len);
    RefFields(off, len);
    assert i + len + 2 <= |data|;
    hide *;
    AppendToken(c, token, data, i, i + len + 2);
  }
}

/** lzf_d.c */
module LzfD {
  import opened Bytes
  import opened LzfFormat

  /** Octets `n` of the input copied to the output. */
  method CopyLiteral(input: array<byte>, ip: nat, output: array<byte>, op: nat, n: nat)
    requires input != output && ip + n <= input.Length && op + n <= output.Length
    modifies output
    ensures output[..op + n] == old(output[..op]) + input[ip..ip + n]
    ensures forall j :: op + n <= j < output.Length ==> output[j] == old(output[j])
  {
    var k := 0;
    while k < n
      invariant 0 <= k <= n
      invariant output[..op + k] == old(output[..op]) + input[ip..ip + k]
      invariant forall j :: op + k <= j < output.Length ==> output[j] == old(output[j])
    {
      ghost var before := output[..op + k];
      output[op + k] := input[ip + k];
      assert output[..op + k + 1] == before + [input[ip + k]];
      assert input[ip..ip + k + 1] == input[ip..ip + k] + [input[ip + k]];
      k := k + 1;
    }
  }

  /** `goal`, once the first `k` octets are what they are and `left` are to be copied. */
  ghost predicate Copying(s: bytes, k: nat, dist: nat, left: nat, goal: bytes) {
    1 <= dist <= k <= |s| && CopyBack(s[..k], dist, left) == goal
  }

  lemma CopyOneBack(s: bytes, k: nat, dist: nat, left: nat, goal: bytes)
    requires Copying(s, k, dist, left, goal)
    ensures left > 0 && k < |s| ==> Copying(s[k := s[k - dist]], k + 1, dist, left - 1, goal)
    ensures left == 0 ==> s[..k] == goal
  {
    if left > 0 && k < |s| {
      assert s[k := s[k - dist]][..k + 1] == s[..k] + [s[..k][k - dist]];
    }
  }

  /** A forward copy inside one buffer, octet by octet. */
  method CopyForward(a: array<byte>, from: nat, to: nat, n: nat)
    requires from < to && to + n <= a.Length
    modifies a
    ensures a[..to + n] == CopyBack(old(a[..to]), to - from, n)
    ensures forall j :: to + n <= j < a.Length ==> a[j] == old(a[j])
  {
    var i := 0;
    ghost var goal, dist := CopyBack(a[..to], to - from, n), to - from;
    assert a[..][..to] == a[..to];
    assert Copying(a[..], to, dist, n, goal);
    hide *;
    while i < n
      invariant 0 <= i <= n && Copying(a[..], to + i, dist, n - i, goal)
      invariant forall j :: to + n <= j < a.Length ==> a[j] == old(a[j])
    {
      CopyOctet(a, from + i, to + i, n - i, goal);
      i := i + 1;
    }
    CopyOneBack(a[..], to + i, dist, 0, goal);
    assert a[..][..to + n] == a[..to + n];
  }

  method CopyOctet(a: array<byte>, from: nat, to: nat, ghost left: nat, ghost goal: bytes)
    requires from < to < a.Length && left > 0 && Copying(a[..], to, to - from, left, goal)
    modifies a
    ensures Copying(a[..], to + 1, to - from, left - 1, goal)
    ensures forall j :: 0 <= j < a.Length && j != to ==> a[j] == old(a[j])
  {
    ghost var s := a[..];
    hide *;
    CopyOneBack(s, to, to - from, left, goal);
    a[to] := a[from];
    assert a[..] == s[to := s[from]];
  }

  /** One round of the decoder's loop: the token at `ip`. */
  method StepToken(input: array<byte>, inLen: nat, ip0: nat, output: array<byte>, outLen: nat, op0: nat)
    returns (ok: bool, ip: nat, op: nat, errno: Errno)
    requires ip0 < inLen <= input.Length && op0 <= outLen <= output.Length && input != output
    modifies output
    ensures match ReadToken(input[ip0..inLen], old(output[..op0]), outLen)
      case Token(k, o) => ok && ip == ip0 + k && op == |o| && output[..op] == o
      case BadToken(e) => !ok && errno == e
    ensures forall j :: outLen <= j < output.Length ==> output[j] == old(output[j])
  {
    ok, ip, op, errno := true, ip0 + 1, op0, EINVAL;
    ghost var c := input[ip0..inLen];
    var ctrl: int := input[ip0];
    assert ctrl == c[0];
    if ctrl < 32 {
      var n: nat := ctrl + 1;
      if op + n > outLen { ok, errno := false, E2BIG; return; }
      if ip + n > inLen { ok := false; return; }
      assert c[1..n + 1] == input[ip..ip + n] by {
        assert forall j {:trigger c[j]} :: 0 <= j < |c| ==> c[j] == input[ip0 + j];
      }
      CopyLiteral(input, ip, output, op, n);
      ip, op := ip + n, op + n;
    } else {
      ok, ip, op, errno := StepRef(input, inLen, ip0, output, outLen, op0);
    }
  }

  /** A reference: lines 105-146. */
  method StepRef(input: array<byte>, inLen: nat, ip0: nat, output: array<byte>, outLen: nat, op0: nat)
    returns (ok: bool, ip: nat, op: nat, errno: Errno)
    requires ip0 < inLen <= input.Length && op0 <= outLen <= output.Length && input != output && input[ip0] >= 32
    modifies output
    ensures match ReadToken(input[ip0..inLen], old(output[..op0]), outLen)
      case Token(k, o) => ok && ip == ip0 + k && op == |o| && output[..op] == o
      case BadToken(e) => !ok && errno == e
    ensures forall j :: outLen <= j < output.Length ==> output[j] == old(output[j])
  {
    ok, op, errno := false, op0, EINVAL;
    ReferenceIs(input[ip0..inLen], output[..op0], outLen);
    hide *;
    var len, dist, there;
    there, ip, len, dist := RefHeader(input, inLen, ip0);
    if !there { return; }
    if op + len + 2 > outLen { errno := E2BIG; return; }
    if op < dist { return; }
    CopyForward(output, op - dist, op, len + 2);
    op := op + len + 2;
    ok := true;
  }

  /** The control octet and what follows it, if it is all there. */
  method RefHeader(input: array<byte>, inLen: nat, ip0: nat) returns (there: bool, ip: nat, len: nat, dist: nat)
    requires ip0 < inLen <= input.Length && input[ip0] >= 32
    ensures var c := input[ip0..inLen];
      && (there <==> |c| > RefSize(c))
      && (there ==> ip == ip0 + RefSize(c) + 1 && len + 2 == RefLength(c) && dist == RefDistance(c))
  {
    ghost var c := input[ip0..inLen];
    var ctrl: int := input[ip0];
    assert ctrl == c[0] && (|c| > 1 ==> c[1] == input[ip0 + 1]) && (|c| > 2 ==> c[2] == input[ip0 + 2]);
    there, ip, len, dist := false, ip0 + 1, ctrl / 32, (ctrl % 32) * 256 + 1;
    if ip >= inLen { return; }
    if len == 7 {
      len := len + input[ip];
      ip := ip + 1;
      if ip >= inLen { return; }
    }
    dist := dist + input[ip];
    ip := ip + 1;
    there := true;
  }

  /** `errno` is meaningful only when the result is 0. */
  method Decompress(input: array<byte>, inLen: nat, output: array<byte>, outLen: nat)
    returns (r: nat, errno: Errno)
    requires 0 < inLen <= input.Length && outLen <= output.Length && input != output
    modifies output
    ensures match Decode(input[..inLen], [], outLen)
      case Decoded(out) => r == |out| && output[..r] == out
      case Failed(e) => r == 0 && errno == e
    ensures forall j :: outLen <= j < output.Length ==> output[j] == old(output[j])
  {
    ghost var code := input[..inLen];
    errno := EINVAL;
    var ip, op, ok := 0, 0, true;
    assert code[ip..] == code && output[..op] == [];
    while ip < inLen
      invariant 0 <= ip <= inLen && 0 <= op <= outLen
      invariant Decode(code[ip..], output[..op], outLen) == Decode(code, [], outLen)
      invariant forall j :: outLen <= j < output.Length ==> output[j] == old(output[j])
      decreases inLen - ip
    {
      ghost var rest := code[ip..];
      assert input[ip..inLen] == rest;
      ghost var ip0 := ip;
      ok, ip, op, errno := StepToken(input, inLen, ip, output, outLen, op);
      if !ok { return 0, errno; }
      assert rest[ip - ip0..] == code[ip..];
    }
    assert code[ip..] == [];
    r := op;
  }
}

/** lzf_c.c with VERY_FAST = 1 and INIT_HTAB = 0. Addresses are modelled as numbers:
    the input sits at `basis`, and a hash slot is any 64-bit number. */
module LzfC {
  import opened Bytes
  import opened LzfFormat

  const HSIZE := 65536
  const MAX_LIT := 32
  const MAX_OFF := 8192
  const MAX_REF := 264

  /** The output for `n` octets of input that has no matches, which is the longest there is: a
      header for each 32 octets begun. */
  function WorstCase(n: nat): (r: nat) { n + (n + 31) / 32 }

  /** The lengths for which that is less than 104%. */
  predicate Within104(n: nat) { 26 <= n <= 32 || 51 <= n <= 64 || 76 <= n <= 96 || n >= 101 }

  /** An output of this length is always enough. */
  function Enough(n: nat): nat { n + n / 32 + 4 }

  /** Nothing repeats, so that no match is found in whatever table. */
  ghost predicate AllDistinct(data: bytes) { forall i, j :: 0 <= i < j < |data| ==> data[i] != data[j] }

  /** Literals only: full runs of 32, and the open one. */
  ghost predicate Literals(ip: nat, op: nat, lit: nat) { lit == ip % 32 && op == ip / 32 * 33 + lit + 1 }

  lemma MatchRepeats(data: bytes, ip: nat, dist: nat)
    requires Repeats(data, ip, 3, dist) && dist > 0
    ensures !AllDistinct(data)
  {
    assert SameBack(data, ip, dist);
  }

  /** lzf.h promises less than 104% of the input: for these lengths, and for no others, the
      longest output keeps to it. */
  lemma PromiseKept(n: nat)
    ensures n > 0 ==> (100 * WorstCase(n) < 104 * n <==> Within104(n))
  {}

  /** FRST and NEXT: two, three, and from then on the last four octets. */
  function Pair(a: byte, b: byte): (v: u32) { a as int * 256 + b as int }

  function Mix(v: u32, b: byte): (w: u32) { (v as int * 256) % TWO32 + b as int }

  /** For every other length there is an input that takes 104% or more, whatever the table and
      the hash function (see `Compress`): octets that all differ. One octet takes two. */
  lemma PromiseBroken(n: nat) returns (data: bytes)
    requires n > 0 && !Within104(n)
    ensures |data| == n && AllDistinct(data) && 100 * WorstCase(n) >= 104 * n
  {
    PromiseKept(n);
    data := seq(n, i requires 0 <= i < n => i);
  }

  /** Octets `[op - lit, op)` hold an open literal run for `data[ip - lit..ip]`; the
      octet before them is reserved for its header, and everything before that decodes
      to the data before the run. */
  ghost predicate Open(data: bytes, ip: nat, out: array<byte>, op: nat, lit: nat)
    reads out
  {
    && lit < op <= out.Length && lit <= ip <= |data| && lit <= MAX_LIT
    && Decode(out[..op - lit - 1], [], |data|) == Decoded(data[..ip - lit])
    && out[op - lit..op] == data[ip - lit..ip]
  }

  /** The closed runs and references take at most one octet in 32 more than their data. */
  ghost predicate Tight(ip: nat, op: nat, lit: nat) {
    lit <= ip && op - lit - 1 <= ip - lit + (ip - lit) / 32
  }

  method StopRun(output: array<byte>, op0: nat, lit: nat, ghost data: bytes, ghost ip: nat)
    returns (op: nat)
    requires Open(data, ip, output, op0, lit)
    modifies output
    ensures op == if lit == 0 then op0 - 1 else op0
    ensures Decode(output[..op], [], |data|) == Decoded(data[..ip])
  {
    hide Decode;
    ghost var before, run := output[..op0 - lit - 1], output[op0 - lit..op0];
    output[op0 - lit - 1] := (lit - 1) % 256;
    op := if lit == 0 then op0 - 1 else op0;
    assert output[..op0 - lit - 1] == before;
    if lit > 0 {
      var header: byte := lit - 1;
      assert output[op0 - lit..op0] == run;
      assert output[..op0 - lit] == before + [header];
      assert output[..op] == output[..op0 - lit] + output[op0 - lit..op0];
      AppendLiteral(before, data, ip - lit, lit);
    }
  }

  /** How long a match with `r` octets left may be: no more than 264, and no more than is left
      but for two, unless that is 17 or 18. */
  function Limit(r: nat): (m: nat)
    requires r >= 5
    ensures 3 <= m <= MAX_REF && m <= r
  {
    if r > MAX_REF + 2 then MAX_REF else if 16 < r - 2 < 19 then 19 else r - 2
  }

  /** The data repeats for `len` octets, and no further or no further than allowed. */
  ghost predicate Longest(data: bytes, ip: nat, dist: nat, len: nat) {
    && ip + 4 < |data| && 1 <= dist <= ip && 3 <= len <= Limit(|data| - ip) && Repeats(data, ip, len, dist)
    && (len < Limit(|data| - ip) ==> data[ip + len] != data[ip + len - dist])
  }

  function TokenSize(len: nat): nat { if len < 9 then 2 else 3 }

  /** The octets written, once the open run is closed. */
  function Written(op: nat, lit: nat): (w: nat)
    requires op > 0
  {
    if lit == 0 then op - 1 else op
  }

  /** The first index at which the match ends, by the unrolled and the plain loop. */
  method MatchLength(input: array<byte>, inLen: nat, ref: nat, ip: nat) returns (len: nat)
    requires ref < ip && ip + 4 < inLen <= input.Length && Repeats(input[..inLen], ip, 3, ip - ref)
    ensures Longest(input[..inLen], ip, ip - ref, len)
  {
    ghost var data := input[..inLen];
    len := 2;
    var maxlen := inLen - ip - len;
    maxlen := if maxlen > MAX_REF then MAX_REF else maxlen;
    hide Repeats;
    if maxlen > 16 {
      while len < 18
        invariant 2 <= len <= 18 && Repeats(data, ip, len + 1, ip - ref)
      {
        len := len + 1;
        if input[ref + len] != input[ip + len] { return; }
        OneRepeat(data, ip, len, ip - ref);
      }
    }
    len := len + 1;
    while len < maxlen && input[ref + len] == input[ip + len]
      invariant 3 <= len <= Limit(inLen - ip) && ip + len <= inLen && Repeats(data, ip, len, ip - ref)
    {
      OneRepeat(data, ip, len, ip - ref);
      len := len + 1;
    }
  }

  lemma ThreeSame(data: bytes, i: nat, dist: nat)
    requires dist <= i && i + 2 < |data|
    ensures Repeats(data, i, 3, dist) <==>
      data[i] == data[i - dist] && data[i + 1] == data[i + 1 - dist] && data[i + 2] == data[i + 2 - dist]
  {
    assert Repeats(data, i, 3, dist) ==> SameBack(data, i, dist) && SameBack(data, i + 1, dist) && SameBack(data, i + 2, dist);
  }

  lemma OneRepeat(data: bytes, i: nat, n: nat, dist: nat)
    requires Repeats(data, i, n, dist) && dist <= i && i + n < |data| && data[i + n] == data[i + n - dist]
    ensures Repeats(data, i, n + 1, dist)
  {
    assert SameBack(data, i + n, dist);
  }

  method EmitRef(output: array<byte>, op0: nat, off: nat, len: nat, ghost data: bytes, ghost ip: nat)
    returns (op: nat)
    requires off < MAX_OFF && 1 <= len <= 262 && off < ip && Repeats(data, ip, len + 2, off + 1)
    requires op0 + 3 <= output.Length
    requires Decode(output[..op0], [], |data|) == Decoded(data[..ip])
    modifies output
    ensures op == op0 + |RefToken(off, len)| <= op0 + 3
    ensures Decode(output[..op], [], |data|) == Decoded(data[..ip + len + 2])
  {
    ghost var before := output[..op0];
    op := op0;
    hide Decode, Repeats;
    if len < 7 {
      output[op] := off / 256 + len * 32;
      op := op + 1;
    } else {
      output[op] := off / 256 + 7 * 32;
      output[op + 1] := len - 7;
      op := op + 2;
    }
    output[op] := off % 256;
    op := op + 1;
    assert output[..op0] == before;
    assert output[..op] == before + RefToken(off, len);
    AppendRef(before, data, ip, off, len);
  }

  /** An address found in a slot is usable as a match for `ip`: it lies in the input, before
      `ip` and not too far, and three octets are the same. */
  ghost predicate Qualifies(data: bytes, basis: int, ref: u64, ip: nat) {
    && basis < ref < basis + ip && ip + 4 < |data| && basis + ip - ref - 1 < MAX_OFF
    && Repeats(data, ip, 3, basis + ip - ref)
  }

  method Matches(input: array<byte>, inLen: nat, basis: int, ref: u64, ip: nat) returns (found: bool)
    requires MAX_OFF <= basis && basis + input.Length <= TWO64 && ip < inLen <= input.Length
    ensures found <==> Qualifies(input[..inLen], basis, ref, ip)
  {
    var off := (basis + ip - ref as int - 1) % TWO64;
    found := off < MAX_OFF && ip + 4 < inLen && ref > basis;
    if ref > basis { AddressIs(basis, ref, ip); }
    if found {
      var r := ref - basis;
      found := input[r] == input[ip] && input[r + 1] == input[ip + 1] && input[r + 2] == input[ip + 2];
      ThreeSame(input[..inLen], ip, ip - r);
    }
  }

  /** The difference of addresses, wrapped to 64 bits, is small only if it was. */
  lemma AddressIs(basis: int, ref: u64, ip: nat)
    requires MAX_OFF <= basis && basis + ip <= TWO64 && ref > basis
    ensures (basis + ip - ref as int - 1) % TWO64 < MAX_OFF <==> ref < basis + ip && basis + ip - ref - 1 < MAX_OFF
    ensures ref < basis + ip ==> (basis + ip - ref as int - 1) % TWO64 == basis + ip - ref as int - 1
  {}

  /** Close the literal run, write the longest match of `ip0` with `ref`, open a run. */
  method EmitMatch(input: array<byte>, inLen: nat, ref: nat, ip0: nat,
                   output: array<byte>, outLen: nat, op0: nat, lit: nat, ghost data: bytes)
    returns (op: nat, ip: nat, ok: bool, ghost len: nat)
    requires input != output && inLen <= input.Length && outLen < output.Length
    requires data == input[..inLen] && Open(data, ip0, output, op0, lit) && op0 > 0
    requires ref < ip0 && ip0 - ref - 1 < MAX_OFF && ip0 + 4 < inLen && Repeats(data, ip0, 3, ip0 - ref)
    modifies output
    ensures ok <==> Written(op0, lit) + 4 < outLen
    ensures ok ==> Open(data, ip, output, op, 0) && op <= outLen && ip0 + 3 <= ip <= inLen
    ensures ok ==> Longest(data, ip0, ip0 - ref, len) && ip == ip0 + len && op == Written(op0, lit) + TokenSize(len) + 1
    ensures Tight(ip0, op0, lit) && ok ==> Tight(ip, op, 0)
  {
    hide Decode, Repeats;
    op := StopRun(output, op0, lit, data, ip0);
    ip, ok, len := ip0, op + 4 < outLen, 0;
    if ok {
      var n := MatchLength(input, inLen, ref, ip);
      op := EmitRef(output, op, ip - ref - 1, n - 2, data, ip);
      ip := ip + n;
      op := op + 1;
      len := n;
    }
  }

  function Three(a: byte, b: byte, c: byte): u32 { Mix(Pair(a, b), c) }

  function Four(a: byte, b: byte, c: byte, d: byte): u32 { Mix(Three(a, b, c), d) }

  /** What the encoder carries from one turn to the next. */
  datatype Enc = Enc(ip: nat, op: nat, lit: nat, hval: u32, htab: seq<u64>)

  ghost predicate InTurn(data: bytes, basis: int, idx: u32 -> int, s: Enc) {
    && s.ip + 2 < |data| && s.op > 0 && (forall h :: 0 <= idx(h) < |s.htab|) && MAX_OFF <= basis && basis + |data| <= TWO64
  }

  /** The address found in the slot of the octets at `s.ip`. */
  ghost function Found(data: bytes, basis: int, idx: u32 -> int, s: Enc): u64
    requires InTurn(data, basis, idx, s)
  {
    s.htab[idx(Mix(s.hval, data[s.ip + 2]))]
  }

  /** A match with the address `ref` is taken, as long as it may be; the table gets its last two
      positions, unless it ends the input. */
  ghost predicate Taken(data: bytes, basis: int, idx: u32 -> int, ref: u64, s: Enc, s': Enc, len: nat)
    requires InTurn(data, basis, idx, s) && Qualifies(data, basis, ref, s.ip)
  {
    && Longest(data, s.ip, basis + s.ip - ref, len)
    && s'.ip == s.ip + len && s'.op == Written(s.op, s.lit) + TokenSize(len) + 1 && s'.lit == 0
    && (if s'.ip + 2 < |data| then TwoEntered(data, basis, idx, s, s') else s'.hval == s.hval && s'.htab == s.htab)
  }

  ghost predicate TwoEntered(data: bytes, basis: int, idx: u32 -> int, s: Enc, s': Enc)
    requires 2 <= s'.ip && s'.ip + 2 < |data| && InTurn(data, basis, idx, s) && s'.ip >= s.ip
  {
    var e := s'.ip - 2;
    && s'.hval == Four(data[e], data[e + 1], data[e + 2], data[e + 3])
    && s'.htab == s.htab[idx(Three(data[e], data[e + 1], data[e + 2])) := basis + e][idx(s'.hval) := basis + e + 1]
  }

  /** One more literal. */
  ghost predicate Skipped(s: Enc, s': Enc) {
    && s'.ip == s.ip + 1 && s'.hval == s.hval && s'.htab == s.htab
    && s'.op == (if s.lit + 1 == MAX_LIT then s.op + 2 else s.op + 1)
    && s'.lit == (if s.lit + 1 == MAX_LIT then 0 else s.lit + 1)
  }

  /** The octets at `s.ip` are hashed and the table gets their position. */
  ghost function Entered(data: bytes, basis: int, idx: u32 -> int, s: Enc): (e: Enc)
    requires InTurn(data, basis, idx, s)
    ensures InTurn(data, basis, idx, e)
  {
    var h := Mix(s.hval, data[s.ip + 2]);
    s.(hval := h, htab := s.htab[idx(h) := basis + s.ip])
  }

  /** One turn: a match is taken exactly if the slot's address qualifies; else a literal. */
  ghost predicate Turned(data: bytes, basis: int, idx: u32 -> int, s: Enc, s': Enc, len: nat)
    requires InTurn(data, basis, idx, s)
  {
    var ref, e := Found(data, basis, idx, s), Entered(data, basis, idx, s);
    if Qualifies(data, basis, ref, s.ip) then Taken(data, basis, idx, ref, e, s', len) else Skipped(e, s')
  }

  /** There is room for what the turn writes. */
  ghost predicate Roomy(data: bytes, basis: int, idx: u32 -> int, outLen: nat, s: Enc)
    requires InTurn(data, basis, idx, s)
  {
    if Qualifies(data, basis, Found(data, basis, idx, s), s.ip) then Written(s.op, s.lit) + 4 < outLen else s.op < outLen
  }

  ghost predicate AllSame(data: bytes) { forall i :: 0 <= i < |data| ==> data[i] == data[0] }

  /** What is written for the last `r` of equal octets: references as long as they may be, and
      the octets too few for one. */
  function Rest(r: nat): (size: nat) {
    if r < 5 then WorstCase(r) else TokenSize(Limit(r)) + Rest(r - Limit(r))
  }

  /** What `n` equal octets are compressed to: with two literals before the first reference. */
  function SameSize(n: nat): (size: nat) { if n <= 6 then WorstCase(n) else 3 + Rest(n - 2) }

  lemma {:induction false} RestSmall(r: nat)
    ensures Rest(r) <= 3 * ((r + 263) / 264) + 3
    ensures r >= 5 ==> Rest(r) >= 2
    decreases r
  {
    if r > 266 {
      RestSmall(r - 264);
      assert Limit(r) == 264 && (r + 263) / 264 == (r - 264 + 263) / 264 + 1;
    } else if r >= 5 {
      assert r - Limit(r) <= 2 && Rest(r - Limit(r)) <= 3;
    }
  }

  /** Something is written. */
  lemma SameSizeLeast(n: nat)
    requires n > 0
    ensures SameSize(n) > 0
  {}

  /** Equal octets take at most three octets for each 264 begun and a constant. */
  lemma SameSizeSmall(n: nat)
    ensures SameSize(n) <= 3 * ((n + 263) / 264) + 6
    ensures n == 100 ==> SameSize(n) == 9
  {
    if n > 6 { RestSmall(n - 2); }
    RestIs(98);
    RestIs(2);
    BegunLess(n);
    hide Rest;
  }

  lemma RestIs(r: nat)
    ensures Rest(r) == if r < 5 then WorstCase(r) else TokenSize(Limit(r)) + Rest(r - Limit(r))
  {
    hide Limit, TokenSize, WorstCase;
  }

  lemma BegunLess(n: nat)
    ensures n > 2 ==> (n - 2 + 263) / 264 <= (n + 263) / 264
    ensures n <= 6 ==> WorstCase(n) <= 7
  {}

  /** Between two turns over equal octets: before the first match, between two matches, or over
      the last octets, for which there is no match. */
  ghost predicate Even(data: bytes, basis: int, idx: u32 -> int, s: Enc) {
    && s.ip <= |data| && data != [] && s.op > s.lit && (forall h :: 0 <= idx(h) < |s.htab|)
    && match Phase(|data|, s.ip)
       case 0 => EvenBegun(data, basis, idx, s)
       case 1 => EvenBetween(data, basis, idx, s)
       case _ => EvenLast(data, s)
  }

  ghost predicate EvenBegun(data: bytes, basis: int, idx: u32 -> int, s: Enc)
    requires data != [] && forall h :: 0 <= idx(h) < |s.htab|
  {
    && s.lit == s.ip && s.op == s.ip + 1 && s.hval == Before(data[0], s.ip)
    && (s.ip == 2 ==> s.htab[idx(s.hval)] as int == basis + 1)
  }

  ghost predicate EvenBetween(data: bytes, basis: int, idx: u32 -> int, s: Enc)
    requires data != [] && s.ip <= |data| && s.op > 0 && forall h :: 0 <= idx(h) < |s.htab|
  {
    && s.lit == 0 && s.op - 1 + Rest(|data| - s.ip) == SameSize(|data|) && s.hval == Before(data[0], 2)
    && s.htab[idx(s.hval)] as int == basis + s.ip - 1
  }

  ghost predicate EvenLast(data: bytes, s: Enc)
    requires s.ip <= |data| && s.op > s.lit
  {
    && (|data| <= 6 || s.ip >= 3) && |data| - s.ip + s.lit <= 6
    && s.op - s.lit - 1 + WorstCase(|data| - s.ip + s.lit) == SameSize(|data|)
  }

  function Phase(n: nat, ip: nat): nat { if n > 6 && ip < 3 then 0 else if n > 6 && ip + 5 <= n then 1 else 2 }

  /** The hash value on the way to the one of four octets `c`. */
  function Before(c: byte, ip: nat): u32 {
    if ip == 0 then Pair(c, c) else if ip == 1 then Three(c, c, c) else Four(c, c, c, c)
  }

  lemma BeforeIs(c: byte, ip: nat)
    ensures Before(c, ip) as int == c as int * (if ip == 0 then 257 else if ip == 1 then 65793 else 16843009)
  {
    MixSmall(Pair(c, c), c);
    MixSmall(Three(c, c, c), c);
    hide Mix;
  }

  lemma MixSmall(v: u32, b: byte)
    ensures v < 0x100_0000 ==> Mix(v, b) as int == v as int * 256 + b as int
  {}

  /** What is shifted out of the 32 bits is lost. */
  lemma MixLarge(v: u32, b: byte, out: nat, kept: nat)
    requires v as int * 256 == out * 0x1_0000_0000 + kept && kept < 0x1_0000_0000
    ensures Mix(v, b) as int == kept + b as int
  {}

  lemma MixAgain(c: byte, ip: nat)
    ensures Mix(Before(c, ip), c) == Before(c, ip + 1)
  {
    BeforeIs(c, ip);
    BeforeIs(c, ip + 1);
    if ip >= 2 {
      MixLarge(Before(c, ip), c, c as int, c as int * 16843008);
    } else {
      MixSmall(Before(c, ip), c);
    }
    hide Mix, Before;
  }

  lemma EvenStart(data: bytes, basis: int, idx: u32 -> int, htab: seq<u64>)
    requires data != [] && forall h :: 0 <= idx(h) < |htab|
    ensures |data| >= 2 && AllSame(data) ==> Even(data, basis, idx, Enc(0, 1, 0, Pair(data[0], data[1]), htab))
  {}

  /** Over equal octets a slot qualifies exactly by its address and by what is left. */
  lemma SameQualifies(data: bytes, basis: int, ref: u64, ip: nat)
    requires AllSame(data) && ip + 2 < |data|
    ensures Qualifies(data, basis, ref, ip) <==> basis < ref < basis + ip && ip + 4 < |data| && basis + ip - ref - 1 < MAX_OFF
  {
    if basis < ref < basis + ip { ThreeSame(data, ip, basis + ip - ref); }
  }

  /** Over equal octets the longest match is as long as it may be. */
  lemma SameLongest(data: bytes, ip: nat, dist: nat, len: nat)
    requires AllSame(data) && Longest(data, ip, dist, len)
    ensures len == Limit(|data| - ip)
  {}

  lemma SameFour(data: bytes, e: nat)
    requires AllSame(data) && e + 3 < |data|
    ensures Four(data[e], data[e + 1], data[e + 2], data[e + 3]) == Before(data[0], 2)
  {}

  lemma EvenHash(data: bytes, basis: int, idx: u32 -> int, s: Enc)
    requires AllSame(data) && InTurn(data, basis, idx, s) && Even(data, basis, idx, s) && Phase(|data|, s.ip) < 2
    ensures Entered(data, basis, idx, s).hval == Before(data[0], s.ip + 1)
    ensures s.ip >= 2 ==> Entered(data, basis, idx, s).hval == s.hval
  {
    MixAgain(data[0], s.ip);
    assert data[s.ip + 2] == data[0];
    hide Mix, Pair, Three, Four, Before;
  }

  /** The octets to go when a match is taken, and what is written before it. */
  lemma EvenWritten(data: bytes, basis: int, idx: u32 -> int, s: Enc)
    requires InTurn(data, basis, idx, s) && Even(data, basis, idx, s)
    requires Phase(|data|, s.ip) == 1 || (Phase(|data|, s.ip) == 0 && s.ip == 2)
    ensures |data| >= s.ip + 5 && Written(s.op, s.lit) + Rest(|data| - s.ip) == SameSize(|data|)
  {
    hide Rest, Limit, Before;
  }

  /** A match is found exactly after two octets and between two matches, one octet back. */
  lemma EvenMatches(data: bytes, basis: int, idx: u32 -> int, s: Enc)
    requires AllSame(data) && InTurn(data, basis, idx, s) && Even(data, basis, idx, s)
    ensures var ref := Found(data, basis, idx, s);
      && (Qualifies(data, basis, ref, s.ip) <==> Phase(|data|, s.ip) == 1 || (Phase(|data|, s.ip) == 0 && s.ip == 2))
      && (Qualifies(data, basis, ref, s.ip) ==> ref as int == basis + s.ip - 1)
  {
    var ref := Found(data, basis, idx, s);
    SameQualifies(data, basis, ref, s.ip);
    if Phase(|data|, s.ip) < 2 && s.ip >= 2 {
      EvenHash(data, basis, idx, s);
      assert ref == s.htab[idx(s.hval)];
    }
    hide Qualifies, AllSame, Mix, Pair, Three, Four, Before, Rest, SameSize, WorstCase;
  }

  lemma EvenTaken(data: bytes, basis: int, idx: u32 -> int, ref: u64, s: Enc, s': Enc, len: nat)
    requires AllSame(data) && InTurn(data, basis, idx, s) && Qualifies(data, basis, ref, s.ip)
    requires Taken(data, basis, idx, ref, s, s', len) && s.ip >= 2 && |data| >= s.ip + 5
    requires Written(s.op, s.lit) + Rest(|data| - s.ip) == SameSize(|data|)
    ensures Even(data, basis, idx, s')
  {
    SameLongest(data, s.ip, basis + s.ip - ref, len);
    if s'.ip + 2 < |data| { SameFour(data, s'.ip - 2); }
    assert Rest(|data| - s.ip) == TokenSize(len) + Rest(|data| - s'.ip);
    hide Longest, Repeats, Qualifies, AllSame, Mix, Pair, Three, Four, Before, SameSize, Rest, Limit;
    if s'.ip + 5 <= |data| {
      assert EvenBetween(data, basis, idx, s');
    } else {
      assert Rest(|data| - s'.ip) == WorstCase(|data| - s'.ip) by { RestLast(|data| - s'.ip); }
      assert EvenLast(data, s');
    }
  }

  lemma RestLast(r: nat)
    requires r < 5
    ensures Rest(r) == WorstCase(r)
  {}

  lemma EvenSkipped(data: bytes, basis: int, idx: u32 -> int, s: Enc, e: Enc, s': Enc)
    requires InTurn(data, basis, idx, s) && Even(data, basis, idx, s) && e == Entered(data, basis, idx, s)
    requires Phase(|data|, s.ip) == 2 || (Phase(|data|, s.ip) == 0 && s.ip < 2 && e.hval == Before(data[0], s.ip + 1))
    requires Skipped(e, s')
    ensures Even(data, basis, idx, s')
  {
    hide Mix, Pair, Three, Four, Before, SameSize, Rest, Limit, WorstCase;
    var n := |data|;
    assert s'.ip == s.ip + 1 <= n && s.lit < 7;
    assert s'.op - s'.lit == s.op - s.lit && n - s'.ip + s'.lit == n - s.ip + s.lit;
    if Phase(n, s.ip) == 2 {
      assert Phase(n, s'.ip) == 2;
      assert EvenLast(data, s');
    } else {
      assert Phase(n, s'.ip) == 0;
      assert s'.htab[idx(s'.hval)] as int == basis + s.ip;
      assert EvenBegun(data, basis, idx, s');
    }
  }

  lemma EvenTurn(data: bytes, basis: int, idx: u32 -> int, s: Enc, s': Enc, len: nat)
    requires AllSame(data) && InTurn(data, basis, idx, s) && Even(data, basis, idx, s)
    requires Turned(data, basis, idx, s, s', len)
    ensures Even(data, basis, idx, s')
  {
    var ref, e := Found(data, basis, idx, s), Entered(data, basis, idx, s);
    EvenMatches(data, basis, idx, s);
    if Phase(|data|, s.ip) < 2 { EvenHash(data, basis, idx, s); }
    hide Qualifies, AllSame, Mix, Pair, Three, Four, Before, SameSize, Rest, Limit, Longest, Taken, Skipped, Even;
    if Qualifies(data, basis, ref, s.ip) {
      EvenWritten(data, basis, idx, s);
      EvenTaken(data, basis, idx, ref, e, s', len);
    } else {
      EvenSkipped(data, basis, idx, s, e, s');
    }
  }

  /** So much room is enough for equal octets. */
  lemma EvenRoom(data: bytes, basis: int, idx: u32 -> int, outLen: nat, s: Enc)
    requires Even(data, basis, idx, s) && outLen >= SameSize(|data|) + 4
    ensures AllSame(data) && InTurn(data, basis, idx, s) ==> Roomy(data, basis, idx, outLen, s)
    ensures s.ip + 2 >= |data| ==> s.op + 3 <= outLen
  {
    RestSmall(|data| - s.ip);
    if |data| > 6 { RestSmall(|data| - 2); }
    if AllSame(data) && InTurn(data, basis, idx, s) {
      SameQualifies(data, basis, Found(data, basis, idx, s), s.ip);
    }
  }

  lemma EvenEnd(data: bytes, basis: int, idx: u32 -> int, s: Enc)
    requires Even(data, basis, idx, s) && s.ip + 2 >= |data|
    ensures s.op - s.lit - 1 + WorstCase(s.lit + |data| - s.ip) == SameSize(|data|)
  {}

  /** Enter the last two positions of a match into the table. */
  method EnterTwo(input: array<byte>, end: nat, htab: array<u64>, basis: int, idx: u32 -> int) returns (hval: u32)
    requires 2 <= end <= input.Length - 2 && 0 <= basis && basis + input.Length <= TWO64
    requires forall h :: 0 <= idx(h) < htab.Length
    modifies htab
    ensures hval == Four(input[end - 2], input[end - 1], input[end], input[end + 1])
    ensures htab[..] == old(htab[..])[idx(Three(input[end - 2], input[end - 1], input[end])) := basis + end - 2][idx(hval) := basis + end - 1]
  {
    var ip := end - 2;
    hval := Pair(input[ip], input[ip + 1]);
    hval := Mix(hval, input[ip + 2]);
    htab[idx(hval)] := basis + ip;
    ip := ip + 1;
    hval := Mix(hval, input[ip + 2]);
    htab[idx(hval)] := basis + ip;
  }

  /** Between two turns of the encoder's loop. */
  ghost predicate Encoding(data: bytes, ip: nat, out: array<byte>, op: nat, outLen: nat, lit: nat)
    reads out
  {
    && Open(data, ip, out, op, lit) && Tight(ip, op, lit) && (AllDistinct(data) ==> Literals(ip, op, lit))
    && lit < MAX_LIT && outLen < out.Length && op <= outLen + 1 && (lit > 0 ==> op <= outLen)
  }

  lemma EncodingIs(data: bytes, ip: nat, out: array<byte>, op: nat, outLen: nat, lit: nat)
    ensures Encoding(data, ip, out, op, outLen, lit) ==>
      && Open(data, ip, out, op, lit) && Tight(ip, op, lit) && (AllDistinct(data) ==> Literals(ip, op, lit))
      && lit < MAX_LIT && outLen < out.Length && op <= outLen + 1 && (lit > 0 ==> op <= outLen)
    ensures Encoding(data, ip, out, op, outLen, lit) ==> lit < op <= out.Length && ip <= |data|
  {}

  lemma EncodingOf(data: bytes, ip: nat, out: array<byte>, op: nat, outLen: nat, lit: nat)
    requires Open(data, ip, out, op, lit) && Tight(ip, op, lit) && (AllDistinct(data) ==> Literals(ip, op, lit))
    requires lit < MAX_LIT && outLen < out.Length && op <= outLen + 1 && (lit > 0 ==> op <= outLen)
    ensures Encoding(data, ip, out, op, outLen, lit)
  {}

  /** Whenever the encoder gives up, the output was not long enough. */
  lemma GaveUp(n: nat, ip: nat, op: nat, lit: nat, outLen: nat)
    requires Tight(ip, op, lit) && lit < op && ip <= n
    ensures ip < n && op >= outLen ==> outLen < Enough(n)
    ensures ip + 4 < n && Written(op, lit) + 4 >= outLen ==> outLen < Enough(n)
    ensures op + 3 > outLen ==> outLen < Enough(n)
  {}

  lemma NextLiteral(ip: nat, op: nat, lit: nat)
    requires Literals(ip, op, lit)
    ensures Literals(ip + 1, if lit + 1 == MAX_LIT then op + 2 else op + 1, if lit + 1 == MAX_LIT then 0 else lit + 1)
  {}

  lemma LiteralsEnd(n: nat, ip: nat, op: nat, lit: nat)
    requires Literals(ip, op, lit) && ip <= n
    ensures op - lit - 1 + WorstCase(lit + n - ip) == WorstCase(n)
  {}

  /** lzf_compress, on a table with any content and any hash function: what it returns decodes to
      the input. `htab` holds addresses, the input being at `basis`. */
  method Compress(input: array<byte>, inLen: nat, output: array<byte>, outLen: nat,
                  htab: array<u64>, basis: int, idx: u32 -> int)
    returns (k: nat)
    requires input != output && inLen <= input.Length && outLen < output.Length
    requires inLen == 0 || outLen == 0 || input.Length >= 2
    requires htab.Length == HSIZE && forall h :: 0 <= idx(h) < HSIZE
    requires MAX_OFF <= basis && basis + input.Length <= TWO64
    modifies output, htab
    ensures k <= outLen && k <= WorstCase(inLen)
    ensures k > 0 ==> Decode(output[..k], [], inLen) == Decoded(input[..inLen])
    ensures Within104(inLen) ==> 100 * k < 104 * inLen
    ensures inLen > 0 && outLen >= Enough(inLen) ==> k > 0
    ensures AllDistinct(input[..inLen]) ==> k == 0 || k == WorstCase(inLen)
    ensures outLen >= Enough(inLen) && AllDistinct(input[..inLen]) ==> k == WorstCase(inLen)
    ensures inLen > 0 && AllSame(input[..inLen]) ==> k == 0 || k == SameSize(inLen)
    ensures inLen > 0 && AllSame(input[..inLen]) && outLen >= SameSize(inLen) + 4 ==> k == SameSize(inLen)
  {
    PromiseKept(inLen);
    assert Enough(inLen) > 0 && (inLen == 0 ==> !Within104(inLen) && WorstCase(inLen) == 0);
    assert htab.Length == HSIZE;
    hide *;
    if inLen == 0 || outLen == 0 { return 0; }
    ghost var data := input[..inLen];
    var ip: nat, op: nat, lit: nat := 0, 1, 0;
    var hval := Pair(input[ip], input[ip + 1]);
    StartEncoding(data, output, outLen);
    StartSame(input, inLen, basis, idx, htab[..]);
    while ip < inLen - 2
      invariant input[..inLen] == data && Encoding(data, ip, output, op, outLen, lit) && ip <= inLen && op > 0
      invariant AllSame(data) ==> Even(data, basis, idx, Enc(ip, op, lit, hval, htab[..]))
      decreases inLen - ip
    {
      var ok;
      ghost var len, s := 0, Enc(ip, op, lit, hval, htab[..]);
      ok, hval, ip, op, lit, len := Turn(input, inLen, output, outLen, htab, basis, idx, hval, ip, op, lit, data);
      OnSame(data, basis, idx, outLen, s, Enc(ip, op, lit, hval, htab[..]), len, ok);
      if !ok { return 0; }
    }
    EncodingIs(data, ip, output, op, outLen, lit);
    GaveUp(inLen, ip, op, lit, outLen);
    EndSame(data, basis, idx, outLen, Enc(ip, op, lit, hval, htab[..]));
    if op + 3 > outLen { return 0; }
    assert MAX_LIT > lit;
    k := Finish(input, inLen, ip, output, outLen, op, lit, data);
  }

  lemma StartSame(input: array<byte>, n: nat, basis: int, idx: u32 -> int, htab: seq<u64>)
    requires 0 < n <= input.Length && input.Length >= 2 && forall h :: 0 <= idx(h) < |htab|
    ensures AllSame(input[..n]) ==> Even(input[..n], basis, idx, Enc(0, 1, 0, Pair(input[0], input[1]), htab))
  {
    if n >= 2 {
      assert input[..n][0] == input[0] && input[..n][1] == input[1];
      EvenStart(input[..n], basis, idx, htab);
    }
  }

  /** A turn of the loop over equal octets. */
  lemma OnSame(data: bytes, basis: int, idx: u32 -> int, outLen: nat, s: Enc, s': Enc, len: nat, ok: bool)
    requires InTurn(data, basis, idx, s) && (ok <==> Roomy(data, basis, idx, outLen, s))
    requires ok ==> Turned(data, basis, idx, s, s', len)
    requires AllSame(data) ==> Even(data, basis, idx, s)
    ensures AllSame(data) && outLen >= SameSize(|data|) + 4 ==> ok
    ensures AllSame(data) && ok ==> Even(data, basis, idx, s')
  {
    hide *;
    if AllSame(data) && outLen >= SameSize(|data|) + 4 { EvenRoom(data, basis, idx, outLen, s); }
    if AllSame(data) && ok { EvenTurn(data, basis, idx, s, s', len); }
  }

  lemma EndSame(data: bytes, basis: int, idx: u32 -> int, outLen: nat, s: Enc)
    requires s.ip + 2 >= |data| >= s.ip && s.op > s.lit && (AllSame(data) ==> Even(data, basis, idx, s))
    ensures AllSame(data) ==> s.op - s.lit - 1 + WorstCase(s.lit + |data| - s.ip) == SameSize(|data|)
    ensures AllSame(data) && outLen >= SameSize(|data|) + 4 ==> s.op + 3 <= outLen
  {
    hide *;
    if AllSame(data) {
      EvenEnd(data, basis, idx, s);
      if outLen >= SameSize(|data|) + 4 { EvenRoom(data, basis, idx, outLen, s); }
    }
  }

  lemma StartEncoding(data: bytes, out: array<byte>, outLen: nat)
    requires 0 < outLen < out.Length
    ensures Encoding(data, 0, out, 1, outLen, 0)
  {
    assert out[..0] == [] && data[..0] == [] && out[1..1] == [];
    hide AllDistinct;
  }

  /** One turn of the loop: a match, or one more literal. After a match that ends the input the
      loop is left without entering positions into the table. */
  method Turn(input: array<byte>, inLen: nat, output: array<byte>, outLen: nat, htab: array<u64>, basis: int, idx: u32 -> int,
              hval0: u32, ip0: nat, op0: nat, lit0: nat, ghost data: bytes)
    returns (ok: bool, hval: u32, ip: nat, op: nat, lit: nat, ghost len: nat)
    requires input != output && inLen <= input.Length && ip0 < inLen - 2 && data == input[..inLen]
    requires htab.Length == HSIZE && forall h :: 0 <= idx(h) < HSIZE
    requires MAX_OFF <= basis && basis + input.Length <= TWO64
    requires Encoding(data, ip0, output, op0, outLen, lit0) && op0 > 0
    modifies output, htab
    ensures ok ==> Encoding(data, ip, output, op, outLen, lit) && ip0 < ip <= inLen && op > 0
    ensures !ok ==> outLen < Enough(inLen)
    ensures InTurn(data, basis, idx, Enc(ip0, op0, lit0, hval0, old(htab[..])))
    ensures ok <==> Roomy(data, basis, idx, outLen, Enc(ip0, op0, lit0, hval0, old(htab[..])))
    ensures ok ==> Turned(data, basis, idx, Enc(ip0, op0, lit0, hval0, old(htab[..])), Enc(ip, op, lit, hval, htab[..]), len)
  {
    ghost var s := Enc(ip0, op0, lit0, hval0, htab[..]);
    EncodingIs(data, ip0, output, op0, outLen, lit0);
    GaveUp(inLen, ip0, op0, lit0, outLen);
    TurnFacts(data, basis, idx, s);
    Apart(output, htab);
    assert HSIZE == 65536 && basis >= 0;
    hide *;
    ip, op, lit, len := ip0, op0, lit0, 0;
    assert input[ip + 2] == data[ip + 2];
    hval := Mix(hval0, input[ip + 2]);
    var slot := idx(hval);
    var ref := htab[slot];
    htab[slot] := basis + ip;
    assert htab[..] == s.htab[slot := basis + ip];
    ghost var e := Enc(ip, op, lit, hval, htab[..]);
    var found := Matches(input, inLen, basis, ref, ip);
    TurnIs(data, basis, idx, outLen, s, e, ref);
    if found {
      ok, hval, ip, op, lit, len := TakeMatch(input, inLen, output, outLen, htab, basis, idx, ref, hval, ip, op, lit, data);
    } else {
      ok := op < outLen;
      if ok {
        op, ip, lit := OneMore(input, ip, output, op, outLen, lit, data);
        SkippedIs(e, Enc(ip, op, lit, hval, htab[..]));
      }
    }
    TurnedIs(data, basis, idx, s, e, Enc(ip, op, lit, hval, htab[..]), len, ref);
  }

  lemma TurnFacts(data: bytes, basis: int, idx: u32 -> int, s: Enc)
    ensures InTurn(data, basis, idx, s) <==>
      s.ip + 2 < |data| && s.op > 0 && (forall h :: 0 <= idx(h) < |s.htab|) && MAX_OFF <= basis && basis + |data| <= TWO64
  {}

  /** What the turn is, once the position is in the table. */
  lemma TurnIs(data: bytes, basis: int, idx: u32 -> int, outLen: nat, s: Enc, e: Enc, ref: u64)
    requires InTurn(data, basis, idx, s) && e.hval == Mix(s.hval, data[s.ip + 2])
    requires ref == s.htab[idx(e.hval)] && e == s.(hval := e.hval, htab := s.htab[idx(e.hval) := basis + s.ip])
    ensures e == Entered(data, basis, idx, s) && ref == Found(data, basis, idx, s)
    ensures Roomy(data, basis, idx, outLen, s) <==>
      if Qualifies(data, basis, ref, s.ip) then Written(s.op, s.lit) + 4 < outLen else s.op < outLen
  {
    hide Qualifies, Written, Mix;
  }

  lemma TurnedIs(data: bytes, basis: int, idx: u32 -> int, s: Enc, e: Enc, s': Enc, len: nat, ref: u64)
    requires InTurn(data, basis, idx, s) && e == Entered(data, basis, idx, s) && ref == Found(data, basis, idx, s)
    ensures Turned(data, basis, idx, s, s', len) <==>
      if Qualifies(data, basis, ref, s.ip) then Taken(data, basis, idx, ref, e, s', len) else Skipped(e, s')
  {
    hide Qualifies, Mix, Taken, Skipped;
  }

  lemma SkippedIs(s: Enc, s': Enc)
    ensures Skipped(s, s') <==>
      && s'.ip == s.ip + 1 && s'.hval == s.hval && s'.htab == s.htab
      && s'.op == (if s.lit + 1 == MAX_LIT then s.op + 2 else s.op + 1)
      && s'.lit == (if s.lit + 1 == MAX_LIT then 0 else s.lit + 1)
  {}

  /** The match case of a turn. */
  method TakeMatch(input: array<byte>, inLen: nat, output: array<byte>, outLen: nat, htab: array<u64>, basis: int, idx: u32 -> int,
                   ref: u64, hval0: u32, ip0: nat, op0: nat, lit0: nat, ghost data: bytes)
    returns (ok: bool, hval: u32, ip: nat, op: nat, lit: nat, ghost len: nat)
    requires input != output && inLen <= input.Length && data == input[..inLen]
    requires MAX_OFF <= basis && basis + input.Length <= TWO64 && Encoding(data, ip0, output, op0, outLen, lit0) && op0 > 0
    requires InTurn(data, basis, idx, Enc(ip0, op0, lit0, hval0, htab[..])) && Qualifies(data, basis, ref, ip0)
    modifies output, htab
    ensures ok <==> Written(op0, lit0) + 4 < outLen
    ensures !ok ==> outLen < Enough(inLen)
    ensures ok ==> Encoding(data, ip, output, op, outLen, lit) && ip0 < ip <= inLen && op > 0
    ensures ok ==> Taken(data, basis, idx, ref, Enc(ip0, op0, lit0, hval0, old(htab[..])), Enc(ip, op, lit, hval, htab[..]), len)
  {
    ghost var e := Enc(ip0, op0, lit0, hval0, htab[..]);
    EncodingIs(data, ip0, output, op0, outLen, lit0);
    GaveUp(inLen, ip0, op0, lit0, outLen);
    TurnFacts(data, basis, idx, e);
    MatchIs(data, basis, ref, ip0);
    Apart(output, htab);
    hide *;
    hval, lit := hval0, 0;
    op, ip, ok, len := EmitMatch(input, inLen, ref - basis, ip0, output, outLen, op0, lit0, data);
    if !ok { return; }
    EncodingOf(data, ip, output, op, outLen, lit);
    assert e.htab == htab[..];
    if ip < inLen - 2 {
      hval := EnterMatch(input, ip, op, htab, basis, idx, data, e);
    }
    TakenIs(data, basis, idx, ref, e, Enc(ip, op, lit, hval, htab[..]), len);
  }

  method EnterMatch(input: array<byte>, ip: nat, op: nat, htab: array<u64>, basis: int, idx: u32 -> int, ghost data: bytes, ghost e: Enc)
    returns (hval: u32)
    requires 2 <= ip && ip + 2 < |data| <= input.Length && data == input[..|data|] && e.ip <= ip && basis + input.Length <= TWO64
    requires InTurn(data, basis, idx, e) && e.htab == htab[..]
    modifies htab
    ensures TwoEntered(data, basis, idx, e, Enc(ip, op, 0, hval, htab[..]))
  {
    TurnFacts(data, basis, idx, e);
    assert MAX_OFF >= 0;
    hide *;
    OctetsAt(input, data, ip);
    hval := EnterTwo(input, ip, htab, basis, idx);
    EnteredIs(data, basis, idx, e, Enc(ip, op, 0, hval, htab[..]));
  }

  lemma OctetsAt(input: array<byte>, data: bytes, ip: nat)
    requires 2 <= ip && ip + 2 < |data| <= input.Length && data == input[..|data|]
    ensures input[ip - 2] == data[ip - 2] && input[ip - 1] == data[ip - 1] && input[ip] == data[ip] && input[ip + 1] == data[ip + 1]
  {}

  /** The output is not the table: their elements have different types. */
  lemma Apart(output: array<byte>, htab: array<u64>)
    ensures (output as object) != htab
  {}

  lemma MatchIs(data: bytes, basis: int, ref: u64, ip: nat)
    requires Qualifies(data, basis, ref, ip)
    ensures basis < ref < basis + ip && ip + 4 < |data| && basis + ip - ref - 1 < MAX_OFF && Repeats(data, ip, 3, basis + ip - ref)
    ensures !AllDistinct(data)
  {
    MatchRepeats(data, ip, basis + ip - ref);
  }

  lemma TakenIs(data: bytes, basis: int, idx: u32 -> int, ref: u64, s: Enc, s': Enc, len: nat)
    requires InTurn(data, basis, idx, s) && Qualifies(data, basis, ref, s.ip) && s'.ip == s.ip + len && len >= 2
    ensures Taken(data, basis, idx, ref, s, s', len) <==>
      && Longest(data, s.ip, basis + s.ip - ref, len) && s'.op == Written(s.op, s.lit) + TokenSize(len) + 1 && s'.lit == 0
      && (if s'.ip + 2 < |data| then TwoEntered(data, basis, idx, s, s') else s'.hval == s.hval && s'.htab == s.htab)
  {
    hide Longest, TwoEntered, Written, TokenSize;
  }

  lemma EnteredIs(data: bytes, basis: int, idx: u32 -> int, s: Enc, s': Enc)
    requires 2 <= s'.ip && s'.ip + 2 < |data| && InTurn(data, basis, idx, s) && s'.ip >= s.ip
    requires var e := s'.ip - 2;
      && s'.hval == Four(data[e], data[e + 1], data[e + 2], data[e + 3])
      && s'.htab == s.htab[idx(Three(data[e], data[e + 1], data[e + 2])) := basis + e][idx(s'.hval) := basis + e + 1]
    ensures TwoEntered(data, basis, idx, s, s')
  {
    hide Three, Four;
  }

  /** The literal case of a turn. */
  method OneMore(input: array<byte>, ip0: nat, output: array<byte>, op0: nat, outLen: nat, lit0: nat, ghost data: bytes)
    returns (op: nat, ip: nat, lit: nat)
    requires input != output && ip0 < |data| <= input.Length && input[..|data|] == data && op0 < outLen
    requires Encoding(data, ip0, output, op0, outLen, lit0)
    modifies output
    ensures ip == ip0 + 1 && op > 0 && Encoding(data, ip, output, op, outLen, lit)
    ensures op == (if lit0 + 1 == MAX_LIT then op0 + 2 else op0 + 1) && lit == (if lit0 + 1 == MAX_LIT then 0 else lit0 + 1)
  {
    EncodingIs(data, ip0, output, op0, outLen, lit0);
    if AllDistinct(data) { NextLiteral(ip0, op0, lit0); }
    assert MAX_LIT == 32;
    hide Decode, AllDistinct, Tight, Literals, Open, Encoding;
    op, ip, lit := CopyOne(input, ip0, output, op0, lit0, data);
    EncodingOf(data, ip, output, op, outLen, lit);
  }

  /** At most two octets are left: copy them and close the last run. */
  method Finish(input: array<byte>, inLen: nat, ip0: nat, output: array<byte>, outLen: nat,
                op0: nat, lit0: nat, ghost data: bytes)
    returns (k: nat)
    requires input != output && inLen <= input.Length && outLen < output.Length
    requires data == input[..inLen] && Open(data, ip0, output, op0, lit0)
    requires inLen <= ip0 + 2 && op0 + 3 <= outLen && lit0 < MAX_LIT && Tight(ip0, op0, lit0) && lit0 < op0 && ip0 <= inLen
    modifies output
    ensures k <= outLen && k <= WorstCase(inLen) && (inLen > 0 ==> k > 0)
    ensures k == op0 - lit0 - 1 + WorstCase(lit0 + inLen - ip0)
    ensures Decode(output[..k], [], inLen) == Decoded(input[..inLen])
    ensures Literals(ip0, op0, lit0) ==> k == WorstCase(inLen)
  {
    assert data[..|data|] == data;
    OpenIs(data, ip0, output, op0, lit0);
    ghost var size := op0 - lit0 - 1 + WorstCase(lit0 + inLen - ip0);
    EndingOf(data, ip0, output, op0, lit0, outLen, size);
    LastSize(inLen, ip0, op0, lit0);
    if Literals(ip0, op0, lit0) { LiteralsEnd(inLen, ip0, op0, lit0); }
    hide *;
    var op, lit := CopyLast(input, inLen, ip0, output, outLen, op0, lit0, data, size);
    EndingIs(data, inLen, output, op, lit, outLen, size);
    OneRun(lit);
    k := StopRun(output, op, lit, data, inLen);
  }

  lemma OpenIs(data: bytes, ip: nat, out: array<byte>, op: nat, lit: nat)
    ensures Open(data, ip, out, op, lit) ==> lit < op && lit <= ip <= |data|
  {}

  /** The last run, closed, takes a header more than its octets, unless it is empty. */
  lemma OneRun(lit: nat)
    requires lit < 32
    ensures WorstCase(lit) == if lit == 0 then 0 else lit + 1
  {}

  lemma SizeStays(lit: nat, left: nat)
    requires lit < 32 && left > 0
    ensures lit + 1 == 32 ==> WorstCase(lit + left) == 33 + WorstCase(left - 1)
  {}

  /** The loop over the last octets. */
  method CopyLast(input: array<byte>, inLen: nat, ip0: nat, output: array<byte>, outLen: nat,
                  op0: nat, lit0: nat, ghost data: bytes, ghost size: nat)
    returns (op: nat, lit: nat)
    requires input != output && ip0 <= inLen <= input.Length && data == input[..inLen]
    requires Ending(data, ip0, output, op0, lit0, outLen, size)
    modifies output
    ensures Ending(data, inLen, output, op, lit, outLen, size)
  {
    hide *;
    var ip: nat;
    ip, op, lit := ip0, op0, lit0;
    while ip < inLen
      invariant ip <= inLen && input[..inLen] == data && Ending(data, ip, output, op, lit, outLen, size)
    {
      op, ip, lit := EndOne(input, ip, output, op, lit, outLen, data, size);
    }
  }

  /** Between two of the last octets: there is room for the rest of them. */
  ghost predicate Ending(data: bytes, ip: nat, out: array<byte>, op: nat, lit: nat, outLen: nat, size: nat)
    reads out
  {
    && Open(data, ip, out, op, lit) && Tight(ip, op, lit) && size == op - lit - 1 + WorstCase(lit + |data| - ip)
    && lit < MAX_LIT && |data| <= ip + 2
    && outLen < out.Length && op + (|data| - ip) + (if lit + (|data| - ip) >= MAX_LIT then 1 else 0) <= outLen
  }

  lemma EndingOf(data: bytes, ip: nat, out: array<byte>, op: nat, lit: nat, outLen: nat, size: nat)
    requires Open(data, ip, out, op, lit) && Tight(ip, op, lit) && lit < MAX_LIT && outLen < out.Length
    requires |data| <= ip + 2 && op + 3 <= outLen && size == op - lit - 1 + WorstCase(lit + |data| - ip)
    ensures Ending(data, ip, out, op, lit, outLen, size) && ip <= |data|
  {}

  lemma EndingIs(data: bytes, ip: nat, out: array<byte>, op: nat, lit: nat, outLen: nat, size: nat)
    ensures Ending(data, ip, out, op, lit, outLen, size) ==>
      && Open(data, ip, out, op, lit) && Tight(ip, op, lit) && size == op - lit - 1 + WorstCase(lit + |data| - ip)
      && lit < op <= outLen < out.Length && lit < MAX_LIT == 32 && |data| <= ip + 2
      && op + (|data| - ip) + (if lit + (|data| - ip) >= 32 then 1 else 0) <= outLen
  {}

  method EndOne(input: array<byte>, ip0: nat, output: array<byte>, op0: nat, lit0: nat, outLen: nat, ghost data: bytes, ghost size: nat)
    returns (op: nat, ip: nat, lit: nat)
    requires input != output && ip0 < |data| <= input.Length && input[..|data|] == data
    requires Ending(data, ip0, output, op0, lit0, outLen, size)
    modifies output
    ensures ip == ip0 + 1 && Ending(data, ip, output, op, lit, outLen, size)
  {
    EndingIs(data, ip0, output, op0, lit0, outLen, size);
    SizeStays(lit0, |data| - ip0);
    hide *;
    op, ip, lit := CopyOne(input, ip0, output, op0, lit0, data);
    EndingSome(data, ip, output, op, lit, outLen, size);
  }

  lemma EndingSome(data: bytes, ip: nat, out: array<byte>, op: nat, lit: nat, outLen: nat, size: nat)
    requires Open(data, ip, out, op, lit) && Tight(ip, op, lit) && lit < MAX_LIT && outLen < out.Length
    requires |data| <= ip + 2 && op + (|data| - ip) + (if lit + (|data| - ip) >= 32 then 1 else 0) <= outLen
    requires size == op - lit - 1 + WorstCase(lit + |data| - ip)
    ensures Ending(data, ip, out, op, lit, outLen, size)
  {}

  lemma LastSize(n: nat, ip: nat, op: nat, lit: nat)
    requires Tight(ip, op, lit) && lit < op && ip <= n
    ensures op - lit - 1 + WorstCase(lit + n - ip) <= WorstCase(n)
  {}

  /** One more literal octet; a full run is closed and a new one opened. */
  method CopyOne(input: array<byte>, ip0: nat, output: array<byte>, op0: nat, lit0: nat, ghost data: bytes)
    returns (op: nat, ip: nat, lit: nat)
    requires input != output && lit0 < MAX_LIT && op0 < output.Length
    requires ip0 < |data| <= input.Length && input[..|data|] == data
    requires Open(data, ip0, output, op0, lit0)
    modifies output
    ensures ip == ip0 + 1
    ensures op == if lit0 + 1 == MAX_LIT then op0 + 2 else op0 + 1
    ensures lit == if lit0 + 1 == MAX_LIT then 0 else lit0 + 1
    ensures op <= output.Length ==> Open(data, ip, output, op, lit)
    ensures Tight(ip0, op0, lit0) ==> Tight(ip, op, lit)
  {
    op, ip, lit := op0 + 1, ip0 + 1, lit0 + 1;
    assert MAX_LIT == 32;
    if Tight(ip0, op0, lit0) { TightNext(ip0, op0, lit0); }
    hide *;
    PutLiteral(input, ip0, output, op0, lit0, data);
    if lit == MAX_LIT {
      op := NextRun(output, op, lit, data, ip);
      lit := 0;
    }
  }

  method NextRun(output: array<byte>, op0: nat, lit: nat, ghost data: bytes, ghost ip: nat) returns (op: nat)
    requires Open(data, ip, output, op0, lit) && lit > 0 && ip <= |data|
    modifies output
    ensures op == op0 + 1 && (op <= output.Length ==> Open(data, ip, output, op, 0))
  {
    hide *;
    op := StopRun(output, op0, lit, data, ip);
    op := op + 1;
    RunOpened(output, op, data, ip);
  }

  lemma TightNext(ip: nat, op: nat, lit: nat)
    requires Tight(ip, op, lit) && lit < 32
    ensures if lit + 1 == 32 then Tight(ip + 1, op + 2, 0) else Tight(ip + 1, op + 1, lit + 1)
  {}

  method PutLiteral(input: array<byte>, ip: nat, output: array<byte>, op: nat, lit: nat, ghost data: bytes)
    requires input != output && lit < MAX_LIT && op < output.Length
    requires ip < |data| <= input.Length && input[..|data|] == data
    requires Open(data, ip, output, op, lit)
    modifies output
    ensures Open(data, ip + 1, output, op + 1, lit + 1)
  {
    hide Decode;
    ghost var before := output[..];
    assert before[op - lit..op] == output[op - lit..op] && before[..op - lit - 1] == output[..op - lit - 1];
    output[op] := input[ip];
    assert input[ip] == input[..|data|][ip];
    OneLiteral(before, output[..], data, ip, op, lit);
  }

  /** The run, one octet longer. */
  lemma OneLiteral(before: bytes, after: bytes, data: bytes, ip: nat, op: nat, lit: nat)
    requires |before| == |after| && op < |before| && ip < |data| && lit < op && lit <= ip
    requires after == before[op := data[ip]] && before[op - lit..op] == data[ip - lit..ip]
    ensures after[..op - lit - 1] == before[..op - lit - 1]
    ensures after[op - lit..op + 1] == data[ip - lit..ip + 1]
  {
    assert after[op - lit..op + 1] == before[op - lit..op] + [data[ip]];
    assert data[ip - lit..ip + 1] == data[ip - lit..ip] + [data[ip]];
  }

  lemma RunOpened(out: array<byte>, op: nat, data: bytes, ip: nat)
    requires 0 < op && ip <= |data| && (op <= out.Length ==> Decode(out[..op - 1], [], |data|) == Decoded(data[..ip]))
    ensures op <= out.Length ==> Open(data, ip, out, op, 0)
  {
    hide Decode;
  }
}
