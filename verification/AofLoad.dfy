/** aof.c, loadAppendOnlyFile: from the bytes of a log back to a dataset. */
module AofLoad {
  import opened Sequences
  import opened Bytes
  import opened Decimal
  import opened Resp
  import opened AofData

  const LINE_BUF := 128
  const MAX_ARG := 512 * 1024 * 1024

  datatype LoadResult = Loaded(data: Dataset) | NothingToLoad | Fatal

  /** Commands as the server logs them: counts and sizes that the protocol admits. */
  predicate Loggable(argv: Argv) {
    1 <= |argv| <= MAX_ARG && forall i :: 0 <= i < |argv| ==> |argv[i]| <= MAX_ARG
  }

  ghost predicate AllLoggable(cmds: seq<Argv>) { forall i :: 0 <= i < |cmds| ==> Loggable(cmds[i]) }

  function NoData(dbnum: nat): (d: Dataset)
    ensures |d| == dbnum
  {
    seq(dbnum, _ => map[])
  }

  /** fgets into a buffer of LINE_BUF bytes: `next` is the position after the line. */
  method Fgets(file: bytes, pos: nat) returns (next: nat)
    requires pos < |file|
    ensures pos < next <= |file| && next - pos < LINE_BUF
    ensures forall i :: pos <= i < next - 1 ==> file[i] != LF
    ensures next == |file| || next - pos == LINE_BUF - 1 || file[next - 1] == LF
  {
    next := pos;
    while next < |file| && next - pos < LINE_BUF - 1
      invariant pos <= next <= |file| && next - pos < LINE_BUF
      invariant forall i :: pos <= i < next ==> file[i] != LF
    {
      next := next + 1;
      if file[next - 1] == LF { return; }
    }
  }

  /** atoi and strtol, on the digits at `from`. */
  method Atoi(file: bytes, from: nat, end: nat) returns (v: int)
    requires from <= end <= |file|
    ensures forall n: nat, p :: from <= p < end && file[from..p] == Digits(n) && !IsDigit(file[p]) ==> v == n
  {
    var negative := from < end && file[from] == MINUS;
    var i := if negative then from + 1 else from;
    ghost var start := i;
    var u: nat := 0;
    assert file[start..i] == [];
    while i < end && IsDigit(file[i])
      invariant start <= i <= end && AllDigits(file[start..i]) && u == Decimal.Value(file[start..i])
    {
      DigitNext(file, start, i);
      hide Decimal.Value, AllDigits;
      u := u * 10 + (file[i] - ZERO);
      i := i + 1;
    }
    var r: int := u;
    v := if negative then -r else r;
    forall n: nat, p | from <= p < end && file[from..p] == Digits(n) && !IsDigit(file[p]) ensures v == n {
      DigitsEnd(file, from, p, n);
      DigitRun(file, start, i);
      assert i == p;
    }
  }

  lemma DigitRun(file: bytes, from: nat, p: nat)
    requires from <= p <= |file| && AllDigits(file[from..p])
    ensures forall k :: from <= k < p ==> IsDigit(file[k])
  {
    forall k | from <= k < p ensures IsDigit(file[k]) {
      assert file[k] == file[from..p][k - from];
    }
  }

  /** A printed number: what the digits are, and that there is one. */
  lemma DigitsEnd(file: bytes, from: nat, p: nat, n: nat)
    requires from <= p <= |file| && file[from..p] == Digits(n)
    ensures from < p && AllDigits(file[from..p]) && Decimal.Value(file[from..p]) == n && file[from] != MINUS
    ensures forall k :: from <= k < p ==> IsDigit(file[k])
  {
    ValueOfDigits(n);
    DigitRun(file, from, p);
  }

  /** Only a beginning is left of a text. */
  ghost predicate CutShort(part: bytes, whole: bytes) { |part| < |whole| && part == whole[..|part|] }

  /** A header without its end is read up to the end of the file. */
  lemma HeaderCut(file: bytes, pos: nat, prefix: byte, n: nat, next: nat)
    requires pos < next <= |file| && n <= MAX_ARG && CutShort(file[pos..], Line(prefix, n)) && prefix != LF
    requires next == |file| || next - pos == LINE_BUF - 1 || file[next - 1] == LF
    ensures next == |file|
  {
    var line, have := Line(prefix, n), file[pos..];
    PrintShort(n);
    NoLineFeed(prefix, n);
    assert forall i :: 0 <= i < |have| ==> have[i] == file[pos + i] && have[i] == line[i];
    assert have[next - 1 - pos] == file[next - 1];
  }

  lemma NoLineFeed(prefix: byte, n: nat)
    requires prefix != LF
    ensures var line := Line(prefix, n); forall i :: 0 <= i < |line| - 1 ==> line[i] != LF
  {
    var line := Line(prefix, n);
    ValueOfDigits(n);
    assert forall i :: 0 <= i < |Print(n)| ==> line[1 + i] == Print(n)[i] && IsDigit(Print(n)[i]);
    assert line[|line| - 2] == line[|line| - 2..][0] == CR;
  }

  /** A text cut short is cut in its first part, or that is whole and the second is cut short. */
  lemma CutParts(have: bytes, a: bytes, b: bytes) returns (rest: bytes)
    requires CutShort(have, a + b)
    ensures CutShort(have, a) || (have == a + rest && CutShort(rest, b))
  {
    rest := [];
    if |have| >= |a| {
      rest := have[|a|..];
      assert have[..|a|] == (a + b)[..|a|] == a;
      assert rest == (a + b)[|a|..|have|] == b[..|rest|];
      assert have == a + rest;
    } else {
      assert have == (a + b)[..|have|] == a[..|have|];
    }
  }

  /** A header line of the log, read back. */
  method ReadHeader(file: bytes, pos: nat, prefix: byte, ghost n: nat, ghost more: bytes)
    returns (ok: bool, v: int, next: nat)
    requires pos <= |file| && prefix != LF
    ensures next <= |file| && (ok ==> pos < next)
    ensures n <= MAX_ARG && file[pos..] == Line(prefix, n) + more ==> ok && v == n && file[next..] == more
    ensures n <= MAX_ARG && CutShort(file[pos..], Line(prefix, n)) && ok ==> next == |file|
    ensures pos < |file| && file[pos] != prefix ==> !ok
  {
    ok, v, next := false, 0, pos;
    if pos == |file| { return; }
    next := Fgets(file, pos);
    ghost var wf := n <= MAX_ARG && file[pos..] == Line(prefix, n) + more;
    if wf { HeaderRead(file, pos, prefix, n, more, next); }
    if n <= MAX_ARG && CutShort(file[pos..], Line(prefix, n)) { HeaderCut(file, pos, prefix, n, next); }
    hide Line, CutShort;
    if file[pos] != prefix { return; }
    v := Atoi(file, pos + 1, next);
    ok := true;
  }

  lemma HeaderRead(file: bytes, pos: nat, prefix: byte, n: nat, more: bytes, next: nat)
    requires pos < next <= |file| && n <= MAX_ARG && file[pos..] == Line(prefix, n) + more && prefix != LF
    requires forall i :: pos <= i < next - 1 ==> file[i] != LF
    requires next == |file| || next - pos == LINE_BUF - 1 || file[next - 1] == LF
    ensures file[pos] == prefix && next == pos + |Print(n)| + 3 && file[next..] == more
    ensures file[pos + 1..next - 2] == Digits(n) && !IsDigit(file[next - 2])
  {
    var line, have := Line(prefix, n), file[pos..];
    PrintShort(n);
    assert forall i :: 0 <= i < |have| ==> have[i] == file[pos + i];
    assert forall i :: 0 <= i < |line| ==> have[i] == line[i];
    assert forall i :: 0 <= i < |Print(n)| ==> line[1 + i] == Print(n)[i];
    assert line[|line| - 1] == line[|line| - 2..][1] == LF && line[|line| - 2] == line[|line| - 2..][0] == CR;
    assert forall i :: 0 <= i < |line| - 1 ==> line[i] != LF;
    assert have[|line| - 1] == file[pos + |line| - 1];
    assert next == pos + |line|;
    assert file[next..] == have[|line|..] == more;
    assert file[pos + 1..next - 2] == line[1..|line| - 2];
  }

  /** One argument: its header, its bytes, and the CR LF that is discarded. */
  method ReadArg(file: bytes, pos: nat, ghost arg: bytes, ghost more: bytes) returns (ok: bool, a: bytes, next: nat)
    requires pos <= |file|
    ensures next <= |file| && (ok ==> pos < next)
    ensures |arg| <= MAX_ARG && file[pos..] == Bulk(arg) + more ==> ok && a == arg && file[next..] == more
    ensures |arg| <= MAX_ARG && CutShort(file[pos..], Bulk(arg)) ==> !ok
    ensures pos < |file| && file[pos] != DOLLAR ==> !ok
  {
    ghost var wf := |arg| <= MAX_ARG && file[pos..] == Bulk(arg) + more;
    ghost var cut := |arg| <= MAX_ARG && CutShort(file[pos..], Bulk(arg));
    var len;
    a := [];
    ghost var tail := arg + CRLF + more;
    if wf {
      assert file[pos..] == Line(DOLLAR, |arg|) + tail;
    } else if cut {
      assert Bulk(arg) == Line(DOLLAR, |arg|) + (arg + CRLF);
      tail := CutParts(file[pos..], Line(DOLLAR, |arg|), arg + CRLF);
    }
    hide Line, Bulk;
    ok, len, next := ReadHeader(file, pos, DOLLAR, |arg|, tail);
    if wf { DataRead(file, next, arg, more); }
    assert cut && ok ==> next == |file| || (len == |arg| && file[next..] == tail && CutShort(tail, arg + CRLF));
    if !ok || len < 0 || next + len > |file| { return false, [], next; }
    a := file[next..next + len];
    next := next + len;
    if next + 2 > |file| { return false, a, next; }
    next := next + 2;
  }

  lemma ArgAhead(cmd: Argv, j: nat, more: bytes)
    requires j < |cmd|
    ensures Bulks(cmd[j..]) + more == Bulk(cmd[j]) + (Bulks(cmd[j + 1..]) + more)
    ensures Bulks(cmd[j..]) == Bulk(cmd[j]) + Bulks(cmd[j + 1..])
    ensures cmd[..j + 1] == cmd[..j] + [cmd[j]] && (Loggable(cmd) ==> |cmd[j]| <= MAX_ARG)
  {
    assert cmd[j..][0] == cmd[j] && cmd[j..][1..] == cmd[j + 1..];
    Assoc(Bulk(cmd[j]), Bulks(cmd[j + 1..]), more);
  }

  lemma DataRead(file: bytes, pos: nat, arg: bytes, more: bytes)
    requires pos <= |file| && file[pos..] == arg + CRLF + more
    ensures pos + |arg| + 2 <= |file| && file[pos..pos + |arg|] == arg && file[pos + |arg| + 2..] == more
  {
    var have := file[pos..];
    assert have[..|arg|] == arg && have[|arg| + 2..] == more;
    assert file[pos..pos + |arg|] == have[..|arg|] && file[pos + |arg| + 2..] == have[|arg| + 2..];
  }

  method ReadArgs(file: bytes, pos: nat, argc: nat, ghost cmd: Argv, ghost more: bytes)
    returns (ok: bool, argv: Argv, next: nat)
    requires pos <= |file|
    ensures pos <= next <= |file| && (ok ==> |argv| == argc)
    ensures Loggable(cmd) && argc == |cmd| && file[pos..] == Bulks(cmd) + more ==> ok && argv == cmd && file[next..] == more
    ensures Loggable(cmd) && argc == |cmd| && CutShort(file[pos..], Bulks(cmd)) ==> !ok
    ensures pos == |file| && argc > 0 ==> !ok
  {
    ghost var wf := Loggable(cmd) && argc == |cmd| && file[pos..] == Bulks(cmd) + more;
    ghost var cut := Loggable(cmd) && argc == |cmd| && CutShort(file[pos..], Bulks(cmd));
    ok, argv, next := true, [], pos;
    assert cmd[0..] == cmd;
    while |argv| < argc
      invariant pos <= next <= |file| && |argv| <= argc && ok && (argv != [] ==> pos < |file|)
      invariant cut ==> CutShort(file[next..], Bulks(cmd[|argv|..]))
      invariant wf ==> argv == cmd[..|argv|] && file[next..] == Bulks(cmd[|argv|..]) + more
    {
      ghost var j := |argv|;
      ghost var arg, rest := if wf then cmd[j] else [], if wf then Bulks(cmd[j + 1..]) + more else [];
      if wf {
        ArgAhead(cmd, j, more);
      } else if cut {
        ArgAhead(cmd, j, []);
        arg := cmd[j];
        rest := CutParts(file[next..], Bulk(arg), Bulks(cmd[j + 1..]));
      }
      hide Bulks, Bulk, Loggable, CutShort;
      var a;
      var at := next;
      ok, a, next := ReadArg(file, at, arg, rest);
      if !ok { return false, argv, at; }
      argv := argv + [a];
    }
    ReadAll(cmd, more);
    hide Bulks, Bulk, Loggable, CutShort;
  }

  lemma ReadAll(cmd: Argv, more: bytes)
    ensures cmd[..|cmd|] == cmd && Bulks(cmd[|cmd|..]) == [] && [] + more == more
    ensures forall rest: bytes :: !CutShort(rest, [])
  {
    assert cmd[|cmd|..] == [];
  }

  /** The text of `cmds`, and then perhaps a beginning of one more command, or text that does not
      begin as a command does. */
  ghost predicate LogAndPart(file: bytes, cmds: seq<Argv>, part: bytes, whole: Argv) {
    && AllLoggable(cmds) && file == Log(cmds) + part
    && (part == [] || part[0] != STAR || (Loggable(whole) && CutShort(part, Cat(whole))))
  }

  /** loadAppendOnlyFile: a log that ends with a command is replayed; one that ends within a
      command, or has something else after one, stops the server. */
  method LoadAppendOnlyFile(other: Other, t: int, file: bytes, dbnum: nat, ghost cmds: seq<Argv>, ghost part: bytes, ghost whole: Argv)
    returns (res: LoadResult)
    requires dbnum > 0
    ensures LogAndPart(file, cmds, part, whole) ==>
      res == if part != [] then Fatal else if cmds == [] then NothingToLoad
             else Loaded(ReplayAll(other, t, Replay(NoData(dbnum), 0), cmds).data)
  {
    ghost var wf := LogAndPart(file, cmds, part, whole);
    if |file| == 0 { return NothingToLoad; }
    var r, pos := Replay(NoData(dbnum), 0), 0;
    ghost var k := 0;
    assert file[0..] == file && cmds[0..] == cmds && cmds[..0] == [];
    while pos < |file|
      invariant 0 <= pos <= |file| && r.db < |r.data| == dbnum
      invariant wf ==> 0 <= k <= |cmds| && file[pos..] == Log(cmds[k..]) + part
      invariant wf ==> r == ReplayAll(other, t, Replay(NoData(dbnum), 0), cmds[..k])
      decreases |file| - pos
    {
      hide Log, Bulks, Line, LogAndPart, AllLoggable, ReplayAll;
      ghost var last := wf && k == |cmds|;
      var ok, argv, next := LoadCommand(file, pos, cmds, k, part, whole, wf);
      if !ok { return Fatal; }
      if wf { ReplayNext(other, t, Replay(NoData(dbnum), 0), cmds, k); }
      r := ReplayCmd(other, t, r, argv);
      pos, k := next, k + 1;
    }
    if wf { LogEnds(file, pos, cmds, k, part); }
    res := Loaded(r.data);
  }

  /** One turn of the loop, up to the execution of the command. */
  method LoadCommand(file: bytes, pos: nat, ghost cmds: seq<Argv>, ghost k: nat, ghost part: bytes, ghost whole: Argv, ghost wf: bool)
    returns (ok: bool, argv: Argv, next: nat)
    requires pos < |file|
    requires wf ==> k <= |cmds| && LogAndPart(file, cmds, part, whole) && file[pos..] == Log(cmds[k..]) + part
    ensures next <= |file| && (ok ==> pos < next && argv != [])
    ensures wf && k < |cmds| ==> ok && argv == cmds[k] && file[next..] == Log(cmds[k + 1..]) + part
    ensures wf && k == |cmds| ==> !ok
  {
    ghost var cmd, more, tail: bytes := [], [], [];
    if wf && k < |cmds| {
      CommandAhead(file, pos, cmds, k, part, whole);
      cmd, more := cmds[k], Log(cmds[k + 1..]) + part;
      tail := Bulks(cmd) + more;
    } else if wf {
      PartIs(file, pos, cmds, part, whole);
      if part[0] == STAR {
        cmd := whole;
        tail := PartAhead(file, pos, cmds, part, whole);
      }
    }
    hide *;
    argv := [];
    var argc;
    ok, argc, next := ReadHeader(file, pos, STAR, |cmd|, tail);
    if !ok || argc < 1 { return false, [], pos; }
    ok, argv, next := ReadArgs(file, next, argc, cmd, more);
  }

  lemma CommandAhead(file: bytes, pos: nat, cmds: seq<Argv>, k: nat, part: bytes, whole: Argv)
    requires pos < |file| && k < |cmds| && LogAndPart(file, cmds, part, whole) && file[pos..] == Log(cmds[k..]) + part
    ensures Loggable(cmds[k]) && 1 <= |cmds[k]| <= MAX_ARG && STAR != LF
    ensures file[pos..] == Line(STAR, |cmds[k]|) + (Bulks(cmds[k]) + (Log(cmds[k + 1..]) + part))
  {
    LogAhead(cmds, k);
    hide Log, Bulks, Line;
    Assoc(Line(STAR, |cmds[k]|) + Bulks(cmds[k]), Log(cmds[k + 1..]), part);
    Assoc(Line(STAR, |cmds[k]|), Bulks(cmds[k]), Log(cmds[k + 1..]) + part);
  }

  lemma PartIs(file: bytes, pos: nat, cmds: seq<Argv>, part: bytes, whole: Argv)
    requires pos < |file| && LogAndPart(file, cmds, part, whole) && file[pos..] == Log(cmds[|cmds|..]) + part
    ensures part != [] && file[pos] == part[0]
  {
    assert Log(cmds[|cmds|..]) == [];
    assert file[pos..] == part && file[pos] == file[pos..][0];
    hide Log, CutShort;
  }

  /** What is left is a beginning of one command: its header is cut short, or its arguments are. */
  lemma PartAhead(file: bytes, pos: nat, cmds: seq<Argv>, part: bytes, whole: Argv) returns (tail: bytes)
    requires pos < |file| && LogAndPart(file, cmds, part, whole) && file[pos..] == Log(cmds[|cmds|..]) + part
    requires part != [] && part[0] == STAR
    ensures Loggable(whole) && 1 <= |whole| <= MAX_ARG && STAR != LF
    ensures CutShort(file[pos..], Line(STAR, |whole|))
      || (file[pos..] == Line(STAR, |whole|) + tail && CutShort(tail, Bulks(whole)))
  {
    assert Log(cmds[|cmds|..]) == [];
    assert file[pos..] == part && part != [];
    hide Log, Bulks, Line, CutShort;
    tail := CutParts(part, Line(STAR, |whole|), Bulks(whole));
  }

  lemma LogAhead(cmds: seq<Argv>, k: nat)
    requires k <= |cmds|
    ensures if k == |cmds| then Log(cmds[k..]) == []
      else Log(cmds[k..]) == Line(STAR, |cmds[k]|) + Bulks(cmds[k]) + Log(cmds[k + 1..])
  {
    if k < |cmds| {
      assert cmds[k..][0] == cmds[k] && cmds[k..][1..] == cmds[k + 1..];
    }
  }

  lemma ReplayNext(other: Other, t: int, r: Replay, cmds: seq<Argv>, k: nat)
    requires r.db < |r.data| && k < |cmds|
    ensures ReplayAll(other, t, r, cmds[..k + 1]) == ReplayCmd(other, t, ReplayAll(other, t, r, cmds[..k]), cmds[k])
  {
    assert cmds[..k + 1] == cmds[..k] + [cmds[k]];
    ReplayConcat(other, t, r, cmds[..k], [cmds[k]]);
    ReplayOne(other, t, ReplayAll(other, t, r, cmds[..k]), cmds[k]);
  }

  lemma LogEnds(file: bytes, pos: nat, cmds: seq<Argv>, k: nat, part: bytes)
    requires pos == |file| > 0 && k <= |cmds| && file == Log(cmds) + part && file[pos..] == Log(cmds[k..]) + part
    ensures part == [] && cmds != [] && cmds[..k] == cmds
  {
    assert |Log(cmds[k..]) + part| == 0;
    assert Log(cmds[k..]) == [];
  }

  // ---- any beginning of a log

  /** A beginning of a log is the text of some of its commands, and of a part of the next. */
  lemma {:induction false} PrefixOfLog(cmds: seq<Argv>, n: nat) returns (k: nat, part: bytes)
    requires n <= |Log(cmds)|
    ensures k <= |cmds| && Log(cmds)[..n] == Log(cmds[..k]) + part
    ensures part != [] ==> k < |cmds| && CutShort(part, Cat(cmds[k]))
    decreases |cmds|
  {
    k, part := 0, [];
    assert cmds[..0] == [];
    if n > 0 {
      var head, rest := Cat(cmds[0]), Log(cmds[1..]);
      assert Log(cmds) == head + rest;
      if n < |head| {
        part := head[..n];
        assert Log(cmds)[..n] == part;
      } else {
        k, part := PrefixOfLog(cmds[1..], n - |head|);
        assert rest[..n - |head|] == Log(cmds[1..][..k]) + part;
        LogNext(cmds, k);
        hide Log, Cat;
        assert (head + rest)[..n] == head + rest[..n - |head|];
        Assoc(head, Log(cmds[1..][..k]), part);
        k := k + 1;
      }
    }
  }

  lemma LogNext(cmds: seq<Argv>, k: nat)
    requires k < |cmds|
    ensures Log(cmds[..k + 1]) == Cat(cmds[0]) + Log(cmds[1..][..k])
  {
    assert cmds[..k + 1][0] == cmds[0] && cmds[..k + 1][1..] == cmds[1..][..k];
    hide Cat;
  }

  /** A beginning of a log, loaded: cut between two commands, it gives the commands before the
      cut; cut anywhere else, the server does not start. */
  method LoadBeginning(other: Other, t: int, file: bytes, dbnum: nat, ghost cmds: seq<Argv>) returns (res: LoadResult, ghost k: nat)
    requires dbnum > 0 && AllLoggable(cmds) && file <= Log(cmds)
    ensures k <= |cmds| && |Log(cmds[..k])| <= |file| && (k < |cmds| ==> |file| < |Log(cmds[..k + 1])|)
    ensures res == if |file| > |Log(cmds[..k])| then Fatal else if k == 0 then NothingToLoad
                   else Loaded(ReplayAll(other, t, Replay(NoData(dbnum), 0), cmds[..k]).data)
  {
    ghost var part;
    k, part := PrefixOfLog(cmds, |file|);
    ghost var whole: Argv := if k < |cmds| then cmds[k] else [];
    assert file == Log(cmds)[..|file|];
    if k < |cmds| { NextBoundary(cmds, k); }
    BeginningIs(file, cmds, k, part, whole);
    hide Log, AllLoggable, ReplayAll, LogAndPart, CutShort, Cat;
    res := LoadAppendOnlyFile(other, t, file, dbnum, cmds[..k], part, whole);
  }

  lemma BeginningIs(file: bytes, cmds: seq<Argv>, k: nat, part: bytes, whole: Argv)
    requires AllLoggable(cmds) && k <= |cmds| && file == Log(cmds[..k]) + part
    requires part != [] ==> k < |cmds| && whole == cmds[k] && CutShort(part, Cat(cmds[k]))
    ensures LogAndPart(file, cmds[..k], part, whole) && (part != [] ==> |part| < |Cat(cmds[k])|)
  {
    hide Log, Cat;
  }

  lemma NextBoundary(cmds: seq<Argv>, k: nat)
    requires k < |cmds|
    ensures |Log(cmds[..k + 1])| == |Log(cmds[..k])| + |Cat(cmds[k])| && |Cat(cmds[k])| > 0
  {
    assert cmds[..k + 1] == cmds[..k] + [cmds[k]];
    LogAppend(cmds[..k], cmds[k]);
  }
}
