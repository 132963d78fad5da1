/** The unified request protocol, as aof.c and rio.c print it. */
module Resp {
  import opened Sequences
  import opened Bytes
  import opened Decimal

  type Argv = seq<bytes>

  const STAR: byte := 42
  const DOLLAR: byte := 36

  /** "*<n>" or "$<n>" and CR LF. */
  function Line(prefix: byte, n: int): (s: bytes)
    ensures |s| == |Print(n)| + 3 && s[0] == prefix
    ensures s[1..|s| - 2] == Print(n) && s[|s| - 2..] == CRLF
  {
    [prefix] + Print(n) + CRLF
  }

  function Bulk(a: bytes): (s: bytes)
    ensures s != [] && s[0] == DOLLAR
  {
    Line(DOLLAR, |a|) + a + CRLF
  }

  function Bulks(argv: Argv): bytes {
    if argv == [] then [] else Bulk(argv[0]) + Bulks(argv[1..])
  }

  /** catAppendOnlyGenericCommand */
  function Cat(argv: Argv): (s: bytes)
    ensures s != [] && s[0] == STAR
  {
    Line(STAR, |argv|) + Bulks(argv)
  }

  function Log(cmds: seq<Argv>): bytes {
    if cmds == [] then [] else Cat(cmds[0]) + Log(cmds[1..])
  }

  lemma Assoc4(a: bytes, b: bytes, c: bytes, d: bytes)
    ensures a + b + c + d == a + (b + c + d)
  {
    Assoc(a, b, c);
    Assoc(a, b + c, d);
  }

  lemma {:induction false} BulksConcat(a: Argv, b: Argv)
    ensures Bulks(a + b) == Bulks(a) + Bulks(b)
  {
    if a == [] {
      assert a + b == b;
    } else {
      assert (a + b)[1..] == a[1..] + b;
      BulksConcat(a[1..], b);
    }
  }

  lemma {:induction false} LogConcat(a: seq<Argv>, b: seq<Argv>)
    ensures Log(a + b) == Log(a) + Log(b)
  {
    if a == [] {
      assert a + b == b;
    } else {
      assert (a + b)[1..] == a[1..] + b;
      LogConcat(a[1..], b);
    }
  }

  lemma LogAppend(done: seq<Argv>, cmd: Argv)
    ensures Log(done + [cmd]) == Log(done) + Cat(cmd)
  {
    LogConcat(done, [cmd]);
    assert [cmd][1..] == [];
    assert Log([cmd]) == Cat(cmd) + [];
  }

  lemma BulksTwo(a: bytes, b: bytes)
    ensures Bulks([a, b]) == Bulk(a) + Bulk(b)
  {
    assert [a, b][1..] == [b] && [b][1..] == [];
    assert Bulks([b]) == Bulk(b) + [];
  }

  /** The loop of catAppendOnlyGenericCommand, appending to `dst`. */
  method CatGenericCommand(dst: bytes, argv: Argv) returns (buf: bytes)
    requires |argv| <= LLONG_MAX && forall i :: 0 <= i < |argv| ==> |argv[i]| <= LLONG_MAX
    ensures buf == dst + Cat(argv)
  {
    var n := Ll2string(|argv|);
    buf := dst + ([STAR] + n + CRLF);
    var j := 0;
    assert argv[..0] == [];
    hide Line, Bulks, Cat;
    while j < |argv|
      invariant 0 <= j <= |argv| && buf == CatSoFar(dst, argv, j)
    {
      n := Ll2string(|argv[j]|);
      CatStep(dst, argv, j);
      buf := buf + ([DOLLAR] + n + CRLF);
      buf := buf + argv[j];
      buf := buf + CRLF;
      j := j + 1;
    }
    assert argv[..j] == argv;
    assert buf == dst + Cat(argv);
  }

  ghost function CatSoFar(dst: bytes, argv: Argv, j: nat): bytes
    requires j <= |argv|
  {
    dst + Line(STAR, |argv|) + Bulks(argv[..j])
  }

  lemma BulksSnoc(a: Argv, x: bytes)
    ensures Bulks(a + [x]) == Bulks(a) + Bulk(x)
  {
    BulksConcat(a, [x]);
    assert [x][1..] == [] && Bulks([x]) == Bulk(x) + [];
  }

  lemma CatStep(dst: bytes, argv: Argv, j: nat)
    requires j < |argv|
    ensures CatSoFar(dst, argv, j + 1) == CatSoFar(dst, argv, j) + Line(DOLLAR, |argv[j]|) + argv[j] + CRLF
    ensures CatSoFar(dst, argv, 0) == dst + Line(STAR, |argv|)
  {
    BulksSnoc(argv[..j], argv[j]);
    assert argv[..j + 1] == argv[..j] + [argv[j]];
    var head, l := dst + Line(STAR, |argv|), Line(DOLLAR, |argv[j]|);
    assert Bulk(argv[j]) == l + argv[j] + CRLF;
    assert Bulks([]) == [];
    hide Bulks, Bulk, Line;
    Assoc(head, Bulks(argv[..j]), Bulk(argv[j]));
    Assoc4(CatSoFar(dst, argv, j), l, argv[j], CRLF);
    assert argv[..0] == [];
  }

  /** Headers are short: at most a sign and 19 digits for a `long long`. */
  lemma PrintShort(n: nat)
    requires n <= 512 * 1024 * 1024
    ensures |Print(n)| <= 9
  {
    assert Pow10(3) == 1000;
    assert Pow10(6) == 1000000;
    assert Pow10(9) == 1000000000;
    DigitsLength(n, 9, Pow10(9));
  }

  lemma PrintLL(v: int)
    requires InLL(v)
    ensures |Print(v)| <= 20
  {
    assert Pow10(3) == 1000;
    assert Pow10(6) == 1000000;
    assert Pow10(9) == 1000000000;
    assert Pow10(12) == 1000000000000;
    assert Pow10(15) == 1000000000000000;
    assert Pow10(18) == 1000000000000000000;
    assert Pow10(19) == 10000000000000000000;
    DigitsLength(if v < 0 then -v else v, 19, Pow10(19));
  }

  // ---- writing a log piece by piece

  /** After the commands `done`, a command of `announced` arguments is open, with `args` written. */
  ghost predicate Writing(out: bytes, base: bytes, done: seq<Argv>, announced: int, args: Argv) {
    out == base + Log(done) + (Line(STAR, announced) + Bulks(args))
  }

  lemma WriteCount(base: bytes, done: seq<Argv>, announced: int)
    ensures Writing(base + Log(done) + Line(STAR, announced), base, done, announced, [])
  {
    assert Line(STAR, announced) + Bulks([]) == Line(STAR, announced);
  }

  lemma WriteBulk(out: bytes, base: bytes, done: seq<Argv>, announced: int, args: Argv, a: bytes)
    requires Writing(out, base, done, announced, args)
    ensures Writing(out + Bulk(a), base, done, announced, args + [a])
  {
    BulksSnoc(args, a);
    hide Bulks, Bulk, Line, Log;
    Assoc(Line(STAR, announced), Bulks(args), Bulk(a));
    Assoc(base + Log(done), Line(STAR, announced) + Bulks(args), Bulk(a));
  }

  /** When as many arguments were written as announced, the command is part of the log. */
  lemma WriteEnd(out: bytes, base: bytes, done: seq<Argv>, announced: int, args: Argv)
    requires Writing(out, base, done, announced, args) && announced == |args|
    ensures out == base + Log(done + [args])
  {
    LogAppend(done, args);
    Assoc(base, Log(done), Cat(args));
  }
}
