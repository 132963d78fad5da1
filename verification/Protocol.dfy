/** networking.c: the resumable request parser. */
module Protocol {
  import opened Sequences
  import opened Bytes
  import opened Decimal
  import opened Resp
  import opened Wrappers

  const REDIS_IOBUF_LEN := 16 * 1024
  const REDIS_INLINE_MAX_SIZE := 64 * 1024
  const REDIS_MBULK_BIG_ARG := 32 * 1024
  const MAX_MULTIBULK := 1024 * 1024
  const MAX_BULK := 512 * 1024 * 1024
  const REDIS_MAX_QUERYBUF_LEN := 1024 * 1024 * 1024

  /** A header is at most a sign and 19 digits between its first byte and CR LF. */
  const MAX_LINE := 23

  datatype ReqType = Unknown | Inline | Multibulk

  // ---- what is left of a stream of commands

  /** A command, announced by the count of its arguments; a count of 0 or less announces none. */
  datatype Request = Request(count: int, argv: Argv)

  function Text(r: Request): bytes { Line(STAR, r.count) + Bulks(r.argv) }

  function Wire(cmds: seq<Request>): bytes { if cmds == [] then [] else Text(cmds[0]) + Wire(cmds[1..]) }

  /** The commands among the requests. */
  function Commands(cmds: seq<Request>): seq<Argv> {
    if cmds == [] then [] else Commands(cmds[..|cmds| - 1]) + Whole(cmds[|cmds| - 1])
  }

  function Whole(r: Request): seq<Argv> { if r.argv == [] then [] else [r.argv] }

  lemma {:induction false} CommandsConcat(a: seq<Request>, b: seq<Request>)
    ensures Commands(a + b) == Commands(a) + Commands(b)
    decreases |b|
  {
    if b == [] {
      assert a + b == a;
    } else {
      var n := |b| - 1;
      assert (a + b)[..|a + b| - 1] == a + b[..n];
      CommandsConcat(a, b[..n]);
      Assoc(Commands(a), Commands(b[..n]), Whole(b[n]));
    }
  }

  /** Counts and sizes within the limits the parser enforces. */
  ghost predicate WellSized(cmds: seq<Request>) { forall i :: 0 <= i < |cmds| ==> Sized(cmds[i]) }

  ghost predicate Sized(r: Request) {
    && (if r.argv == [] then LLONG_MIN <= r.count <= 0 else r.count == |r.argv| <= MAX_MULTIBULK)
    && forall j :: 0 <= j < |r.argv| ==> |r.argv[j]| <= MAX_BULK
  }

  /** The bytes not yet consumed, for a parser that has `argv` of the first command of
      `cmds`, with `multibulklen` arguments to go, the header of the next one being
      consumed when `bulklen` is not -1. */
  ghost predicate Expects(cmds: seq<Request>, argv: Argv, multibulklen: int, bulklen: int, rest: bytes) {
    if multibulklen == 0 then argv == [] && bulklen == -1 && rest == Wire(cmds)
    else
      && cmds != [] && argv < cmds[0].argv && multibulklen == |cmds[0].argv| - |argv|
      && (bulklen == -1 || bulklen == |cmds[0].argv[|argv|]|)
      && rest == (if bulklen == -1 then Bulks(cmds[0].argv[|argv|..])
                  else cmds[0].argv[|argv|] + CRLF + Bulks(cmds[0].argv[|argv| + 1..])) + Wire(cmds[1..])
  }

  /** A line at the start of `rest`, of which `have` is the part that arrived. */
  lemma LineAhead(prefix: byte, n: int, more: bytes, have: bytes, unread: bytes)
    requires have + unread == Line(prefix, n) + more && prefix != CR && prefix != 0
    ensures forall i :: 0 <= i < |have| && i <= |Print(n)| ==> have[i] != CR && have[i] != 0
    ensures |Print(n)| + 1 < |have| ==> have[|Print(n)| + 1] == CR
    ensures |Print(n)| + 3 <= |have| ==> have[1..|Print(n)| + 1] == Print(n) && have[|Print(n)| + 3..] + unread == more
    ensures have != [] ==> have[0] == prefix
  {
    var line := Line(prefix, n);
    assert forall i :: 0 <= i < |have| ==> (line + more)[i] == have[i];
    assert forall i :: 0 <= i < |Print(n)| ==> line[1 + i] == Print(n)[i];
    if |Print(n)| + 3 <= |have| {
      assert have[..|line|] == line;
      assert have[1..|Print(n)| + 1] == have[..|line|][1..|Print(n)| + 1];
      assert (have + unread)[|line|..] == more;
    }
  }

  /** An argument of `n` bytes and its CR LF, cut off `rest`. */
  ghost predicate Cut(rest: bytes, n: nat, arg: bytes, more: bytes) { n + 2 <= |rest| && rest[..n] == arg && rest[n + 2..] == more }

  lemma BodySlices(buf: bytes, pos: nat, n: nat, unread: bytes)
    requires pos + n + 2 <= |buf|
    ensures Cut(buf[pos..] + unread, n, buf[pos..pos + n], buf[pos + n + 2..] + unread)
  {}

  /** With one more argument taken, `left` are to come. */
  ghost predicate BodyOk(cmds: seq<Request>, left: int, argv': Argv, more: bytes) {
    if left == 0 then cmds != [] && argv' == cmds[0].argv && more == Wire(cmds[1..]) else Expects(cmds, argv', left, -1, more)
  }

  /** The argument whose header was read, taken from the stream. */
  lemma ArgTaken(cmds: seq<Request>, argv: Argv, multibulklen: int, n: nat, rest: bytes, arg: bytes, tail: bytes)
    requires Expects(cmds, argv, multibulklen, n, rest) && multibulklen > 0 && Cut(rest, n, arg, tail)
    ensures BodyOk(cmds, multibulklen - 1, argv + [arg], tail)
  {
    var j := |argv|;
    var a, more := cmds[0].argv[j], Bulks(cmds[0].argv[j + 1..]) + Wire(cmds[1..]);
    assert argv == cmds[0].argv[..j] && argv + [a] == cmds[0].argv[..j + 1];
    Assoc(a + CRLF, Bulks(cmds[0].argv[j + 1..]), Wire(cmds[1..]));
    SplitArg(a, more);
    if multibulklen == 1 {
      assert cmds[0].argv[..j + 1] == cmds[0].argv && Bulks(cmds[0].argv[j + 1..]) == [] && more == Wire(cmds[1..]);
    }
    hide Bulks, Wire;
  }

  lemma SplitArg(a: bytes, more: bytes)
    ensures (a + CRLF + more)[..|a|] == a && (a + CRLF + more)[|a| + 2..] == more
  {}

  lemma BulksHead(argv: Argv)
    requires argv != []
    ensures Bulks(argv) == Line(DOLLAR, |argv[0]|) + (argv[0] + CRLF + Bulks(argv[1..]))
  {}

  /** The first `k` commands were executed since `before`. */
  ghost predicate Did(executed: seq<Argv>, before: seq<Argv>, cmds: seq<Request>, k: nat) {
    k <= |cmds| && executed == before + Commands(cmds[..k])
  }

  function Left(cmds: seq<Request>, k: nat): seq<Request> { if k <= |cmds| then cmds[k..] else [] }

  lemma NothingDid(executed: seq<Argv>, cmds: seq<Request>)
    ensures Did(executed, executed, cmds, 0) && Left(cmds, 0) == cmds
  {
    assert cmds[..0] == [];
  }

  lemma OneMore(executed: seq<Argv>, previous: seq<Argv>, before: seq<Argv>, cmds: seq<Request>, k: nat)
    requires Did(previous, before, cmds, k) && Left(cmds, k) != [] && executed == previous + Whole(Left(cmds, k)[0])
    ensures Did(executed, before, cmds, k + 1) && Left(cmds, k)[1..] == Left(cmds, k + 1)
  {
    assert cmds[..k + 1][..k] == cmds[..k];
    Assoc(before, Commands(cmds[..k]), Whole(cmds[k]));
  }

  lemma DidMeans(executed: seq<Argv>, before: seq<Argv>, cmds: seq<Request>, k: nat)
    requires Did(executed, before, cmds, k)
    ensures k <= |cmds| && executed == before + Commands(cmds[..k]) && Left(cmds, k) == cmds[k..]
  {}

  lemma WireHead(cmds: seq<Request>)
    requires cmds != []
    ensures Wire(cmds) == Line(STAR, cmds[0].count) + (Bulks(cmds[0].argv) + Wire(cmds[1..]))
  {}

  /** The first CR at or after `pos` and before any NUL; -1 when there is none. */
  ghost predicate IsStrchr(buf: bytes, pos: nat, r: int) {
    if r == -1 then forall i :: pos <= i < |buf| && buf[i] == CR ==> exists z :: pos <= z < i && buf[z] == 0
    else pos <= r < |buf| && buf[r] == CR && forall i :: pos <= i < r ==> buf[i] != CR && buf[i] != 0
  }

  /** strchr(buf + pos, '\\r'), as an index. */
  function Strchr(buf: bytes, pos: nat): (r: int)
    requires pos <= |buf|
    ensures IsStrchr(buf, pos, r)
    decreases |buf| - pos
  {
    if pos == |buf| || buf[pos] == 0 then -1 else if buf[pos] == CR then pos else Strchr(buf, pos + 1)
  }

  /** string2ll */
  ghost function Number(s: bytes): (n: Option<int>)
    ensures n.Some? ==> InLL(n.value) && s == Print(n.value)
  {
    if v: int :| InLL(v) && s == Print(v) then Some(v) else None
  }

  /** What the bytes at a header line say: not all there, too long to be one, not a valid one, or
      a number, and where the line ends. */
  datatype Head = Partial | TooLong | Invalid | Says(n: int, next: nat)

  /** The count of arguments: lines 858-880. */
  ghost function CountHead(buf: bytes): (h: Head)
    ensures h.Says? ==> InLL(h.n) && h.n <= MAX_MULTIBULK && h.next <= |buf|
  {
    var r := Strchr(buf, 0);
    if r == -1 then if |buf| > REDIS_INLINE_MAX_SIZE then TooLong else Partial
    else if r > |buf| - 2 then Partial
    else match CountAt(buf, r)
      case None => Invalid
      case Some(n) => Says(n, r + 2)
  }

  /** The count that the header ending at `r` announces, if it is valid. */
  ghost function CountAt(buf: bytes, r: nat): (n: Option<int>)
    requires r < |buf|
    ensures n.Some? ==> InLL(n.value) && n.value <= MAX_MULTIBULK
  {
    match Number(if r > 0 then buf[1..r] else [])
    case None => None
    case Some(n) => if n > MAX_MULTIBULK then None else Some(n)
  }

  lemma CountAtIs(buf: bytes, r: nat)
    requires r < |buf|
    ensures CountAt(buf, r) == match Number(if r > 0 then buf[1..r] else [])
      case None => None case Some(n) => if n > MAX_MULTIBULK then None else Some(n)
  {
    hide Number;
  }

  lemma CountHeadIs(buf: bytes)
    ensures var r := Strchr(buf, 0);
      CountHead(buf) == if r == -1 then if |buf| > REDIS_INLINE_MAX_SIZE then TooLong else Partial
        else if r > |buf| - 2 then Partial
        else match CountAt(buf, r) case None => Invalid case Some(n) => Says(n, r + 2)
  {
    hide CountAt, Strchr;
  }

  /** The length of an argument: lines 898-924. */
  ghost function BulkHead(buf: bytes, pos: nat): (h: Head)
    requires pos <= |buf|
    ensures h.Says? ==> 0 <= h.n <= MAX_BULK && pos < h.next <= |buf|
  {
    var r := Strchr(buf, pos);
    if r == -1 then if |buf| > REDIS_INLINE_MAX_SIZE then TooLong else Partial
    else if r > |buf| - 2 then Partial
    else match LengthAt(buf, pos, r)
      case None => Invalid
      case Some(n) => Says(n, r + 2)
  }

  /** The length that the header ending at `r` announces, if it is valid. */
  ghost function LengthAt(buf: bytes, pos: nat, r: nat): (n: Option<nat>)
    requires pos <= r < |buf| && buf[r] == CR
  {
    if buf[pos] != DOLLAR then None
    else match Number(buf[pos + 1..r])
      case None => None
      case Some(n) => if 0 <= n <= MAX_BULK then Some(n) else None
  }

  lemma LengthAtIs(buf: bytes, pos: nat, r: nat)
    requires pos <= r < |buf| && buf[r] == CR
    ensures buf[pos] == DOLLAR ==> pos < r
    ensures LengthAt(buf, pos, r) == if buf[pos] != DOLLAR then None
      else match Number(buf[pos + 1..r]) case None => None case Some(n) => if 0 <= n <= MAX_BULK then Some(n) else None
  {
    hide Number;
  }

  lemma BulkHeadIs(buf: bytes, pos: nat)
    requires pos <= |buf|
    ensures var r := Strchr(buf, pos);
      BulkHead(buf, pos) == if r == -1 then if |buf| > REDIS_INLINE_MAX_SIZE then TooLong else Partial
        else if r > |buf| - 2 then Partial
        else match LengthAt(buf, pos, r) case None => Invalid case Some(n) => Says(n, r + 2)
  {
    hide LengthAt, Strchr;
  }

  /** A count of 0 or less. */
  ghost predicate NoArguments(buf: bytes) { CountHead(buf).Says? && CountHead(buf).n <= 0 }

  ghost predicate AnyRequest(buf: bytes) { CountHead(buf).Says? && CountHead(buf).n > 0 }

  lemma CountHeadEnds(buf: bytes)
    ensures CountHead(buf).Says? ==> CountHead(buf).next > 0
  {
    CountHeadIs(buf);
    hide CountAt, CountHead;
  }

  /** No line ends in the buffer from `pos` on. */
  ghost predicate NoLine(buf: bytes, pos: nat) { forall i :: pos <= i <= |buf| - 2 ==> buf[i] != CR }

  /** The bytes from `at` on are those after the header, or at `pos0` when it was read before. */
  ghost predicate Ahead(buf: bytes, pos0: nat, n0: int, ready: bytes, at: nat, n: int) {
    && pos0 <= |buf| && at <= |ready| && n >= 0
    && if n0 == -1 then BulkHead(buf, pos0).Says? && n == BulkHead(buf, pos0).n && ready[at..] == buf[BulkHead(buf, pos0).next..]
       else n == n0 && ready[at..] == buf[pos0..]
  }

  lemma SameSlices(a: bytes, i: nat, b: bytes, j: nat, n: nat)
    requires i <= |a| && j <= |b| && a[i..] == b[j..] && i + n + 2 <= |a|
    ensures j + n + 2 <= |b| && a[i..i + n] == b[j..j + n] && a[i + n + 2..] == b[j + n + 2..]
  {
    assert |a| - i == |a[i..]| == |b[j..]|;
    assert a[i..i + n] == a[i..][..n] && b[j..j + n] == b[j..][..n];
    assert a[i + n + 2..] == a[i..][n + 2..] && b[j + n + 2..] == b[j..][n + 2..];
  }

  /** What one turn of the argument loop decided: go on, wait for data, or give up. */
  datatype Turn = Next | Wait | Fail

  class Client {
    var querybuf: bytes
    var reqtype: ReqType
    var multibulklen: int
    var bulklen: int
    var argv: Argv
    var closing: bool
    var executed: seq<Argv>

    constructor ()
      ensures querybuf == [] && reqtype == Unknown && multibulklen == 0 && bulklen == -1 && argv == []
      ensures !closing && executed == []
    {
      querybuf, reqtype, multibulklen, bulklen, argv, closing, executed := [], Unknown, 0, -1, [], false, [];
    }

    /** The parser is where it should be in a stream whose unread part is `unread`. */
    ghost predicate On(cmds: seq<Request>, unread: bytes)
      reads this
    {
      && !closing && WellSized(cmds) && -1 <= bulklen && 0 <= multibulklen
      && Expects(cmds, argv, multibulklen, bulklen, querybuf + unread)
      && reqtype != Inline && (multibulklen > 0 ==> reqtype == Multibulk)
    }

    /** strchr(querybuf + pos, '\\r'), which stops at a NUL: -1 when there is none. */
    method FindCR(pos: nat) returns (r: int)
      requires pos <= |querybuf|
      ensures r == Strchr(querybuf, pos) && IsStrchr(querybuf, pos, r)
    {
      r := pos;
      while r < |querybuf|
        invariant pos <= r <= |querybuf|
        invariant forall i :: pos <= i < r ==> querybuf[i] != CR && querybuf[i] != 0
      {
        if querybuf[r] == CR { return; }
        if querybuf[r] == 0 { return -1; }
        r := r + 1;
      }
      r := -1;
    }

    method SetProtocolError(pos: nat)
      requires pos <= |querybuf|
      modifies this`closing, this`querybuf
      ensures closing && querybuf == old(querybuf)[pos..]
    {
      closing := true;
      querybuf := querybuf[pos..];
    }

    /** On a well-formed line, the search finds its end or the line is not all there. */
    lemma FoundLine(pos: nat, r: int, prefix: byte, n: int, more: bytes, unread: bytes)
      requires pos <= |querybuf| && querybuf[pos..] + unread == Line(prefix, n) + more && prefix != CR && prefix != 0
      requires IsStrchr(querybuf, pos, r)
      ensures r == -1 ==> |querybuf| - pos <= |Print(n)| + 1 && NoLine(querybuf, pos)
      ensures r >= 0 ==> r == pos + |Print(n)| + 1
      ensures r >= 0 && r <= |querybuf| - 2 ==>
        querybuf[pos] == prefix && querybuf[pos + 1..r] == Print(n) && querybuf[r + 2..] + unread == more
    {
      var have := querybuf[pos..];
      LineAhead(prefix, n, more, have, unread);
      assert forall i :: 0 <= i < |have| ==> have[i] == querybuf[pos + i];
      assert forall i :: pos <= i < |querybuf| ==> querybuf[i] == have[i - pos];
    }

    /** In the argument loop, having consumed `pos` bytes of the buffer. */
    ghost predicate InLoop(cmds: seq<Request>, unread: bytes, pos: nat)
      reads this
    {
      && !closing && WellSized(cmds) && -1 <= bulklen && 0 < multibulklen && pos <= |querybuf| && reqtype == Multibulk
      && Expects(cmds, argv, multibulklen, bulklen, querybuf[pos..] + unread)
      && (|querybuf| <= REDIS_INLINE_MAX_SIZE || (pos == 0 && bulklen >= REDIS_MBULK_BIG_ARG && |querybuf| <= bulklen + 2))
    }

    /** Too little data to go on: less than a header line, or less than the argument. */
    ghost predicate Starved()
      reads this
    {
      if bulklen == -1 then |querybuf| < MAX_LINE && NoLine(querybuf, 0) else |querybuf| < bulklen + 2
    }

    /** What the header at `pos` of `buf` makes of the client: whatever is not a length closes
        the connection. A big argument is brought to the start of the buffer. */
    ghost predicate HeaderRead(buf: bytes, pos: nat, wasClosing: bool, turn: Turn, next: nat)
      requires pos <= |buf|
      reads this
    {
      match BulkHead(buf, pos)
      case Partial => turn.Wait? && next == pos && querybuf == buf && bulklen == -1 && closing == wasClosing
      case TooLong => turn.Wait? && next == pos && querybuf == buf && bulklen == -1 && closing
      case Invalid => turn.Fail? && next == 0 && querybuf == buf[pos..] && bulklen == -1 && closing
      case Says(n, end) => turn.Next? && closing == wasClosing && LengthRead(buf, n, end, next)
    }

    ghost predicate LengthRead(buf: bytes, n: nat, end: nat, next: nat)
      requires end <= |buf|
      reads this
    {
      && bulklen == n
      && if n >= REDIS_MBULK_BIG_ARG then next == 0 && querybuf == buf[end..] else next == end && querybuf == buf
    }

    /** Lines 896-943: the header of the next argument. */
    method ReadBulkHeader(pos: nat, ghost cmds: seq<Request>, ghost unread: bytes) returns (turn: Turn, next: nat)
      requires pos <= |querybuf| && bulklen == -1
      modifies this`closing, this`querybuf, this`bulklen
      ensures HeaderRead(old(querybuf), pos, old(closing), turn, next)
      ensures old(InLoop(cmds, unread, pos)) ==> turn != Fail && InLoop(cmds, unread, next)
      ensures old(InLoop(cmds, unread, pos)) && turn.Wait? ==> bulklen == -1 && |querybuf| - next < MAX_LINE && NoLine(querybuf, next)
    {
      ghost var wf, buf, was := InLoop(cmds, unread, pos), querybuf, closing;
      if wf { HeaderFacts(cmds, unread, pos, Strchr(querybuf, pos)); }
      BulkHeadIs(buf, pos);
      hide *;
      if wf { AtHeader(cmds, unread, pos); }
      turn, next := Wait, pos;
      var newline, there := FindLine(pos);
      if there { turn, next := ReadLength(pos, newline, cmds, unread, wf); }
      HeaderReadIs(buf, pos, was, turn, next);
    }

    /** The end of the header line, if it is all there; one too long closes the connection. */
    method FindLine(pos: nat) returns (newline: int, there: bool)
      requires pos <= |querybuf|
      modifies this`closing, this`querybuf
      ensures querybuf == old(querybuf) && newline == Strchr(querybuf, pos)
      ensures there <==> 0 <= newline <= |querybuf| - 2
      ensures there ==> pos <= newline && querybuf[newline] == CR
      ensures closing == (old(closing) || (newline == -1 && |querybuf| > REDIS_INLINE_MAX_SIZE))
    {
      newline := FindCR(pos);
      there := false;
      hide *;
      if newline == -1 {
        if |querybuf| > REDIS_INLINE_MAX_SIZE { SetProtocolError(0); }
        assert querybuf == old(querybuf);
        return;
      }
      StrchrFound(querybuf, pos, newline);
      there := newline <= |querybuf| - 2;
    }

    lemma HeaderReadIs(buf: bytes, pos: nat, wasClosing: bool, turn: Turn, next: nat)
      requires pos <= |buf|
      ensures HeaderRead(buf, pos, wasClosing, turn, next) <==> match BulkHead(buf, pos)
        case Partial => turn.Wait? && next == pos && querybuf == buf && bulklen == -1 && closing == wasClosing
        case TooLong => turn.Wait? && next == pos && querybuf == buf && bulklen == -1 && closing
        case Invalid => turn.Fail? && next == 0 && querybuf == buf[pos..] && bulklen == -1 && closing
        case Says(n, end) => turn.Next? && closing == wasClosing && LengthRead(buf, n, end, next)
    {
      hide BulkHead, LengthRead;
    }

    /** What every caller needs of it. */
    lemma HeaderReadMeans(buf: bytes, pos: nat, wasClosing: bool, turn: Turn, next: nat)
      requires pos <= |buf| && HeaderRead(buf, pos, wasClosing, turn, next)
      ensures next <= |querybuf| && (if turn.Next? then bulklen >= 0 && closing == wasClosing else bulklen == -1)
      ensures |querybuf| - next <= |buf| - pos
    {
      hide BulkHead;
    }

    lemma StrchrFound(buf: bytes, pos: nat, r: int)
      requires IsStrchr(buf, pos, r) && r != -1
      ensures pos <= r < |buf| && buf[r] == CR
    {}

    lemma AtHeader(cmds: seq<Request>, unread: bytes, pos: nat)
      requires InLoop(cmds, unread, pos) && bulklen == -1
      ensures !closing && WellSized(cmds) && 0 < multibulklen && reqtype == Multibulk && |querybuf| <= REDIS_INLINE_MAX_SIZE
    {}

    /** The header that ends at `newline` announces the argument that the stream has next. */
    ghost predicate HeaderOk(cmds: seq<Request>, unread: bytes, pos: nat, newline: nat)
      requires pos <= newline <= |querybuf| - 2
      reads this
    {
      && cmds != [] && |argv| < |cmds[0].argv| && |cmds[0].argv[|argv|]| <= MAX_BULK
      && querybuf[pos] == DOLLAR && pos < newline && querybuf[pos + 1..newline] == Print(|cmds[0].argv[|argv|]|)
      && Expects(cmds, argv, multibulklen, |cmds[0].argv[|argv|]|, querybuf[newline + 2..] + unread)
    }

    /** Lines 908-943: the length in the header that ends at `newline`. */
    method ReadLength(pos: nat, newline: nat, ghost cmds: seq<Request>, ghost unread: bytes, ghost wf: bool)
      returns (turn: Turn, next: nat)
      requires pos <= newline <= |querybuf| - 2 && querybuf[newline] == CR && bulklen == -1
      requires wf ==> InLoop(cmds, unread, pos) && HeaderOk(cmds, unread, pos, newline)
      modifies this`closing, this`querybuf, this`bulklen
      ensures LengthAt(old(querybuf), pos, newline) == None ==>
        turn.Fail? && next == 0 && closing && querybuf == old(querybuf)[pos..] && bulklen == -1
      ensures LengthAt(old(querybuf), pos, newline).Some? ==>
        && turn.Next? && closing == old(closing)
        && LengthRead(old(querybuf), LengthAt(old(querybuf), pos, newline).value, newline + 2, next)
      ensures wf ==> turn != Fail && InLoop(cmds, unread, next)
    {
      if wf {
        HeaderIs(cmds, unread, pos, newline);
        AtHeader(cmds, unread, pos);
      }
      hide *;
      var ok, ll := ParseLength(pos, newline);
      if !ok {
        SetProtocolError(pos);
        return Fail, 0;
      }
      ghost var buf, tail := querybuf, querybuf[newline + 2..];
      next := StartArg(ll, newline + 2, tail);
      LengthReadIs(buf, ll, newline + 2, next);
      if wf { Entered(cmds, unread, next, tail); }
      turn := Next;
    }

    lemma LengthReadIs(buf: bytes, n: nat, end: nat, next: nat)
      requires end <= |buf| && bulklen == n
      requires if n >= REDIS_MBULK_BIG_ARG then next == 0 && querybuf == buf[end..] else next == end && querybuf == buf
      ensures LengthRead(buf, n, end, next)
    {}

    /** Lines 909 and 919: a header that begins with `$` and holds a length. */
    method ParseLength(pos: nat, newline: nat) returns (ok: bool, ll: int)
      requires pos <= newline <= |querybuf| - 2 && querybuf[newline] == CR
      ensures if ok then 0 <= ll && LengthAt(querybuf, pos, newline) == Some(ll) else LengthAt(querybuf, pos, newline) == None
    {
      LengthAtIs(querybuf, pos, newline);
      hide *;
      if querybuf[pos] != DOLLAR { return false, 0; }
      ok, ll := String2ll(querybuf[pos + 1..newline]);
      NumberIs(querybuf[pos + 1..newline], ok, ll);
      ok := ok && 0 <= ll <= MAX_BULK;
    }

    lemma HeaderIs(cmds: seq<Request>, unread: bytes, pos: nat, newline: nat)
      requires pos <= newline <= |querybuf| - 2 && querybuf[newline] == CR && HeaderOk(cmds, unread, pos, newline)
      ensures LengthAt(querybuf, pos, newline).Some?
      ensures Expects(cmds, argv, multibulklen, LengthAt(querybuf, pos, newline).value, querybuf[newline + 2..] + unread)
    {
      var n := |cmds[0].argv[|argv|]|;
      assert InLL(n) && n <= MAX_BULK;
      LengthAtIs(querybuf, pos, newline);
      NumberIs(querybuf[pos + 1..newline], true, n);
      hide Print, Expects, Number;
    }

    /** The stream after a header, whose argument is still to come. */
    lemma Entered(cmds: seq<Request>, unread: bytes, next: nat, tail: bytes)
      requires !closing && WellSized(cmds) && 0 <= bulklen && 0 < multibulklen && next <= |querybuf| && reqtype == Multibulk
      requires querybuf[next..] == tail && Expects(cmds, argv, multibulklen, bulklen, tail + unread)
      requires |querybuf| <= REDIS_INLINE_MAX_SIZE
      ensures InLoop(cmds, unread, next)
    {
      hide Expects, WellSized;
    }

    /** Lines 927-942: the data of a big argument is brought to the start of the buffer. */
    method StartArg(ll: nat, at: nat, ghost tail: bytes) returns (next: nat)
      requires at <= |querybuf| && tail == querybuf[at..]
      modifies this`querybuf, this`bulklen
      ensures bulklen == ll && next <= |querybuf| <= old(|querybuf|)
      ensures querybuf[next..] == tail
      ensures if ll >= REDIS_MBULK_BIG_ARG then next == 0 && querybuf == old(querybuf)[at..] else next == at && querybuf == old(querybuf)
    {
      next := at;
      if ll >= REDIS_MBULK_BIG_ARG {
        querybuf := querybuf[next..];
        next := 0;
      }
      bulklen := ll;
    }

    /** All arguments of the first command are read. */
    ghost predicate Complete(cmds: seq<Request>, unread: bytes, pos: nat)
      reads this
    {
      && !closing && WellSized(cmds) && cmds != [] && argv == cmds[0].argv && multibulklen == 0 && bulklen == -1
      && pos <= |querybuf| && querybuf[pos..] + unread == Wire(cmds[1..]) && reqtype == Multibulk
      && |querybuf| <= REDIS_INLINE_MAX_SIZE
    }

    /** Lines 946-971: the bytes of the next argument. */
    method ReadBulkBody(pos: nat, ghost cmds: seq<Request>, ghost unread: bytes) returns (turn: Turn, next: nat)
      requires pos <= |querybuf| && bulklen >= 0 && multibulklen > 0
      modifies this`querybuf, this`bulklen, this`argv, this`multibulklen
      ensures next <= |querybuf| && !turn.Fail?
      ensures turn.Next? ==> bulklen == -1 && multibulklen == old(multibulklen) - 1
      ensures turn.Next? ==> |querybuf| - next < old(|querybuf|) - pos
      ensures turn.Wait? ==> unchanged(this) && next == pos && |querybuf| - pos < bulklen + 2
      ensures turn.Next? ==> ArgumentTaken(old(querybuf), pos, old(bulklen), old(argv), next)
      ensures turn.Next? && old(InLoop(cmds, unread, pos)) ==>
        if multibulklen == 0 then Complete(cmds, unread, next) else InLoop(cmds, unread, next)
    {
      turn, next := Wait, pos;
      if |querybuf| - pos < bulklen + 2 { return; }
      ghost var wf := InLoop(cmds, unread, pos);
      if wf { BodyFacts(cmds, unread, pos); }
      hide *;
      next := TakeBody(pos, cmds, unread, wf);
      turn := Next;
    }

    method TakeBody(pos: nat, ghost cmds: seq<Request>, ghost unread: bytes, ghost wf: bool) returns (next: nat)
      requires 0 <= bulklen && pos + bulklen + 2 <= |querybuf| && multibulklen > 0
      requires wf ==> AtBody(cmds, pos)
      requires wf ==> BodyOk(cmds, multibulklen - 1, argv + [querybuf[pos..pos + bulklen]], querybuf[pos + bulklen + 2..] + unread)
      modifies this`querybuf, this`bulklen, this`argv, this`multibulklen
      ensures next <= |querybuf| && bulklen == -1 && multibulklen == old(multibulklen) - 1
      ensures |querybuf| - next < old(|querybuf|) - pos
      ensures ArgumentTaken(old(querybuf), pos, old(bulklen), old(argv), next)
      ensures wf ==> if multibulklen == 0 then Complete(cmds, unread, next) else InLoop(cmds, unread, next)
    {
      ghost var argv', tail := argv + [querybuf[pos..pos + bulklen]], querybuf[pos + bulklen + 2..];
      ghost var buf, argv0, n := querybuf, argv, bulklen;
      hide BodyOk, WellSized;
      assert wf ==> !closing && WellSized(cmds) && reqtype == Multibulk;
      next := TakeArg(pos, argv', tail);
      bulklen := -1;
      multibulklen := multibulklen - 1;
      hide *;
      ArgumentTakenIs(buf, pos, n, argv0, next);
      if wf { ArgDone(cmds, unread, next, argv', tail); }
    }

    /** The argument of `n` bytes at `pos` of `buf` is the next one, and left the buffer. */
    ghost predicate ArgumentTaken(buf: bytes, pos: nat, n: int, argv0: Argv, next: nat)
      reads this
    {
      && 0 <= n && pos + n + 2 <= |buf| && argv == argv0 + [buf[pos..pos + n]]
      && next <= |querybuf| && querybuf[next..] == buf[pos + n + 2..]
    }

    lemma ArgumentTakenIs(buf: bytes, pos: nat, n: int, argv0: Argv, next: nat)
      requires 0 <= n && pos + n + 2 <= |buf| && argv == argv0 + [buf[pos..pos + n]]
      requires next <= |querybuf| && querybuf[next..] == buf[pos + n + 2..]
      ensures ArgumentTaken(buf, pos, n, argv0, next)
    {}

    ghost predicate AtBody(cmds: seq<Request>, pos: nat)
      reads this
    {
      && !closing && WellSized(cmds) && reqtype == Multibulk
      && (|querybuf| <= REDIS_INLINE_MAX_SIZE || (pos == 0 && bulklen >= REDIS_MBULK_BIG_ARG && |querybuf| <= bulklen + 2))
    }

    lemma ArgDone(cmds: seq<Request>, unread: bytes, next: nat, argv': Argv, tail: bytes)
      requires !closing && WellSized(cmds) && reqtype == Multibulk && bulklen == -1 && multibulklen >= 0
      requires next <= |querybuf| <= REDIS_INLINE_MAX_SIZE && querybuf[next..] == tail && argv == argv'
      requires BodyOk(cmds, multibulklen, argv', tail + unread)
      ensures if multibulklen == 0 then Complete(cmds, unread, next) else InLoop(cmds, unread, next)
    {
      hide Expects, WellSized, Wire;
    }

    /** The argument becomes an object; a buffer that holds just that argument is handed over whole. */
    method TakeArg(pos: nat, ghost argv': Argv, ghost tail: bytes) returns (next: nat)
      requires 0 <= bulklen && pos + bulklen + 2 <= |querybuf|
      requires argv' == argv + [querybuf[pos..pos + bulklen]] && tail == querybuf[pos + bulklen + 2..]
      modifies this`querybuf, this`argv
      ensures argv == argv' && next <= |querybuf| <= old(|querybuf|) && querybuf[next..] == tail
      ensures |querybuf| - next == old(|querybuf|) - pos - bulklen - 2
      ensures old(|querybuf|) == pos + bulklen + 2 && pos == 0 && bulklen >= REDIS_MBULK_BIG_ARG ==> querybuf == []
    {
      if pos == 0 && bulklen >= REDIS_MBULK_BIG_ARG && |querybuf| == bulklen + 2 {
        argv := argv + [querybuf[..|querybuf| - 2]];
        querybuf := [];
        next := 0;
      } else {
        argv := argv + [querybuf[pos..pos + bulklen]];
        next := pos + bulklen + 2;
      }
    }

    /** A whole argument is there: its bytes, and what follows. */
    lemma BodyFacts(cmds: seq<Request>, unread: bytes, pos: nat)
      requires InLoop(cmds, unread, pos) && bulklen >= 0 && |querybuf| - pos >= bulklen + 2
      ensures AtBody(cmds, pos)
      ensures BodyOk(cmds, multibulklen - 1, argv + [querybuf[pos..pos + bulklen]], querybuf[pos + bulklen + 2..] + unread)
    {
      assert AtBody(cmds, pos);
      assert Expects(cmds, argv, multibulklen, bulklen, querybuf[pos..] + unread) && multibulklen > 0;
      hide *;
      BodySlices(querybuf, pos, bulklen, unread);
      ArgTaken(cmds, argv, multibulklen, bulklen, querybuf[pos..] + unread, querybuf[pos..pos + bulklen], querybuf[pos + bulklen + 2..] + unread);
    }

    /** A well-formed stream at an argument header. */
    lemma HeaderFacts(cmds: seq<Request>, unread: bytes, pos: nat, newline: int)
      requires InLoop(cmds, unread, pos) && bulklen == -1 && IsStrchr(querybuf, pos, newline)
      ensures newline == -1 || newline > |querybuf| - 2 ==> |querybuf| - pos < MAX_LINE && NoLine(querybuf, pos)
      ensures pos <= newline <= |querybuf| - 2 ==> HeaderOk(cmds, unread, pos, newline)
    {
      var todo := cmds[0].argv[|argv|..];
      var a := todo[0];
      assert a == cmds[0].argv[|argv|] && todo[1..] == cmds[0].argv[|argv| + 1..];
      assert |a| <= MAX_BULK;
      BulksHead(todo);
      var more := a + CRLF + Bulks(todo[1..]) + Wire(cmds[1..]);
      hide Bulks, Wire, Line, Print, IsStrchr, WellSized;
      Assoc(Line(DOLLAR, |a|), a + CRLF + Bulks(todo[1..]), Wire(cmds[1..]));
      FoundLine(pos, newline, DOLLAR, |a|, more, unread);
      PrintShort(|a|);
    }

    // ---- the count header, and the whole function

    /** What every call finds and leaves, well-formed input or not. */
    ghost predicate Sane()
      reads this
    {
      && -1 <= bulklen && 0 <= multibulklen
      && (multibulklen == 0 ==> argv == [] && bulklen == -1)
      && (multibulklen > 0 ==> reqtype == Multibulk)
      && (multibulklen == 0 && reqtype == Multibulk && !closing ==> querybuf != [] && querybuf[0] == STAR)
    }

    /** The header that ends at `newline` announces the request that the stream has next. */
    ghost predicate CountOk(cmds: seq<Request>, unread: bytes, newline: nat)
      requires newline <= |querybuf| - 2
      reads this
    {
      && cmds != [] && 1 <= newline && querybuf[1..newline] == Print(cmds[0].count) && Sized(cmds[0]) && InLL(cmds[0].count)
      && (cmds[0].argv == [] ==> querybuf[newline + 2..] + unread == Wire(cmds[1..]))
      && (cmds[0].argv != [] ==> Expects(cmds, [], cmds[0].count, -1, querybuf[newline + 2..] + unread))
    }

    lemma CountedRight(cmds: seq<Request>, unread: bytes, newline: nat)
      requires newline <= |querybuf| - 2 && CountOk(cmds, unread, newline)
      ensures cmds != [] && CountAt(querybuf, newline) == Some(cmds[0].count)
    {
      CountAtIs(querybuf, newline);
      NumberIs(querybuf[1..newline], true, cmds[0].count);
      hide Number, Print;
    }

    /** The client at a well-formed count header. */
    lemma AtCount(cmds: seq<Request>, unread: bytes, newline: nat)
      requires On(cmds, unread) && multibulklen == 0 && newline <= |querybuf| - 2 && CountOk(cmds, unread, newline)
      ensures !closing && WellSized(cmds) && cmds != [] && argv == [] && bulklen == -1 && Sized(cmds[0])
      ensures cmds[0].argv == [] ==> querybuf[newline + 2..] + unread == Wire(cmds[1..])
      ensures cmds[0].argv != [] ==> Expects(cmds, [], cmds[0].count, -1, querybuf[newline + 2..] + unread)
    {
      hide WellSized, Sized, Wire;
    }

    /** The count taken: nothing to read for it, or its arguments. */
    lemma CountDone(cmds: seq<Request>, unread: bytes, buf: bytes, end: nat, next: nat)
      requires 2 <= end <= |buf| <= REDIS_INLINE_MAX_SIZE && !closing && WellSized(cmds) && cmds != [] && reqtype == Multibulk
      requires argv == [] && bulklen == -1 && Sized(cmds[0])
      requires cmds[0].argv == [] ==> buf[end..] + unread == Wire(cmds[1..])
      requires cmds[0].argv != [] ==> Expects(cmds, [], cmds[0].count, -1, buf[end..] + unread)
      requires CountTaken(buf, cmds[0].count, end, next)
      ensures if multibulklen == 0 then Complete(cmds, unread, 0) else InLoop(cmds, unread, next)
    {
      assert querybuf[0..] == querybuf;
      hide WellSized, Expects, Wire;
    }

    lemma CountReadIs(buf: bytes, turn: Turn, next: nat)
      ensures CountRead(buf, turn, next) <==> match CountHead(buf)
        case Partial => turn.Wait? && next == 0 && querybuf == buf && !closing && multibulklen == 0
        case TooLong => turn.Wait? && next == 0 && querybuf == buf && closing && multibulklen == 0
        case Invalid => turn.Fail? && next == 0 && querybuf == buf && closing && multibulklen == 0
        case Says(n, end) => turn.Next? && !closing && CountTaken(buf, n, end, next)
    {
      hide CountHead, CountTaken;
    }

    /** A well-formed stream at a count header. */
    lemma CountFacts(cmds: seq<Request>, unread: bytes, newline: int)
      requires WellSized(cmds) && querybuf != [] && querybuf + unread == Wire(cmds) && IsStrchr(querybuf, 0, newline)
      ensures cmds != []
      ensures newline == -1 || newline > |querybuf| - 2 ==> |querybuf| < MAX_LINE && NoLine(querybuf, 0)
      ensures 0 <= newline <= |querybuf| - 2 ==>
        CountOk(cmds, unread, newline)
    {
      var n, more := cmds[0].count, Bulks(cmds[0].argv) + Wire(cmds[1..]);
      WireHead(cmds);
      assert querybuf[0..] == querybuf && cmds[0].argv[0..] == cmds[0].argv;
      assert Sized(cmds[0]) && InLL(n);
      assert cmds[0].argv == [] ==> Bulks(cmds[0].argv) == [] && more == Wire(cmds[1..]);
      hide Line, Print, Wire, Bulks, Sized;
      FoundLine(0, newline, STAR, n, more, unread);
      PrintLL(n);
    }

    /** Lines 853-892: the number of arguments. */
    method ReadCount(ghost cmds: seq<Request>, ghost unread: bytes) returns (turn: Turn, next: nat)
      requires Sane() && multibulklen == 0 && reqtype == Multibulk && !closing
      modifies this`closing, this`querybuf, this`multibulklen
      ensures CountRead(old(querybuf), turn, next)
      ensures old(On(cmds, unread)) ==> cmds != [] && !turn.Fail? && !closing
      ensures old(On(cmds, unread)) && turn.Wait? ==> |querybuf| < MAX_LINE && NoLine(querybuf, 0)
      ensures old(On(cmds, unread)) && old(|querybuf|) <= REDIS_INLINE_MAX_SIZE && turn.Next? ==>
        if multibulklen == 0 then Complete(cmds, unread, 0) else InLoop(cmds, unread, next)
    {
      ghost var wf, buf := On(cmds, unread), querybuf;
      if wf { CountFacts(cmds, unread, Strchr(querybuf, 0)); }
      CountHeadIs(buf);
      hide *;
      turn, next := Wait, 0;
      var newline, there := FindLine(0);
      if there { turn, next := ReadNumber(newline, cmds, unread, wf); }
      CountReadIs(buf, turn, next);
    }

    /** Lines 872-892: the count in the header that ends at `newline`. */
    method ReadNumber(newline: nat, ghost cmds: seq<Request>, ghost unread: bytes, ghost wf: bool) returns (turn: Turn, next: nat)
      requires newline <= |querybuf| - 2 && multibulklen == 0 && !closing
      requires wf ==> On(cmds, unread) && reqtype == Multibulk && CountOk(cmds, unread, newline)
      modifies this`closing, this`querybuf, this`multibulklen
      ensures match CountAt(old(querybuf), newline)
        case None => turn.Fail? && next == 0 && querybuf == old(querybuf) && closing && multibulklen == 0
        case Some(n) => turn.Next? && !closing && CountTaken(old(querybuf), n, newline + 2, next)
      ensures wf ==> turn.Next?
      ensures wf && |old(querybuf)| <= REDIS_INLINE_MAX_SIZE ==>
        if multibulklen == 0 then Complete(cmds, unread, 0) else InLoop(cmds, unread, next)
    {
      ghost var buf := querybuf;
      if wf {
        CountedRight(cmds, unread, newline);
        AtCount(cmds, unread, newline);
      }
      hide *;
      var ok, ll := ParseCount(newline);
      if !ok {
        SetProtocolError(0);
        return Fail, 0;
      }
      turn := Next;
      next := TakeCount(ll, newline + 2);
      if wf && |buf| <= REDIS_INLINE_MAX_SIZE { CountDone(cmds, unread, buf, newline + 2, next); }
    }

    method ParseCount(newline: nat) returns (ok: bool, ll: int)
      requires newline <= |querybuf| - 2
      ensures CountAt(querybuf, newline) == if ok then Some(ll) else None
    {
      ghost var text := if newline > 0 then querybuf[1..newline] else [];
      CountAtIs(querybuf, newline);
      hide *;
      ok, ll := String2ll(if newline > 0 then querybuf[1..newline] else []);
      NumberIs(text, ok, ll);
      ok := ok && ll <= MAX_MULTIBULK;
    }

    /** A count of 0 or less leaves the buffer at once. */
    method TakeCount(ll: int, end: nat) returns (next: nat)
      requires end <= |querybuf| && multibulklen == 0
      modifies this`querybuf, this`multibulklen
      ensures CountTaken(old(querybuf), ll, end, next)
    {
      next := end;
      if ll <= 0 {
        querybuf := querybuf[next..];
        next := 0;
      } else {
        multibulklen := ll;
      }
    }

    /** What the count header `buf` begins with makes of the client: a count of 0 or less is
        dropped, a line that is no count closes the connection. */
    ghost predicate CountRead(buf: bytes, turn: Turn, next: nat)
      reads this
    {
      match CountHead(buf)
      case Partial => turn.Wait? && next == 0 && querybuf == buf && !closing && multibulklen == 0
      case TooLong => turn.Wait? && next == 0 && querybuf == buf && closing && multibulklen == 0
      case Invalid => turn.Fail? && next == 0 && querybuf == buf && closing && multibulklen == 0
      case Says(n, end) => turn.Next? && !closing && CountTaken(buf, n, end, next)
    }

    ghost predicate CountTaken(buf: bytes, n: int, end: nat, next: nat)
      requires end <= |buf|
      reads this
    {
      if n <= 0 then next == 0 && querybuf == buf[end..] && multibulklen == 0
      else next == end && querybuf == buf && multibulklen == n
    }

    /** processMultibulkBuffer: true when a command is complete (or had no arguments). */
    method ProcessMultibulkBuffer(ghost cmds: seq<Request>, ghost unread: bytes) returns (ok: bool)
      requires Sane() && reqtype == Multibulk && !closing
      modifies this
      ensures reqtype == Multibulk && executed == old(executed) && (old(Room()) && old(On(cmds, unread)) ==> Room())
      ensures ok ==> multibulklen == 0 && bulklen == -1 && !closing && |querybuf| < old(|querybuf|)
      ensures !ok ==> Sane()
      ensures old(multibulklen) == 0 ==> NewRequest(old(querybuf), ok)
      ensures old(On(cmds, unread)) && old(Room()) ==>
        if ok then Complete(cmds, unread, 0) else On(cmds, unread) && Starved()
    {
      ghost var wf, buf := On(cmds, unread) && Room(), querybuf;
      var turn, pos: nat := Next, 0;
      assert querybuf[0..] == querybuf;
      hide Expects, WellSized, Complete, CountRead, NewRequest, NoLine;
      if multibulklen == 0 {
        turn, pos := ReadCount(cmds, unread);
        CountReadMeans(buf, turn, pos);
        if !turn.Next? { return false; }
        if multibulklen == 0 { return true; }
      }
      ok := ReadRest(pos, cmds, unread, wf);
      LaterRequest(buf, ok);
    }

    /** What a count header at the start of `buf` alone decides. */
    ghost predicate NewRequest(buf: bytes, ok: bool)
      reads this
    {
      match CountHead(buf)
      case Says(n, end) => n <= 0 ==> ok && querybuf == buf[end..] && argv == []
      case Partial => !ok && !closing && querybuf == buf
      case _ => !ok && closing && querybuf == buf
    }

    lemma CountReadMeans(buf: bytes, turn: Turn, next: nat)
      requires CountRead(buf, turn, next) && argv == []
      ensures next <= |querybuf| && (if turn.Next? then !closing && |querybuf| - next < |buf| else multibulklen == 0 && querybuf == buf)
      ensures turn.Next? ==> multibulklen > 0 || (multibulklen == 0 && next == 0)
      ensures if turn.Next? && multibulklen > 0 then AnyRequest(buf) else NewRequest(buf, turn.Next?)
    {
      hide CountHead;
      CountHeadEnds(buf);
    }

    lemma LaterRequest(buf: bytes, ok: bool)
      ensures AnyRequest(buf) ==> NewRequest(buf, ok)
    {
      hide CountHead;
    }

    /** Lines 895-982: the arguments, as far as they are there. */
    method ReadRest(pos0: nat, ghost cmds: seq<Request>, ghost unread: bytes, ghost wf: bool) returns (ok: bool)
      requires 0 < multibulklen && -1 <= bulklen && pos0 <= |querybuf| && reqtype == Multibulk && !closing
      requires wf ==> InLoop(cmds, unread, pos0)
      modifies this
      ensures reqtype == Multibulk && executed == old(executed) && (wf ==> Room())
      ensures ok ==> multibulklen == 0 && bulklen == -1 && !closing && |querybuf| < old(|querybuf|) - pos0
      ensures !ok ==> Sane()
      ensures wf ==> if ok then Complete(cmds, unread, 0) else On(cmds, unread) && Starved()
    {
      hide Expects, WellSized, Complete, InLoop, StarvedAt, On, Starved, Room;
      var turn, pos := ReadArguments(pos0, cmds, unread);
      if turn.Fail? { return false; }
      ok := Consume(pos, cmds, unread, wf);
    }

    /** Some data is missing, having consumed `pos` bytes. */
    ghost predicate StarvedAt(pos: nat)
      reads this
      requires pos <= |querybuf|
    {
      if bulklen == -1 then |querybuf| - pos < MAX_LINE && NoLine(querybuf, pos) else |querybuf| - pos < bulklen + 2
    }

    /** The consumed bytes leave the buffer. */
    method Consume(pos: nat, ghost cmds: seq<Request>, ghost unread: bytes, ghost wf: bool) returns (ok: bool)
      requires pos <= |querybuf| && 0 <= multibulklen && (multibulklen > 0 ==> reqtype == Multibulk) && -1 <= bulklen
      requires wf ==> if multibulklen == 0 then Complete(cmds, unread, pos) else InLoop(cmds, unread, pos) && StarvedAt(pos)
      modifies `querybuf
      ensures querybuf == old(querybuf)[pos..] && ok == (multibulklen == 0)
      ensures wf ==> Room() && if ok then Complete(cmds, unread, 0) else On(cmds, unread) && Starved()
    {
      hide Expects, WellSized;
      querybuf := querybuf[pos..];
      assert querybuf[0..] == querybuf;
      ok := multibulklen == 0;
    }

    /** The loop over the arguments. */
    method ReadArguments(pos0: nat, ghost cmds: seq<Request>, ghost unread: bytes) returns (turn: Turn, pos: nat)
      requires 0 < multibulklen && -1 <= bulklen && pos0 <= |querybuf| && reqtype == Multibulk && !closing
      modifies this
      ensures reqtype == Multibulk && executed == old(executed) && pos <= |querybuf| && -1 <= bulklen && 0 <= multibulklen
      ensures multibulklen == 0 ==> !turn.Fail? && !closing
      ensures |querybuf| - pos <= old(|querybuf|) - pos0
      ensures multibulklen == 0 ==> bulklen == -1 && |querybuf| - pos < old(|querybuf|) - pos0
      ensures old(InLoop(cmds, unread, pos0)) ==>
        !turn.Fail? && if multibulklen == 0 then Complete(cmds, unread, pos) else InLoop(cmds, unread, pos) && StarvedAt(pos)
    {
      ghost var wf := InLoop(cmds, unread, pos0);
      ghost var size := |querybuf| - pos0;
      turn, pos := Next, pos0;
      hide Expects, WellSized, InLoop, Complete, StarvedAt;
      while multibulklen > 0
        invariant 0 <= multibulklen && -1 <= bulklen && pos <= |querybuf| && reqtype == Multibulk && executed == old(executed)
        invariant turn.Next? && !closing && |querybuf| - pos <= size
        invariant multibulklen == 0 ==> bulklen == -1 && |querybuf| - pos < size
        invariant wf ==> if multibulklen == 0 then Complete(cmds, unread, pos) else InLoop(cmds, unread, pos)
        decreases multibulklen
      {
        turn, pos := ReadArgument(pos, cmds, unread);
        if !turn.Next? { return; }
      }
    }

    /** The header, unless it was read before, and the bytes of one argument. */
    method ReadArgument(pos0: nat, ghost cmds: seq<Request>, ghost unread: bytes) returns (turn: Turn, pos: nat)
      requires 0 < multibulklen && -1 <= bulklen && pos0 <= |querybuf| && reqtype == Multibulk && !closing
      modifies this
      ensures reqtype == Multibulk && executed == old(executed) && pos <= |querybuf| && -1 <= bulklen
      ensures multibulklen == if turn.Next? then old(multibulklen) - 1 else old(multibulklen)
      ensures turn.Next? ==> !closing
      ensures |querybuf| - pos <= old(|querybuf|) - pos0
      ensures turn.Next? ==> bulklen == -1 && |querybuf| - pos < old(|querybuf|) - pos0
      ensures ArgumentRead(old(querybuf), pos0, old(bulklen), old(argv), turn, pos)
      ensures old(InLoop(cmds, unread, pos0)) ==>
        && !turn.Fail? && (turn.Wait? ==> InLoop(cmds, unread, pos) && StarvedAt(pos))
        && (turn.Next? ==> if multibulklen == 0 then Complete(cmds, unread, pos) else InLoop(cmds, unread, pos))
    {
      turn, pos := Next, pos0;
      ghost var buf, argv0, n := querybuf, argv, bulklen;
      hide *;
      if bulklen == -1 {
        turn, pos := ReadBulkHeader(pos, cmds, unread);
        HeaderReadMeans(buf, pos0, false, turn, pos);
        if !turn.Next? {
          NoHeader(buf, pos0, argv0, turn, pos);
          return;
        }
      }
      BodyAhead(buf, pos0, n, pos);
      ghost var at, ready, m := pos, querybuf, bulklen;
      turn, pos := ReadBulkBody(pos, cmds, unread);
      BodyRead(buf, pos0, n, argv0, ready, at, m, turn, pos);
    }

    /** What the header and the bytes of an argument make of the client. */
    ghost predicate ArgumentRead(buf: bytes, pos0: nat, n0: int, argv0: Argv, turn: Turn, pos: nat)
      reads this
    {
      pos0 <= |buf| && if n0 == -1 then match BulkHead(buf, pos0)
        case Says(n, end) => BodyOf(buf, end, n, argv0, turn, pos)
        case _ => argv == argv0 && HeaderRead(buf, pos0, false, turn, pos)
      else BodyOf(buf, pos0, n0, argv0, turn, pos)
    }

    /** An argument of `n` bytes, due at `at`, is taken, or not all there yet. */
    ghost predicate BodyOf(buf: bytes, at: nat, n: int, argv0: Argv, turn: Turn, pos: nat)
      reads this
    {
      && at <= |buf| && !closing && if |buf| - at < n + 2
        then turn.Wait? && bulklen == n && argv == argv0 && pos <= |querybuf| && querybuf[pos..] == buf[at..]
        else turn.Next? && bulklen == -1 && ArgumentTaken(buf, at, n, argv0, pos)
    }

    lemma NoHeader(buf: bytes, pos0: nat, argv0: Argv, turn: Turn, pos: nat)
      requires pos0 <= |buf| && HeaderRead(buf, pos0, false, turn, pos) && !turn.Next? && argv == argv0
      ensures ArgumentRead(buf, pos0, -1, argv0, turn, pos)
      ensures pos <= |querybuf| && bulklen == -1 && |querybuf| - pos < MAX_LINE && NoLine(querybuf, pos) ==> StarvedAt(pos)
    {
      hide BulkHead, NoLine;
    }

    lemma BodyAhead(buf: bytes, pos0: nat, n0: int, pos: nat)
      requires pos0 <= |buf|
      requires if n0 == -1 then HeaderRead(buf, pos0, false, Next, pos) else querybuf == buf && pos == pos0 && n0 == bulklen >= 0
      ensures Ahead(buf, pos0, n0, querybuf, pos, bulklen)
    {
      hide BulkHead;
    }

    lemma BodyRead(buf: bytes, pos0: nat, n0: int, argv0: Argv, ready: bytes, at: nat, n: int, turn: Turn, pos: nat)
      requires !closing && Ahead(buf, pos0, n0, ready, at, n) && !turn.Fail?
      requires turn.Wait? ==> querybuf == ready && pos == at && argv == argv0 && bulklen == n && |ready| - at < n + 2
      requires turn.Next? ==> bulklen == -1 && ArgumentTaken(ready, at, n, argv0, pos)
      ensures ArgumentRead(buf, pos0, n0, argv0, turn, pos) && (turn.Wait? ==> StarvedAt(pos))
    {
      var from := if n0 == -1 then BulkHead(buf, pos0).next else pos0;
      assert ready[at..] == buf[from..];
      if turn.Next? { SameSlices(ready, at, buf, from, n); }
      hide BulkHead, NoLine;
    }

    /** The buffer is small, or holds at most the big argument being read. */
    ghost predicate Room()
      reads this
    {
      |querybuf| <= REDIS_INLINE_MAX_SIZE || (bulklen >= REDIS_MBULK_BIG_ARG && |querybuf| <= bulklen + 2)
    }

    /** resetClient */
    method Reset()
      modifies this`argv, this`reqtype, this`multibulklen, this`bulklen
      ensures argv == [] && reqtype == Unknown && multibulklen == 0 && bulklen == -1
    {
      argv, reqtype, multibulklen, bulklen := [], Unknown, 0, -1;
    }

    /** The command that the buffer begins with, if it is all there. */
    method ProcessOne(ghost cmds: seq<Request>, ghost unread: bytes) returns (ok: bool)
      requires Sane() && reqtype == Multibulk && !closing
      modifies this
      ensures Sane() && if ok then |querybuf| < old(|querybuf|) && reqtype == Unknown else executed == old(executed) && reqtype == Multibulk
      ensures old(multibulklen) == 0 ==> NewRequest(old(querybuf), ok) && (NoArguments(old(querybuf)) ==> executed == old(executed))
      ensures old(On(cmds, unread)) && old(Room()) ==>
        Room() && if ok then cmds != [] && executed == old(executed) + Whole(cmds[0]) && On(cmds[1..], unread)
                  else On(cmds, unread) && Starved()
    {
      hide Sane, On, Complete, Starved;
      ok := ProcessMultibulkBuffer(cmds, unread);
      if ok { Dispatch(cmds, unread); }
    }

    /** processInputBuffer, with a processCommand that succeeds. `k` commands are executed. */
    method ProcessInputBuffer(ghost cmds: seq<Request>, ghost unread: bytes) returns (ghost k: nat)
      requires Sane() && (reqtype == Inline ==> multibulklen == 0)
      modifies this
      ensures Sane()
      ensures old(closing) ==> unchanged(this)
      ensures old(On(cmds, unread)) && old(Room()) ==>
        k <= |cmds| && executed == old(executed) + Commands(cmds[..k]) && On(cmds[k..], unread) && Starved()
    {
      ghost var wf := On(cmds, unread) && Room();
      k := 0;
      NothingDid(executed, cmds);
      assert old(executed) == executed;
      hide Expects, WellSized, Did, Complete;
      while |querybuf| > 0
        invariant Sane() && (old(closing) ==> unchanged(this))
        invariant wf ==> Did(executed, old(executed), cmds, k) && On(Left(cmds, k), unread) && Room()
        decreases |querybuf|
      {
        if closing { break; }
        if reqtype == Unknown {
          if wf { FirstByte(Left(cmds, k), unread); }
          reqtype := if querybuf[0] == STAR then Multibulk else Inline;
        }
        if reqtype == Inline { break; }
        ghost var before := executed;
        var ok := ProcessOne(Left(cmds, k), unread);
        if !ok { break; }
        if wf { OneMore(executed, before, old(executed), cmds, k); }
        k := k + 1;
      }
      if wf { DidMeans(executed, old(executed), cmds, k); }
    }

    /** Hand the arguments to processCommand, if there are any, and reset the parser. */
    method Dispatch(ghost cmds: seq<Request>, ghost unread: bytes)
      requires multibulklen == 0 && bulklen == -1 && !closing
      modifies this`executed, this`argv, this`reqtype, this`multibulklen, this`bulklen
      ensures Sane() && reqtype == Unknown && executed == old(executed) + Whole(Request(0, old(argv)))
      ensures old(Complete(cmds, unread, 0)) ==> cmds != [] && executed == old(executed) + Whole(cmds[0]) && On(cmds[1..], unread)
    {
      assert querybuf[0..] == querybuf;
      if |argv| > 0 { executed := executed + [argv]; }
      Reset();
    }

    lemma FirstByte(cmds: seq<Request>, unread: bytes)
      requires On(cmds, unread) && querybuf != [] && reqtype == Unknown
      ensures querybuf[0] == STAR
    {
      assert querybuf[0] == (querybuf + unread)[0];
    }

    /** How many bytes readQueryFromClient asks for. */
    function ReadLen(): int
      reads this
    {
      if reqtype == Multibulk && multibulklen > 0 && bulklen != -1 && bulklen >= REDIS_MBULK_BIG_ARG
         && bulklen + 2 - |querybuf| < REDIS_IOBUF_LEN
      then bulklen + 2 - |querybuf| else REDIS_IOBUF_LEN
    }

    /** What a read keeps, whatever it brings. */
    lemma SaneIs()
      ensures Sane() ==> (reqtype == Inline ==> multibulklen == 0)
      ensures Sane() <==>
        && -1 <= bulklen && 0 <= multibulklen && (multibulklen == 0 ==> argv == [] && bulklen == -1)
        && (multibulklen > 0 ==> reqtype == Multibulk)
        && (multibulklen == 0 && reqtype == Multibulk && !closing ==> querybuf != [] && querybuf[0] == STAR)
    {}

    /** A read of the length that is asked for, in a starved parser: the buffer stays small, or
        holds at most the big argument. */
    lemma Arriving(cmds: seq<Request>, chunk: bytes, unread: bytes)
      requires On(cmds, chunk + unread) && Starved() && |chunk| <= ReadLen()
      ensures WellSized(cmds) && !closing && -1 <= bulklen && 0 <= multibulklen && reqtype != Inline
      ensures multibulklen > 0 ==> reqtype == Multibulk
      ensures Expects(cmds, argv, multibulklen, bulklen, querybuf + chunk + unread)
      ensures |querybuf + chunk| <= REDIS_INLINE_MAX_SIZE < REDIS_MAX_QUERYBUF_LEN
        || (bulklen >= REDIS_MBULK_BIG_ARG && |querybuf + chunk| <= bulklen + 2 <= REDIS_MAX_QUERYBUF_LEN)
    {
      Assoc(querybuf, chunk, unread);
      BulkFits(cmds, querybuf + (chunk + unread));
      if multibulklen == 0 { assert Expects(cmds, argv, 0, bulklen, querybuf + (chunk + unread)); }
      NextRead(chunk);
      hide Expects, WellSized, Starved, ReadLen;
    }

    lemma BulkFits(cmds: seq<Request>, rest: bytes)
      requires WellSized(cmds) && Expects(cmds, argv, multibulklen, bulklen, rest)
      ensures bulklen <= MAX_BULK
    {
      if multibulklen != 0 { assert Sized(cmds[0]); }
      hide Wire, Bulks;
    }

    lemma NextRead(chunk: bytes)
      requires Starved() && |chunk| <= ReadLen() && -1 <= bulklen <= MAX_BULK && (multibulklen > 0 ==> reqtype == Multibulk)
      requires 0 <= multibulklen && (multibulklen == 0 ==> bulklen == -1)
      ensures |querybuf + chunk| <= REDIS_INLINE_MAX_SIZE < REDIS_MAX_QUERYBUF_LEN
        || (bulklen >= REDIS_MBULK_BIG_ARG && |querybuf + chunk| <= bulklen + 2 <= REDIS_MAX_QUERYBUF_LEN)
    {
      hide NoLine;
    }

    lemma Arrived(cmds: seq<Request>, unread: bytes)
      requires WellSized(cmds) && !closing && -1 <= bulklen && 0 <= multibulklen && reqtype != Inline
      requires multibulklen > 0 ==> reqtype == Multibulk
      requires Expects(cmds, argv, multibulklen, bulklen, querybuf + unread)
      requires |querybuf| <= REDIS_INLINE_MAX_SIZE || (bulklen >= REDIS_MBULK_BIG_ARG && |querybuf| <= bulklen + 2)
      ensures On(cmds, unread) && Room()
    {
      hide Expects, WellSized;
    }

    /** readQueryFromClient, on a read that returned `chunk`. */
    method ReadQuery(chunk: bytes, ghost cmds: seq<Request>, ghost unread: bytes) returns (freed: bool, ghost k: nat)
      requires Sane() && |chunk| <= ReadLen()
      modifies this
      ensures !freed ==> Sane()
      ensures freed <==> old(|querybuf|) + |chunk| > REDIS_MAX_QUERYBUF_LEN
      ensures freed ==> executed == old(executed)
      ensures old(On(cmds, chunk + unread)) && old(Starved()) ==>
        !freed && k <= |cmds| && executed == old(executed) + Commands(cmds[..k]) && On(cmds[k..], unread) && Starved()
    {
      freed, k := false, 0;
      ghost var wf := On(cmds, chunk + unread) && Starved();
      if wf { Arriving(cmds, chunk, unread); }
      SaneIs();
      hide *;
      querybuf := querybuf + chunk;
      if |querybuf| > REDIS_MAX_QUERYBUF_LEN { return true, 0; }
      SaneIs();
      if wf { Arrived(cmds, unread); }
      k := ProcessInputBuffer(cmds, unread);
    }
  }

  ghost predicate Serving(c: Client, cmds: seq<Request>, todo: seq<Request>, unread: bytes)
    reads c
  {
    c.Sane() && c.On(todo, unread) && c.Starved() && c.executed + Commands(todo) == Commands(cmds)
  }

  /** One read, of a size between 1 and what was asked for. */
  method ReadSome(c: Client, unread: bytes, size: nat, ghost cmds: seq<Request>, ghost todo0: seq<Request>)
    returns (rest: bytes, ghost todo: seq<Request>)
    requires unread != [] && Serving(c, cmds, todo0, unread)
    modifies c
    ensures Serving(c, cmds, todo, rest) && |rest| < |unread|
  {
    hide Expects, WellSized;
    var most := if c.ReadLen() < |unread| then c.ReadLen() else |unread|;
    var n := 1 + size % most;
    var chunk := unread[..n];
    rest := unread[n..];
    assert chunk + rest == unread;
    var freed, k := c.ReadQuery(chunk, todo0, rest);
    todo := todo0[k..];
    assert todo0 == todo0[..k] + todo;
    CommandsConcat(todo0[..k], todo);
    Assoc(old(c.executed), Commands(todo0[..k]), Commands(todo));
  }

  /** Every list of commands, printed and received in pieces of any size that `read` may
      return, is executed exactly, in order. */
  method Serve(cmds: seq<Request>, sizes: nat -> nat) returns (executed: seq<Argv>)
    requires WellSized(cmds)
    ensures executed == Commands(cmds)
  {
    var c := new Client();
    var unread := Wire(cmds);
    ghost var todo := cmds;
    var i := 0;
    assert [] + unread == unread;
    while unread != []
      invariant Serving(c, cmds, todo, unread)
      decreases |unread|
    {
      unread, todo := ReadSome(c, unread, sizes(i), cmds, todo);
      i := i + 1;
    }
    Drained(c, todo);
    executed := c.executed;
  }

  /** With nothing more to read, a parser that waits has nothing to wait for. */
  lemma Drained(c: Client, cmds: seq<Request>)
    requires c.On(cmds, []) && c.Starved()
    ensures cmds == []
  {
    assert c.querybuf + [] == c.querybuf;
    if cmds != [] {
      if c.multibulklen == 0 {
        DrainedCount(c.querybuf, cmds);
      } else if c.bulklen == -1 {
        hide Wire, Line, NoLine;
        DrainedBulk(c.querybuf, cmds[0].argv[|c.argv|..], Wire(cmds[1..]));
      }
    }
  }

  lemma DrainedCount(buf: bytes, cmds: seq<Request>)
    requires cmds != [] && buf == Wire(cmds)
    ensures !NoLine(buf, 0)
  {
    WireHead(cmds);
    hide Wire, NoLine, Line;
    LineIn(buf, STAR, cmds[0].count, Bulks(cmds[0].argv) + Wire(cmds[1..]));
  }

  lemma DrainedBulk(buf: bytes, todo: Argv, rest: bytes)
    requires todo != [] && buf == Bulks(todo) + rest
    ensures !NoLine(buf, 0)
  {
    BulksHead(todo);
    hide *;
    var more := todo[0] + CRLF + Bulks(todo[1..]);
    Assoc(Line(DOLLAR, |todo[0]|), more, rest);
    LineIn(buf, DOLLAR, |todo[0]|, more + rest);
  }

  lemma LineIn(buf: bytes, prefix: byte, n: int, more: bytes)
    requires buf == Line(prefix, n) + more
    ensures !NoLine(buf, 0)
  {
    var r := |Line(prefix, n)| - 2;
    assert buf[r] == Line(prefix, n)[r..][0] == CR;
  }

  /** What string2ll returns is the number, if there is one. */
  lemma NumberIs(s: bytes, ok: bool, value: int)
    requires ok ==> InLL(value) && s == Print(value)
    requires !ok ==> forall v | InLL(v) :: s != Print(v)
    ensures Number(s) == if ok then Some(value) else None
  {
    if ok { PrintInjective(value, Number(s).value); }
  }
}
