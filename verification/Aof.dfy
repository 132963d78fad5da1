/** aof.c: the append only file of a running server, and its background rewrite. */
module Aof {
  import opened Sequences
  import opened Wrappers
  import opened Bytes
  import opened Decimal
  import opened Resp
  import opened AofData
  import opened AofLoad
  import opened AofRewrite
  import opened AofLogs
  import AofBuffer

  datatype Fsync = FsyncNo | FsyncAlways | FsyncEverySec

  const SELECT_HEAD: bytes := [42, 50, 13, 10, 36, 54, 13, 10, 83, 69, 76, 69, 67, 84, 13, 10]

  lemma SelectText(db: nat)
    ensures SELECT_HEAD + Bulk(Print(db)) == Cat(SelectCmd(db))
  {
    BulksTwo(SELECT, Print(db));
    SelectHead();
    var cmd := SelectCmd(db);
    assert Cat(cmd) == Line(STAR, 2) + Bulks(cmd);
    hide Line, Bulk, Bulks, Cat;
    Assoc(Line(STAR, 2), Bulk(SELECT), Bulk(Print(db)));
  }

  lemma SelectHead()
    ensures SELECT_HEAD == Line(STAR, 2) + Bulk(SELECT)
  {
    DigitLine(STAR, 2);
    DigitLine(DOLLAR, 6);
    hide Line;
    assert Bulk(SELECT) == Line(DOLLAR, 6) + SELECT + CRLF;
  }

  lemma DigitLine(prefix: byte, n: nat)
    requires n < 10
    ensures Line(prefix, n) == [prefix, 48 + n, 13, 10]
  {
    assert Print(n) == [48 + n];
  }

  /** catAppendOnlyExpireAtCommand */
  method CatExpireAt(dst: bytes, proc: Proc, now: int, key: bytes, seconds: bytes) returns (buf: bytes)
    requires |key| <= LLONG_MAX && InLL(AbsoluteTime(proc, now, seconds))
    ensures buf == dst + Cat(PExpireAtCmd(key, AbsoluteTime(proc, now, seconds)))
  {
    var parsed := ParseLL(seconds);
    var when := if parsed == None then 0 else parsed.value;
    if proc == Expire || proc == SetEx || proc == ExpireAt {
      when := when * 1000;
    }
    if proc == Expire || proc == PExpire || proc == SetEx || proc == PSetEx {
      when := when + now;
    }
    var s := Ll2string(when);
    PrintLL(when);
    var argv := [PEXPIREAT, key, s];
    buf := CatGenericCommand(dst, argv);
  }

  lemma LogTwo(a: Argv, b: Argv)
    ensures Log([a]) == Cat(a) && Log([a, b]) == Cat(a) + Cat(b)
  {
    assert [a][1..] == [] && [a, b][1..] == [b] && [b][1..] == [];
    assert Log([b]) == Cat(b) + [];
    assert Log([a]) == Cat(a) + [];
  }

  /** The text that feedAppendOnlyFile appends. */
  method FeedText(sel: int, db: nat, argv: Argv, feed: int) returns (buf: bytes)
    requires Loggable(argv) && TimeFits(feed, argv)
    ensures buf == Log(FedCmds(sel, db, feed, argv))
  {
    buf := [];
    ghost var pre: seq<Argv> := [];
    if db != sel {
      SelectText(db);
      LogTwo(SelectCmd(db), []);
      buf := SELECT_HEAD + Bulk(Print(db));
      pre := [SelectCmd(db)];
    }
    assert buf == Log(pre);
    assert FedCmds(sel, db, feed, argv) == pre + Logged(feed, argv);
    LogConcat(pre, Logged(feed, argv));
    hide FedCmds, Log, Cat;
    buf := FeedCommand(buf, argv, feed);
  }

  method FeedCommand(buf0: bytes, argv: Argv, feed: int) returns (buf: bytes)
    requires Loggable(argv) && TimeFits(feed, argv)
    ensures buf == buf0 + Log(Logged(feed, argv))
  {
    var proc := Lookup(argv[0]);
    if (proc == Expire || proc == PExpire || proc == ExpireAt) && |argv| >= 3 {
      LogTwo(PExpireAtCmd(argv[1], AbsoluteTime(proc, feed, argv[2])), []);
      hide Log, Cat, Lookup;
      buf := CatExpireAt(buf0, proc, feed, argv[1], argv[2]);
    } else if (proc == SetEx || proc == PSetEx) && |argv| >= 4 {
      var tmpargv := [SET, argv[1], argv[3]];
      LogTwo(tmpargv, PExpireAtCmd(argv[1], AbsoluteTime(proc, feed, argv[2])));
      hide Log, Cat, Lookup;
      buf := CatGenericCommand(buf0, tmpargv);
      Assoc(buf0, Cat(tmpargv), Cat(PExpireAtCmd(argv[1], AbsoluteTime(proc, feed, argv[2]))));
      buf := CatExpireAt(buf, proc, feed, argv[1], argv[2]);
    } else {
      LogTwo(argv, []);
      hide Log, Cat, Lookup;
      buf := CatGenericCommand(buf0, argv);
    }
  }

  /** What is stored, and the commands it is the text of. */
  ghost predicate Stores(file: bytes, buf: bytes, child: bool, temp: bytes, blocks: seq<bytes>, g: Logs) {
    && file == Log(g.file) && buf == Log(g.buf) && (child ==> temp == Log(g.child))
    && AofBuffer.Packed(blocks) && AofBuffer.Joined(blocks) == Log(g.diff)
  }

  lemma {:induction false} EmptyLog(cmds: seq<Argv>)
    ensures Log(cmds) == [] <==> cmds == []
  {}

  /** A dataset that may be rewritten: nothing in it is overdue, and the loader can take it. */
  predicate Snapshot(data: Dataset, now: int) {
    && Healthy(data)
    && forall j, k :: 0 <= j < |data| && k in data[j] ==> !Overdue(data[j][k], now)
  }

  /** Bytes after the commands, if they go there. */
  function FedTo(here: bool, text: bytes, cmds: seq<Argv>): bytes { if here then text + Log(cmds) else text }

  lemma FedText(text: bytes, cmds: seq<Argv>)
    ensures FedTo(true, text, cmds) == text + Log(cmds) && FedTo(false, text, cmds) == text
  {}

  /** The logs one command later. */
  ghost predicate OneCall(g: Logs, g': Logs, data: Dataset) { g'.history == g.history + [data] && g'.fileAt == g.fileAt }

  /** The file stands for the same live state, or for a later one. */
  ghost predicate Onward(g: Logs, g': Logs) { g'.history == g.history && g'.fileAt >= g.fileAt }

  ghost predicate SameFile(g: Logs, g': Logs) { g'.history == g.history && g'.fileAt == g.fileAt && g'.file == g.file && g'.buf == g.buf }

  lemma OnwardSame(g: Logs, g': Logs, g'': Logs)
    requires Onward(g, g') && SameFile(g', g'')
    ensures Onward(g, g'') && g''.file == g'.file
  {}

  lemma SameOnward(g: Logs)
    ensures Onward(g, g)
  {}

  lemma DiffDropped(g: Logs)
    ensures SameFile(g, g.(diff := []))
  {}

  /** With the text of `cmds` added where they were fed, the bytes are still those of the logs. */
  lemma StoresFed(file: bytes, buf: bytes, child: bool, temp: bytes, blocks: seq<bytes>, g: Logs, state: AofState,
                  cmds: seq<Argv>, buf': bytes, blocks': seq<bytes>, data: Dataset)
    requires Stores(file, buf, child, temp, blocks, g) && AofBuffer.Packed(blocks')
    requires buf' == FedTo(state == On, buf, cmds) && AofBuffer.Joined(blocks') == FedTo(child, AofBuffer.Joined(blocks), cmds)
    ensures Stores(file, buf', child, temp, blocks', AfterCall(g, data, state, child, cmds))
  {
    LogConcat(g.buf, cmds);
    LogConcat(g.diff, cmds);
  }

  lemma StoresNotFed(file: bytes, buf: bytes, child: bool, temp: bytes, blocks: seq<bytes>, g: Logs, state: AofState, data: Dataset)
    requires Stores(file, buf, child, temp, blocks, g)
    ensures Stores(file, buf, child, temp, blocks, AfterCall(g, data, state, child, []))
  {
    assert g.buf + [] == g.buf && g.diff + [] == g.diff;
  }

  lemma CallKeeps(other: Other, data: Dataset, st: AofState, sel: int, child: bool, g: Logs, db: nat, k: Moment, argv: Argv)
    requires Inv(other, data, st, sel, child, g) && db < |data|
    requires Loggable(argv) && TimeFits(k.feed, argv) && |k.pick| <= MAX_ARG && (st != Off ==> Durable(other, k, data, db, argv))
    ensures var o := Run(other, Live(k), data, db, argv);
      var fed := o.dirty && st != Off;
      Inv(other, o.data, st, if fed then db else sel, child,
          AfterCall(g, o.data, st, child, if fed then FedCmds(sel, db, k.feed, o.argv) else []))
  {
    var o := Run(other, Live(k), data, db, argv);
    hide *;
    if o.dirty && st != Off {
      CallFed(other, data, st, sel, child, g, db, k, argv);
    } else {
      CallNotFed(other, data, st, sel, child, g, db, k, argv);
    }
  }

  /** The child's log, then the differences. */
  function Rewritten(temp: bytes, blocks: seq<bytes>): bytes { temp + AofBuffer.Joined(blocks) }

  function Resumed(st: AofState): AofState { if st == WaitRewrite then On else st }

  lemma ResumedState(st: AofState)
    ensures Resumed(st) == if st == WaitRewrite then On else st
  {}

  lemma RenameKeeps(other: Other, data: Dataset, st: AofState, sel: int, g: Logs)
    requires Inv(other, data, st, sel, true, g) && g.history != []
    ensures var g' := AfterRename(g, st);
      && Inv(other, data, Resumed(st), -1, true, g') && Onward(g, g')
      && (Resumed(st) == On ==> Tracks(other, g'.file, -1, data))
      && (st == Off ==> Inv(other, data, Off, sel, true, g'))
  {
    Renamed(other, data, st, sel, g);
    hide Tracks;
    var g' := AfterRename(g, st);
    assert g'.file + g'.buf == g'.file;
  }

  /** The write may wait for a background fsync, for two seconds. */
  predicate PutOff(fsync: Fsync, force: bool, syncInProgress: bool, unixtime: int, postponed: int) {
    fsync == FsyncEverySec && !force && syncInProgress && (postponed == 0 || unixtime - postponed < 2)
  }

  /** When the oldest write that waits was put off first; 0 when none waits. */
  function PostponedAfter(fsync: Fsync, force: bool, syncInProgress: bool, unixtime: int, postponed: int): int {
    if PutOff(fsync, force, syncInProgress, unixtime, postponed) then (if postponed == 0 then unixtime else postponed) else 0
  }

  /** Calls of flushAppendOnlyFile, by the time and whether an fsync was in progress, on a
      buffer that holds something: each of them is put off. */
  ghost predicate AllPutOff(fsync: Fsync, calls: seq<(int, bool)>, postponed: int) {
    calls == [] || (
      && PutOff(fsync, false, calls[0].1, calls[0].0, postponed)
      && AllPutOff(fsync, calls[1..], PostponedAfter(fsync, false, calls[0].1, calls[0].0, postponed)))
  }

  lemma {:induction false} PutOffSince(fsync: Fsync, calls: seq<(int, bool)>, postponed: int)
    requires AllPutOff(fsync, calls, postponed) && calls != [] && postponed != 0
    ensures calls[|calls| - 1].0 - postponed < 2
    decreases |calls|
  {
    if |calls| > 1 { PutOffSince(fsync, calls[1..], postponed); }
  }

  /** However often it is tried in between, a write is not put off for two seconds or more: of
      calls that are all put off, the last comes less than two seconds after the first. The
      clock has passed 0, and a write that waits already began to wait before the first call. */
  lemma DelayBounded(fsync: Fsync, calls: seq<(int, bool)>, postponed: int)
    requires AllPutOff(fsync, calls, postponed) && |calls| > 1 && 0 < calls[0].0 && postponed <= calls[0].0
    ensures calls[|calls| - 1].0 - calls[0].0 < 2
  {
    var p := PostponedAfter(fsync, false, calls[0].1, calls[0].0, postponed);
    assert p != 0 && p <= calls[0].0;
    PutOffSince(fsync, calls[1..], p);
  }

  /** Whether the event writes the buffer, which is not put off. */
  predicate Writes(e: Event, buf: bytes, fsync: Fsync, postponed: int) {
    && e.Flushing? && -1 <= e.nwritten <= |buf| && buf != []
    && !PutOff(fsync, e.force, e.syncInProgress, e.unixtime, postponed)
  }

  /** Whether a write that the event makes is cut short or fails, after which the process exits. */
  predicate Exits(e: Event, off: bool, buf: bytes, fsync: Fsync, postponed: int) {
    match e
    case Flushing(_, _, _, nwritten, _) => Writes(e, buf, fsync, postponed) && nwritten != |buf|
    case Stopping(_, nwritten, _) => !off && -1 <= nwritten <= |buf| && buf != [] && nwritten != |buf|
    case _ => false
  }

  predicate CanExit(e: Event) { e.Flushing? || e.Stopping? }

  lemma ExitsIs(e: Event, off: bool, buf: bytes, fsync: Fsync, postponed: int)
    ensures e.Flushing? ==> (Writes(e, buf, fsync, postponed) <==>
      -1 <= e.nwritten <= |buf| && buf != [] && !PutOff(fsync, e.force, e.syncInProgress, e.unixtime, postponed))
    ensures Exits(e, off, buf, fsync, postponed) <==>
      || (e.Flushing? && Writes(e, buf, fsync, postponed) && e.nwritten != |buf|)
      || (e.Stopping? && !off && -1 <= e.nwritten <= |buf| && buf != [] && e.nwritten != |buf|)
    ensures Exits(e, off, buf, fsync, postponed) ==> CanExit(e)
  {
    hide PutOff;
  }

  lemma StoresFlushed(file: bytes, buf: bytes, child: bool, temp: bytes, blocks: seq<bytes>, g: Logs)
    requires Stores(file, buf, child, temp, blocks, g) && g.history != []
    ensures Stores(file + buf, [], child, temp, blocks, AfterFlush(g))
  {
    LogConcat(g.file, g.buf);
    assert file + [] == file;
  }

  lemma NothingToFlush(g: Logs, buf: bytes)
    requires buf == Log(g.buf) && g.history != []
    ensures buf == [] ==> AfterFlush(g) == g
  {
    EmptyLog(g.buf);
  }

  lemma NotPutOff(fsync: Fsync, unixtime: int, postponed: int)
    ensures !PutOff(fsync, true, false, unixtime, postponed) && PostponedAfter(fsync, true, false, unixtime, postponed) == 0
  {}

  lemma StoresDropped(file: bytes, buf: bytes, child: bool, temp: bytes, blocks: seq<bytes>, g: Logs)
    requires Stores(file, buf, child, temp, blocks, g)
    ensures Stores(file, buf, false, temp, [], g.(diff := []))
    ensures g.diff == [] ==> Stores(file, buf, false, temp, blocks, g.(diff := []))
  {}

  lemma StopKeeps(other: Other, data: Dataset, st: AofState, sel: int, child: bool, g: Logs)
    requires Inv(other, data, st, sel, child, g) && st != Off && g.history != []
    ensures var g' := AfterFlush(g).(diff := []);
      && Inv(other, data, Off, -1, false, g') && Onward(g, g')
      && (st == On ==> Tracks(other, g'.file, -1, data))
  {
    Flushed(other, data, st, sel, child, g);
    Stopped(other, data, st, sel, child, AfterFlush(g));
    hide Tracks, Inv;
  }

  lemma StoresRenamed(file: bytes, buf: bytes, temp: bytes, blocks: seq<bytes>, g: Logs, st: AofState)
    requires Stores(file, buf, true, temp, blocks, g) && g.history != []
    ensures Rewritten(temp, blocks) == temp + AofBuffer.Joined(blocks)
    ensures Stores(Rewritten(temp, blocks), [], true, temp, blocks, AfterRename(g, st))
  {
    LogConcat(g.child, g.diff);
  }

  lemma SnapshotFacts(data: Dataset, now: int)
    requires Snapshot(data, now)
    ensures Healthy(data)
    ensures forall j, k :: 0 <= j < |data| && k in data[j] ==> !Overdue(data[j][k], now)
  {}

  lemma ForkedChild(g: Logs, cmds: seq<Argv>)
    requires g.history != []
    ensures AfterFork(g, cmds).child == cmds && AfterFork(g, cmds).history == g.history
  {}

  lemma StoresForked(file: bytes, buf: bytes, temp0: bytes, temp: bytes, blocks: seq<bytes>, g: Logs, cmds: seq<Argv>)
    requires Stores(file, buf, false, temp0, blocks, g) && g.diff == [] && temp == Log(cmds) && g.history != []
    ensures Stores(file, buf, true, temp, blocks, AfterFork(g, cmds))
  {}

  lemma ShortFile(file: bytes, buf: bytes, child: bool, temp: bytes, blocks: seq<bytes>, g: Logs, n: nat)
    requires Stores(file, buf, child, temp, blocks, g) && n <= |buf|
    ensures Log(g.file) <= file + buf[..n] && file + buf[..n] <= Log(g.file + g.buf)
  {
    LogConcat(g.file, g.buf);
    hide Log;
    assert file + buf == file + buf[..n] + buf[n..];
  }

  lemma NothingShort(file: bytes, buf: bytes)
    ensures file + [] == file && file + buf[..0] == file
  {}

  lemma LogGrows(cmds: seq<Argv>, i: nat, j: nat)
    requires i <= j <= |cmds|
    ensures |Log(cmds[..i])| <= |Log(cmds[..j])|
  {
    assert cmds[..j] == cmds[..i] + cmds[i..j];
    LogConcat(cmds[..i], cmds[i..j]);
  }

  /** What may happen to a server next: a command of a client, a call of flushAppendOnlyFile,
      CONFIG SET appendonly no or yes, BGREWRITEAOF or a rewrite that serverCron starts, the
      end of the child; each with what the environment answers. */
  datatype Event =
    | Command(db: nat, argv: Argv, k: Moment)
    | Flushing(force: bool, syncInProgress: bool, unixtime: int, nwritten: int, truncateOk: bool)
    | Stopping(unixtime: int, nwritten: int, truncateOk: bool)
    | Starting(openOk: bool, forkOk: bool, now: int)
    | Forking(forkOk: bool, now: int)
    | ChildDone(exitcode: int, bysignal: int, openOk: bool, disk: nat -> int, renameOk: bool)

  /** A command that the claims about the log are about: while the log is OFF, any that fits
      the protocol; else one whose log is durable. */
  predicate Accepted(other: Other, off: bool, data: Dataset, e: Event) {
    && e.Command? && e.db < |data| && e.argv != [] && Loggable(e.argv) && TimeFits(e.k.feed, e.argv) && |e.k.pick| <= MAX_ARG
    && (off || Durable(other, e.k, data, e.db, e.argv))
  }

  function AfterEvent(other: Other, off: bool, data: Dataset, e: Event): Dataset {
    if Accepted(other, off, data, e) then Run(other, Live(e.k), data, e.db, e.argv).data else data
  }

  /** The live states after events that met the log OFF or not: one more for each command. */
  ghost function LiveStates(other: Other, history: seq<Dataset>, events: seq<Event>, offs: seq<bool>): seq<Dataset>
    requires |offs| == |events| && history != []
    ensures LiveStates(other, history, events, offs) != []
  {
    if events == [] then history
    else
      var n := |events| - 1;
      var h := LiveStates(other, history, events[..n], offs[..n]);
      var last := h[|h| - 1];
      if Accepted(other, offs[n], last, events[n]) then h + [AfterEvent(other, offs[n], last, events[n])] else h
  }

  lemma LiveStatesSnoc(other: Other, history: seq<Dataset>, events: seq<Event>, offs: seq<bool>, i: nat, off: bool)
    requires i < |events| && |offs| == i && history != []
    ensures var h := LiveStates(other, history, events[..i], offs);
      LiveStates(other, history, events[..i + 1], offs + [off])
      == if Accepted(other, off, h[|h| - 1], events[i]) then h + [AfterEvent(other, off, h[|h| - 1], events[i])] else h
  {
    assert events[..i + 1][..i] == events[..i] && (offs + [off])[..i] == offs;
    hide Accepted, AfterEvent;
  }

  /** The history only grows, and the file never goes back in it. */
  ghost predicate Later(g: Logs, g': Logs) { g.history <= g'.history && g.fileAt <= g'.fileAt }

  lemma LaterTwice(g: Logs, g': Logs, g'': Logs)
    requires Later(g, g') && Later(g', g'')
    ensures Later(g, g'')
  {}

  lemma LaterSame(g: Logs)
    ensures Later(g, g)
  {}

  lemma LaterAfter(g: Logs, g': Logs, data: Dataset)
    requires OneCall(g, g', data) || Onward(g, g')
    ensures Later(g, g')
  {}

  /** The end of the child replaces the file. */
  ghost predicate Replaces(e: Event, blocks: seq<bytes>)
    requires e.ChildDone?
  {
    e.exitcode == 0 && e.bysignal == 0 && e.openOk && e.renameOk && AofBuffer.Writable(blocks, e.disk)
  }

  lemma ReplacesIs(e: Event, blocks: seq<bytes>)
    requires e.ChildDone?
    ensures Replaces(e, blocks) <==>
      e.exitcode == 0 && e.bysignal == 0 && e.openOk && e.renameOk && AofBuffer.Writable(blocks, e.disk)
  {}

  lemma NoCommand(other: Other, off: bool, data: Dataset, e: Event)
    ensures !e.Command? ==> !Accepted(other, off, data, e) && AfterEvent(other, off, data, e) == data
  {}

  lemma CommandIs(other: Other, off: bool, data: Dataset, e: Event)
    requires e.Command?
    ensures Accepted(other, off, data, e) ==>
      && e.db < |data| && e.argv != [] && Loggable(e.argv) && TimeFits(e.k.feed, e.argv) && |e.k.pick| <= MAX_ARG
      && (off || Durable(other, e.k, data, e.db, e.argv))
      && AfterEvent(other, off, data, e) == Run(other, Live(e.k), data, e.db, e.argv).data
    ensures !Accepted(other, off, data, e) ==> AfterEvent(other, off, data, e) == data
  {
    hide Run, Loggable, TimeFits, Durable;
  }

  lemma OneCallIs(g: Logs, g': Logs, data: Dataset)
    requires OneCall(g, g', data)
    ensures g'.history == g.history + [data]
  {}

  lemma OnwardIs(g: Logs, g': Logs, data: Dataset)
    requires Onward(g, g')
    ensures Later(g, g') && g'.history == g.history
  {}

  lemma NoStates(other: Other, history: seq<Dataset>, events: seq<Event>)
    requires history != []
    ensures LiveStates(other, history, events[..0], []) == history
  {}

  lemma OnwardLater(g: Logs, g': Logs)
    requires g'.history == g.history && g'.fileAt == g.fileAt
    ensures Later(g, g')
  {}

  lemma FlushLater(g: Logs, g': Logs)
    requires g.history != [] && g.fileAt < |g.history| && (g' == g || g' == AfterFlush(g))
    ensures Later(g, g') && g'.history == g.history
  {}

  lemma ForkLater(g: Logs, g': Logs)
    requires g.history != [] && (g' == g || g' == AfterFork(g, g'.child))
    ensures Later(g, g') && g'.history == g.history
  {}

  function Opening(cmds: seq<Argv>, origin: Dataset, data: Dataset, on: bool): Logs {
    Logs(cmds, [], [], [], [origin, data], if on then 1 else 0, 0)
  }

  lemma Opened(other: Other, data: Dataset, on: bool, cmds: seq<Argv>, origin: Dataset, file: bytes)
    requires Tracks(other, cmds, -1, origin) && AllLoggable(cmds) && file == Log(cmds)
    requires |data| == |origin| && (on ==> data == origin)
    ensures var g := Opening(cmds, origin, data, on);
      && Inv(other, data, if on then On else Off, -1, false, g) && Stores(file, [], false, [], [], g)
      && g.history == [origin, data]
  {
    assert cmds + [] == cmds;
    assert 0 < |data| <= LLONG_MAX;
    assert Log([]) == [] && AofBuffer.Packed([]) && AofBuffer.Joined([]) == [] && AllLoggable([]);
    hide Tracks, Log, AllLoggable, AofBuffer.Packed, AofBuffer.Joined;
  }

  class Server {
    const other: Other
    const fsync: Fsync
    var data: Dataset
    var state: AofState
    var fdSet: bool
    var file: bytes
    var currentSize: nat
    var buf: bytes
    var selectedDb: int
    var child: bool
    var temp: bytes
    var blocks: seq<bytes>
    var scheduled: bool
    var postponed: int
    var rewriteOk: bool
    ghost var g: Logs

    ghost predicate Valid()
      reads this
    {
      && Inv(other, data, state, selectedDb, child, g) && Stores(file, buf, child, temp, blocks, g)
      && (state != Off ==> fdSet) && (state == On ==> currentSize == |file|)
    }

    /** The process ended, perhaps within a write: the file is that of the logs and a beginning
        of what the buffer held. */
    ghost predicate Halted()
      reads this
    {
      Inv(other, data, state, selectedDb, child, g) && Log(g.file) <= file && file <= Log(g.file + g.buf)
    }

    /** A server that loaded the file, or that starts without it beside some older file. */
    constructor (other: Other, fsync: Fsync, file: bytes, on: bool, data: Dataset, ghost cmds: seq<Argv>, ghost origin: Dataset)
      requires Tracks(other, cmds, -1, origin) && AllLoggable(cmds) && file == Log(cmds)
      requires |data| == |origin| && (on ==> data == origin)
      ensures Valid() && g.history == [origin, data] && this.data == data && this.file == file
      ensures state == (if on then On else Off) && buf == [] && selectedDb == -1 && !child && !scheduled && postponed == 0 && rewriteOk
      ensures this.other == other && this.fsync == fsync && fdSet == on && temp == [] && blocks == []
    {
      this.other, this.fsync, this.data, this.file := other, fsync, data, file;
      state, fdSet, currentSize := if on then On else Off, on, |file|;
      buf, selectedDb, child, temp, blocks := [], -1, false, [], [];
      scheduled, postponed, rewriteOk := false, 0, true;
      g := Opening(cmds, origin, data, on);
      new;
      Opened(other, data, on, cmds, origin, file);
      hide *;
      ValidParts();
    }

    lemma ValidFacts()
      requires Valid()
      ensures Inv(other, data, state, selectedDb, child, g) && Stores(file, buf, child, temp, blocks, g)
      ensures (state != Off ==> fdSet) && (state == On ==> currentSize == |file|) && (buf != [] ==> state == On)
      ensures g.history != [] && 0 < |data| <= LLONG_MAX && g.fileAt < |g.history| && AofBuffer.Packed(blocks) && (!child ==> g.diff == [])
    {
      EmptyLog(g.buf);
    }

    lemma HaltedIs()
      requires Inv(other, data, state, selectedDb, child, g) && Log(g.file) <= file && file <= Log(g.file + g.buf)
      ensures Halted()
    {}

    /** The process may end at any time. */
    lemma ValidHalts()
      requires Valid()
      ensures Halted()
    {
      ShortFile(file, buf, child, temp, blocks, g, 0);
      NothingShort(file, buf);
      hide Inv, Stores, Log;
    }

    lemma ValidParts()
      requires Inv(other, data, state, selectedDb, child, g) && Stores(file, buf, child, temp, blocks, g)
      requires (state != Off ==> fdSet) && (state == On ==> currentSize == |file|)
      ensures Valid()
    {}

    /** feedAppendOnlyFile */
    method Feed(db: nat, argv: Argv, feed: int)
      requires Loggable(argv) && TimeFits(feed, argv) && AofBuffer.Packed(blocks)
      modifies `buf, `selectedDb, `blocks
      ensures selectedDb == db && AofBuffer.Packed(blocks)
      ensures buf == FedTo(state == On, old(buf), FedCmds(old(selectedDb), db, feed, argv))
      ensures AofBuffer.Joined(blocks) == FedTo(child, AofBuffer.Joined(old(blocks)), FedCmds(old(selectedDb), db, feed, argv))
    {
      assert argv != [];
      hide *;
      var text := FeedText(selectedDb, db, argv, feed);
      FedText(buf, FedCmds(selectedDb, db, feed, argv));
      FedText(AofBuffer.Joined(blocks), FedCmds(selectedDb, db, feed, argv));
      selectedDb := db;
      if state == On { buf := buf + text; }
      if child { blocks := AofBuffer.Append(blocks, text); }
    }

    /** call and propagate: a command is run and, when it changed something, fed. */
    method Call(db: nat, argv: Argv, k: Moment)
      requires Valid() && db < |data| && Loggable(argv) && TimeFits(k.feed, argv) && |k.pick| <= MAX_ARG
      requires state != Off ==> Durable(other, k, data, db, argv)
      modifies `data, `buf, `selectedDb, `blocks, `g
      ensures Valid() && data == Run(other, Live(k), old(data), db, argv).data
      ensures OneCall(old(g), g, data)
    {
      assert argv != [];
      hide *;
      ValidFacts();
      var o := Run(other, Live(k), data, db, argv);
      CallKeeps(other, data, state, selectedDb, child, g, db, k, argv);
      if o.dirty && state != Off {
        FedArgv(other, Live(k), data, db, k.feed, argv);
        Propagate(db, o.argv, k.feed, o.data);
      } else {
        StoresNotFed(file, buf, child, temp, blocks, g, state, o.data);
        AfterFed(o.data, []);
      }
    }

    method Propagate(db: nat, argv: Argv, feed: int, d: Dataset)
      requires Loggable(argv) && TimeFits(feed, argv) && Stores(file, buf, child, temp, blocks, g)
      requires state != Off && fdSet && (state == On ==> currentSize == |file|) && AofBuffer.Packed(blocks)
      requires Inv(other, d, state, db, child, AfterCall(g, d, state, child, FedCmds(selectedDb, db, feed, argv)))
      modifies `data, `buf, `selectedDb, `blocks, `g
      ensures Valid() && data == d && OneCall(old(g), g, d)
    {
      assert argv != [];
      hide *;
      ghost var cmds := FeedStores(db, argv, feed, d);
      AfterFed(d, cmds);
    }

    /** What is fed is stored. */
    method FeedStores(db: nat, argv: Argv, feed: int, ghost d: Dataset) returns (ghost cmds: seq<Argv>)
      requires Loggable(argv) && argv != [] && TimeFits(feed, argv) && Stores(file, buf, child, temp, blocks, g) && AofBuffer.Packed(blocks)
      modifies `buf, `selectedDb, `blocks
      ensures selectedDb == db && cmds == FedCmds(old(selectedDb), db, feed, argv)
      ensures Stores(file, buf, child, temp, blocks, AfterCall(g, d, state, child, cmds))
    {
      hide *;
      ghost var buf0, blocks0 := buf, blocks;
      cmds := FedCmds(selectedDb, db, feed, argv);
      Feed(db, argv, feed);
      StoresFed(file, buf0, child, temp, blocks0, g, state, cmds, buf, blocks, d);
    }

    /** The dataset and the logs of a call that was fed `cmds`. */
    method AfterFed(d: Dataset, ghost cmds: seq<Argv>)
      requires var g' := AfterCall(g, d, state, child, cmds);
        Inv(other, d, state, selectedDb, child, g') && Stores(file, buf, child, temp, blocks, g')
      requires (state != Off ==> fdSet) && (state == On ==> currentSize == |file|)
      modifies `data, `g
      ensures Valid() && data == d && OneCall(old(g), g, d)
    {
      hide Inv, Stores;
      data := d;
      g := AfterCall(g, d, state, child, cmds);
    }

    /** flushAppendOnlyFile: `nwritten` is what write returned, -1 for an error. After a
        failed write the process exits. */
    method Flush(force: bool, syncInProgress: bool, unixtime: int, nwritten: int, truncateOk: bool) returns (exited: bool)
      requires Valid() && -1 <= nwritten <= |buf|
      modifies `file, `currentSize, `buf, `postponed, `g
      ensures var idle := old(buf) == [] || PutOff(fsync, force, syncInProgress, unixtime, old(postponed));
        && (exited <==> !idle && nwritten != |old(buf)|)
        && (!exited ==> Valid() && g == if idle then old(g) else AfterFlush(old(g)))
        && (!exited ==> if idle then file == old(file) && buf == old(buf) else file == old(file) + old(buf) && buf == [])
        && (exited ==> g == old(g) && file == old(file) + if nwritten == -1 || truncateOk then [] else old(buf)[..nwritten])
      ensures exited ==> Halted()
      ensures postponed ==
        if old(buf) == [] then old(postponed) else PostponedAfter(fsync, force, syncInProgress, unixtime, old(postponed))
    {
      if |buf| == 0 { return false; }
      if fsync == FsyncEverySec && !force {
        if syncInProgress {
          if postponed == 0 {
            postponed := unixtime;
            return false;
          } else if unixtime - postponed < 2 {
            return false;
          }
        }
      }
      hide *;
      exited := WriteBuffer(nwritten, truncateOk);
    }

    method WriteBuffer(nwritten: int, truncateOk: bool) returns (exited: bool)
      requires Valid() && buf != [] && -1 <= nwritten <= |buf|
      modifies `file, `currentSize, `buf, `postponed, `g
      ensures exited <==> nwritten != |old(buf)|
      ensures !exited ==> Valid() && g == AfterFlush(old(g)) && file == old(file) + old(buf) && buf == []
      ensures exited ==> g == old(g) && file == old(file) + if nwritten == -1 || truncateOk then [] else old(buf)[..nwritten]
      ensures exited ==> Halted()
      ensures postponed == 0 && currentSize == old(currentSize) + if exited then 0 else |old(buf)|
    {
      hide *;
      ValidFacts();
      ShortFile(file, buf, child, temp, blocks, g, if nwritten == -1 || truncateOk then 0 else nwritten);
      NothingShort(file, buf);
      Flushed(other, data, state, selectedDb, child, g);
      StoresFlushed(file, buf, child, temp, blocks, g);
      postponed := 0;
      assert file + [] == file;
      if nwritten != |buf| {
        if nwritten != -1 {
          file := file + buf[..nwritten];
          if truncateOk {
            file := file[..currentSize];
          }
        }
        HaltedIs();
        return true;
      }
      file := file + buf;
      currentSize := currentSize + nwritten;
      buf := [];
      g := AfterFlush(g);
      ValidParts();
      exited := false;
    }

    /** stopAppendOnly: the buffer is written, a child is killed. */
    method Stop(unixtime: int, nwritten: int, truncateOk: bool) returns (exited: bool)
      requires Valid() && state != Off && -1 <= nwritten <= |buf|
      modifies this
      ensures exited <==> old(buf) != [] && nwritten != |old(buf)|
      ensures exited ==> g == old(g) && file == old(file) + if nwritten == -1 || truncateOk then [] else old(buf)[..nwritten]
      ensures exited ==> Halted()
      ensures data == old(data)
      ensures !exited ==> Valid() && state == Off && !child && file == old(file) + old(buf)
      ensures !exited ==> buf == [] && !fdSet && selectedDb == -1 && scheduled == old(scheduled) && rewriteOk == old(rewriteOk)
      ensures postponed == if old(buf) == [] then old(postponed) else 0
      ensures !exited ==> Onward(old(g), g)
      ensures !exited && old(state) == On ==> Tracks(other, g.file, -1, data)
    {
      hide *;
      ValidFacts();
      StopKeeps(other, data, state, selectedDb, child, g);
      NothingToFlush(g, buf);
      NotPutOff(fsync, unixtime, postponed);
      exited := Flush(true, false, unixtime, nwritten, truncateOk);
      if exited { return; }
      ValidFacts();
      StoresDropped(file, buf, child, temp, blocks, g);
      Forget();
    }

    method Forget()
      requires Inv(other, data, Off, -1, false, g.(diff := [])) && Stores(file, buf, false, temp, if child then [] else blocks, g.(diff := []))
      modifies `fdSet, `selectedDb, `state, `blocks, `child, `g
      ensures Valid() && state == Off && !child && g == old(g).(diff := []) && !fdSet && selectedDb == -1
    {
      hide *;
      fdSet, selectedDb, state := false, -1, Off;
      if child {
        blocks, child := [], false;
      }
      g := g.(diff := []);
      ValidParts();
    }

    /** rewriteAppendOnlyFileBackground: `forkOk` says whether fork succeeded. The child
        writes the log of the dataset it was forked with, at some time `now`. */
    method RewriteBackground(forkOk: bool, now: int) returns (ok: bool)
      requires Valid() && Snapshot(data, now)
      modifies `temp, `scheduled, `child, `selectedDb, `g
      ensures Valid() && ok == (forkOk && !old(child)) && child == (ok || old(child)) && (ok ==> selectedDb == -1)
      ensures g == if ok then AfterFork(old(g), g.child) else old(g)
      ensures if ok then !scheduled && temp == Log(g.child) else scheduled == old(scheduled) && temp == old(temp) && selectedDb == old(selectedDb)
    {
      if child { return false; }
      if !forkOk { return false; }
      hide *;
      ValidFacts();
      Fork(now);
      ok := true;
    }

    method Fork(now: int)
      requires !child && Inv(other, data, state, selectedDb, child, g) && Stores(file, buf, child, temp, blocks, g)
      requires (state != Off ==> fdSet) && (state == On ==> currentSize == |file|)
      requires g.history != [] && 0 < |data| <= LLONG_MAX && g.diff == [] && Snapshot(data, now)
      modifies `temp, `scheduled, `child, `selectedDb, `g
      ensures Valid() && g == AfterFork(old(g), g.child) && child && selectedDb == -1 && !scheduled && temp == Log(g.child)
    {
      hide *;
      SnapshotFacts(data, now);
      var out, cmds := RewriteAppendOnlyFile(other, data, now);
      Forked(other, data, state, selectedDb, g, cmds, now);
      StoresForked(file, buf, temp, out, blocks, g, cmds);
      ForkedChild(g, cmds);
      temp, scheduled, child, selectedDb, g := out, false, true, -1, AfterFork(g, cmds);
      ValidParts();
    }

    /** startAppendOnly. When fork fails the descriptor is left as it is: `fdSet`. */
    method Start(openOk: bool, forkOk: bool, now: int) returns (ok: bool)
      requires Valid() && state == Off && Snapshot(data, now)
      modifies `temp, `scheduled, `child, `selectedDb, `fdSet, `state, `g
      ensures Valid() && ok == (openOk && forkOk && !old(child)) && state == if ok then WaitRewrite else Off
      ensures g.history == old(g.history) && g.fileAt == old(g.fileAt)
      ensures fdSet == openOk && child == (ok || old(child)) && scheduled == (!ok && old(scheduled))
    {
      fdSet := openOk;
      if !openOk { return false; }
      ok := RewriteBackground(forkOk, now);
      if !ok { return; }
      Started(other, data, selectedDb, g);
      state := WaitRewrite;
      hide Inv, Tracks, Snapshot;
    }

    /** backgroundRewriteDoneHandler. The child's file replaces the log only if the child
        succeeded and the differences could be written and the file renamed. */
    method RewriteDone(exitcode: int, bysignal: int, openOk: bool, disk: nat -> int, renameOk: bool) returns (replaced: bool)
      requires Valid() && child
      modifies this
      ensures Valid() && !child && data == old(data) && Onward(old(g), g)
      ensures replaced <==> exitcode == 0 && bysignal == 0 && openOk && renameOk && AofBuffer.Writable(old(blocks), disk)
      ensures replaced ==> file == Rewritten(old(temp), old(blocks)) && state == Resumed(old(state))
      ensures replaced && state == On ==> Tracks(other, g.file, -1, data) && buf == []
      ensures !replaced ==> file == old(file) && buf == old(buf) && state == old(state)
      ensures if replaced && fdSet then selectedDb == -1 && currentSize == |file| && buf == []
        else selectedDb == old(selectedDb) && currentSize == old(currentSize) && buf == old(buf)
      ensures rewriteOk == (replaced || (exitcode == 0 && bysignal == 0 && old(rewriteOk))) && scheduled == (old(scheduled) || state == WaitRewrite)
      ensures fdSet == old(fdSet) && postponed == old(postponed)
    {
      hide *;
      replaced := false;
      SameOnward(g);
      if bysignal == 0 && exitcode == 0 {
        if openOk {
          replaced := Adopt(disk, renameOk);
        }
      } else {
        ValidFacts();
        rewriteOk := false;
        ValidParts();
      }
      ghost var g' := g;
      Cleanup();
      OnwardSame(old(g), g', g);
    }

    /** Whatever became of the child, it is forgotten; while waiting to be ON, another one is due. */
    method Cleanup()
      requires Valid()
      modifies `blocks, `child, `scheduled, `g
      ensures Valid() && !child && SameFile(old(g), g) && scheduled == (old(scheduled) || state == WaitRewrite)
    {
      hide *;
      ValidFacts();
      Dropped(other, data, state, selectedDb, child, g);
      StoresDropped(file, buf, child, temp, blocks, g);
      DiffDropped(g);
      blocks, child := [], false;
      g := g.(diff := []);
      if state == WaitRewrite { scheduled := true; }
      ValidParts();
    }

    /** Lines 1086-1160 of the handler: the differences are written and the file takes its name. */
    method Adopt(disk: nat -> int, renameOk: bool) returns (replaced: bool)
      requires Valid() && child
      modifies `file, `selectedDb, `currentSize, `buf, `rewriteOk, `state, `g
      ensures Valid() && Onward(old(g), g)
      ensures replaced <==> renameOk && AofBuffer.Writable(old(blocks), disk)
      ensures replaced ==> file == Rewritten(old(temp), old(blocks)) && state == Resumed(old(state))
      ensures replaced && state == On ==> Tracks(other, g.file, -1, data) && buf == []
      ensures !replaced ==> file == old(file) && buf == old(buf) && state == old(state)
      ensures if replaced && fdSet then selectedDb == -1 && currentSize == |file| && buf == []
        else selectedDb == old(selectedDb) && currentSize == old(currentSize) && buf == old(buf)
      ensures rewriteOk == (replaced || old(rewriteOk))
    {
      hide *;
      ValidFacts();
      RenameKeeps(other, data, state, selectedDb, g);
      StoresRenamed(file, buf, temp, blocks, g, state);
      ResumedState(state);
      var written, newFile := AofBuffer.Write(temp, blocks, disk);
      SameOnward(g);
      if !written || !renameOk { return false; }
      file := newFile;
      if fdSet {
        selectedDb, currentSize, buf := -1, |file|, [];
      }
      rewriteOk := true;
      if state == WaitRewrite { state := On; }
      g := AfterRename(g, old(state));
      ValidParts();
      replaced := true;
    }

    /** What `Valid` promises: replayed at any time, the file gives a live state, and, when the
        log is ON, the file and the buffer give the present one, as do the child's file and
        the differences unless the log is OFF. */
    lemma LogsReplay(t: int)
      requires Valid()
      ensures 0 < |data| && g.fileAt < |g.history| && g.history[|g.history| - 1] == data
      ensures var r0 := Replay(NoData(|data|), 0);
        && file == Log(g.file) && ReplayAll(other, t, r0, g.file).data == g.history[g.fileAt]
        && (state == On ==> file + buf == Log(g.file + g.buf) && ReplayAll(other, t, r0, g.file + g.buf).data == data)
        && (child && state != Off ==>
              Rewritten(temp, blocks) == Log(g.child + g.diff) && ReplayAll(other, t, r0, g.child + g.diff).data == data)
    {
      LogConcat(g.file, g.buf);
      LogConcat(g.child, g.diff);
      hide Log, ReplayAll;
    }

    /** The process ends, and another one loads the file. */
    method Restart(t: int) returns (loaded: Dataset)
      requires Valid()
      ensures loaded == g.history[g.fileAt]
      ensures state == On && buf == [] ==> loaded == data
    {
      EmptyLog(g.buf);
      assert Tracks(other, g.file, -1, g.history[g.fileAt]);
      assert state == On && buf == [] ==> Tracks(other, g.file, -1, data) by {
        AnyDb(other, g.file + g.buf, selectedDb, data);
        assert g.buf == [] ==> g.file + g.buf == g.file;
      }
      var res := LoadAppendOnlyFile(other, t, file, |data|, g.file, [], []);
      assert ReplayAll(other, t, Replay(NoData(|data|), 0), []).data == NoData(|data|);
      loaded := if res.Loaded? then res.data else NoData(|data|);
    }

    /** The process ended, perhaps after a write that could not be taken back, and another one
        loads the file: it starts if the file ends with a command, and then from all commands
        in it, and refuses to start if not. */
    method RestartAfterShortWrite(t: int) returns (res: LoadResult, ghost k: nat)
      requires Halted()
      ensures var cmds := g.file + g.buf;
        && |g.file| <= k <= |cmds| && |Log(cmds[..k])| <= |file| && (k < |cmds| ==> |file| < |Log(cmds[..k + 1])|)
        && res == if |file| > |Log(cmds[..k])| then Fatal else if k == 0 then NothingToLoad
                  else Loaded(ReplayAll(other, t, Replay(NoData(|data|), 0), cmds[..k]).data)
    {
      ghost var cmds := g.file + g.buf;
      hide Log, Tracks;
      res, k := LoadBeginning(other, t, file, |data|, cmds);
      assert cmds[..|g.file|] == g.file;
      if k < |g.file| { LogGrows(cmds, k + 1, |g.file|); }
    }

    /** One event; one that cannot happen now, or is outside what is claimed, is skipped. */
    method Happen(e: Event) returns (exited: bool)
      requires Valid()
      modifies this
      ensures Halted() && (!exited ==> Valid()) && Later(old(g), g)
      ensures exited == Exits(e, old(state) == Off, old(buf), fsync, old(postponed))
      ensures data == AfterEvent(other, old(state) == Off, old(data), e)
      ensures g.history == if Accepted(other, old(state) == Off, old(data), e) then old(g.history) + [data] else old(g.history)
      ensures e.Command? ==> state == old(state) && child == old(child) && file == old(file)
      ensures e.Flushing? && !exited ==>
        if Writes(e, old(buf), fsync, old(postponed)) then file == old(file) + old(buf) && buf == []
        else file == old(file) && buf == old(buf)
      ensures e.Stopping? && !exited && old(state) != Off && -1 <= e.nwritten <= |old(buf)| ==>
        state == Off && !child && file == old(file) + old(buf)
      ensures e.Starting? && old(state) == Off && Snapshot(old(data), e.now) ==>
        (state == WaitRewrite <==> e.openOk && e.forkOk && !old(child)) && (e.openOk && e.forkOk ==> child)
      ensures e.Forking? && Snapshot(old(data), e.now) ==> child == (old(child) || e.forkOk)
      ensures e.ChildDone? ==> !child && if old(child) && Replaces(e, old(blocks)) then file == Rewritten(old(temp), old(blocks)) else file == old(file)
    {
      hide *;
      exited := false;
      ValidFacts();
      ValidHalts();
      LaterSame(g);
      NoCommand(other, state == Off, data, e);
      ExitsIs(e, state == Off, buf, fsync, postponed);
      match e {
        case Command(db, argv, k) => Commanded(e);
        case Flushing(force, syncInProgress, unixtime, nwritten, truncateOk) =>
          if -1 <= nwritten <= |buf| {
            exited := Flush(force, syncInProgress, unixtime, nwritten, truncateOk);
            FlushLater(old(g), g);
            if !exited { ValidHalts(); }
          }
        case Stopping(unixtime, nwritten, truncateOk) =>
          if state != Off && -1 <= nwritten <= |buf| {
            exited := Stop(unixtime, nwritten, truncateOk);
            if !exited {
              OnwardIs(old(g), g, data);
              ValidHalts();
            }
          }
        case Starting(openOk, forkOk, now) =>
          if state == Off && Snapshot(data, now) {
            var _ := Start(openOk, forkOk, now);
            OnwardLater(old(g), g);
            ValidHalts();
          }
        case Forking(forkOk, now) =>
          if Snapshot(data, now) {
            var _ := RewriteBackground(forkOk, now);
            ForkLater(old(g), g);
            ValidHalts();
          }
        case ChildDone(exitcode, bysignal, openOk, disk, renameOk) =>
          ReplacesIs(e, blocks);
          if child {
            var _ := RewriteDone(exitcode, bysignal, openOk, disk, renameOk);
            OnwardIs(old(g), g, data);
            ValidHalts();
          }
      }
    }

    method Commanded(e: Event)
      requires Valid() && e.Command?
      modifies `data, `buf, `selectedDb, `blocks, `g
      ensures Valid() && Halted() && Later(old(g), g) && data == AfterEvent(other, state == Off, old(data), e)
      ensures g.history == if Accepted(other, state == Off, old(data), e) then old(g.history) + [data] else old(g.history)
    {
      hide *;
      LaterSame(g);
      CommandIs(other, state == Off, data, e);
      if Accepted(other, state == Off, data, e) {
        Call(e.db, e.argv, e.k);
        LaterAfter(old(g), g, data);
        OneCallIs(old(g), g, data);
      }
      ValidHalts();
    }

    /** Any schedule, up to its end or to a write after which the process exits: the first
        |`offs`| events happen, which find the log OFF or not as `offs` says. */
    method Follow(schedule: seq<Event>) returns (exited: bool, ghost offs: seq<bool>)
      requires Valid()
      modifies this
      ensures Halted() && (!exited ==> Valid()) && Later(old(g), g)
      ensures |offs| <= |schedule| && (!exited ==> |offs| == |schedule|) && old(g.history) != []
      ensures exited ==> offs != [] && CanExit(schedule[|offs| - 1])
      ensures g.history == LiveStates(other, old(g.history), schedule[..|offs|], offs) && g.history[|g.history| - 1] == data
    {
      hide *;
      exited, offs := false, [];
      ValidHalts();
      ValidFacts();
      LaterSame(g);
      NoStates(other, g.history, schedule);
      var i := 0;
      while i < |schedule| && !exited
        invariant 0 <= i <= |schedule| && Halted() && (!exited ==> Valid()) && Later(old(g), g) && |offs| == i && old(g.history) != []
        invariant g.history == LiveStates(other, old(g.history), schedule[..i], offs)
        invariant exited ==> i > 0 && CanExit(schedule[i - 1])
      {
        ghost var before := g;
        HaltedFacts();
        LiveStatesSnoc(other, old(g.history), schedule, offs, i, state == Off);
        offs := offs + [state == Off];
        ExitsIs(schedule[i], state == Off, buf, fsync, postponed);
        exited := Happen(schedule[i]);
        LaterTwice(old(g), before, g);
        i := i + 1;
      }
      HaltedFacts();
    }

    lemma HaltedFacts()
      requires Halted()
      ensures g.history != [] && g.history[|g.history| - 1] == data
    {
      hide Log, Tracks, AllLoggable;
    }
  }
}
