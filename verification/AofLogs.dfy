/** What the server's two logs stand for: the append only file with its buffer, and the
    log of a rewriting child with the differences kept for it. */
module AofLogs {
  import opened Bytes
  import opened Decimal
  import opened Resp
  import opened AofData
  import opened AofLoad
  import opened AofRewrite

  datatype AofState = Off | On | WaitRewrite

  /** Replayed at any time, the log gives `data` and, unless -1, leaves DB `sel` selected. */
  ghost predicate Tracks(other: Other, log: seq<Argv>, sel: int, data: Dataset) {
    0 < |data| <= LLONG_MAX && forall t: int ::
      var r := ReplayAll(other, t, Replay(NoData(|data|), 0), log);
      r.data == data && (sel != -1 ==> r.db == sel)
  }

  /** The commands that feedAppendOnlyFile prints. */
  function FedCmds(sel: int, db: nat, feed: int, argv: Argv): seq<Argv>
    requires argv != []
  {
    (if db != sel then [SelectCmd(db)] else []) + Logged(feed, argv)
  }

  lemma DelNothing(db: Db, keys: set<bytes>)
    ensures keys * db.Keys == {} ==> db - keys == db
  {
    if keys * db.Keys == {} {
      forall k | k in db ensures k !in keys {
        assert k in keys ==> k in keys * db.Keys;
      }
    }
  }

  lemma NotDirty(other: Other, env: Env, data: Dataset, db: nat, argv: Argv)
    requires db < |data| && argv != [] && !Run(other, env, data, db, argv).dirty
    ensures Run(other, env, data, db, argv).data == data
  {
    if Lookup(argv[0]) == Del {
      DelNothing(data[db], ToSet(argv[1..]));
    }
    hide Lookup, RunSet, RunExpire, RunRPush, RunSAdd, RunHMSet, RunSRem, RunSPop, RunRestore, SetOptionsOf;
  }

  lemma FedSelect(other: Other, t: int, r: Replay, sel: int, db: nat)
    requires r.db < |r.data| <= LLONG_MAX && db < |r.data| && (sel != -1 ==> r.db == sel)
    ensures ReplayAll(other, t, r, if db != sel then [SelectCmd(db)] else []) == r.(db := db)
  {
    if db != sel {
      ReplayOne(other, t, r, SelectCmd(db));
      ReplaySelect(other, t, r, db);
    }
  }

  /** Feeding a command keeps a log in step with the live dataset. */
  lemma Fed(other: Other, log: seq<Argv>, sel: int, data: Dataset, db: nat, k: Moment, argv: Argv)
    requires Tracks(other, log, sel, data) && db < |data|
    requires argv != [] && TimeFits(k.feed, argv) && Durable(other, k, data, db, argv) && Run(other, Live(k), data, db, argv).dirty
    ensures var o := Run(other, Live(k), data, db, argv);
      Tracks(other, log + FedCmds(sel, db, k.feed, o.argv), db, o.data)
  {
    var o := Run(other, Live(k), data, db, argv);
    var r0 := Replay(NoData(|data|), 0);
    var pre := if db != sel then [SelectCmd(db)] else [];
    forall t: int
      ensures ReplayAll(other, t, r0, log + FedCmds(sel, db, k.feed, o.argv)) == Replay(o.data, db)
    {
      var r := ReplayAll(other, t, r0, log);
      assert r.data == data && (sel != -1 ==> r.db == sel);
      hide Run, Logged, TimeFits, RestartsTtl, RelativeExpire, ReplayAll;
      ReplayConcat(other, t, r0, log, pre + Logged(k.feed, o.argv));
      ReplayConcat(other, t, r, pre, Logged(k.feed, o.argv));
      FedSelect(other, t, r, sel, db);
      LoggedReplays(other, k, t, data, db, argv);
    }
  }

  lemma RunArgv(other: Other, env: Env, data: Dataset, db: nat, argv: Argv)
    requires db < |data| && argv != []
    ensures var o := Run(other, env, data, db, argv);
      o.argv == argv || (|argv| == 3 && o.argv == [DEL, argv[1]]) || (|argv| == 2 && o.argv == [SREM, argv[1], env.pick])
  {
    hide Lookup, RunSet, RunExpire, RunDel, RunRPush, RunSAdd, RunHMSet, RunSRem, RunSPop, RunRestore, SetOptionsOf;
  }

  lemma LoggedLoggable(feed: int, argv: Argv)
    requires Loggable(argv) && TimeFits(feed, argv)
    ensures AllLoggable(Logged(feed, argv))
  {
    if |argv| >= 3 && InLL(AbsoluteTime(Lookup(argv[0]), feed, argv[2])) {
      PrintLL(AbsoluteTime(Lookup(argv[0]), feed, argv[2]));
    }
    hide AbsoluteTime, Lookup;
  }

  lemma NoTime(feed: int, argv: Argv)
    requires argv != [] && (Lookup(argv[0]) == Del || Lookup(argv[0]) == SRem)
    ensures TimeFits(feed, argv)
  {}

  lemma FedArgv(other: Other, env: Env, data: Dataset, db: nat, feed: int, argv: Argv)
    requires db < |data| && Loggable(argv) && TimeFits(feed, argv) && |env.pick| <= MAX_ARG
    ensures var o := Run(other, env, data, db, argv); Loggable(o.argv) && TimeFits(feed, o.argv)
  {
    var o := Run(other, env, data, db, argv);
    RunArgv(other, env, data, db, argv);
    if o.argv != argv {
      assert Lookup(DEL) == Del by { Names(); }
      SRemName();
      hide Run, Lookup, TimeFits;
      NoTime(feed, o.argv);
    }
    hide *;
  }

  /** What is fed, the loader can read back. */
  lemma FedLoggable(other: Other, env: Env, data: Dataset, sel: int, db: nat, feed: int, argv: Argv)
    requires db < |data| <= LLONG_MAX && Loggable(argv) && TimeFits(feed, argv) && |env.pick| <= MAX_ARG
    ensures AllLoggable(FedCmds(sel, db, feed, Run(other, env, data, db, argv).argv))
  {
    PrintLL(db);
    FedArgv(other, env, data, db, feed, argv);
    hide Run, TimeFits, Logged;
    LoggedLoggable(feed, Run(other, env, data, db, argv).argv);
  }

  // ---- the state of the two logs

  /** The commands of: the file, the buffer not yet written, the child's temporary file and
      the differences kept for it; all live states so far; and which of them the file, and a
      one-time rewrite, stand for. */
  datatype Logs = Logs(file: seq<Argv>, buf: seq<Argv>, child: seq<Argv>, diff: seq<Argv>, history: seq<Dataset>, fileAt: nat, childAt: nat)

  ghost predicate Inv(other: Other, data: Dataset, st: AofState, sel: int, child: bool, g: Logs) {
    && 0 < |data| <= LLONG_MAX && -1 <= sel < |data|
    && g.history != [] && g.history[|g.history| - 1] == data && g.fileAt < |g.history|
    && Tracks(other, g.file, -1, g.history[g.fileAt])
    && |g.history[g.fileAt]| == |data|
    && (st == On ==> Tracks(other, g.file + g.buf, sel, data))
    && (st != On ==> g.buf == [])
    && (!child ==> g.diff == [])
    && (child && st != Off ==> Tracks(other, g.child + g.diff, sel, data))
    && (child && st == Off ==>
          g.diff == [] && g.fileAt <= g.childAt < |g.history| && Tracks(other, g.child, -1, g.history[g.childAt])
          && |g.history[g.childAt]| == |data|)
    && AllLoggable(g.file) && AllLoggable(g.buf) && AllLoggable(g.child) && AllLoggable(g.diff)
  }

  /** A command ran: it is in the history and, if it has to be, in the logs. */
  function AfterCall(g: Logs, data: Dataset, st: AofState, child: bool, cmds: seq<Argv>): Logs {
    Logs(g.file, if st == On then g.buf + cmds else g.buf, g.child, if child then g.diff + cmds else g.diff,
         g.history + [data], g.fileAt, g.childAt)
  }

  lemma CallFed(other: Other, data: Dataset, st: AofState, sel: int, child: bool, g: Logs, db: nat, k: Moment, argv: Argv)
    requires Inv(other, data, st, sel, child, g) && st != Off && db < |data|
    requires Loggable(argv) && TimeFits(k.feed, argv) && |k.pick| <= MAX_ARG && Durable(other, k, data, db, argv) && Run(other, Live(k), data, db, argv).dirty
    ensures var o := Run(other, Live(k), data, db, argv);
      Inv(other, o.data, st, db, child, AfterCall(g, o.data, st, child, FedCmds(sel, db, k.feed, o.argv)))
  {
    var o := Run(other, Live(k), data, db, argv);
    var cmds := FedCmds(sel, db, k.feed, o.argv);
    var g' := AfterCall(g, o.data, st, child, cmds);
    FedLoggable(other, Live(k), data, sel, db, k.feed, argv);
    hide Run, Tracks, FedCmds, TimeFits, Durable;
    if st == On {
      Fed(other, g.file + g.buf, sel, data, db, k, argv);
      assert g'.file + g'.buf == g.file + g.buf + cmds;
    }
    if child {
      Fed(other, g.child + g.diff, sel, data, db, k, argv);
      assert g'.child + g'.diff == g.child + g.diff + cmds;
    }
  }

  lemma CallNotFed(other: Other, data: Dataset, st: AofState, sel: int, child: bool, g: Logs, db: nat, k: Moment, argv: Argv)
    requires Inv(other, data, st, sel, child, g) && db < |data| && argv != []
    requires st == Off || !Run(other, Live(k), data, db, argv).dirty
    ensures var o := Run(other, Live(k), data, db, argv);
      Inv(other, o.data, st, sel, child, AfterCall(g, o.data, st, child, []))
  {
    hide Run, Tracks;
    var o := Run(other, Live(k), data, db, argv);
    if !o.dirty { NotDirty(other, Live(k), data, db, argv); }
    var g' := AfterCall(g, o.data, st, child, []);
    assert g'.buf == g.buf && g'.diff == g.diff;
    assert g.history <= g'.history;
  }

  /** The buffer went to the file. */
  function AfterFlush(g: Logs): Logs
    requires g.history != []
  {
    if g.buf == [] then g else g.(file := g.file + g.buf, buf := [], fileAt := |g.history| - 1)
  }

  lemma Flushed(other: Other, data: Dataset, st: AofState, sel: int, child: bool, g: Logs)
    requires Inv(other, data, st, sel, child, g) && g.history != []
    ensures Inv(other, data, st, sel, child, AfterFlush(g)) && g.fileAt <= AfterFlush(g).fileAt
    ensures st == On ==> Tracks(other, AfterFlush(g).file, -1, data)
  {
    AnyDb(other, g.file + g.buf, sel, data);
    hide Tracks;
    var g' := AfterFlush(g);
    assert g'.file + g'.buf == g.file + g.buf;
    assert g'.buf == [] && g'.file == g.file + g.buf;
  }

  lemma AnyDb(other: Other, log: seq<Argv>, sel: int, data: Dataset)
    ensures Tracks(other, log, sel, data) ==> Tracks(other, log, -1, data)
  {}

  /** fork succeeded: the child's log stands for the dataset of this moment. */
  function AfterFork(g: Logs, child: seq<Argv>): Logs
    requires g.history != []
  {
    g.(child := child, diff := [], childAt := |g.history| - 1)
  }

  lemma RebuiltTracks(other: Other, log: seq<Argv>, data: Dataset, now: int)
    requires 0 < |data| <= LLONG_MAX && Rebuilds(other, log, data, now, |data|)
    requires forall j, k :: 0 <= j < |data| && k in data[j] ==> !Overdue(data[j][k], now)
    ensures Tracks(other, log, -1, data)
  {
    forall t: int ensures ReplayAll(other, t, Replay(NoData(|data|), 0), log).data == data {
      RebuildsAll(other, log, data, now, t);
    }
    hide Rebuilds, Overdue, ReplayAll;
  }

  lemma Forked(other: Other, data: Dataset, st: AofState, sel: int, g: Logs, log: seq<Argv>, now: int)
    requires Inv(other, data, st, sel, false, g) && g.history != []
    requires Rebuilds(other, log, data, now, |data|) && AllLoggable(log)
    requires forall j, k :: 0 <= j < |data| && k in data[j] ==> !Overdue(data[j][k], now)
    ensures Inv(other, data, st, -1, true, AfterFork(g, log))
  {
    RebuiltTracks(other, log, data, now);
    AnyDb(other, g.file + g.buf, sel, data);
    hide Tracks, Rebuilds, Overdue;
    assert log + [] == log;
  }

  /** The child's file took the place of the append only file. */
  function AfterRename(g: Logs, st: AofState): Logs
    requires g.history != []
  {
    Logs(g.child + g.diff, [], g.child, g.diff, g.history, if st == Off then g.childAt else |g.history| - 1, g.childAt)
  }

  lemma Renamed(other: Other, data: Dataset, st: AofState, sel: int, g: Logs)
    requires Inv(other, data, st, sel, true, g) && g.history != []
    ensures Inv(other, data, if st == WaitRewrite then On else st, -1, true, AfterRename(g, st))
    ensures g.fileAt <= AfterRename(g, st).fileAt
  {
    AnyDb(other, g.child + g.diff, sel, data);
    hide Tracks;
    assert g.child + g.diff + [] == g.child + g.diff;
    assert st == Off ==> g.child + g.diff == g.child;
  }

  /** The child is gone, and what was kept for it. */
  lemma Dropped(other: Other, data: Dataset, st: AofState, sel: int, child: bool, g: Logs)
    requires Inv(other, data, st, sel, child, g)
    ensures Inv(other, data, st, sel, false, g.(diff := []))
  {
    hide Tracks;
  }

  lemma Stopped(other: Other, data: Dataset, st: AofState, sel: int, child: bool, g: Logs)
    requires Inv(other, data, st, sel, child, g) && g.buf == [] && st != Off
    ensures Inv(other, data, Off, -1, false, g.(diff := []))
  {
    hide Tracks;
  }

  lemma Started(other: Other, data: Dataset, sel: int, g: Logs)
    requires Inv(other, data, Off, sel, true, g) && g.childAt == |g.history| - 1 && sel == -1
    ensures Inv(other, data, WaitRewrite, -1, true, g)
  {
    hide Tracks;
    assert g.child + g.diff == g.child;
  }
}
