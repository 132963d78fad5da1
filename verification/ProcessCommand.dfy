/** redis.c, processCommand: which commands reach the queue of a transaction. */
module Commands {
  import opened Wrappers
  import opened MultiHistory
  import opened MultiServer

  datatype Proc =
    | ExecProc | DiscardProc | MultiProc | WatchProc(keys: seq<WKey>) | UnwatchProc | AuthProc | SubscribeProc | OtherProc

  /** A command as the table describes it: `whileBusy` is for SHUTDOWN NOSAVE and SCRIPT KILL. */
  datatype Command = Command(known: bool, arityOk: bool, proc: Proc, denyOom: bool, write: bool, stale: bool,
                             loading: bool, whileBusy: bool)

  /** What processCommand looks at in the server and the client. */
  datatype Conditions = Conditions(
    requirePass: bool, authenticated: bool, maxMemory: bool, cannotFree: bool, stopWrites: bool,
    slave: bool, readOnly: bool, fromMaster: bool, linked: bool, serveStale: bool,
    loading: bool, luaTimedOut: bool)

  /** The reasons of processCommand, each by itself. */
  predicate Applies(why: Refusal, cmd: Command, s: Conditions, me: Client) {
    match why
    case UnknownCommand => !cmd.known
    case WrongArity => !cmd.arityOk
    case NotPermitted => s.requirePass && !s.authenticated && !cmd.proc.AuthProc?
    case OutOfMemory => s.maxMemory && s.cannotFree && cmd.denyOom
    case SavesFailing => s.stopWrites && cmd.write
    case ReadOnlySlave => s.slave && s.readOnly && !s.fromMaster && cmd.write
    case SubscribedOnly => me.topics != {} && !cmd.proc.SubscribeProc?
    case MasterDown => s.slave && !s.linked && !s.serveStale && !cmd.stale
    case LoadingDataset => s.loading && !cmd.loading
    case ScriptBusy => s.luaTimedOut && !cmd.proc.AuthProc? && !cmd.whileBusy
    case NestedMulti => false
    case WatchInMulti => false
  }

  function Rank(why: Refusal): nat {
    match why
    case UnknownCommand => 0 case WrongArity => 1 case NotPermitted => 2 case OutOfMemory => 3 case SavesFailing => 4
    case ReadOnlySlave => 5 case SubscribedOnly => 6 case MasterDown => 7 case LoadingDataset => 8 case ScriptBusy => 9
    case NestedMulti => 10 case WatchInMulti => 11
  }

  /** None of the first `n` reasons applies. */
  ghost predicate ClearTo(n: nat, cmd: Command, s: Conditions, me: Client) {
    forall q :: Rank(q) < n ==> !Applies(q, cmd, s, me)
  }

  /** The reason applies, and none that is looked at before it. */
  ghost predicate First(why: Refusal, cmd: Command, s: Conditions, me: Client) {
    Applies(why, cmd, s, me) && ClearTo(Rank(why), cmd, s, me)
  }

  lemma ClearNext(why: Refusal, cmd: Command, s: Conditions, me: Client)
    requires ClearTo(Rank(why), cmd, s, me) && !Applies(why, cmd, s, me)
    ensures ClearTo(Rank(why) + 1, cmd, s, me)
  {
    hide Applies;
  }

  lemma UnfoldEarly(cmd: Command, s: Conditions, me: Client)
    ensures Applies(UnknownCommand, cmd, s, me) <==> !cmd.known
    ensures Applies(WrongArity, cmd, s, me) <==> !cmd.arityOk
    ensures Applies(NotPermitted, cmd, s, me) <==> s.requirePass && !s.authenticated && !cmd.proc.AuthProc?
    ensures Applies(OutOfMemory, cmd, s, me) <==> s.maxMemory && s.cannotFree && cmd.denyOom
    ensures Applies(SavesFailing, cmd, s, me) <==> s.stopWrites && cmd.write
    ensures Applies(ReadOnlySlave, cmd, s, me) <==> s.slave && s.readOnly && !s.fromMaster && cmd.write
  {}

  lemma UnfoldLate(cmd: Command, s: Conditions, me: Client)
    ensures Applies(SubscribedOnly, cmd, s, me) <==> me.topics != {} && !cmd.proc.SubscribeProc?
    ensures Applies(MasterDown, cmd, s, me) <==> s.slave && !s.linked && !s.serveStale && !cmd.stale
    ensures Applies(LoadingDataset, cmd, s, me) <==> s.loading && !cmd.loading
    ensures Applies(ScriptBusy, cmd, s, me) <==> s.luaTimedOut && !cmd.proc.AuthProc? && !cmd.whileBusy
    ensures !Applies(NestedMulti, cmd, s, me) && !Applies(WatchInMulti, cmd, s, me)
  {}

  /** The checks of processCommand, in order. */
  method Check(cmd: Command, s: Conditions, me: Client) returns (r: Option<Refusal>)
    ensures r.Some? ==> First(r.value, cmd, s, me)
    ensures r == None ==> forall q :: !Applies(q, cmd, s, me)
  {
    UnfoldEarly(cmd, s, me);
    hide Applies, ClearTo;
    assert ClearTo(0, cmd, s, me) by { ClearFirst(cmd, s, me); }
    if !cmd.known { return Some(UnknownCommand); }
    ClearNext(UnknownCommand, cmd, s, me);
    if !cmd.arityOk { return Some(WrongArity); }
    ClearNext(WrongArity, cmd, s, me);
    if s.requirePass && !s.authenticated && !cmd.proc.AuthProc? { return Some(NotPermitted); }
    ClearNext(NotPermitted, cmd, s, me);
    if s.maxMemory {
      if cmd.denyOom && s.cannotFree { return Some(OutOfMemory); }
    }
    ClearNext(OutOfMemory, cmd, s, me);
    if s.stopWrites && cmd.write { return Some(SavesFailing); }
    ClearNext(SavesFailing, cmd, s, me);
    if s.slave && s.readOnly && !s.fromMaster && cmd.write { return Some(ReadOnlySlave); }
    ClearNext(ReadOnlySlave, cmd, s, me);
    r := CheckLate(cmd, s, me);
  }

  /** The last four of them. */
  method CheckLate(cmd: Command, s: Conditions, me: Client) returns (r: Option<Refusal>)
    requires ClearTo(6, cmd, s, me)
    ensures r.Some? ==> First(r.value, cmd, s, me)
    ensures r == None ==> forall q :: !Applies(q, cmd, s, me)
  {
    UnfoldLate(cmd, s, me);
    hide Applies, ClearTo;
    if me.topics != {} && !cmd.proc.SubscribeProc? { return Some(SubscribedOnly); }
    ClearNext(SubscribedOnly, cmd, s, me);
    if s.slave && !s.linked && !s.serveStale && !cmd.stale { return Some(MasterDown); }
    ClearNext(MasterDown, cmd, s, me);
    if s.loading && !cmd.loading { return Some(LoadingDataset); }
    ClearNext(LoadingDataset, cmd, s, me);
    if s.luaTimedOut && !cmd.proc.AuthProc? && !cmd.whileBusy { return Some(ScriptBusy); }
    ClearNext(ScriptBusy, cmd, s, me);
    ClearAll(cmd, s, me);
    return None;
  }

  lemma ClearFirst(cmd: Command, s: Conditions, me: Client)
    ensures ClearTo(0, cmd, s, me)
  {}

  lemma ClearAll(cmd: Command, s: Conditions, me: Client)
    requires ClearTo(10, cmd, s, me) && !Applies(NestedMulti, cmd, s, me) && !Applies(WatchInMulti, cmd, s, me)
    ensures forall q :: !Applies(q, cmd, s, me)
  {
    hide Applies;
  }

  predicate AtOnce(p: Proc) { p.ExecProc? || p.DiscardProc? || p.MultiProc? || p.WatchProc? }

  /** What a command that is called leaves in the history. */
  ghost function CalledEvents(log: Log, c: Id, text: Cmd, p: Proc, effects: Cmd -> seq<Effect>): Log {
    match p
    case ExecProc => ExecEvents(log, c, effects)
    case DiscardProc => if Open(log, c) then [End(c), Unwatch(c)] else []
    case MultiProc => if Open(log, c) then [Refuse(c, text, NestedMulti)] else [Begin(c)]
    case WatchProc(keys) => if Open(log, c) then [Refuse(c, text, WatchInMulti)] else Watching(c, keys)
    case UnwatchProc => [Unwatch(c)]
    case _ => EventsOf(effects(text))
  }

  ghost function CalledTopics(log: Log, c: Id, text: Cmd, p: Proc, effects: Cmd -> seq<Effect>, topics: set<Topic>): set<Topic> {
    match p
    case ExecProc => ExecTopics(log, c, effects, topics)
    case DiscardProc => topics
    case MultiProc => topics
    case WatchProc(_) => topics
    case UnwatchProc => topics
    case _ => TopicsAfter(topics, effects(text))
  }

  /** Whether the command asks for the reply; of other commands it is not modelled. */
  ghost predicate Replies(log: Log, c: Id, p: Proc, reply: Reply) {
    match p
    case ExecProc =>
      if !Open(log, c) then reply == Error
      else if Erred(log, c) then reply == ExecAbort
      else if Stale(log, c) then reply == NullMultiBulk
      else reply == MultiBulk(|Queued(log, c)|)
    case DiscardProc => reply == if Open(log, c) then Ok else Error
    case MultiProc => reply == if Open(log, c) then Error else Ok
    case WatchProc(_) => reply == if Open(log, c) then Error else Ok
    case UnwatchProc => reply == Ok
    case _ => true
  }

  datatype Outcome = Refused(why: Refusal) | InQueue | Called(reply: Reply, ran: seq<Cmd>)

  /** A command is refused for the first reason that applies, which the history keeps, and the
      transaction is flagged or not; or it is queued; or called. A client with an open
      transaction is never in a Pub/Sub context, so that reason is not among those of its
      refusals. */
  method ProcessCommand(server: Server, c: Id, text: Cmd, cmd: Command, s: Conditions, effects: Cmd -> seq<Effect>)
    returns (o: Outcome)
    requires server.Valid() && c in server.clients && Apart(server.clients)
    modifies server
    ensures server.Valid() && server.clients.Keys == old(server.clients).Keys && Apart(server.clients)
    ensures o.Refused? <==> exists q :: Applies(q, cmd, s, old(server.clients)[c])
    ensures o.Refused? ==> First(o.why, cmd, s, old(server.clients)[c]) && server.log == old(server.log) + [Refuse(c, text, o.why)]
    ensures o.Refused? && Open(old(server.log), c) ==> o.why != SubscribedOnly
    ensures !o.Refused? ==> (o.InQueue? <==> Open(old(server.log), c) && !AtOnce(cmd.proc))
    ensures o.InQueue? ==> server.log == old(server.log) + [Queue(c, text)]
    ensures o.Called? ==>
      && server.log == old(server.log) + CalledEvents(old(server.log), c, text, cmd.proc, effects)
      && Replies(old(server.log), c, cmd.proc, o.reply)
    ensures Others(old(server.clients), server.clients, c) && server.clients[c].topics ==
      if o.Called? then CalledTopics(old(server.log), c, text, cmd.proc, effects, old(server.clients)[c].topics)
      else old(server.clients)[c].topics
    ensures o.Called? && cmd.proc.ExecProc? ==>
      && (o.reply.MultiBulk? <==> Open(old(server.log), c) && !Stale(old(server.log), c) && !Erred(old(server.log), c))
      && o.ran == if o.reply.MultiBulk? then Queued(old(server.log), c) else []
    ensures o.Called? && cmd.proc.ExecProc? && Open(old(server.log), c) ==>
      (o.reply.MultiBulk? && o.ran == Sent(old(server.log), c)
       <==> !Stale(old(server.log), c) && !MultiHistory.Refused(old(server.log), c))
  {
    server.FlagsMean(c);
    ghost var was := server.clients;
    var me := server.clients[c];
    assert me.multi ==> me.topics == {};
    var r := Check(cmd, s, me);
    if r == None { NotBusy(cmd, s, me); }
    if r.Some? { NotSubscribed(r.value, cmd, s, me); }
    hide Applies, First, Open, Stale, Erred, MultiHistory.Refused, Queued, Sent, Apart;
    if r.Some? {
      server.RefuseCommand(c, text, r.value);
      FirstApplies(r.value, cmd, s, me);
      ApartStep(was, server.clients, c);
      return Refused(r.value);
    }
    if server.clients[c].multi && !AtOnce(cmd.proc) {
      server.QueueMultiCommand(c, text);
      ApartStep(was, server.clients, c);
      return InQueue;
    }
    o := CallCommand(server, c, text, cmd.proc, effects);
    ApartStep(was, server.clients, c);
  }

  lemma NotBusy(cmd: Command, s: Conditions, me: Client)
    requires forall q :: !Applies(q, cmd, s, me)
    ensures me.topics == {} || cmd.proc.SubscribeProc?
  {
    assert !Applies(SubscribedOnly, cmd, s, me);
  }

  lemma NotSubscribed(why: Refusal, cmd: Command, s: Conditions, me: Client)
    requires First(why, cmd, s, me)
    ensures me.topics == {} ==> why != SubscribedOnly
  {}

  lemma FirstApplies(why: Refusal, cmd: Command, s: Conditions, me: Client)
    requires First(why, cmd, s, me)
    ensures exists q :: Applies(q, cmd, s, me)
  {}

  /** call, as far as transactions go: what any other command does to keys is up to it. */
  method CallCommand(server: Server, c: Id, text: Cmd, p: Proc, effects: Cmd -> seq<Effect>) returns (o: Outcome)
    requires server.Valid() && c in server.clients && (server.clients[c].multi ==> AtOnce(p) && server.clients[c].topics == {})
    requires server.clients[c].topics == {} || p.SubscribeProc?
    modifies server
    ensures server.Valid() && Others(old(server.clients), server.clients, c) && o.Called?
    ensures server.clients[c].multi ==> server.clients[c].topics == {}
    ensures server.log == old(server.log) + CalledEvents(old(server.log), c, text, p, effects)
    ensures Replies(old(server.log), c, p, o.reply)
    ensures server.clients[c].topics == CalledTopics(old(server.log), c, text, p, effects, old(server.clients)[c].topics)
    ensures p.ExecProc? ==>
      && (o.reply.MultiBulk? <==> Open(old(server.log), c) && !Stale(old(server.log), c) && !Erred(old(server.log), c))
      && o.ran == if o.reply.MultiBulk? then Queued(old(server.log), c) else []
    ensures p.ExecProc? && Open(old(server.log), c) ==>
      (o.reply.MultiBulk? && o.ran == Sent(old(server.log), c)
       <==> !Stale(old(server.log), c) && !MultiHistory.Refused(old(server.log), c))
  {
    assert AtOnce(ExecProc);
    hide *;
    match p {
      case ExecProc => o := CallExec(server, c, text, effects);
      case _ => o := CallOther(server, c, text, p, effects);
    }
  }

  method CallExec(server: Server, c: Id, ghost text: Cmd, effects: Cmd -> seq<Effect>) returns (o: Outcome)
    requires server.Valid() && c in server.clients && (server.clients[c].multi ==> server.clients[c].topics == {})
    modifies server
    ensures server.Valid() && Others(old(server.clients), server.clients, c) && o.Called?
    ensures server.clients[c].multi ==> server.clients[c].topics == {}
    ensures server.log == old(server.log) + CalledEvents(old(server.log), c, text, ExecProc, effects)
    ensures Replies(old(server.log), c, ExecProc, o.reply)
    ensures server.clients[c].topics == CalledTopics(old(server.log), c, text, ExecProc, effects, old(server.clients)[c].topics)
    ensures o.reply.MultiBulk? <==> Open(old(server.log), c) && !Stale(old(server.log), c) && !Erred(old(server.log), c)
    ensures o.ran == if o.reply.MultiBulk? then Queued(old(server.log), c) else []
    ensures Open(old(server.log), c) ==>
      (o.reply.MultiBulk? && o.ran == Sent(old(server.log), c)
       <==> !Stale(old(server.log), c) && !MultiHistory.Refused(old(server.log), c))
  {
    server.FlagsMean(c);
    hide Server.Valid, Agree, AllFaithful, Orderly, Open, Stale, Erred, MultiHistory.Refused, Queued, Sent, ExecEvents, ExecTopics;
    var reply, ran := server.ExecCommand(c, effects);
    o := Called(reply, ran);
  }

  method CallOther(server: Server, c: Id, text: Cmd, p: Proc, effects: Cmd -> seq<Effect>) returns (o: Outcome)
    requires server.Valid() && c in server.clients && (server.clients[c].multi ==> AtOnce(p) && server.clients[c].topics == {})
    requires !p.ExecProc? && (server.clients[c].topics == {} || p.SubscribeProc?)
    modifies server
    ensures server.Valid() && Others(old(server.clients), server.clients, c) && o.Called?
    ensures server.clients[c].multi ==> server.clients[c].topics == {}
    ensures server.log == old(server.log) + CalledEvents(old(server.log), c, text, p, effects)
    ensures Replies(old(server.log), c, p, o.reply)
    ensures server.clients[c].topics == CalledTopics(old(server.log), c, text, p, effects, old(server.clients)[c].topics)
  {
    server.FlagsMean(c);
    ghost var log, was := server.log, server.clients;
    CalledIs(log, c, text, p, effects, was[c].topics);
    hide *;
    var reply := Ok;
    if p.DiscardProc? {
      reply := server.DiscardCommand(c);
    } else if p.MultiProc? {
      reply := server.MultiCommand(c, text);
    } else if p.WatchProc? {
      reply := server.WatchCommand(c, p.keys, text);
    } else if p.UnwatchProc? {
      reply := server.UnwatchCommand(c);
    } else {
      server.RunEffects(c, effects(text));
    }
    o := Called(reply, []);
  }

  lemma CalledIs(log: Log, c: Id, text: Cmd, p: Proc, effects: Cmd -> seq<Effect>, topics: set<Topic>)
    requires !p.ExecProc?
    ensures CalledEvents(log, c, text, p, effects) ==
      if p.DiscardProc? then if Open(log, c) then [End(c), Unwatch(c)] else []
      else if p.MultiProc? then if Open(log, c) then [Refuse(c, text, NestedMulti)] else [Begin(c)]
      else if p.WatchProc? then if Open(log, c) then [Refuse(c, text, WatchInMulti)] else Watching(c, p.keys)
      else if p.UnwatchProc? then [Unwatch(c)] else EventsOf(effects(text))
    ensures CalledTopics(log, c, text, p, effects, topics) ==
      if p.DiscardProc? || p.MultiProc? || p.WatchProc? || p.UnwatchProc? then topics else TopicsAfter(topics, effects(text))
    ensures forall reply :: Replies(log, c, p, reply) <==>
      if p.DiscardProc? then reply == if Open(log, c) then Ok else Error
      else if p.MultiProc? || p.WatchProc? then reply == if Open(log, c) then Error else Ok
      else p.UnwatchProc? ==> reply == Ok
    ensures AtOnce(p) <==> p.DiscardProc? || p.MultiProc? || p.WatchProc?
  {
    hide Open, Watching, EventsOf, TopicsAfter;
  }

  /** The events are of other clients, or of none. */
  ghost predicate Foreign(events: Log, a: Id) { forall i :: 0 <= i < |events| ==> events[i] != Unwatch(a) && events[i] != End(a) }

  ghost predicate Hitting(events: Log, k: WKey) { exists i :: 0 <= i < |events| && Hits(events[i], k) }

  /** A client that watches a key which others change afterwards will see it. */
  lemma {:induction false} SeenLater(log: Log, events: Log, a: Id, k: WKey)
    requires Watches(log, a, k) && Foreign(events, a)
    ensures Watches(log + events, a, k) && (Open(log, a) ==> Open(log + events, a)) && (Hitting(events, k) ==> Stale(log + events, a))
    decreases |events|
  {
    if events == [] {
      assert log + events == log;
    } else {
      var n := |events| - 1;
      var init, e := events[..n], events[n];
      assert log + events == log + init + [e];
      assert events[n] == e && forall i :: 0 <= i < n ==> init[i] == events[i];
      SeenLater(log, init, a, k);
      WatchesSnoc(log + init, e, a, k);
      StaleSnoc(log + init, e, a);
      OpenSnoc(log + init, e, a);
      hide Watches, Stale, Open, Hits, Queued;
      assert Hitting(events, k) ==> Hitting(init, k) || Hits(e, k);
    }
  }

  lemma EffectsForeign(effects: seq<Effect>, a: Id)
    ensures Foreign(EventsOf(effects), a)
  {
    if effects != [] { EffectsForeign(effects[..|effects| - 1], a); }
  }

  lemma CalledForeign(log: Log, b: Id, text: Cmd, p: Proc, effects: Cmd -> seq<Effect>, a: Id)
    requires a != b
    ensures Foreign(CalledEvents(log, b, text, p, effects), a)
  {
    EffectsForeign(effects(text), a);
    EffectsForeign(AllEffects(Queued(log, b), effects), a);
    hide EventsOf, AllEffects, Open, Stale, Erred, Queued;
  }

  /** The law of WATCH, over two clients: `a` watches `k` and has a transaction open; a command
      of `b` is called that touches or flushes `k`, in a transaction of its own or not; then
      EXEC of `a` runs nothing. */
  method TouchThenExec(server: Server, a: Id, k: WKey, b: Id, text: Cmd, cmd: Command, s: Conditions, effects: Cmd -> seq<Effect>)
    returns (o: Outcome, reply: Reply, ran: seq<Cmd>)
    requires server.Valid() && a in server.clients && b in server.clients && a != b && Apart(server.clients)
    modifies server
    ensures (o.Called? && Watches(old(server.log), a, k) && Open(old(server.log), a)
             && Hitting(CalledEvents(old(server.log), b, text, cmd.proc, effects), k)) ==>
      !reply.MultiBulk? && !reply.Error? && ran == []
  {
    ghost var log := server.log;
    hide *;
    o := ProcessCommand(server, b, text, cmd, s, effects);
    if o.Called? && Watches(log, a, k) {
      CalledForeign(log, b, text, cmd.proc, effects, a);
      SeenLater(log, CalledEvents(log, b, text, cmd.proc, effects), a, k);
    }
    reply, ran := server.ExecCommand(a, effects);
  }
}
