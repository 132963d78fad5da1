/** What WATCH, MULTI and EXEC promise, in terms of everything that happened so far. */
module MultiHistory {
  type Id = nat
  type Cmd = seq<string>

  /** A key of a DB. */
  datatype WKey = WKey(db: nat, key: string)

  /** The error replies to a command that is not queued: those of processCommand in its order,
      then those of MULTI and WATCH, which are called at once. */
  datatype Refusal =
    | UnknownCommand | WrongArity | NotPermitted | OutOfMemory | SavesFailing | ReadOnlySlave | SubscribedOnly
    | MasterDown | LoadingDataset | ScriptBusy | NestedMulti | WatchInMulti

  /** Whether flagTransaction is called. */
  predicate Flags(why: Refusal) {
    match why
    case ReadOnlySlave => false
    case SubscribedOnly => false
    case LoadingDataset => false
    case NestedMulti => false
    case WatchInMulti => false
    case _ => true
  }

  datatype Event =
    | Watch(c: Id, k: WKey)
    | Unwatch(c: Id)
    | Touch(k: WKey)
    | Flush(dbid: int, existing: set<WKey>)
    | Begin(c: Id)
    | Queue(c: Id, cmd: Cmd)
    | Refuse(c: Id, cmd: Cmd, why: Refusal)
    | End(c: Id)

  type Log = seq<Event>

  /** The event changes the key: a touch, or a flush of a DB that has it; -1 is for all DBs. */
  predicate Hits(e: Event, k: WKey) {
    e == Touch(k) || (e.Flush? && (e.dbid == -1 || k.db == e.dbid) && k in e.existing)
  }

  ghost predicate Since(log: Log, i: nat, e: Event) { forall m :: i < m < |log| ==> log[m] != e }

  /** The client watches the key. */
  ghost predicate Watches(log: Log, c: Id, k: WKey) {
    exists i :: 0 <= i < |log| && log[i] == Watch(c, k) && Since(log, i, Unwatch(c))
  }

  /** A key was changed after the client began to watch it, and the client still does. */
  ghost predicate Stale(log: Log, c: Id) {
    exists i, j :: 0 <= i < j < |log| && log[i].Watch? && log[i].c == c && Hits(log[j], log[i].k) && Since(log, i, Unwatch(c))
  }

  /** A transaction is open. */
  ghost predicate Open(log: Log, c: Id) { exists i :: 0 <= i < |log| && log[i] == Begin(c) && Since(log, i, End(c)) }

  /** Event `j` refuses a command of the transaction that event `i` began. */
  ghost predicate Refusing(log: Log, c: Id, i: nat, j: nat) {
    i < j < |log| && log[i] == Begin(c) && Since(log, i, End(c)) && log[j].Refuse? && log[j].c == c
  }

  /** A command of the open transaction was refused, in whatever way; in a way that flags it. */
  ghost predicate Refused(log: Log, c: Id) { exists i: nat, j: nat :: Refusing(log, c, i, j) }

  ghost predicate Erred(log: Log, c: Id) { exists i: nat, j: nat :: Refusing(log, c, i, j) && Flags(log[j].why) }

  /** The commands queued since the last transaction ended. */
  ghost function Queued(log: Log, c: Id): seq<Cmd> {
    if log == [] then []
    else
      var n := |log| - 1;
      var e := log[n];
      if e == End(c) then []
      else if e.Queue? && e.c == c then Queued(log[..n], c) + [e.cmd]
      else Queued(log[..n], c)
  }

  /** The commands that the client sent since MULTI, queued or not. */
  ghost function Sent(log: Log, c: Id): seq<Cmd> {
    if log == [] then []
    else
      var n := |log| - 1;
      var e := log[n];
      if e == Begin(c) || e == End(c) then []
      else if (e.Queue? || e.Refuse?) && e.c == c then Sent(log[..n], c) + [e.cmd]
      else Sent(log[..n], c)
  }

  /** A transaction begins when none is open, commands are queued in an open one, and a client
      that has one open is not subscribed. */
  ghost predicate Allowed(log: Log, e: Event) {
    && (e.Begin? ==> !Open(log, e.c)) && (e.Queue? ==> Open(log, e.c))
    && (e.Refuse? && e.why == SubscribedOnly ==> !Open(log, e.c))
  }

  ghost predicate Orderly(log: Log) {
    log == [] || (Orderly(log[..|log| - 1]) && Allowed(log[..|log| - 1], log[|log| - 1]))
  }

  // ---- one more event

  lemma SinceSnoc(log: Log, e: Event, i: nat, x: Event)
    requires i < |log|
    ensures Since(log + [e], i, x) <==> Since(log, i, x) && e != x
  {
    var log' := log + [e];
    assert forall m :: 0 <= m < |log| ==> log'[m] == log[m];
    assert log'[|log|] == e;
  }

  lemma LastSince(log: Log, e: Event, x: Event)
    ensures Since(log + [e], |log|, x)
  {}

  lemma WatchesSnoc(log: Log, e: Event, c: Id, k: WKey)
    ensures Watches(log + [e], c, k) <==> e == Watch(c, k) || (e != Unwatch(c) && Watches(log, c, k))
  {
    var log' := log + [e];
    assert forall m :: 0 <= m < |log| ==> log'[m] == log[m];
    assert log'[|log|] == e;
    LastSince(log, e, Unwatch(c));
    forall i | 0 <= i < |log| ensures Since(log', i, Unwatch(c)) <==> Since(log, i, Unwatch(c)) && e != Unwatch(c) {
      SinceSnoc(log, e, i, Unwatch(c));
    }
    hide Since;
    if e == Watch(c, k) { assert log'[|log|] == Watch(c, k); }
  }

  lemma StaleSnoc(log: Log, e: Event, c: Id)
    ensures Stale(log + [e], c) <==> e != Unwatch(c) && (Stale(log, c) || exists k :: Watches(log, c, k) && Hits(e, k))
  {
    var log' := log + [e];
    assert forall m :: 0 <= m < |log| ==> log'[m] == log[m];
    assert log'[|log|] == e;
    forall i | 0 <= i < |log| ensures Since(log', i, Unwatch(c)) <==> Since(log, i, Unwatch(c)) && e != Unwatch(c) {
      SinceSnoc(log, e, i, Unwatch(c));
    }
    hide Since, Hits;
    if e != Unwatch(c) {
      if Stale(log, c) {
        var i, j :| 0 <= i < j < |log| && log[i].Watch? && log[i].c == c && Hits(log[j], log[i].k) && Since(log, i, Unwatch(c));
        assert log'[i].Watch? && Hits(log'[j], log'[i].k);
      }
      if k :| Watches(log, c, k) && Hits(e, k) {
        var i :| 0 <= i < |log| && log[i] == Watch(c, k) && Since(log, i, Unwatch(c));
        assert log'[i].Watch? && Hits(log'[|log|], log'[i].k);
      }
    }
    if Stale(log', c) {
      var i, j :| 0 <= i < j < |log'| && log'[i].Watch? && log'[i].c == c && Hits(log'[j], log'[i].k) && Since(log', i, Unwatch(c));
      if j < |log| {
        assert log[i].Watch? && Hits(log[j], log[i].k);
      } else {
        assert log[i] == Watch(c, log[i].k) && Watches(log, c, log[i].k);
      }
    }
  }

  lemma OpenSnoc(log: Log, e: Event, c: Id)
    ensures Open(log + [e], c) <==> e == Begin(c) || (e != End(c) && Open(log, c))
    ensures Queued(log + [e], c) == if e == End(c) then [] else if e.Queue? && e.c == c then Queued(log, c) + [e.cmd] else Queued(log, c)
  {
    var log' := log + [e];
    assert forall m :: 0 <= m < |log| ==> log'[m] == log[m];
    assert log'[|log|] == e && log'[..|log|] == log;
    LastSince(log, e, End(c));
    forall i | 0 <= i < |log| ensures Since(log', i, End(c)) <==> Since(log, i, End(c)) && e != End(c) {
      SinceSnoc(log, e, i, End(c));
    }
    hide Since;
    if e == Begin(c) { assert log'[|log|] == Begin(c); }
  }

  lemma RefusingSnoc(log: Log, e: Event, c: Id, i: nat, j: nat)
    ensures j < |log| ==> (Refusing(log + [e], c, i, j) <==> Refusing(log, c, i, j) && e != End(c))
    ensures j == |log| ==>
      (Refusing(log + [e], c, i, j) <==>
        e.Refuse? && e.c == c && i < |log| && log[i] == Begin(c) && Since(log, i, End(c)))
  {
    var log' := log + [e];
    assert forall m :: 0 <= m < |log| ==> log'[m] == log[m];
    assert log'[|log|] == e;
    if i < |log| { SinceSnoc(log, e, i, End(c)); }
    hide Since;
  }

  lemma RefusedSnoc(log: Log, e: Event, c: Id)
    ensures Refused(log + [e], c) <==> e != End(c) && (Refused(log, c) || (e.Refuse? && e.c == c && Open(log, c)))
    ensures Erred(log + [e], c) <==> e != End(c) && (Erred(log, c) || (e.Refuse? && e.c == c && Flags(e.why) && Open(log, c)))
  {
    var log' := log + [e];
    assert forall m :: 0 <= m < |log| ==> log'[m] == log[m];
    assert log'[|log|] == e;
    forall i: nat, j: nat
      ensures j < |log| ==> (Refusing(log', c, i, j) <==> Refusing(log, c, i, j) && e != End(c))
      ensures j == |log| ==> (Refusing(log', c, i, j) <==>
                              e.Refuse? && e.c == c && i < |log| && log[i] == Begin(c) && Since(log, i, End(c)))
    {
      RefusingSnoc(log, e, c, i, j);
    }
    Range(log, c);
    Range(log', c);
    hide Refusing, Since, Flags;
    if e.Refuse? && e.c == c && Open(log, c) {
      var i :| 0 <= i < |log| && log[i] == Begin(c) && Since(log, i, End(c));
      assert Refusing(log', c, i, |log|);
    }
    if e != End(c) && Refused(log, c) {
      var i: nat, j: nat :| Refusing(log, c, i, j);
      assert Refusing(log', c, i, j);
    }
    if e != End(c) && Erred(log, c) {
      var i: nat, j: nat :| Refusing(log, c, i, j) && Flags(log[j].why);
      assert Refusing(log', c, i, j);
    }
  }

  lemma Range(log: Log, c: Id)
    ensures forall i: nat, j: nat :: Refusing(log, c, i, j) ==> j < |log|
  {}

  lemma SentSnoc(log: Log, e: Event, c: Id)
    ensures Sent(log + [e], c) == if e == Begin(c) || e == End(c) then []
      else if (e.Queue? || e.Refuse?) && e.c == c then Sent(log, c) + [e.cmd] else Sent(log, c)
  {
    assert (log + [e])[..|log|] == log;
  }

  /** What is queued, of what was sent: all of it unless something was refused. */
  ghost predicate Told(log: Log, c: Id) {
    if Open(log, c) then (if Refused(log, c) then |Queued(log, c)| < |Sent(log, c)| else Queued(log, c) == Sent(log, c))
    else Queued(log, c) == [] && !Refused(log, c)
  }

  lemma {:induction false} QueueTold(log: Log, c: Id)
    requires Orderly(log)
    ensures Told(log, c)
  {
    if log != [] {
      var init, e := log[..|log| - 1], log[|log| - 1];
      assert log == init + [e];
      QueueTold(init, c);
      OpenSnoc(init, e, c);
      RefusedSnoc(init, e, c);
      SentSnoc(init, e, c);
      hide Open, Refused, Queued, Sent;
    }
  }

  /** The queue of an open transaction is all that the client sent since MULTI exactly when none
      of it was refused, whether or not the refusal flags the transaction. */
  lemma WholeQueue(log: Log, c: Id)
    requires Orderly(log) && Open(log, c)
    ensures Queued(log, c) == Sent(log, c) <==> !Refused(log, c)
  {
    QueueTold(log, c);
    hide Open, Refused, Queued, Sent;
  }

  lemma {:induction false} AllowedAt(log: Log, j: nat)
    requires Orderly(log) && j < |log|
    ensures Allowed(log[..j], log[j])
    decreases |log|
  {
    hide Allowed;
    if j < |log| - 1 {
      AllowedAt(log[..|log| - 1], j);
      assert log[..|log| - 1][..j] == log[..j];
    }
  }

  /** The refusals that do not flag an open transaction. */
  predicate Unflagged(why: Refusal) { why in {ReadOnlySlave, LoadingDataset, NestedMulti, WatchInMulti} }

  lemma RefusalReason(log: Log, c: Id, i: nat, j: nat)
    requires Orderly(log) && Refusing(log, c, i, j)
    ensures Flags(log[j].why) || Unflagged(log[j].why)
  {
    AllowedAt(log, j);
    assert log[..j][i] == Begin(c) && Since(log[..j], i, End(c));
    hide Orderly;
  }

  ghost predicate Excused(log: Log, c: Id) {
    exists i: nat, j: nat :: Refusing(log, c, i, j) && Unflagged(log[j].why)
  }

  /** What is refused without flagging the transaction is a write on a read-only slave, a
      command while loading, a MULTI, or a WATCH. */
  lemma FourReasons(log: Log, c: Id)
    requires Orderly(log) && Refused(log, c) && !Erred(log, c)
    ensures Excused(log, c)
  {
    var i: nat, j: nat :| Refusing(log, c, i, j);
    RefusalReason(log, c, i, j);
    assert j < |log|;
    hide Refusing, Orderly;
  }

  lemma ErredIsRefused(log: Log, c: Id)
    ensures Erred(log, c) ==> Refused(log, c)
  {}

  lemma OrderlySnoc(log: Log, e: Event)
    ensures Orderly(log + [e]) <==> Orderly(log) && Allowed(log, e)
  {
    assert (log + [e])[..|log|] == log;
  }

  /** MULTI, a write that a read-only slave refuses, a read, EXEC: nothing is flagged, and the
      queue holds less than was sent. */
  lemma RefusedWriteRuns(c: Id, write: Cmd, read: Cmd)
    ensures var log := [Begin(c), Refuse(c, write, ReadOnlySlave), Queue(c, read)];
      && Orderly(log) && Open(log, c) && Refused(log, c) && !Erred(log, c) && !Stale(log, c)
      && Queued(log, c) == [read] && Sent(log, c) == [write, read]
  {
    var b, w, q := Begin(c), Refuse(c, write, ReadOnlySlave), Queue(c, read);
    BegunAndRefused(c, write);
    assert [b, w] + [q] == [b, w, q];
    hide *;
    OneMore([b, w], q, c);
  }

  ghost predicate WatchesNothing(log: Log, c: Id) { forall k :: !Watches(log, c, k) }

  lemma BegunAndRefused(c: Id, write: Cmd)
    ensures var log := [Begin(c), Refuse(c, write, ReadOnlySlave)];
      && Orderly(log) && Open(log, c) && Refused(log, c) && !Erred(log, c) && !Stale(log, c)
      && Queued(log, c) == [] && Sent(log, c) == [write] && WatchesNothing(log, c)
  {
    var b, w := Begin(c), Refuse(c, write, ReadOnlySlave);
    assert [] + [b] == [b] && [b] + [w] == [b, w];
    NothingYet(c);
    hide *;
    OneMore([], b, c);
    OneMore([b], w, c);
  }

  lemma NothingYet(c: Id)
    ensures !Open([], c) && !Refused([], c) && !Erred([], c) && !Stale([], c) && Orderly([])
    ensures Queued([], c) == [] && Sent([], c) == [] && WatchesNothing([], c)
  {}

  /** What an event other than a watch or a touch does, all at once. */
  lemma OneMore(log: Log, e: Event, c: Id)
    requires (e.Begin? || e.Queue? || e.Refuse?) && e.c == c && WatchesNothing(log, c)
    ensures Open(log + [e], c) <==> e.Begin? || Open(log, c)
    ensures Refused(log + [e], c) <==> Refused(log, c) || (e.Refuse? && Open(log, c))
    ensures Erred(log + [e], c) <==> Erred(log, c) || (e.Refuse? && Flags(e.why) && Open(log, c))
    ensures Stale(log + [e], c) <==> Stale(log, c)
    ensures Queued(log + [e], c) == if e.Queue? then Queued(log, c) + [e.cmd] else Queued(log, c)
    ensures Sent(log + [e], c) == if e.Begin? then [] else Sent(log, c) + [e.cmd]
    ensures Orderly(log + [e]) <==>
      && Orderly(log) && (e.Begin? ==> !Open(log, c)) && (e.Queue? ==> Open(log, c))
      && (e.Refuse? && e.why == SubscribedOnly ==> !Open(log, c))
    ensures WatchesNothing(log + [e], c)
  {
    hide Open, Refused, Erred, Stale, Watches, Queued, Sent, Orderly, Flags;
    OpenSnoc(log, e, c);
    RefusedSnoc(log, e, c);
    SentSnoc(log, e, c);
    StaleSnoc(log, e, c);
    OrderlySnoc(log, e);
    forall k ensures !Watches(log + [e], c, k) {
      WatchesSnoc(log, e, c, k);
    }
  }
}

/** multi.c: the flags, queues and watch lists of clients, and the index of watched keys. */
module MultiServer {
  import opened MultiHistory

  /** What a client can subscribe to. */
  datatype Topic = Channel(name: string) | Pattern(text: string)

  datatype Client = Client(multi: bool, dirtyCas: bool, dirtyExec: bool, commands: seq<Cmd>, watched: seq<WKey>,
                           topics: set<Topic>)

  type Clients = map<Id, Client>
  type Index = map<WKey, seq<Id>>

  ghost predicate Distinct<T>(s: seq<T>) { forall i, j :: 0 <= i < j < |s| ==> s[i] != s[j] }

  ghost predicate Listed(clients: Clients, index: Index) {
    forall k, c :: k in index && c in index[k] ==> c in clients && k in clients[c].watched
  }

  ghost predicate Indexed(clients: Clients, index: Index) {
    forall c, k :: c in clients && k in clients[c].watched ==> k in index && c in index[k]
  }

  /** The index and the clients' lists say the same; no duplicates, no empty lists. */
  ghost predicate Agree(clients: Clients, index: Index) {
    && (forall k :: k in index ==> index[k] != [] && Distinct(index[k]))
    && Listed(clients, index) && Indexed(clients, index)
    && (forall c :: c in clients ==> Distinct(clients[c].watched))
  }

  /** A client's state is what happened to it. */
  ghost predicate Faithful(log: Log, c: Id, s: Client) {
    && (forall k :: k in s.watched <==> Watches(log, c, k))
    && (s.dirtyCas <==> Stale(log, c)) && (s.multi <==> Open(log, c)) && (s.dirtyExec <==> Erred(log, c))
    && s.commands == Queued(log, c)
  }

  const BLANK: Client := Client(false, false, false, [], [], {})

  /** A client that is not connected has no state. */
  function StateOf(clients: Clients, c: Id): Client { if c in clients then clients[c] else BLANK }

  /** The client is in no transaction and watches nothing. */
  function Cleared(s: Client): Client { BLANK.(topics := s.topics) }

  /** A client that has a transaction open is not in a Pub/Sub context. */
  ghost predicate Apart(clients: Clients) { forall c :: c in clients && clients[c].multi ==> clients[c].topics == {} }

  /** Another client is changed in its mark at most. */
  ghost predicate Others(clients: Clients, clients': Clients, c: Id) {
    && clients'.Keys == clients.Keys
    && forall o :: o in clients && o != c ==> clients'[o].(dirtyCas := false) == clients[o].(dirtyCas := false)
  }

  lemma ApartStep(clients: Clients, clients': Clients, c: Id)
    requires Apart(clients) && Others(clients, clients', c) && c in clients
    requires clients'[c].multi ==> clients'[c].topics == {}
    ensures Apart(clients')
  {
    forall o | o in clients' && clients'[o].multi ensures clients'[o].topics == {} {
      if o != c { assert clients'[o].(dirtyCas := false) == clients[o].(dirtyCas := false); }
    }
  }

  ghost predicate AllFaithful(log: Log, clients: Clients) { forall c: Id :: Faithful(log, c, StateOf(clients, c)) }

  // ---- what one more event asks of a client

  /** The client's state after the event. */
  ghost predicate Follows(e: Event, c: Id, s: Client, s': Client) {
    && (forall k :: k in s'.watched <==> e == Watch(c, k) || (e != Unwatch(c) && k in s.watched))
    && (s'.dirtyCas <==> e != Unwatch(c) && (s.dirtyCas || exists k :: k in s.watched && Hits(e, k)))
    && (s'.multi <==> e == Begin(c) || (e != End(c) && s.multi))
    && (s'.dirtyExec <==> e != End(c) && (s.dirtyExec || (e.Refuse? && e.c == c && Flags(e.why) && s.multi)))
    && s'.commands == if e == End(c) then [] else if e.Queue? && e.c == c then s.commands + [e.cmd] else s.commands
  }

  lemma FaithfulStep(log: Log, e: Event, c: Id, s: Client, s': Client)
    requires Faithful(log, c, s) && Follows(e, c, s, s')
    ensures Faithful(log + [e], c, s')
  {
    StaleSnoc(log, e, c);
    OpenSnoc(log, e, c);
    RefusedSnoc(log, e, c);
    hide Watches, Stale, Open, Erred, Refused, Queued, Hits, Flags;
    forall k ensures k in s'.watched <==> Watches(log + [e], c, k) {
      WatchesSnoc(log, e, c, k);
    }
  }

  ghost predicate AllFollow(e: Event, clients: Clients, clients': Clients) {
    forall c: Id :: Follows(e, c, StateOf(clients, c), StateOf(clients', c))
  }

  lemma AllFaithfulStep(log: Log, e: Event, clients: Clients, clients': Clients)
    requires AllFaithful(log, clients) && AllFollow(e, clients, clients')
    ensures AllFaithful(log + [e], clients')
  {
    hide Faithful, Follows;
    forall c: Id ensures Faithful(log + [e], c, StateOf(clients', c)) {
      FaithfulStep(log, e, c, StateOf(clients, c), StateOf(clients', c));
    }
  }

  /** An event of one client leaves the others as they are. */
  ghost predicate Private(e: Event) { !e.Touch? && !e.Flush? }

  lemma OthersFollow(e: Event, c: Id, s: Client)
    requires Private(e) && e.c != c
    ensures Follows(e, c, s, s)
  {}

  lemma OneFollows(e: Event, clients: Clients, c: Id, s': Client)
    requires Private(e) && e.c == c && c in clients && Follows(e, c, clients[c], s')
    ensures AllFollow(e, clients, clients[c := s'])
  {
    hide Follows;
    forall o: Id ensures Follows(e, o, StateOf(clients, o), StateOf(clients[c := s'], o)) {
      if o != c { OthersFollow(e, o, StateOf(clients, o)); }
    }
  }

  // ---- lists of clients

  /** listDelNode of what listSearchKey finds. */
  function Without<T(==)>(s: seq<T>, x: T): seq<T> {
    if s == [] then [] else if s[0] == x then s[1..] else [s[0]] + Without(s[1..], x)
  }

  lemma {:induction false} WithoutOne<T>(s: seq<T>, x: T)
    requires Distinct(s)
    ensures Distinct(Without(s, x)) && forall y :: y in Without(s, x) <==> y in s && y != x
  {
    if s != [] {
      assert forall i :: 0 < i < |s| ==> s[i] == s[1..][i - 1];
      assert Distinct(s[1..]);
      WithoutOne(s[1..], x);
      var r := Without(s[1..], x);
      assert s[0] !in s[1..];
      if s[0] == x {
        assert forall y :: y in s <==> y == x || y in s[1..];
      } else {
        assert forall i, j :: 0 <= i < j < |[s[0]] + r| ==> ([s[0]] + r)[i] != ([s[0]] + r)[j];
        assert forall y :: y in s <==> y == s[0] || y in s[1..];
        assert forall y :: y in [s[0]] + r <==> y == s[0] || y in r;
      }
    }
  }

  lemma DistinctSnoc<T>(s: seq<T>, x: T)
    requires Distinct(s) && x !in s
    ensures Distinct(s + [x]) && forall y :: y in s + [x] <==> y in s || y == x
  {}

  /** A client begins to watch a key. */
  lemma AgreeWatch(clients: Clients, index: Index, c: Id, k: WKey)
    requires Agree(clients, index) && c in clients && k !in clients[c].watched
    ensures var list := if k in index then index[k] else [];
      Agree(clients[c := clients[c].(watched := clients[c].watched + [k])], index[k := list + [c]])
  {
    var list := if k in index then index[k] else [];
    DistinctSnoc(list, c);
    DistinctSnoc(clients[c].watched, k);
    hide Distinct;
    var clients', index' := clients[c := clients[c].(watched := clients[c].watched + [k])], index[k := list + [c]];
    forall q, o | q in index' && o in index'[q] ensures o in clients' && q in clients'[o].watched {
      assert q != k ==> q in index && o in index[q];
      assert q == k && o != c ==> o in list && k in index && o in index[k];
    }
    forall o, q | o in clients' && q in clients'[o].watched ensures q in index' && o in index'[q] {
      assert !(o == c && q == k) ==> o in clients && q in clients[o].watched;
    }
  }

  /** Flags and queues do not matter to the index. */
  lemma AgreeFlags(clients: Clients, clients': Clients, index: Index)
    requires Agree(clients, index) && clients'.Keys == clients.Keys
    requires forall c :: c in clients ==> clients'[c].watched == clients[c].watched
    ensures Agree(clients', index)
  {}

  /** The index without one client under one key; an empty list goes away. */
  function Removed(index: Index, k: WKey, c: Id): Index
    requires k in index
  {
    var list := Without(index[k], c);
    if list == [] then index - {k} else index[k := list]
  }

  lemma AgreeUnwatch(clients: Clients, index: Index, c: Id, k: WKey)
    requires Agree(clients, index) && c in clients && k in clients[c].watched
    ensures k in index && c in index[k]
    ensures Agree(clients[c := clients[c].(watched := Without(clients[c].watched, k))], Removed(index, k, c))
  {
    assert k in index && c in index[k];
    WithoutOne(index[k], c);
    WithoutOne(clients[c].watched, k);
    UnwatchedIndex(clients, index, c, k);
    UnwatchedClients(clients, index, c, k);
    hide Distinct, Without, Listed, Indexed;
  }

  lemma UnwatchedIndex(clients: Clients, index: Index, c: Id, k: WKey)
    requires Listed(clients, index) && c in clients && k in index
    requires forall o :: o in Without(index[k], c) <==> o in index[k] && o != c
    requires forall q :: q in Without(clients[c].watched, k) <==> q in clients[c].watched && q != k
    ensures Listed(clients[c := clients[c].(watched := Without(clients[c].watched, k))], Removed(index, k, c))
  {
    var clients', index' := clients[c := clients[c].(watched := Without(clients[c].watched, k))], Removed(index, k, c);
    hide Without;
    forall q, o | q in index' && o in index'[q] ensures o in clients' && q in clients'[o].watched {
      assert q in index && o in index[q];
    }
  }

  lemma UnwatchedClients(clients: Clients, index: Index, c: Id, k: WKey)
    requires Indexed(clients, index) && c in clients && k in index
    requires forall o :: o in Without(index[k], c) <==> o in index[k] && o != c
    requires forall q :: q in Without(clients[c].watched, k) <==> q in clients[c].watched && q != k
    ensures Indexed(clients[c := clients[c].(watched := Without(clients[c].watched, k))], Removed(index, k, c))
  {
    var clients', index' := clients[c := clients[c].(watched := Without(clients[c].watched, k))], Removed(index, k, c);
    hide Without;
    forall o, q | o in clients' && q in clients'[o].watched ensures q in index' && o in index'[q] {
      assert o in clients && q in clients[o].watched;
      assert o in index[q];
    }
  }

  lemma AgreeBlank(clients: Clients, index: Index, c: Id)
    requires Agree(clients, index) && c !in clients
    ensures Agree(clients[c := BLANK], index)
  {
    hide Distinct;
    assert Distinct<WKey>([]) by { EmptyDistinct(); }
  }

  lemma EmptyDistinct()
    ensures Distinct<WKey>([])
  {}

  lemma AgreeGone(clients: Clients, index: Index, c: Id)
    requires Agree(clients, index) && c in clients && clients[c].watched == []
    ensures Agree(clients - {c}, index)
  {
    hide Distinct;
  }

  /** What a client subscribes to is not part of its history. */
  lemma SameStates(log: Log, clients: Clients, clients': Clients)
    requires AllFaithful(log, clients)
    requires forall c: Id :: StateOf(clients', c) == StateOf(clients, c).(topics := StateOf(clients', c).topics)
    ensures AllFaithful(log, clients')
  {
    hide Watches, Stale, Open, Erred, Queued;
    forall c: Id ensures Faithful(log, c, StateOf(clients', c)) {
      assert Faithful(log, c, StateOf(clients, c));
    }
  }

  // ---- touching

  /** The clients of a set, marked. */
  function Marked(clients: Clients, dirty: set<Id>): Clients {
    map c | c in clients :: if c in dirty then clients[c].(dirtyCas := true) else clients[c]
  }

  lemma MarkedKeeps(clients: Clients, index: Index, dirty: set<Id>)
    requires Agree(clients, index)
    ensures Agree(Marked(clients, dirty), index)
  {
    AgreeFlags(clients, Marked(clients, dirty), index);
  }

  /** Exactly the clients that watch a key which the event hits are marked. */
  ghost predicate Hitting(e: Event, clients: Clients, dirty: set<Id>) {
    forall c :: c in clients ==> (c in dirty <==> exists k :: k in clients[c].watched && Hits(e, k))
  }

  lemma MarkedFollow(e: Event, clients: Clients, dirty: set<Id>)
    requires (e.Touch? || e.Flush?) && Hitting(e, clients, dirty)
    ensures AllFollow(e, clients, Marked(clients, dirty))
  {
    hide Hits;
    forall c: Id ensures Follows(e, c, StateOf(clients, c), StateOf(Marked(clients, dirty), c)) {
      if c in clients {
        assert c in dirty <==> exists k :: k in clients[c].watched && Hits(e, k);
      }
    }
  }

  function ToSet(s: seq<Id>): set<Id> { set x | x in s }

  /** Only the mark differs. */
  ghost predicate SameBut(clients: Clients, clients': Clients) {
    clients'.Keys == clients.Keys && forall c :: c in clients ==> clients'[c].(dirtyCas := false) == clients[c].(dirtyCas := false)
  }

  lemma MarkedSame(clients: Clients, dirty: set<Id>)
    ensures SameBut(clients, Marked(clients, dirty))
  {}

  lemma MarkOne(clients: Clients, dirty: set<Id>, c: Id)
    requires c in clients
    ensures c in Marked(clients, dirty)
    ensures Marked(clients, dirty + {c}) == Marked(clients, dirty)[c := Marked(clients, dirty)[c].(dirtyCas := true)]
  {}

  lemma OneMarked(clients: Clients, list: seq<Id>, i: nat)
    requires i < |list| && list[i] in clients
    ensures var m := Marked(clients, ToSet(list[..i]));
      list[i] in m && Marked(clients, ToSet(list[..i + 1])) == m[list[i] := m[list[i]].(dirtyCas := true)]
  {
    assert ToSet(list[..i + 1]) == ToSet(list[..i]) + {list[i]};
    MarkOne(clients, ToSet(list[..i]), list[i]);
    hide Marked;
  }

  /** The clients that the index lists under a key are those that watch it. */
  lemma TouchHits(clients: Clients, index: Index, k: WKey, list: seq<Id>)
    requires Agree(clients, index) && list == if k in index then index[k] else []
    ensures Hitting(Touch(k), clients, ToSet(list)) && forall i :: 0 <= i < |list| ==> list[i] in clients
  {
    forall c | c in clients ensures c in ToSet(list) <==> exists q :: q in clients[c].watched && Hits(Touch(k), q) {
      if c in ToSet(list) {
        assert k in clients[c].watched && Hits(Touch(k), k);
      }
      if q :| q in clients[c].watched && Hits(Touch(k), q) {
        assert q == k;
      }
    }
  }

  datatype Reply = Error | Ok | QueuedReply | NullMultiBulk | ExecAbort | MultiBulk(n: nat)

  /** What a command does to the keys, and to the subscriptions of the client that sent it. */
  datatype Effect = TouchKey(k: WKey) | FlushDb(dbid: int, existing: set<WKey>) | Subscribe(t: Topic) | Unsubscribe(u: Topic)

  /** What the effects are in the history. */
  function EventsOf(effects: seq<Effect>): Log {
    if effects == [] then []
    else
      var init := EventsOf(effects[..|effects| - 1]);
      match effects[|effects| - 1]
      case TouchKey(k) => init + [Touch(k)]
      case FlushDb(dbid, existing) => init + [Flush(dbid, existing)]
      case _ => init
  }

  /** What a client is subscribed to after the effects. */
  function TopicsAfter(topics: set<Topic>, effects: seq<Effect>): set<Topic> {
    if effects == [] then topics
    else
      var init := TopicsAfter(topics, effects[..|effects| - 1]);
      match effects[|effects| - 1] case Subscribe(t) => init + {t} case Unsubscribe(u) => init - {u} case _ => init
  }

  /** The effects of commands that run one after the other. */
  function AllEffects(commands: seq<Cmd>, effects: Cmd -> seq<Effect>): seq<Effect> {
    if commands == [] then [] else AllEffects(commands[..|commands| - 1], effects) + effects(commands[|commands| - 1])
  }

  /** What EXEC leaves in the history. */
  ghost function ExecEvents(log: Log, c: Id, effects: Cmd -> seq<Effect>): Log {
    if !Open(log, c) then []
    else if Stale(log, c) || Erred(log, c) then [End(c), Unwatch(c)]
    else [Unwatch(c)] + EventsOf(AllEffects(Queued(log, c), effects)) + [End(c), Unwatch(c)]
  }

  ghost function ExecTopics(log: Log, c: Id, effects: Cmd -> seq<Effect>, topics: set<Topic>): set<Topic> {
    if !Open(log, c) || Stale(log, c) || Erred(log, c) then topics else TopicsAfter(topics, AllEffects(Queued(log, c), effects))
  }

  lemma EffectsSnoc(effects: seq<Effect>, i: nat, topics: set<Topic>)
    requires i < |effects|
    ensures EventsOf(effects[..i + 1]) == EventsOf(effects[..i]) + EventsOf([effects[i]])
    ensures TopicsAfter(topics, effects[..i + 1]) == TopicsAfter(TopicsAfter(topics, effects[..i]), [effects[i]])
  {
    assert effects[..i + 1][..i] == effects[..i] && [effects[i]][..0] == [];
  }

  lemma {:induction false} EffectsConcat(a: seq<Effect>, b: seq<Effect>, topics: set<Topic>)
    ensures EventsOf(a + b) == EventsOf(a) + EventsOf(b)
    ensures TopicsAfter(topics, a + b) == TopicsAfter(TopicsAfter(topics, a), b)
    decreases |b|
  {
    if b == [] {
      assert a + b == a;
    } else {
      assert (a + b)[..|a + b| - 1] == a + b[..|b| - 1];
      EffectsConcat(a, b[..|b| - 1], topics);
    }
  }

  lemma AllEffectsSnoc(commands: seq<Cmd>, j: nat, effects: Cmd -> seq<Effect>, topics: set<Topic>)
    requires j < |commands|
    ensures EventsOf(AllEffects(commands[..j + 1], effects)) == EventsOf(AllEffects(commands[..j], effects)) + EventsOf(effects(commands[j]))
    ensures TopicsAfter(topics, AllEffects(commands[..j + 1], effects))
         == TopicsAfter(TopicsAfter(topics, AllEffects(commands[..j], effects)), effects(commands[j]))
  {
    assert commands[..j + 1][..j] == commands[..j];
    EffectsConcat(AllEffects(commands[..j], effects), effects(commands[j]), topics);
    hide EventsOf, TopicsAfter;
  }

  lemma NoEffects(effects: Cmd -> seq<Effect>, topics: set<Topic>, log: Log)
    ensures EventsOf([]) == [] && TopicsAfter(topics, []) == topics && AllEffects([], effects) == [] && log + [] == log
  {}

  /** discardTransaction is the end of the transaction and of the watching. */
  function Ended(s: Client): Client { s.(multi := false, dirtyExec := false, commands := []) }

  lemma Discarded(log: Log, clients: Clients, c: Id)
    requires AllFaithful(log, clients) && c in clients
    ensures AllFaithful(log + [End(c)] + [Unwatch(c)], clients[c := Cleared(clients[c])])
  {
    hide AllFaithful, AllFollow;
    var mid := clients[c := Ended(clients[c])];
    OneFollows(End(c), clients, c, Ended(clients[c]));
    AllFaithfulStep(log, End(c), clients, mid);
    var last := Cleared(clients[c]);
    OneFollows(Unwatch(c), mid, c, last);
    AllFaithfulStep(log + [End(c)], Unwatch(c), mid, mid[c := last]);
    assert mid[c := last] == clients[c := last];
  }

  lemma Unwatched(log: Log, clients: Clients, c: Id)
    requires AllFaithful(log, clients) && c in clients
    ensures AllFaithful(log + [Unwatch(c)], clients[c := clients[c].(watched := [], dirtyCas := false)])
  {
    hide AllFaithful, AllFollow;
    OneFollows(Unwatch(c), clients, c, clients[c].(watched := [], dirtyCas := false));
    AllFaithfulStep(log, Unwatch(c), clients, clients[c := clients[c].(watched := [], dirtyCas := false)]);
  }

  /** The client's list of watched keys may differ, and nothing else. */
  ghost predicate OnlyWatched(clients: Clients, clients': Clients, c: Id) {
    c in clients && c in clients' && clients' == clients[c := clients[c].(watched := clients'[c].watched)]
  }

  lemma OnlyWatchedMore(was: Clients, clients: Clients, clients': Clients, c: Id)
    requires OnlyWatched(was, clients, c) && OnlyWatched(clients, clients', c)
    ensures OnlyWatched(was, clients', c)
  {}

  function Watching(c: Id, keys: seq<WKey>): Log { seq(|keys|, j requires 0 <= j < |keys| => Watch(c, keys[j])) }

  lemma WatchingSnoc(c: Id, keys: seq<WKey>, j: nat)
    requires j < |keys|
    ensures Watching(c, keys[..j + 1]) == Watching(c, keys[..j]) + [Watch(c, keys[j])]
  {
    assert keys[..j + 1] == keys[..j] + [keys[j]];
  }

  class Server {
    var clients: Clients
    var index: Index
    ghost var log: Log

    ghost predicate Valid()
      reads this
    {
      Agree(clients, index) && AllFaithful(log, clients) && Orderly(log)
    }

    constructor ()
      ensures Valid() && clients == map[] && log == []
    {
      clients, index, log := map[], map[], [];
    }

    /** The state of one client changed as the event asks. */
    ghost method Happened(e: Event, was: Clients)
      requires AllFaithful(log, was) && Agree(clients, index) && AllFollow(e, was, clients)
      requires Orderly(log) && Allowed(log, e)
      modifies `log
      ensures Valid() && log == old(log) + [e]
    {
      hide *;
      AllFaithfulStep(log, e, was, clients);
      OrderlySnoc(log, e);
      log := log + [e];
      Now();
    }

    lemma Now()
      requires Agree(clients, index) && AllFaithful(log, clients) && Orderly(log)
      ensures Valid()
    {}

    method Connect(c: Id)
      requires Valid() && c !in clients
      modifies `clients
      ensures Valid() && clients == old(clients)[c := BLANK] && (Apart(old(clients)) ==> Apart(clients))
    {
      AgreeBlank(clients, index, c);
      SameStates(log, clients, clients[c := BLANK]);
      hide Agree, AllFaithful, Orderly;
      clients := clients[c := BLANK];
    }

    /** watchForKey */
    method WatchForKey(c: Id, k: WKey)
      requires Valid() && c in clients
      modifies this
      ensures Valid() && log == old(log) + [Watch(c, k)] && c in clients && OnlyWatched(old(clients), clients, c)
    {
      var was := clients;
      var watched := clients[c].watched;
      var i := 0;
      assert k !in watched[..0];
      hide Agree, AllFaithful, Distinct;
      while i < |watched|
        invariant 0 <= i <= |watched| && k !in watched[..i]
      {
        if watched[i] == k {
          AlreadyWatched(clients, c, k);
          assert clients[c := clients[c]] == clients;
          Happened(Watch(c, k), was);
          return;
        }
        i := i + 1;
      }
      assert watched[..i] == watched;
      AgreeWatch(clients, index, c, k);
      NowWatched(clients, c, k);
      var list := if k in index then index[k] else [];
      index := index[k := list + [c]];
      clients := clients[c := clients[c].(watched := watched + [k])];
      Happened(Watch(c, k), was);
    }

    lemma AlreadyWatched(clients: Clients, c: Id, k: WKey)
      requires c in clients && k in clients[c].watched
      ensures AllFollow(Watch(c, k), clients, clients[c := clients[c]])
    {
      hide AllFollow;
      OneFollows(Watch(c, k), clients, c, clients[c]);
    }

    lemma NowWatched(clients: Clients, c: Id, k: WKey)
      requires c in clients
      ensures AllFollow(Watch(c, k), clients, clients[c := clients[c].(watched := clients[c].watched + [k])])
    {
      hide AllFollow;
      OneFollows(Watch(c, k), clients, c, clients[c].(watched := clients[c].watched + [k]));
    }

    /** unwatchAllKeys: clearing the flag is up to the caller. */
    method UnwatchAllKeys(c: Id)
      requires Agree(clients, index) && c in clients
      modifies `clients, `index
      ensures Agree(clients, index) && clients == old(clients)[c := old(clients)[c].(watched := [])]
    {
      hide Agree, Distinct;
      while |clients[c].watched| > 0
        invariant Agree(clients, index) && c in clients && clients.Keys == old(clients).Keys
        invariant clients == old(clients)[c := old(clients)[c].(watched := clients[c].watched)]
        decreases |clients[c].watched|
      {
        UnwatchFirst(c);
      }
    }

    method UnwatchFirst(c: Id)
      requires Agree(clients, index) && c in clients && clients[c].watched != []
      modifies `clients, `index
      ensures Agree(clients, index)
      ensures clients == old(clients)[c := old(clients)[c].(watched := old(clients)[c].watched[1..])]
    {
      var k := clients[c].watched[0];
      AgreeUnwatch(clients, index, c, k);
      assert Without(clients[c].watched, k) == clients[c].watched[1..];
      hide Agree, Distinct;
      var list := Without(index[k], c);
      index := if |list| == 0 then index - {k} else index[k := list];
      clients := clients[c := clients[c].(watched := clients[c].watched[1..])];
    }

    /** touchWatchedKey */
    method TouchWatchedKey(k: WKey)
      requires Valid()
      modifies `clients, `log
      ensures Valid() && log == old(log) + [Touch(k)] && SameBut(old(clients), clients)
    {
      var was := clients;
      var list := if k in index then index[k] else [];
      TouchHits(clients, index, k, list);
      hide Agree, AllFaithful, Orderly;
      var i := 0;
      assert Marked(was, ToSet(list[..0])) == was;
      while i < |list|
        invariant 0 <= i <= |list| && clients == Marked(was, ToSet(list[..i])) && clients.Keys == was.Keys && log == old(log)
      {
        OneMarked(was, list, i);
        clients := clients[list[i] := clients[list[i]].(dirtyCas := true)];
        i := i + 1;
      }
      assert list[..i] == list;
      MarkedKeeps(was, index, ToSet(list));
      MarkedFollow(Touch(k), was, ToSet(list));
      MarkedSame(was, ToSet(list));
      Happened(Touch(k), was);
    }

    /** touchWatchedKeysOnFlush; `existing` are the keys that the DBs have. */
    method TouchWatchedKeysOnFlush(dbid: int, existing: set<WKey>)
      requires Valid()
      modifies `clients, `log
      ensures Valid() && log == old(log) + [Flush(dbid, existing)] && SameBut(old(clients), clients)
    {
      var was := clients;
      var left, dirty: set<Id> := clients.Keys, {};
      assert Marked(was, {}) == was;
      hide Agree, AllFaithful, Marked;
      while left != {}
        invariant left <= was.Keys && clients == Marked(was, dirty) && dirty <= was.Keys - left && log == old(log)
        invariant forall c :: c in was && c !in left ==> (c in dirty <==> exists k :: k in was[c].watched && Hits(Flush(dbid, existing), k))
        decreases left
      {
        var c :| c in left;
        var found := AnyHit(was[c].watched, dbid, existing);
        if found {
          MarkOne(was, dirty, c);
          clients := clients[c := clients[c].(dirtyCas := true)];
          dirty := dirty + {c};
        }
        left := left - {c};
      }
      MarkedKeeps(was, index, dirty);
      MarkedFollow(Flush(dbid, existing), was, dirty);
      MarkedSame(was, dirty);
      Happened(Flush(dbid, existing), was);
    }

    /** The inner loop: does the flush remove a key that the client watches? */
    static method AnyHit(watched: seq<WKey>, dbid: int, existing: set<WKey>) returns (found: bool)
      ensures found <==> exists k :: k in watched && Hits(Flush(dbid, existing), k)
    {
      found := false;
      var i := 0;
      while i < |watched|
        invariant 0 <= i <= |watched|
        invariant found <==> exists j :: 0 <= j < i && Hits(Flush(dbid, existing), watched[j])
      {
        var wk := watched[i];
        if dbid == -1 || wk.db == dbid {
          if wk in existing { found := true; }
        }
        assert Hits(Flush(dbid, existing), wk) <==> (dbid == -1 || wk.db == dbid) && wk in existing;
        i := i + 1;
      }
    }

    /** A private event that changes no watch list. */
    method SetState(c: Id, s: Client, ghost e: Event)
      requires Valid() && c in clients && Private(e) && e.c == c && s.watched == clients[c].watched && Follows(e, c, clients[c], s)
      requires Allowed(log, e)
      modifies `clients, `log
      ensures Valid() && clients == old(clients)[c := s] && log == old(log) + [e]
    {
      var was := clients;
      OneFollows(e, clients, c, s);
      AgreeFlags(clients, clients[c := s], index);
      hide Agree, AllFaithful, AllFollow, Follows;
      clients := clients[c := s];
      Happened(e, was);
    }

    /** queueMultiCommand, for a command that processCommand accepts inside MULTI. */
    method QueueMultiCommand(c: Id, cmd: Cmd)
      requires Valid() && c in clients && clients[c].multi
      modifies `clients, `log
      ensures Valid() && log == old(log) + [Queue(c, cmd)]
      ensures clients == old(clients)[c := old(clients)[c].(commands := old(clients)[c].commands + [cmd])]
    {
      FlagsMean(c);
      SetState(c, clients[c].(commands := clients[c].commands + [cmd]), Queue(c, cmd));
    }

    /** flagTransaction: an open transaction will not be executed. */
    method FlagTransaction(c: Id)
      requires Agree(clients, index) && c in clients
      modifies `clients
      ensures Agree(clients, index)
      ensures clients == old(clients)[c := old(clients)[c].(dirtyExec := old(clients)[c].dirtyExec || old(clients)[c].multi)]
    {
      AgreeFlags(clients, clients[c := clients[c].(dirtyExec := true)], index);
      hide Agree;
      if clients[c].multi {
        clients := clients[c := clients[c].(dirtyExec := true)];
      } else {
        assert clients[c := clients[c]] == clients;
      }
    }

    /** An error reply to a command, with or without flagTransaction. */
    method RefuseCommand(c: Id, ghost cmd: Cmd, why: Refusal)
      requires Valid() && c in clients && (why == SubscribedOnly ==> !clients[c].multi)
      modifies `clients, `log
      ensures Valid() && log == old(log) + [Refuse(c, cmd, why)]
      ensures clients == old(clients)[c := old(clients)[c].(dirtyExec := old(clients)[c].dirtyExec || (Flags(why) && old(clients)[c].multi))]
    {
      var was := clients;
      RefusalFollows(clients, c, cmd, why);
      FlagsMean(c);
      hide Agree, AllFaithful, AllFollow, Flags, Orderly;
      if Flags(why) {
        FlagTransaction(c);
      } else {
        assert clients[c := clients[c].(dirtyExec := clients[c].dirtyExec)] == clients;
      }
      Happened(Refuse(c, cmd, why), was);
    }

    lemma RefusalFollows(clients: Clients, c: Id, cmd: Cmd, why: Refusal)
      requires c in clients
      ensures AllFollow(Refuse(c, cmd, why), clients,
                        clients[c := clients[c].(dirtyExec := clients[c].dirtyExec || (Flags(why) && clients[c].multi))])
    {
      hide AllFollow, Flags;
      OneFollows(Refuse(c, cmd, why), clients, c,
                 clients[c].(dirtyExec := clients[c].dirtyExec || (Flags(why) && clients[c].multi)));
    }

    method MultiCommand(c: Id, ghost cmd: Cmd) returns (reply: Reply)
      requires Valid() && c in clients
      modifies `clients, `log
      ensures Valid() && (reply == Error <==> old(clients)[c].multi) && (reply == Error || reply == Ok)
      ensures clients == old(clients)[c := old(clients)[c].(multi := true)]
      ensures log == old(log) + [if reply == Ok then Begin(c) else Refuse(c, cmd, NestedMulti)]
    {
      FlagsMean(c);
      if clients[c].multi {
        RefuseCommand(c, cmd, NestedMulti);
        return Error;
      }
      SetState(c, clients[c].(multi := true), Begin(c));
      reply := Ok;
    }

    method DiscardTransaction(c: Id)
      requires Valid() && c in clients
      modifies this
      ensures Valid() && log == old(log) + [End(c)] + [Unwatch(c)] && clients == old(clients)[c := Cleared(old(clients)[c])]
    {
      var was := clients;
      Discarded(log, clients, c);
      AgreeFlags(clients, clients[c := clients[c].(multi := false, dirtyCas := false, dirtyExec := false, commands := [])], index);
      OrderlySnoc(log, End(c));
      OrderlySnoc(log + [End(c)], Unwatch(c));
      hide Agree, AllFaithful, Orderly;
      clients := clients[c := clients[c].(multi := false, dirtyCas := false, dirtyExec := false, commands := [])];
      UnwatchAllKeys(c);
      assert clients == was[c := Cleared(was[c])];
      log := log + [End(c)] + [Unwatch(c)];
    }

    method DiscardCommand(c: Id) returns (reply: Reply)
      requires Valid() && c in clients
      modifies this
      ensures Valid() && reply == if old(clients)[c].multi then Ok else Error
      ensures clients == if reply == Ok then old(clients)[c := Cleared(old(clients)[c])] else old(clients)
      ensures log == old(log) + if reply == Ok then [End(c), Unwatch(c)] else []
    {
      if !clients[c].multi {
        assert log + [] == log;
        return Error;
      }
      Join(log, [End(c)], [Unwatch(c)]);
      assert [End(c)] + [Unwatch(c)] == [End(c), Unwatch(c)];
      DiscardTransaction(c);
      reply := Ok;
    }

    method UnwatchCommand(c: Id) returns (reply: Reply)
      requires Valid() && c in clients
      modifies this
      ensures Valid() && reply == Ok && log == old(log) + [Unwatch(c)]
      ensures clients == old(clients)[c := old(clients)[c].(watched := [], dirtyCas := false)]
    {
      ghost var was := clients;
      Unwatched(log, clients, c);
      OrderlySnoc(log, Unwatch(c));
      assert Agree(clients, index) && Orderly(log + [Unwatch(c)]);
      assert AllFaithful(log + [Unwatch(c)], was[c := was[c].(watched := [], dirtyCas := false)]);
      hide *;
      UnwatchAllKeys(c);
      ClearFlag(c);
      assert clients == was[c := was[c].(watched := [], dirtyCas := false)];
      log := log + [Unwatch(c)];
      Now();
      reply := Ok;
    }

    method ClearFlag(c: Id)
      requires Agree(clients, index) && c in clients
      modifies `clients
      ensures Agree(clients, index) && clients == old(clients)[c := old(clients)[c].(dirtyCas := false)]
    {
      AgreeFlags(clients, clients[c := clients[c].(dirtyCas := false)], index);
      hide Agree;
      clients := clients[c := clients[c].(dirtyCas := false)];
    }

    method WatchCommand(c: Id, keys: seq<WKey>, ghost cmd: Cmd) returns (reply: Reply)
      requires Valid() && c in clients
      modifies this
      ensures Valid() && reply == if old(clients)[c].multi then Error else Ok
      ensures log == old(log) + if reply == Ok then Watching(c, keys) else [Refuse(c, cmd, WatchInMulti)]
      ensures OnlyWatched(old(clients), clients, c)
    {
      if clients[c].multi {
        RefuseCommand(c, cmd, WatchInMulti);
        assert clients == old(clients);
        return Error;
      }
      WatchAll(c, keys);
      reply := Ok;
    }

    /** The loop over the keys of WATCH. */
    method WatchAll(c: Id, keys: seq<WKey>)
      requires Valid() && c in clients
      modifies this
      ensures Valid() && log == old(log) + Watching(c, keys) && OnlyWatched(old(clients), clients, c)
    {
      var j := 0;
      ghost var was, log0 := clients, log;
      assert keys[..0] == [] && clients == clients[c := clients[c].(watched := clients[c].watched)];
      assert log == log0 + Watching(c, []);
      assert OnlyWatched(was, clients, c);
      hide *;
      while j < |keys|
        invariant 0 <= j <= |keys| && Valid() && c in clients && log == log0 + Watching(c, keys[..j])
        invariant OnlyWatched(was, clients, c)
      {
        ghost var before := clients;
        ghost var events := Watching(c, keys[..j]);
        WatchForKey(c, keys[j]);
        OnlyWatchedMore(was, before, clients, c);
        WatchingSnoc(c, keys, j);
        Join(log0, events, [Watch(c, keys[j])]);
        j := j + 1;
      }
      assert keys[..j] == keys;
    }

    lemma Join(a: Log, b: Log, c: Log)
      ensures (a + b) + c == a + (b + c)
    {}

    /** pubsubSubscribeChannel and its three companions, on the client's own lists. */
    method SetTopics(c: Id, topics: set<Topic>)
      requires Valid() && c in clients
      modifies `clients
      ensures Valid() && clients == old(clients)[c := old(clients)[c].(topics := topics)]
    {
      SameStates(log, clients, clients[c := clients[c].(topics := topics)]);
      AgreeFlags(clients, clients[c := clients[c].(topics := topics)], index);
      hide Agree, AllFaithful, Orderly;
      clients := clients[c := clients[c].(topics := topics)];
    }

    method RunEffect(c: Id, e: Effect)
      requires Valid() && c in clients
      modifies `clients, `log
      ensures Valid() && Others(old(clients), clients, c) && c in clients && clients[c].multi == old(clients)[c].multi
      ensures log == old(log) + EventsOf([e]) && clients[c].topics == TopicsAfter(old(clients)[c].topics, [e])
    {
      assert [e][..0] == [] && log + [] == log;
      hide Agree, AllFaithful, Orderly;
      match e {
        case TouchKey(k) => TouchWatchedKey(k);
        case FlushDb(dbid, existing) => TouchWatchedKeysOnFlush(dbid, existing);
        case Subscribe(t) => SetTopics(c, clients[c].topics + {t});
        case Unsubscribe(u) => SetTopics(c, clients[c].topics - {u});
      }
      assert clients[c].(dirtyCas := false).multi == old(clients)[c].(dirtyCas := false).multi;
      assert clients[c].(dirtyCas := false).topics == clients[c].topics;
    }

    /** The effects of one command of the client: the keys it touches and the DBs it flushes
        enter the history, in order, and nothing else. */
    method RunEffects(c: Id, effects: seq<Effect>)
      requires Valid() && c in clients
      modifies `clients, `log
      ensures Valid() && Others(old(clients), clients, c) && c in clients && clients[c].multi == old(clients)[c].multi
      ensures log == old(log) + EventsOf(effects) && clients[c].topics == TopicsAfter(old(clients)[c].topics, effects)
    {
      var i := 0;
      ghost var was, log0 := clients, log;
      Unchanged(clients, c);
      NoEffects(_ => [], clients[c].topics, log);
      assert effects[..0] == [];
      hide *;
      while i < |effects|
        invariant 0 <= i <= |effects| && Valid() && Others(was, clients, c) && c in clients && clients[c].multi == was[c].multi
        invariant log == log0 + EventsOf(effects[..i]) && clients[c].topics == TopicsAfter(was[c].topics, effects[..i])
      {
        ghost var before := clients;
        EffectsSnoc(effects, i, was[c].topics);
        Join(log0, EventsOf(effects[..i]), EventsOf([effects[i]]));
        RunEffect(c, effects[i]);
        OthersTwice(was, before, clients, c);
        i := i + 1;
      }
      assert effects[..i] == effects;
    }

    /** execCommand. `effects` says what each command does to the keys; `ran` are the
        commands that were called. */
    method ExecCommand(c: Id, effects: Cmd -> seq<Effect>) returns (reply: Reply, ran: seq<Cmd>)
      requires Valid() && c in clients
      modifies this
      ensures Valid() && Others(old(clients), clients, c) && !clients[c].multi
      ensures reply.MultiBulk? <==> Open(old(log), c) && !Stale(old(log), c) && !Erred(old(log), c)
      ensures ran == if reply.MultiBulk? then Queued(old(log), c) else []
      ensures reply.MultiBulk? ==> reply.n == |ran|
      ensures reply == NullMultiBulk <==> Open(old(log), c) && Stale(old(log), c) && !Erred(old(log), c)
      ensures reply == ExecAbort <==> Open(old(log), c) && Erred(old(log), c)
      ensures reply == Error <==> !Open(old(log), c)
      ensures if reply.Error? then clients == old(clients) else clients[c] == Cleared(clients[c])
      ensures Open(old(log), c) ==>
        (reply.MultiBulk? && ran == Sent(old(log), c) <==> !Stale(old(log), c) && !Refused(old(log), c))
      ensures reply.MultiBulk? && ran != Sent(old(log), c) <==>
        Open(old(log), c) && !Stale(old(log), c) && Refused(old(log), c) && !Erred(old(log), c)
      ensures reply.MultiBulk? && ran != Sent(old(log), c) ==> Excused(old(log), c)
      ensures log == old(log) + ExecEvents(old(log), c, effects)
      ensures clients[c].topics == ExecTopics(old(log), c, effects, old(clients)[c].topics)
    {
      ran := [];
      FlagsMean(c);
      if Refused(log, c) && !Erred(log, c) { FourReasons(log, c); }
      ErredIsRefused(log, c);
      if Open(log, c) { WholeQueue(log, c); }
      hide Agree, AllFaithful, Orderly, Open, Stale, Erred, Refused, Excused, Queued, Sent, Others, EventsOf, TopicsAfter, AllEffects;
      if !clients[c].multi {
        Unchanged(clients, c);
        assert log + [] == log;
        return Error, [];
      }
      if clients[c].dirtyCas || clients[c].dirtyExec {
        reply := if clients[c].dirtyExec then ExecAbort else NullMultiBulk;
        EndTransaction(c);
        return;
      }
      reply := MultiBulk(|clients[c].commands|);
      ran := Execute(c, effects);
    }

    lemma Unchanged(clients: Clients, c: Id)
      ensures Others(clients, clients, c)
    {}

    lemma OneChanged(clients: Clients, c: Id, s: Client)
      requires c in clients
      ensures Others(clients, clients[c := s], c)
    {}

    lemma OthersTwice(a: Clients, b: Clients, d: Clients, c: Id)
      requires Others(a, b, c) && Others(b, d, c)
      ensures Others(a, d, c)
    {}

    /** discardTransaction, as its callers see it. */
    method EndTransaction(c: Id)
      requires Valid() && c in clients
      modifies this
      ensures Valid() && Others(old(clients), clients, c) && c in clients && clients[c] == Cleared(old(clients)[c])
      ensures clients[c] == Cleared(clients[c]) && clients[c].topics == old(clients)[c].topics && log == old(log) + [End(c), Unwatch(c)]
    {
      hide Agree, AllFaithful, Orderly, Others;
      OneChanged(clients, c, Cleared(clients[c]));
      Join(log, [End(c)], [Unwatch(c)]);
      assert [End(c)] + [Unwatch(c)] == [End(c), Unwatch(c)];
      DiscardTransaction(c);
    }

    /** A transaction that is not given up. */
    method Execute(c: Id, effects: Cmd -> seq<Effect>) returns (ran: seq<Cmd>)
      requires Valid() && c in clients && !clients[c].dirtyCas
      modifies this
      ensures Valid() && Others(old(clients), clients, c) && c in clients && clients[c] == Cleared(clients[c])
      ensures ran == old(clients)[c].commands
      ensures log == old(log) + ([Unwatch(c)] + EventsOf(AllEffects(ran, effects)) + [End(c), Unwatch(c)])
      ensures clients[c].topics == TopicsAfter(old(clients)[c].topics, AllEffects(ran, effects))
    {
      var commands := clients[c].commands;
      ghost var was, log0 := clients, log;
      hide *;
      StartExec(c);
      ghost var started := clients;
      ran := RunQueue(c, commands, effects);
      ghost var run := clients;
      EndTransaction(c);
      OthersTwice(was, started, run, c);
      OthersTwice(was, run, clients, c);
      Join(log0, [Unwatch(c)], EventsOf(AllEffects(ran, effects)));
      Join(log0, [Unwatch(c)] + EventsOf(AllEffects(ran, effects)), [End(c), Unwatch(c)]);
    }

    /** The loop over the queue. */
    method RunQueue(c: Id, commands: seq<Cmd>, effects: Cmd -> seq<Effect>) returns (ran: seq<Cmd>)
      requires Valid() && c in clients
      modifies this
      ensures Valid() && Others(old(clients), clients, c) && c in clients && ran == commands
      ensures log == old(log) + EventsOf(AllEffects(commands, effects))
      ensures clients[c].topics == TopicsAfter(old(clients)[c].topics, AllEffects(commands, effects))
    {
      ghost var was, log0 := clients, log;
      Unchanged(clients, c);
      NoEffects(effects, clients[c].topics, log);
      hide *;
      ran := [];
      var j := 0;
      assert commands[..0] == [];
      while j < |commands|
        invariant 0 <= j <= |commands| && ran == commands[..j] && Valid() && Others(was, clients, c) && c in clients
        invariant log == log0 + EventsOf(AllEffects(commands[..j], effects))
        invariant clients[c].topics == TopicsAfter(was[c].topics, AllEffects(commands[..j], effects))
      {
        ghost var before := clients;
        AllEffectsSnoc(commands, j, effects, was[c].topics);
        Join(log0, EventsOf(AllEffects(commands[..j], effects)), EventsOf(effects(commands[j])));
        ran := ran + [commands[j]];
        RunEffects(c, effects(commands[j]));
        OthersTwice(was, before, clients, c);
        assert commands[..j + 1] == commands[..j] + [commands[j]];
        j := j + 1;
      }
      assert commands[..j] == commands;
    }

    /** A client's flags and queue, in terms of what happened. */
    lemma FlagsMean(c: Id)
      requires Valid() && c in clients
      ensures (clients[c].multi <==> Open(log, c)) && (clients[c].dirtyCas <==> Stale(log, c))
      ensures (clients[c].dirtyExec <==> Erred(log, c)) && clients[c].commands == Queued(log, c)
    {
      assert Faithful(log, c, StateOf(clients, c));
    }

    method StartExec(c: Id)
      requires Valid() && c in clients && !clients[c].dirtyCas
      modifies this
      ensures Valid() && Others(old(clients), clients, c) && c in clients
      ensures log == old(log) + [Unwatch(c)] && clients[c].topics == old(clients)[c].topics && clients[c].commands == old(clients)[c].commands
    {
      var was := clients;
      Unwatched(log, clients, c);
      OrderlySnoc(log, Unwatch(c));
      hide Agree, AllFaithful, Orderly;
      UnwatchAllKeys(c);
      assert clients == was[c := was[c].(watched := [], dirtyCas := false)];
      log := log + [Unwatch(c)];
    }

    /** freeClient */
    method FreeClient(c: Id)
      requires Valid() && c in clients
      modifies this
      ensures log == old(log) + [End(c)] + [Unwatch(c)]
      ensures Valid() && clients == old(clients) - {c} && (Apart(old(clients)) ==> Apart(clients))
    {
      var was := clients;
      DiscardTransaction(c);
      AgreeGone(clients, index, c);
      SameStates(log, clients, clients - {c});
      hide Agree, AllFaithful, Orderly;
      clients := clients - {c};
      assert clients == was - {c};
    }
  }
}
