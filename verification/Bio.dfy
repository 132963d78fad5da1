/** bio.c: the queue of one job type, shared by the threads that create jobs or ask how many
    are pending and the worker thread. A step is what runs between two points where another
    thread may run: the mutex and the condition variable are part of the state. */
module Bio {
  datatype Kind = CloseFile | AofFsync

  datatype Job = Job(time: int, arg1: int, arg2: int, arg3: int)

  /** A list node; the id is its address. */
  datatype Node = Node(id: nat, job: Job)

  datatype Effect = Closed(fd: int) | Fsynced(fd: int)

  function EffectOf(kind: Kind, job: Job): Effect {
    match kind case CloseFile => Closed(job.arg1) case AofFsync => Fsynced(job.arg1)
  }

  function EffectsOf(kind: Kind, nodes: seq<Node>): (es: seq<Effect>)
    ensures |es| == |nodes|
  {
    seq(|nodes|, i requires 0 <= i < |nodes| => EffectOf(kind, nodes[i].job))
  }

  datatype Owner = Free | ByWorker | ByClient(c: nat)

  /** Where the worker is: it waits for the mutex when Blocked, for the signal when Waiting. */
  datatype Worker =
    | Blocked | Top | Waiting | Taken(ln: Node) | Running(ln: Node) | Processed(ln: Node) | Relocked(ln: Node) | Deleted
  {
    predicate HasLock() { Top? || Taken? || Relocked? || Deleted? }
    predicate HasNode() { Taken? || Running? || Processed? || Relocked? }
    predicate HasProcessed() { Processed? || Relocked? }
  }

  /** Where a thread is in bioCreateBackgroundJob (the first four) or bioPendingJobsOfType. */
  datatype Client = Locked(job: Job) | Appended | Counted | Signalled | Asking | Answered(val: nat)

  /** listDelNode: the node goes, wherever it is. */
  function Without(jobs: seq<Node>, ln: Node): seq<Node> {
    if jobs == [] then [] else if jobs[0] == ln then jobs[1..] else [jobs[0]] + Without(jobs[1..], ln)
  }

  // ---- the invariant, part by part

  /** The mutex: its holder is in a critical section, and nobody else is. */
  ghost predicate Exclusive(lock: Owner, worker: Worker, clients: map<nat, Client>) {
    && (lock.ByWorker? <==> worker.HasLock())
    && (forall c <- clients :: lock == ByClient(c))
    && (lock.ByClient? ==> lock.c in clients)
  }

  ghost predicate At(lock: Owner, clients: map<nat, Client>, pc: Client) {
    lock.ByClient? && lock.c in clients && clients[lock.c] == pc
  }

  /** bio_pending is the length of the list, except between a change of one and of the other. */
  ghost predicate Counts(lock: Owner, jobs: seq<Node>, pending: int, worker: Worker, clients: map<nat, Client>) {
    pending == |jobs| - (if At(lock, clients, Appended) then 1 else 0) + (if worker.Deleted? then 1 else 0)
  }

  /** The list holds the newest of the nodes ever added, and the worker's node is its first. */
  ghost predicate Newest(jobs: seq<Node>, worker: Worker, added: seq<Node>) {
    && |jobs| <= |added| && jobs == added[|added| - |jobs|..]
    && (forall i :: 0 <= i < |added| ==> added[i].id == i)
    && (worker.HasNode() ==> jobs != [] && jobs[0] == worker.ln)
  }

  /** How many jobs have been processed. */
  ghost function Finished(jobs: seq<Node>, worker: Worker, added: seq<Node>): int {
    |added| - |jobs| + if worker.HasProcessed() then 1 else 0
  }

  /** Jobs are processed once each, in the order they were added. */
  ghost predicate InOrder(kind: Kind, jobs: seq<Node>, worker: Worker, added: seq<Node>, effects: seq<Effect>) {
    && 0 <= Finished(jobs, worker, added) <= |added|
    && effects == EffectsOf(kind, added[..Finished(jobs, worker, added)])
  }

  /** No wake-up is lost: the worker sleeps beside a job only while its signal is to come. */
  ghost predicate Awake(lock: Owner, jobs: seq<Node>, worker: Worker, clients: map<nat, Client>) {
    worker.Waiting? && jobs != [] ==> At(lock, clients, Appended) || At(lock, clients, Counted)
  }

  /** A count read under the lock is the current one. */
  ghost predicate Answers(pending: int, clients: map<nat, Client>) {
    forall c <- clients :: clients[c].Answered? ==> clients[c].val == pending
  }

  lemma AppendKeeps(kind: Kind, jobs: seq<Node>, worker: Worker, added: seq<Node>, effects: seq<Effect>, node: Node)
    requires Newest(jobs, worker, added) && InOrder(kind, jobs, worker, added, effects) && node.id == |added|
    ensures Newest(jobs + [node], worker, added + [node]) && InOrder(kind, jobs + [node], worker, added + [node], effects)
  {
    var n := Finished(jobs, worker, added);
    assert (added + [node])[..n] == added[..n];
    hide EffectsOf;
  }

  /** The worker's node is the oldest one whose job has not been executed. */
  lemma ProcessKeeps(kind: Kind, jobs: seq<Node>, ln: Node, added: seq<Node>, effects: seq<Effect>)
    requires Newest(jobs, Running(ln), added) && InOrder(kind, jobs, Running(ln), added, effects)
    ensures |effects| < |added| && added[|effects|] == ln
    ensures InOrder(kind, jobs, Processed(ln), added, effects + [EffectOf(kind, ln.job)])
  {
    var n := |added| - |jobs|;
    assert added[..n + 1] == added[..n] + [ln];
    hide EffectOf;
  }

  /** Bounds the steps the worker takes, alone, before it waits. */
  ghost function Rank(jobs: seq<Node>, worker: Worker): nat {
    8 * |jobs| + match worker
      case Blocked => 7 case Deleted => 7 case Top => 6 case Taken(_) => 5
      case Running(_) => 4 case Processed(_) => 3 case Relocked(_) => 2 case Waiting => 0
  }

  datatype Event = Create(c: nat, job: Job) | Asks(c: nat) | ClientRuns | WorkerRuns | Spurious

  // ---- what each step does

  datatype State = State(lock: Owner, jobs: seq<Node>, pending: int, worker: Worker, clients: map<nat, Client>,
                         effects: seq<Effect>, nextId: nat)

  /** The thread that holds the mutex outside the worker goes on. */
  ghost function ClientNext(s: State): State {
    if !(s.lock.ByClient? && s.lock.c in s.clients) then s
    else
      var c := s.lock.c;
      match s.clients[c]
      case Locked(job) => s.(jobs := s.jobs + [Node(s.nextId, job)], nextId := s.nextId + 1, clients := map[c := Appended])
      case Appended => s.(pending := s.pending + 1, clients := map[c := Counted])
      case Counted => s.(worker := if s.worker.Waiting? then Blocked else s.worker, clients := map[c := Signalled])
      case Asking => s.(clients := map[c := Answered(if s.pending < 0 then 0 else s.pending)])
      case _ => s.(lock := Free, clients := map[])
  }

  ghost function WorkerNext(kind: Kind, s: State): State {
    match s.worker
    case Blocked => if s.lock.Free? then s.(lock := ByWorker, worker := Top) else s
    case Top => if s.jobs == [] then s.(worker := Waiting, lock := Free) else s.(worker := Taken(s.jobs[0]))
    case Waiting => s
    case Taken(ln) => s.(worker := Running(ln), lock := Free)
    case Running(ln) => s.(worker := Processed(ln), effects := s.effects + [EffectOf(kind, ln.job)])
    case Processed(ln) => if s.lock.Free? then s.(lock := ByWorker, worker := Relocked(ln)) else s
    case Relocked(ln) => s.(worker := Deleted, jobs := Without(s.jobs, ln))
    case Deleted => s.(worker := Top, pending := s.pending - 1)
  }

  /** An event, skipped if its thread cannot run. */
  ghost function Next(kind: Kind, s: State, e: Event): State {
    match e
    case Create(c, job) => if s.lock.Free? then s.(lock := ByClient(c), clients := map[c := Locked(job)]) else s
    case Asks(c) => if s.lock.Free? then s.(lock := ByClient(c), clients := map[c := Asking]) else s
    case ClientRuns => ClientNext(s)
    case WorkerRuns => WorkerNext(kind, s)
    case Spurious => if s.worker.Waiting? then s.(worker := Blocked) else s
  }

  ghost function After(kind: Kind, s: State, schedule: seq<Event>): State {
    if schedule == [] then s else Next(kind, After(kind, s, schedule[..|schedule| - 1]), schedule[|schedule| - 1])
  }

  lemma AfterSnoc(kind: Kind, s: State, schedule: seq<Event>, i: nat)
    requires i < |schedule|
    ensures After(kind, s, schedule[..i + 1]) == Next(kind, After(kind, s, schedule[..i]), schedule[i])
  {
    assert schedule[..i + 1][..i] == schedule[..i];
    hide Next;
  }

  class Queue {
    const kind: Kind
    var lock: Owner
    var jobs: seq<Node>
    var pending: int
    var worker: Worker
    var clients: map<nat, Client>
    ghost var added: seq<Node>
    var effects: seq<Effect>
    var nextId: nat

    ghost predicate Valid()
      reads this
    {
      && Exclusive(lock, worker, clients)
      && Counts(lock, jobs, pending, worker, clients)
      && Newest(jobs, worker, added) && nextId == |added|
      && InOrder(kind, jobs, worker, added, effects)
      && Awake(lock, jobs, worker, clients)
      && Answers(pending, clients)
    }

    ghost function Now(): State
      reads this
    {
      State(lock, jobs, pending, worker, clients, effects, nextId)
    }

    /** Every job created so far is complete. */
    ghost predicate Quiet()
      reads this
    {
      effects == EffectsOf(kind, added)
    }

    constructor (kind: Kind)
      ensures Valid() && this.kind == kind && added == [] && effects == []
      ensures Now() == State(Free, [], 0, Blocked, map[], [], 0)
    {
      this.kind := kind;
      lock, jobs, pending, worker, clients, effects, nextId := Free, [], 0, Blocked, map[], [], 0;
      added := [];
    }

    // ---- bioCreateBackgroundJob

    method BeginCreate(c: nat, job: Job)
      requires Valid() && lock.Free?
      modifies this
      ensures Valid() && added == old(added) && effects == old(effects)
      ensures Now() == Next(kind, old(Now()), Create(c, job))
      ensures lock == ByClient(c) && clients == map[c := Locked(job)]
    {
      lock, clients := ByClient(c), map[c := Locked(job)];
    }

    method Append()
      requires Valid() && lock.ByClient? && clients[lock.c].Locked?
      modifies this
      ensures Valid() && effects == old(effects)
      ensures Now() == ClientNext(old(Now()))
      ensures added == old(added) + [Node(|old(added)|, old(clients[lock.c].job))]
    {
      hide EffectsOf;
      ghost var was := added;
      var node := Node(nextId, clients[lock.c].job);
      AppendKeeps(kind, jobs, worker, added, effects, node);
      jobs, nextId, clients := jobs + [node], nextId + 1, map[lock.c := Appended];
      added := added + [node];
    }

    method Count()
      requires Valid() && lock.ByClient? && clients[lock.c].Appended?
      modifies this
      ensures Valid() && added == old(added) && effects == old(effects)
      ensures Now() == ClientNext(old(Now()))
    {
      hide Newest, InOrder;
      pending, clients := pending + 1, map[lock.c := Counted];
    }

    /** pthread_cond_signal wakes the worker if it waits. */
    method Signal()
      requires Valid() && lock.ByClient? && clients[lock.c].Counted?
      modifies this
      ensures Valid() && added == old(added) && effects == old(effects) && !worker.Waiting?
      ensures Now() == ClientNext(old(Now()))
    {
      hide EffectsOf;
      if worker.Waiting? { worker := Blocked; }
      clients := map[lock.c := Signalled];
    }

    // ---- bioPendingJobsOfType

    method BeginAsk(c: nat)
      requires Valid() && lock.Free?
      modifies this
      ensures Valid() && added == old(added) && effects == old(effects)
      ensures Now() == Next(kind, old(Now()), Asks(c))
    {
      hide Newest, InOrder;
      lock, clients := ByClient(c), map[c := Asking];
    }

    /** The value the caller will return: none pending means that every job created before is
        complete, and otherwise at most the last one counted has been processed already. */
    method Ask() returns (val: nat)
      requires Valid() && lock.ByClient? && clients[lock.c].Asking?
      modifies this
      ensures Valid() && added == old(added) && effects == old(effects)
      ensures Now() == ClientNext(old(Now()))
      ensures val == |jobs| && (val == 0 ==> Quiet())
      ensures |added| - |effects| <= val <= |added| - |effects| + 1
    {
      assert added[..|added|] == added;
      hide EffectsOf;
      val := pending;
      clients := map[lock.c := Answered(val)];
    }

    method Unlock()
      requires Valid() && lock.ByClient? && (clients[lock.c].Signalled? || clients[lock.c].Answered?)
      modifies this
      ensures Valid() && added == old(added) && effects == old(effects) && lock.Free?
      ensures Now() == ClientNext(old(Now()))
    {
      hide Newest, InOrder;
      lock, clients := Free, map[];
    }

    // ---- bioProcessBackgroundJobs

    /** The mutex is taken: at the start, when leaving the wait, or after a job. */
    method Lock()
      requires Valid() && lock.Free? && (worker.Blocked? || worker.Processed?)
      modifies this
      ensures Valid() && added == old(added) && effects == old(effects) && jobs == old(jobs)
      ensures Now() == WorkerNext(kind, old(Now()))
      ensures worker == if old(worker).Blocked? then Top else Relocked(old(worker).ln)
      ensures lock.ByWorker?
    {
      hide EffectsOf;
      lock, worker := ByWorker, if worker.Blocked? then Top else Relocked(worker.ln);
    }

    /** The top of the loop: wait, which gives the mutex back, or take the first node. */
    method TakeOrWait()
      requires Valid() && worker.Top?
      modifies this
      ensures Valid() && added == old(added) && effects == old(effects) && jobs == old(jobs)
      ensures Now() == WorkerNext(kind, old(Now()))
      ensures if jobs == [] then worker.Waiting? && lock.Free? else worker == Taken(jobs[0]) && lock.ByWorker?
    {
      hide EffectsOf;
      if |jobs| == 0 {
        worker, lock := Waiting, Free;
      } else {
        worker := Taken(jobs[0]);
      }
    }

    /** pthread_cond_wait may also return without a signal. */
    method WakeSpuriously()
      requires Valid() && worker.Waiting?
      modifies this
      ensures Valid() && added == old(added) && effects == old(effects)
      ensures Now() == Next(kind, old(Now()), Spurious)
    {
      hide EffectsOf;
      worker := Blocked;
    }

    method Release()
      requires Valid() && worker.Taken?
      modifies this
      ensures Valid() && added == old(added) && effects == old(effects) && jobs == old(jobs)
      ensures Now() == WorkerNext(kind, old(Now()))
      ensures worker == Running(old(worker).ln) && lock.Free?
    {
      hide EffectsOf;
      worker, lock := Running(worker.ln), Free;
    }

    /** The job is executed outside the mutex: it is the oldest one not executed yet. */
    method Process()
      requires Valid() && worker.Running?
      modifies this
      ensures Valid() && added == old(added) && jobs == old(jobs)
      ensures Now() == WorkerNext(kind, old(Now()))
      ensures |old(effects)| < |added|
      ensures effects == old(effects) + [EffectOf(kind, added[|old(effects)|].job)]
      ensures worker == Processed(old(worker).ln) && lock == old(lock)
    {
      ProcessKeeps(kind, jobs, worker.ln, added, effects);
      hide EffectsOf, EffectOf;
      effects := effects + [EffectOf(kind, worker.ln.job)];
      worker := Processed(worker.ln);
    }

    /** listDelNode removes the node just processed, still the first one. */
    method Delete()
      requires Valid() && worker.Relocked?
      modifies this
      ensures Valid() && added == old(added) && effects == old(effects)
      ensures Now() == WorkerNext(kind, old(Now()))
      ensures jobs == old(jobs[1..]) && worker.Deleted? && lock.ByWorker?
    {
      hide EffectsOf;
      jobs := Without(jobs, worker.ln);
      worker := Deleted;
    }

    method Discount()
      requires Valid() && worker.Deleted?
      modifies this
      ensures Valid() && added == old(added) && effects == old(effects) && jobs == old(jobs)
      ensures Now() == WorkerNext(kind, old(Now()))
      ensures worker.Top? && lock.ByWorker?
    {
      hide EffectsOf;
      pending := pending - 1;
      worker := Top;
    }

    // ---- runs

    /** What the thread that holds the mutex outside the worker does next. */
    method ClientStep()
      requires Valid()
      modifies this
      ensures Valid() && old(added) <= added && old(effects) <= effects
      ensures Now() == ClientNext(old(Now()))
    {
      if lock.ByClient? {
        match clients[lock.c] {
          case Locked(_) => Append();
          case Appended => Count();
          case Counted => Signal();
          case Asking => var _ := Ask();
          case _ => Unlock();
        }
      }
    }

    /** One step of the worker, if it can go on. */
    method WorkerStep()
      requires Valid()
      modifies this
      ensures Valid() && old(added) == added && old(effects) <= effects
      ensures Now() == WorkerNext(kind, old(Now()))
      ensures !old(lock).ByClient? && !old(worker).Waiting? ==> !lock.ByClient? && Rank(jobs, worker) < Rank(old(jobs), old(worker))
    {
      match worker {
        case Top => TakeOrWait();
        case Waiting => {}
        case Taken(_) => Release();
        case Running(_) => Process();
        case Relocked(_) => Delete();
        case Deleted => Discount();
        case _ => if lock.Free? { Lock(); }
      }
    }

    /** Any interleaving: an event whose thread cannot run is skipped. */
    method Run(schedule: seq<Event>)
      requires Valid()
      modifies this
      ensures Valid() && old(added) <= added && old(effects) <= effects
      ensures Now() == After(kind, old(Now()), schedule)
    {
      assert schedule[..0] == [] && schedule[..|schedule|] == schedule;
      ghost var start := Now();
      hide Exclusive, Counts, Newest, InOrder, Awake, Answers, ClientNext, WorkerNext;
      for i := 0 to |schedule|
        invariant Valid() && old(added) <= added && old(effects) <= effects
        invariant Now() == After(kind, start, schedule[..i])
      {
        AfterSnoc(kind, start, schedule, i);
        match schedule[i] {
          case Create(c, job) => if lock.Free? { BeginCreate(c, job); }
          case Asks(c) => if lock.Free? { BeginAsk(c); }
          case ClientRuns => ClientStep();
          case WorkerRuns => WorkerStep();
          case Spurious => if worker.Waiting? { WakeSpuriously(); }
        }
      }
    }

    /** Whatever the run so far, once no client is inside and the worker goes on, it executes
        every job created and then sleeps with nothing pending. */
    method Drain()
      requires Valid() && !lock.ByClient?
      modifies this
      ensures Valid() && added == old(added) && worker.Waiting?
      ensures jobs == [] && pending == 0 && Quiet()
    {
      hide *;
      while !worker.Waiting?
        invariant Valid() && added == old(added) && !lock.ByClient?
        decreases Rank(jobs, worker)
      {
        WorkerStep();
      }
      AtRest();
    }

    lemma AtRest()
      requires Valid() && !lock.ByClient? && worker.Waiting?
      ensures jobs == [] && pending == 0 && Quiet()
    {
      assert added[..|added|] == added;
      hide EffectsOf;
    }
  }
}
