/** The dataset, the commands that the append only file relies on or that meet a clock or a choice
    at random, and replay. All other commands are an arbitrary function of the dataset, the
    selected DB and the arguments. */
module AofData {
  import opened Wrappers
  import opened Bytes
  import opened Decimal
  import opened Resp

  datatype Value = Str(s: bytes) | List(items: seq<bytes>) | Members(members: set<bytes>) | Hash(fields: map<bytes, bytes>)
  datatype Obj = Obj(value: Value, expire: Option<int>)
  type Db = map<bytes, Obj>
  type Dataset = seq<Db>

  /** What the other commands do, and what the payload of a RESTORE holds, if anything. */
  datatype Other = Other(run: (Dataset, nat, Argv) -> Option<Dataset>, decode: bytes -> Option<Value>)

  const SELECT: bytes := [83, 69, 76, 69, 67, 84]
  const SET: bytes := [83, 69, 84]
  const SETEX: bytes := [83, 69, 84, 69, 88]
  const PSETEX: bytes := [80, 83, 69, 84, 69, 88]
  const EXPIRE: bytes := [69, 88, 80, 73, 82, 69]
  const PEXPIRE: bytes := [80, 69, 88, 80, 73, 82, 69]
  const EXPIREAT: bytes := [69, 88, 80, 73, 82, 69, 65, 84]
  const PEXPIREAT: bytes := [80, 69, 88, 80, 73, 82, 69, 65, 84]
  const DEL: bytes := [68, 69, 76]
  const RPUSH: bytes := [82, 80, 85, 83, 72]
  const SADD: bytes := [83, 65, 68, 68]
  const HMSET: bytes := [72, 77, 83, 69, 84]
  const SREM: bytes := [83, 82, 69, 77]
  const SPOP: bytes := [83, 80, 79, 80]
  const RESTORE: bytes := [82, 69, 83, 84, 79, 82, 69]
  const NX: bytes := [78, 88]
  const XX: bytes := [88, 88]
  const EX: bytes := [69, 88]
  const PX: bytes := [80, 88]

  datatype Proc =
    | Select | Set | SetEx | PSetEx | Expire | PExpire | ExpireAt | PExpireAt | Del | RPush | SAdd | HMSet
    | SRem | SPop | Restore | OtherProc

  function Upper(s: bytes): (u: bytes)
    ensures |u| == |s|
  {
    seq(|s|, i requires 0 <= i < |s| => if 97 <= s[i] <= 122 then s[i] - 32 else s[i])
  }

  /** The command table is looked up without regard to case. */
  function Lookup(name: bytes): Proc {
    var u := Upper(name);
    if u == SELECT then Select else if u == SET then Set else if u == SETEX then SetEx else if u == PSETEX then PSetEx
    else if u == EXPIRE then Expire else if u == PEXPIRE then PExpire else if u == EXPIREAT then ExpireAt
    else if u == PEXPIREAT then PExpireAt else if u == DEL then Del else if u == RPUSH then RPush
    else if u == SADD then SAdd else if u == HMSET then HMSet else if u == SREM then SRem
    else if u == SPOP then SPop else if u == RESTORE then Restore else OtherProc
  }

  lemma Names()
    ensures Lookup(SELECT) == Select && Lookup(SET) == Set && Lookup(PEXPIREAT) == PExpireAt && Lookup(DEL) == Del
    ensures Lookup(RPUSH) == RPush && Lookup(SADD) == SAdd && Lookup(HMSET) == HMSet
  {
    assert Upper(SELECT) == SELECT;
    assert Upper(SET) == SET;
    assert Upper(PEXPIREAT) == PEXPIREAT;
    assert Upper(DEL) == DEL;
    assert Upper(RPUSH) == RPUSH;
    assert Upper(SADD) == SADD;
    assert Upper(HMSET) == HMSET;
  }

  lemma SRemName()
    ensures Lookup(SREM) == SRem
  {
    assert Upper(SREM) == SREM;
  }

  // ---- arguments

  /** What a C function sees of a string: the part before a NUL. */
  function CString(s: bytes): bytes {
    if s == [] || s[0] == 0 then [] else [s[0]] + CString(s[1..])
  }

  lemma {:induction false} CStringId(s: bytes)
    requires 0 !in s
    ensures CString(s) == s
  {
    if s != [] { CStringId(s[1..]); }
  }

  /** getLongLongFromObject: strtoll of the whole string, without leading space. */
  function ParseLL(arg: bytes): Option<int> {
    var s := CString(arg);
    if s == [] then Some(0)
    else
      var signed := s[0] == MINUS || s[0] == 43;
      var d := if signed then s[1..] else s;
      if d == [] || !AllDigits(d) then None
      else
        var v := if s[0] == MINUS then -(Decimal.Value(d) as int) else Decimal.Value(d);
        if InLL(v) then Some(v) else None
  }

  lemma ParsePrinted(v: int)
    requires InLL(v)
    ensures ParseLL(Print(v)) == Some(v)
  {
    var s, n := Print(v), if v < 0 then -v else v;
    PrintShape(v);
    CStringId(s);
    ValueOfDigits(n);
    hide Digits, Decimal.Value, AllDigits, CString, Print;
    assert s[0] != 43;
    var d := s[Start(s)..];
    assert d == if s[0] == MINUS then s[1..] else s;
    assert d != [] && AllDigits(d) && Decimal.Value(d) == n;
  }

  datatype SetOptions = SetOptions(nx: bool, xx: bool, expire: Option<(bytes, bool)>) | SyntaxError

  /** setCommand's options, from `args` on; `expire` holds the argument and whether it is in seconds. */
  function ParseSetOptions(args: Argv, o: SetOptions): SetOptions
    requires o.SetOptions?
    decreases |args|
  {
    if args == [] then o
    else
      var a := Upper(CString(args[0]));
      if a == NX then ParseSetOptions(args[1..], o.(nx := true))
      else if a == XX then ParseSetOptions(args[1..], o.(xx := true))
      else if a == EX && |args| > 1 then ParseSetOptions(args[2..], o.(expire := Some((args[1], true))))
      else if a == PX && |args| > 1 then ParseSetOptions(args[2..], o.(expire := Some((args[1], false))))
      else SyntaxError
  }

  function SetOptionsOf(argv: Argv): SetOptions
    requires |argv| >= 3
  {
    ParseSetOptions(argv[3..], SetOptions(false, false, None))
  }

  // ---- execution

  /** The clock is read when the command starts, when it compares a time with the present, and
      when the command is fed to the log: db.c:564, 587 and 595, t_string.c:86, migrate.c:122,
      aof.c:371. And SPOP picks a member at random. */
  datatype Moment = Moment(run: int, check: int, feed: int, pick: bytes)

  datatype Env = Env(run: int, check: int, pick: bytes, loading: bool)

  /** A command of a client. */
  function Live(k: Moment): Env { Env(k.run, k.check, k.pick, false) }

  /** A command of the log, read at time `t`. */
  function Loading(t: int): Env { Env(t, t, [], true) }

  /** The dataset after a command; whether it is propagated, and as what. */
  datatype Outcome = Outcome(data: Dataset, dirty: bool, argv: Argv)

  function Refused(data: Dataset, argv: Argv): Outcome { Outcome(data, false, argv) }

  function Put(data: Dataset, db: nat, key: bytes, o: Obj): (d: Dataset)
    requires db < |data|
    ensures |d| == |data|
  {
    data[db := data[db][key := o]]
  }

  /** EXPIRE, PEXPIRE, EXPIREAT and PEXPIREAT: db.c, expireGenericCommand. */
  function RunExpire(env: Env, data: Dataset, db: nat, argv: Argv, seconds: bool, relative: bool): (o: Outcome)
    requires db < |data|
    ensures (o.argv == argv || (|argv| == 3 && o.argv == [DEL, argv[1]])) && (!o.dirty ==> o.data == data) && |o.data| == |data|
  {
    if |argv| != 3 || ParseLL(argv[2]) == None then Refused(data, argv)
    else
      var n := ParseLL(argv[2]).value;
      var when := (if seconds then n * 1000 else n) + (if relative then env.run else 0);
      var key := argv[1];
      if key !in data[db] then Refused(data, argv)
      else if when <= env.check && !env.loading then Outcome(data[db := data[db] - {key}], true, [DEL, key])
      else Outcome(Put(data, db, key, data[db][key].(expire := Some(when))), true, argv)
  }

  /** setGenericCommand */
  function RunSet(env: Env, data: Dataset, db: nat, argv: Argv, key: bytes, val: bytes, o: SetOptions): (r: Outcome)
    requires db < |data| && o.SetOptions?
    ensures r.argv == argv && (!r.dirty ==> r.data == data) && |r.data| == |data|
  {
    var ms := match o.expire
      case None => Some(0)
      case Some((arg, seconds)) =>
        match ParseLL(arg) case None => None case Some(n) => if n <= 0 then None else Some(if seconds then n * 1000 else n);
    if ms == None then Refused(data, argv)
    else if (o.nx && key in data[db]) || (o.xx && key !in data[db]) then Refused(data, argv)
    else Outcome(Put(data, db, key, Obj(Str(val), if o.expire == None then None else Some(env.run + ms.value))), true, argv)
  }

  function ToSet(s: Argv): (r: set<bytes>)
    ensures forall x :: x in r <==> x in s
  {
    set x | x in s
  }

  function ToMap(s: Argv): map<bytes, bytes> {
    if |s| < 2 then map[] else ToMap(s[..|s| - 2])[s[|s| - 2] := s[|s| - 1]]
  }

  function ExpireOf(db: Db, key: bytes): Option<int> { if key in db then db[key].expire else None }

  function RunDel(data: Dataset, db: nat, argv: Argv): (o: Outcome)
    requires db < |data| && argv != []
    ensures o.argv == argv && |o.data| == |data|
  {
    var keys := ToSet(argv[1..]);
    Outcome(data[db := data[db] - keys], keys * data[db].Keys != {}, argv)
  }

  function RunRPush(data: Dataset, db: nat, argv: Argv): (o: Outcome)
    requires db < |data| && argv != []
    ensures o.argv == argv && (!o.dirty ==> o.data == data) && |o.data| == |data|
  {
    if |argv| < 3 then Refused(data, argv)
    else
      var key := argv[1];
      if key in data[db] && !data[db][key].value.List? then Refused(data, argv)
      else
        var prev := if key in data[db] then data[db][key].value.items else [];
        Outcome(Put(data, db, key, Obj(List(prev + argv[2..]), ExpireOf(data[db], key))), true, argv)
  }

  function RunSAdd(data: Dataset, db: nat, argv: Argv): (o: Outcome)
    requires db < |data| && argv != []
    ensures o.argv == argv && (!o.dirty ==> o.data == data) && |o.data| == |data|
  {
    if |argv| < 3 then Refused(data, argv)
    else
      var key := argv[1];
      if key in data[db] && !data[db][key].value.Members? then Refused(data, argv)
      else
        var prev := if key in data[db] then data[db][key].value.members else {};
        if ToSet(argv[2..]) <= prev then Refused(data, argv)
        else Outcome(Put(data, db, key, Obj(Members(prev + ToSet(argv[2..])), ExpireOf(data[db], key))), true, argv)
  }

  function RunHMSet(data: Dataset, db: nat, argv: Argv): (o: Outcome)
    requires db < |data| && argv != []
    ensures o.argv == argv && (!o.dirty ==> o.data == data) && |o.data| == |data|
  {
    if |argv| < 4 || |argv| % 2 == 1 then Refused(data, argv)
    else
      var key := argv[1];
      if key in data[db] && !data[db][key].value.Hash? then Refused(data, argv)
      else
        var prev := if key in data[db] then data[db][key].value.fields else map[];
        Outcome(Put(data, db, key, Obj(Hash(prev + ToMap(argv[2..])), ExpireOf(data[db], key))), true, argv)
  }

  /** Members leave a set; an empty set leaves the DB. */
  function Remove(data: Dataset, db: nat, key: bytes, gone: set<bytes>): (d: Dataset)
    requires db < |data| && key in data[db] && data[db][key].value.Members?
    ensures |d| == |data|
  {
    var o := data[db][key];
    if o.value.members - gone == {} then data[db := data[db] - {key}] else Put(data, db, key, o.(value := Members(o.value.members - gone)))
  }

  predicate IsSet(db: Db, key: bytes) { key in db && db[key].value.Members? }

  function RunSRem(data: Dataset, db: nat, argv: Argv): (o: Outcome)
    requires db < |data| && argv != []
    ensures o.argv == argv && (!o.dirty ==> o.data == data) && |o.data| == |data|
  {
    if |argv| < 3 || !IsSet(data[db], argv[1]) || data[db][argv[1]].value.members * ToSet(argv[2..]) == {} then Refused(data, argv)
    else Outcome(Remove(data, db, argv[1], ToSet(argv[2..])), true, argv)
  }

  /** SPOP, when `pick` is what setTypeRandomElement gives: it is propagated as an SREM. */
  function RunSPop(env: Env, data: Dataset, db: nat, argv: Argv): (o: Outcome)
    requires db < |data| && argv != []
    ensures o.argv == argv || (|argv| == 2 && o.argv == [SREM, argv[1], env.pick])
    ensures (!o.dirty ==> o.data == data) && |o.data| == |data|
  {
    if |argv| != 2 || !IsSet(data[db], argv[1]) || env.pick !in data[db][argv[1]].value.members then Refused(data, argv)
    else Outcome(Remove(data, db, argv[1], {env.pick}), true, [SREM, argv[1], env.pick])
  }

  /** RESTORE: the time to live counts from the present, and is propagated as it is. */
  function RunRestore(other: Other, env: Env, data: Dataset, db: nat, argv: Argv): (o: Outcome)
    requires db < |data| && argv != []
    ensures o.argv == argv && (!o.dirty ==> o.data == data) && |o.data| == |data|
  {
    if |argv| != 4 || argv[1] in data[db] then Refused(data, argv)
    else
      match ParseLL(argv[2])
      case None => Refused(data, argv)
      case Some(ttl) =>
        if ttl < 0 || other.decode(argv[3]) == None then Refused(data, argv)
        else
          var o := Obj(other.decode(argv[3]).value, if ttl == 0 then None else Some(env.run + ttl));
          Outcome(Put(data, db, argv[1], o), true, argv)
  }

  function Run(other: Other, env: Env, data: Dataset, db: nat, argv: Argv): (o: Outcome)
    requires db < |data| && argv != []
    ensures |o.data| == |data| && o.argv != []
  {
    match Lookup(argv[0])
    case Select => Refused(data, argv)
    case Set =>
      if |argv| < 3 then Refused(data, argv)
      else
        var o := SetOptionsOf(argv);
        if o == SyntaxError then Refused(data, argv) else RunSet(env, data, db, argv, argv[1], argv[2], o)
    case SetEx =>
      if |argv| != 4 then Refused(data, argv)
      else RunSet(env, data, db, argv, argv[1], argv[3], SetOptions(false, false, Some((argv[2], true))))
    case PSetEx =>
      if |argv| != 4 then Refused(data, argv)
      else RunSet(env, data, db, argv, argv[1], argv[3], SetOptions(false, false, Some((argv[2], false))))
    case Expire => RunExpire(env, data, db, argv, true, true)
    case PExpire => RunExpire(env, data, db, argv, false, true)
    case ExpireAt => RunExpire(env, data, db, argv, true, false)
    case PExpireAt => RunExpire(env, data, db, argv, false, false)
    case Del => RunDel(data, db, argv)
    case RPush => RunRPush(data, db, argv)
    case SAdd => RunSAdd(data, db, argv)
    case HMSet => RunHMSet(data, db, argv)
    case SRem => RunSRem(data, db, argv)
    case SPop => RunSPop(env, data, db, argv)
    case Restore => RunRestore(other, env, data, db, argv)
    case OtherProc =>
      match other.run(data, db, argv)
      case None => Refused(data, argv)
      case Some(d) => if |d| == |data| then Outcome(d, true, argv) else Refused(data, argv)
  }

  ghost predicate IsExpire(proc: Proc) { proc == Expire || proc == PExpire || proc == ExpireAt || proc == PExpireAt }

  lemma SetIs(other: Other, env: Env, data: Dataset, db: nat, argv: Argv)
    requires db < |data| && argv != [] && Lookup(argv[0]) == Set
    ensures Run(other, env, data, db, argv) ==
      if |argv| < 3 || SetOptionsOf(argv) == SyntaxError then Refused(data, argv)
      else RunSet(env, data, db, argv, argv[1], argv[2], SetOptionsOf(argv))
  {
    hide Lookup, RunSet, SetOptionsOf;
  }

  lemma SetExIs(other: Other, env: Env, data: Dataset, db: nat, argv: Argv)
    requires db < |data| && argv != [] && (Lookup(argv[0]) == SetEx || Lookup(argv[0]) == PSetEx)
    ensures Run(other, env, data, db, argv) ==
      if |argv| != 4 then Refused(data, argv)
      else RunSet(env, data, db, argv, argv[1], argv[3], SetOptions(false, false, Some((argv[2], Lookup(argv[0]) == SetEx))))
  {
    hide Lookup, RunSet;
  }

  lemma ExpireIs(other: Other, env: Env, data: Dataset, db: nat, argv: Argv)
    requires db < |data| && argv != [] && IsExpire(Lookup(argv[0]))
    ensures var proc := Lookup(argv[0]);
      Run(other, env, data, db, argv)
      == RunExpire(env, data, db, argv, proc == Expire || proc == ExpireAt, proc == Expire || proc == PExpire)
  {
    hide Lookup, RunExpire;
  }

  lemma DelIs(other: Other, env: Env, data: Dataset, db: nat, argv: Argv)
    requires db < |data| && argv != [] && Lookup(argv[0]) == Del
    ensures Run(other, env, data, db, argv) == RunDel(data, db, argv)
  {
    hide Lookup, RunDel;
  }

  lemma SRemIs(other: Other, env: Env, data: Dataset, db: nat, argv: Argv)
    requires db < |data| && argv != [] && Lookup(argv[0]) == SRem
    ensures Run(other, env, data, db, argv) == RunSRem(data, db, argv)
  {
    hide Lookup, RunSRem;
  }

  lemma CollectIs(other: Other, env: Env, data: Dataset, db: nat, argv: Argv)
    requires db < |data| && argv != []
    ensures Lookup(argv[0]) == RPush ==> Run(other, env, data, db, argv) == RunRPush(data, db, argv)
    ensures Lookup(argv[0]) == SAdd ==> Run(other, env, data, db, argv) == RunSAdd(data, db, argv)
    ensures Lookup(argv[0]) == HMSet ==> Run(other, env, data, db, argv) == RunHMSet(data, db, argv)
  {
    hide Lookup, RunRPush, RunSAdd, RunHMSet;
  }

  lemma SPopIs(other: Other, env: Env, data: Dataset, db: nat, argv: Argv)
    requires db < |data| && argv != [] && Lookup(argv[0]) == SPop
    ensures Run(other, env, data, db, argv) == RunSPop(env, data, db, argv)
  {
    hide Lookup, RunSPop;
  }

  lemma RestoreIs(other: Other, env: Env, data: Dataset, db: nat, argv: Argv)
    requires db < |data| && argv != [] && Lookup(argv[0]) == Restore
    ensures Run(other, env, data, db, argv) == RunRestore(other, env, data, db, argv)
  {
    hide Lookup, RunRestore;
  }

  // ---- replay

  datatype Replay = Replay(data: Dataset, db: nat)

  /** A command of the log, run by the loader's fake client at time `t`. */
  function ReplayCmd(other: Other, t: int, r: Replay, argv: Argv): (r': Replay)
    requires r.db < |r.data|
    ensures r'.db < |r'.data| == |r.data|
  {
    if argv == [] then r
    else if Lookup(argv[0]) == Select then
      if |argv| == 2 && ParseLL(argv[1]).Some? && 0 <= ParseLL(argv[1]).value < |r.data|
      then r.(db := ParseLL(argv[1]).value) else r
    else r.(data := Run(other, Loading(t), r.data, r.db, argv).data)
  }

  function ReplayAll(other: Other, t: int, r: Replay, cmds: seq<Argv>): (r': Replay)
    requires r.db < |r.data|
    ensures r'.db < |r'.data| == |r.data|
    decreases |cmds|
  {
    if cmds == [] then r else ReplayAll(other, t, ReplayCmd(other, t, r, cmds[0]), cmds[1..])
  }

  lemma {:induction false} ReplayConcat(other: Other, t: int, r: Replay, a: seq<Argv>, b: seq<Argv>)
    requires r.db < |r.data|
    ensures ReplayAll(other, t, r, a + b) == ReplayAll(other, t, ReplayAll(other, t, r, a), b)
    decreases |a|
  {
    if a == [] {
      assert a + b == b;
    } else {
      assert (a + b)[1..] == a[1..] + b;
      ReplayConcat(other, t, ReplayCmd(other, t, r, a[0]), a[1..], b);
    }
  }

  // ---- what is logged for a command

  function PExpireAtCmd(key: bytes, when: int): Argv { [PEXPIREAT, key, Print(when)] }

  /** catAppendOnlyExpireAtCommand: the absolute time, in milliseconds. */
  function AbsoluteTime(proc: Proc, feed: int, arg: bytes): int {
    var n := match ParseLL(arg) case None => 0 case Some(n) => n;
    (if proc == Expire || proc == SetEx || proc == ExpireAt then n * 1000 else n)
    + (if proc == Expire || proc == PExpire || proc == SetEx || proc == PSetEx then feed else 0)
  }

  /** The commands that feedAppendOnlyFile writes, after any SELECT. */
  function Logged(feed: int, argv: Argv): (cmds: seq<Argv>)
    requires argv != []
  {
    var proc := Lookup(argv[0]);
    if (proc == Expire || proc == PExpire || proc == ExpireAt) && |argv| >= 3 then
      [PExpireAtCmd(argv[1], AbsoluteTime(proc, feed, argv[2]))]
    else if (proc == SetEx || proc == PSetEx) && |argv| >= 4 then
      [[SET, argv[1], argv[3]], PExpireAtCmd(argv[1], AbsoluteTime(proc, feed, argv[2]))]
    else [argv]
  }

  /** A SET whose own options give a time to live: it is logged as it is. */
  predicate SetWithTtl(argv: Argv) {
    argv != [] && |argv| >= 3 && Lookup(argv[0]) == Set && SetOptionsOf(argv).SetOptions? && SetOptionsOf(argv).expire.Some?
  }

  /** A RESTORE with a time to live: so is that. */
  predicate RestoreWithTtl(argv: Argv) {
    |argv| == 4 && Lookup(argv[0]) == Restore && ParseLL(argv[2]).Some? && ParseLL(argv[2]).value != 0
  }

  /** The absolute time fits a `long long`, as the C arithmetic needs. */
  predicate TimeFits(feed: int, argv: Argv)
    requires argv != []
  {
    var proc := Lookup(argv[0]);
    ((proc == Expire || proc == PExpire || proc == ExpireAt) && |argv| >= 3) || ((proc == SetEx || proc == PSetEx) && |argv| >= 4)
    ==> InLL(AbsoluteTime(proc, feed, argv[2]))
  }

  lemma PutPut(data: Dataset, db: nat, key: bytes, a: Obj, b: Obj)
    requires db < |data|
    ensures Put(Put(data, db, key, a), db, key, b) == Put(data, db, key, b)
  {
    assert data[db][key := a][key := b] == data[db][key := b];
    assert Put(Put(data, db, key, a), db, key, b) == Put(data, db, key, b);
  }

  lemma ReplayPExpireAt(other: Other, t: int, r: Replay, key: bytes, when: int)
    requires r.db < |r.data| && InLL(when) && key in r.data[r.db]
    ensures ReplayCmd(other, t, r, PExpireAtCmd(key, when))
         == r.(data := Put(r.data, r.db, key, r.data[r.db][key].(expire := Some(when))))
  {
    var argv := PExpireAtCmd(key, when);
    Names();
    hide Lookup, Upper;
    ReplayRun(other, t, r, argv);
    ExpireIs(other, Loading(t), r.data, r.db, argv);
    ParsePrinted(when);
    hide Run, ReplayCmd, ReplayAll, ParseLL;
  }

  lemma ReplayPlainSet(other: Other, t: int, r: Replay, key: bytes, val: bytes)
    requires r.db < |r.data|
    ensures ReplayCmd(other, t, r, [SET, key, val]) == r.(data := Put(r.data, r.db, key, Obj(Str(val), None)))
  {
    var argv := [SET, key, val];
    Names();
    hide Lookup, Upper;
    assert argv[3..] == [];
    assert SetOptionsOf(argv) == SetOptions(false, false, None);
    ReplayRun(other, t, r, argv);
    SetIs(other, Loading(t), r.data, r.db, argv);
    hide Run, ReplayCmd, ReplayAll, ParseLL, SetOptionsOf;
  }

  lemma ReplayOne(other: Other, t: int, r: Replay, a: Argv)
    requires r.db < |r.data|
    ensures ReplayAll(other, t, r, [a]) == ReplayCmd(other, t, r, a)
  {
    assert [a][1..] == [];
  }

  lemma ReplayRun(other: Other, t: int, r: Replay, argv: Argv)
    requires r.db < |r.data| && argv != [] && Lookup(argv[0]) != Select
    ensures ReplayAll(other, t, r, [argv]) == ReplayCmd(other, t, r, argv)
    ensures ReplayCmd(other, t, r, argv) == r.(data := Run(other, Loading(t), r.data, r.db, argv).data)
  {
    hide Run, Lookup, ReplayAll;
    ReplayOne(other, t, r, argv);
  }

  lemma ReplayTwo(other: Other, t: int, r: Replay, a: Argv, b: Argv)
    requires r.db < |r.data|
    ensures ReplayAll(other, t, r, [a, b]) == ReplayCmd(other, t, ReplayCmd(other, t, r, a), b)
  {
    assert [a, b][1..] == [b];
    ReplayOne(other, t, ReplayCmd(other, t, r, a), b);
  }

  /** A time to live counted from the present, which is read once to run the command and once
      more to log it. */
  predicate RelativeExpire(argv: Argv) {
    argv != [] && var proc := Lookup(argv[0]); proc == Expire || proc == PExpire || proc == SetEx || proc == PSetEx
  }

  /** An expire family command: a time in the past was turned into a DEL, any other is logged
      as the absolute time that the second reading gives. */
  lemma LoggedExpire(other: Other, k: Moment, t: int, data: Dataset, db: nat, argv: Argv)
    requires db < |data| && argv != [] && TimeFits(k.feed, argv) && IsExpire(Lookup(argv[0]))
    requires Run(other, Live(k), data, db, argv).dirty
    ensures var o := Run(other, Live(k), data, db, argv);
      ReplayAll(other, t, Replay(data, db), Logged(k.feed, o.argv)) == Replay(o.data, db)
      <==> (RelativeExpire(o.argv) ==> k.feed == k.run)
  {
    var o := Run(other, Live(k), data, db, argv);
    hide *;
    if o.argv != argv {
      LoggedPast(other, k, t, data, db, argv);
    } else if Lookup(argv[0]) == PExpireAt {
      LoggedExact(other, k, t, data, db, argv);
    } else {
      LoggedAbsolute(other, k, t, data, db, argv);
    }
  }

  /** The case of a time that has passed. */
  lemma LoggedPast(other: Other, k: Moment, t: int, data: Dataset, db: nat, argv: Argv)
    requires db < |data| && argv != [] && IsExpire(Lookup(argv[0]))
    requires Run(other, Live(k), data, db, argv).dirty && Run(other, Live(k), data, db, argv).argv != argv
    ensures var o := Run(other, Live(k), data, db, argv);
      !RelativeExpire(o.argv) && ReplayAll(other, t, Replay(data, db), Logged(k.feed, o.argv)) == Replay(o.data, db)
  {
    Names();
    ExpireIs(other, Live(k), data, db, argv);
    hide Run, Lookup, ReplayAll, Logged, ParseLL;
    assert |argv| == 3 && Run(other, Live(k), data, db, argv) == Outcome(data[db := data[db] - {argv[1]}], true, [DEL, argv[1]]);
    LoggedDel(other, k.feed, t, Replay(data, db), argv[1]);
  }

  /** The case of a PEXPIREAT. */
  lemma LoggedExact(other: Other, k: Moment, t: int, data: Dataset, db: nat, argv: Argv)
    requires db < |data| && argv != [] && Lookup(argv[0]) == PExpireAt
    requires Run(other, Live(k), data, db, argv).dirty && Run(other, Live(k), data, db, argv).argv == argv
    ensures !RelativeExpire(argv)
    ensures ReplayAll(other, t, Replay(data, db), Logged(k.feed, argv)) == Replay(Run(other, Live(k), data, db, argv).data, db)
  {
    ReplayRun(other, t, Replay(data, db), argv);
    ExpireIs(other, Live(k), data, db, argv);
    ExpireIs(other, Loading(t), data, db, argv);
    NotDel(argv[0]);
    hide Run, Lookup, ReplayAll, ReplayCmd, ParseLL;
    assert Logged(k.feed, argv) == [argv];
  }

  /** The case that is logged as a PEXPIREAT. */
  lemma LoggedAbsolute(other: Other, k: Moment, t: int, data: Dataset, db: nat, argv: Argv)
    requires db < |data| && argv != [] && TimeFits(k.feed, argv) && IsExpire(Lookup(argv[0])) && Lookup(argv[0]) != PExpireAt
    requires Run(other, Live(k), data, db, argv).dirty && Run(other, Live(k), data, db, argv).argv == argv
    ensures ReplayAll(other, t, Replay(data, db), Logged(k.feed, argv)) == Replay(Run(other, Live(k), data, db, argv).data, db)
      <==> (RelativeExpire(argv) ==> k.feed == k.run)
  {
    var proc, r, key := Lookup(argv[0]), Replay(data, db), argv[1];
    var when, live := AbsoluteTime(proc, k.feed, argv[2]), AbsoluteTime(proc, k.run, argv[2]);
    LiveExpire(other, k, data, db, argv);
    var cmd := PExpireAtCmd(key, when);
    assert Logged(k.feed, argv) == [cmd];
    assert RelativeExpire(argv) ==> when - live == k.feed - k.run;
    assert !RelativeExpire(argv) ==> when == live;
    hide Run, Logged, Lookup, ReplayCmd, ReplayAll, AbsoluteTime, RelativeExpire, ParseLL;
    ReplayOne(other, t, r, cmd);
    ReplayPExpireAt(other, t, r, key, when);
    PutExpires(data, db, key, data[db][key], when, live);
  }

  lemma NotDel(name: bytes)
    requires Lookup(name) != Del
    ensures name != DEL
  {
    Names();
    hide Lookup;
  }

  lemma LiveExpire(other: Other, k: Moment, data: Dataset, db: nat, argv: Argv)
    requires db < |data| && argv != [] && IsExpire(Lookup(argv[0])) && Lookup(argv[0]) != PExpireAt
    requires Run(other, Live(k), data, db, argv).dirty && Run(other, Live(k), data, db, argv).argv == argv
    ensures |argv| == 3 && argv[1] in data[db]
    ensures Run(other, Live(k), data, db, argv).data
         == Put(data, db, argv[1], data[db][argv[1]].(expire := Some(AbsoluteTime(Lookup(argv[0]), k.run, argv[2]))))
  {
    ExpireIs(other, Live(k), data, db, argv);
    NotDel(argv[0]);
    hide Run, Lookup, ParseLL;
  }

  /** Datasets that differ in one expire. */
  lemma PutExpires(data: Dataset, db: nat, key: bytes, o: Obj, a: int, b: int)
    requires db < |data|
    ensures Put(data, db, key, o.(expire := Some(a))) == Put(data, db, key, o.(expire := Some(b))) <==> a == b
  {
    assert Put(data, db, key, o.(expire := Some(a)))[db][key].expire == Some(a);
    assert Put(data, db, key, o.(expire := Some(b)))[db][key].expire == Some(b);
  }

  lemma LoggedDel(other: Other, feed: int, t: int, r: Replay, key: bytes)
    requires r.db < |r.data|
    ensures ReplayAll(other, t, r, Logged(feed, [DEL, key])) == r.(data := r.data[r.db := r.data[r.db] - {key}])
  {
    var argv := [DEL, key];
    Names();
    hide Lookup, Upper;
    ReplayRun(other, t, r, argv);
    DelIs(other, Loading(t), r.data, r.db, argv);
    assert Logged(feed, argv) == [argv];
    hide Run, ReplayCmd, ReplayAll, Logged;
    assert argv[1..] == [key];
    assert ToSet([key]) == {key};
  }

  lemma AfterPut(data: Dataset, db: nat, key: bytes, o: Obj)
    requires db < |data|
    ensures key in Put(data, db, key, o)[db] && Put(data, db, key, o)[db][key] == o
  {}

  lemma SetExRun(env: Env, data: Dataset, db: nat, argv: Argv, seconds: bool)
    requires db < |data| && |argv| == 4
    requires RunSet(env, data, db, argv, argv[1], argv[3], SetOptions(false, false, Some((argv[2], seconds)))).dirty
    ensures ParseLL(argv[2]).Some?
    ensures var live := env.run + if seconds then ParseLL(argv[2]).value * 1000 else ParseLL(argv[2]).value;
      RunSet(env, data, db, argv, argv[1], argv[3], SetOptions(false, false, Some((argv[2], seconds))))
      == Outcome(Put(data, db, argv[1], Obj(Str(argv[3]), Some(live))), true, argv)
  {
    hide ParseLL;
  }

  lemma SetExFed(feed: int, argv: Argv)
    requires |argv| == 4 && (Lookup(argv[0]) == SetEx || Lookup(argv[0]) == PSetEx) && TimeFits(feed, argv)
    ensures var when := AbsoluteTime(Lookup(argv[0]), feed, argv[2]);
      InLL(when) && Logged(feed, argv) == [[SET, argv[1], argv[3]], PExpireAtCmd(argv[1], when)]
  {
    hide Lookup, AbsoluteTime;
  }

  lemma Absolute(proc: Proc, now: int, arg: bytes)
    requires ParseLL(arg).Some?
    ensures proc == SetEx || proc == PSetEx ==>
      AbsoluteTime(proc, now, arg) == now + if proc == SetEx then ParseLL(arg).value * 1000 else ParseLL(arg).value
  {
    hide ParseLL;
  }

  lemma LiveSetEx(other: Other, k: Moment, data: Dataset, db: nat, argv: Argv)
    requires db < |data| && argv != [] && TimeFits(k.feed, argv) && (Lookup(argv[0]) == SetEx || Lookup(argv[0]) == PSetEx)
    requires Run(other, Live(k), data, db, argv).dirty
    ensures |argv| == 4 && InLL(AbsoluteTime(Lookup(argv[0]), k.feed, argv[2]))
    ensures var o, live := Run(other, Live(k), data, db, argv), AbsoluteTime(Lookup(argv[0]), k.run, argv[2]);
      o.argv == argv && o.data == Put(data, db, argv[1], Obj(Str(argv[3]), None).(expire := Some(live)))
    ensures Logged(k.feed, argv) == [[SET, argv[1], argv[3]], PExpireAtCmd(argv[1], AbsoluteTime(Lookup(argv[0]), k.feed, argv[2]))]
  {
    var proc := Lookup(argv[0]);
    assert Run(other, Live(k), data, db, argv).dirty ==> |argv| == 4 by {
      SetExIs(other, Live(k), data, db, argv);
      hide Run, Lookup, ParseLL;
    }
    SetExFed(k.feed, argv);
    assert Live(k).run == k.run;
    hide *;
    SetExIs(other, Live(k), data, db, argv);
    SetExRun(Live(k), data, db, argv, proc == SetEx);
    Absolute(proc, k.run, argv[2]);
  }

  /** SETEX and PSETEX are logged as a SET and the absolute time that the second reading gives. */
  lemma LoggedSetEx(other: Other, k: Moment, t: int, data: Dataset, db: nat, argv: Argv)
    requires db < |data| && argv != [] && TimeFits(k.feed, argv) && (Lookup(argv[0]) == SetEx || Lookup(argv[0]) == PSetEx)
    requires Run(other, Live(k), data, db, argv).dirty
    ensures var o := Run(other, Live(k), data, db, argv);
      o.argv == argv
      && (ReplayAll(other, t, Replay(data, db), Logged(k.feed, argv)) == Replay(o.data, db) <==> k.feed == k.run)
  {
    var o, proc := Run(other, Live(k), data, db, argv), Lookup(argv[0]);
    var r, when, live := Replay(data, db), AbsoluteTime(proc, k.feed, argv[2]), AbsoluteTime(proc, k.run, argv[2]);
    var none := Obj(Str(argv[3]), None);
    LiveSetEx(other, k, data, db, argv);
    assert when - live == k.feed - k.run;
    hide *;
    var r' := r.(data := Put(data, db, argv[1], none));
    AfterPut(data, db, argv[1], none);
    assert r'.data[db][argv[1]].(expire := Some(when)) == none.(expire := Some(when));
    PutPut(data, db, argv[1], none, none.(expire := Some(when)));
    ReplayTwo(other, t, r, [SET, argv[1], argv[3]], PExpireAtCmd(argv[1], when));
    ReplayPlainSet(other, t, r, argv[1], argv[3]);
    ReplayPExpireAt(other, t, r', argv[1], when);
    PutExpires(data, db, argv[1], none, when, live);
  }

  /** SPOP is logged as the removal of the member that was popped. */
  lemma LoggedSPop(other: Other, k: Moment, t: int, data: Dataset, db: nat, argv: Argv)
    requires db < |data| && argv != [] && Lookup(argv[0]) == SPop
    requires Run(other, Live(k), data, db, argv).dirty
    ensures var o := Run(other, Live(k), data, db, argv);
      && o.argv == [SREM, argv[1], k.pick] && !RelativeExpire(o.argv)
      && ReplayAll(other, t, Replay(data, db), Logged(k.feed, o.argv)) == Replay(o.data, db)
  {
    var argv' := [SREM, argv[1], k.pick];
    SPopIs(other, Live(k), data, db, argv);
    SRemName();
    hide Run, Lookup, Upper;
    SRemIs(other, Loading(t), data, db, argv');
    ReplayRun(other, t, Replay(data, db), argv');
    assert Logged(k.feed, argv') == [argv'] && !RelativeExpire(argv');
    hide ReplayCmd, ReplayAll, Logged, RelativeExpire;
    assert argv'[2..] == [k.pick];
    assert ToSet([k.pick]) == {k.pick};
    assert k.pick in data[db][argv[1]].value.members * {k.pick};
  }

  /** The dataset after a time to live given from the present is that of another time only if
      the times are the same. */
  lemma RestoreRun(other: Other, k: Moment, t: int, data: Dataset, db: nat, argv: Argv)
    requires db < |data| && argv != [] && Lookup(argv[0]) == Restore && Run(other, Live(k), data, db, argv).dirty
    ensures Run(other, Loading(t), data, db, argv).data == Run(other, Live(k), data, db, argv).data
      <==> (!RestoreWithTtl(argv) || t == k.run)
  {
    RestoreIs(other, Live(k), data, db, argv);
    RestoreIs(other, Loading(t), data, db, argv);
    hide Run, Lookup, ParseLL;
    var o := Obj(other.decode(argv[3]).value, None);
    PutExpires(data, db, argv[1], o, t + ParseLL(argv[2]).value, k.run + ParseLL(argv[2]).value);
  }

  lemma SetRun(other: Other, k: Moment, t: int, data: Dataset, db: nat, argv: Argv)
    requires db < |data| && argv != [] && Lookup(argv[0]) == Set && Run(other, Live(k), data, db, argv).dirty
    ensures Run(other, Loading(t), data, db, argv).data == Run(other, Live(k), data, db, argv).data
      <==> (!SetWithTtl(argv) || t == k.run)
  {
    SetIs(other, Live(k), data, db, argv);
    SetIs(other, Loading(t), data, db, argv);
    hide Run, Lookup, ParseLL, SetOptionsOf;
    if SetWithTtl(argv) {
      var key := argv[1];
      var live: Dataset, later: Dataset := Run(other, Live(k), data, db, argv).data, Run(other, Loading(t), data, db, argv).data;
      assert live[db][key].expire.Some? && later[db][key].expire.Some?;
      assert later[db][key].expire.value - live[db][key].expire.value == t - k.run;
    }
  }

  /** Every other command is logged as it is; its effect does not depend on the clock,
      unless it is a SET or a RESTORE with a time to live. */
  lemma LoggedVerbatim(other: Other, k: Moment, t: int, data: Dataset, db: nat, argv: Argv)
    requires db < |data| && argv != []
    requires !IsExpire(Lookup(argv[0])) && Lookup(argv[0]) != SetEx && Lookup(argv[0]) != PSetEx && Lookup(argv[0]) != SPop
    requires Run(other, Live(k), data, db, argv).dirty
    ensures Run(other, Live(k), data, db, argv).argv == argv && Logged(k.feed, argv) == [argv] && !RelativeExpire(argv)
    ensures Run(other, Loading(t), data, db, argv).data == Run(other, Live(k), data, db, argv).data
      <==> (!RestartsTtl(argv) || t == k.run)
  {
    if Lookup(argv[0]) == Set {
      SetRun(other, k, t, data, db, argv);
      SetIs(other, Live(k), data, db, argv);
      hide Run, RunSet, SetOptionsOf, ParseLL, Lookup;
    } else if Lookup(argv[0]) == Restore {
      RestoreRun(other, k, t, data, db, argv);
      RestoreIs(other, Live(k), data, db, argv);
      hide Run, RunRestore, SetOptionsOf, ParseLL, Lookup;
    } else {
      hide SetOptionsOf, ParseLL, Lookup, RunDel, RunSAdd, RunRPush, RunHMSet, RunSRem;
    }
  }

  /** The commands that are logged with a time to live that counts from the replay. */
  predicate RestartsTtl(argv: Argv) { SetWithTtl(argv) || RestoreWithTtl(argv) }

  /** What a live command did, its log does again, if and only if it is not a SET or a RESTORE
      with a time to live, which do so only at the very same time, nor a relative expire for
      which the clock went on between running and logging it. A command rewritten to DEL is
      none of these. */
  lemma LoggedReplays(other: Other, k: Moment, t: int, data: Dataset, db: nat, argv: Argv)
    requires db < |data| && argv != [] && TimeFits(k.feed, argv)
    requires Run(other, Live(k), data, db, argv).dirty
    ensures var o := Run(other, Live(k), data, db, argv);
      ReplayAll(other, t, Replay(data, db), Logged(k.feed, o.argv)) == Replay(o.data, db)
      <==> (!RestartsTtl(argv) || t == k.run) && (!RelativeExpire(o.argv) || k.feed == k.run)
  {
    if IsExpire(Lookup(argv[0])) {
      LoggedExpire(other, k, t, data, db, argv);
      hide Run, Logged, ReplayAll;
    } else if Lookup(argv[0]) == SetEx || Lookup(argv[0]) == PSetEx {
      LoggedSetEx(other, k, t, data, db, argv);
      hide Run, Logged, ReplayAll;
    } else if Lookup(argv[0]) == SPop {
      LoggedSPop(other, k, t, data, db, argv);
      hide Run, Logged, ReplayAll;
    } else {
      LoggedVerbatim(other, k, t, data, db, argv);
      assert Lookup(argv[0]) != Select;
      hide Run, Logged, RestartsTtl, RelativeExpire, ReplayAll, ReplayCmd, Lookup;
      ReplayRun(other, t, Replay(data, db), argv);
    }
  }

  /** The command, if it changes anything, is logged so that it has its live effect at every
      later time. */
  predicate Durable(other: Other, k: Moment, data: Dataset, db: nat, argv: Argv)
    requires db < |data| && argv != []
  {
    var o := Run(other, Live(k), data, db, argv);
    o.dirty ==> !RestartsTtl(argv) && (!RelativeExpire(o.argv) || k.feed == k.run)
  }

  /** On one empty DB. */
  lemma SetTen(other: Other, env: Env, argv: Argv, ten: bytes)
    requires |argv| == 5 && Lookup(argv[0]) == Set && ParseLL(ten) == Some(10)
    requires SetOptionsOf(argv) == SetOptions(false, false, Some((ten, true)))
    ensures Run(other, env, [map[]], 0, argv)
         == Outcome([map[argv[1] := Obj(Str(argv[2]), Some(env.run + 10000))]], true, argv)
  {
    SetIs(other, env, [map[]], 0, argv);
    hide Run, Lookup, ParseLL, SetOptionsOf;
    var o := Obj(Str(argv[2]), Some(env.run + 10000));
    assert Put([map[]], 0, argv[1], o) == [map[argv[1] := o]];
  }

  lemma RestoreTen(other: Other, env: Env, argv: Argv, v: Value)
    requires |argv| == 4 && Lookup(argv[0]) == Restore && ParseLL(argv[2]) == Some(10000) && other.decode(argv[3]) == Some(v)
    ensures Run(other, env, [map[]], 0, argv) == Outcome([map[argv[1] := Obj(v, Some(env.run + 10000))]], true, argv)
  {
    RestoreIs(other, env, [map[]], 0, argv);
    hide Run, Lookup, ParseLL;
    var o := Obj(v, Some(env.run + 10000));
    assert Put([map[]], 0, argv[1], o) == [map[argv[1] := o]];
  }

  /** SET k v EX 10 at time 0, reloaded at time 1: the key lives a millisecond longer than it should. */
  lemma SetWithTtlDrifts(other: Other, k: bytes, v: bytes)
    ensures var argv := [SET, k, v, EX, [49, 48]];
      var o := Run(other, Live(Moment(0, 0, 0, [])), [map[]], 0, argv);
      && o.data == [map[k := Obj(Str(v), Some(10000))]] && Logged(0, o.argv) == [argv]
      && ReplayAll(other, 1, Replay([map[]], 0), [argv]).data == [map[k := Obj(Str(v), Some(10001))]]
  {
    var ten: bytes := [49, 48];
    var argv: Argv := [SET, k, v, EX, ten];
    SetName();
    TenSeconds(argv);
    hide ParseLL, SetOptionsOf, Lookup, Upper;
    assert Logged(0, argv) == [argv];
    SetTen(other, Live(Moment(0, 0, 0, [])), argv, ten);
    SetTen(other, Loading(1), argv, ten);
    ReplayRun(other, 1, Replay([map[]], 0), argv);
    hide Run, ReplayCmd, ReplayAll, Logged;
  }

  /** RESTORE k 10000 payload at time 0, reloaded at time 1: the same. */
  lemma RestoreDrifts(other: Other, k: bytes, payload: bytes, v: Value)
    requires other.decode(payload) == Some(v)
    ensures var argv := [RESTORE, k, Print(10000), payload];
      var o := Run(other, Live(Moment(0, 0, 0, [])), [map[]], 0, argv);
      && o.data == [map[k := Obj(v, Some(10000))]] && Logged(0, o.argv) == [argv] && !SetWithTtl(argv) && !RelativeExpire(argv)
      && ReplayAll(other, 1, Replay([map[]], 0), [argv]).data == [map[k := Obj(v, Some(10001))]]
  {
    var argv: Argv := [RESTORE, k, Print(10000), payload];
    assert Lookup(RESTORE) == Restore by { assert Upper(RESTORE) == RESTORE; }
    ParsePrinted(10000);
    hide ParseLL, Lookup, Print, Upper;
    assert Logged(0, argv) == [argv] && !SetWithTtl(argv) && !RelativeExpire(argv);
    RestoreTen(other, Live(Moment(0, 0, 0, [])), argv, v);
    RestoreTen(other, Loading(1), argv, v);
    ReplayRun(other, 1, Replay([map[]], 0), argv);
    hide Run, ReplayCmd, ReplayAll, Logged, SetWithTtl, RelativeExpire;
  }

  /** SETEX k 10 v run at time 0 and logged at time 1: the log, whenever it is loaded, gives the
      key a millisecond more than it has. */
  lemma RelativeExpireDrifts(other: Other, k: bytes, v: bytes, t: int)
    ensures var argv := [SETEX, k, [49, 48], v];
      var o := Run(other, Live(Moment(0, 0, 1, [])), [map[]], 0, argv);
      && o.data == [map[k := Obj(Str(v), Some(10000))]] && o.argv == argv && !SetWithTtl(argv)
      && ReplayAll(other, t, Replay([map[]], 0), Logged(1, argv)).data == [map[k := Obj(Str(v), Some(10001))]]
  {
    var argv: Argv := [SETEX, k, [49, 48], v];
    SetExName();
    TenParsed();
    assert TimeFits(1, argv) && AbsoluteTime(SetEx, 1, [49, 48]) == 10001 && !SetWithTtl(argv) by { hide ParseLL, Lookup; }
    hide *;
    SetExTen(other, Live(Moment(0, 0, 1, [])), argv);
    SetExFed(1, argv);
    SetThenExpire(other, t, k, v, 10001);
  }

  lemma SetName()
    ensures Lookup(SET) == Set
  {
    Names();
  }

  lemma SetExTen(other: Other, env: Env, argv: Argv)
    requires |argv| == 4 && Lookup(argv[0]) == SetEx && ParseLL(argv[2]) == Some(10)
    ensures Run(other, env, [map[]], 0, argv)
         == Outcome([map[argv[1] := Obj(Str(argv[3]), Some(env.run + 10000))]], true, argv)
  {
    SetExIs(other, env, [map[]], 0, argv);
    hide Run, Lookup, ParseLL;
    var o := Obj(Str(argv[3]), Some(env.run + 10000));
    assert Put([map[]], 0, argv[1], o) == [map[argv[1] := o]];
  }

  /** A SET and then a PEXPIREAT, on one empty DB. */
  lemma SetThenExpire(other: Other, t: int, k: bytes, v: bytes, when: int)
    requires InLL(when)
    ensures ReplayAll(other, t, Replay([map[]], 0), [[SET, k, v], PExpireAtCmd(k, when)]).data == [map[k := Obj(Str(v), Some(when))]]
  {
    var none, r := Obj(Str(v), None), Replay([map[]], 0);
    assert Put([map[]], 0, k, none) == [map[k := none]];
    assert map[k := none][k := none.(expire := Some(when))] == map[k := none.(expire := Some(when))];
    assert Put([map[k := none]], 0, k, none.(expire := Some(when))) == [map[k := none.(expire := Some(when))]];
    hide *;
    ReplayTwo(other, t, r, [SET, k, v], PExpireAtCmd(k, when));
    ReplayPlainSet(other, t, r, k, v);
    ReplayPExpireAt(other, t, Replay([map[k := none]], 0), k, when);
  }

  lemma SetExName()
    ensures Lookup(SETEX) == SetEx && SETEX != SET
  {
    assert Upper(SETEX) == SETEX;
  }

  lemma TenSeconds(argv: Argv)
    requires |argv| == 5 && argv[3] == EX && argv[4] == [49, 48]
    ensures ParseLL([49, 48]) == Some(10) && SetOptionsOf(argv) == SetOptions(false, false, Some(([49, 48], true)))
  {
    TenParsed();
    var args: Argv, ten: bytes := [EX, [49, 48]], [49, 48];
    assert argv[3..] == args && args[2..] == [];
    CStringId(EX);
    assert Upper(EX) == EX;
    hide ParseLL, CString, Upper;
    var o := SetOptions(false, false, Some((ten, true)));
    assert ParseSetOptions([], o) == o;
  }

  lemma TenParsed()
    ensures ParseLL([49, 48]) == Some(10)
  {
    var ten: bytes := [49, 48];
    CStringId(ten);
    assert ten[..1] == [49] && ten[..1][..0] == [];
    assert Decimal.Value(ten[..1]) == 1 && Decimal.Value(ten) == 10;
  }
}
