/**
 The service as a transition system: flag sessions over the store, mutators that notify the
 cache after their commit, evaluation and ruleset calls that read the cache and rebuild it,
 one Redis. Any number of each may be under way; every step is one database statement, one
 Redis command or one Redis transaction. The two commands of read_flag, which share a pipeline
 but no transaction, are one step too.
 */
module Protocol {
  import opened Wrappers
  import opened Models
  import opened Payload
  import opened Redis
  import Store

  // ---- Processes ---------------------------------------------------------------------------------

  datatype MutatorPc = ToIncr | ToWrite | ToCheckTtl | ToExpire | ToPublish | Finished

  /** A handler after its commit. `index` is the place of that commit in the flag's history. */
  datatype Mutator = Mutator(key: string, index: nat, after: Option<Flag>, pc: MutatorPc)

  datatype Kind = EvaluateCall(key: string) | RulesetCall

  datatype Answer = FlagView(entry: Option<Entry>) | RulesetView(entries: map<string, Entry>)

  datatype CallPc =
    | ToReadCache
    | ToReadEpoch
    | ToReadRows
    | ToReadRules
    | ToReadVariants
    | ToWatch
    | ToCompare
    | ToExec
    | ToWriteUnfenced
    | Answered(answer: Answer)
    | Aborted

  /** A call to /evaluate or /ruleset, with the snapshot it has read so far. */
  datatype Call = Call(
    kind: Kind,
    pc: CallPc,
    epoch: Option<nat>,
    watched: nat,
    rows: map<string, Row>,
    rules: map<string, seq<RuleRow>>,
    variants: map<string, seq<VariantRow>>)

  /** A published change, with the place of its commit in the flag's history. */
  datatype Event = Event(key: string, index: nat)

  /**
   `history` holds every value each flag has had, the current one last; it, `landed`,
   `misses` and `expireLost` only record the run. `landed` is the place of the last commit
   whose field write reached Redis, `misses` counts the notifies lost since then.
   */
  datatype State = State(
    store: Store.State,
    redis: Server,
    mutators: map<nat, Mutator>,
    calls: map<nat, Call>,
    channel: seq<Event>,
    history: map<string, seq<Option<Flag>>>,
    landed: map<string, nat>,
    misses: map<string, nat>,
    expireLost: bool)

  const INITIAL := State(Store.EMPTY, Server(None, 0, map[], None), map[], map[], [], map[], map[], map[], false)

  function Hist(s: State, key: string): seq<Option<Flag>> {
    if key in s.history then s.history[key] else [None]
  }

  function Landed(s: State, key: string): nat {
    if key in s.landed then s.landed[key] else 0
  }

  function Misses(s: State, key: string): nat {
    if key in s.misses then s.misses[key] else 0
  }

  /** The flag in the database now. */
  function Current(s: State, key: string): Option<Flag> {
    Lookup(s.store.flags, key)
  }

  /** Between its commit and its field write. */
  predicate Pending(m: Mutator) {
    m.pc.ToIncr? || m.pc.ToWrite?
  }

  predicate HasPending(s: State, key: string) {
    exists m :: m in s.mutators && s.mutators[m].key == key && Pending(s.mutators[m])
  }

  // ---- Snapshots ---------------------------------------------------------------------------------

  function RulesFor(call: Call, key: string): seq<RuleRow> {
    if key in call.rules then call.rules[key] else []
  }

  function VariantsFor(call: Call, key: string): seq<VariantRow> {
    if key in call.variants then call.variants[key] else []
  }

  /** {flag.key: flag_payload(flag)} over what the three queries returned. */
  function Mapping(call: Call): map<string, Entry> {
    map k | k in call.rows :: FlagPayload(Flag(call.rows[k], RulesFor(call, k), VariantsFor(call, k)))
  }

  /** The child rows a follow-up query finds for a flag row read earlier: it asks by row id. */
  function ChildRules(flags: map<string, Flag>, row: Row): seq<RuleRow> {
    if row.key in flags && flags[row.key].row.id == row.id then flags[row.key].rules else []
  }

  function ChildVariants(flags: map<string, Flag>, row: Row): seq<VariantRow> {
    if row.key in flags && flags[row.key].row.id == row.id then flags[row.key].variants else []
  }

  // ---- A notify, command by command --------------------------------------------------------------

  datatype MutatorMove = IncrEpoch | WriteField | CheckTtl | SetTtl | Publish | NotifyFails

  predicate CanNotify(mut: Mutator, move: MutatorMove) {
    match move
    case IncrEpoch => mut.pc == ToIncr
    case WriteField => mut.pc == ToWrite
    case CheckTtl => mut.pc == ToCheckTtl
    case SetTtl => mut.pc == ToExpire
    case Publish => mut.pc == ToPublish
    case NotifyFails => mut.pc != Finished
  }

  /** Any exception ends the notify: what it has not done yet is never done. */
  function PcAfter(server: Server, mut: Mutator, move: MutatorMove): MutatorPc {
    match move
    case IncrEpoch => ToWrite
    case WriteField => if mut.after.Some? then ToCheckTtl else ToPublish
    case CheckTtl => if Ttl(server) < 0 then ToExpire else ToPublish
    case SetTtl => ToPublish
    case Publish => Finished
    case NotifyFails => Finished
  }

  function NotifyServer(server: Server, mut: Mutator, move: MutatorMove): Server {
    match move
    case IncrEpoch => Incr(server)
    case WriteField =>
      if mut.after.Some? then HSet(server, mut.key, Json(FlagPayload(mut.after.value))) else HDel(server, mut.key)
    case SetTtl => Expire(server, RULESET_TTL_SECONDS)
    case _ => server
  }

  // ---- A call, command by command ----------------------------------------------------------------

  datatype CallMove =
    | ReadCache
    | ReadCacheFails
    | ReadEpoch
    | ReadEpochFails
    | ReadRows
    | ReadRules(loaded: map<string, seq<RuleRow>>)
    | ReadVariants
    | Watch
    | Compare
    | Exec
    | WriteFails
    | WriteUnfenced

  predicate Publishing(pc: CallPc) {
    pc.ToWatch? || pc.ToCompare? || pc.ToExec? || pc.ToWriteUnfenced?
  }

  /** What the program text allows a call to do next. */
  ghost predicate CanCall(flags: map<string, Flag>, call: Call, move: CallMove) {
    match move
    case ReadCache => call.pc == ToReadCache
    case ReadCacheFails => call.pc == ToReadCache
    case ReadEpoch => call.pc == ToReadEpoch
    case ReadEpochFails => call.pc == ToReadEpoch
    case ReadRows => call.pc == ToReadRows
    case ReadRules(loaded) =>
      && call.pc == ToReadRules
      && loaded.Keys == call.rows.Keys
      && forall k :: k in loaded ==> Reloaded(ChildRules(flags, call.rows[k]), loaded[k])
    case ReadVariants => call.pc == ToReadVariants
    case Watch => call.pc == ToWatch
    case Compare => call.pc == ToCompare
    case Exec => call.pc == ToExec
    case WriteFails => Publishing(call.pc)
    case WriteUnfenced => call.pc == ToWriteUnfenced
  }

  /** The answer a call gives from the mapping it built. */
  function FromMapping(call: Call): Call {
    call.(pc := Answered(match call.kind
                         case EvaluateCall(key) => FlagView(Lookup(Mapping(call), key))
                         case RulesetCall => RulesetView(Mapping(call))))
  }

  function Entries(cells: map<string, Cell>): map<string, Entry> {
    map k | k in cells && cells[k].Json? :: cells[k].entry
  }

  /** A hit that is no flag's JSON cannot be decoded; the marker's own field is the one case. */
  function FromCache(server: Server, call: Call): CallPc {
    match call.kind
    case EvaluateCall(key) =>
      (match FlagAnswer(server, key)
       case Hit(cell) => if cell.Json? then Answered(FlagView(Some(cell.entry))) else Aborted
       case KnownAbsent => Answered(FlagView(None))
       case Cold => ToReadEpoch)
    case RulesetCall =>
      (match RulesetAnswer(server)
       case Some(cells) => Answered(RulesetView(Entries(cells)))
       case None => ToReadEpoch)
  }

  /** /evaluate carries on without the cache; /ruleset lets the exception through. */
  function OnRedisFailure(call: Call, next: Call): Call {
    if call.kind.EvaluateCall? then next else call.(pc := Aborted)
  }

  function CallAfter(flags: map<string, Flag>, server: Server, call: Call, move: CallMove): Call {
    match move
    case ReadCache => call.(pc := FromCache(server, call))
    case ReadCacheFails => OnRedisFailure(call, call.(pc := ToReadEpoch))
    case ReadEpoch => call.(pc := ToReadRows, epoch := Some(EpochOrZero(server)))
    case ReadEpochFails => OnRedisFailure(call, call.(pc := ToReadRows))
    case ReadRows => call.(pc := ToReadRules, rows := map k | k in flags :: flags[k].row)
    case ReadRules(loaded) => call.(pc := ToReadVariants, rules := loaded)
    case ReadVariants =>
      call.(pc := if call.epoch.Some? then ToWatch else ToWriteUnfenced,
            variants := map k | k in call.rows :: InKeyOrder(ChildVariants(flags, call.rows[k])))
    case Watch => call.(pc := ToCompare, watched := server.touched)
    case Compare => if call.epoch == Some(EpochOrZero(server)) then call.(pc := ToExec) else FromMapping(call)
    case Exec => FromMapping(call)
    case WriteFails => OnRedisFailure(call, FromMapping(call))
    case WriteUnfenced => FromMapping(call)
  }

  function CallServer(server: Server, call: Call, move: CallMove): Server {
    match move
    case Exec => if server.touched == call.watched then Replace(server, Mapping(call)) else server
    case WriteUnfenced => Replace(server, Mapping(call))
    case _ => server
  }

  // ---- Steps of the whole system -----------------------------------------------------------------

  datatype Step =
    | StoreStep(step: Store.Step)
    | Commit(m: nat, step: Store.Step)
    | Notify(m: nat, move: MutatorMove)
    | Begin(c: nat, kind: Kind)
    | Go(c: nat, call: CallMove)
    | Second
    | Evict
    | Flush

  /** What the program text allows next. */
  ghost predicate Possible(s: State, step: Step) {
    match step
    case StoreStep(st) => !Store.Do(s.store, st).1.Done?
    case Commit(m, st) => Store.Do(s.store, st).1.Done? && m !in s.mutators
    case Notify(m, move) => m in s.mutators && CanNotify(s.mutators[m], move)
    case Begin(c, kind) => c !in s.calls
    case Go(c, move) => c in s.calls && CanCall(s.store.flags, s.calls[c], move)
    case Second => true
    case Evict => true
    case Flush => true
  }

  /**
   What the code relies on. A commit of a flag does not overlap a notify of the same flag that
   has yet to write its field; rules are submitted by strictly increasing priority; the
   marker's name is not evaluated; a call whose epoch read failed does not then succeed in
   publishing; the epoch counter is never reset.
   */
  ghost predicate Assumed(s: State, step: Step) {
    match step
    case Commit(_, st) =>
      var (store', outcome) := Store.Do(s.store, st);
      outcome.Done? ==>
        && !HasPending(s, outcome.key)
        && (outcome.key in store'.flags ==> StrictlyByPriority(store'.flags[outcome.key].rules))
    case Begin(_, kind) => kind.EvaluateCall? ==> kind.key != COMPLETE_FIELD
    case Go(_, move) => !move.WriteUnfenced?
    case Flush => false
    case _ => true
  }

  ghost predicate Enabled(s: State, step: Step) {
    Possible(s, step) && Assumed(s, step)
  }

  /** The handler's commit: a new value in the flag's history, and a notify that owes a field write. */
  function AfterCommit(s: State, m: nat, store': Store.State, key: string): State {
    var after := Lookup(store'.flags, key);
    s.(store := store',
       history := s.history[key := Hist(s, key) + [after]],
       mutators := s.mutators[m := Mutator(key, |Hist(s, key)|, after, ToIncr)])
  }

  function AfterNotify(s: State, m: nat, move: MutatorMove): State
    requires m in s.mutators
  {
    var mut := s.mutators[m];
    s.(redis := NotifyServer(s.redis, mut, move),
       mutators := s.mutators[m := mut.(pc := PcAfter(s.redis, mut, move))],
       channel := if move.Publish? then s.channel + [Event(mut.key, mut.index)] else s.channel,
       landed := if move.WriteField? then s.landed[mut.key := mut.index] else s.landed,
       misses := if move.WriteField? then s.misses[mut.key := 0]
                 else if move.NotifyFails? && Pending(mut) then s.misses[mut.key := Misses(s, mut.key) + 1]
                 else s.misses,
       expireLost := s.expireLost || (move.NotifyFails? && (mut.pc.ToCheckTtl? || mut.pc.ToExpire?)))
  }

  function AfterCall(s: State, c: nat, move: CallMove): State
    requires c in s.calls
  {
    var call := s.calls[c];
    s.(redis := CallServer(s.redis, call, move),
       calls := s.calls[c := CallAfter(s.store.flags, s.redis, call, move)])
  }

  function NewCall(kind: Kind): Call {
    Call(kind, ToReadCache, None, 0, map[], map[], map[])
  }

  function Effect(s: State, step: Step): State
    requires Possible(s, step)
  {
    match step
    case StoreStep(st) => s.(store := Store.Do(s.store, st).0)
    case Commit(m, st) => AfterCommit(s, m, Store.Do(s.store, st).0, Store.Do(s.store, st).1.key)
    case Notify(m, move) => AfterNotify(s, m, move)
    case Begin(c, kind) => s.(calls := s.calls[c := NewCall(kind)])
    case Go(c, move) => AfterCall(s, c, move)
    case Second => s.(redis := Tick(s.redis))
    case Evict => s.(redis := Del(s.redis))
    case Flush => s.(redis := Del(s.redis).(epoch := None, touched := s.redis.touched + 1))
  }

  // ---- Runs --------------------------------------------------------------------------------------

  /** The state after a run; a step that the program text does not allow changes nothing. */
  ghost function After(run: seq<Step>): State {
    if run == [] then INITIAL
    else
      var s := After(run[..|run| - 1]);
      if Possible(s, run[|run| - 1]) then Effect(s, run[|run| - 1]) else s
  }

  ghost predicate ValidRun(run: seq<Step>) {
    run == [] || (ValidRun(run[..|run| - 1]) && Enabled(After(run[..|run| - 1]), run[|run| - 1]))
  }
}
