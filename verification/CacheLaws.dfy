/** What the cache promises over whole runs of the service. */
module CacheLaws {
  import opened Wrappers
  import opened Ordering
  import opened Engine
  import opened Models
  import opened Payload
  import opened Redis
  import opened Protocol
  import opened Freshness
  import opened FreshnessKept
  import opened Reachable
  import Store
  import StoreLaws

  // ---- Views and evaluations -----------------------------------------------------------------------

  /** What /evaluate answers from a view of the flag. */
  function EvaluateView(md5: Digest, view: Option<Entry>, userId: string, context: Context): Evaluation {
    match view
    case None => Evaluation(false, "flag_not_found", None, Null)
    case Some(entry) => Evaluate(md5, SpecFromPayload(entry), userId, context)
  }

  /** What the database path answers for a stored flag. */
  function EvaluateStored(md5: Digest, flag: Option<Flag>, userId: string, context: Context): Evaluation {
    match flag
    case None => Evaluation(false, "flag_not_found", None, Null)
    case Some(f) => Evaluate(md5, ToSpec(f), userId, context)
  }

  lemma ViewOfWhole(h: History, v: Option<Entry>, i: nat)
    requires i < |h| && ViewAt(h, v, i, i, i)
    ensures v == ViewOf(h[i])
  {
    if h[i].Some? {
      AssembleWhole(h[i].value);
    }
  }

  /** A view that can be no older than the newest commit is that commit. */
  lemma NewestView(h: History, v: Option<Entry>)
    requires |h| > 0 && ViewFresh(h, |h| - 1, v)
    ensures v == ViewOf(h[|h| - 1])
  {
    var last := |h| - 1;
    var a: nat, b: nat, c: nat :| Since(h, last, a) && Since(h, a, b) && Since(h, b, c) && ViewAt(h, v, a, b, c);
    assert a == last && b == last && c == last;
    ViewOfWhole(h, v, last);
  }

  lemma ViewEvaluatesAsStored(md5: Digest, flag: Option<Flag>, userId: string, context: Context)
    requires flag.Some? ==> DistinctKeys(flag.value.variants, RowKey)
    ensures EvaluateView(md5, ViewOf(flag), userId, context) == EvaluateStored(md5, flag, userId, context)
  {
    if flag.Some? {
      PayloadKeepsMeaning(md5, flag.value, userId, context);
    }
  }

  // ---- Coherence -----------------------------------------------------------------------------------

  /** No notify of the flag is under way before its field write, and none has been lost. */
  ghost predicate Settled(s: State, key: string) {
    !HasPending(s, key) && Misses(s, key) == 0
  }

  /** How many commits the cached answer may be behind. */
  ghost function Lag(s: State, key: string): nat {
    Misses(s, key) + (if HasPending(s, key) then 1 else 0)
  }

  lemma SettledIsFresh(s: State, key: string)
    requires Inv(s) && key != COMPLETE_FIELD
    ensures Lag(s, key) < |Hist(s, key)| && Fresh(s, key, |Hist(s, key)| - 1 - Lag(s, key))
  {
    assert AgesOk(s, key);
  }

  /** A field no older than the newest commit is the flag as it is, or not there. */
  lemma NewestField(h: History, server: Server, key: string)
    requires |h| > 0 && FieldFresh(h, |h| - 1, server, key)
    ensures match FlagAnswer(server, key)
            case Hit(cell) => h[|h| - 1].Some? && cell == Json(FlagPayload(h[|h| - 1].value))
            case KnownAbsent => h[|h| - 1].None?
            case Cold => true
  {
    match FlagAnswer(server, key)
    case Hit(cell) => NewestView(h, Some(cell.entry));
    case KnownAbsent => NewestView(h, None);
    case Cold =>
  }

  /**
   The cached answer is at most its lag behind: exactly the database when the flag is settled,
   one commit at most when a notify is under way and none was lost.
   */
  ghost predicate Coherent(s: State, key: string) {
    var h := Hist(s, key);
    && Lag(s, key) < |h| && h[|h| - 1] == Current(s, key)
    && FieldFresh(h, |h| - 1 - Lag(s, key), s.redis, key)
    && (Settled(s, key) ==>
          match FlagAnswer(s.redis, key)
          case Hit(cell) => Current(s, key).Some? && cell == Json(FlagPayload(Current(s, key).value))
          case KnownAbsent => Current(s, key).None?
          case Cold => true)
  }

  lemma InvIsCoherent(s: State, key: string)
    requires Inv(s) && key != COMPLETE_FIELD
    ensures Coherent(s, key)
  {
    SettledIsFresh(s, key);
    StructureOf(s, 0, key);
    FreshWithinLagIsCoherent(s, key);
  }

  lemma FreshWithinLagIsCoherent(s: State, key: string)
    requires HistoryOk(Hist(s, key), key, Current(s, key)) && Lag(s, key) < |Hist(s, key)|
    requires FieldFresh(Hist(s, key), |Hist(s, key)| - 1 - Lag(s, key), s.redis, key)
    ensures Coherent(s, key)
  {
    if Settled(s, key) {
      NewestField(Hist(s, key), s.redis, key);
    }
  }

  /** Cache coherence, in every reachable state of any interleaving. */
  lemma Coherence(run: seq<Step>, key: string)
    requires ValidRun(run) && key != COMPLETE_FIELD
    ensures Coherent(After(run), key)
  {
    InvAlways(run);
    InvIsCoherent(After(run), key);
  }

  /** With every flag settled, a ruleset served from the cache is the whole database. */
  lemma CachedRulesetIsTheDatabase(run: seq<Step>)
    requires ValidRun(run) && RulesetAnswer(After(run).redis).Some?
    requires forall key :: key != COMPLETE_FIELD ==> Settled(After(run), key)
    ensures
      var s := After(run);
      Entries(RulesetAnswer(s.redis).value) == map k | k in s.store.flags :: FlagPayload(s.store.flags[k])
  {
    InvAlways(run);
    SettledRuleset(After(run));
  }

  lemma SettledRuleset(s: State)
    requires Inv(s) && RulesetAnswer(s.redis).Some? && forall key :: key != COMPLETE_FIELD ==> Settled(s, key)
    ensures Entries(RulesetAnswer(s.redis).value) == map k | k in s.store.flags :: FlagPayload(s.store.flags[k])
  {
    var cached := Entries(RulesetAnswer(s.redis).value);
    forall k ensures k in cached <==> k in s.store.flags
             ensures k in cached ==> cached[k] == FlagPayload(s.store.flags[k])
    {
      if k != COMPLETE_FIELD {
        InvIsCoherent(s, k);
      } else {
        assert HistoryOk(Hist(s, k), k, Current(s, k));
        assert FlagOk(Hist(s, k)[|Hist(s, k)| - 1], k);
      }
    }
  }

  // ---- Following a run -----------------------------------------------------------------------------

  /** The run's prefix of length i, seen from a longer run. */
  lemma Prefix(run: seq<Step>, i: nat)
    requires ValidRun(run) && i < |run|
    ensures ValidRun(run[..|run| - 1]) && run[..|run| - 1][..i] == run[..i]
    ensures Enabled(After(run[..|run| - 1]), run[|run| - 1])
    ensures After(run) == Effect(After(run[..|run| - 1]), run[|run| - 1])
  {
  }

  lemma {:induction false} PrefixIsValid(run: seq<Step>, i: nat)
    requires ValidRun(run) && i <= |run|
    ensures ValidRun(run[..i])
  {
    if i < |run| {
      Prefix(run, i);
      PrefixIsValid(run[..|run| - 1], i);
    } else {
      assert run[..i] == run;
    }
  }

  /** Once fresh, fresh to the end of the run. */
  lemma {:induction false} FreshToTheEnd(run: seq<Step>, i: nat, key: string, n: nat)
    requires ValidRun(run) && i <= |run| && key != COMPLETE_FIELD && Fresh(After(run[..i]), key, n)
    ensures Fresh(After(run), key, n)
  {
    if i < |run| {
      Prefix(run, i);
      FreshToTheEnd(run[..|run| - 1], i, key, n);
      InvAlways(run[..|run| - 1]);
      FreshKept(After(run[..|run| - 1]), run[|run| - 1], key, n);
    } else {
      assert run[..i] == run;
    }
  }

  /** The call has not looked at the cache yet. */
  predicate YetToRead(s: State, c: nat) {
    c in s.calls ==> s.calls[c].pc.ToReadCache?
  }

  /** The flag as an answer shows it. */
  predicate Shows(call: Call, key: string) {
    call.pc.Answered? && (call.pc.answer.FlagView? ==> call.kind == EvaluateCall(key))
  }

  function Shown(call: Call, key: string): Option<Entry>
    requires Shows(call, key)
  {
    match call.pc.answer
    case FlagView(view) => view
    case RulesetView(entries) => Lookup(entries, key)
  }

  /** Whatever a call has read or answered about the flag is fresh. */
  ghost predicate ViewSoFar(h: History, n: nat, call: Call, key: string) {
    CallFresh(h, n, call, key) && (Shows(call, key) ==> ViewFresh(h, n, Shown(call, key)))
  }

  ghost predicate CallViewFresh(s: State, c: nat, key: string, n: nat) {
    c in s.calls ==> ViewSoFar(Hist(s, key), n, s.calls[c], key)
  }

  lemma RulesetShows(server: Server, key: string)
    requires RulesetAnswer(server).Some? && key != COMPLETE_FIELD
    requires key in server.hash ==> server.hash[key].Json?
    ensures Lookup(Entries(RulesetAnswer(server).value), key)
         == if key in server.hash then Some(server.hash[key].entry) else None
  {
  }

  lemma CacheShows(server: Server, call: Call, h: History, key: string, n: nat)
    requires FieldFresh(h, n, server, key) && key != COMPLETE_FIELD && call.pc.ToReadCache?
    ensures ViewSoFar(h, n, call.(pc := FromCache(server, call)), key)
  {
    if call.kind.RulesetCall? && RulesetAnswer(server).Some? {
      RulesetShows(server, key);
    }
  }

  /** An answer from the mapping shows the mapping. */
  lemma MappingShows(call: Call, key: string)
    ensures !HasRows(FromMapping(call).pc)
    ensures Shows(FromMapping(call), key) ==> Shown(FromMapping(call), key) == Lookup(Mapping(call), key)
  {
  }

  predicate ReadsSomething(move: CallMove) {
    move.ReadCache? || move.ReadRows? || move.ReadRules? || move.ReadVariants?
  }

  /** A move that reads nothing either answers from the mapping or leaves the snapshot as it was. */
  lemma QuietMove(flags: map<string, Flag>, server: Server, call: Call, move: CallMove)
    requires CanCall(flags, call, move) && !ReadsSomething(move)
    ensures
      var call' := CallAfter(flags, server, call, move);
      || (Publishing(call.pc) && call' == FromMapping(call))
      || (&& call'.rows == call.rows && call'.rules == call.rules && call'.variants == call.variants
          && call'.kind == call.kind && !call'.pc.Answered?
          && (HasRows(call'.pc) ==> Publishing(call'.pc) && Publishing(call.pc)))
  {
  }

  lemma QuietMoveKeepsView(flags: map<string, Flag>, server: Server, call: Call, move: CallMove, h: History,
                           key: string, n: nat)
    requires CanCall(flags, call, move) && !ReadsSomething(move) && ViewSoFar(h, n, call, key)
    ensures ViewSoFar(h, n, CallAfter(flags, server, call, move), key)
  {
    QuietMove(flags, server, call, move);
    if Publishing(call.pc) {
      AnswerKeepsView(call, h, key, n);
    }
  }

  lemma AnswerKeepsView(call: Call, h: History, key: string, n: nat)
    requires Publishing(call.pc) && CallFresh(h, n, call, key)
    ensures ViewSoFar(h, n, FromMapping(call), key)
  {
    MappingIsFresh(h, n, call, key);
    MappingShows(call, key);
  }

  lemma QueryShowsNothing(flags: map<string, Flag>, server: Server, call: Call, move: CallMove)
    requires CanCall(flags, call, move) && ReadsDatabase(move)
    ensures !CallAfter(flags, server, call, move).pc.Answered?
  {
  }

  lemma MoveKeepsView(flags: map<string, Flag>, server: Server, call: Call, move: CallMove, h: History, key: string,
                      n: nat)
    requires CanCall(flags, call, move) && CallOk(server, call)
    requires HistoryOk(h, key, Lookup(flags, key)) && n < |h| && key != COMPLETE_FIELD
    requires FieldFresh(h, n, server, key) && ViewSoFar(h, n, call, key)
    ensures ViewSoFar(h, n, CallAfter(flags, server, call, move), key)
  {
    if move.ReadCache? {
      CacheShows(server, call, h, key, n);
    } else if ReadsSomething(move) {
      SnapshotIsFresh(flags, server, call, move, h, key, n);
      QueryShowsNothing(flags, server, call, move);
    } else {
      QuietMoveKeepsView(flags, server, call, move, h, key, n);
    }
  }

  lemma OthersKeepView(s: State, s': State, c: nat, key: string, n: nat)
    requires CallViewFresh(s, c, key, n) && Hist(s, key) <= Hist(s', key)
    requires c in s'.calls ==> c in s.calls && s'.calls[c] == s.calls[c]
    ensures CallViewFresh(s', c, key, n)
  {
    if c in s'.calls {
      CallGrows(Hist(s, key), Hist(s', key), n, s.calls[c], key);
      if Shows(s.calls[c], key) {
        ViewGrows(Hist(s, key), Hist(s', key), n, Shown(s.calls[c], key));
      }
    }
  }

  lemma GoKeepsView(s: State, i: nat, move: CallMove, c: nat, key: string, n: nat)
    requires HistoryOk(Hist(s, key), key, Current(s, key)) && (c in s.calls ==> CallOk(s.redis, s.calls[c]))
    requires i in s.calls && CanCall(s.store.flags, s.calls[i], move)
    requires Fresh(s, key, n) && key != COMPLETE_FIELD && CallViewFresh(s, c, key, n)
    ensures CallViewFresh(AfterCall(s, i, move), c, key, n)
  {
    if i == c {
      MoveKeepsView(s.store.flags, s.redis, s.calls[c], move, Hist(s, key), key, n);
    } else {
      OthersKeepView(s, AfterCall(s, i, move), c, key, n);
    }
  }

  lemma CommitKeepsView(s: State, m: nat, store': Store.State, committed: string, c: nat, key: string, n: nat)
    requires CallViewFresh(s, c, key, n)
    ensures CallViewFresh(AfterCommit(s, m, store', committed), c, key, n)
  {
    OthersKeepView(s, AfterCommit(s, m, store', committed), c, key, n);
  }

  lemma BeginKeepsView(s: State, i: nat, kind: Kind, c: nat, key: string, n: nat)
    requires CallViewFresh(s, c, key, n)
    ensures CallViewFresh(s.(calls := s.calls[i := NewCall(kind)]), c, key, n)
  {
    if i != c {
      OthersKeepView(s, s.(calls := s.calls[i := NewCall(kind)]), c, key, n);
    }
  }

  /** Steps that are neither a call's nor a commit leave calls and histories alone. */
  lemma CallsElsewhere(s: State, step: Step)
    requires Possible(s, step) && (step.Notify? || step.StoreStep? || step.Second? || step.Evict?)
    ensures Effect(s, step).calls == s.calls && Effect(s, step).history == s.history
  {
  }

  lemma StepKeepsView(s: State, step: Step, c: nat, key: string, n: nat)
    requires HistoryOk(Hist(s, key), key, Current(s, key)) && (c in s.calls ==> CallOk(s.redis, s.calls[c]))
    requires Enabled(s, step) && Fresh(s, key, n) && key != COMPLETE_FIELD && CallViewFresh(s, c, key, n)
    ensures CallViewFresh(Effect(s, step), c, key, n)
  {
    match step
    case Go(i, move) => GoKeepsView(s, i, move, c, key, n);
    case Commit(m, st) =>
      CommitKeepsView(s, m, Store.Do(s.store, st).0, Store.Do(s.store, st).1.key, c, key, n);
    case Begin(i, kind) => BeginKeepsView(s, i, kind, c, key, n);
    case Flush =>
    case _ =>
      CallsElsewhere(s, step);
      OthersKeepView(s, Effect(s, step), c, key, n);
  }

  lemma StructureOf(s: State, c: nat, key: string)
    requires Structure(s)
    ensures HistoryOk(Hist(s, key), key, Current(s, key)) && (c in s.calls ==> CallOk(s.redis, s.calls[c]))
  {
  }

  lemma FactsOfCall(run: seq<Step>, c: nat, key: string)
    requires ValidRun(run)
    ensures HistoryOk(Hist(After(run), key), key, Current(After(run), key))
    ensures c in After(run).calls ==> CallOk(After(run).redis, After(run).calls[c])
  {
    InvAlways(run);
    StructureOf(After(run), c, key);
  }

  /**
   A call that looks at the cache in a state fresh for n answers with a view fresh for n,
   whatever happens meanwhile: hit or cold, expiry, failed reads, other rebuilds.
   */
  lemma {:induction false} AnswersAreFresh(run: seq<Step>, i: nat, c: nat, key: string, n: nat)
    requires ValidRun(run) && i <= |run| && key != COMPLETE_FIELD
    requires Fresh(After(run[..i]), key, n) && YetToRead(After(run[..i]), c)
    ensures CallViewFresh(After(run), c, key, n)
  {
    if i < |run| {
      var before := run[..|run| - 1];
      Prefix(run, i);
      AnswersAreFresh(before, i, c, key, n);
      FreshToTheEnd(before, i, key, n);
      InvAlways(before);
      StructureOf(After(before), c, key);
      StepKeepsView(After(before), run[|run| - 1], c, key, n);
    } else {
      assert run[..i] == run;
    }
  }

  // ---- Commits of one flag -------------------------------------------------------------------------

  ghost predicate CommitsFlag(s: State, step: Step, key: string) {
    step.Commit? && Store.Do(s.store, step.step).1 == Store.Done(key)
  }

  /** No step from place i on commits the flag. */
  ghost predicate NoCommitFrom(run: seq<Step>, i: nat, key: string) {
    forall j :: i <= j < |run| ==> !CommitsFlag(After(run[..j]), run[j], key)
  }

  lemma HistoryWithoutCommit(s: State, step: Step, key: string)
    requires Possible(s, step) && !CommitsFlag(s, step, key)
    ensures Hist(Effect(s, step), key) == Hist(s, key)
  {
  }

  lemma {:induction false} HistoryStands(run: seq<Step>, i: nat, key: string)
    requires ValidRun(run) && i <= |run| && NoCommitFrom(run, i, key)
    ensures Hist(After(run), key) == Hist(After(run[..i]), key)
  {
    if i < |run| {
      var before := run[..|run| - 1];
      Prefix(run, i);
      forall j | i <= j < |before| ensures !CommitsFlag(After(before[..j]), before[j], key) {
        assert before[..j] == run[..j];
      }
      HistoryStands(before, i, key);
      assert run[..|run| - 1] == before;
      HistoryWithoutCommit(After(before), run[|run| - 1], key);
    } else {
      assert run[..i] == run;
    }
  }

  // ---- A change that has landed --------------------------------------------------------------------

  /** Step i of the run is the field write of a notify for the flag, or the removal of its field. */
  ghost predicate FieldLands(run: seq<Step>, i: nat, key: string) {
    && i < |run|
    && run[i].Notify? && run[i].move.WriteField? && run[i].m in After(run[..i]).mutators
    && After(run[..i]).mutators[run[i].m].key == key
  }

  /** The flag that step i brings to the cache, None for a deletion. */
  ghost function FlagLanded(run: seq<Step>, i: nat, key: string): Option<Flag>
    requires FieldLands(run, i, key)
  {
    After(run[..i]).mutators[run[i].m].after
  }

  lemma LandingIsFresh(run: seq<Step>, i: nat)
    requires ValidRun(run) && i < |run| && run[i].Notify? && run[i].move.WriteField?
    ensures run[i].m in After(run[..i]).mutators
    ensures
      var mut := After(run[..i]).mutators[run[i].m];
      var s' := After(run[..i + 1]);
      && mut.key != COMPLETE_FIELD
      && Fresh(s', mut.key, mut.index)
      && mut.index == |Hist(s', mut.key)| - 1 && Hist(s', mut.key)[mut.index] == mut.after
  {
    PrefixIsValid(run, i);
    PrefixIsValid(run, i + 1);
    assert run[..i + 1][..i] == run[..i];
    InvAlways(run[..i]);
    var s, m := After(run[..i]), run[i].m;
    assert Enabled(s, run[i]);
    assert MutatorFresh(s, s.mutators[m]);
    assert MutatorOk(Hist(s, s.mutators[m].key), s.mutators[m]);
    LandedIsFresh(s, m);
  }

  /**
   Once a change has landed, and until the flag is committed again, every call that looks at the cache
   afterwards sees exactly what the change left: the flag as changed, or no flag after a deletion.
   */
  lemma LandedView(run: seq<Step>, i: nat, c: nat, key: string)
    requires ValidRun(run) && FieldLands(run, i, key) && NoCommitFrom(run, i + 1, key)
    requires YetToRead(After(run[..i + 1]), c)
    requires c in After(run).calls && Shows(After(run).calls[c], key)
    ensures Shown(After(run).calls[c], key) == ViewOf(FlagLanded(run, i, key))
  {
    LandingIsFresh(run, i);
    var mut := After(run[..i]).mutators[run[i].m];
    AnswersAreFresh(run, i + 1, c, key, mut.index);
    HistoryStands(run, i + 1, key);
    NewestView(Hist(After(run), key), Shown(After(run).calls[c], key));
  }

  lemma DisabledEvaluation(flag: Flag)
    requires !flag.row.enabled
    ensures forall md5, userId, context ::
              var e := EvaluateView(md5, Some(FlagPayload(flag)), userId, context);
              e.reason == "flag_disabled" && !e.enabled
  {
  }

  /**
   The kill switch. Once the notify of a disabling change has written its field, and until the
   flag is committed again, every evaluation that looks at the cache afterwards is disabled,
   for every user and context.
   */
  lemma KillSwitch(run: seq<Step>, i: nat, c: nat, key: string)
    requires ValidRun(run) && FieldLands(run, i, key) && NoCommitFrom(run, i + 1, key)
    requires FlagLanded(run, i, key).Some? && !FlagLanded(run, i, key).value.row.enabled
    requires YetToRead(After(run[..i + 1]), c)
    requires c in After(run).calls && Shows(After(run).calls[c], key)
    ensures forall md5, userId, context ::
              var e := EvaluateView(md5, Shown(After(run).calls[c], key), userId, context);
              e.reason == "flag_disabled" && !e.enabled
  {
    LandedView(run, i, c, key);
    DisabledEvaluation(FlagLanded(run, i, key).value);
  }

  // ---- The cached path and the database path -------------------------------------------------------

  /**
   Every answer of a call that looked at the cache while the flag was settled is made of parts the
   flag had between that look and the answer, in the order they were read and in one life.
   */
  lemma AnswersAreFromDuringTheCall(run: seq<Step>, i: nat, c: nat, key: string)
    requires ValidRun(run) && i <= |run| && key != COMPLETE_FIELD
    requires Settled(After(run[..i]), key) && YetToRead(After(run[..i]), c)
    requires c in After(run).calls && Shows(After(run).calls[c], key)
    ensures |Hist(After(run[..i]), key)| > 0
    ensures ViewFresh(Hist(After(run), key), |Hist(After(run[..i]), key)| - 1, Shown(After(run).calls[c], key))
  {
    PrefixIsValid(run, i);
    InvAlways(run[..i]);
    SettledIsFresh(After(run[..i]), key);
    AnswersAreFresh(run, i, c, key, |Hist(After(run[..i]), key)| - 1);
  }

  lemma StoredVariantsDistinct(run: seq<Step>, key: string)
    requires ValidRun(run) && Current(After(run), key).Some?
    ensures ValidFlag(Current(After(run), key).value) && DistinctKeys(Current(After(run), key).value.variants, RowKey)
  {
    InvAlways(run);
    assert StoreLaws.FlagInPlace(After(run).store, key);
  }

  // ---- Change events -------------------------------------------------------------------------------

  /**
   A ruleset fetched after a change was published shows that change or a later one: publish
   follows the field write, and what a field write made fresh stays fresh.
   */
  lemma RulesetAfterEvent(run: seq<Step>, i: nat, c: nat, e: Event)
    requires ValidRun(run) && i <= |run| && e in After(run[..i]).channel && YetToRead(After(run[..i]), c)
    requires c in After(run).calls && Shows(After(run).calls[c], e.key)
    ensures ViewFresh(Hist(After(run), e.key), e.index, Shown(After(run).calls[c], e.key))
  {
    PrefixIsValid(run, i);
    InvAlways(run[..i]);
    AnswersAreFresh(run, i, c, e.key, e.index);
  }

  // ---- Expiry --------------------------------------------------------------------------------------

  ghost predicate NoNotifyFails(run: seq<Step>) {
    forall j :: 0 <= j < |run| ==> !(run[j].Notify? && run[j].move.NotifyFails?)
  }

  lemma {:induction false} NothingLost(run: seq<Step>)
    requires ValidRun(run) && NoNotifyFails(run)
    ensures !After(run).expireLost
  {
    if run != [] {
      NothingLost(run[..|run| - 1]);
    }
  }

  /**
   Expiry is never forgotten: a cached hash without a lifetime exists only while some notify is
   between its HSET and its EXPIRE, and no lifetime exceeds 300 seconds.
   */
  lemma ExpiryIsNeverForgotten(run: seq<Step>)
    requires ValidRun(run) && NoNotifyFails(run)
    ensures
      var s := After(run);
      && (s.redis.hash != map[] && s.redis.lifetime.None? ==> SomeoneSetsExpiry(s))
      && (s.redis.lifetime.Some? ==> s.redis.lifetime.value <= 300)
  {
    NothingLost(run);
    InvAlways(run);
  }
}
