/**
 Freshness is exact: a state is fresh for a commit if and only if no continuation answers with
 anything older. From it, exactly when a lost notify is healed, and exactly when 300 seconds
 heal it.
 */
module Healing {
  import opened Wrappers
  import opened Ordering
  import opened Models
  import opened Payload
  import opened Redis
  import opened Protocol
  import opened Freshness
  import opened FreshnessKept
  import opened Reachable
  import opened CacheLaws
  import Store

  // ---- Later answers -------------------------------------------------------------------------------

  ghost predicate AnswerShows(s: State, c: nat, key: string, n: nat) {
    c in s.calls && Shows(s.calls[c], key) ==> ViewFresh(Hist(s, key), n, Shown(s.calls[c], key))
  }

  /** After this continuation, this call, if it had yet to look at the cache, shows the flag at n or later. */
  ghost predicate LaterAnswerShows(run: seq<Step>, more: seq<Step>, c: nat, key: string, n: nat) {
    ValidRun(run + more) && YetToRead(After(run), c) ==> AnswerShows(After(run + more), c, key, n)
  }

  /** In every continuation, every call that has yet to look at the cache shows the flag at n or later. */
  ghost predicate LaterAnswersShow(run: seq<Step>, key: string, n: nat) {
    forall more, c :: LaterAnswerShows(run, more, c, key, n)
  }

  lemma FreshAnswersShow(run: seq<Step>, key: string, n: nat)
    requires ValidRun(run) && key != COMPLETE_FIELD && Fresh(After(run), key, n)
    ensures LaterAnswersShow(run, key, n)
  {
    forall more, c ensures LaterAnswerShows(run, more, c, key, n) {
      assert (run + more)[..|run|] == run;
      if ValidRun(run + more) && YetToRead(After(run), c) {
        AnswersAreFresh(run + more, |run|, c, key, n);
      }
    }
  }

  // ---- Extending a run -----------------------------------------------------------------------------

  lemma Extend(run: seq<Step>, step: Step) returns (longer: seq<Step>)
    requires ValidRun(run) && Enabled(After(run), step)
    ensures longer == run + [step] && ValidRun(longer) && After(longer) == Effect(After(run), step)
  {
    longer := run + [step];
    assert longer[..|longer| - 1] == run;
  }

  lemma ExtendCall(run: seq<Step>, c: nat, move: CallMove) returns (longer: seq<Step>)
    requires ValidRun(run) && c in After(run).calls && !move.WriteUnfenced?
    requires CanCall(After(run).store.flags, After(run).calls[c], move)
    ensures longer == run + [Go(c, move)] && ValidRun(longer) && After(longer) == AfterCall(After(run), c, move)
  {
    longer := Extend(run, Go(c, move));
  }

  /** The rebuild has come further: what it had read it still holds. */
  predicate ComeFurther(call: Call, call': Call) {
    && call'.rows == call.rows
    && (HasRules(call.pc) ==> call'.rules == call.rules)
    && (Publishing(call.pc) ==> call'.variants == call.variants)
  }

  // ---- A live rebuild can publish --------------------------------------------------------------------

  lemma OwnRulesReload(s: State, call: Call) returns (loaded: map<string, seq<RuleRow>>)
    requires Structure(s) && RowsUnderKeys(call.rows)
    ensures loaded.Keys == call.rows.Keys
    ensures forall k :: k in loaded ==> Reloaded(ChildRules(s.store.flags, call.rows[k]), loaded[k])
  {
    loaded := map k | k in call.rows :: ChildRules(s.store.flags, call.rows[k]);
    forall k | k in loaded ensures Reloaded(ChildRules(s.store.flags, call.rows[k]), loaded[k]) {
      assert HistoryOk(Hist(s, k), k, Current(s, k));
      ChildRulesStrict(s.store.flags, Hist(s, k), call.rows[k]);
    }
  }

  /** A live rebuild, one step on, that is still live. */
  ghost predicate RebuildStep(run: seq<Step>, longer: seq<Step>, c: nat, call: Call, call': Call) {
    && ValidRun(longer) && run <= longer
    && After(longer) == After(run).(calls := After(run).calls[c := call'])
    && ComeFurther(call, call') && call'.kind == call.kind && Live(After(longer).redis, call')
  }

  lemma OnToVariants(run: seq<Step>, c: nat) returns (longer: seq<Step>, call': Call)
    requires ValidRun(run) && c in After(run).calls
    requires After(run).calls[c].pc.ToReadRules? && Live(After(run).redis, After(run).calls[c])
    ensures RebuildStep(run, longer, c, After(run).calls[c], call') && call'.pc.ToReadVariants?
  {
    InvAlways(run);
    var s := After(run);
    assert CallOk(s.redis, s.calls[c]);
    var loaded := OwnRulesReload(s, s.calls[c]);
    longer := ExtendCall(run, c, ReadRules(loaded));
    call' := s.calls[c].(pc := ToReadVariants, rules := loaded);
  }

  lemma OnToWatch(run: seq<Step>, c: nat) returns (longer: seq<Step>, call': Call)
    requires ValidRun(run) && c in After(run).calls
    requires After(run).calls[c].pc.ToReadVariants? && Live(After(run).redis, After(run).calls[c])
    ensures RebuildStep(run, longer, c, After(run).calls[c], call') && call'.pc.ToWatch?
  {
    longer := ExtendCall(run, c, ReadVariants);
    call' := After(longer).calls[c];
  }

  lemma OnToCompare(run: seq<Step>, c: nat) returns (longer: seq<Step>, call': Call)
    requires ValidRun(run) && c in After(run).calls
    requires After(run).calls[c].pc.ToWatch? && Live(After(run).redis, After(run).calls[c])
    ensures RebuildStep(run, longer, c, After(run).calls[c], call') && call'.pc.ToCompare?
  {
    longer := ExtendCall(run, c, Watch);
    call' := After(longer).calls[c];
  }

  lemma OnToExec(run: seq<Step>, c: nat) returns (longer: seq<Step>, call': Call)
    requires ValidRun(run) && c in After(run).calls
    requires After(run).calls[c].pc.ToCompare? && Live(After(run).redis, After(run).calls[c])
    ensures RebuildStep(run, longer, c, After(run).calls[c], call') && call'.pc.ToExec?
  {
    InvAlways(run);
    assert CallOk(After(run).redis, After(run).calls[c]);
    longer := ExtendCall(run, c, Compare);
    call' := After(longer).calls[c];
  }

  lemma StepsJoin(a: seq<Step>, b: seq<Step>, d: seq<Step>, c: nat, first: Call, second: Call, third: Call)
    requires RebuildStep(a, b, c, first, second) && RebuildStep(b, d, c, second, third)
    requires (HasRules(first.pc) ==> HasRules(second.pc)) && (Publishing(first.pc) ==> Publishing(second.pc))
    ensures RebuildStep(a, d, c, first, third)
  {
  }

  function StepsLeft(pc: CallPc): nat {
    match pc
    case ToReadRules => 4
    case ToReadVariants => 3
    case ToWatch => 2
    case ToCompare => 1
    case _ => 0
  }

  /** Undisturbed, a live rebuild comes to its EXEC with what it had read. */
  lemma {:induction false} OnToPublish(run: seq<Step>, c: nat) returns (longer: seq<Step>, call': Call)
    requires ValidRun(run) && c in After(run).calls
    requires HasRows(After(run).calls[c].pc) && Live(After(run).redis, After(run).calls[c])
    ensures RebuildStep(run, longer, c, After(run).calls[c], call') && call'.pc.ToExec?
    decreases StepsLeft(After(run).calls[c].pc)
  {
    var call := After(run).calls[c];
    if call.pc.ToExec? {
      longer, call' := run, call;
      assert After(run).(calls := After(run).calls[c := call]) == After(run);
    } else {
      var next, mid := OneStepOn(run, c);
      longer, call' := OnToPublish(next, c);
      StepsJoin(run, next, longer, c, call, mid, call');
    }
  }

  lemma OneStepOn(run: seq<Step>, c: nat) returns (longer: seq<Step>, call': Call)
    requires ValidRun(run) && c in After(run).calls && !After(run).calls[c].pc.ToExec?
    requires HasRows(After(run).calls[c].pc) && Live(After(run).redis, After(run).calls[c])
    ensures RebuildStep(run, longer, c, After(run).calls[c], call')
    ensures HasRows(call'.pc) && StepsLeft(call'.pc) < StepsLeft(After(run).calls[c].pc)
    ensures HasRules(After(run).calls[c].pc) ==> HasRules(call'.pc)
    ensures Publishing(After(run).calls[c].pc) ==> Publishing(call'.pc)
  {
    match After(run).calls[c].pc
    case ToReadRules => longer, call' := OnToVariants(run, c);
    case ToReadVariants => longer, call' := OnToWatch(run, c);
    case ToWatch => longer, call' := OnToCompare(run, c);
    case ToCompare => longer, call' := OnToExec(run, c);
    case ToWriteUnfenced =>
      UnfencedIsNotLive(run, c);
  }

  lemma UnfencedIsNotLive(run: seq<Step>, c: nat)
    requires ValidRun(run) && c in After(run).calls && After(run).calls[c].pc.ToWriteUnfenced?
    ensures !Live(After(run).redis, After(run).calls[c])
  {
    InvAlways(run);
    assert CallOk(After(run).redis, After(run).calls[c]);
  }

  // ---- What a later call is shown --------------------------------------------------------------------

  /** A new call for the flag has looked at the cache. */
  ghost predicate Looked(s: State, s': State, c: nat, key: string) {
    && Hist(s', key) == Hist(s, key) && c in s'.calls && s'.calls[c].kind == EvaluateCall(key)
    && s'.calls[c].pc == FromCache(s.redis, NewCall(EvaluateCall(key)))
  }

  lemma LookNow(run: seq<Step>, c: nat, key: string) returns (longer: seq<Step>)
    requires ValidRun(run) && c !in After(run).calls && key != COMPLETE_FIELD
    ensures longer == run + [Begin(c, EvaluateCall(key)), Go(c, ReadCache)] && ValidRun(longer)
    ensures Looked(After(run), After(longer), c, key)
  {
    var begun := Extend(run, Begin(c, EvaluateCall(key)));
    longer := ExtendCall(begun, c, ReadCache);
  }

  /** What a later look shows is what the cached field holds. */
  lemma FieldIsShown(h: History, n: nat, server: Server, call: Call, key: string)
    requires call.kind == EvaluateCall(key) && call.pc == FromCache(server, NewCall(EvaluateCall(key)))
    requires key in server.hash ==> server.hash[key].Json?
    requires Shows(call, key) ==> ViewFresh(h, n, Shown(call, key))
    ensures FieldFresh(h, n, server, key)
  {
  }

  /** If every later answer is fresh, so is the cached field. */
  lemma FieldMustBeFresh(run: seq<Step>, key: string, n: nat)
    requires ValidRun(run) && key != COMPLETE_FIELD && LaterAnswersShow(run, key, n)
    ensures FieldFresh(Hist(After(run), key), n, After(run).redis, key)
  {
    var s := After(run);
    var c := UnusedKey(s.calls);
    var longer := LookNow(run, c, key);
    NextAnswerShows(run, longer, c, key, n);
    CellIsJson(run, key);
    FieldIsShown(Hist(s, key), n, s.redis, After(longer).calls[c], key);
  }

  lemma CellIsJson(run: seq<Step>, key: string)
    requires ValidRun(run) && key != COMPLETE_FIELD
    ensures key in After(run).redis.hash ==> After(run).redis.hash[key].Json?
  {
    InvAlways(run);
    assert AgesOk(After(run), key);
  }

  /** A fresh view of a snapshot has fresh parts. */
  lemma PartsFromView(h: History, n: nat, call: Call, key: string)
    requires SnapshotOk(call) && ViewFresh(h, n, Lookup(Mapping(call), key))
    ensures RowFresh(h, n, Lookup(call.rows, key))
    ensures key in call.rows ==> PartsFresh(h, n, call.rows[key], RulesFor(call, key), VariantsFor(call, key))
  {
    var v := Lookup(Mapping(call), key);
    var a: nat, b: nat, c: nat :| Since(h, n, a) && Since(h, a, b) && Since(h, b, c) && ViewAt(h, v, a, b, c);
    if key in call.rows {
      var read := Flag(call.rows[key], RulesFor(call, key), VariantsFor(call, key));
      var had := Flag(h[a].value.row, RulesPart(h[b]), VariantsPart(h[c]));
      assert v == Some(FlagPayload(read));
      PayloadTellsFlag(read, had);
      PartsInOrder(h[c]);
      assert InKeyOrder([]) == [];
      assert RulesAt(h, read.row, read.rules, a, b) && VariantsAt(h, read.row, read.variants, c);
    }
  }

  lemma PartsInOrder(o: Option<Flag>)
    ensures InKeyOrder(VariantsPart(o)) == VariantsPart(o)
  {
    if o.Some? {
      SortIdempotent(o.value.variants, RowKey);
    } else {
      assert InKeyOrder([]) == [];
    }
  }

  lemma PartsAreRules(h: History, n: nat, row: Row, rules: seq<RuleRow>, variants: seq<VariantRow>)
    requires PartsFresh(h, n, row, rules, variants)
    ensures RulesFresh(h, n, row, rules)
  {
  }

  /** If every later answer is fresh, so is whatever a live rebuild has read. */
  lemma RebuildMustBeFresh(run: seq<Step>, key: string, n: nat, c: nat)
    requires ValidRun(run) && key != COMPLETE_FIELD && LaterAnswersShow(run, key, n)
    requires c in After(run).calls && Live(After(run).redis, After(run).calls[c]) && HasRows(After(run).calls[c].pc)
    ensures CallFresh(Hist(After(run), key), n, After(run).calls[c], key)
  {
    var call := After(run).calls[c];
    var ready, call' := OnToPublish(run, c);
    PublishedIsShown(run, ready, c, key, n, call');
    SnapshotOfLive(ready, c);
    PartsFromView(Hist(After(run), key), n, call', key);
    if key in call.rows {
      PartsAreRules(Hist(After(run), key), n, call.rows[key], RulesFor(call', key), VariantsFor(call', key));
    }
  }

  lemma SnapshotOfLive(run: seq<Step>, c: nat)
    requires ValidRun(run) && c in After(run).calls
    ensures SnapshotOk(After(run).calls[c])
  {
    InvAlways(run);
    assert CallOk(After(run).redis, After(run).calls[c]);
  }

  /** The call's snapshot is in the cache, and otherwise only the call has moved. */
  ghost predicate Published(s: State, s': State, call: Call) {
    s'.redis == Replace(s.redis, Mapping(call)) && s'.history == s.history && s'.calls.Keys == s.calls.Keys
  }

  lemma PublishNow(run: seq<Step>, c: nat) returns (longer: seq<Step>)
    requires ValidRun(run) && c in After(run).calls && After(run).calls[c].pc.ToExec?
    requires Live(After(run).redis, After(run).calls[c])
    ensures ValidRun(longer) && run <= longer && Published(After(run), After(longer), After(run).calls[c])
  {
    longer := ExtendCall(run, c, Exec);
  }

  /** What a rebuild publishes is shown to the next call. */
  lemma PublishedIsShown(run: seq<Step>, ready: seq<Step>, c: nat, key: string, n: nat, call': Call)
    requires ValidRun(run) && key != COMPLETE_FIELD && LaterAnswersShow(run, key, n) && c in After(run).calls
    requires RebuildStep(run, ready, c, After(run).calls[c], call') && call'.pc.ToExec?
    ensures ViewFresh(Hist(After(run), key), n, Lookup(Mapping(call'), key))
  {
    var longer, d := PublishAndLook(ready, c, key);
    NextAnswerShows(run, longer, d, key, n);
  }

  /** A new call after a publish shows what was published. */
  ghost predicate ShowsPublished(s: State, s': State, d: nat, key: string, call: Call) {
    && d !in s.calls && d in s'.calls && Shows(s'.calls[d], key) && Hist(s', key) == Hist(s, key)
    && Shown(s'.calls[d], key) == Lookup(Mapping(call), key)
  }

  lemma PublishAndLook(run: seq<Step>, c: nat, key: string) returns (longer: seq<Step>, d: nat)
    requires ValidRun(run) && c in After(run).calls && After(run).calls[c].pc.ToExec? && key != COMPLETE_FIELD
    requires Live(After(run).redis, After(run).calls[c])
    ensures ValidRun(longer) && run <= longer
    ensures ShowsPublished(After(run), After(longer), d, key, After(run).calls[c])
  {
    var published := PublishNow(run, c);
    d := UnusedKey(After(published).calls);
    longer := LookNow(published, d, key);
    PublishedView(After(run).redis, Mapping(After(run).calls[c]), key);
  }

  lemma NextAnswerShows(run: seq<Step>, longer: seq<Step>, d: nat, key: string, n: nat)
    requires LaterAnswersShow(run, key, n) && ValidRun(longer) && run <= longer && d !in After(run).calls
    ensures AnswerShows(After(longer), d, key, n)
  {
    var more := longer[|run|..];
    assert run + more == longer;
    assert LaterAnswerShows(run, more, d, key, n);
  }

  lemma PublishedView(server: Server, mapping: map<string, Entry>, key: string)
    requires key != COMPLETE_FIELD
    ensures FromCache(Replace(server, mapping), NewCall(EvaluateCall(key))) == Answered(FlagView(Lookup(mapping, key)))
  {
  }

  lemma WritersAreNewest(s: State, key: string, n: nat)
    requires Structure(s) && n < |Hist(s, key)|
    ensures WritersFresh(s, key, n)
  {
    forall m | m in s.mutators && s.mutators[m].key == key && Pending(s.mutators[m]) ensures n <= s.mutators[m].index {
      assert MutatorOk(Hist(s, key), s.mutators[m]);
    }
  }

  /**
   Freshness is exact. Every later answer of every continuation shows the flag at commit n or later,
   if and only if the cached field and every rebuild that could still be published are fresh for n.
   */
  lemma FreshnessIsExact(run: seq<Step>, key: string, n: nat)
    requires ValidRun(run) && key != COMPLETE_FIELD && n < |Hist(After(run), key)|
    ensures LaterAnswersShow(run, key, n) <==> Fresh(After(run), key, n)
  {
    var s := After(run);
    if Fresh(s, key, n) {
      FreshAnswersShow(run, key, n);
    }
    if LaterAnswersShow(run, key, n) {
      FieldMustBeFresh(run, key, n);
      RebuildsMustBeFresh(run, key, n);
      InvAlways(run);
      WritersAreNewest(s, key, n);
    }
  }

  lemma RebuildsMustBeFresh(run: seq<Step>, key: string, n: nat)
    requires ValidRun(run) && key != COMPLETE_FIELD && LaterAnswersShow(run, key, n)
    ensures RebuildsFresh(After(run), key, n)
  {
    var s := After(run);
    forall c | c in s.calls && Live(s.redis, s.calls[c]) ensures CallFresh(Hist(s, key), n, s.calls[c], key) {
      if HasRows(s.calls[c].pc) {
        RebuildMustBeFresh(run, key, n, c);
      }
    }
  }

  /**
   When a lost notify is healed. With the field gone from the cache, every later answer shows the
   newest commit or a later one if and only if every rebuild that could still be published has read
   the flag as the newest commit left it.
   */
  lemma LostNotifyHeals(run: seq<Step>, key: string)
    requires ValidRun(run) && key != COMPLETE_FIELD && FlagAnswer(After(run).redis, key).Cold?
    ensures |Hist(After(run), key)| > 0
    ensures LaterAnswersShow(run, key, |Hist(After(run), key)| - 1)
       <==> RebuildsFresh(After(run), key, |Hist(After(run), key)| - 1)
  {
    ColdRun(run, key);
    var n := |Hist(After(run), key)| - 1;
    if RebuildsFresh(After(run), key, n) {
      FreshAnswersShow(run, key, n);
    }
    if LaterAnswersShow(run, key, n) {
      RebuildsMustBeFresh(run, key, n);
    }
  }

  lemma ColdRun(run: seq<Step>, key: string)
    requires ValidRun(run) && FlagAnswer(After(run).redis, key).Cold?
    ensures
      var h := Hist(After(run), key);
      |h| > 0 && (Fresh(After(run), key, |h| - 1) <==> RebuildsFresh(After(run), key, |h| - 1))
  {
    InvAlways(run);
    ColdState(After(run), key);
  }

  lemma ColdState(s: State, key: string)
    requires Structure(s) && FlagAnswer(s.redis, key).Cold?
    ensures
      var h := Hist(s, key);
      |h| > 0 && (Fresh(s, key, |h| - 1) <==> RebuildsFresh(s, key, |h| - 1))
  {
    StructureOf(s, 0, key);
    WritersAreNewest(s, key, |Hist(s, key)| - 1);
  }

  // ---- Within the lifetime ---------------------------------------------------------------------------

  /** The seconds that have passed since place i of the run. */
  function Elapsed(run: seq<Step>, i: nat): nat {
    if |run| <= i then 0 else Elapsed(run[..|run| - 1], i) + if run[|run| - 1].Second? then 1 else 0
  }

  /** The notify has found no lifetime and is about to issue its EXPIRE. */
  predicate AboutToRenew(mutators: map<nat, Mutator>, m: nat) {
    m in mutators && mutators[m].pc.ToExpire?
  }

  ghost predicate NoneRenews(mutators: map<nat, Mutator>) {
    forall m :: !AboutToRenew(mutators, m)
  }

  ghost predicate AtMostOneRenews(mutators: map<nat, Mutator>) {
    forall m, m' :: AboutToRenew(mutators, m) && AboutToRenew(mutators, m') ==> m == m'
  }

  /**
   The hash, if there is one, has a lifetime that nothing can stretch beyond 300 seconds: no notify of
   any flag is about to renew it, or one at most is and the lifetime is in its last second.
   */
  ghost predicate RunsOut(s: State) {
    s.redis.hash != map[] ==>
      && s.redis.lifetime.Some?
      && (NoneRenews(s.mutators) || (s.redis.lifetime.value <= 1 && AtMostOneRenews(s.mutators)))
  }

  /** The hash is still there, and will be gone when 300 seconds have passed in all. */
  ghost predicate Ageing(server: Server, mutators: map<nat, Mutator>, passed: nat) {
    && server.hash != map[] && server.lifetime.Some?
    && (|| (&& NoneRenews(mutators)
            && server.lifetime.value + passed <= RULESET_TTL_SECONDS && (passed > 0 ==> server.lifetime.value > 0))
        || (passed == 0 && server.lifetime.value <= 1 && AtMostOneRenews(mutators)))
  }

  /** Either the flag is fresh already, or the hash that holds the stale field runs out in time. */
  ghost predicate FreshOrAgeing(s: State, key: string, n: nat, passed: nat) {
    && RebuildsFresh(s, key, n) && n < |Hist(s, key)|
    && (FieldFresh(Hist(s, key), n, s.redis, key) || Ageing(s.redis, s.mutators, passed))
  }

  lemma SecondPasses(h: History, n: nat, server: Server, mutators: map<nat, Mutator>, key: string, passed: nat)
    requires Ageing(server, mutators, passed)
    ensures FieldFresh(h, n, Tick(server), key) || Ageing(Tick(server), mutators, passed + 1)
  {
  }

  lemma FreshFromParts(s: State, key: string, n: nat)
    requires Structure(s) && n < |Hist(s, key)| && RebuildsFresh(s, key, n) && FieldFresh(Hist(s, key), n, s.redis, key)
    ensures Fresh(s, key, n)
  {
    WritersAreNewest(s, key, n);
  }

  /** While a lifetime runs, no notify comes to be about to renew it; one that does renew it is done. */
  lemma RenewalsRunOut(server: Server, mutators: map<nat, Mutator>, m: nat, move: MutatorMove)
    requires m in mutators && CanNotify(mutators[m], move) && Ttl(server) >= 0
    ensures
      var mutators' := mutators[m := mutators[m].(pc := PcAfter(server, mutators[m], move))];
      && (NoneRenews(mutators) ==> NoneRenews(mutators') && !move.SetTtl?)
      && (AtMostOneRenews(mutators) ==> AtMostOneRenews(mutators'))
      && (AtMostOneRenews(mutators) && move.SetTtl? ==> NoneRenews(mutators'))
  {
    var mutators' := mutators[m := mutators[m].(pc := PcAfter(server, mutators[m], move))];
    assert move.SetTtl? ==> AboutToRenew(mutators, m);
    forall i ensures AboutToRenew(mutators', i) ==> i != m && AboutToRenew(mutators, i) {
    }
  }

  /** A notify leaves a running lifetime alone, unless it renews it or takes the last field with it. */
  lemma LifetimeAfterMove(server: Server, mut: Mutator, move: MutatorMove)
    requires server.hash != map[] && server.lifetime.Some?
    ensures
      var server' := NotifyServer(server, mut, move);
      || server'.hash == map[]
      || (server'.hash != map[]
          && server'.lifetime == if move.SetTtl? then Some(RULESET_TTL_SECONDS) else server.lifetime)
  {
  }

  lemma NotifyLeavesLifetime(h: History, n: nat, server: Server, mutators: map<nat, Mutator>, m: nat,
                             move: MutatorMove, key: string, passed: nat)
    requires Ageing(server, mutators, passed) && m in mutators && CanNotify(mutators[m], move)
    ensures
      var server' := NotifyServer(server, mutators[m], move);
      var mutators' := mutators[m := mutators[m].(pc := PcAfter(server, mutators[m], move))];
      FieldFresh(h, n, server', key) || Ageing(server', mutators', passed)
  {
    RenewalsRunOut(server, mutators, m, move);
    LifetimeAfterMove(server, mutators[m], move);
  }

  lemma AgesThroughNotify(s: State, m: nat, move: MutatorMove, key: string, n: nat, passed: nat)
    requires Structure(s) && m in s.mutators && CanNotify(s.mutators[m], move) && key != COMPLETE_FIELD
    requires FreshOrAgeing(s, key, n, passed)
    ensures FreshOrAgeing(AfterNotify(s, m, move), key, n, passed)
  {
    RebuildsAfterNotify(s, m, move, key, n);
    assert Hist(AfterNotify(s, m, move), key) == Hist(s, key);
    if FieldFresh(Hist(s, key), n, s.redis, key) {
      FreshFromParts(s, key, n);
      assert MutatorOk(Hist(s, s.mutators[m].key), s.mutators[m]);
      FieldAfterNotify(s, m, move, key, n);
    } else {
      NotifyLeavesLifetime(Hist(s, key), n, s.redis, s.mutators, m, move, key, passed);
    }
  }

  /** A rebuild that lands leaves the field fresh; any other move leaves the server alone. */
  lemma CallLeavesLifetime(s: State, c: nat, move: CallMove, key: string, n: nat)
    requires Structure(s) && c in s.calls && CanCall(s.store.flags, s.calls[c], move) && !move.WriteUnfenced?
    requires RebuildsFresh(s, key, n) && key != COMPLETE_FIELD
    ensures
      || CallServer(s.redis, s.calls[c], move) == s.redis
      || FieldFresh(Hist(s, key), n, CallServer(s.redis, s.calls[c], move), key)
  {
    var call := s.calls[c];
    if move.Exec? && s.redis.touched == call.watched {
      assert CallOk(s.redis, call);
      MappingIsFresh(Hist(s, key), n, call, key);
      FieldAfterReplace(Hist(s, key), s.redis, Mapping(call), key, n);
    }
  }

  lemma AgesThroughCall(s: State, c: nat, move: CallMove, key: string, n: nat, passed: nat)
    requires Structure(s) && c in s.calls && CanCall(s.store.flags, s.calls[c], move) && !move.WriteUnfenced?
    requires FreshOrAgeing(s, key, n, passed) && key != COMPLETE_FIELD
    ensures FreshOrAgeing(AfterCall(s, c, move), key, n, passed)
  {
    RebuildsAfterCall(s, c, move, key, n);
    CallLeavesLifetime(s, c, move, key, n);
  }

  /** A notify that has yet to begin renews nothing. */
  lemma NewcomersDoNotRenew(mutators: map<nat, Mutator>, m: nat, mut: Mutator)
    requires m !in mutators && mut.pc.ToIncr?
    ensures NoneRenews(mutators) ==> NoneRenews(mutators[m := mut])
    ensures AtMostOneRenews(mutators) ==> AtMostOneRenews(mutators[m := mut])
  {
    var grown := mutators[m := mut];
    forall i ensures AboutToRenew(grown, i) ==> AboutToRenew(mutators, i) {
    }
  }

  lemma AgesThroughCommit(s: State, m: nat, store': Store.State, k: string, key: string, n: nat, passed: nat)
    requires m !in s.mutators && FreshOrAgeing(s, key, n, passed)
    ensures FreshOrAgeing(AfterCommit(s, m, store', k), key, n, passed)
  {
    var s' := AfterCommit(s, m, store', k);
    RebuildsAfterCommit(s, m, store', k, key, n);
    if FieldFresh(Hist(s, key), n, s.redis, key) {
      FieldGrows(Hist(s, key), Hist(s', key), n, s.redis, key);
    } else {
      NewcomersDoNotRenew(s.mutators, m, s'.mutators[m]);
    }
  }

  lemma AgesThroughExpiry(s: State, server: Server, key: string, n: nat, passed: nat)
    requires RebuildsFresh(s, key, n) && n < |Hist(s, key)|
    requires server.epoch == s.redis.epoch && server.touched == s.redis.touched
    requires FieldFresh(Hist(s, key), n, server, key) || Ageing(server, s.mutators, passed)
    ensures FreshOrAgeing(s.(redis := server), key, n, passed)
  {
    RebuildsFrame(s, s.(redis := server), key, n);
  }

  lemma AgesThroughSecond(s: State, key: string, n: nat, passed: nat)
    requires FreshOrAgeing(s, key, n, passed)
    ensures FreshOrAgeing(s.(redis := Tick(s.redis)), key, n, passed + 1)
  {
    if !FieldFresh(Hist(s, key), n, s.redis, key) {
      SecondPasses(Hist(s, key), n, s.redis, s.mutators, key, passed);
    }
    AgesThroughExpiry(s, Tick(s.redis), key, n, passed + 1);
  }

  lemma AgesThroughBegin(s: State, c: nat, kind: Kind, key: string, n: nat, passed: nat)
    requires FreshOrAgeing(s, key, n, passed)
    ensures FreshOrAgeing(s.(calls := s.calls[c := NewCall(kind)]), key, n, passed)
  {
    RebuildsFrame(s, s.(calls := s.calls[c := NewCall(kind)]), key, n);
  }

  lemma AgesThroughStoreStep(s: State, store': Store.State, key: string, n: nat, passed: nat)
    requires FreshOrAgeing(s, key, n, passed)
    ensures FreshOrAgeing(s.(store := store'), key, n, passed)
  {
    RebuildsFrame(s, s.(store := store'), key, n);
  }

  lemma AgesThroughStep(s: State, step: Step, key: string, n: nat, passed: nat)
    requires Structure(s) && Enabled(s, step) && key != COMPLETE_FIELD && FreshOrAgeing(s, key, n, passed)
    ensures FreshOrAgeing(Effect(s, step), key, n, if step.Second? then passed + 1 else passed)
  {
    match step
    case StoreStep(st) => AgesThroughStoreStep(s, Store.Do(s.store, st).0, key, n, passed);
    case Commit(m, st) => AgesThroughCommit(s, m, Store.Do(s.store, st).0, Store.Do(s.store, st).1.key, key, n, passed);
    case Notify(m, move) => AgesThroughNotify(s, m, move, key, n, passed);
    case Begin(c, kind) => AgesThroughBegin(s, c, kind, key, n, passed);
    case Go(c, move) => AgesThroughCall(s, c, move, key, n, passed);
    case Second => AgesThroughSecond(s, key, n, passed);
    case Evict => AgesThroughExpiry(s, Del(s.redis), key, n, passed);
    case Flush =>
  }

  lemma {:induction false} AgesToTheEnd(run: seq<Step>, i: nat, key: string, n: nat)
    requires ValidRun(run) && i <= |run| && key != COMPLETE_FIELD && FreshOrAgeing(After(run[..i]), key, n, 0)
    ensures FreshOrAgeing(After(run), key, n, Elapsed(run, i))
  {
    if i < |run| {
      var before := run[..|run| - 1];
      Prefix(run, i);
      AgesToTheEnd(before, i, key, n);
      InvAlways(before);
      AgesThroughStep(After(before), run[|run| - 1], key, n, Elapsed(before, i));
    } else {
      assert run[..i] == run;
    }
  }

  // ---- Outlasting the lifetime -----------------------------------------------------------------------

  /** Only the hash's lifetime and the notifies may differ. */
  predicate SameFields(s: State, s': State) {
    && s'.calls == s.calls && s'.history == s.history
    && s'.redis.epoch == s.redis.epoch && s'.redis.touched == s.redis.touched && s'.redis.hash == s.redis.hash
  }

  /** Nothing but time has passed, and what is left of the lifetime is less by that. */
  predicate Waited(s: State, s': State, seconds: nat) {
    && s'.calls == s.calls && s'.history == s.history && s'.mutators == s.mutators
    && s'.redis.epoch == s.redis.epoch && s'.redis.touched == s.redis.touched
    && (s.redis.lifetime.None? ==> s'.redis == s.redis)
    && (s.redis.lifetime.Some? && seconds < s.redis.lifetime.value ==>
          s'.redis == s.redis.(lifetime := Some(s.redis.lifetime.value - seconds)))
  }

  lemma OneMoreSecond(s: State, s': State, seconds: nat)
    requires Waited(s, s', seconds)
    ensures Waited(s, s'.(redis := Tick(s'.redis)), seconds + 1)
  {
  }

  lemma StepElapses(run: seq<Step>, step: Step, i: nat)
    requires i <= |run|
    ensures Elapsed(run + [step], i) == Elapsed(run, i) + if step.Second? then 1 else 0
  {
    assert (run + [step])[..|run|] == run;
  }

  lemma OneSecond(run: seq<Step>, i: nat) returns (longer: seq<Step>)
    requires ValidRun(run) && i <= |run|
    ensures ValidRun(longer) && run <= longer && Elapsed(longer, i) == Elapsed(run, i) + 1
    ensures After(longer) == After(run).(redis := Tick(After(run).redis))
  {
    longer := Extend(run, Second);
    StepElapses(run, Second, i);
  }

  lemma {:induction false} Wait(run: seq<Step>, i: nat, seconds: nat) returns (longer: seq<Step>)
    requires ValidRun(run) && i <= |run|
    ensures ValidRun(longer) && run <= longer && Elapsed(longer, i) == Elapsed(run, i) + seconds
    ensures Waited(After(run), After(longer), seconds)
  {
    if seconds == 0 {
      longer := run;
    } else {
      var before := Wait(run, i, seconds - 1);
      longer := OneSecond(before, i);
      OneMoreSecond(After(run), After(before), seconds - 1);
    }
  }

  /** A notify issues its EXPIRE. */
  lemma Renew(run: seq<Step>, i: nat, m: nat) returns (longer: seq<Step>)
    requires ValidRun(run) && i <= |run| && AboutToRenew(After(run).mutators, m) && After(run).redis.hash != map[]
    ensures ValidRun(longer) && run <= longer && Elapsed(longer, i) == Elapsed(run, i)
    ensures SameFields(After(run), After(longer)) && After(longer).redis.lifetime == Some(RULESET_TTL_SECONDS)
    ensures forall m' :: m' != m && AboutToRenew(After(run).mutators, m') ==> AboutToRenew(After(longer).mutators, m')
  {
    longer := Extend(run, Notify(m, SetTtl));
    StepElapses(run, Notify(m, SetTtl), i);
  }

  /** In this continuation 300 seconds pass, and every cached field is still there. */
  ghost predicate Outlasts(run: seq<Step>, longer: seq<Step>) {
    && ValidRun(longer) && run <= longer && Elapsed(longer, |run|) == RULESET_TTL_SECONDS
    && SameFields(After(run), After(longer))
  }

  /** Renewed now, the hash is still there after 299 seconds. */
  lemma RenewAndWait(run: seq<Step>, early: seq<Step>, m: nat) returns (longer: seq<Step>)
    requires ValidRun(early) && run <= early && Elapsed(early, |run|) == 1 && SameFields(After(run), After(early))
    requires AboutToRenew(After(early).mutators, m) && After(early).redis.hash != map[]
    ensures Outlasts(run, longer)
  {
    var renewed := Renew(early, |run|, m);
    longer := Wait(renewed, |run|, RULESET_TTL_SECONDS - 1);
  }

  lemma OneRenewalOutlasts(run: seq<Step>, m: nat) returns (longer: seq<Step>)
    requires ValidRun(run) && AboutToRenew(After(run).mutators, m) && After(run).redis.hash != map[]
    requires After(run).redis.lifetime.Some? && After(run).redis.lifetime.value > 1
    ensures Outlasts(run, longer)
  {
    var early := Wait(run, |run|, 1);
    longer := RenewAndWait(run, early, m);
  }

  lemma TwoRenewalsOutlast(run: seq<Step>, m: nat, m': nat) returns (longer: seq<Step>)
    requires ValidRun(run) && After(run).redis.hash != map[] && m != m'
    requires AboutToRenew(After(run).mutators, m) && AboutToRenew(After(run).mutators, m')
    ensures Outlasts(run, longer)
  {
    var renewed := Renew(run, |run|, m);
    var early := Wait(renewed, |run|, 1);
    longer := RenewAndWait(run, early, m');
  }

  /** Unless the hash runs out by itself, it can outlast 300 seconds with everything it holds. */
  lemma OutlastsUnlessItRunsOut(run: seq<Step>) returns (longer: seq<Step>)
    requires ValidRun(run) && !RunsOut(After(run))
    ensures Outlasts(run, longer)
  {
    var s := After(run);
    if s.redis.lifetime.None? {
      longer := Wait(run, |run|, RULESET_TTL_SECONDS);
    } else {
      var m :| AboutToRenew(s.mutators, m);
      if s.redis.lifetime.value > 1 {
        longer := OneRenewalOutlasts(run, m);
      } else {
        var i, j :| AboutToRenew(s.mutators, i) && AboutToRenew(s.mutators, j) && i != j;
        longer := TwoRenewalsOutlast(run, i, j);
      }
    }
  }

  // ---- The safety net --------------------------------------------------------------------------------

  /** If 300 seconds have passed, every later answer shows commit n or later. */
  ghost predicate HealsInTimeAfter(run: seq<Step>, more: seq<Step>, key: string, n: nat) {
    ValidRun(run + more) && Elapsed(run + more, |run|) >= RULESET_TTL_SECONDS ==> LaterAnswersShow(run + more, key, n)
  }

  ghost predicate HealsInTime(run: seq<Step>, key: string, n: nat) {
    forall more :: HealsInTimeAfter(run, more, key, n)
  }

  lemma AgeingFromNow(s: State)
    requires LifetimeOk(s) && RunsOut(s) && s.redis.hash != map[]
    ensures Ageing(s.redis, s.mutators, 0)
  {
  }

  lemma TimeHeals(run: seq<Step>, more: seq<Step>, key: string, n: nat)
    requires ValidRun(run) && ValidRun(run + more) && key != COMPLETE_FIELD && n < |Hist(After(run), key)|
    requires RebuildsFresh(After(run), key, n)
    requires FieldFresh(Hist(After(run), key), n, After(run).redis, key) || RunsOut(After(run))
    requires Elapsed(run + more, |run|) >= RULESET_TTL_SECONDS
    ensures LaterAnswersShow(run + more, key, n)
  {
    assert (run + more)[..|run|] == run;
    InvAlways(run);
    if !FieldFresh(Hist(After(run), key), n, After(run).redis, key) {
      AgeingFromNow(After(run));
    }
    AgesToTheEnd(run + more, |run|, key, n);
    InvAlways(run + more);
    FreshFromParts(After(run + more), key, n);
    FreshAnswersShow(run + more, key, n);
  }

  /** Waiting revives no rebuild and ends none. */
  lemma WaitingChangesNoRebuild(s: State, s': State, key: string, n: nat)
    requires s'.calls == s.calls && s'.history == s.history
    requires s'.redis.epoch == s.redis.epoch && s'.redis.touched == s.redis.touched
    requires RebuildsFresh(s', key, n)
    ensures RebuildsFresh(s, key, n)
  {
    forall c | c in s.calls && Live(s.redis, s.calls[c]) ensures CallFresh(Hist(s, key), n, s.calls[c], key) {
      assert Live(s'.redis, s'.calls[c]) && Hist(s', key) == Hist(s, key);
    }
  }

  lemma WaitedLongEnough(run: seq<Step>, more: seq<Step>, key: string, n: nat)
    requires HealsInTime(run, key, n) && ValidRun(run + more)
    requires Elapsed(run + more, |run|) >= RULESET_TTL_SECONDS
    ensures LaterAnswersShow(run + more, key, n)
  {
    assert HealsInTimeAfter(run, more, key, n);
  }

  lemma HealedByWaiting(run: seq<Step>, key: string, n: nat) returns (longer: seq<Step>)
    requires ValidRun(run) && HealsInTime(run, key, n)
    ensures ValidRun(longer) && Waited(After(run), After(longer), RULESET_TTL_SECONDS)
    ensures LaterAnswersShow(longer, key, n)
  {
    longer := Wait(run, |run|, RULESET_TTL_SECONDS);
    var more := longer[|run|..];
    assert run + more == longer;
    WaitedLongEnough(run, more, key, n);
  }

  lemma HealingNeedsRebuilds(run: seq<Step>, key: string, n: nat)
    requires ValidRun(run) && key != COMPLETE_FIELD && HealsInTime(run, key, n)
    ensures RebuildsFresh(After(run), key, n)
  {
    var longer := HealedByWaiting(run, key, n);
    RebuildsMustBeFresh(longer, key, n);
    WaitingChangesNoRebuild(After(run), After(longer), key, n);
  }

  /** A stale field that outlasts the 300 seconds is shown to a later call. */
  lemma OutlastingFieldIsShown(run: seq<Step>, longer: seq<Step>, key: string, n: nat)
    requires Outlasts(run, longer) && key != COMPLETE_FIELD && LaterAnswersShow(longer, key, n)
    ensures FieldFresh(Hist(After(run), key), n, After(run).redis, key)
  {
    FieldMustBeFresh(longer, key, n);
    assert Hist(After(longer), key) == Hist(After(run), key);
    assert FlagAnswer(After(longer).redis, key) == FlagAnswer(After(run).redis, key);
  }

  lemma HealedWhenOutlasted(run: seq<Step>, longer: seq<Step>, key: string, n: nat)
    requires HealsInTime(run, key, n) && Outlasts(run, longer)
    ensures LaterAnswersShow(longer, key, n)
  {
    var more := longer[|run|..];
    assert run + more == longer;
    WaitedLongEnough(run, more, key, n);
  }

  lemma HealingNeedsExpiry(run: seq<Step>, key: string, n: nat)
    requires ValidRun(run) && key != COMPLETE_FIELD && HealsInTime(run, key, n) && !RunsOut(After(run))
    ensures FieldFresh(Hist(After(run), key), n, After(run).redis, key)
  {
    var longer := OutlastsUnlessItRunsOut(run);
    HealedWhenOutlasted(run, longer, key, n);
    OutlastingFieldIsShown(run, longer, key, n);
  }

  /**
   The safety net, exactly. Once 300 seconds have passed, every later answer shows the flag at commit n
   or later, whatever else happens meanwhile, if and only if every rebuild that could still be published
   is fresh for n and, unless the cached field is fresh already, the hash runs out by itself.
   */
  lemma HealsWithinTheLifetime(run: seq<Step>, key: string, n: nat)
    requires ValidRun(run) && key != COMPLETE_FIELD && n < |Hist(After(run), key)|
    ensures HealsInTime(run, key, n)
       <==> && RebuildsFresh(After(run), key, n)
            && (FieldFresh(Hist(After(run), key), n, After(run).redis, key) || RunsOut(After(run)))
  {
    if HealsInTime(run, key, n) {
      HealingNeedsRebuilds(run, key, n);
      if !RunsOut(After(run)) {
        HealingNeedsExpiry(run, key, n);
      }
    }
    if && RebuildsFresh(After(run), key, n)
       && (FieldFresh(Hist(After(run), key), n, After(run).redis, key) || RunsOut(After(run))) {
      forall more ensures HealsInTimeAfter(run, more, key, n) {
        if ValidRun(run + more) && Elapsed(run + more, |run|) >= RULESET_TTL_SECONDS {
          TimeHeals(run, more, key, n);
        }
      }
    }
  }
}
