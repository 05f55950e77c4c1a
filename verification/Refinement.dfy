/**
 The cached path against the database path: exactly when an answer of the one is an answer the
 other gives at some instant of the call.
 */
module Refinement {
  import opened Wrappers
  import opened Models
  import opened Schemas
  import opened Payload
  import opened Redis
  import opened Protocol
  import opened Freshness
  import opened FreshnessKept
  import opened Reachable
  import opened CacheLaws
  import Store
  import StoreLaws

  // ---- What a call has read, against one value of the flag -----------------------------------------

  /** The columns of a flag as a view shows them. */
  function RowShown(v: Option<Entry>): Option<Row> {
    match v
    case None => None
    case Some(e) =>
      Some(Row(e.id, e.key, e.name, e.description, e.enabled, e.rolloutPercentage,
               OrDefault(e.offVariant, None), e.version))
  }

  /** The row the call has read or shows is the flag's. */
  ghost predicate RowExact(call: Call, key: string, o: Option<Flag>) {
    && (HasRows(call.pc) ==> Lookup(call.rows, key) == RowPart(o))
    && (Shows(call, key) ==> RowShown(Shown(call, key)) == RowPart(o))
  }

  ghost predicate RulesExact(call: Call, key: string, o: Option<Flag>) {
    key in call.rows ==> RulesFor(call, key) == RulesPart(o)
  }

  ghost predicate VariantsExact(call: Call, key: string, o: Option<Flag>) {
    key in call.rows ==> VariantsFor(call, key) == VariantsPart(o)
  }

  /** Whatever the call has read of the flag's children, or shows of the flag, is the flag's. */
  ghost predicate ChildrenExact(call: Call, key: string, o: Option<Flag>) {
    && (HasRules(call.pc) ==> RulesExact(call, key, o))
    && (Publishing(call.pc) ==> VariantsExact(call, key, o))
    && (Shows(call, key) ==> Shown(call, key) == ViewOf(o))
  }

  /** With the right row, the view of a snapshot is a flag's exactly when its rules and variants are. */
  lemma MappingIsExact(call: Call, key: string, o: Option<Flag>)
    requires SnapshotOk(call) && Lookup(call.rows, key) == RowPart(o)
    ensures RowShown(Lookup(Mapping(call), key)) == RowPart(o)
    ensures Lookup(Mapping(call), key) == ViewOf(o) <==> RulesExact(call, key, o) && VariantsExact(call, key, o)
  {
    if o.Some? {
      var read := Flag(call.rows[key], RulesFor(call, key), VariantsFor(call, key));
      assert Lookup(Mapping(call), key) == Some(FlagPayload(read));
      PayloadTellsFlag(read, o.value);
      assert InKeyOrder([]) == [];
      assert InKeyOrder(read.variants) == read.variants;
    }
  }

  // ---- The condition -------------------------------------------------------------------------------

  /**
   A follow-up query of the call finds, under the id of the flag row it read, the rules or the
   variants the flag had together with that row.
   */
  ghost predicate FindsOwn(s: State, c: nat, move: CallMove, key: string) {
    c in s.calls && key in s.calls[c].rows ==>
      var row, h := s.calls[c].rows[key], Hist(s, key);
      && (move.ReadRules? ==>
            forall n :: 0 <= n < |h| && RowPart(h[n]) == Some(row) ==>
              RulesPart(h[n]) == ChildRules(s.store.flags, row))
      && (move.ReadVariants? ==>
            forall n :: 0 <= n < |h| && RowPart(h[n]) == Some(row) ==>
              VariantsPart(h[n]) == InKeyOrder(ChildVariants(s.store.flags, row)))
  }

  /** Step j of the run, if it is a follow-up query of the call, finds the row's own children. */
  ghost predicate UntornAt(run: seq<Step>, j: nat, c: nat, key: string)
    requires j < |run|
  {
    run[j].Go? && run[j].c == c ==> FindsOwn(After(run[..j]), c, run[j].call, key)
  }

  /** From place i on, every follow-up query of the call finds the row's own children. */
  ghost predicate Untorn(run: seq<Step>, i: nat, c: nat, key: string) {
    forall j: nat :: i <= j < |run| ==> UntornAt(run, j, c, key)
  }

  lemma UntornSplits(run: seq<Step>, i: nat, c: nat, key: string)
    requires run != [] && i < |run|
    ensures Untorn(run, i, c, key)
       <==> Untorn(run[..|run| - 1], i, c, key) && UntornAt(run, |run| - 1, c, key)
  {
    var before := run[..|run| - 1];
    forall j: nat | i <= j < |before| ensures UntornAt(before, j, c, key) <==> UntornAt(run, j, c, key) {
      assert before[..j] == run[..j];
    }
    if Untorn(before, i, c, key) && UntornAt(run, |run| - 1, c, key) {
      forall j: nat | i <= j < |run| ensures UntornAt(run, j, c, key) {
        assert j < |before| ==> UntornAt(before, j, c, key);
      }
    }
    if Untorn(run, i, c, key) {
      forall j: nat | i <= j < |before| ensures UntornAt(before, j, c, key) {
        assert UntornAt(run, j, c, key);
      }
    }
  }

  // ---- One move of the call ------------------------------------------------------------------------

  lemma RowsAreExact(flags: map<string, Flag>, call: Call, key: string)
    ensures
      var call' := call.(pc := ToReadRules, rows := map k | k in flags :: flags[k].row);
      RowExact(call', key, Lookup(flags, key)) && ChildrenExact(call', key, Lookup(flags, key))
  {
  }

  /** Knowing the flag with the row read, a follow-up query is exact if and only if it finds its own. */
  lemma RulesQueryExactly(s: State, c: nat, loaded: map<string, seq<RuleRow>>, key: string, o: Option<Flag>)
    requires HistoryOk(Hist(s, key), key, Current(s, key)) && o in Hist(s, key)
    requires c in s.calls && CanCall(s.store.flags, s.calls[c], ReadRules(loaded)) && RowsUnderKeys(s.calls[c].rows)
    requires Lookup(s.calls[c].rows, key) == RowPart(o)
    ensures RulesExact(s.calls[c].(rules := loaded), key, o) <==> FindsOwn(s, c, ReadRules(loaded), key)
  {
    var call, h := s.calls[c], Hist(s, key);
    if key in call.rows {
      ChildRulesStrict(s.store.flags, h, call.rows[key]);
      ReloadOfStrict(ChildRules(s.store.flags, call.rows[key]), loaded[key]);
      RowTellsAll(h, call.rows[key], o);
    }
  }

  lemma VariantsQueryExactly(s: State, c: nat, variants: map<string, seq<VariantRow>>, key: string, o: Option<Flag>)
    requires HistoryOk(Hist(s, key), key, Current(s, key)) && o in Hist(s, key)
    requires c in s.calls && Lookup(s.calls[c].rows, key) == RowPart(o)
    requires variants == map k | k in s.calls[c].rows :: InKeyOrder(ChildVariants(s.store.flags, s.calls[c].rows[k]))
    ensures VariantsExact(s.calls[c].(variants := variants), key, o) <==> FindsOwn(s, c, ReadVariants, key)
  {
    if key in s.calls[c].rows {
      RowTellsAll(Hist(s, key), s.calls[c].rows[key], o);
    }
  }

  lemma RowTellsAll(h: History, row: Row, o: Option<Flag>)
    requires RowsRise(h) && o in h && RowPart(o) == Some(row)
    ensures forall n :: 0 <= n < |h| && RowPart(h[n]) == Some(row) ==> h[n] == o
  {
    var i :| 0 <= i < |h| && h[i] == o;
    forall n | 0 <= n < |h| && RowPart(h[n]) == Some(row) ensures h[n] == o {
      RowTellsFlag(h, i, n);
    }
  }

  /** On /evaluate, a move that reads nothing answers from the mapping or keeps the snapshot. */
  lemma QuietEvaluation(flags: map<string, Flag>, server: Server, call: Call, move: CallMove)
    requires CanCall(flags, call, move) && !ReadsSomething(move) && call.kind.EvaluateCall?
    ensures
      var call' := CallAfter(flags, server, call, move);
      || (Publishing(call.pc) && call' == FromMapping(call))
      || (&& call'.rows == call.rows && call'.rules == call.rules && call'.variants == call.variants
          && !call'.pc.Answered? && (Publishing(call'.pc) <==> Publishing(call.pc)) && !MidSnapshot(call')
          && !MidSnapshot(call))
  {
  }

  /** Between its first and its last query. */
  predicate MidSnapshot(call: Call) { call.pc.ToReadRules? || call.pc.ToReadVariants? }

  lemma QuietMoveExactly(flags: map<string, Flag>, server: Server, call: Call, move: CallMove, key: string,
                         o: Option<Flag>)
    requires CanCall(flags, call, move) && !ReadsSomething(move) && call.kind == EvaluateCall(key) && SnapshotOk(call)
    requires RowExact(call, key, o)
    ensures RowExact(CallAfter(flags, server, call, move), key, o)
    ensures ChildrenExact(CallAfter(flags, server, call, move), key, o) <==> ChildrenExact(call, key, o)
  {
    QuietEvaluation(flags, server, call, move);
    if Publishing(call.pc) {
      AnswerIsExact(call, key, o);
    }
  }

  lemma AnswerIsExact(call: Call, key: string, o: Option<Flag>)
    requires Publishing(call.pc) && call.kind == EvaluateCall(key) && SnapshotOk(call) && RowExact(call, key, o)
    ensures RowExact(FromMapping(call), key, o)
    ensures ChildrenExact(FromMapping(call), key, o) <==> ChildrenExact(call, key, o)
  {
    MappingIsExact(call, key, o);
    MappingShows(call, key);
  }

  /** The call has read something of the flag, or answered; the value is one the flag has had. */
  ghost predicate Tracks(s: State, c: nat, key: string, o: Option<Flag>) {
    && c in s.calls && s.calls[c].kind == EvaluateCall(key) && !s.calls[c].pc.ToReadCache?
    && o in Hist(s, key) && RowExact(s.calls[c], key, o)
  }

  lemma ReadRowsTracks(s: State, c: nat, key: string)
    requires HistoryOk(Hist(s, key), key, Current(s, key)) && c in s.calls && s.calls[c].kind == EvaluateCall(key)
    ensures Tracks(AfterCall(s, c, ReadRows), c, key, Current(s, key))
    ensures ChildrenExact(AfterCall(s, c, ReadRows).calls[c], key, Current(s, key))
  {
    RowsAreExact(s.store.flags, s.calls[c], key);
    assert Hist(s, key)[|Hist(s, key)| - 1] == Current(s, key);
  }

  lemma ReadRulesTracks(s: State, c: nat, loaded: map<string, seq<RuleRow>>, key: string, o: Option<Flag>)
    requires HistoryOk(Hist(s, key), key, Current(s, key)) && Tracks(s, c, key, o)
    requires CanCall(s.store.flags, s.calls[c], ReadRules(loaded)) && SnapshotOk(s.calls[c])
    ensures Tracks(AfterCall(s, c, ReadRules(loaded)), c, key, o) && ChildrenExact(s.calls[c], key, o)
    ensures ChildrenExact(AfterCall(s, c, ReadRules(loaded)).calls[c], key, o)
       <==> FindsOwn(s, c, ReadRules(loaded), key)
  {
    var call' := s.calls[c].(pc := ToReadVariants, rules := loaded);
    assert AfterCall(s, c, ReadRules(loaded)) == s.(calls := s.calls[c := call']);
    StillTracks(s, c, call', key, o);
    RulesQueryExactly(s, c, loaded, key, o);
    RulesDecide(s.calls[c], loaded, key, o);
  }

  /** After the second query, the children are exact when the rules are. */
  lemma RulesDecide(call: Call, loaded: map<string, seq<RuleRow>>, key: string, o: Option<Flag>)
    ensures ChildrenExact(call.(pc := ToReadVariants, rules := loaded), key, o)
       <==> RulesExact(call.(rules := loaded), key, o)
  {
  }

  lemma ReadVariantsGives(s: State, c: nat) returns (next: CallPc, loaded: map<string, seq<VariantRow>>)
    requires c in s.calls && s.calls[c].pc.ToReadVariants?
    ensures next.ToWatch? || next.ToWriteUnfenced?
    ensures loaded == map k | k in s.calls[c].rows :: InKeyOrder(ChildVariants(s.store.flags, s.calls[c].rows[k]))
    ensures AfterCall(s, c, ReadVariants)
         == s.(calls := s.calls[c := s.calls[c].(pc := next, variants := loaded)])
  {
    var call := s.calls[c];
    next := if call.epoch.Some? then ToWatch else ToWriteUnfenced;
    loaded := map k | k in call.rows :: InKeyOrder(ChildVariants(s.store.flags, call.rows[k]));
  }

  /** A call that has come further with the same rows tracks the same value. */
  lemma StillTracks(s: State, c: nat, call': Call, key: string, o: Option<Flag>)
    requires Tracks(s, c, key, o) && HasRows(s.calls[c].pc) && HasRows(call'.pc)
    requires call'.rows == s.calls[c].rows && call'.kind == s.calls[c].kind
    ensures Tracks(s.(calls := s.calls[c := call']), c, key, o)
  {
  }

  lemma ReadVariantsTracks(s: State, c: nat, key: string, o: Option<Flag>)
    requires HistoryOk(Hist(s, key), key, Current(s, key)) && Tracks(s, c, key, o)
    requires s.calls[c].pc.ToReadVariants?
    ensures Tracks(AfterCall(s, c, ReadVariants), c, key, o)
    ensures ChildrenExact(AfterCall(s, c, ReadVariants).calls[c], key, o)
       <==> ChildrenExact(s.calls[c], key, o) && FindsOwn(s, c, ReadVariants, key)
  {
    var pc, loaded := ReadVariantsGives(s, c);
    StillTracks(s, c, s.calls[c].(pc := pc, variants := loaded), key, o);
    VariantsQueryExactly(s, c, loaded, key, o);
    VariantsDecide(s.calls[c], loaded, pc, key, o);
  }

  /** After the third query, the children are exact when the rules were and the variants are. */
  lemma VariantsDecide(call: Call, loaded: map<string, seq<VariantRow>>, pc: CallPc, key: string, o: Option<Flag>)
    requires call.pc.ToReadVariants? && (pc.ToWatch? || pc.ToWriteUnfenced?)
    ensures ChildrenExact(call.(pc := pc, variants := loaded), key, o)
       <==> ChildrenExact(call, key, o) && VariantsExact(call.(variants := loaded), key, o)
  {
  }

  /**
   One move of the call: afterwards it tracks the value it tracked, or the current one if the move
   was the first query, and its children are exact exactly when they were and the move found its own.
   */
  lemma MoveTracks(s: State, c: nat, move: CallMove, key: string, o: Option<Flag>) returns (o': Option<Flag>)
    requires HistoryOk(Hist(s, key), key, Current(s, key)) && Tracks(s, c, key, o) && SnapshotOk(s.calls[c])
    requires CanCall(s.store.flags, s.calls[c], move)
    ensures o' == if move.ReadRows? then Current(s, key) else o
    ensures Tracks(AfterCall(s, c, move), c, key, o')
    ensures ChildrenExact(AfterCall(s, c, move).calls[c], key, o')
       <==> ChildrenExact(s.calls[c], key, o) && FindsOwn(s, c, move, key)
  {
    o' := o;
    match move
    case ReadRows =>
      o' := Current(s, key);
      ReadRowsTracks(s, c, key);
    case ReadRules(loaded) => ReadRulesTracks(s, c, loaded, key, o);
    case ReadVariants => ReadVariantsTracks(s, c, key, o);
    case _ => QuietlyTracks(s, c, move, key, o);
  }

  lemma QuietlyTracks(s: State, c: nat, move: CallMove, key: string, o: Option<Flag>)
    requires Tracks(s, c, key, o) && SnapshotOk(s.calls[c])
    requires CanCall(s.store.flags, s.calls[c], move) && !ReadsSomething(move)
    ensures Tracks(AfterCall(s, c, move), c, key, o) && FindsOwn(s, c, move, key)
    ensures ChildrenExact(AfterCall(s, c, move).calls[c], key, o) <==> ChildrenExact(s.calls[c], key, o)
  {
    QuietMoveExactly(s.store.flags, s.redis, s.calls[c], move, key, o);
    KindAndProgress(s.store.flags, s.redis, s.calls[c], move);
  }

  lemma KindAndProgress(flags: map<string, Flag>, server: Server, call: Call, move: CallMove)
    requires CanCall(flags, call, move)
    ensures CallAfter(flags, server, call, move).kind == call.kind
    ensures !CallAfter(flags, server, call, move).pc.ToReadCache?
  {
  }

  /** A call moves only by its own steps. */
  lemma OthersKeepCall(s: State, step: Step, c: nat)
    requires Possible(s, step) && c in s.calls && !(step.Go? && step.c == c)
    ensures c in Effect(s, step).calls && Effect(s, step).calls[c] == s.calls[c]
  {
  }

  lemma HistoriesGrow(s: State, step: Step, key: string)
    requires Possible(s, step)
    ensures Hist(s, key) <= Hist(Effect(s, step), key)
  {
  }

  // ---- The look at the cache -----------------------------------------------------------------------

  /** At place i the call looks at the cache, with its flag settled. */
  ghost predicate LooksSettled(run: seq<Step>, i: nat, c: nat, key: string) {
    && i < |run|
    && (run[i] == Go(c, ReadCache) || run[i] == Go(c, ReadCacheFails))
    && var s := After(run[..i]);
       c in s.calls && s.calls[c].kind == EvaluateCall(key) && s.calls[c].pc.ToReadCache? && Settled(s, key)
  }

  /** A hit or a known absence on a settled flag is the database. */
  lemma CacheReadIsExact(server: Server, call: Call, h: History, key: string)
    requires |h| > 0 && FieldFresh(h, |h| - 1, server, key)
    requires call.kind == EvaluateCall(key) && call.pc.ToReadCache?
    ensures
      var call', o := call.(pc := FromCache(server, call)), h[|h| - 1];
      RowExact(call', key, o) && ChildrenExact(call', key, o)
  {
    NewestField(h, server, key);
  }

  lemma LookTracks(s: State, c: nat, move: CallMove, key: string)
    requires HistoryOk(Hist(s, key), key, Current(s, key)) && FieldFresh(Hist(s, key), |Hist(s, key)| - 1, s.redis, key)
    requires c in s.calls && s.calls[c].kind == EvaluateCall(key) && s.calls[c].pc.ToReadCache?
    requires move.ReadCache? || move.ReadCacheFails?
    ensures Tracks(AfterCall(s, c, move), c, key, Current(s, key))
    ensures ChildrenExact(AfterCall(s, c, move).calls[c], key, Current(s, key)) && FindsOwn(s, c, move, key)
  {
    assert Hist(s, key)[|Hist(s, key)| - 1] == Current(s, key);
    var call := s.calls[c];
    if move.ReadCache? {
      CacheReadIsExact(s.redis, call, Hist(s, key), key);
      assert AfterCall(s, c, move) == s.(calls := s.calls[c := call.(pc := FromCache(s.redis, call))]);
    } else {
      assert AfterCall(s, c, move) == s.(calls := s.calls[c := call.(pc := ToReadEpoch)]);
    }
  }

  // ---- Following the call --------------------------------------------------------------------------

  /** The flag as it was at instant t of the run. */
  ghost function FlagAt(run: seq<Step>, t: nat, key: string): Option<Flag>
    requires t <= |run|
  {
    Current(After(run[..t]), key)
  }

  /** At instant t of the call the flag was what the call tracks; its children are exact if nothing tore. */
  ghost predicate Reflects(run: seq<Step>, i: nat, c: nat, key: string, t: nat) {
    && i <= t <= |run|
    && Tracks(After(run), c, key, FlagAt(run, t, key))
    && (ChildrenExact(After(run).calls[c], key, FlagAt(run, t, key)) <==> Untorn(run, i, c, key))
  }

  lemma FirstInstant(run: seq<Step>, c: nat, key: string)
    requires ValidRun(run) && key != COMPLETE_FIELD && run != [] && LooksSettled(run, |run| - 1, c, key)
    ensures Reflects(run, |run| - 1, c, key, |run| - 1)
  {
    var i := |run| - 1;
    var s, last := After(run[..i]), run[i];
    InvAlways(run[..i]);
    SettledField(s, key);
    LookTracks(s, c, last.call, key);
    assert After(run) == AfterCall(s, c, last.call);
    forall j: nat | i <= j < |run| ensures UntornAt(run, j, c, key) {
      assert j == i;
    }
  }

  lemma SettledField(s: State, key: string)
    requires Inv(s) && key != COMPLETE_FIELD && Settled(s, key)
    ensures HistoryOk(Hist(s, key), key, Current(s, key)) && FieldFresh(Hist(s, key), |Hist(s, key)| - 1, s.redis, key)
  {
    SettledIsFresh(s, key);
    StructureOf(s, 0, key);
  }

  lemma NextInstant(run: seq<Step>, i: nat, c: nat, key: string, t: nat) returns (t': nat)
    requires ValidRun(run) && run != [] && key != COMPLETE_FIELD && i < |run| - 1
    requires Reflects(run[..|run| - 1], i, c, key, t)
    ensures Reflects(run, i, c, key, t')
  {
    var before, last := run[..|run| - 1], run[|run| - 1];
    var s := After(before);
    FactsOfCall(before, c, key);
    UntornSplits(run, i, c, key);
    assert before[..t] == run[..t] && run[..|before|] == before;
    t' := t;
    if last.Go? && last.c == c {
      var o' := MoveTracks(s, c, last.call, key, FlagAt(run, t, key));
      t' := if last.call.ReadRows? then |before| else t;
      assert After(run) == AfterCall(s, c, last.call);
    } else {
      OthersKeepCall(s, last, c);
      HistoriesGrow(s, last, key);
    }
  }

  /** The instant whose flag the call tracks. */
  lemma {:induction false} ReflectsAnInstant(run: seq<Step>, i: nat, c: nat, key: string) returns (t: nat)
    requires ValidRun(run) && key != COMPLETE_FIELD && LooksSettled(run, i, c, key)
    ensures Reflects(run, i, c, key, t)
  {
    if i == |run| - 1 {
      FirstInstant(run, c, key);
      t := i;
    } else {
      Prefix(run, i);
      t := ReflectsAnInstant(run[..|run| - 1], i, c, key);
      t := NextInstant(run, i, c, key, t);
    }
  }

  // ---- The refinement ------------------------------------------------------------------------------

  lemma {:induction false} HistoryAt(run: seq<Step>, t: nat, key: string)
    requires ValidRun(run) && t <= |run|
    ensures FlagAt(run, t, key) in Hist(After(run), key)
  {
    if t < |run| {
      Prefix(run, t);
      HistoryAt(run[..|run| - 1], t, key);
      HistoriesGrow(After(run[..|run| - 1]), run[|run| - 1], key);
    } else {
      assert run[..t] == run;
      FactsOfCall(run, 0, key);
      assert Hist(After(run), key)[|Hist(After(run), key)| - 1] == Current(After(run), key);
    }
  }

  /** What the call shows of the flag is the whole flag as it was at instant t. */
  ghost predicate ShowsInstant(run: seq<Step>, c: nat, key: string, t: nat) {
    && t <= |run| && c in After(run).calls && Shows(After(run).calls[c], key)
    && Shown(After(run).calls[c], key) == ViewOf(FlagAt(run, t, key))
  }

  /** Two instants whose rows a view shows have one flag. */
  lemma SameRowSameFlag(h: History, o: Option<Flag>, o': Option<Flag>)
    requires RowsRise(h) && o in h && o' in h && RowPart(o) == RowPart(o')
    ensures o == o'
  {
    if o.Some? {
      RowTellsAll(h, o.value.row, o);
    }
  }

  lemma OneFlagShown(s: State, c: nat, key: string, o: Option<Flag>, o': Option<Flag>)
    requires RowsRise(Hist(s, key)) && Tracks(s, c, key, o) && o' in Hist(s, key)
    requires Shows(s.calls[c], key) && Shown(s.calls[c], key) == ViewOf(o')
    ensures o' == o
  {
    assert RowShown(ViewOf(o')) == RowPart(o');
    SameRowSameFlag(Hist(s, key), o, o');
  }

  lemma OtherInstant(run: seq<Step>, c: nat, key: string, t: nat, t': nat)
    requires ValidRun(run) && t <= |run|
    requires Tracks(After(run), c, key, FlagAt(run, t, key)) && ShowsInstant(run, c, key, t')
    ensures FlagAt(run, t', key) == FlagAt(run, t, key)
  {
    HistoryAt(run, t', key);
    HistoryRises(run, key);
    OneFlagShown(After(run), c, key, FlagAt(run, t, key), FlagAt(run, t', key));
  }

  /** An answered call has no children left to compare but those it shows. */
  lemma ExactWhenShown(run: seq<Step>, c: nat, key: string, t: nat)
    requires t <= |run| && c in After(run).calls && Shows(After(run).calls[c], key)
    ensures ChildrenExact(After(run).calls[c], key, FlagAt(run, t, key)) <==> ShowsInstant(run, c, key, t)
  {
  }

  lemma HistoryRises(run: seq<Step>, key: string)
    requires ValidRun(run)
    ensures RowsRise(Hist(After(run), key))
  {
    FactsOfCall(run, 0, key);
  }

  /**
   The exact condition. A call that looked at the cache while the flag was settled shows the whole
   flag as it was at some instant of the call, if and only if its follow-up queries found the rules
   and the variants the flag had together with the row that was read.
   */
  lemma AnswerIsAnInstantExactly(run: seq<Step>, i: nat, c: nat, key: string)
    requires ValidRun(run) && key != COMPLETE_FIELD && LooksSettled(run, i, c, key)
    requires c in After(run).calls && Shows(After(run).calls[c], key)
    ensures (exists t :: i <= t <= |run| && ShowsInstant(run, c, key, t)) <==> Untorn(run, i, c, key)
  {
    var t := ReflectsAnInstant(run, i, c, key);
    ExactWhenShown(run, c, key, t);
    if t' :| i <= t' <= |run| && ShowsInstant(run, c, key, t') {
      OtherInstant(run, c, key, t, t');
    }
  }

  // ---- Commits that cannot tear ----------------------------------------------------------------------

  /** The flag stays, with its row id, its rules and its variants. */
  ghost predicate KeepsChildren(o: Option<Flag>, o': Option<Flag>) {
    o.Some? ==>
      && o'.Some? && o'.value.row.id == o.value.row.id
      && o'.value.rules == o.value.rules && VariantsPart(o') == VariantsPart(o)
  }

  /** A patch of neither rules nor variants, such as the kill switch itself, keeps them. */
  lemma PlainPatchKeepsChildren(flag: Flag, patch: FlagUpdate, nextId: nat)
    requires patch.rules.None? && patch.variants.None?
    ensures KeepsChildren(Some(flag), Some(ApplyPatch(flag, patch, nextId)))
  {
  }

  /** Every commit of the flag between the call's queries keeps its rules and variants. */
  ghost predicate OnlyPlainCommits(run: seq<Step>, i: nat, c: nat, key: string) {
    forall j: nat :: i <= j < |run| ==> PlainAt(run, j, c, key)
  }

  ghost predicate PlainAt(run: seq<Step>, j: nat, c: nat, key: string)
    requires j < |run|
  {
    PlainBetween(After(run[..j]), After(run[..j + 1]), c, key)
  }

  /** If the call is between its queries, the flag keeps its rules and variants from one state to the other. */
  ghost predicate PlainBetween(s: State, s': State, c: nat, key: string) {
    c in s.calls && MidSnapshot(s.calls[c]) ==> KeepsChildren(Current(s, key), Current(s', key))
  }

  /** Between its queries, the flag still has the children it had with the row the call tracks. */
  ghost predicate ChildrenStand(s: State, c: nat, key: string, o: Option<Flag>) {
    c in s.calls && MidSnapshot(s.calls[c]) ==> KeepsChildren(o, Current(s, key))
  }

  /** A query made while the tracked flag's children stand finds its own. */
  lemma StandingChildrenAreFound(s: State, c: nat, move: CallMove, key: string, o: Option<Flag>)
    requires HistoryOk(Hist(s, key), key, Current(s, key)) && Tracks(s, c, key, o) && ChildrenStand(s, c, key, o)
    requires CanCall(s.store.flags, s.calls[c], move) && RowsUnderKeys(s.calls[c].rows)
    ensures FindsOwn(s, c, move, key)
  {
    if (move.ReadRules? || move.ReadVariants?) && key in s.calls[c].rows {
      RowTellsAll(Hist(s, key), s.calls[c].rows[key], o);
    }
  }

  /** Following the call over plain commits: nothing tears. */
  ghost predicate Stands(run: seq<Step>, i: nat, c: nat, key: string, o: Option<Flag>) {
    Tracks(After(run), c, key, o) && ChildrenStand(After(run), c, key, o) && Untorn(run, i, c, key)
  }

  lemma OwnMoveStands(s: State, c: nat, move: CallMove, key: string, o: Option<Flag>) returns (o': Option<Flag>)
    requires HistoryOk(Hist(s, key), key, Current(s, key)) && Tracks(s, c, key, o) && SnapshotOk(s.calls[c])
    requires CanCall(s.store.flags, s.calls[c], move) && ChildrenStand(s, c, key, o)
    ensures Tracks(AfterCall(s, c, move), c, key, o') && ChildrenStand(AfterCall(s, c, move), c, key, o')
    ensures FindsOwn(s, c, move, key)
  {
    o' := MoveTracks(s, c, move, key, o);
    StandingChildrenAreFound(s, c, move, key, o);
    StillMid(s.store.flags, s.redis, s.calls[c], move);
  }

  lemma StillMid(flags: map<string, Flag>, server: Server, call: Call, move: CallMove)
    requires CanCall(flags, call, move)
    ensures MidSnapshot(CallAfter(flags, server, call, move)) ==> move.ReadRows? || MidSnapshot(call)
  {
  }

  lemma StandsNext(run: seq<Step>, i: nat, c: nat, key: string, o: Option<Flag>) returns (o': Option<Flag>)
    requires ValidRun(run) && run != [] && key != COMPLETE_FIELD && i < |run| - 1
    requires Stands(run[..|run| - 1], i, c, key, o) && PlainAt(run, |run| - 1, c, key)
    ensures Stands(run, i, c, key, o')
  {
    var before, last := run[..|run| - 1], run[|run| - 1];
    var s := After(before);
    FactsOfCall(before, c, key);
    UntornSplits(run, i, c, key);
    assert run[..|run|] == run;
    if last.Go? && last.c == c {
      o' := OwnMoveStands(s, c, last.call, key, o);
      assert After(run) == AfterCall(s, c, last.call);
    } else {
      o' := o;
      OthersKeepCall(s, last, c);
      HistoriesGrow(s, last, key);
    }
  }

  lemma {:induction false} PlainCommitsStand(run: seq<Step>, i: nat, c: nat, key: string) returns (o: Option<Flag>)
    requires ValidRun(run) && key != COMPLETE_FIELD && LooksSettled(run, i, c, key) && OnlyPlainCommits(run, i, c, key)
    ensures Stands(run, i, c, key, o)
  {
    if i == |run| - 1 {
      FirstInstant(run, c, key);
      o := FlagAt(run, i, key);
      LookIsNotMid(run, i, c, key);
    } else {
      var before := run[..|run| - 1];
      Prefix(run, i);
      PlainBefore(run, i, c, key);
      o := PlainCommitsStand(before, i, c, key);
      assert PlainAt(run, |run| - 1, c, key);
      o := StandsNext(run, i, c, key, o);
    }
  }

  lemma LookIsNotMid(run: seq<Step>, i: nat, c: nat, key: string)
    requires ValidRun(run) && i == |run| - 1 && LooksSettled(run, i, c, key) && Reflects(run, i, c, key, i)
    ensures !MidSnapshot(After(run).calls[c]) && Untorn(run, i, c, key)
  {
    var s, last := After(run[..i]), run[i];
    assert After(run) == AfterCall(s, c, last.call);
    forall j: nat | i <= j < |run| ensures UntornAt(run, j, c, key) {
      assert j == i;
    }
  }

  lemma PlainBefore(run: seq<Step>, i: nat, c: nat, key: string)
    requires run != [] && i < |run| && OnlyPlainCommits(run, i, c, key)
    ensures OnlyPlainCommits(run[..|run| - 1], i, c, key)
  {
    var before := run[..|run| - 1];
    forall j: nat | i <= j < |before| ensures PlainAt(before, j, c, key) {
      assert PlainAt(run, j, c, key);
      assert before[..j] == run[..j] && before[..j + 1] == run[..j + 1];
    }
  }

  /**
   No commit that keeps the flag's rules and variants can tear a snapshot: however many of them land
   between the queries, the answer is the whole flag as it was at one instant of the call.
   */
  lemma PlainCommitsDoNotTear(run: seq<Step>, i: nat, c: nat, key: string)
    requires ValidRun(run) && key != COMPLETE_FIELD && LooksSettled(run, i, c, key) && OnlyPlainCommits(run, i, c, key)
    requires c in After(run).calls && Shows(After(run).calls[c], key)
    ensures exists t :: i <= t <= |run| && ShowsInstant(run, c, key, t)
  {
    var o := PlainCommitsStand(run, i, c, key);
    AnswerIsAnInstantExactly(run, i, c, key);
  }

  // ---- Patches that cannot tear ----------------------------------------------------------------------

  /** If the step commits the flag, it creates it or patches neither its rules nor its variants. */
  ghost predicate PatchesPlainly(s: State, step: Step, key: string) {
    CommitsFlag(s, step, key) ==>
      match step.step
      case Create(_, _) => true
      case CommitUpdate(sid) =>
        s.store.sessions[sid].patch.rules.None? && s.store.sessions[sid].patch.variants.None?
      case _ => false
  }

  ghost predicate PatchesPlainlyFor(s: State, step: Step, c: nat, key: string) {
    c in s.calls && MidSnapshot(s.calls[c]) ==> PatchesPlainly(s, step, key)
  }

  lemma PlainCommitKeepsChildren(store: Store.State, sid: nat)
    requires StoreLaws.Inv(store) && Store.DoCommitUpdate(store, sid).1.Done?
    requires store.sessions[sid].patch.rules.None? && store.sessions[sid].patch.variants.None?
    ensures
      var (store', outcome) := Store.DoCommitUpdate(store, sid);
      KeepsChildren(Lookup(store.flags, outcome.key), Lookup(store'.flags, outcome.key))
  {
    var session := store.sessions[sid];
    assert StoreLaws.SessionInPlace(store, sid);
    PlainPatchKeepsChildren(session.base, session.patch, store.nextId);
  }

  lemma FlagWithoutCommit(s: State, step: Step, key: string)
    requires StoreLaws.Inv(s.store) && Possible(s, step) && !CommitsFlag(s, step, key)
    ensures Current(Effect(s, step), key) == Current(s, key)
  {
    match step
    case StoreStep(st) => StoreLaws.RejectionChangesNothing(s.store, st);
    case Commit(m, st) => CommitFacts(s.store, st);
    case _ =>
  }

  lemma PlainStepIsPlain(s: State, step: Step, c: nat, key: string)
    requires StoreLaws.Inv(s.store) && Possible(s, step) && PatchesPlainlyFor(s, step, c, key)
    ensures PlainBetween(s, Effect(s, step), c, key)
  {
    if !(c in s.calls && MidSnapshot(s.calls[c])) {
    } else if CommitsFlag(s, step, key) {
      if step.step.CommitUpdate? {
        PlainCommitKeepsChildren(s.store, step.step.sid);
      }
    } else {
      FlagWithoutCommit(s, step, key);
    }
  }

  /** Between the call's queries, step j replaces neither the flag's rules nor its variants. */
  ghost predicate PatchesPlainlyAt(run: seq<Step>, j: nat, c: nat, key: string)
    requires j < |run|
  {
    PatchesPlainlyFor(After(run[..j]), run[j], c, key)
  }

  lemma LastStepIsPlain(run: seq<Step>, j: nat, c: nat, key: string)
    requires ValidRun(run) && |run| == j + 1 && PatchesPlainlyAt(run, j, c, key)
    ensures PlainBetween(After(run[..j]), After(run), c, key)
  {
    Prefix(run, j);
    StoreAlwaysOk(run[..j]);
    PlainStepIsPlain(After(run[..j]), run[j], c, key);
  }

  lemma TakeTwice<T>(s: seq<T>, j: nat)
    requires j < |s|
    ensures s[..j + 1][..j] == s[..j] && s[..j + 1][j] == s[j]
  {
  }

  lemma PlainPatchIsPlain(run: seq<Step>, j: nat, c: nat, key: string)
    requires ValidRun(run) && j < |run| && PatchesPlainlyAt(run, j, c, key)
    ensures PlainAt(run, j, c, key)
  {
    PrefixIsValid(run, j + 1);
    TakeTwice(run, j);
    LastStepIsPlain(run[..j + 1], j, c, key);
  }

  lemma StoreAlwaysOk(run: seq<Step>)
    requires ValidRun(run)
    ensures StoreLaws.Inv(After(run).store)
  {
    InvAlways(run);
  }

  /**
   The patches of the flag that commit between the queries may change its name, description, percentage,
   off variant and kill switch: if none carries rules or variants, and none is a deletion, the answer is
   the whole flag as it was at one instant of the call.
   */
  lemma PlainPatchesDoNotTear(run: seq<Step>, i: nat, c: nat, key: string)
    requires ValidRun(run) && key != COMPLETE_FIELD && LooksSettled(run, i, c, key)
    requires forall j: nat :: i <= j < |run| ==> PatchesPlainlyAt(run, j, c, key)
    requires c in After(run).calls && Shows(After(run).calls[c], key)
    ensures exists t :: i <= t <= |run| && ShowsInstant(run, c, key, t)
  {
    forall j: nat | i <= j < |run| ensures PlainAt(run, j, c, key) {
      PlainPatchIsPlain(run, j, c, key);
    }
    PlainCommitsDoNotTear(run, i, c, key);
  }

  // ---- The evaluations -------------------------------------------------------------------------------

  /**
   The cached path refines the database path: an untorn call answers, for every user, what the
   database path answers at one instant of the call.
   */
  lemma CachedPathRefinesDatabasePath(run: seq<Step>, i: nat, c: nat, key: string) returns (t: nat)
    requires ValidRun(run) && key != COMPLETE_FIELD && Untorn(run, i, c, key) && LooksSettled(run, i, c, key)
    requires c in After(run).calls && Shows(After(run).calls[c], key)
    ensures i <= t <= |run|
    ensures forall md5, userId, context ::
              EvaluateView(md5, Shown(After(run).calls[c], key), userId, context)
              == EvaluateStored(md5, FlagAt(run, t, key), userId, context)
  {
    AnswerIsAnInstantExactly(run, i, c, key);
    t :| i <= t <= |run| && ShowsInstant(run, c, key, t);
    var flag := FlagAt(run, t, key);
    PrefixIsValid(run, t);
    if flag.Some? {
      StoredVariantsDistinct(run[..t], key);
    }
    forall md5, userId, context
      ensures EvaluateView(md5, Shown(After(run).calls[c], key), userId, context)
           == EvaluateStored(md5, flag, userId, context)
    {
      ViewEvaluatesAsStored(md5, flag, userId, context);
    }
  }
}
