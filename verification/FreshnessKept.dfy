/** Every step of the service keeps a fresh state fresh, and keeps the structure it relies on. */
module FreshnessKept {
  import opened Wrappers
  import opened Models
  import opened Payload
  import opened Redis
  import opened Protocol
  import opened Freshness
  import Store

  // ---- Growing histories ---------------------------------------------------------------------------

  lemma ViewGrows(h: History, h': History, n: nat, v: Option<Entry>)
    requires h <= h' && ViewFresh(h, n, v)
    ensures ViewFresh(h', n, v)
  {
    var a: nat, b: nat, c: nat :| Since(h, n, a) && Since(h, a, b) && Since(h, b, c) && ViewAt(h, v, a, b, c);
    assert Since(h', n, a) && Since(h', a, b) && Since(h', b, c) && ViewAt(h', v, a, b, c);
  }

  lemma RowGrows(h: History, h': History, n: nat, row: Option<Row>)
    requires h <= h' && RowFresh(h, n, row)
    ensures RowFresh(h', n, row)
  {
    var a: nat :| Since(h, n, a) && RowPart(h[a]) == row;
    assert Since(h', n, a) && RowPart(h'[a]) == row;
  }

  lemma RulesGrow(h: History, h': History, n: nat, row: Row, rules: seq<RuleRow>)
    requires h <= h' && RulesFresh(h, n, row, rules)
    ensures RulesFresh(h', n, row, rules)
  {
    var a: nat, b: nat :| Since(h, n, a) && Since(h, a, b) && RulesAt(h, row, rules, a, b);
    assert Since(h', n, a) && Since(h', a, b) && RulesAt(h', row, rules, a, b);
  }

  lemma PartsGrow(h: History, h': History, n: nat, row: Row, rules: seq<RuleRow>, variants: seq<VariantRow>)
    requires h <= h' && PartsFresh(h, n, row, rules, variants)
    ensures PartsFresh(h', n, row, rules, variants)
  {
    var a: nat, b: nat, c: nat :| Since(h, n, a) && Since(h, a, b) && Since(h, b, c)
                                  && RulesAt(h, row, rules, a, b) && VariantsAt(h, row, variants, c);
    assert Since(h', n, a) && Since(h', a, b) && Since(h', b, c);
    assert RulesAt(h', row, rules, a, b) && VariantsAt(h', row, variants, c);
  }

  lemma CallGrows(h: History, h': History, n: nat, call: Call, key: string)
    requires h <= h' && CallFresh(h, n, call, key)
    ensures CallFresh(h', n, call, key)
  {
    if HasRows(call.pc) {
      RowGrows(h, h', n, Lookup(call.rows, key));
    }
    if HasRules(call.pc) && key in call.rows {
      RulesGrow(h, h', n, call.rows[key], RulesFor(call, key));
    }
    if Publishing(call.pc) && key in call.rows {
      PartsGrow(h, h', n, call.rows[key], RulesFor(call, key), VariantsFor(call, key));
    }
  }

  // ---- Reading parts -------------------------------------------------------------------------------

  /** Two rows of one flag with different ids have a deletion between them. */
  lemma {:induction false} DeletedBetween(h: History, a: nat, b: nat) returns (i: nat)
    requires IdsStable(h) && a < b < |h| && h[a].Some? && h[b].Some?
    requires h[a].value.row.id != h[b].value.row.id
    ensures a < i < b && h[i].None?
    decreases b - a
  {
    if h[a + 1].None? {
      i := a + 1;
    } else {
      i := DeletedBetween(h, a + 1, b);
    }
  }

  /**
   Child rows read by a row's id are the flag's own at some instant no earlier than b, if at b the
   flag was in the life of that row or gone.
   */
  lemma ChildrenAt(flags: map<string, Flag>, h: History, key: string, row: Row, b: nat) returns (c: nat)
    requires HistoryOk(h, key, Lookup(flags, key)) && row.key == key && b < |h| && InLifeOf(row, h[b])
    ensures Since(h, b, c) && InLifeOf(row, h[c])
    ensures RulesPart(h[c]) == ChildRules(flags, row) && VariantsPart(h[c]) == InKeyOrder(ChildVariants(flags, row))
  {
    c := |h| - 1;
    if h[c].Some? && h[c].value.row.id != row.id {
      if h[b].None? {
        c := b;
      } else {
        c := DeletedBetween(h, b, c);
      }
    }
  }

  lemma RulesReadAreFresh(flags: map<string, Flag>, h: History, key: string, n: nat, row: Row)
    requires HistoryOk(h, key, Lookup(flags, key)) && row.key == key && RowFresh(h, n, Some(row))
    ensures RulesFresh(h, n, row, ChildRules(flags, row))
  {
    var a: nat :| Since(h, n, a) && RowPart(h[a]) == Some(row);
    var b := ChildrenAt(flags, h, key, row, a);
    assert RulesAt(h, row, ChildRules(flags, row), a, b);
  }

  lemma VariantsReadAreFresh(flags: map<string, Flag>, h: History, key: string, n: nat, row: Row, rules: seq<RuleRow>)
    requires HistoryOk(h, key, Lookup(flags, key)) && row.key == key && RulesFresh(h, n, row, rules)
    ensures PartsFresh(h, n, row, rules, InKeyOrder(ChildVariants(flags, row)))
  {
    var a: nat, b: nat :| Since(h, n, a) && Since(h, a, b) && RulesAt(h, row, rules, a, b);
    var c := ChildrenAt(flags, h, key, row, b);
    assert VariantsAt(h, row, InKeyOrder(ChildVariants(flags, row)), c);
  }

  lemma ChildRulesStrict(flags: map<string, Flag>, h: History, row: Row)
    requires HistoryOk(h, row.key, Lookup(flags, row.key))
    ensures StrictlyByPriority(ChildRules(flags, row))
  {
    assert FlagOk(h[|h| - 1], row.key);
  }

  /** A snapshot that is fresh for a flag yields a fresh view of it. */
  lemma MappingIsFresh(h: History, n: nat, call: Call, key: string)
    requires Publishing(call.pc) && CallFresh(h, n, call, key)
    ensures ViewFresh(h, n, Lookup(Mapping(call), key))
  {
    ViewFromParts(h, n, Lookup(call.rows, key), RulesFor(call, key), VariantsFor(call, key));
  }

  // ---- Calls ---------------------------------------------------------------------------------------

  predicate ReadsDatabase(move: CallMove) {
    move.ReadRows? || move.ReadRules? || move.ReadVariants?
  }

  lemma RowsAreFresh(flags: map<string, Flag>, call: Call, h: History, key: string, n: nat, rows: map<string, Row>)
    requires HistoryOk(h, key, Lookup(flags, key)) && n < |h| && rows == map k | k in flags :: flags[k].row
    ensures CallFresh(h, n, call.(pc := ToReadRules, rows := rows), key)
  {
    assert Since(h, n, |h| - 1) && RowPart(h[|h| - 1]) == Lookup(rows, key);
  }

  lemma RulesAreFresh(flags: map<string, Flag>, call: Call, h: History, key: string, n: nat,
                      loaded: map<string, seq<RuleRow>>)
    requires HistoryOk(h, key, Lookup(flags, key)) && call.pc.ToReadRules? && CallFresh(h, n, call, key)
    requires loaded.Keys == call.rows.Keys
    requires forall k :: k in loaded ==> Reloaded(ChildRules(flags, call.rows[k]), loaded[k])
    requires key in call.rows ==> call.rows[key].key == key
    ensures CallFresh(h, n, call.(pc := ToReadVariants, rules := loaded), key)
  {
    if key in call.rows {
      RulesReadAreFresh(flags, h, key, n, call.rows[key]);
      ChildRulesStrict(flags, h, call.rows[key]);
      ReloadOfStrict(ChildRules(flags, call.rows[key]), loaded[key]);
    }
  }

  lemma VariantsAreFresh(flags: map<string, Flag>, call: Call, h: History, key: string, n: nat, pc: CallPc,
                         variants: map<string, seq<VariantRow>>)
    requires HistoryOk(h, key, Lookup(flags, key)) && call.pc.ToReadVariants? && CallFresh(h, n, call, key)
    requires variants == map k | k in call.rows :: InKeyOrder(ChildVariants(flags, call.rows[k]))
    requires key in call.rows ==> call.rows[key].key == key
    ensures CallFresh(h, n, call.(pc := pc, variants := variants), key)
  {
    if key in call.rows {
      VariantsReadAreFresh(flags, h, key, n, call.rows[key], RulesFor(call, key));
    }
  }

  /** What a call reads from the database is fresh, for every age the flag's history has. */
  lemma SnapshotIsFresh(flags: map<string, Flag>, server: Server, call: Call, move: CallMove, h: History, key: string,
                        n: nat)
    requires CanCall(flags, call, move) && ReadsDatabase(move)
    requires HistoryOk(h, key, Lookup(flags, key)) && n < |h| && CallFresh(h, n, call, key) && CallOk(server, call)
    ensures CallFresh(h, n, CallAfter(flags, server, call, move), key)
  {
    match move
    case ReadRows => RowsAreFresh(flags, call, h, key, n, map k | k in flags :: flags[k].row);
    case ReadRules(loaded) => RulesAreFresh(flags, call, h, key, n, loaded);
    case ReadVariants =>
      VariantsAreFresh(flags, call, h, key, n, if call.epoch.Some? then ToWatch else ToWriteUnfenced,
                       map k | k in call.rows :: InKeyOrder(ChildVariants(flags, call.rows[k])));
  }

  /** Only these moves leave a call holding rows. */
  lemma HoldsRowsAfter(flags: map<string, Flag>, server: Server, call: Call, move: CallMove)
    requires CanCall(flags, call, move) && HasRows(CallAfter(flags, server, call, move).pc)
    ensures ReadsDatabase(move) || move.Watch? || move.Compare?
  {
  }

  /** A call that could publish after a move could before it: no move revives a fenced-off snapshot. */
  lemma LiveBefore(flags: map<string, Flag>, server: Server, call: Call, move: CallMove)
    requires CanCall(flags, call, move) && CallOk(server, call)
    requires move.ReadRules? || move.ReadVariants? || move.Watch? || move.Compare?
    requires Live(CallServer(server, call, move), CallAfter(flags, server, call, move))
    ensures Live(server, call)
  {
    match move
    case ReadRules(_) =>
    case ReadVariants =>
    case Watch =>
    case Compare =>
  }

  lemma QuietlyFresh(flags: map<string, Flag>, server: Server, call: Call, move: CallMove, h: History, key: string,
                     n: nat)
    requires CanCall(flags, call, move) && (move.Watch? || move.Compare?) && CallFresh(h, n, call, key)
    ensures CallFresh(h, n, CallAfter(flags, server, call, move), key)
  {
  }

  /** No move of a call makes a stale snapshot publishable. */
  lemma CallStaysFresh(flags: map<string, Flag>, server: Server, call: Call, move: CallMove, h: History, key: string,
                       n: nat)
    requires CanCall(flags, call, move) && !move.WriteUnfenced?
    requires HistoryOk(h, key, Lookup(flags, key)) && n < |h| && CallOk(server, call)
    requires Live(server, call) ==> CallFresh(h, n, call, key)
    requires Live(CallServer(server, call, move), CallAfter(flags, server, call, move))
    ensures CallFresh(h, n, CallAfter(flags, server, call, move), key)
  {
    if HasRows(CallAfter(flags, server, call, move).pc) {
      HoldsRowsAfter(flags, server, call, move);
      if !move.ReadRows? {
        LiveBefore(flags, server, call, move);
      }
      if ReadsDatabase(move) {
        SnapshotIsFresh(flags, server, call, move, h, key, n);
      } else {
        QuietlyFresh(flags, server, call, move, h, key, n);
      }
    }
  }

  // ---- Rebuilds ------------------------------------------------------------------------------------

  /** A step that changes no live call, or only to one with fresh parts. */
  lemma RebuildsFrame(s: State, s': State, key: string, n: nat)
    requires RebuildsFresh(s, key, n) && Hist(s, key) <= Hist(s', key)
    requires forall c :: c in s'.calls && Live(s'.redis, s'.calls[c]) ==>
               || (c in s.calls && s.calls[c] == s'.calls[c] && Live(s.redis, s.calls[c]))
               || CallFresh(Hist(s', key), n, s'.calls[c], key)
    ensures RebuildsFresh(s', key, n)
  {
    forall c | c in s'.calls && Live(s'.redis, s'.calls[c]) ensures CallFresh(Hist(s', key), n, s'.calls[c], key) {
      if c in s.calls && s.calls[c] == s'.calls[c] && Live(s.redis, s.calls[c]) {
        CallGrows(Hist(s, key), Hist(s', key), n, s.calls[c], key);
      }
    }
  }

  /** After a bump of the epoch no call is live. */
  lemma BumpKillsRebuilds(s: State, m: nat, key: string, n: nat)
    requires Structure(s) && m in s.mutators
    ensures RebuildsFresh(AfterNotify(s, m, IncrEpoch), key, n)
  {
    var s' := AfterNotify(s, m, IncrEpoch);
    forall c | c in s'.calls ensures !Live(s'.redis, s'.calls[c]) {
      assert CallOk(s.redis, s.calls[c]);
    }
  }

  lemma RebuildsAfterNotify(s: State, m: nat, move: MutatorMove, key: string, n: nat)
    requires Structure(s) && m in s.mutators && RebuildsFresh(s, key, n)
    ensures RebuildsFresh(AfterNotify(s, m, move), key, n)
  {
    if move.IncrEpoch? {
      BumpKillsRebuilds(s, m, key, n);
    } else {
      var s' := AfterNotify(s, m, move);
      assert EpochOrZero(s'.redis) == EpochOrZero(s.redis) && s'.redis.touched == s.redis.touched;
      RebuildsFrame(s, s', key, n);
    }
  }

  lemma RebuildsAfterCall(s: State, c: nat, move: CallMove, key: string, n: nat)
    requires Structure(s) && c in s.calls && CanCall(s.store.flags, s.calls[c], move) && !move.WriteUnfenced?
    requires RebuildsFresh(s, key, n) && n < |Hist(s, key)|
    ensures RebuildsFresh(AfterCall(s, c, move), key, n)
  {
    var s' := AfterCall(s, c, move);
    assert HistoryOk(Hist(s, key), key, Current(s, key));
    if Live(s'.redis, s'.calls[c]) {
      CallStaysFresh(s.store.flags, s.redis, s.calls[c], move, Hist(s, key), key, n);
    }
    assert EpochOrZero(s'.redis) == EpochOrZero(s.redis) && s'.redis.touched == s.redis.touched;
    RebuildsFrame(s, s', key, n);
  }

  lemma RebuildsAfterCommit(s: State, m: nat, store': Store.State, k: string, key: string, n: nat)
    requires RebuildsFresh(s, key, n)
    ensures RebuildsFresh(AfterCommit(s, m, store', k), key, n)
  {
    RebuildsFrame(s, AfterCommit(s, m, store', k), key, n);
  }

  // ---- The cached field ----------------------------------------------------------------------------

  lemma FieldGrows(h: History, h': History, n: nat, server: Server, key: string)
    requires h <= h' && FieldFresh(h, n, server, key)
    ensures FieldFresh(h', n, server, key)
  {
    match FlagAnswer(server, key)
    case Hit(cell) => ViewGrows(h, h', n, Some(cell.entry));
    case KnownAbsent => ViewGrows(h, h', n, None);
    case Cold =>
  }

  lemma FieldAfterWrite(h: History, server: Server, mut: Mutator, key: string, n: nat)
    requires FieldFresh(h, n, server, key) && key != COMPLETE_FIELD && mut.key != COMPLETE_FIELD
    requires mut.key == key ==> Since(h, n, mut.index) && h[mut.index] == mut.after
    ensures FieldFresh(h, n, NotifyServer(server, mut, WriteField), key)
  {
    if mut.key == key {
      WholeIsFresh(h, n, mut.index);
    } else {
      assert FlagAnswer(NotifyServer(server, mut, WriteField), key) == FlagAnswer(server, key);
    }
  }

  lemma FieldAfterNotify(s: State, m: nat, move: MutatorMove, key: string, n: nat)
    requires m in s.mutators && CanNotify(s.mutators[m], move)
    requires MutatorOk(Hist(s, s.mutators[m].key), s.mutators[m]) && Fresh(s, key, n) && key != COMPLETE_FIELD
    ensures FieldFresh(Hist(s, key), n, NotifyServer(s.redis, s.mutators[m], move), key)
  {
    var mut := s.mutators[m];
    if move.WriteField? {
      FieldAfterWrite(Hist(s, key), s.redis, mut, key, n);
    } else {
      OnlyWritesTouchFields(s.redis, mut, move);
    }
  }

  lemma OnlyWritesTouchFields(server: Server, mut: Mutator, move: MutatorMove)
    requires !move.WriteField?
    ensures NotifyServer(server, mut, move).hash == server.hash
  {
  }

  lemma FieldAfterReplace(h: History, server: Server, mapping: map<string, Entry>, key: string, n: nat)
    requires ViewFresh(h, n, Lookup(mapping, key)) && key != COMPLETE_FIELD
    ensures FieldFresh(h, n, Replace(server, mapping), key)
  {
    assert FlagAnswer(Replace(server, mapping), key)
        == if key in mapping then Hit(Json(mapping[key])) else KnownAbsent;
  }

  lemma FieldAfterCall(s: State, c: nat, move: CallMove, key: string, n: nat)
    requires Structure(s) && c in s.calls && CanCall(s.store.flags, s.calls[c], move) && !move.WriteUnfenced?
    requires Fresh(s, key, n) && key != COMPLETE_FIELD
    ensures FieldFresh(Hist(s, key), n, CallServer(s.redis, s.calls[c], move), key)
  {
    var call := s.calls[c];
    if move.Exec? && s.redis.touched == call.watched {
      assert CallOk(s.redis, call);
      MappingIsFresh(Hist(s, key), n, call, key);
      FieldAfterReplace(Hist(s, key), s.redis, Mapping(call), key, n);
    }
  }

  // ---- Freshness is never lost ---------------------------------------------------------------------

  lemma FreshAfterCommit(s: State, m: nat, store': Store.State, k: string, key: string, n: nat)
    requires Fresh(s, key, n) && m !in s.mutators
    ensures Fresh(AfterCommit(s, m, store', k), key, n)
  {
    var s' := AfterCommit(s, m, store', k);
    RebuildsAfterCommit(s, m, store', k, key, n);
    FieldGrows(Hist(s, key), Hist(s', key), n, s.redis, key);
  }

  lemma FreshAfterNotify(s: State, m: nat, move: MutatorMove, key: string, n: nat)
    requires Structure(s) && m in s.mutators && CanNotify(s.mutators[m], move)
    requires Fresh(s, key, n) && key != COMPLETE_FIELD
    ensures Fresh(AfterNotify(s, m, move), key, n)
  {
    var s' := AfterNotify(s, m, move);
    assert Hist(s', key) == Hist(s, key);
    assert MutatorOk(Hist(s, s.mutators[m].key), s.mutators[m]);
    FieldAfterNotify(s, m, move, key, n);
    RebuildsAfterNotify(s, m, move, key, n);
    assert WritersFresh(s', key, n);
  }

  lemma FreshAfterCall(s: State, c: nat, move: CallMove, key: string, n: nat)
    requires Structure(s) && c in s.calls && CanCall(s.store.flags, s.calls[c], move) && !move.WriteUnfenced?
    requires Fresh(s, key, n) && key != COMPLETE_FIELD
    ensures Fresh(AfterCall(s, c, move), key, n)
  {
    assert Hist(AfterCall(s, c, move), key) == Hist(s, key);
    FieldAfterCall(s, c, move, key, n);
    RebuildsAfterCall(s, c, move, key, n);
  }

  lemma FreshAfterExpiry(s: State, server: Server, key: string, n: nat)
    requires Fresh(s, key, n)
    requires server.epoch == s.redis.epoch && server.touched == s.redis.touched
    requires server.hash == s.redis.hash || server.hash == map[]
    ensures Fresh(s.(redis := server), key, n)
  {
    RebuildsFrame(s, s.(redis := server), key, n);
  }

  lemma FreshAfterBegin(s: State, c: nat, kind: Kind, key: string, n: nat)
    requires Fresh(s, key, n)
    ensures Fresh(s.(calls := s.calls[c := NewCall(kind)]), key, n)
  {
    RebuildsFrame(s, s.(calls := s.calls[c := NewCall(kind)]), key, n);
  }

  /** Freshness is never lost: not to a commit, a rebuild, an expiry or a failure. */
  lemma FreshKept(s: State, step: Step, key: string, n: nat)
    requires Structure(s) && Enabled(s, step) && Fresh(s, key, n) && key != COMPLETE_FIELD
    ensures Fresh(Effect(s, step), key, n)
  {
    match step
    case StoreStep(st) =>
      RebuildsFrame(s, Effect(s, step), key, n);
    case Commit(m, st) => FreshAfterCommit(s, m, Store.Do(s.store, st).0, Store.Do(s.store, st).1.key, key, n);
    case Notify(m, move) => FreshAfterNotify(s, m, move, key, n);
    case Begin(c, kind) => FreshAfterBegin(s, c, kind, key, n);
    case Go(c, move) => FreshAfterCall(s, c, move, key, n);
    case Second => FreshAfterExpiry(s, Tick(s.redis), key, n);
    case Evict => FreshAfterExpiry(s, Del(s.redis), key, n);
    case Flush =>
  }
}
