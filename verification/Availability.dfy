/**
 That the service answers: /evaluate with Redis or without it, from a warm cache at once, and every
 notify, left alone, to its end.
 */
module Availability {
  import opened Wrappers
  import opened Ordering
  import opened Models
  import opened Payload
  import opened Redis
  import opened Protocol
  import opened Freshness
  import opened Reachable
  import opened CacheLaws
  import Healing
  import SdkStream
  import opened Sequential

  // ---- /evaluate never fails -------------------------------------------------------------------------

  lemma MoveDoesNotAbort(flags: map<string, Flag>, server: Server, call: Call, move: CallMove)
    requires CanCall(flags, call, move) && call.kind.EvaluateCall?
    requires call.kind.key in server.hash ==> server.hash[call.kind.key].Json?
    ensures !CallAfter(flags, server, call, move).pc.Aborted?
  {
  }

  lemma CallKeeps(s: State, step: Step, c: nat)
    requires Possible(s, step) && c in Effect(s, step).calls
    ensures (c in s.calls && Effect(s, step).calls[c] == s.calls[c])
         || (step.Begin? && step.c == c && Effect(s, step).calls[c] == NewCall(step.kind))
         || (step.Go? && step.c == c && c in s.calls
             && Effect(s, step).calls[c] == CallAfter(s.store.flags, s.redis, s.calls[c], step.call))
  {
  }

  lemma {:induction false} KindIsNoMarker(run: seq<Step>, c: nat)
    requires ValidRun(run) && c in After(run).calls && After(run).calls[c].kind.EvaluateCall?
    ensures After(run).calls[c].kind.key != COMPLETE_FIELD
  {
    var before, last := run[..|run| - 1], run[|run| - 1];
    CallKeeps(After(before), last, c);
    if c in After(before).calls && After(before).calls[c].kind.EvaluateCall? {
      KindIsNoMarker(before, c);
    }
  }

  /** No call to /evaluate ever fails, whatever Redis does. */
  lemma {:induction false} EvaluateNeverFails(run: seq<Step>, c: nat)
    requires ValidRun(run) && c in After(run).calls && After(run).calls[c].kind.EvaluateCall?
    ensures !After(run).calls[c].pc.Aborted?
  {
    var before, last := run[..|run| - 1], run[|run| - 1];
    CallKeeps(After(before), last, c);
    if c in After(before).calls && After(before).calls[c].kind.EvaluateCall? {
      EvaluateNeverFails(before, c);
      if last.Go? && last.c == c {
        KindIsNoMarker(before, c);
        Healing.CellIsJson(before, After(before).calls[c].kind.key);
        MoveDoesNotAbort(After(before).store.flags, After(before).redis, After(before).calls[c], last.call);
      }
    }
  }

  /** A call to /ruleset fails on exactly the moves on which Redis does. */
  lemma RulesetFailsExactly(flags: map<string, Flag>, server: Server, call: Call, move: CallMove)
    requires CanCall(flags, call, move) && call.kind.RulesetCall?
    ensures CallAfter(flags, server, call, move).pc.Aborted?
       <==> move.ReadCacheFails? || move.ReadEpochFails? || move.WriteFails?
  {
  }

  // ---- Three queries in a row ------------------------------------------------------------------------

  lemma OwnChildren(flags: map<string, Flag>, key: string)
    requires key in flags && flags[key].row.key == key
    ensures FlagPayload(Flag(flags[key].row, ChildRules(flags, flags[key].row),
                             InKeyOrder(ChildVariants(flags, flags[key].row))))
         == FlagPayload(flags[key])
  {
    SortIdempotent(flags[key].variants, RowKey);
  }

  lemma FlagsInPlace(run: seq<Step>)
    requires ValidRun(run)
    ensures forall k :: k in After(run).store.flags ==>
              After(run).store.flags[k].row.key == k && StrictlyByPriority(After(run).store.flags[k].rules)
  {
    forall k | k in After(run).store.flags
      ensures After(run).store.flags[k].row.key == k && StrictlyByPriority(After(run).store.flags[k].rules)
    {
      FactsOfCall(run, 0, k);
      var h := Hist(After(run), k);
      assert FlagOk(h[|h| - 1], k);
    }
  }

  function AllRows(flags: map<string, Flag>): map<string, Row> {
    map k | k in flags :: flags[k].row
  }

  function AllRules(flags: map<string, Flag>): map<string, seq<RuleRow>> {
    map k | k in flags :: ChildRules(flags, flags[k].row)
  }

  function AllVariants(flags: map<string, Flag>): map<string, seq<VariantRow>> {
    map k | k in flags :: InKeyOrder(ChildVariants(flags, flags[k].row))
  }

  /** The state with the call moved on. */
  function Moved(s: State, c: nat, call: Call): State {
    s.(calls := s.calls[c := call])
  }

  /** Only the call has moved. */
  predicate OnlyCall(s: State, s': State, c: nat) {
    c in s'.calls && s' == Moved(s, c, s'.calls[c])
  }

  lemma QueryRows(run: seq<Step>, c: nat) returns (longer: seq<Step>)
    requires ValidRun(run) && c in After(run).calls && After(run).calls[c].pc.ToReadRows?
    ensures ValidRun(longer) && run <= longer
    ensures After(longer)
         == Moved(After(run), c, After(run).calls[c].(pc := ToReadRules, rows := AllRows(After(run).store.flags)))
  {
    longer := Healing.ExtendCall(run, c, ReadRows);
  }

  lemma QueryRules(run: seq<Step>, c: nat) returns (longer: seq<Step>)
    requires ValidRun(run) && c in After(run).calls && After(run).calls[c].pc.ToReadRules?
    requires After(run).calls[c].rows == AllRows(After(run).store.flags)
    ensures ValidRun(longer) && run <= longer
    ensures After(longer)
         == Moved(After(run), c, After(run).calls[c].(pc := ToReadVariants, rules := AllRules(After(run).store.flags)))
  {
    FlagsInPlace(run);
    longer := Healing.ExtendCall(run, c, ReadRules(AllRules(After(run).store.flags)));
  }

  lemma QueryVariants(run: seq<Step>, c: nat) returns (longer: seq<Step>)
    requires ValidRun(run) && c in After(run).calls && After(run).calls[c].pc.ToReadVariants?
    requires After(run).calls[c].rows == AllRows(After(run).store.flags)
    ensures ValidRun(longer) && run <= longer
    ensures
      var call := After(run).calls[c];
      After(longer) == Moved(After(run), c, call.(pc := if call.epoch.Some? then ToWatch else ToWriteUnfenced,
                                                  variants := AllVariants(After(run).store.flags)))
  {
    VariantsOfAll(After(run).store.flags, After(run).calls[c]);
    longer := Healing.ExtendCall(run, c, ReadVariants);
  }

  lemma VariantsOfAll(flags: map<string, Flag>, call: Call)
    requires call.rows == AllRows(flags)
    ensures (map k | k in call.rows :: InKeyOrder(ChildVariants(flags, call.rows[k]))) == AllVariants(flags)
  {
  }

  lemma MovedOn(s: State, c: nat, first: Call, second: Call)
    ensures Moved(Moved(s, c, first), c, second) == Moved(s, c, second)
  {
  }

  /** The call with the whole database read, ready to publish it. */
  function Loaded(flags: map<string, Flag>, call: Call): Call {
    call.(pc := if call.epoch.Some? then ToWatch else ToWriteUnfenced,
          rows := AllRows(flags), rules := AllRules(flags), variants := AllVariants(flags))
  }

  /** The three queries, one after the other. */
  lemma ReadDatabase(run: seq<Step>, c: nat) returns (longer: seq<Step>)
    requires ValidRun(run) && c in After(run).calls && After(run).calls[c].pc.ToReadRows?
    ensures ValidRun(longer) && run <= longer
    ensures After(longer) == Moved(After(run), c, Loaded(After(run).store.flags, After(run).calls[c]))
    ensures Mapping(After(longer).calls[c]) == SdkStream.Payloads(After(run).store.flags)
  {
    var flags, call := After(run).store.flags, After(run).calls[c];
    var rows := QueryRows(run, c);
    var rules := QueryRules(rows, c);
    MovedOn(After(run), c, After(rows).calls[c], After(rules).calls[c]);
    longer := QueryVariants(rules, c);
    MovedOn(After(run), c, After(rules).calls[c], After(longer).calls[c]);
    LoadedIsWhole(run, call);
  }

  lemma LoadedIsWhole(run: seq<Step>, call: Call)
    requires ValidRun(run)
    ensures Mapping(Loaded(After(run).store.flags, call)) == SdkStream.Payloads(After(run).store.flags)
  {
    FlagsInPlace(run);
    WholeMapping(After(run).store.flags, Loaded(After(run).store.flags, call));
  }

  lemma WholeMapping(flags: map<string, Flag>, call: Call)
    requires forall k :: k in flags ==> flags[k].row.key == k
    requires call.rows == AllRows(flags) && call.rules == AllRules(flags) && call.variants == AllVariants(flags)
    ensures Mapping(call) == SdkStream.Payloads(flags)
  {
    forall k | k in flags ensures Mapping(call)[k] == FlagPayload(flags[k]) {
      OwnChildren(flags, k);
    }
  }

  // ---- With Redis, or without it ---------------------------------------------------------------------

  /** What the database answers to a call. */
  function FromDatabase(s: State, kind: Kind): Answer {
    match kind
    case EvaluateCall(key) => FlagView(ViewOf(Current(s, key)))
    case RulesetCall => RulesetView(SdkStream.Payloads(s.store.flags))
  }

  predicate EvaluatesAFlag(kind: Kind) {
    kind.EvaluateCall? ==> kind.key != COMPLETE_FIELD
  }

  lemma BeginCall(run: seq<Step>, c: nat, kind: Kind) returns (longer: seq<Step>)
    requires ValidRun(run) && c !in After(run).calls && EvaluatesAFlag(kind)
    ensures ValidRun(longer) && run <= longer && After(longer) == Moved(After(run), c, NewCall(kind))
  {
    longer := Healing.Extend(run, Begin(c, kind));
  }

  lemma CallMoves(run: seq<Step>, c: nat, move: CallMove) returns (longer: seq<Step>)
    requires ValidRun(run) && c in After(run).calls && !move.WriteUnfenced?
    requires CanCall(After(run).store.flags, After(run).calls[c], move)
    requires CallServer(After(run).redis, After(run).calls[c], move) == After(run).redis
    ensures ValidRun(longer) && run <= longer
    ensures
      var s := After(run);
      After(longer) == Moved(s, c, CallAfter(s.store.flags, s.redis, s.calls[c], move))
  {
    longer := Healing.ExtendCall(run, c, move);
  }

  /** A call whose every Redis command fails, from its start to its three queries. */
  lemma BeginWithoutRedis(run: seq<Step>, c: nat, key: string) returns (longer: seq<Step>)
    requires ValidRun(run) && c !in After(run).calls && key != COMPLETE_FIELD
    ensures ValidRun(longer) && run <= longer
    ensures After(longer) == Moved(After(run), c, NewCall(EvaluateCall(key)).(pc := ToReadRows))
  {
    var s, call := After(run), NewCall(EvaluateCall(key));
    var begun := BeginCall(run, c, EvaluateCall(key));
    var looked := CallMoves(begun, c, ReadCacheFails);
    MovedOn(s, c, call, call.(pc := ToReadEpoch));
    longer := CallMoves(looked, c, ReadEpochFails);
    MovedOn(s, c, call.(pc := ToReadEpoch), call.(pc := ToReadRows));
  }

  lemma LoadedAnswers(flags: map<string, Flag>, call: Call)
    requires Mapping(call) == SdkStream.Payloads(flags)
    ensures FromMapping(call).pc
         == Answered(match call.kind
                     case EvaluateCall(key) => FlagView(ViewOf(Lookup(flags, key)))
                     case RulesetCall => RulesetView(SdkStream.Payloads(flags)))
  {
  }

  /**
   Without Redis. If every Redis command of a call to /evaluate fails, it answers what the database holds,
   and nothing but the call has changed.
   */
  lemma AnswersWithoutRedis(run: seq<Step>, c: nat, key: string) returns (longer: seq<Step>)
    requires ValidRun(run) && c !in After(run).calls && key != COMPLETE_FIELD
    ensures ValidRun(longer) && run <= longer && OnlyCall(After(run), After(longer), c)
    ensures After(longer).calls[c].pc == Answered(FromDatabase(After(run), EvaluateCall(key)))
  {
    var begun := BeginWithoutRedis(run, c, key);
    var loaded := ReadDatabase(begun, c);
    MovedOn(After(run), c, After(begun).calls[c], After(loaded).calls[c]);
    LoadedAnswers(After(run).store.flags, After(loaded).calls[c]);
    longer := CallMoves(loaded, c, WriteFails);
    MovedOn(After(run), c, After(loaded).calls[c], After(longer).calls[c]);
  }

  /** A call that finds the cache cold, up to its three queries. */
  lemma BeginCold(run: seq<Step>, c: nat, kind: Kind) returns (longer: seq<Step>)
    requires ValidRun(run) && c !in After(run).calls && EvaluatesAFlag(kind)
    requires FromCache(After(run).redis, NewCall(kind)).ToReadEpoch?
    ensures ValidRun(longer) && run <= longer
    ensures After(longer)
         == Moved(After(run), c, NewCall(kind).(pc := ToReadRows, epoch := Some(EpochOrZero(After(run).redis))))
  {
    var s, call := After(run), NewCall(kind);
    var begun := BeginCall(run, c, kind);
    var looked := CallMoves(begun, c, ReadCache);
    MovedOn(s, c, call, call.(pc := ToReadEpoch));
    longer := CallMoves(looked, c, ReadEpoch);
    MovedOn(s, c, call.(pc := ToReadEpoch), call.(pc := ToReadRows, epoch := Some(EpochOrZero(s.redis))));
  }

  /** Undisturbed, a fenced call passes its fence. */
  lemma PassFence(run: seq<Step>, c: nat) returns (longer: seq<Step>)
    requires ValidRun(run) && c in After(run).calls && After(run).calls[c].pc.ToWatch?
    requires After(run).calls[c].epoch == Some(EpochOrZero(After(run).redis))
    ensures ValidRun(longer) && run <= longer
    ensures After(longer)
         == Moved(After(run), c, After(run).calls[c].(pc := ToExec, watched := After(run).redis.touched))
  {
    var s, call := After(run), After(run).calls[c];
    var watched := CallMoves(run, c, Watch);
    longer := CallMoves(watched, c, Compare);
    MovedOn(s, c, call.(pc := ToCompare, watched := s.redis.touched),
            call.(pc := ToExec, watched := s.redis.touched));
  }

  /** What is left of a call that publishes and answers. */
  ghost predicate Filled(s: State, s': State, c: nat, call: Call) {
    && s'.store == s.store && s'.history == s.history
    && s'.redis == Replace(s.redis, Mapping(call))
    && c in s'.calls && s'.calls[c].pc == FromMapping(call).pc
  }

  lemma ExecNow(run: seq<Step>, c: nat) returns (longer: seq<Step>)
    requires ValidRun(run) && c in After(run).calls && After(run).calls[c].pc.ToExec?
    requires After(run).calls[c].watched == After(run).redis.touched
    ensures ValidRun(longer) && run <= longer && Filled(After(run), After(longer), c, After(run).calls[c])
  {
    longer := Healing.ExtendCall(run, c, Exec);
  }

  lemma SameMapping(call: Call, pc: CallPc, watched: nat)
    ensures Mapping(call.(pc := pc, watched := watched)) == Mapping(call)
    ensures FromMapping(call.(pc := pc, watched := watched)).pc == FromMapping(call).pc
  {
  }

  /** From the end of its queries, undisturbed, a fenced call publishes and answers. */
  lemma PublishLoaded(run: seq<Step>, c: nat) returns (longer: seq<Step>)
    requires ValidRun(run) && c in After(run).calls && After(run).calls[c].pc.ToWatch?
    requires After(run).calls[c].epoch == Some(EpochOrZero(After(run).redis))
    ensures ValidRun(longer) && run <= longer && Filled(After(run), After(longer), c, After(run).calls[c])
  {
    var passed := PassFence(run, c);
    SameMapping(After(run).calls[c], ToExec, After(run).redis.touched);
    longer := ExecNow(passed, c);
  }

  /** The call has answered what the database holds, and the cache holds all of it, for a full lifetime. */
  ghost predicate FilledAndAnswered(s: State, s': State, c: nat, kind: Kind) {
    && c in s'.calls && s'.calls[c].pc == Answered(FromDatabase(s, kind)) && s'.store == s.store
    && s'.redis == Replace(s.redis, SdkStream.Payloads(s.store.flags))
  }

  /**
   A cold cache is filled. A call that finds the cache cold and is not disturbed answers what the database
   holds, and leaves the cache holding all of it, for a full lifetime.
   */
  lemma ColdCallFillsCache(run: seq<Step>, c: nat, kind: Kind) returns (longer: seq<Step>)
    requires ValidRun(run) && c !in After(run).calls && EvaluatesAFlag(kind)
    requires FromCache(After(run).redis, NewCall(kind)).ToReadEpoch?
    ensures ValidRun(longer) && run <= longer && FilledAndAnswered(After(run), After(longer), c, kind)
  {
    var begun := BeginCold(run, c, kind);
    var loaded := ReadDatabase(begun, c);
    LoadedAnswers(After(run).store.flags, After(loaded).calls[c]);
    longer := PublishLoaded(loaded, c);
  }

  /** With its flag settled, a field or a known absence answers for the database at once. */
  lemma WarmEvaluation(run: seq<Step>, c: nat, key: string) returns (longer: seq<Step>)
    requires ValidRun(run) && c !in After(run).calls && key != COMPLETE_FIELD
    requires Settled(After(run), key) && !FlagAnswer(After(run).redis, key).Cold?
    ensures ValidRun(longer) && longer == run + [Begin(c, EvaluateCall(key)), Go(c, ReadCache)]
    ensures c in After(longer).calls
    ensures After(longer).calls[c].pc == Answered(FromDatabase(After(run), EvaluateCall(key)))
  {
    longer := Healing.LookNow(run, c, key);
    Coherence(run, key);
  }

  /** With every flag settled, a marked hash answers /ruleset with the whole database at once. */
  lemma WarmRuleset(run: seq<Step>, c: nat) returns (longer: seq<Step>)
    requires ValidRun(run) && c !in After(run).calls && RulesetAnswer(After(run).redis).Some?
    requires forall key :: key != COMPLETE_FIELD ==> Settled(After(run), key)
    ensures ValidRun(longer) && longer == run + [Begin(c, RulesetCall), Go(c, ReadCache)]
    ensures c in After(longer).calls && After(longer).calls[c].pc == Answered(FromDatabase(After(run), RulesetCall))
  {
    CachedRulesetIsTheDatabase(run);
    var begun := Healing.Extend(run, Begin(c, RulesetCall));
    longer := Healing.ExtendCall(begun, c, ReadCache);
  }

  // ---- Every notify to its end -----------------------------------------------------------------------

  /** The notify has come to its publish, and only it has moved. */
  ghost predicate Ready(s: State, s': State, m: nat)
    requires m in s.mutators
  {
    && s'.store == s.store && s'.history == s.history && s'.calls == s.calls && s'.channel == s.channel
    && s'.mutators == s.mutators[m := s.mutators[m].(pc := ToPublish)]
    && s'.redis == NotifyToEnd(s.redis, s.mutators[m])
    && s'.misses == (if Pending(s.mutators[m]) then s.misses[s.mutators[m].key := 0] else s.misses)
  }

  function NextMove(pc: MutatorPc): MutatorMove {
    match pc
    case ToIncr => IncrEpoch
    case ToWrite => WriteField
    case ToCheckTtl => CheckTtl
    case ToExpire => SetTtl
    case _ => Publish
  }

  lemma NotifyMoves(run: seq<Step>, m: nat) returns (longer: seq<Step>)
    requires ValidRun(run) && m in After(run).mutators && !After(run).mutators[m].pc.Finished?
    ensures ValidRun(longer) && run <= longer
    ensures After(longer) == AfterNotify(After(run), m, NextMove(After(run).mutators[m].pc))
  {
    longer := Healing.Extend(run, Notify(m, NextMove(After(run).mutators[m].pc)));
  }

  function MovesLeft(pc: MutatorPc): nat {
    match pc
    case ToIncr => 4
    case ToWrite => 3
    case ToCheckTtl => 2
    case ToExpire => 1
    case _ => 0
  }

  /** One move of a notify, on the way to its publish. */
  lemma ReadyBefore(s: State, s': State, m: nat)
    requires m in s.mutators && MovesLeft(s.mutators[m].pc) > 0
    requires Ready(AfterNotify(s, m, NextMove(s.mutators[m].pc)), s', m)
    ensures Ready(s, s', m)
  {
    var mut := s.mutators[m];
    var next := AfterNotify(s, m, NextMove(mut.pc)).mutators[m];
    assert s.mutators[m := next][m := mut.(pc := ToPublish)] == s.mutators[m := mut.(pc := ToPublish)];
  }

  lemma {:induction false} RestOfNotify(run: seq<Step>, m: nat) returns (longer: seq<Step>)
    requires ValidRun(run) && m in After(run).mutators && !After(run).mutators[m].pc.Finished?
    ensures ValidRun(longer) && run <= longer && Ready(After(run), After(longer), m)
    decreases MovesLeft(After(run).mutators[m].pc)
  {
    if After(run).mutators[m].pc.ToPublish? {
      longer := run;
    } else {
      var next := NotifyMoves(run, m);
      longer := RestOfNotify(next, m);
      ReadyBefore(After(run), After(longer), m);
    }
  }

  /** What a notify, left alone, comes to: its field, its lifetime, its event, and nothing owed. */
  ghost predicate Notified(s: State, s': State, mut: Mutator) {
    && s'.store == s.store && s'.history == s.history && s'.calls == s.calls
    && s'.channel == s.channel + [Protocol.Event(mut.key, mut.index)]
    && Settled(s', mut.key)
    && (if mut.after.Some?
        then FlagAnswer(s'.redis, mut.key) == Hit(Json(FlagPayload(mut.after.value))) && s'.redis.lifetime.Some?
        else FlagAnswer(s'.redis, mut.key) == if COMPLETE_FIELD in s.redis.hash then KnownAbsent else Cold)
  }

  lemma NotifiedServer(server: Server, mut: Mutator)
    requires mut.pc.ToIncr? && mut.key != COMPLETE_FIELD
    ensures
      var server' := NotifyToEnd(server, mut);
      if mut.after.Some?
      then FlagAnswer(server', mut.key) == Hit(Json(FlagPayload(mut.after.value))) && server'.lifetime.Some?
      else FlagAnswer(server', mut.key) == if COMPLETE_FIELD in server.hash then KnownAbsent else Cold
  {
    NotifyInOneGo(server, mut);
    NotifyIsLocal(server, mut.key, ChangeOf(mut), COMPLETE_FIELD);
  }

  /** Of one flag, one notify at most has yet to write its field. */
  lemma NothingElsePending(s: State, m: nat, mutators: map<nat, Mutator>)
    requires OnePending(s) && m in s.mutators && Pending(s.mutators[m])
    requires mutators == s.mutators[m := s.mutators[m].(pc := Finished)]
    ensures forall i :: i in mutators && mutators[i].key == s.mutators[m].key ==> !Pending(mutators[i])
  {
    forall i | i in mutators && mutators[i].key == s.mutators[m].key ensures !Pending(mutators[i]) {
      assert i != m ==> mutators[i] == s.mutators[i];
    }
  }

  lemma FactsOfMutator(run: seq<Step>, m: nat)
    requires ValidRun(run) && m in After(run).mutators
    ensures OnePending(After(run)) && After(run).mutators[m].key != COMPLETE_FIELD
  {
    InvAlways(run);
    assert MutatorOk(Hist(After(run), After(run).mutators[m].key), After(run).mutators[m]);
  }

  /**
   A notify left alone. From its commit, a mutator whose commands all succeed leaves the flag's field as
   committed, or removed, with a lifetime on the hash, publishes exactly one event, and settles the flag.
   */
  lemma NotifyRunsToItsEnd(run: seq<Step>, m: nat) returns (longer: seq<Step>)
    requires ValidRun(run) && m in After(run).mutators && After(run).mutators[m].pc.ToIncr?
    ensures ValidRun(longer) && run <= longer && Notified(After(run), After(longer), After(run).mutators[m])
  {
    var mut := After(run).mutators[m];
    var ready := RestOfNotify(run, m);
    longer := NotifyMoves(ready, m);
    FactsOfMutator(run, m);
    NothingElsePending(After(run), m, After(run).mutators[m := mut.(pc := Finished)]);
    NotifiedServer(After(run).redis, mut);
    PublishedLast(After(run), After(ready), m);
  }

  lemma PublishedLast(s: State, ready: State, m: nat)
    requires m in s.mutators && s.mutators[m].pc.ToIncr? && Ready(s, ready, m)
    ensures
      var s', mut := AfterNotify(ready, m, Publish), s.mutators[m];
      && s'.store == s.store && s'.history == s.history && s'.calls == s.calls && s'.redis == ready.redis
      && s'.channel == s.channel + [Protocol.Event(mut.key, mut.index)]
      && s'.mutators == s.mutators[m := mut.(pc := Finished)] && Misses(s', mut.key) == 0
  {
    var mut := s.mutators[m];
    assert s.mutators[m := mut.(pc := ToPublish)][m := mut.(pc := Finished)] == s.mutators[m := mut.(pc := Finished)];
  }
}
