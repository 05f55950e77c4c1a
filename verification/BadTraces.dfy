/**
 What goes wrong without each thing the protocol relies on, and what it does not prevent:
 concrete runs, every step of which the program text allows.
 */
module BadTraces {
  import opened Wrappers
  import opened Engine
  import opened Schemas
  import opened Models
  import opened Payload
  import opened Redis
  import opened Protocol
  import opened Freshness
  import opened FreshnessKept
  import opened CacheLaws
  import Healing
  import Refinement
  import Store

  /** Every step is one the program text allows, whether or not it keeps the assumptions. */
  ghost predicate PossibleRun(run: seq<Step>) {
    run == [] || (PossibleRun(run[..|run| - 1]) && Possible(After(run[..|run| - 1]), run[|run| - 1]))
  }

  lemma Extend(run: seq<Step>, step: Step)
    requires PossibleRun(run) && Possible(After(run), step)
    ensures PossibleRun(run + [step]) && After(run + [step]) == Effect(After(run), step)
    ensures ValidRun(run) && Assumed(After(run), step) ==> ValidRun(run + [step])
  {
    var longer := run + [step];
    assert longer[..|longer| - 1] == run;
  }

  lemma ExtendNotify(run: seq<Step>, m: nat, move: MutatorMove) returns (longer: seq<Step>)
    requires PossibleRun(run) && m in After(run).mutators && CanNotify(After(run).mutators[m], move)
    ensures PossibleRun(longer) && After(longer) == AfterNotify(After(run), m, move)
    ensures ValidRun(run) ==> ValidRun(longer)
  {
    Extend(run, Notify(m, move));
    longer := run + [Notify(m, move)];
  }

  lemma ExtendCall(run: seq<Step>, c: nat, move: CallMove) returns (longer: seq<Step>)
    requires PossibleRun(run) && c in After(run).calls && CanCall(After(run).store.flags, After(run).calls[c], move)
    ensures PossibleRun(longer) && After(longer) == AfterCall(After(run), c, move)
    ensures ValidRun(run) && !move.WriteUnfenced? ==> ValidRun(longer)
  {
    Extend(run, Go(c, move));
    longer := run + [Go(c, move)];
  }

  const PLAIN := FlagCreate("f", "f", None, true, 100, [], [], None)
  const CREATED := NewFlag(PLAIN, 1)

  lemma CreateDone()
    ensures Store.Do(Store.EMPTY, Store.Create(PLAIN, "ops")).1 == Store.Done("f")
    ensures Store.Do(Store.EMPTY, Store.Create(PLAIN, "ops")).0.flags == map["f" := CREATED]
    ensures Store.Do(Store.EMPTY, Store.Create(PLAIN, "ops")).0.sessions == map[]
  {
    assert KeyPattern("f", 128);
  }

  const PENDING := Mutator("f", 1, Some(CREATED), ToIncr)

  /** Mutator 1 has created "f" in an empty database. */
  ghost predicate FlagCreated(s: State, s': State) {
    && s'.store.flags == map["f" := CREATED] && s'.store.sessions == map[]
    && s'.mutators == map[1 := PENDING] && s'.history == map["f" := [None, Some(CREATED)]]
    && s'.redis == s.redis && s'.calls == s.calls && s'.misses == s.misses
  }

  lemma ExtendCreate(run: seq<Step>) returns (longer: seq<Step>)
    requires PossibleRun(run)
    requires After(run).store == Store.EMPTY && After(run).mutators == map[] && After(run).history == map[]
    ensures PossibleRun(longer)
    ensures ValidRun(run) ==> ValidRun(longer)
    ensures FlagCreated(After(run), After(longer))
  {
    CreateDone();
    var s, step := After(run), Commit(1, Store.Create(PLAIN, "ops"));
    Extend(run, step);
    longer := run + [step];
    assert After(longer) == AfterCommit(s, 1, Store.Do(Store.EMPTY, Store.Create(PLAIN, "ops")).0, "f");
    assert Hist(s, "f") + [Some(CREATED)] == [None, Some(CREATED)];
    assert Assumed(s, step);
  }

  // ---- Overlapping mutations of one flag -------------------------------------------------------------

  const REMOVING := Mutator("f", 2, None, ToIncr)

  lemma ReadAndDelete(s: Store.State)
    requires "f" in s.flags && s.flags["f"] == CREATED && s.sessions == map[]
    ensures
      var (s1, first) := Store.Do(s, Store.ReadForDelete(7, "f", "ops"));
      var (s2, second) := Store.Do(s1, Store.CommitDelete(7));
      && first == Store.Opened && s1.flags == s.flags
      && second == Store.Done("f") && s2.flags == s.flags - {"f"}
  {
  }

  /** "f" is as it was created, and no session is open. */
  ghost predicate JustCreated(s: State) {
    && "f" in s.store.flags && s.store.flags["f"] == CREATED && s.store.sessions == map[]
    && Hist(s, "f") == [None, Some(CREATED)]
  }

  /** Mutator m has deleted "f". */
  ghost predicate FlagDeleted(s: State, s': State, m: nat) {
    && "f" !in s'.store.flags && s'.mutators == s.mutators[m := REMOVING]
    && Hist(s', "f") == [None, Some(CREATED), None]
    && s'.redis == s.redis && s'.calls == s.calls && s'.misses == s.misses
  }

  /** Session 7 reads "f", then mutator m deletes it. */
  lemma ExtendDelete(run: seq<Step>, m: nat) returns (longer: seq<Step>)
    requires PossibleRun(run) && JustCreated(After(run)) && m !in After(run).mutators
    ensures PossibleRun(longer)
    ensures ValidRun(run) && !HasPending(After(run), "f") ==> ValidRun(longer)
    ensures FlagDeleted(After(run), After(longer), m)
  {
    var s := After(run);
    ReadAndDelete(s.store);
    var read, commit := StoreStep(Store.ReadForDelete(7, "f", "ops")), Commit(m, Store.CommitDelete(7));
    Extend(run, read);
    var mid := run + [read];
    var s1 := After(mid);
    assert s1 == s.(store := Store.Do(s.store, Store.ReadForDelete(7, "f", "ops")).0);
    assert HasPending(s1, "f") == HasPending(s, "f");
    Extend(mid, commit);
    longer := mid + [commit];
    assert After(longer) == AfterCommit(s1, m, Store.Do(s1.store, Store.CommitDelete(7)).0, "f");
    assert Hist(s, "f") + [None] == [None, Some(CREATED), None];
  }

  /** The cache serves "f", which is not in the database, and no notify is under way or lost. */
  ghost predicate DeletedYetServed(s: State) {
    && "f" !in s.store.flags && FlagAnswer(s.redis, "f") == Hit(Json(FlagPayload(CREATED)))
    && !HasPending(s, "f") && Misses(s, "f") == 0
  }

  /**
   Two mutations of one flag whose notifies land out of commit order: a deleted flag is back in
   the cache, and nothing is left to correct it.
   */
  lemma OverlappingNotifies() returns (run: seq<Step>)
    ensures PossibleRun(run) && DeletedYetServed(After(run))
  {
    run := ExtendCreate([]);
    run := ExtendDelete(run, 2);
    run := ExtendFieldWrite(run, 2);
    run := ExtendFieldWrite(run, 1);
  }

  /** Mutator m has bumped the epoch and written or removed its field. */
  ghost predicate FieldWritten(s: State, s': State, m: nat)
    requires m in s.mutators
  {
    var mut := s.mutators[m];
    && s'.redis == NotifyServer(Incr(s.redis), mut, WriteField)
    && s'.store == s.store && s'.calls == s.calls && s'.history == s.history && s'.misses == s.misses[mut.key := 0]
    && s'.mutators == s.mutators[m := mut.(pc := if mut.after.Some? then ToCheckTtl else ToPublish)]
  }

  lemma ExtendFieldWrite(run: seq<Step>, m: nat) returns (longer: seq<Step>)
    requires PossibleRun(run) && m in After(run).mutators && After(run).mutators[m].pc == ToIncr
    ensures PossibleRun(longer)
    ensures ValidRun(run) ==> ValidRun(longer)
    ensures FieldWritten(After(run), After(longer), m)
  {
    var s, mut := After(run), After(run).mutators[m];
    var bumped := mut.(pc := ToWrite);
    longer := ExtendNotify(run, m, IncrEpoch);
    assert After(longer) == s.(redis := Incr(s.redis), mutators := s.mutators[m := bumped]);
    longer := ExtendNotify(longer, m, WriteField);
    assert s.mutators[m := bumped][m := mut.(pc := if mut.after.Some? then ToCheckTtl else ToPublish)]
        == s.mutators[m := mut.(pc := if mut.after.Some? then ToCheckTtl else ToPublish)];
  }

  // ---- A rebuild overtaken by a creation -------------------------------------------------------------

  /** A call for "f" that has read an empty database, fenced or not. */
  function EmptySnapshot(epoch: Option<nat>): Call {
    Call(EvaluateCall("f"), if epoch.Some? then ToWatch else ToWriteUnfenced, epoch, 0, map[], map[], map[])
  }

  /** The call begins, finds the cache cold, and reads the epoch or fails to. */
  lemma ColdCall(fenced: bool) returns (run: seq<Step>)
    ensures ValidRun(run) && PossibleRun(run)
    ensures
      var epoch := if fenced then Some(0) else None;
      After(run) == INITIAL.(calls := map[1 := Call(EvaluateCall("f"), ToReadRows, epoch, 0, map[], map[], map[])])
  {
    var begin := Begin(1, EvaluateCall("f"));
    Extend([], begin);
    run := [] + [begin];
    assert After(run) == INITIAL.(calls := map[1 := NewCall(EvaluateCall("f"))]);
    run := ExtendCall(run, 1, ReadCache);
    run := ExtendCall(run, 1, if fenced then ReadEpoch else ReadEpochFails);
  }

  /** The steps of that call, up to its publish. */
  lemma SnapshotOfNothing(fenced: bool) returns (run: seq<Step>)
    ensures ValidRun(run) && PossibleRun(run)
    ensures After(run) == INITIAL.(calls := map[1 := EmptySnapshot(if fenced then Some(0) else None)])
  {
    run := NoRows(fenced);
    run := ExtendCall(run, 1, ReadRules(map[]));
    run := ExtendCall(run, 1, ReadVariants);
    assert After(run).calls[1].variants == map[];
  }

  lemma NoRows(fenced: bool) returns (run: seq<Step>)
    ensures ValidRun(run) && PossibleRun(run)
    ensures
      var epoch := if fenced then Some(0) else None;
      After(run) == INITIAL.(calls := map[1 := Call(EvaluateCall("f"), ToReadRules, epoch, 0, map[], map[], map[])])
  {
    run := ColdCall(fenced);
    run := ExtendCall(run, 1, ReadRows);
    assert After(run).calls[1].rows == map[];
  }

  /** "f" is created and its field written, while a call still holds the empty snapshot. */
  ghost predicate SnapshotOvertaken(s: State, fenced: bool) {
    && s.store.flags == map["f" := CREATED]
    && s.calls == map[1 := EmptySnapshot(if fenced then Some(0) else None)]
    && s.redis == Server(Some(1), 1, map["f" := Json(FlagPayload(CREATED))], None)
  }

  lemma CreatedMeanwhile(fenced: bool) returns (run: seq<Step>)
    ensures PossibleRun(run) && SnapshotOvertaken(After(run), fenced)
  {
    run := SnapshotOfNothing(fenced);
    run := ExtendCreate(run);
    run := ExtendFieldWrite(run, 1);
    CreationLands();
  }

  lemma CreationLands()
    ensures NotifyServer(Incr(INITIAL.redis), PENDING, WriteField)
         == Server(Some(1), 1, map["f" := Json(FlagPayload(CREATED))], None)
  {
  }

  /** The cache claims, for a full lifetime, that a flag in the database does not exist. */
  ghost predicate HidesFlag(s: State) {
    && "f" in s.store.flags
    && FlagAnswer(s.redis, "f") == KnownAbsent
    && s.redis.lifetime == Some(RULESET_TTL_SECONDS)
  }

  /** A rebuild without a fence overwrites the newer field. */
  lemma UnfencedRebuild() returns (run: seq<Step>)
    ensures PossibleRun(run) && HidesFlag(After(run))
  {
    run := CreatedMeanwhile(false);
    assert Mapping(EmptySnapshot(None)) == map[];
    run := ExtendCall(run, 1, WriteUnfenced);
  }

  /** Publishing that empty snapshot while the counter reads "0". */
  lemma PublishNothing(run: seq<Step>) returns (longer: seq<Step>)
    requires PossibleRun(run) && EpochOrZero(After(run).redis) == 0
    requires After(run).calls == map[1 := EmptySnapshot(Some(0))] && After(run).store.flags == map["f" := CREATED]
    ensures PossibleRun(longer) && HidesFlag(After(longer))
    ensures ValidRun(run) ==> ValidRun(longer)
  {
    longer := ExtendCall(run, 1, Watch);
    longer := ExtendCall(longer, 1, Compare);
    assert Mapping(After(longer).calls[1]) == map[];
    longer := ExtendCall(longer, 1, Exec);
  }

  /** A flush that resets the counter during a rebuild lets the old snapshot through the fence. */
  lemma FlushDuringRebuild() returns (run: seq<Step>)
    ensures PossibleRun(run) && HidesFlag(After(run))
  {
    run := CreatedMeanwhile(true);
    Extend(run, Flush);
    run := run + [Flush];
    run := PublishNothing(run);
  }

  /**
   A notify that fails before its bump is not healed by the hash's expiry: a rebuild that read
   the database before the change still publishes, for a full lifetime. Every assumption holds.
   */
  lemma LostBumpOutlivesExpiry() returns (run: seq<Step>)
    ensures ValidRun(run) && HidesFlag(After(run))
  {
    run := SnapshotOfNothing(true);
    run := ExtendCreate(run);
    run := ExtendNotify(run, 1, NotifyFails);
    Extend(run, Evict);
    run := run + [Evict];
    run := PublishNothing(run);
  }

  // ---- A lifetime renewed by a notify that was under way ---------------------------------------------

  const OTHER := FlagCreate("g", "g", None, true, 100, [], [], None)

  lemma OtherDone(s: Store.State)
    requires "g" !in s.flags && s.sessions == map[]
    ensures
      var (s', outcome) := Store.Do(s, Store.Create(OTHER, "ops"));
      && outcome == Store.Done("g") && s'.flags == s.flags["g" := NewFlag(OTHER, s.nextId)]
      && s'.sessions == map[] && StrictlyByPriority(s'.flags["g"].rules)
  {
    assert KeyPattern("g", 128);
  }

  /** The creation of "f" is cached without a lifetime, and mutator 1 is about to set one. */
  ghost predicate AwaitsExpire(s: State) {
    && s.store.flags == map["f" := CREATED] && s.store.sessions == map[] && s.calls == map[]
    && s.mutators == map[1 := PENDING.(pc := ToExpire)] && s.history == map["f" := [None, Some(CREATED)]]
    && s.redis == Server(Some(1), 1, map["f" := Json(FlagPayload(CREATED))], None)
  }

  /** Mutator 2 has created "g". */
  ghost predicate OtherCreated(s: State, s': State) {
    && JustCreated(s') && s'.redis == s.redis && s'.calls == s.calls
    && 1 in s.mutators && s'.mutators.Keys == {1, 2} && s'.mutators[1] == s.mutators[1]
    && s'.mutators[2].key == "g" && s'.mutators[2].after.Some? && s'.mutators[2].pc.ToIncr?
  }

  lemma ExtendOther(run: seq<Step>) returns (longer: seq<Step>)
    requires PossibleRun(run) && ValidRun(run) && AwaitsExpire(After(run))
    ensures PossibleRun(longer) && ValidRun(longer) && OtherCreated(After(run), After(longer))
  {
    var s, step := After(run), Commit(2, Store.Create(OTHER, "ops"));
    OtherDone(s.store);
    assert Assumed(s, step);
    Extend(run, step);
    longer := run + [step];
    assert After(longer) == AfterCommit(s, 2, Store.Do(s.store, Store.Create(OTHER, "ops")).0, "g");
  }

  lemma BeforeItsExpire() returns (run: seq<Step>)
    ensures PossibleRun(run) && ValidRun(run) && AwaitsExpire(After(run))
  {
    run := ExtendCreate([]);
    run := ExtendFieldWrite(run, 1);
    CreationLands();
    run := ExtendNotify(run, 1, CheckTtl);
  }

  /** Mutator 2 has written its field to a hash without a lifetime. */
  predicate NoLifetimeYet(s: State) {
    2 in s.mutators && s.mutators[2].pc.ToCheckTtl? && s.redis.lifetime.None? && s.redis.hash != map[]
  }

  /** Mutator 2 has given the hash a lifetime. */
  ghost predicate LifetimeSet(s: State, s': State) {
    && s'.store == s.store && s'.history == s.history && s'.calls == s.calls
    && s'.mutators.Keys == s.mutators.Keys && (2 in s'.mutators ==> s'.mutators[2].pc.ToPublish?)
    && (forall m :: m in s.mutators && m != 2 ==> s'.mutators[m] == s.mutators[m])
    && s'.redis == s.redis.(lifetime := Some(RULESET_TTL_SECONDS))
  }

  lemma LifetimeByOther(run: seq<Step>) returns (longer: seq<Step>)
    requires PossibleRun(run) && ValidRun(run) && NoLifetimeYet(After(run))
    ensures PossibleRun(longer) && ValidRun(longer) && LifetimeSet(After(run), After(longer))
  {
    longer := ExtendNotify(run, 2, CheckTtl);
    longer := ExtendNotify(longer, 2, SetTtl);
  }

  lemma OtherLands(server: Server, mut: Mutator)
    requires mut.key == "g" && mut.after.Some? && "f" in server.hash && server.lifetime.None?
    ensures
      var server' := NotifyServer(Incr(server), mut, WriteField);
      "f" in server'.hash && server'.hash != map[] && server'.lifetime.None?
  {
  }

  /** "f" is cached with a lifetime, and mutator 1 is still about to set one. */
  ghost predicate CachedBeforeAnExpire(s: State) {
    && s.calls == map[] && "f" in s.redis.hash && s.redis.lifetime == Some(RULESET_TTL_SECONDS)
    && 1 in s.mutators && s.mutators[1].pc.ToExpire?
  }

  lemma LifetimeBeforeAnExpire() returns (run: seq<Step>)
    ensures PossibleRun(run) && ValidRun(run) && CachedBeforeAnExpire(After(run)) && JustCreated(After(run))
    ensures 3 !in After(run).mutators && !HasPending(After(run), "f")
  {
    run := BeforeItsExpire();
    run := ExtendOther(run);
    OtherLands(After(run).redis, After(run).mutators[2]);
    run := ExtendFieldWrite(run, 2);
    run := LifetimeByOther(run);
  }

  /** "f" is deleted, and that notify is lost. */
  lemma StaleBeforeAnExpire() returns (run: seq<Step>)
    ensures ValidRun(run) && CachedBeforeAnExpire(After(run))
    ensures Hist(After(run), "f") == [None, Some(CREATED), None]
  {
    run := LifetimeBeforeAnExpire();
    run := ExtendDelete(run, 3);
    run := ExtendNotify(run, 3, NotifyFails);
  }

  /**
   300 seconds need not heal a missed invalidation: a notify that found no lifetime before another one
   set it may set it again later. Every assumption holds, no call is under way, the hash has a lifetime.
   */
  lemma RenewedPastTheWindow() returns (run: seq<Step>, longer: seq<Step>)
    ensures ValidRun(run) && After(run).calls == map[] && After(run).redis.lifetime.Some?
    ensures Hist(After(run), "f") == [None, Some(CREATED), None]
    ensures ValidRun(longer) && run <= longer && Healing.Elapsed(longer, |run|) == RULESET_TTL_SECONDS
    ensures !Healing.LaterAnswersShow(longer, "f", 2)
  {
    run := StaleBeforeAnExpire();
    var s := After(run);
    assert Healing.AboutToRenew(s.mutators, 1);
    longer := Healing.OutlastsUnlessItRunsOut(run);
    if Healing.LaterAnswersShow(longer, "f", 2) {
      Healing.OutlastingFieldIsShown(run, longer, "f", 2);
      NewestField(Hist(s, "f"), s.redis, "f");
    }
  }

  // ---- A snapshot torn by a commit -------------------------------------------------------------------

  const TARGETED := FlagCreate("g", "g", None, true, 0, [RuleIn("country", Eq, ["IN"], 0, None)], [], None)
  const BEFORE := NewFlag(TARGETED, 1)
  const WIDENED := FlagUpdate(None, None, None, Some(100), Some([]), None, Absent, 1)
  const WIDE := ApplyPatch(BEFORE, WIDENED, 3)
  const TORN := Flag(BEFORE.row, [], [])
  const INDIA: Context := map["country" := "IN"]

  /** Targeted before, at 100 percent after: on for this context either way, but not in between. */
  lemma TornEvaluation(md5: Digest, userId: string)
    ensures EvaluateStored(md5, Some(BEFORE), userId, INDIA).enabled
    ensures EvaluateStored(md5, Some(WIDE), userId, INDIA).enabled
    ensures !EvaluateView(md5, ViewOf(Some(TORN)), userId, INDIA).enabled
  {
    var rule := ToSpec(BEFORE).rules[0];
    assert RuleMatches(rule, INDIA);
    assert FirstMatch(ToSpec(BEFORE).rules, INDIA) == Some(rule);
    assert FirstMatch(ToSpec(WIDE).rules, INDIA) == None;
    assert SpecFromPayload(FlagPayload(TORN)).rules == [];
  }

  lemma TargetedDone()
    ensures Store.Do(Store.EMPTY, Store.Create(TARGETED, "ops")).1 == Store.Done("g")
    ensures Store.Do(Store.EMPTY, Store.Create(TARGETED, "ops")).0
         == Store.State(map["g" := BEFORE], [Store.AuditEntry("g", Store.Created, "ops")], 3, map[],
                        [Store.Committed("g", Store.CreateOf(TARGETED, 1))])
    ensures StrictlyByPriority(BEFORE.rules)
  {
    assert KeyPattern("g", 128);
    assert AllRulesOk(TARGETED.rules);
    assert ValidateCreate(TARGETED).None?;
  }

  lemma WidenDone(s: Store.State)
    requires s.flags == map["g" := BEFORE] && s.sessions == map[] && s.nextId == 3
    ensures
      var (s1, first) := Store.Do(s, Store.ReadForUpdate(7, "g", WIDENED, "ops"));
      var (s2, second) := Store.Do(s1, Store.CommitUpdate(7));
      first == Store.Opened && s1.flags == s.flags && second == Store.Done("g") && s2.flags == map["g" := WIDE]
  {
    assert EffectivePins(BEFORE, WIDENED) == {};
    assert CheckPatch(BEFORE, WIDENED).None?;
    assert ValidateUpdate(WIDENED).None?;
  }

  /** "g" exists and its creation has reached the cache. */
  ghost predicate TargetedStands(s: State) {
    && s.store.flags == map["g" := BEFORE] && s.store.sessions == map[] && s.store.nextId == 3
    && s.history == map["g" := [None, Some(BEFORE)]] && !HasPending(s, "g") && s.mutators.Keys == {1}
  }

  lemma TargetedExists() returns (run: seq<Step>)
    ensures ValidRun(run) && PossibleRun(run) && TargetedStands(After(run)) && After(run).calls == map[]
  {
    TargetedDone();
    var step := Commit(1, Store.Create(TARGETED, "ops"));
    assert Assumed(INITIAL, step);
    Extend([], step);
    run := [] + [step];
    assert After(run) == AfterCommit(INITIAL, 1, Store.Do(Store.EMPTY, Store.Create(TARGETED, "ops")).0, "g");
    assert Hist(INITIAL, "g") + [Some(BEFORE)] == [None, Some(BEFORE)];
    run := ExtendNotify(run, 1, IncrEpoch);
    run := ExtendNotify(run, 1, WriteField);
  }

  /** Call 1 for "g" is past the cache and its first query. */
  ghost predicate FirstQueried(s: State) {
    && 1 in s.calls && s.calls[1].kind == EvaluateCall("g") && s.calls[1].pc.ToReadRules?
    && s.calls[1].rows == map["g" := BEFORE.row]
  }

  lemma FirstQuery(run: seq<Step>) returns (longer: seq<Step>)
    requires ValidRun(run) && PossibleRun(run) && TargetedStands(After(run)) && After(run).calls == map[]
    ensures ValidRun(longer) && PossibleRun(longer) && TargetedStands(After(longer)) && FirstQueried(After(longer))
  {
    var begin := Begin(1, EvaluateCall("g"));
    Extend(run, begin);
    longer := run + [begin];
    longer := ExtendCall(longer, 1, ReadCacheFails);
    longer := ExtendCall(longer, 1, ReadEpoch);
    longer := ExtendCall(longer, 1, ReadRows);
    assert After(longer).calls[1].rows == map["g" := BEFORE.row];
  }

  ghost predicate Widened(s: State) {
    s.store.flags == map["g" := WIDE] && s.history == map["g" := [None, Some(BEFORE), Some(WIDE)]]
  }

  const READ_TO_WIDEN := Store.ReadForUpdate(7, "g", WIDENED, "ops")

  /** Session 7 patches "g" through mutator 2. */
  lemma Widen(run: seq<Step>) returns (longer: seq<Step>)
    requires ValidRun(run) && PossibleRun(run) && TargetedStands(After(run))
    ensures ValidRun(longer) && PossibleRun(longer)
    ensures Widened(After(longer)) && After(longer).calls == After(run).calls
  {
    var s := After(run);
    WidenDone(s.store);
    Extend(run, StoreStep(READ_TO_WIDEN));
    var mid := run + [StoreStep(READ_TO_WIDEN)];
    assert After(mid) == s.(store := Store.Do(s.store, READ_TO_WIDEN).0);
    assert HasPending(After(mid), "g") == HasPending(s, "g");
    longer := CommitWidened(mid, s.store);
  }

  /** Mutator 2 commits the session that read "g" from this store. */
  lemma CommitWidened(run: seq<Step>, before: Store.State) returns (longer: seq<Step>)
    requires ValidRun(run) && PossibleRun(run) && After(run).store == Store.Do(before, READ_TO_WIDEN).0
    requires before.flags == map["g" := BEFORE] && before.sessions == map[] && before.nextId == 3
    requires After(run).history == map["g" := [None, Some(BEFORE)]]
    requires !HasPending(After(run), "g") && After(run).mutators.Keys == {1}
    ensures ValidRun(longer) && PossibleRun(longer)
    ensures Widened(After(longer)) && After(longer).calls == After(run).calls
  {
    var s, commit := After(run), Commit(2, Store.CommitUpdate(7));
    WidenDone(before);
    assert Assumed(s, commit);
    Extend(run, commit);
    longer := run + [commit];
    assert After(longer) == AfterCommit(s, 2, Store.Do(s.store, Store.CommitUpdate(7)).0, "g");
    assert Hist(s, "g") + [Some(WIDE)] == [None, Some(BEFORE), Some(WIDE)];
  }

  /**
   A commit between the queries of one snapshot: the call answers "off" although the flag is on
   for that user, before and after, throughout the call. Every assumption holds.
   */
  lemma TornSnapshot(md5: Digest, userId: string) returns (run: seq<Step>)
    ensures ValidRun(run)
    ensures
      var s := After(run);
      && s.history == map["g" := [None, Some(BEFORE), Some(WIDE)]]
      && 1 in s.calls && Shows(s.calls[1], "g")
      && !EvaluateView(md5, Shown(s.calls[1], "g"), userId, INDIA).enabled
      && EvaluateStored(md5, Some(BEFORE), userId, INDIA).enabled
      && EvaluateStored(md5, Some(WIDE), userId, INDIA).enabled
  {
    run := TargetedExists();
    run := FirstQuery(run);
    run := Widen(run);
    run := LastQueries(run);
    TornEvaluation(md5, userId);
  }

  /** Call 1 shows an old row without its rules. */
  ghost predicate ShowsTorn(s: State) {
    1 in s.calls && Shows(s.calls[1], "g") && Shown(s.calls[1], "g") == ViewOf(Some(TORN))
  }

  lemma LastQueries(run: seq<Step>) returns (longer: seq<Step>)
    requires ValidRun(run) && PossibleRun(run) && FirstQueried(After(run)) && Widened(After(run))
    ensures ValidRun(longer) && After(longer).history == After(run).history && ShowsTorn(After(longer))
  {
    longer := TornRules(run);
    longer := ExtendCall(longer, 1, ReadVariants);
    TornAnswer(After(longer).calls[1]);
    longer := ExtendCall(longer, 1, WriteFails);
  }

  /** An old row without its rules, and no variants, is neither flag. */
  lemma TornAnswer(call: Call)
    requires call.kind == EvaluateCall("g") && call.rows == map["g" := BEFORE.row] && call.rules == map["g" := []]
    requires "g" in call.variants && call.variants["g"] == InKeyOrder([])
    ensures Shows(FromMapping(call), "g") && Shown(FromMapping(call), "g") == ViewOf(Some(TORN))
  {
  }

  /** The second query finds the rules gone. */
  lemma TornRules(run: seq<Step>) returns (longer: seq<Step>)
    requires ValidRun(run) && PossibleRun(run) && 1 in After(run).calls
    requires After(run).calls[1].pc.ToReadRules? && After(run).calls[1].rows == map["g" := BEFORE.row]
    requires After(run).store.flags == map["g" := WIDE]
    ensures ValidRun(longer) && PossibleRun(longer)
    ensures
      var s := After(run);
      After(longer) == s.(calls := s.calls[1 := s.calls[1].(pc := ToReadVariants, rules := map["g" := []])])
  {
    assert ChildRules(After(run).store.flags, BEFORE.row) == [];
    longer := ExtendCall(run, 1, ReadRules(map["g" := []]));
  }

  // ---- The two commands of read_flag -----------------------------------------------------------------

  /** read_flag with its two commands apart: HGET on one state, HEXISTS on a later one. */
  function SplitAnswer(first: Server, second: Server, key: string): FlagRead {
    if key in first.hash then Hit(first.hash[key])
    else if COMPLETE_FIELD in second.hash then KnownAbsent
    else Cold
  }

  /**
   The two commands give an answer that neither state gives, if and only if between them the field
   appears and the marker comes or goes; the answer then denies the flag exactly when the marker comes.
   */
  lemma SplitReadExactly(first: Server, second: Server, key: string)
    ensures
      var split := SplitAnswer(first, second, key);
      split != FlagAnswer(first, key) && split != FlagAnswer(second, key)
      <==> && key !in first.hash && key in second.hash
           && (COMPLETE_FIELD in first.hash <==> COMPLETE_FIELD !in second.hash)
    ensures
      var split := SplitAnswer(first, second, key);
      split == KnownAbsent && split != FlagAnswer(first, key) && split != FlagAnswer(second, key)
      <==> && key !in first.hash && key in second.hash
           && COMPLETE_FIELD !in first.hash && COMPLETE_FIELD in second.hash
  {
  }

  /**
   Over any stretch of any run, a read split between its two ends is as fresh as one made at its start,
   unless in between the flag's field appears and the hash is marked complete.
   */
  lemma SplitReadIsFresh(run: seq<Step>, i: nat, key: string, n: nat)
    requires ValidRun(run) && i <= |run| && key != COMPLETE_FIELD && Fresh(After(run[..i]), key, n)
    ensures
      var first, second := After(run[..i]).redis, After(run).redis;
      || AnswerFresh(Hist(After(run), key), n, SplitAnswer(first, second, key))
      || (&& key !in first.hash && key in second.hash
          && COMPLETE_FIELD !in first.hash && COMPLETE_FIELD in second.hash)
  {
    FreshToTheEnd(run, i, key, n);
    HistoryGrowsTo(run, i, key);
    FieldGrows(Hist(After(run[..i]), key), Hist(After(run), key), n, After(run[..i]).redis, key);
    SplitAnswerIsEither(After(run[..i]).redis, After(run).redis, key);
  }

  lemma SplitAnswerIsEither(first: Server, second: Server, key: string)
    ensures
      || SplitAnswer(first, second, key) in {FlagAnswer(first, key), FlagAnswer(second, key), Cold}
      || (&& key !in first.hash && key in second.hash
          && COMPLETE_FIELD !in first.hash && COMPLETE_FIELD in second.hash)
  {
  }

  lemma {:induction false} HistoryGrowsTo(run: seq<Step>, i: nat, key: string)
    requires ValidRun(run) && i <= |run|
    ensures Hist(After(run[..i]), key) <= Hist(After(run), key)
  {
    if i < |run| {
      var before := run[..|run| - 1];
      Prefix(run, i);
      HistoryGrowsTo(before, i, key);
      Refinement.HistoriesGrow(After(before), run[|run| - 1], key);
    } else {
      assert run[..i] == run;
    }
  }

  /** A rebuild between the two commands makes every flag it publishes look absent. */
  lemma SplitReadDeniesPublishedFlags(server: Server, mapping: map<string, Entry>, key: string)
    requires FlagAnswer(server, key) == Cold && key in mapping && key != COMPLETE_FIELD
    ensures SplitAnswer(server, Replace(server, mapping), key) == KnownAbsent
    ensures FlagAnswer(Replace(server, mapping), key) == Hit(Json(mapping[key]))
  {
  }
}
