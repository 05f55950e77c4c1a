/** What holds in every state the store can reach, however its sessions interleave. */
module StoreLaws {
  import opened Wrappers
  import opened Schemas
  import opened Models
  import opened FlagLaws
  import opened Store

  // ---- The inductive invariant -----------------------------------------------------------------

  ghost predicate FlagInPlace(s: State, key: string)
    requires key in s.flags
  {
    var f := s.flags[key];
    f.row.key == key && f.row.id < s.nextId && ValidFlag(f)
  }

  /** While the row a session read is still there, it is still exactly what the session read. */
  ghost predicate SessionInPlace(s: State, sid: nat)
    requires sid in s.sessions
  {
    var session := s.sessions[sid];
    var base := session.base;
    && base.row.id < s.nextId
    && ValidFlag(base)
    && (session.Updating? ==> ValidateUpdate(session.patch).None? && CheckPatch(base, session.patch).None?)
    && (base.row.key in s.flags && s.flags[base.row.key].row.id == base.row.id ==>
          base.row.version <= s.flags[base.row.key].row.version)
    && (RowStillThere(s, base) ==> s.flags[base.row.key] == base)
  }

  ghost predicate Inv(s: State) {
    && (forall key :: key in s.flags ==> FlagInPlace(s, key))
    && (forall sid :: sid in s.sessions ==> SessionInPlace(s, sid))
  }

  /** Storing a new flag under a free key, with a fresh row id, keeps the invariant. */
  lemma CreateKeepsInv(s: State, data: FlagCreate, actor: string)
    requires Inv(s)
    ensures Inv(DoCreate(s, data, actor).0)
  {
    var s' := DoCreate(s, data, actor).0;
    if s' != s {
      CreatedFlagIsValid(data, s.nextId);
      forall k | k in s'.flags ensures FlagInPlace(s', k) {
        assert k in s.flags ==> FlagInPlace(s, k);
      }
      forall i | i in s'.sessions ensures SessionInPlace(s', i) {
        assert SessionInPlace(s, i);
      }
    }
  }

  lemma ReadKeepsInv(s: State, sid: nat, session: Session)
    requires Inv(s)
    requires session.base.row.key in s.flags && s.flags[session.base.row.key] == session.base
    requires session.Updating? ==>
               ValidateUpdate(session.patch).None? && CheckPatch(session.base, session.patch).None?
    ensures Inv(s.(sessions := s.sessions[sid := session]))
  {
    var s' := s.(sessions := s.sessions[sid := session]);
    forall k | k in s'.flags ensures FlagInPlace(s', k) {
      assert FlagInPlace(s, k);
    }
    assert FlagInPlace(s, session.base.row.key);
    forall i | i in s'.sessions ensures SessionInPlace(s', i) {
      assert i in s.sessions ==> SessionInPlace(s, i);
    }
  }

  /** Replacing a flag by a later version of the same row keeps the invariant. */
  lemma ReplaceKeepsInv(s: State, s': State, f: Flag)
    requires Inv(s) && f.row.key in s.flags && ValidFlag(f)
    requires f.row.id == s.flags[f.row.key].row.id && f.row.version == s.flags[f.row.key].row.version + 1
    requires s'.flags == s.flags[f.row.key := f] && s'.nextId >= s.nextId
    requires forall i :: i in s'.sessions ==> i in s.sessions && s'.sessions[i] == s.sessions[i]
    ensures Inv(s')
  {
    forall k | k in s'.flags ensures FlagInPlace(s', k) {
      assert FlagInPlace(s, k);
    }
    forall i | i in s'.sessions ensures SessionInPlace(s', i) {
      assert SessionInPlace(s, i);
    }
  }

  lemma RemoveKeepsInv(s: State, s': State)
    requires Inv(s) && s'.nextId == s.nextId
    requires forall k :: k in s'.flags ==> k in s.flags && s'.flags[k] == s.flags[k]
    requires forall i :: i in s'.sessions ==> i in s.sessions && s'.sessions[i] == s.sessions[i]
    ensures Inv(s')
  {
    forall k | k in s'.flags ensures FlagInPlace(s', k) {
      assert FlagInPlace(s, k);
    }
    forall i | i in s'.sessions ensures SessionInPlace(s', i) {
      assert SessionInPlace(s, i);
    }
  }

  lemma CommitUpdateKeepsInv(s: State, sid: nat)
    requires Inv(s)
    ensures Inv(DoCommitUpdate(s, sid).0)
  {
    var s' := DoCommitUpdate(s, sid).0;
    if sid in s.sessions && s.sessions[sid].Updating? {
      var session := s.sessions[sid];
      assert SessionInPlace(s, sid);
      if RowStillThere(s, session.base) {
        PatchKeepsValid(session.base, session.patch, s.nextId);
        ReplaceKeepsInv(s, s', ApplyPatch(session.base, session.patch, s.nextId));
      } else {
        RemoveKeepsInv(s, s');
      }
    }
  }

  lemma StepKeepsInv(s: State, step: Step)
    requires Inv(s)
    ensures Inv(Do(s, step).0)
  {
    match step
    case Create(data, actor) => CreateKeepsInv(s, data, actor);
    case ReadForUpdate(sid, key, patch, actor) =>
      if DoReadForUpdate(s, sid, key, patch, actor).1.Opened? {
        assert FlagInPlace(s, key);
        ReadKeepsInv(s, sid, Updating(s.flags[key], patch, actor));
      }
    case CommitUpdate(sid) => CommitUpdateKeepsInv(s, sid);
    case ReadForDelete(sid, key, actor) =>
      if key in s.flags {
        assert FlagInPlace(s, key);
        ReadKeepsInv(s, sid, Deleting(s.flags[key], actor));
      }
    case CommitDelete(sid) => RemoveKeepsInv(s, DoCommitDelete(s, sid).0);
  }

  /** What a completed step does, in one place: one key, one audit entry, one recorded mutation. */
  ghost predicate Lands(s: State, s': State, key: string, action: Action, mutation: Mutation, actor: string) {
    && s'.audit == s.audit + [AuditEntry(key, action, actor)]
    && s'.log == s.log + [Committed(key, mutation)]
    && (forall k :: k != key ==> Lookup(s'.flags, k) == Lookup(s.flags, k))
    && (match action
        case Created =>
          mutation.CreateOf? && key !in s.flags && key in s'.flags && s'.flags[key].row.version == 1
        case Updated =>
          && mutation.PatchOf? && key in s.flags && key in s'.flags
          && s'.flags[key] == ApplyPatch(s.flags[key], mutation.patch, mutation.nextId)
          && s'.flags[key].row.version == s.flags[key].row.version + 1
        case Deleted =>
          mutation.DeleteOf? && key in s.flags && key !in s'.flags)
  }

  lemma UpdateLands(s: State, sid: nat)
    requires Inv(s) && DoCommitUpdate(s, sid).1.Done?
    ensures
      var s', session := DoCommitUpdate(s, sid).0, s.sessions[sid];
      && DoCommitUpdate(s, sid).1.key == session.base.row.key
      && Lands(s, s', session.base.row.key, Updated, PatchOf(session.patch, s.nextId), session.actor)
  {
    var session := s.sessions[sid];
    assert SessionInPlace(s, sid);
    var key := session.base.row.key;
    assert s.flags[key] == session.base;
    assert DoCommitUpdate(s, sid).0.flags[key].row.version == s.flags[key].row.version + 1;
  }

  lemma DeleteLands(s: State, sid: nat)
    requires DoCommitDelete(s, sid).1.Done?
    ensures
      var s', session := DoCommitDelete(s, sid).0, s.sessions[sid];
      && DoCommitDelete(s, sid).1.key == session.base.row.key
      && Lands(s, s', session.base.row.key, Deleted, DeleteOf, session.actor)
  {
  }

  lemma CreateLands(s: State, data: FlagCreate, actor: string)
    requires DoCreate(s, data, actor).1.Done?
    ensures
      var s' := DoCreate(s, data, actor).0;
      && DoCreate(s, data, actor).1.key == data.key
      && Lands(s, s', data.key, Created, CreateOf(data, s.nextId), actor)
  {
    assert NewFlag(data, s.nextId).row.version == 1;
  }

  lemma StepLands(s: State, step: Step)
    requires Inv(s)
    ensures
      var (s', outcome) := Do(s, step);
      if outcome.Done?
      then exists action, mutation, actor :: Lands(s, s', outcome.key, action, mutation, actor)
      else s'.flags == s.flags && s'.audit == s.audit && s'.log == s.log
  {
    if Do(s, step).1.Done? {
      match step
      case Create(data, actor) => CreateLands(s, data, actor);
      case CommitUpdate(sid) => UpdateLands(s, sid);
      case CommitDelete(sid) => DeleteLands(s, sid);
    }
  }

  lemma {:induction false} RunKeepsInv(steps: seq<Step>)
    ensures Inv(Run(steps))
  {
    if steps != [] {
      RunKeepsInv(steps[..|steps| - 1]);
      StepKeepsInv(Run(steps[..|steps| - 1]), steps[|steps| - 1]);
    }
  }

  /**
   Cross-field validity under concurrency: every stored flag has no variants, or at least
   two with distinct keys and weights summing to 100, and every non-empty pin and off
   variant names one of them.
   */
  lemma StoredFlagsAreValid(steps: seq<Step>, key: string)
    requires key in Run(steps).flags
    ensures ValidFlag(Run(steps).flags[key]) && Run(steps).flags[key].row.key == key
  {
    RunKeepsInv(steps);
    assert FlagInPlace(Run(steps), key);
  }

  // ---- No lost update ----------------------------------------------------------------------------

  /** An update that commits is the patch applied to the flag as stored just before the commit. */
  lemma CommitBuildsOnCurrent(steps: seq<Step>, sid: nat)
    requires Do(Run(steps), CommitUpdate(sid)).1.Done?
    ensures
      var s, s' := Run(steps), Do(Run(steps), CommitUpdate(sid)).0;
      var session, key := s.sessions[sid], Do(Run(steps), CommitUpdate(sid)).1.key;
      && key in s.flags && s.flags[key] == session.base
      && s'.flags == s.flags[key := ApplyPatch(s.flags[key], session.patch, s.nextId)]
  {
    RunKeepsInv(steps);
    assert SessionInPlace(Run(steps), sid);
  }

  lemma ReplayAppends(log: seq<Committed>, c: Committed)
    ensures Replay(log + [c]) == Perform(Replay(log), c)
  {
    assert (log + [c])[..|log|] == log;
  }

  lemma UpdateReplays(s: State, sid: nat)
    requires Inv(s) && s.flags == Replay(s.log)
    ensures DoCommitUpdate(s, sid).0.flags == Replay(DoCommitUpdate(s, sid).0.log)
  {
    if sid in s.sessions && s.sessions[sid].Updating? {
      assert SessionInPlace(s, sid);
      var session := s.sessions[sid];
      ReplayAppends(s.log, Committed(session.base.row.key, PatchOf(session.patch, s.nextId)));
    }
  }

  lemma StepReplays(s: State, step: Step)
    requires Inv(s) && s.flags == Replay(s.log)
    ensures Do(s, step).0.flags == Replay(Do(s, step).0.log)
  {
    match step
    case Create(data, actor) => ReplayAppends(s.log, Committed(data.key, CreateOf(data, s.nextId)));
    case CommitUpdate(sid) => UpdateReplays(s, sid);
    case CommitDelete(sid) =>
      if sid in s.sessions {
        ReplayAppends(s.log, Committed(s.sessions[sid].base.row.key, DeleteOf));
      }
    case _ =>
  }

  /**
   No lost update: the tables always hold exactly what the committed mutations, replayed in
   commit order from nothing, produce.
   */
  lemma {:induction false} NoLostUpdate(steps: seq<Step>)
    ensures Run(steps).flags == Replay(Run(steps).log)
  {
    if steps != [] {
      var before := steps[..|steps| - 1];
      NoLostUpdate(before);
      RunKeepsInv(before);
      StepReplays(Run(before), steps[|steps| - 1]);
    }
  }

  // ---- The history of one key --------------------------------------------------------------------

  function MutationsOf(log: seq<Committed>, key: string): seq<Mutation> {
    if log == [] then []
    else
      MutationsOf(log[..|log| - 1], key)
      + (if log[|log| - 1].key == key then [log[|log| - 1].mutation] else [])
  }

  /** The patches committed since the flag was last created. */
  function PatchesSince(ms: seq<Mutation>): nat {
    if ms == [] || !ms[|ms| - 1].PatchOf? then 0 else 1 + PatchesSince(ms[..|ms| - 1])
  }

  ghost predicate VersionCounts(s: State, key: string) {
    var ms := MutationsOf(s.log, key);
    && (key in s.flags <==> ms != [] && !ms[|ms| - 1].DeleteOf?)
    && (key in s.flags ==> s.flags[key].row.version == 1 + PatchesSince(ms))
  }

  lemma LandingCounts(s: State, s': State, key: string, k: string, action: Action, mutation: Mutation, actor: string)
    requires VersionCounts(s, key) && Lands(s, s', k, action, mutation, actor)
    ensures VersionCounts(s', key)
  {
    var ms, ms' := MutationsOf(s.log, key), MutationsOf(s'.log, key);
    assert s'.log[..|s'.log| - 1] == s.log;
    if k == key {
      assert ms'[..|ms'| - 1] == ms;
    } else {
      assert ms' == ms;
      assert Lookup(s'.flags, key) == Lookup(s.flags, key);
    }
  }

  /** A flag exists unless its last mutation deleted it, at version 1 plus its patches since creation. */
  lemma {:induction false} VersionCountsPatches(steps: seq<Step>, key: string)
    ensures VersionCounts(Run(steps), key)
  {
    if steps != [] {
      var before, last := steps[..|steps| - 1], steps[|steps| - 1];
      VersionCountsPatches(before, key);
      RunKeepsInv(before);
      StepLands(Run(before), last);
      var (s', outcome) := Do(Run(before), last);
      if outcome.Done? {
        var action, mutation, actor :| Lands(Run(before), s', outcome.key, action, mutation, actor);
        LandingCounts(Run(before), s', key, outcome.key, action, mutation, actor);
      }
    }
  }

  // ---- The audit trail -----------------------------------------------------------------------------

  function ActionsOf(audit: seq<AuditEntry>, key: string): seq<Action> {
    if audit == [] then []
    else
      ActionsOf(audit[..|audit| - 1], key)
      + (if audit[|audit| - 1].flagKey == key then [audit[|audit| - 1].action] else [])
  }

  function Repeated(a: Action, n: nat): seq<Action> {
    seq(n, _ => a)
  }

  /** created updated^n deleted, once per closed life. */
  function ClosedLives(lives: seq<nat>): seq<Action> {
    if lives == [] then []
    else ClosedLives(lives[..|lives| - 1]) + [Created] + Repeated(Updated, lives[|lives| - 1]) + [Deleted]
  }

  /** (created updated* deleted)*, with an open created updated^n at the end if there is one. */
  function Trail(lives: seq<nat>, open: Option<nat>): seq<Action> {
    ClosedLives(lives) + (if open.Some? then [Created] + Repeated(Updated, open.value) else [])
  }

  ghost predicate TrailMatches(s: State, key: string, lives: seq<nat>, open: Option<nat>) {
    && ActionsOf(s.audit, key) == Trail(lives, open)
    && (key in s.flags <==> open.Some?)
    && (key in s.flags ==> s.flags[key].row.version == 1 + open.value)
  }

  lemma TrailGrows(lives: seq<nat>, n: nat)
    ensures Trail(lives, None) + [Created] == Trail(lives, Some(0))
    ensures Trail(lives, Some(n)) + [Updated] == Trail(lives, Some(n + 1))
    ensures Trail(lives, Some(n)) + [Deleted] == Trail(lives + [n], None)
  {
    assert Repeated(Updated, n) + [Updated] == Repeated(Updated, n + 1);
    assert (lives + [n])[..|lives|] == lives;
  }

  lemma LandingExtendsTrail(s: State, s': State, key: string, action: Action, mutation: Mutation, actor: string,
                            lives: seq<nat>, open: Option<nat>)
    returns (lives': seq<nat>, open': Option<nat>)
    requires TrailMatches(s, key, lives, open) && Lands(s, s', key, action, mutation, actor)
    ensures TrailMatches(s', key, lives', open')
  {
    assert s'.audit[..|s'.audit| - 1] == s.audit;
    TrailGrows(lives, open.GetOr(0));
    match action
    case Created => lives', open' := lives, Some(0);
    case Updated => lives', open' := lives, Some(open.value + 1);
    case Deleted => lives', open' := lives + [open.value], None;
  }

  /** One step extends the trail of one key by one entry, or leaves every trail alone. */
  lemma StepExtendsTrail(s: State, step: Step, key: string, lives: seq<nat>, open: Option<nat>)
    returns (lives': seq<nat>, open': Option<nat>)
    requires Inv(s) && TrailMatches(s, key, lives, open)
    ensures TrailMatches(Do(s, step).0, key, lives', open')
  {
    var (s', outcome) := Do(s, step);
    lives', open' := lives, open;
    StepLands(s, step);
    if outcome.Done? {
      var action, mutation, actor :| Lands(s, s', outcome.key, action, mutation, actor);
      if outcome.key == key {
        lives', open' := LandingExtendsTrail(s, s', key, action, mutation, actor, lives, open);
      } else {
        OthersKeepTrail(s, s', key, outcome.key, action, mutation, actor, lives, open);
      }
    }
  }

  lemma OthersKeepTrail(s: State, s': State, key: string, k: string, action: Action, mutation: Mutation, actor: string,
                        lives: seq<nat>, open: Option<nat>)
    requires TrailMatches(s, key, lives, open) && Lands(s, s', k, action, mutation, actor) && k != key
    ensures TrailMatches(s', key, lives, open)
  {
    assert s'.audit[..|s'.audit| - 1] == s.audit;
    assert Lookup(s'.flags, key) == Lookup(s.flags, key);
  }

  /**
   Audit conservation: the entries of every key read (created updated* deleted)* with at
   most one open life at the end; the flag exists exactly when a life is open, and its
   version is 1 plus the updates of that life.
   */
  lemma {:induction false} AuditTrail(steps: seq<Step>, key: string) returns (lives: seq<nat>, open: Option<nat>)
    ensures TrailMatches(Run(steps), key, lives, open)
  {
    if steps == [] {
      lives, open := [], None;
    } else {
      var before := steps[..|steps| - 1];
      lives, open := AuditTrail(before, key);
      RunKeepsInv(before);
      lives, open := StepExtendsTrail(Run(before), steps[|steps| - 1], key, lives, open);
    }
  }

  /** An operation that does not complete changes no table, no audit entry and no log entry. */
  lemma RejectionChangesNothing(s: State, step: Step)
    ensures !Do(s, step).1.Done? ==>
      var s' := Do(s, step).0;
      s'.flags == s.flags && s'.audit == s.audit && s'.log == s.log && s'.nextId == s.nextId
    ensures Do(s, step).1.Done? ==> |Do(s, step).0.audit| == |s.audit| + 1 && |Do(s, step).0.log| == |s.log| + 1
  {
  }

  // ---- Two sessions that disagree -----------------------------------------------------------------

  /**
   Of two sessions that read the same row, only the first to commit succeeds; so one that
   drops a variant and one that pins it cannot both land.
   */
  lemma SecondCommitConflicts(steps: seq<Step>, first: nat, second: nat)
    requires
      var s := Run(steps);
      && first in s.sessions && second in s.sessions && first != second
      && s.sessions[first].Updating? && s.sessions[second].Updating?
      && s.sessions[first].base == s.sessions[second].base
      && Do(s, CommitUpdate(first)).1.Done?
    ensures
      var s := Run(steps);
      var s1 := Do(s, CommitUpdate(first)).0;
      Do(s1, CommitUpdate(second)).1 == Failed(VersionConflict)
  {
    RunKeepsInv(steps);
    assert SessionInPlace(Run(steps), first);
  }
}
