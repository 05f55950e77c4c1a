/**
 What a commit owes to its request. A session holds the flag, the patch and the actor of the step that
 opened it; its commit succeeds exactly when nobody else has committed the flag since, and records
 that patch under that actor.
 */
module Sessions {
  import opened Wrappers
  import opened Schemas
  import opened Models
  import opened Store
  import opened StoreLaws
  import FlagLaws

  // ---- Where a session comes from --------------------------------------------------------------------

  /** The step, done in this state, opens this session on the flag as it is there. */
  predicate Opens(s: State, step: Step, sid: nat, session: Session) {
    && Do(s, step).1.Opened?
    && match step
       case ReadForUpdate(n, key, patch, actor) =>
         n == sid && key in s.flags && session == Updating(s.flags[key], patch, actor)
       case ReadForDelete(n, key, actor) =>
         n == sid && key in s.flags && session == Deleting(s.flags[key], actor)
       case _ => false
  }

  /** The session was opened at place i. */
  predicate OpenedAt(steps: seq<Step>, i: nat, sid: nat, session: Session) {
    i < |steps| && Opens(Run(steps[..i]), steps[i], sid, session)
  }

  lemma SessionAfter(s: State, step: Step, sid: nat)
    requires sid in Do(s, step).0.sessions
    ensures Opens(s, step, sid, Do(s, step).0.sessions[sid])
         || (sid in s.sessions && Do(s, step).0.sessions[sid] == s.sessions[sid])
  {
  }

  /** Every open session was opened by a request, on the flag as it was then. */
  lemma {:induction false} SessionTellsRequest(steps: seq<Step>, sid: nat) returns (i: nat)
    requires sid in Run(steps).sessions
    ensures OpenedAt(steps, i, sid, Run(steps).sessions[sid])
    ensures forall j :: i < j <= |steps| ==>
              sid in Run(steps[..j]).sessions && Run(steps[..j]).sessions[sid] == Run(steps).sessions[sid]
  {
    var n := |steps| - 1;
    var before := steps[..n];
    SessionAfter(Run(before), steps[n], sid);
    assert steps[..|steps|] == steps;
    if Opens(Run(before), steps[n], sid, Run(steps).sessions[sid]) {
      i := n;
    } else {
      i := SessionTellsRequest(before, sid);
      assert forall j :: 0 <= j <= n ==> before[..j] == steps[..j];
    }
  }

  // ---- When a commit succeeds ------------------------------------------------------------------------

  /** Step j of the run commits the flag. */
  predicate CommitsAt(steps: seq<Step>, j: nat, key: string) {
    j < |steps| && Do(Run(steps[..j]), steps[j]).1 == Done(key)
  }

  /** Somebody has committed the flag at place i or later. */
  ghost predicate CommittedSince(steps: seq<Step>, i: nat, key: string) {
    exists j: nat :: i <= j && CommitsAt(steps, j, key)
  }

  /** The row the session read is gone for good. */
  predicate Overtaken(s: State, base: Flag) {
    && base.row.id < s.nextId
    && (base.row.key in s.flags ==>
          var row := s.flags[base.row.key].row;
          row.id != base.row.id || row.version > base.row.version)
  }

  lemma OvertakenStays(s: State, step: Step, base: Flag)
    requires Inv(s) && Overtaken(s, base)
    ensures Overtaken(Do(s, step).0, base)
  {
    match step
    case Create(_, _) =>
    case CommitUpdate(sid) =>
      if sid in s.sessions {
        assert SessionInPlace(s, sid);
      }
    case _ =>
  }

  lemma CommitOvertakes(s: State, step: Step, base: Flag)
    requires Inv(s) && Lookup(s.flags, base.row.key) == Some(base) && Do(s, step).1 == Done(base.row.key)
    ensures Overtaken(Do(s, step).0, base)
  {
    assert FlagInPlace(s, base.row.key);
    if step.CommitUpdate? {
      assert SessionInPlace(s, step.sid);
    }
  }

  lemma OthersKeepFlag(s: State, step: Step, key: string)
    requires Inv(s) && Do(s, step).1 != Done(key)
    ensures Lookup(Do(s, step).0.flags, key) == Lookup(s.flags, key)
  {
  }

  /** Once committed, the flag a session read is overtaken; until then it stands. */
  predicate Fate(s: State, base: Flag, committed: bool) {
    if committed then Overtaken(s, base) else Lookup(s.flags, base.row.key) == Some(base)
  }

  lemma FateAfter(s: State, step: Step, base: Flag, committed: bool)
    requires Inv(s) && Fate(s, base, committed)
    ensures Fate(Do(s, step).0, base, committed || Do(s, step).1 == Done(base.row.key))
  {
    if committed {
      OvertakenStays(s, step, base);
    } else if Do(s, step).1 == Done(base.row.key) {
      CommitOvertakes(s, step, base);
    } else {
      OthersKeepFlag(s, step, base.row.key);
    }
  }

  lemma FateAfterLast(steps: seq<Step>, base: Flag, committed: bool)
    requires steps != [] && Fate(Run(steps[..|steps| - 1]), base, committed)
    ensures Fate(Run(steps), base, committed || CommitsAt(steps, |steps| - 1, base.row.key))
  {
    RunKeepsInv(steps[..|steps| - 1]);
    FateAfter(Run(steps[..|steps| - 1]), steps[|steps| - 1], base, committed);
  }

  lemma {:induction false} FateOverRun(steps: seq<Step>, i: nat, base: Flag)
    requires i <= |steps| && Lookup(Run(steps[..i]).flags, base.row.key) == Some(base)
    ensures Fate(Run(steps), base, CommittedSince(steps, i, base.row.key))
  {
    if i == |steps| {
      assert steps[..i] == steps;
    } else {
      var before := steps[..|steps| - 1];
      assert before[..i] == steps[..i];
      FateOverRun(before, i, base);
      FateAfterLast(steps, base, CommittedSince(before, i, base.row.key));
      CommitsBefore(steps, i, base.row.key);
    }
  }

  lemma CommitsBefore(steps: seq<Step>, i: nat, key: string)
    requires i < |steps|
    ensures CommittedSince(steps, i, key)
       <==> CommitsAt(steps, |steps| - 1, key) || CommittedSince(steps[..|steps| - 1], i, key)
  {
    var before := steps[..|steps| - 1];
    assert forall j :: 0 <= j < |before| ==> before[..j] == steps[..j];
    assert forall j: nat :: j < |before| ==> (CommitsAt(before, j, key) <==> CommitsAt(steps, j, key));
    if j: nat :| i <= j && CommitsAt(steps, j, key) {
      assert j < |before| ==> CommitsAt(before, j, key);
    }
    if j: nat :| i <= j && CommitsAt(before, j, key) {
      assert CommitsAt(steps, j, key);
    }
  }

  lemma FateDecides(s: State, sid: nat, committed: bool)
    requires sid in s.sessions && Fate(s, s.sessions[sid].base, committed)
    ensures Do(s, CommitOf(s.sessions[sid], sid)).1
         == if committed then Failed(VersionConflict) else Done(s.sessions[sid].base.row.key)
  {
  }

  /** The step that commits the session. */
  function CommitOf(session: Session, sid: nat): Step {
    if session.Updating? then CommitUpdate(sid) else CommitDelete(sid)
  }

  /**
   Optimistic locking, exactly. A session that read its flag at place i commits if and only if no other
   commit of the flag has landed since; otherwise it gets a version conflict.
   */
  lemma CommitSucceedsExactly(steps: seq<Step>, i: nat, sid: nat)
    requires sid in Run(steps).sessions && OpenedAt(steps, i, sid, Run(steps).sessions[sid])
    ensures
      var session := Run(steps).sessions[sid];
      Do(Run(steps), CommitOf(session, sid)).1
      == if CommittedSince(steps, i, session.base.row.key) then Failed(VersionConflict)
         else Done(session.base.row.key)
  {
    var session := Run(steps).sessions[sid];
    RunKeepsInv(steps[..i]);
    BaseIsThere(Run(steps[..i]), steps[i], sid, session);
    FateOverRun(steps, i, session.base);
    FateDecides(Run(steps), sid, CommittedSince(steps, i, session.base.row.key));
  }

  // ---- What a commit records -------------------------------------------------------------------------

  /** What a commit leaves in the log and in the audit trail, for the request that asked for it. */
  ghost predicate Records(s: State, s': State, request: Step) {
    && |s'.log| == |s.log| + 1 && s'.log[..|s.log|] == s.log
    && var entry := s'.log[|s.log|];
       match request
       case ReadForUpdate(_, key, patch, actor) =>
         && s'.audit == s.audit + [AuditEntry(key, Updated, actor)]
         && entry.key == key && entry.mutation.PatchOf? && entry.mutation.patch == patch
       case ReadForDelete(_, key, actor) =>
         s'.audit == s.audit + [AuditEntry(key, Deleted, actor)] && entry == Committed(key, DeleteOf)
       case _ => false
  }

  /** A commit records the key, the patch and the actor of the request that opened its session. */
  lemma CommitTellsRequest(steps: seq<Step>, sid: nat) returns (i: nat)
    requires sid in Run(steps).sessions && Do(Run(steps), CommitOf(Run(steps).sessions[sid], sid)).1.Done?
    ensures OpenedAt(steps, i, sid, Run(steps).sessions[sid])
    ensures Records(Run(steps), Do(Run(steps), CommitOf(Run(steps).sessions[sid], sid)).0, steps[i])
  {
    i := SessionTellsRequest(steps, sid);
    RunKeepsInv(steps[..i]);
    BaseIsThere(Run(steps[..i]), steps[i], sid, Run(steps).sessions[sid]);
  }

  lemma BaseIsThere(s: State, step: Step, sid: nat, session: Session)
    requires Inv(s) && Opens(s, step, sid, session)
    ensures match step
            case ReadForUpdate(_, key, _, _) => session.base.row.key == key
            case ReadForDelete(_, key, _) => session.base.row.key == key
            case _ => true
  {
    if step.ReadForUpdate? || step.ReadForDelete? {
      assert FlagInPlace(s, step.key);
    }
  }

  // ---- What each request is answered -----------------------------------------------------------------

  /** A creation is refused for its contents, or for its key, or done. */
  lemma CreateAnswered(s: State, data: FlagCreate, actor: string)
    ensures
      var outcome := Do(s, Create(data, actor)).1;
      && (outcome.Rejected? <==> ValidateCreate(data).Some?)
      && (outcome == Failed(DuplicateFlag) <==> ValidateCreate(data).None? && data.key in s.flags)
      && (outcome == Done(data.key) <==> ValidateCreate(data).None? && data.key !in s.flags)
  {
  }

  /** A patch is refused for its contents, its key, its version or its references, in this order, or opened. */
  lemma UpdateAnswered(steps: seq<Step>, sid: nat, key: string, patch: FlagUpdate, actor: string)
    ensures
      var s := Run(steps);
      var outcome := Do(s, ReadForUpdate(sid, key, patch, actor)).1;
      && (outcome.Rejected? <==> ValidateUpdate(patch).Some?)
      && (ValidateUpdate(patch).None? ==>
            && (outcome == Failed(FlagNotFound) <==> key !in s.flags)
            && (key in s.flags ==>
                  && (outcome == Failed(VersionConflict) <==> s.flags[key].row.version != patch.version)
                  && (s.flags[key].row.version == patch.version ==>
                        && (outcome == Opened || outcome == Failed(InvalidVariant))
                        && forall n: nat ::
                             outcome.Opened? <==> ReferencesHold(ApplyPatch(s.flags[key], patch, n)))))
  {
    var s := Run(steps);
    RunKeepsInv(steps);
    if ValidateUpdate(patch).None? && key in s.flags {
      assert FlagInPlace(s, key);
      forall n: nat
        ensures CheckReferences(s.flags[key], patch).None? <==> ReferencesHold(ApplyPatch(s.flags[key], patch, n))
      {
        FlagLaws.ReferencesCheckedExactly(s.flags[key], patch, n);
      }
    }
  }
}
