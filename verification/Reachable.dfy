/** The invariant of every reachable state of the service. */
module Reachable {
  import opened Wrappers
  import opened Ordering
  import opened Models
  import opened Payload
  import opened Redis
  import opened Protocol
  import opened Freshness
  import opened FreshnessKept
  import Store
  import StoreLaws

  /** Past its field write, before its publish. */
  predicate Written(mut: Mutator) {
    mut.pc.ToCheckTtl? || mut.pc.ToExpire? || mut.pc.ToPublish?
  }

  ghost predicate MutatorFresh(s: State, mut: Mutator) {
    && FenceHolds(s, mut)
    && (Written(mut) ==> Fresh(s, mut.key, mut.index))
  }

  /**
   The cached answer for a flag is at most as many commits behind as there are notifies lost
   since the last one that landed, plus one for a notify that has yet to write its field.
   */
  ghost predicate AgesOk(s: State, key: string) {
    && Fresh(s, key, Landed(s, key))
    && |Hist(s, key)| - 1 == Landed(s, key) + Misses(s, key) + (if HasPending(s, key) then 1 else 0)
  }

  /** Between an HSET and the EXPIRE that answers for it. */
  ghost predicate SomeoneSetsExpiry(s: State) {
    exists m :: m in s.mutators && (s.mutators[m].pc.ToCheckTtl? || s.mutators[m].pc.ToExpire?)
  }

  ghost predicate LifetimeOk(s: State) {
    && (s.redis.hash == map[] ==> s.redis.lifetime.None?)
    && (s.redis.lifetime.Some? ==> s.redis.lifetime.value <= RULESET_TTL_SECONDS)
    && (s.redis.hash != map[] && s.redis.lifetime.None? ==> s.expireLost || SomeoneSetsExpiry(s))
  }

  ghost predicate Ages(s: State) {
    && (forall key :: key != COMPLETE_FIELD ==> AgesOk(s, key))
    && (forall m :: m in s.mutators ==> MutatorFresh(s, s.mutators[m]))
    && (forall e :: e in s.channel ==> e.key != COMPLETE_FIELD && Fresh(s, e.key, e.index))
  }

  ghost predicate Inv(s: State) {
    && StoreLaws.Inv(s.store)
    && Structure(s)
    && Ages(s)
    && LifetimeOk(s)
  }

  // ---- Structure -----------------------------------------------------------------------------------

  /** A new value of a flag after a commit: a fresh row id, or the same row one version on. */
  predicate Follows(before: Option<Flag>, after: Option<Flag>, nextId: nat) {
    after.Some? ==>
      if before.Some?
      then after.value.row.id == before.value.row.id && after.value.row.version == before.value.row.version + 1
      else after.value.row.id >= nextId
  }

  lemma CommitFollows(store: Store.State, st: Store.Step)
    requires StoreLaws.Inv(store) && Store.Do(store, st).1.Done?
    ensures
      var (store', outcome) := Store.Do(store, st);
      && Follows(Lookup(store.flags, outcome.key), Lookup(store'.flags, outcome.key), store.nextId)
      && store.nextId <= store'.nextId
      && (outcome.key !in store.flags ==> outcome.key != COMPLETE_FIELD)
  {
    match st
    case Create(data, _) => MarkerIsNoFlagKey(data.key, 128);
    case CommitUpdate(sid) => assert StoreLaws.SessionInPlace(store, sid);
    case CommitDelete(_) =>
  }

  lemma CommitFacts(store: Store.State, st: Store.Step)
    requires StoreLaws.Inv(store) && Store.Do(store, st).1.Done?
    ensures
      var (store', outcome) := Store.Do(store, st);
      var key := outcome.key;
      && StoreLaws.Inv(store')
      && (forall k :: k != key ==> Lookup(store'.flags, k) == Lookup(store.flags, k))
      && (key in store'.flags ==> store'.flags[key].row.key == key && store'.flags[key].row.id < store'.nextId)
  {
    var (store', outcome) := Store.Do(store, st);
    var key := outcome.key;
    StoreLaws.StepKeepsInv(store, st);
    StoreLaws.StepLands(store, st);
    var action, mutation, actor :| StoreLaws.Lands(store, store', key, action, mutation, actor);
    if key in store'.flags {
      assert StoreLaws.FlagInPlace(store', key);
    }
  }

  lemma HistoryGrows(h: History, key: string, current: Option<Flag>, after: Option<Flag>, nextId: nat)
    requires HistoryOk(h, key, current) && IdsBelow(h, nextId) && FlagOk(after, key) && Follows(current, after, nextId)
    ensures HistoryOk(h + [after], key, after)
  {
    var h' := h + [after];
    forall i | 0 <= i < |h'| - 1 && h'[i].Some? && h'[i + 1].Some?
      ensures h'[i].value.row.id == h'[i + 1].value.row.id
    {
      assert h'[i] == h[i];
    }
    RiseGrows(h, after, nextId);
  }

  lemma RiseGrows(h: History, after: Option<Flag>, nextId: nat)
    requires |h| > 0 && RowsRise(h) && IdsBelow(h, nextId) && Follows(h[|h| - 1], after, nextId)
    ensures RowsRise(h + [after])
  {
    var h', last := h + [after], |h| - 1;
    forall i, j | 0 <= i < j < |h'| && h'[i].Some? && h'[j].Some?
      ensures Precedes(h'[i].value.row, h'[j].value.row)
    {
      assert h'[i] == h[i];
      if j <= last {
        assert h'[j] == h[j];
      } else {
        assert i < last && h[last].Some? ==> Precedes(h[i].value.row, h[last].value.row);
      }
    }
  }

  lemma StructureAfterCommit(s: State, m: nat, st: Store.Step)
    requires StoreLaws.Inv(s.store) && Structure(s) && Enabled(s, Commit(m, st))
    ensures
      var (store', outcome) := Store.Do(s.store, st);
      Structure(AfterCommit(s, m, store', outcome.key)) && outcome.key != COMPLETE_FIELD
  {
    var (store', outcome) := Store.Do(s.store, st);
    var key := outcome.key;
    CommitFacts(s.store, st);
    CommitFollows(s.store, st);
    var h := Hist(s, key);
    assert HistoryOk(h, key, Current(s, key)) && IdsBelow(h, s.store.nextId);
    assert key != COMPLETE_FIELD by {
      assert FlagOk(h[|h| - 1], key);
    }
    HistoryGrows(h, key, Current(s, key), Lookup(store'.flags, key), s.store.nextId);
    HistoriesAfterCommit(s, m, store', key);
    MutatorsAfterCommit(s, m, store', key);
  }

  lemma HistoriesAfterCommit(s: State, m: nat, store': Store.State, key: string)
    requires Structure(s) && s.store.nextId <= store'.nextId
    requires HistoryOk(Hist(s, key) + [Lookup(store'.flags, key)], key, Lookup(store'.flags, key))
    requires key in store'.flags ==> store'.flags[key].row.id < store'.nextId
    requires forall k :: k != key ==> Lookup(store'.flags, k) == Lookup(s.store.flags, k)
    ensures
      var s' := AfterCommit(s, m, store', key);
      forall k :: HistoryOk(Hist(s', k), k, Current(s', k)) && IdsBelow(Hist(s', k), s'.store.nextId)
  {
    var s' := AfterCommit(s, m, store', key);
    forall k ensures HistoryOk(Hist(s', k), k, Current(s', k)) && IdsBelow(Hist(s', k), s'.store.nextId) {
      assert HistoryOk(Hist(s, k), k, Current(s, k)) && IdsBelow(Hist(s, k), s.store.nextId);
    }
  }

  lemma MutatorsAfterCommit(s: State, m: nat, store': Store.State, key: string)
    requires forall i :: i in s.mutators ==> MutatorOk(Hist(s, s.mutators[i].key), s.mutators[i])
    requires OnePending(s) && m !in s.mutators && !HasPending(s, key) && key != COMPLETE_FIELD
    ensures
      var s' := AfterCommit(s, m, store', key);
      && (forall i :: i in s'.mutators ==> MutatorOk(Hist(s', s'.mutators[i].key), s'.mutators[i]))
      && OnePending(s')
  {
    var s' := AfterCommit(s, m, store', key);
    forall i | i in s'.mutators ensures MutatorOk(Hist(s', s'.mutators[i].key), s'.mutators[i]) {
      if i != m {
        assert MutatorOk(Hist(s, s.mutators[i].key), s.mutators[i]);
      }
    }
    PendingAfterCommitIsOne(s, m, store', key);
  }

  lemma PendingAfterCommitIsOne(s: State, m: nat, store': Store.State, key: string)
    requires OnePending(s) && m !in s.mutators && !HasPending(s, key)
    ensures OnePending(AfterCommit(s, m, store', key))
  {
    var s' := AfterCommit(s, m, store', key);
    forall i | i in s'.mutators && i != m && s'.mutators[i].key == key ensures !Pending(s'.mutators[i]) {
      assert s'.mutators[i] == s.mutators[i];
    }
  }

  lemma MutatorsStayOk(s: State, m: nat, move: MutatorMove)
    requires forall i :: i in s.mutators ==> MutatorOk(Hist(s, s.mutators[i].key), s.mutators[i])
    requires OnePending(s) && m in s.mutators && CanNotify(s.mutators[m], move)
    ensures
      var s' := AfterNotify(s, m, move);
      && (forall i :: i in s'.mutators ==> MutatorOk(Hist(s', s'.mutators[i].key), s'.mutators[i]))
      && OnePending(s')
  {
    var s' := AfterNotify(s, m, move);
    assert Pending(s'.mutators[m]) ==> Pending(s.mutators[m]);
    forall i | i in s'.mutators ensures MutatorOk(Hist(s', s'.mutators[i].key), s'.mutators[i]) {
      assert MutatorOk(Hist(s, s.mutators[i].key), s.mutators[i]);
    }
    PendingStaysOne(s, m, move);
  }

  lemma PendingStaysOne(s: State, m: nat, move: MutatorMove)
    requires OnePending(s) && m in s.mutators && CanNotify(s.mutators[m], move)
    ensures OnePending(AfterNotify(s, m, move))
  {
    var s' := AfterNotify(s, m, move);
    forall i | i in s'.mutators && Pending(s'.mutators[i])
      ensures Pending(s.mutators[i]) && s'.mutators[i].key == s.mutators[i].key
    {}
  }

  lemma StructureAfterNotify(s: State, m: nat, move: MutatorMove)
    requires Structure(s) && m in s.mutators && CanNotify(s.mutators[m], move)
    ensures Structure(AfterNotify(s, m, move))
  {
    var s' := AfterNotify(s, m, move);
    MutatorsStayOk(s, m, move);
    forall k ensures HistoryOk(Hist(s', k), k, Current(s', k)) && IdsBelow(Hist(s', k), s'.store.nextId) {
      assert HistoryOk(Hist(s, k), k, Current(s, k)) && IdsBelow(Hist(s, k), s.store.nextId);
    }
    forall c | c in s'.calls ensures CallOk(s'.redis, s'.calls[c]) {
      assert CallOk(s.redis, s.calls[c]);
    }
  }

  lemma LoadedVariantsInOrder(flags: map<string, Flag>, rows: map<string, Row>)
    ensures VariantsInOrder(map k | k in rows :: InKeyOrder(ChildVariants(flags, rows[k])))
  {
    forall k | k in rows
      ensures InKeyOrder(InKeyOrder(ChildVariants(flags, rows[k]))) == InKeyOrder(ChildVariants(flags, rows[k]))
    {
      SortIdempotent(ChildVariants(flags, rows[k]), RowKey);
    }
  }

  lemma FenceOkAfter(flags: map<string, Flag>, server: Server, call: Call, move: CallMove)
    requires FenceOk(server, call) && CanCall(flags, call, move)
    ensures FenceOk(CallServer(server, call, move), CallAfter(flags, server, call, move))
  {
  }

  lemma CachedRulesetHasNoMarker(server: Server)
    requires RulesetAnswer(server).Some?
    ensures COMPLETE_FIELD !in Entries(RulesetAnswer(server).value)
  {
  }

  lemma SnapshotOkAfter(flags: map<string, Flag>, server: Server, call: Call, move: CallMove)
    requires SnapshotOk(call) && CanCall(flags, call, move)
    requires forall k :: k in flags ==> flags[k].row.key == k && k != COMPLETE_FIELD
    ensures SnapshotOk(CallAfter(flags, server, call, move))
  {
    match move
    case ReadCache =>
      if RulesetAnswer(server).Some? {
        CachedRulesetHasNoMarker(server);
      }
    case ReadRows => assert RowsUnderKeys(map k | k in flags :: flags[k].row);
    case ReadVariants => LoadedVariantsInOrder(flags, call.rows);
    case _ =>
  }

  lemma CallOkAfter(flags: map<string, Flag>, server: Server, call: Call, move: CallMove)
    requires CallOk(server, call) && CanCall(flags, call, move)
    requires forall k :: k in flags ==> flags[k].row.key == k && k != COMPLETE_FIELD
    ensures CallOk(CallServer(server, call, move), CallAfter(flags, server, call, move))
  {
    FenceOkAfter(flags, server, call, move);
    SnapshotOkAfter(flags, server, call, move);
  }

  lemma StructureAfterCall(s: State, c: nat, move: CallMove)
    requires Structure(s) && c in s.calls && CanCall(s.store.flags, s.calls[c], move)
    ensures Structure(AfterCall(s, c, move))
  {
    var s' := AfterCall(s, c, move);
    forall k ensures HistoryOk(Hist(s', k), k, Current(s', k)) && IdsBelow(Hist(s', k), s'.store.nextId) {
      assert HistoryOk(Hist(s, k), k, Current(s, k)) && IdsBelow(Hist(s, k), s.store.nextId);
    }
    forall k | k in s.store.flags ensures s.store.flags[k].row.key == k && k != COMPLETE_FIELD {
      assert HistoryOk(Hist(s, k), k, Current(s, k));
      assert FlagOk(Hist(s, k)[|Hist(s, k)| - 1], k);
    }
    CallOkAfter(s.store.flags, s.redis, s.calls[c], move);
    forall i | i in s'.calls ensures CallOk(s'.redis, s'.calls[i]) {
      assert CallOk(s.redis, s.calls[i]);
    }
    forall i | i in s'.mutators ensures MutatorOk(Hist(s', s'.mutators[i].key), s'.mutators[i]) {
      assert MutatorOk(Hist(s, s.mutators[i].key), s.mutators[i]);
    }
  }

  /** Steps that touch neither tables, mutators nor the epoch. */
  lemma StructureFrame(s: State, s': State)
    requires Structure(s)
    requires s'.store.flags == s.store.flags && s'.store.nextId == s.store.nextId
    requires s'.history == s.history && s'.mutators == s.mutators
    requires EpochOrZero(s'.redis) == EpochOrZero(s.redis) && s'.redis.touched == s.redis.touched
    requires forall c :: c in s'.calls ==> (c in s.calls && s'.calls[c] == s.calls[c]) || CallOk(s'.redis, s'.calls[c])
    ensures Structure(s')
  {
    forall k ensures HistoryOk(Hist(s', k), k, Current(s', k)) && IdsBelow(Hist(s', k), s'.store.nextId) {
      assert HistoryOk(Hist(s, k), k, Current(s, k)) && IdsBelow(Hist(s, k), s.store.nextId);
    }
    forall c | c in s'.calls ensures CallOk(s'.redis, s'.calls[c]) {
      assert c in s.calls ==> CallOk(s.redis, s.calls[c]);
    }
    forall i | i in s'.mutators ensures MutatorOk(Hist(s', s'.mutators[i].key), s'.mutators[i]) {
      assert MutatorOk(Hist(s, s.mutators[i].key), s.mutators[i]);
    }
  }

  lemma StructureAfterStoreStep(s: State, st: Store.Step)
    requires StoreLaws.Inv(s.store) && Structure(s) && !Store.Do(s.store, st).1.Done?
    ensures
      var s' := s.(store := Store.Do(s.store, st).0);
      StoreLaws.Inv(s'.store) && Structure(s')
  {
    StoreLaws.StepKeepsInv(s.store, st);
    StoreLaws.RejectionChangesNothing(s.store, st);
    StructureFrame(s, s.(store := Store.Do(s.store, st).0));
  }

  lemma StructureAfterBegin(s: State, c: nat, kind: Kind)
    requires Structure(s)
    ensures Structure(s.(calls := s.calls[c := NewCall(kind)]))
  {
    StructureFrame(s, s.(calls := s.calls[c := NewCall(kind)]));
  }

  lemma StructureAfterExpiry(s: State, server: Server)
    requires Structure(s) && server.epoch == s.redis.epoch && server.touched == s.redis.touched
    ensures Structure(s.(redis := server))
  {
    StructureFrame(s, s.(redis := server));
  }

  lemma StructureKept(s: State, step: Step)
    requires StoreLaws.Inv(s.store) && Structure(s) && Enabled(s, step)
    ensures StoreLaws.Inv(Effect(s, step).store) && Structure(Effect(s, step))
  {
    match step
    case StoreStep(st) => StructureAfterStoreStep(s, st);
    case Commit(m, st) =>
      StoreLaws.StepKeepsInv(s.store, st);
      StructureAfterCommit(s, m, st);
    case Notify(m, move) => StructureAfterNotify(s, m, move);
    case Begin(c, kind) => StructureAfterBegin(s, c, kind);
    case Go(c, move) => StructureAfterCall(s, c, move);
    case Second => StructureAfterExpiry(s, Tick(s.redis));
    case Evict => StructureAfterExpiry(s, Del(s.redis));
    case Flush =>
  }

  // ---- Ages ----------------------------------------------------------------------------------------

  /** Once its field write lands, a notify's commit is the age of everything that matters. */
  lemma LandedIsFresh(s: State, m: nat)
    requires Structure(s) && m in s.mutators && CanNotify(s.mutators[m], WriteField)
    requires FenceHolds(s, s.mutators[m])
    ensures Fresh(AfterNotify(s, m, WriteField), s.mutators[m].key, s.mutators[m].index)
  {
    var mut, s' := s.mutators[m], AfterNotify(s, m, WriteField);
    var h := Hist(s, mut.key);
    assert MutatorOk(h, mut);
    assert Since(h, mut.index, mut.index);
    WholeIsFresh(h, mut.index, mut.index);
    RebuildsAfterNotify(s, m, WriteField, mut.key, mut.index);
    assert Hist(s', mut.key) == h;
    assert WritersFresh(s', mut.key, mut.index);
  }

  lemma PendingOf(s: State, m: nat)
    requires m in s.mutators && Pending(s.mutators[m])
    ensures HasPending(s, s.mutators[m].key)
  {
  }

  lemma PendingAfterNotify(s: State, m: nat, move: MutatorMove, key: string)
    requires Structure(s) && m in s.mutators && CanNotify(s.mutators[m], move)
    ensures
      var mut := s.mutators[m];
      HasPending(AfterNotify(s, m, move), key)
      <==> if key == mut.key && Pending(mut) then move.IncrEpoch? else HasPending(s, key)
  {
    var mut, s' := s.mutators[m], AfterNotify(s, m, move);
    if key == mut.key && Pending(mut) {
      if move.IncrEpoch? {
        PendingOf(s', m);
      } else {
        forall i | i in s'.mutators && s'.mutators[i].key == key ensures !Pending(s'.mutators[i]) {
          assert i != m ==> s.mutators[i] == s'.mutators[i];
        }
      }
    } else {
      OthersStayPending(s, m, move, key);
    }
  }

  lemma OthersStayPending(s: State, m: nat, move: MutatorMove, key: string)
    requires m in s.mutators && CanNotify(s.mutators[m], move)
    requires key != s.mutators[m].key || !Pending(s.mutators[m])
    ensures HasPending(AfterNotify(s, m, move), key) <==> HasPending(s, key)
  {
    var s' := AfterNotify(s, m, move);
    if HasPending(s, key) {
      var i :| i in s.mutators && s.mutators[i].key == key && Pending(s.mutators[i]);
      assert i != m && s'.mutators[i] == s.mutators[i];
      PendingOf(s', i);
    }
    if HasPending(s', key) {
      var i :| i in s'.mutators && s'.mutators[i].key == key && Pending(s'.mutators[i]);
      assert i != m && s.mutators[i] == s'.mutators[i];
      PendingOf(s, i);
    }
  }

  /** The flag is fresh for the last landed commit, which a field write moves. */
  lemma LandedStaysFresh(s: State, m: nat, move: MutatorMove, key: string)
    requires Structure(s) && m in s.mutators && CanNotify(s.mutators[m], move) && key != COMPLETE_FIELD
    requires Fresh(s, key, Landed(s, key)) && FenceHolds(s, s.mutators[m])
    ensures Fresh(AfterNotify(s, m, move), key, Landed(AfterNotify(s, m, move), key))
  {
    if move.WriteField? && key == s.mutators[m].key {
      LandedIsFresh(s, m);
    } else {
      FreshAfterNotify(s, m, move, key, Landed(s, key));
    }
  }

  function LagOf(s: State, pending: bool, key: string): nat {
    Misses(s, key) + (if pending then 1 else 0)
  }

  /** A notify lands its commit, is lost, or leaves the count as it is. */
  lemma LagAfterNotify(s: State, m: nat, move: MutatorMove, key: string, before: bool, after: bool)
    requires m in s.mutators && CanNotify(s.mutators[m], move)
    requires |Hist(s, key)| - 1 == Landed(s, key) + LagOf(s, before, key)
    requires key == s.mutators[m].key && Pending(s.mutators[m]) ==> before && s.mutators[m].index == |Hist(s, key)| - 1
    requires after == if key == s.mutators[m].key && Pending(s.mutators[m]) then move.IncrEpoch? else before
    ensures
      var s' := AfterNotify(s, m, move);
      |Hist(s', key)| - 1 == Landed(s', key) + LagOf(s', after, key)
  {
  }

  lemma AgesAfterNotify(s: State, m: nat, move: MutatorMove, key: string)
    requires Inv(s) && m in s.mutators && CanNotify(s.mutators[m], move) && key != COMPLETE_FIELD
    ensures AgesOk(AfterNotify(s, m, move), key)
  {
    var mut := s.mutators[m];
    assert AgesOk(s, key) && MutatorOk(Hist(s, mut.key), mut) && MutatorFresh(s, mut);
    PendingAfterNotify(s, m, move, key);
    if Pending(mut) {
      PendingOf(s, m);
    }
    LandedStaysFresh(s, m, move, key);
    LagAfterNotify(s, m, move, key, HasPending(s, key), HasPending(AfterNotify(s, m, move), key));
  }

  lemma AgesAfterCommit(s: State, m: nat, store': Store.State, k: string, key: string)
    requires AgesOk(s, key) && m !in s.mutators && !HasPending(s, k)
    ensures AgesOk(AfterCommit(s, m, store', k), key)
  {
    FreshAfterCommit(s, m, store', k, key, Landed(s, key));
    PendingAfterCommit(s, m, store', k, key);
  }

  lemma PendingAfterCommit(s: State, m: nat, store': Store.State, k: string, key: string)
    requires m !in s.mutators
    ensures HasPending(AfterCommit(s, m, store', k), key) <==> key == k || HasPending(s, key)
  {
    var s' := AfterCommit(s, m, store', k);
    if key == k {
      PendingOf(s', m);
    }
    if HasPending(s, key) {
      var i :| i in s.mutators && s.mutators[i].key == key && Pending(s.mutators[i]);
      assert s'.mutators[i] == s.mutators[i];
      PendingOf(s', i);
    }
    if HasPending(s', key) && key != k {
      var i :| i in s'.mutators && s'.mutators[i].key == key && Pending(s'.mutators[i]);
      assert s'.mutators[i] == s.mutators[i];
      PendingOf(s, i);
    }
  }

  lemma AgesElsewhere(s: State, step: Step, key: string)
    requires Inv(s) && Enabled(s, step) && !step.Notify? && !step.Commit? && key != COMPLETE_FIELD
    ensures AgesOk(Effect(s, step), key)
  {
    assert AgesOk(s, key);
    FreshKept(s, step, key, Landed(s, key));
    RecordElsewhere(s, step);
  }

  lemma RecordElsewhere(s: State, step: Step)
    requires Possible(s, step) && !step.Notify? && !step.Commit?
    ensures
      var s' := Effect(s, step);
      s'.mutators == s.mutators && s'.history == s.history && s'.landed == s.landed && s'.misses == s.misses
  {
  }

  lemma OtherMutatorsAfterNotify(s: State, m: nat, move: MutatorMove, i: nat)
    requires Inv(s) && m in s.mutators && CanNotify(s.mutators[m], move) && i in s.mutators && i != m
    ensures MutatorFresh(AfterNotify(s, m, move), s.mutators[i])
  {
    var mut := s.mutators[i];
    assert MutatorOk(Hist(s, mut.key), mut) && MutatorFresh(s, mut);
    if mut.pc.ToWrite? {
      RebuildsAfterNotify(s, m, move, mut.key, mut.index);
    }
    if Written(mut) {
      FreshAfterNotify(s, m, move, mut.key, mut.index);
    }
  }

  lemma BumpedMutatorIsFresh(s: State, m: nat)
    requires Structure(s) && m in s.mutators && s.mutators[m].pc.ToIncr?
    ensures MutatorFresh(AfterNotify(s, m, IncrEpoch), AfterNotify(s, m, IncrEpoch).mutators[m])
  {
    BumpKillsRebuilds(s, m, s.mutators[m].key, s.mutators[m].index);
  }

  lemma LandedMutatorIsFresh(s: State, m: nat)
    requires Structure(s) && m in s.mutators && s.mutators[m].pc.ToWrite? && FenceHolds(s, s.mutators[m])
    ensures MutatorFresh(AfterNotify(s, m, WriteField), AfterNotify(s, m, WriteField).mutators[m])
  {
    LandedIsFresh(s, m);
  }

  lemma WrittenMutatorStaysFresh(s: State, m: nat, move: MutatorMove)
    requires Structure(s) && m in s.mutators && CanNotify(s.mutators[m], move) && Written(s.mutators[m])
    requires Fresh(s, s.mutators[m].key, s.mutators[m].index)
    ensures MutatorFresh(AfterNotify(s, m, move), AfterNotify(s, m, move).mutators[m])
  {
    assert MutatorOk(Hist(s, s.mutators[m].key), s.mutators[m]);
    FreshAfterNotify(s, m, move, s.mutators[m].key, s.mutators[m].index);
  }

  lemma OwnMutatorAfterNotify(s: State, m: nat, move: MutatorMove)
    requires m in s.mutators
    requires Structure(s) && MutatorFresh(s, s.mutators[m]) && CanNotify(s.mutators[m], move)
    ensures MutatorFresh(AfterNotify(s, m, move), AfterNotify(s, m, move).mutators[m])
  {
    if move.NotifyFails? {
    } else if move.IncrEpoch? {
      BumpedMutatorIsFresh(s, m);
    } else if move.WriteField? {
      LandedMutatorIsFresh(s, m);
    } else {
      WrittenMutatorStaysFresh(s, m, move);
    }
  }

  lemma MutatorsAfterNotify(s: State, m: nat, move: MutatorMove, i: nat)
    requires Inv(s) && m in s.mutators && CanNotify(s.mutators[m], move) && i in s.mutators
    ensures MutatorFresh(AfterNotify(s, m, move), AfterNotify(s, m, move).mutators[i])
  {
    if i == m {
      OwnMutatorAfterNotify(s, m, move);
    } else {
      OtherMutatorsAfterNotify(s, m, move, i);
    }
  }

  lemma MutatorsElsewhere(s: State, step: Step, i: nat)
    requires Inv(s) && Enabled(s, step) && !step.Notify? && i in s.mutators
    ensures MutatorFresh(Effect(s, step), s.mutators[i])
  {
    var mut := s.mutators[i];
    assert MutatorOk(Hist(s, mut.key), mut);
    assert MutatorFresh(s, mut);
    if mut.pc.ToWrite? {
      RebuildsElsewhere(s, step, mut.key, mut.index);
    }
    if Written(mut) {
      FreshKept(s, step, mut.key, mut.index);
    }
  }

  lemma RebuildsElsewhere(s: State, step: Step, key: string, n: nat)
    requires Structure(s) && Enabled(s, step) && !step.Notify? && RebuildsFresh(s, key, n) && n < |Hist(s, key)|
    ensures RebuildsFresh(Effect(s, step), key, n)
  {
    match step
    case Commit(m, st) => RebuildsAfterCommit(s, m, Store.Do(s.store, st).0, Store.Do(s.store, st).1.key, key, n);
    case Go(c, move) => RebuildsAfterCall(s, c, move, key, n);
    case StoreStep(st) => RebuildsFrame(s, Effect(s, step), key, n);
    case Begin(c, kind) => RebuildsFrame(s, Effect(s, step), key, n);
    case Second => RebuildsFrame(s, Effect(s, step), key, n);
    case Evict => RebuildsFrame(s, Effect(s, step), key, n);
    case Flush =>
  }

  lemma ChannelKept(s: State, step: Step, e: Event)
    requires Inv(s) && Enabled(s, step) && e in Effect(s, step).channel
    ensures e.key != COMPLETE_FIELD && Fresh(Effect(s, step), e.key, e.index)
  {
    if e in s.channel {
      FreshKept(s, step, e.key, e.index);
    } else {
      var mut := s.mutators[step.m];
      assert MutatorOk(Hist(s, mut.key), mut);
      assert MutatorFresh(s, mut);
      FreshKept(s, step, mut.key, mut.index);
    }
  }

  lemma AllAgesKept(s: State, step: Step)
    requires Inv(s) && Enabled(s, step)
    ensures forall key :: key != COMPLETE_FIELD ==> AgesOk(Effect(s, step), key)
  {
    forall key | key != COMPLETE_FIELD ensures AgesOk(Effect(s, step), key) {
      match step
      case Notify(m, move) => AgesAfterNotify(s, m, move, key);
      case Commit(m, st) => AgesAfterCommit(s, m, Store.Do(s.store, st).0, Store.Do(s.store, st).1.key, key);
      case _ => AgesElsewhere(s, step, key);
    }
  }

  lemma AllMutatorsAfterNotify(s: State, m: nat, move: MutatorMove)
    requires Inv(s) && m in s.mutators && CanNotify(s.mutators[m], move)
    ensures
      var s' := AfterNotify(s, m, move);
      forall i :: i in s'.mutators ==> MutatorFresh(s', s'.mutators[i])
  {
    var s' := AfterNotify(s, m, move);
    forall i | i in s'.mutators ensures MutatorFresh(s', s'.mutators[i]) {
      MutatorsAfterNotify(s, m, move, i);
    }
  }

  lemma AllMutatorsElsewhere(s: State, step: Step)
    requires Inv(s) && Enabled(s, step) && !step.Notify?
    ensures forall i :: i in s.mutators ==> MutatorFresh(Effect(s, step), s.mutators[i])
  {
    forall i | i in s.mutators ensures MutatorFresh(Effect(s, step), s.mutators[i]) {
      MutatorsElsewhere(s, step, i);
    }
  }

  /** A mutator that has only committed owes nothing yet. */
  lemma MutatorsAre(s: State, step: Step, i: nat)
    requires Possible(s, step) && !step.Notify? && i in Effect(s, step).mutators
    ensures (i in s.mutators && Effect(s, step).mutators[i] == s.mutators[i]) || Effect(s, step).mutators[i].pc.ToIncr?
  {
  }

  lemma AllMutatorsKept(s: State, step: Step)
    requires Inv(s) && Enabled(s, step)
    ensures forall i :: i in Effect(s, step).mutators ==> MutatorFresh(Effect(s, step), Effect(s, step).mutators[i])
  {
    if step.Notify? {
      AllMutatorsAfterNotify(s, step.m, step.move);
    } else {
      AllMutatorsElsewhere(s, step);
      forall i | i in Effect(s, step).mutators ensures MutatorFresh(Effect(s, step), Effect(s, step).mutators[i]) {
        MutatorsAre(s, step, i);
      }
    }
  }

  lemma AgesKept(s: State, step: Step)
    requires Inv(s) && Enabled(s, step)
    ensures Ages(Effect(s, step))
  {
    AllAgesKept(s, step);
    AllMutatorsKept(s, step);
    forall e | e in Effect(s, step).channel ensures e.key != COMPLETE_FIELD && Fresh(Effect(s, step), e.key, e.index) {
      ChannelKept(s, step, e);
    }
  }

  // ---- Lifetimes -------------------------------------------------------------------------------------

  lemma LifetimeAfterNotify(s: State, m: nat, move: MutatorMove)
    requires LifetimeOk(s) && m in s.mutators && CanNotify(s.mutators[m], move)
    ensures LifetimeOk(AfterNotify(s, m, move))
  {
    var s' := AfterNotify(s, m, move);
    if SomeoneSetsExpiry(s) {
      var i :| i in s.mutators && (s.mutators[i].pc.ToCheckTtl? || s.mutators[i].pc.ToExpire?);
      assert i != m ==> s'.mutators[i] == s.mutators[i];
      assert i != m ==> SomeoneSetsExpiry(s');
    }
    if s'.mutators[m].pc.ToCheckTtl? || s'.mutators[m].pc.ToExpire? {
      assert SomeoneSetsExpiry(s');
    }
  }

  lemma LifetimeAfterCall(s: State, c: nat, move: CallMove)
    requires LifetimeOk(s) && c in s.calls
    ensures LifetimeOk(AfterCall(s, c, move))
  {
    var s' := AfterCall(s, c, move);
    assert SomeoneSetsExpiry(s) ==> SomeoneSetsExpiry(s');
    assert COMPLETE_FIELD in Replace(s.redis, Mapping(s.calls[c])).hash;
  }

  lemma LifetimeKept(s: State, step: Step)
    requires LifetimeOk(s) && Enabled(s, step)
    ensures LifetimeOk(Effect(s, step))
  {
    match step
    case Notify(m, move) => LifetimeAfterNotify(s, m, move);
    case Go(c, move) => LifetimeAfterCall(s, c, move);
    case Commit(m, st) =>
      var s' := Effect(s, step);
      if SomeoneSetsExpiry(s) {
        var i :| i in s.mutators && (s.mutators[i].pc.ToCheckTtl? || s.mutators[i].pc.ToExpire?);
        assert s'.mutators[i] == s.mutators[i];
      }
    case StoreStep(_) => assert SomeoneSetsExpiry(s) ==> SomeoneSetsExpiry(Effect(s, step));
    case Begin(_, _) => assert SomeoneSetsExpiry(s) ==> SomeoneSetsExpiry(Effect(s, step));
    case Second => assert SomeoneSetsExpiry(s) ==> SomeoneSetsExpiry(Effect(s, step));
    case Evict =>
    case Flush =>
  }

  // ---- Every reachable state -------------------------------------------------------------------------

  lemma InvKept(s: State, step: Step)
    requires Inv(s) && Enabled(s, step)
    ensures Inv(Effect(s, step))
  {
    StructureKept(s, step);
    AgesKept(s, step);
    LifetimeKept(s, step);
  }

  lemma InvInitially()
    ensures Inv(INITIAL)
  {
    forall key
      ensures HistoryOk(Hist(INITIAL, key), key, Current(INITIAL, key)) && AgesOk(INITIAL, key)
           && IdsBelow(Hist(INITIAL, key), INITIAL.store.nextId)
    {
      assert Since([None], 0, 0);
    }
  }

  lemma {:induction false} InvAlways(run: seq<Step>)
    requires ValidRun(run)
    ensures Inv(After(run))
  {
    if run == [] {
      InvInitially();
    } else {
      InvAlways(run[..|run| - 1]);
      InvKept(After(run[..|run| - 1]), run[|run| - 1]);
    }
  }
}
