/** From a request over the whole service to what later calls answer. */
module Requests {
  import opened Wrappers
  import opened Engine
  import opened Models
  import opened Protocol
  import opened CacheLaws
  import Sessions
  import Store

  // ---- The store inside the service ------------------------------------------------------------------

  /** What the run does to the store, in its order. */
  function StoreSteps(run: seq<Step>): seq<Store.Step> {
    if run == [] then []
    else
      var before := StoreSteps(run[..|run| - 1]);
      match run[|run| - 1]
      case StoreStep(st) => before + [st]
      case Commit(_, st) => before + [st]
      case _ => before
  }

  /** The service's store is the store of those steps: whatever holds of every store holds of it. */
  lemma {:induction false} StoreOfRun(run: seq<Step>)
    requires ValidRun(run)
    ensures After(run).store == Store.Run(StoreSteps(run))
  {
    if run != [] {
      var before, last := run[..|run| - 1], run[|run| - 1];
      StoreOfRun(before);
      if last.StoreStep? || last.Commit? {
        RunGrows(StoreSteps(before), last.step);
      }
    }
  }

  lemma RunGrows(steps: seq<Store.Step>, st: Store.Step)
    ensures Store.Run(steps + [st]) == Store.Do(Store.Run(steps), st).0
  {
    assert (steps + [st])[..|steps|] == steps;
  }

  /** An open session of the service holds what the request that opened it asked for. */
  lemma SessionOfRun(run: seq<Step>, sid: nat) returns (i: nat)
    requires ValidRun(run) && sid in After(run).store.sessions
    ensures Sessions.OpenedAt(StoreSteps(run), i, sid, After(run).store.sessions[sid])
  {
    StoreOfRun(run);
    i := Sessions.SessionTellsRequest(StoreSteps(run), sid);
  }

  // ---- A mutator's flag ------------------------------------------------------------------------------

  predicate Holding(s: State, m: nat, key: string, after: Option<Flag>) {
    m in s.mutators && s.mutators[m].key == key && s.mutators[m].after == after
  }

  lemma HoldingStays(s: State, step: Step, m: nat, key: string, after: Option<Flag>)
    requires Possible(s, step) && Holding(s, m, key, after)
    ensures Holding(Effect(s, step), m, key, after)
  {
  }

  /** A notify carries what its commit left. */
  lemma {:induction false} CarriesItsCommit(run: seq<Step>, j: nat, m: nat, key: string, after: Option<Flag>)
    requires ValidRun(run) && j <= |run| && Holding(After(run[..j]), m, key, after)
    ensures Holding(After(run), m, key, after)
  {
    if j < |run| {
      Prefix(run, j);
      CarriesItsCommit(run[..|run| - 1], j, m, key, after);
      HoldingStays(After(run[..|run| - 1]), run[|run| - 1], m, key, after);
    } else {
      assert run[..j] == run;
    }
  }

  /** Step j commits, through mutator m, a patch of the flag that carries enabled. */
  ghost predicate CommitsSwitch(run: seq<Step>, j: nat, m: nat, key: string, enabled: bool) {
    && j < |run| && run[j].Commit? && run[j].m == m && run[j].step.CommitUpdate?
    && var store, sid := After(run[..j]).store, run[j].step.sid;
       && sid in store.sessions && store.sessions[sid].Updating? && store.sessions[sid].base.row.key == key
       && store.sessions[sid].patch.enabled == Some(enabled)
  }

  predicate Switched(o: Option<Flag>, enabled: bool) {
    o.Some? && o.value.row.enabled == enabled
  }

  lemma SwitchIsStored(s: State, m: nat, sid: nat, key: string, enabled: bool)
    requires Possible(s, Commit(m, Store.CommitUpdate(sid))) && sid in s.store.sessions
    requires s.store.sessions[sid].Updating? && s.store.sessions[sid].base.row.key == key
    requires s.store.sessions[sid].patch.enabled == Some(enabled)
    ensures
      var s' := Effect(s, Commit(m, Store.CommitUpdate(sid)));
      Switched(Current(s', key), enabled) && Holding(s', m, key, Current(s', key))
  {
  }

  lemma SwitchIsCarried(run: seq<Step>, j: nat, m: nat, key: string, enabled: bool) returns (after: Option<Flag>)
    requires ValidRun(run) && CommitsSwitch(run, j, m, key, enabled)
    ensures Switched(after, enabled) && Holding(After(run[..j + 1]), m, key, after)
  {
    var upto := run[..j + 1];
    PrefixIsValid(run, j + 1);
    assert upto[..j] == run[..j];
    Prefix(upto, j);
    SwitchIsStored(After(run[..j]), m, run[j].step.sid, key, enabled);
    after := Current(After(upto), key);
  }

  lemma SwitchLands(run: seq<Step>, j: nat, i: nat, m: nat, key: string, enabled: bool)
    requires ValidRun(run) && CommitsSwitch(run, j, m, key, enabled) && j < i < |run| && run[i] == Notify(m, WriteField)
    ensures FieldLands(run, i, key) && Switched(FlagLanded(run, i, key), enabled)
  {
    var after := SwitchIsCarried(run, j, m, key, enabled);
    PrefixIsValid(run, i);
    assert run[..i][..j + 1] == run[..j + 1];
    CarriesItsCommit(run[..i], j + 1, m, key, after);
  }

  /**
   The kill switch, from its request. Once a committed patch with enabled false has written its field, and
   until the flag is committed again, every evaluation that looks at the cache afterwards is disabled, for
   every user and context.
   */
  lemma KillRequestDisables(run: seq<Step>, j: nat, i: nat, m: nat, c: nat, key: string)
    requires ValidRun(run) && CommitsSwitch(run, j, m, key, false) && j < i < |run| && run[i] == Notify(m, WriteField)
    requires NoCommitFrom(run, i + 1, key) && YetToRead(After(run[..i + 1]), c)
    requires c in After(run).calls && Shows(After(run).calls[c], key)
    ensures forall md5, userId, context ::
              var e := EvaluateView(md5, Shown(After(run).calls[c], key), userId, context);
              e.reason == "flag_disabled" && !e.enabled
  {
    SwitchLands(run, j, i, m, key, false);
    KillSwitch(run, i, c, key);
  }

  /** A deleted flag is gone: once its field is removed, and until its next creation, it is off and not found. */
  lemma DeletedFlagIsNotFound(run: seq<Step>, i: nat, c: nat, key: string)
    requires ValidRun(run) && FieldLands(run, i, key) && FlagLanded(run, i, key).None?
    requires NoCommitFrom(run, i + 1, key) && YetToRead(After(run[..i + 1]), c)
    requires c in After(run).calls && Shows(After(run).calls[c], key)
    ensures forall md5, userId, context ::
              var e := EvaluateView(md5, Shown(After(run).calls[c], key), userId, context);
              e.reason == "flag_not_found" && !e.enabled && e.variant.None? && e.value == Null
  {
    LandedView(run, i, c, key);
  }
}
