/** Row ids: those a commit draws are new, for flags, rules and variants alike. */
module RowIds {
  import opened Ordering
  import opened Models
  import opened ModelLaws
  import Schemas
  import opened Store
  import StoreLaws

  /** Every id in the flag is below the next one to be drawn. */
  ghost predicate IdsBelow(flag: Flag, nextId: nat) {
    && flag.row.id < nextId
    && (forall r :: r in flag.rules ==> r.id < nextId)
    && (forall v :: v in flag.variants ==> v.id < nextId)
  }

  ghost predicate AllIdsBelow(s: State) {
    forall key :: key in s.flags ==> IdsBelow(s.flags[key], s.nextId)
  }

  lemma CreatedIds(s: State, data: Schemas.FlagCreate)
    ensures IdsBelow(NewFlag(data, s.nextId), s.nextId + 1 + |data.rules| + |data.variants|)
  {
  }

  lemma PatchedIds(flag: Flag, patch: Schemas.FlagUpdate, nextId: nat)
    requires IdsBelow(flag, nextId) && DistinctKeys(flag.variants, RowKey)
    ensures IdsBelow(ApplyPatch(flag, patch, nextId), nextId + IdsNeeded(patch))
  {
    var after := ApplyPatch(flag, patch, nextId);
    if patch.variants.Some? {
      var incoming, n := patch.variants.value, nextId + |patch.rules.GetOr([])|;
      forall v | v in MergeVariants(flag.variants, incoming, n) ensures v.id < nextId + IdsNeeded(patch) {
        MergedId(flag.variants, incoming, n, v);
      }
    }
  }

  /** A merged row keeps the id of a row that was there, or draws one of the next. */
  lemma MergedId(rows: seq<VariantRow>, incoming: seq<Schemas.VariantIn>, nextId: nat, v: VariantRow)
    requires DistinctKeys(rows, RowKey) && v in MergeVariants(rows, incoming, nextId)
    ensures (exists r :: r in rows && r.id == v.id && r.key == v.key) || nextId <= v.id < nextId + |incoming|
  {
    var wanted := Wanted(incoming);
    WantedAre(incoming);
    WantedKeysAre(incoming);
    WantedKeysCount(incoming);
    KeptRowsAre(rows, wanted);
    AddedRowsAre(WantedKeys(incoming), RowKeys(rows), wanted, nextId);
    assert v in KeptRows(rows, wanted) || v in AddedRows(WantedKeys(incoming), RowKeys(rows), wanted, nextId);
  }

  lemma StepKeepsIdsBelow(s: State, step: Step)
    requires StoreLaws.Inv(s) && AllIdsBelow(s)
    ensures AllIdsBelow(Do(s, step).0) && s.nextId <= Do(s, step).0.nextId
  {
    match step
    case Create(data, _) => CreatedIds(s, data);
    case CommitUpdate(sid) =>
      if Do(s, step).1.Done? {
        assert StoreLaws.SessionInPlace(s, sid);
        PatchedIds(s.sessions[sid].base, s.sessions[sid].patch, s.nextId);
      }
    case _ =>
  }

  /** No stored row, of any flag, rule or variant, has an id that is still to be drawn. */
  lemma {:induction false} IdsAreNeverDrawnTwice(steps: seq<Step>)
    ensures AllIdsBelow(Run(steps))
  {
    if steps != [] {
      var before := steps[..|steps| - 1];
      IdsAreNeverDrawnTwice(before);
      StoreLaws.RunKeepsInv(before);
      StepKeepsIdsBelow(Run(before), steps[|steps| - 1]);
    }
  }
}
