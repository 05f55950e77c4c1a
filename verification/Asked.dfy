/**
 What the requests asked for, what the database stores, and what the engine then serves. A stored
 flag is the creation of its life with, column by column, the last committed patch that carried
 the column; and it evaluates as that request reads, condition by condition.
 */
module Asked {
  import opened Wrappers
  import opened Ordering
  import opened Schemas
  import opened Models
  import opened ModelLaws
  import opened FlagLaws
  import opened Store
  import StoreLaws

  // ---- A flag as a request reads ---------------------------------------------------------------------

  /** The stored rule is the one asked for, under the operator's name in the API. */
  predicate RuleIs(row: RuleRow, rule: RuleIn) {
    && row.attribute == rule.attribute && row.values == rule.values
    && row.priority == rule.priority && row.variant == rule.variant
    && (rule.operator == In ==> row.operator == "in")
    && (rule.operator == NotIn ==> row.operator == "not_in")
    && (rule.operator == Eq ==> row.operator == "eq")
    && (rule.operator == Neq ==> row.operator == "neq")
  }

  predicate RulesAre(rows: seq<RuleRow>, rules: seq<RuleIn>) {
    |rows| == |rules| && forall i :: 0 <= i < |rules| ==> RuleIs(rows[i], rules[i])
  }

  ghost predicate VariantsAre(rows: seq<VariantRow>, variants: seq<VariantIn>) {
    multiset(MapSeq(AsInput, rows)) == multiset(variants)
  }

  predicate ColumnsAre(row: Row, data: FlagCreate) {
    && row.key == data.key && row.name == data.name && row.description == data.description
    && row.enabled == data.enabled && row.rolloutPercentage == data.rolloutPercentage
    && row.offVariant == data.offVariant
  }

  /** The flag holds what this request asks for. */
  ghost predicate AsAsked(flag: Flag, data: FlagCreate) {
    ColumnsAre(flag.row, data) && RulesAre(flag.rules, data.rules) && VariantsAre(flag.variants, data.variants)
  }

  // ---- Creation --------------------------------------------------------------------------------------

  /** What creation stores: the request's columns, and its rules and variants in their order. */
  lemma CreateStoresRequest(s: State, data: FlagCreate, actor: string)
    ensures
      var (s', outcome) := Do(s, Create(data, actor));
      outcome.Done? ==>
        && outcome.key == data.key && data.key in s'.flags && data.key !in s.flags
        && ColumnsAre(s'.flags[data.key].row, data) && s'.flags[data.key].row.version == 1
        && RulesAre(s'.flags[data.key].rules, data.rules)
        && MapSeq(AsInput, s'.flags[data.key].variants) == data.variants
        && s'.audit == s.audit + [AuditEntry(data.key, Created, actor)]
  {
    if Do(s, Create(data, actor)).1.Done? {
      assert MapSeq(AsInput, NewFlag(data, s.nextId).variants) == data.variants;
    }
  }

  // ---- Columns over a life ---------------------------------------------------------------------------

  /** The flag's current life began at place c: it was created there and has only been patched since. */
  predicate LifeFrom(ms: seq<Mutation>, c: nat) {
    c < |ms| && ms[c].CreateOf? && forall j :: c < j < |ms| ==> ms[j].PatchOf?
  }

  /** What the mutation gives for a column, if it carries the column. */
  function Gives<T>(m: Mutation, column: FlagUpdate -> Option<T>): Option<T> {
    if m.PatchOf? then column(m.patch) else None
  }

  /** No mutation after place i carries the column. */
  predicate SilentAfter<T>(ms: seq<Mutation>, i: nat, column: FlagUpdate -> Option<T>) {
    forall j :: i < j < |ms| ==> Gives(ms[j], column).None?
  }

  /** The value is the last that a patch of the life gave, or else what the creation gave. */
  ghost predicate LastGiven<T(!new)>(ms: seq<Mutation>, c: nat, column: FlagUpdate -> Option<T>, created: T, value: T) {
    || (value == created && SilentAfter(ms, c, column))
    || (exists i: nat :: c < i < |ms| && Gives(ms[i], column) == Some(value) && SilentAfter(ms, i, column))
  }

  function NameOf(p: FlagUpdate): Option<string> { p.name }

  /** A null description is no description to set. */
  function DescriptionOf(p: FlagUpdate): Option<Option<string>> {
    if p.description.Some? then Some(p.description) else None
  }

  function EnabledOf(p: FlagUpdate): Option<bool> { p.enabled }

  function RolloutOf(p: FlagUpdate): Option<int> { p.rolloutPercentage }

  /** A null off variant is carried, and clears it. */
  function OffVariantOf(p: FlagUpdate): Option<Option<string>> {
    if p.offVariant.Present? then Some(p.offVariant.value) else None
  }

  function RulesOf(p: FlagUpdate): Option<seq<RuleIn>> { p.rules }

  function VariantsOf(p: FlagUpdate): Option<seq<VariantIn>> { p.variants }

  /** The request is put together from the life's creation and its patches, column by column. */
  ghost predicate PutTogether(ms: seq<Mutation>, c: nat, data: FlagCreate) {
    && LifeFrom(ms, c)
    && var created := ms[c].data;
       && data.key == created.key
       && LastGiven(ms, c, NameOf, created.name, data.name)
       && LastGiven(ms, c, DescriptionOf, created.description, data.description)
       && LastGiven(ms, c, EnabledOf, created.enabled, data.enabled)
       && LastGiven(ms, c, RolloutOf, created.rolloutPercentage, data.rolloutPercentage)
       && LastGiven(ms, c, OffVariantOf, created.offVariant, data.offVariant)
       && LastGiven(ms, c, RulesOf, created.rules, data.rules)
       && LastGiven(ms, c, VariantsOf, created.variants, data.variants)
  }

  lemma SilentGrows<T>(ms: seq<Mutation>, i: nat, m: Mutation, column: FlagUpdate -> Option<T>)
    requires SilentAfter(ms, i, column) && Gives(m, column).None?
    ensures SilentAfter(ms + [m], i, column)
  {
  }

  /** One more patch: what it gives, or what was given before it. */
  lemma LastGivenGrows<T(!new)>(ms: seq<Mutation>, c: nat, m: Mutation, column: FlagUpdate -> Option<T>, created: T,
                                value: T)
    requires c < |ms| && LastGiven(ms, c, column, created, value)
    ensures LastGiven(ms + [m], c, column, created, Gives(m, column).GetOr(value))
  {
    if Gives(m, column).Some? {
      assert Gives((ms + [m])[|ms|], column) == Some(Gives(m, column).value);
      assert SilentAfter(ms + [m], |ms|, column);
    } else if value == created && SilentAfter(ms, c, column) {
      SilentGrows(ms, c, m, column);
    } else {
      var i: nat :| c < i < |ms| && Gives(ms[i], column) == Some(value) && SilentAfter(ms, i, column);
      SilentGrows(ms, i, m, column);
      assert Gives((ms + [m])[i], column) == Some(value);
    }
  }

  /** The request with whatever the patch carries put in. */
  function With(data: FlagCreate, p: FlagUpdate): FlagCreate {
    FlagCreate(data.key, NameOf(p).GetOr(data.name), DescriptionOf(p).GetOr(data.description),
               EnabledOf(p).GetOr(data.enabled), RolloutOf(p).GetOr(data.rolloutPercentage),
               RulesOf(p).GetOr(data.rules), VariantsOf(p).GetOr(data.variants),
               OffVariantOf(p).GetOr(data.offVariant))
  }

  lemma PatchPutsTogether(ms: seq<Mutation>, c: nat, m: Mutation, data: FlagCreate)
    requires PutTogether(ms, c, data) && m.PatchOf?
    ensures PutTogether(ms + [m], c, With(data, m.patch))
  {
    var created := ms[c].data;
    LastGivenGrows(ms, c, m, NameOf, created.name, data.name);
    LastGivenGrows(ms, c, m, DescriptionOf, created.description, data.description);
    LastGivenGrows(ms, c, m, EnabledOf, created.enabled, data.enabled);
    LastGivenGrows(ms, c, m, RolloutOf, created.rolloutPercentage, data.rolloutPercentage);
    LastGivenGrows(ms, c, m, OffVariantOf, created.offVariant, data.offVariant);
    LastGivenGrows(ms, c, m, RulesOf, created.rules, data.rules);
    LastGivenGrows(ms, c, m, VariantsOf, created.variants, data.variants);
  }

  lemma CreatePutsTogether(ms: seq<Mutation>, m: Mutation)
    requires m.CreateOf?
    ensures PutTogether(ms + [m], |ms|, m.data)
  {
    assert (ms + [m])[|ms|] == m;
  }

  // ---- What is stored --------------------------------------------------------------------------------

  lemma PatchedRules(flag: Flag, rules: seq<RuleIn>, patch: FlagUpdate, nextId: nat)
    requires RulesAre(flag.rules, rules)
    ensures RulesAre(ApplyPatch(flag, patch, nextId).rules, patch.rules.GetOr(rules))
  {
  }

  lemma MergedAre(rows: seq<VariantRow>, incoming: seq<VariantIn>, off: Option<string>, nextId: nat)
    requires DistinctKeys(rows, RowKey) && ValidateVariants(incoming, off).None?
    ensures VariantsAre(MergeVariants(rows, incoming, nextId), incoming)
  {
    AcceptedVariants(incoming, off);
    MergeIsExact(rows, incoming, nextId);
  }

  lemma PatchedVariantsAre(flag: Flag, variants: seq<VariantIn>, patch: FlagUpdate, nextId: nat)
    requires VariantsAre(flag.variants, variants) && DistinctKeys(flag.variants, RowKey)
    requires ValidateUpdate(patch).None?
    ensures VariantsAre(ApplyPatch(flag, patch, nextId).variants, patch.variants.GetOr(variants))
  {
    VariantsOfPatched(flag, patch, nextId);
    if patch.variants.Some? {
      AcceptedUpdate(patch);
      var n := nextId + |patch.rules.GetOr([])|;
      MergedAre(flag.variants, patch.variants.value, OffOrNone(patch.offVariant), n);
      SameRowsAre(ApplyPatch(flag, patch, nextId).variants, MergeVariants(flag.variants, patch.variants.value, n),
                  patch.variants.value);
    }
  }

  lemma SameRowsAre(a: seq<VariantRow>, b: seq<VariantRow>, variants: seq<VariantIn>)
    requires a == b && VariantsAre(b, variants)
    ensures VariantsAre(a, variants)
  {
  }

  /** An accepted patch leaves the flag as asked with what it carries put in. */
  lemma PatchedAsAsked(flag: Flag, data: FlagCreate, patch: FlagUpdate, nextId: nat)
    requires AsAsked(flag, data) && ValidFlag(flag) && ValidateUpdate(patch).None?
    ensures AsAsked(ApplyPatch(flag, patch, nextId), With(data, patch))
  {
    PatchedRules(flag, data.rules, patch, nextId);
    PatchedVariantsAre(flag, data.variants, patch, nextId);
    assert ColumnsAre(ApplyPatch(flag, patch, nextId).row, With(data, patch));
  }

  ghost predicate Told(s: State, key: string, c: nat, data: FlagCreate) {
    key in s.flags ==> AsAsked(s.flags[key], data) && PutTogether(StoreLaws.MutationsOf(s.log, key), c, data)
  }

  lemma LogGrows(log: seq<Committed>, k: string, m: Mutation, key: string)
    ensures k == key ==> StoreLaws.MutationsOf(log + [Committed(k, m)], key) == StoreLaws.MutationsOf(log, key) + [m]
    ensures k != key ==> StoreLaws.MutationsOf(log + [Committed(k, m)], key) == StoreLaws.MutationsOf(log, key)
  {
    assert (log + [Committed(k, m)])[..|log|] == log;
  }

  lemma CreateTells(s: State, data: FlagCreate, actor: string, key: string, c: nat, asked: FlagCreate)
    returns (c': nat, asked': FlagCreate)
    requires Told(s, key, c, asked)
    ensures Told(Do(s, Create(data, actor)).0, key, c', asked')
  {
    c', asked' := c, asked;
    if Do(s, Create(data, actor)).1.Done? {
      LogGrows(s.log, data.key, CreateOf(data, s.nextId), key);
      if key == data.key {
        c', asked' := |StoreLaws.MutationsOf(s.log, key)|, data;
        CreateStoresRequest(s, data, actor);
        CreatePutsTogether(StoreLaws.MutationsOf(s.log, key), CreateOf(data, s.nextId));
      }
    }
  }

  lemma UpdateTells(s: State, sid: nat, key: string, c: nat, asked: FlagCreate) returns (asked': FlagCreate)
    requires StoreLaws.Inv(s) && Told(s, key, c, asked)
    ensures Told(Do(s, CommitUpdate(sid)).0, key, c, asked')
  {
    asked' := asked;
    if Do(s, CommitUpdate(sid)).1.Done? {
      var session := s.sessions[sid];
      assert StoreLaws.SessionInPlace(s, sid);
      var m := PatchOf(session.patch, s.nextId);
      LogGrows(s.log, session.base.row.key, m, key);
      if key == session.base.row.key {
        asked' := With(asked, session.patch);
        PatchedAsAsked(session.base, asked, session.patch, s.nextId);
        PatchPutsTogether(StoreLaws.MutationsOf(s.log, key), c, m, asked);
      }
    }
  }

  lemma DeleteTells(s: State, sid: nat, key: string, c: nat, asked: FlagCreate)
    requires Told(s, key, c, asked)
    ensures Told(Do(s, CommitDelete(sid)).0, key, c, asked)
  {
    if Do(s, CommitDelete(sid)).1.Done? {
      LogGrows(s.log, s.sessions[sid].base.row.key, DeleteOf, key);
    }
  }

  lemma StepTells(s: State, step: Step, key: string, c: nat, asked: FlagCreate)
    returns (c': nat, asked': FlagCreate)
    requires StoreLaws.Inv(s) && Told(s, key, c, asked)
    ensures Told(Do(s, step).0, key, c', asked')
  {
    c', asked' := c, asked;
    match step
    case Create(data, actor) => c', asked' := CreateTells(s, data, actor, key, c, asked);
    case CommitUpdate(sid) => asked' := UpdateTells(s, sid, key, c, asked);
    case CommitDelete(sid) => DeleteTells(s, sid, key, c, asked);
    case _ =>
  }

  /**
   What is stored is what was asked for. Over any interleaving of sessions, a stored flag holds in every
   column, in its rules entry by entry, and in its variants, what the last committed patch of its life
   that carries that column gave, and what its creation gave where no patch did.
   */
  lemma {:induction false} StoredAsAsked(steps: seq<Step>, key: string) returns (c: nat, data: FlagCreate)
    ensures
      var s := Run(steps);
      key in s.flags ==> AsAsked(s.flags[key], data) && PutTogether(StoreLaws.MutationsOf(s.log, key), c, data)
  {
    if steps == [] {
      c, data := 0, FlagCreate("", "", None, false, 0, [], [], None);
    } else {
      var before := steps[..|steps| - 1];
      c, data := StoredAsAsked(before, key);
      StoreLaws.RunKeepsInv(before);
      c, data := StepTells(Run(before), steps[|steps| - 1], key, c, data);
    }
  }
}
