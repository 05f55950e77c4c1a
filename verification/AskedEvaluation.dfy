/** A stored flag evaluates as the request it was asked with reads. */
module AskedEvaluation {
  import opened Wrappers
  import opened Ordering
  import opened Engine
  import opened Schemas
  import opened Models
  import opened ModelLaws
  import opened Payload
  import opened Asked
  import Store
  import StoreLaws

  // ---- What a request means --------------------------------------------------------------------------

  /** The context meets the rule's condition. */
  predicate Holds(rule: RuleIn, context: Context) {
    rule.attribute in context &&
    var actual := context[rule.attribute];
    match rule.operator
    case In => exists v :: v in rule.values && v == actual
    case NotIn => forall v :: v in rule.values ==> v != actual
    case Eq => rule.values != [] && rule.values[0] == actual
    case Neq => rule.values != [] && rule.values[0] != actual
  }

  /** Rule i is the first whose condition the context meets. */
  predicate HoldsFirst(rules: seq<RuleIn>, context: Context, i: nat) {
    i < |rules| && Holds(rules[i], context) && forall j :: 0 <= j < i ==> !Holds(rules[j], context)
  }

  predicate SomeHolds(rules: seq<RuleIn>, context: Context) {
    exists i :: 0 <= i < |rules| && Holds(rules[i], context)
  }

  /** The evaluation shows this variant and its value. */
  predicate ShowsVariant(v: VariantIn, e: Evaluation) {
    e.variant == Some(v.key) && e.value == v.value
  }

  predicate ShowsNothing(e: Evaluation) {
    e.variant.None? && e.value == Null
  }

  /** It shows one of the variants, or nothing if there are none. */
  predicate ShowsOneOf(variants: seq<VariantIn>, e: Evaluation) {
    if variants == [] then ShowsNothing(e) else exists v :: v in variants && ShowsVariant(v, e)
  }

  predicate Names(variants: seq<VariantIn>, key: Option<string>) {
    exists v :: v in variants && key == Some(v.key)
  }

  /** It shows the variant of that name. */
  predicate ShowsNamed(variants: seq<VariantIn>, key: Option<string>, e: Evaluation) {
    exists v :: v in variants && key == Some(v.key) && ShowsVariant(v, e)
  }

  /** Off, with the off variant if there is one. */
  predicate IsOff(data: FlagCreate, reason: string, e: Evaluation) {
    && !e.enabled && e.reason == reason
    && if Names(data.variants, data.offVariant) then ShowsNamed(data.variants, data.offVariant, e) else ShowsNothing(e)
  }

  /** On by this rule, with its pin, or with some variant where it pins none. */
  predicate IsTargeted(data: FlagCreate, rule: RuleIn, e: Evaluation) {
    && e.enabled && e.reason == "targeting_match"
    && if Names(data.variants, rule.variant) then ShowsNamed(data.variants, rule.variant, e)
       else ShowsOneOf(data.variants, e)
  }

  /** The evaluation of a flag asked for like this: kill switch, first rule that holds, rollout, off. */
  predicate AnswersAsAsked(md5: Digest, data: FlagCreate, userId: string, context: Context, e: Evaluation) {
    && (!data.enabled ==> IsOff(data, "flag_disabled", e))
    && (data.enabled ==>
          && (forall i: nat :: i < |data.rules| && HoldsFirst(data.rules, context, i) ==>
                IsTargeted(data, data.rules[i], e))
          && (!SomeHolds(data.rules, context) ==>
                if BucketFor(md5, data.key, userId, "") < 100 * data.rolloutPercentage
                then e.enabled && e.reason == "rollout_included" && ShowsOneOf(data.variants, e)
                else IsOff(data, "rollout_excluded", e)))
  }

  // ---- The stored flag does so -----------------------------------------------------------------------

  lemma RuleHolds(row: RuleRow, rule: RuleIn, context: Context)
    requires RuleIs(row, rule)
    ensures RuleMatches(RuleOf(row), context) <==> Holds(rule, context)
  {
  }

  lemma {:induction false} FirstMatchAt(rules: seq<RuleSpec>, context: Context, i: nat)
    requires i < |rules| && RuleMatches(rules[i], context) && forall j :: 0 <= j < i ==> !RuleMatches(rules[j], context)
    ensures FirstMatch(rules, context) == Some(rules[i])
  {
    if i > 0 {
      FirstMatchAt(rules[1..], context, i - 1);
    }
  }

  lemma MatchesAsAsked(flag: Flag, data: FlagCreate, context: Context)
    requires RulesAre(flag.rules, data.rules)
    ensures forall i: nat :: i < |data.rules| && HoldsFirst(data.rules, context, i) ==>
              FirstMatch(ToSpec(flag).rules, context) == Some(RuleOf(flag.rules[i]))
    ensures !SomeHolds(data.rules, context) ==> FirstMatch(ToSpec(flag).rules, context).None?
  {
    var rules := ToSpec(flag).rules;
    forall i | 0 <= i < |rules| ensures RuleMatches(rules[i], context) <==> Holds(data.rules[i], context) {
      RuleHolds(flag.rules[i], data.rules[i], context);
    }
    forall i: nat | i < |data.rules| && HoldsFirst(data.rules, context, i)
      ensures FirstMatch(rules, context) == Some(RuleOf(flag.rules[i]))
    {
      FirstMatchAt(rules, context, i);
    }
  }

  /** The engine's variants and the request's are the same. */
  lemma SameVariants(flag: Flag, data: FlagCreate)
    requires VariantsAre(flag.variants, data.variants)
    ensures ToSpec(flag).variants == [] <==> data.variants == []
    ensures forall v :: v in data.variants ==> VariantSpec(v.key, v.value, v.weight) in ToSpec(flag).variants
    ensures forall w :: w in ToSpec(flag).variants ==> VariantIn(w.key, w.value, w.weight) in data.variants
  {
    var rows := MapSeq(AsInput, flag.variants);
    SameMembers(rows, data.variants);
    forall v | v in data.variants ensures VariantSpec(v.key, v.value, v.weight) in ToSpec(flag).variants {
      var i := IndexOf(v, rows);
      assert ToSpec(flag).variants[i] == VariantSpec(v.key, v.value, v.weight);
    }
    forall w | w in ToSpec(flag).variants ensures VariantIn(w.key, w.value, w.weight) in data.variants {
      var i := IndexOf(w, ToSpec(flag).variants);
      assert rows[i] == VariantIn(w.key, w.value, w.weight);
    }
  }

  /** A name finds the request's variant of that name, or nothing if it has none. */
  lemma FoundAsAsked(flag: Flag, data: FlagCreate, key: Option<string>)
    requires VariantsAre(flag.variants, data.variants)
    ensures
      var r := FindVariant(ToSpec(flag).variants, key);
      && (r.Some? <==> Names(data.variants, key))
      && (r.Some? ==>
            key == Some(r.value.key) && VariantIn(r.value.key, r.value.value, r.value.weight) in data.variants)
  {
    SameVariants(flag, data);
    var r := FindVariant(ToSpec(flag).variants, key);
    if r.Some? {
      assert VariantIn(r.value.key, r.value.value, r.value.weight) in data.variants;
    }
    if v :| v in data.variants && key == Some(v.key) {
      assert VariantSpec(v.key, v.value, v.weight) in ToSpec(flag).variants;
    }
  }

  lemma OffAsAsked(flag: Flag, data: FlagCreate, reason: string)
    requires AsAsked(flag, data)
    ensures IsOff(data, reason, OffResult(ToSpec(flag), reason))
  {
    FoundAsAsked(flag, data, data.offVariant);
    var r := FindVariant(ToSpec(flag).variants, data.offVariant);
    if r.Some? {
      assert ShowsVariant(VariantIn(r.value.key, r.value.value, r.value.weight), OffResult(ToSpec(flag), reason));
    }
  }

  lemma ServedAsAsked(md5: Digest, flag: Flag, data: FlagCreate, userId: string, reason: string)
    requires AsAsked(flag, data)
    ensures
      var e := Served(md5, ToSpec(flag), userId, reason);
      e.enabled && e.reason == reason && ShowsOneOf(data.variants, e)
  {
    SameVariants(flag, data);
    var r := Choose(md5, ToSpec(flag), userId);
    if r.Some? {
      assert ShowsVariant(VariantIn(r.value.key, r.value.value, r.value.weight),
                          Served(md5, ToSpec(flag), userId, reason));
    }
  }

  lemma TargetedAsAsked(md5: Digest, flag: Flag, data: FlagCreate, userId: string, i: nat)
    requires AsAsked(flag, data) && i < |data.rules|
    ensures IsTargeted(data, data.rules[i], OnMatch(md5, ToSpec(flag), userId, RuleOf(flag.rules[i])))
  {
    assert RuleIs(flag.rules[i], data.rules[i]);
    FoundAsAsked(flag, data, data.rules[i].variant);
    ServedAsAsked(md5, flag, data, userId, "targeting_match");
    var r := FindVariant(ToSpec(flag).variants, data.rules[i].variant);
    if r.Some? {
      assert ShowsVariant(VariantIn(r.value.key, r.value.value, r.value.weight),
                          OnMatch(md5, ToSpec(flag), userId, RuleOf(flag.rules[i])));
    }
  }

  /** A flag that holds what a request asks for evaluates as the request reads. */
  lemma EvaluatesAsAsked(md5: Digest, flag: Flag, data: FlagCreate, userId: string, context: Context)
    requires AsAsked(flag, data)
    ensures AnswersAsAsked(md5, data, userId, context, Evaluate(md5, ToSpec(flag), userId, context))
  {
    MatchesAsAsked(flag, data, context);
    OffAsAsked(flag, data, "flag_disabled");
    OffAsAsked(flag, data, "rollout_excluded");
    ServedAsAsked(md5, flag, data, userId, "rollout_included");
    forall i: nat | i < |data.rules| && HoldsFirst(data.rules, context, i) && data.enabled
      ensures IsTargeted(data, data.rules[i], Evaluate(md5, ToSpec(flag), userId, context))
    {
      TargetedAsAsked(md5, flag, data, userId, i);
    }
  }

  // ---- Over any interleaving -------------------------------------------------------------------------

  /** What the requests of a flag's life come to decides what every user is served. */
  lemma StoredEvaluatesAsAsked(md5: Digest, steps: seq<Store.Step>, key: string, userId: string, context: Context)
    returns (c: nat, data: FlagCreate)
    requires key in Store.Run(steps).flags
    ensures PutTogether(StoreLaws.MutationsOf(Store.Run(steps).log, key), c, data)
    ensures AnswersAsAsked(md5, data, userId, context,
                           Evaluate(md5, ToSpec(Store.Run(steps).flags[key]), userId, context))
  {
    c, data := StoredAsAsked(steps, key);
    EvaluatesAsAsked(md5, Store.Run(steps).flags[key], data, userId, context);
  }

  /** The rule a stored row was made from. */
  function RuleAsked(row: RuleRow): RuleIn {
    RuleIn(row.attribute,
           if row.operator == "in" then In else if row.operator == "not_in" then NotIn
           else if row.operator == "eq" then Eq else Neq,
           row.values, row.priority, row.variant)
  }

  lemma RulesWereAsked(rows: seq<RuleRow>, rules: seq<RuleIn>)
    requires RulesAre(rows, rules)
    ensures rules == MapSeq(RuleAsked, rows)
  {
    forall i | 0 <= i < |rules| ensures rules[i] == RuleAsked(rows[i]) {
      assert RuleIs(rows[i], rules[i]);
    }
  }

  /** The rules in the order a query returns them: by ascending priority, ties in any order. */
  ghost predicate ByPriorityOf(sorted: seq<RuleIn>, rules: seq<RuleIn>) {
    && multiset(sorted) == multiset(rules)
    && forall i, j :: 0 <= i < j < |sorted| ==> sorted[i].priority <= sorted[j].priority
  }

  /** What a later query loads of a stored flag: its row, its rules by priority, its variants in any order. */
  ghost predicate LoadedFrom(loaded: Flag, flag: Flag) {
    && loaded.row == flag.row && Reloaded(flag.rules, loaded.rules)
    && multiset(loaded.variants) == multiset(flag.variants)
  }

  lemma LoadedAsAsked(flag: Flag, loaded: Flag, data: FlagCreate) returns (sorted: seq<RuleIn>)
    requires AsAsked(flag, data) && LoadedFrom(loaded, flag)
    ensures ByPriorityOf(sorted, data.rules) && AsAsked(loaded, data.(rules := sorted))
  {
    RulesWereAsked(flag.rules, data.rules);
    sorted := MapSeq(RuleAsked, loaded.rules);
    MapForgetsOrder(RuleAsked, loaded.rules, flag.rules);
    MapForgetsOrder(AsInput, loaded.variants, flag.variants);
    forall i | 0 <= i < |sorted| ensures RuleIs(loaded.rules[i], sorted[i]) {
      SameMembers(loaded.rules, flag.rules);
      var k := IndexOf(loaded.rules[i], flag.rules);
      assert RuleIs(flag.rules[k], data.rules[k]);
    }
  }

  /**
   The database path. However the rows come back, a stored flag answers every user as the requests of its
   life come to, with the rules tried by ascending priority.
   */
  lemma LoadedEvaluatesAsAsked(md5: Digest, steps: seq<Store.Step>, key: string, loaded: Flag, userId: string,
                               context: Context)
    returns (c: nat, data: FlagCreate, sorted: seq<RuleIn>)
    requires key in Store.Run(steps).flags && LoadedFrom(loaded, Store.Run(steps).flags[key])
    ensures PutTogether(StoreLaws.MutationsOf(Store.Run(steps).log, key), c, data)
    ensures ByPriorityOf(sorted, data.rules)
    ensures AnswersAsAsked(md5, data.(rules := sorted), userId, context,
                           Evaluate(md5, ToSpec(loaded), userId, context))
  {
    c, data := StoredAsAsked(steps, key);
    sorted := LoadedAsAsked(Store.Run(steps).flags[key], loaded, data);
    EvaluatesAsAsked(md5, loaded, data.(rules := sorted), userId, context);
  }

  /** The last committed word on the kill switch: a patch's after its creation, or else the creation's. */
  ghost predicate SwitchedOff(ms: seq<Store.Mutation>) {
    exists c: nat :: LifeFrom(ms, c) && LastGiven(ms, c, EnabledOf, ms[c].data.enabled, false)
  }

  /**
   A flag whose last word is off, from its creation or from a patch, is off for everybody: no rule and no
   rollout turns it on, until a patch with enabled set commits.
   */
  lemma SwitchedOffForEverybody(md5: Digest, steps: seq<Store.Step>, key: string, userId: string, context: Context)
    requires key in Store.Run(steps).flags && SwitchedOff(StoreLaws.MutationsOf(Store.Run(steps).log, key))
    ensures
      var e := Evaluate(md5, ToSpec(Store.Run(steps).flags[key]), userId, context);
      !e.enabled && e.reason == "flag_disabled"
  {
    var ms := StoreLaws.MutationsOf(Store.Run(steps).log, key);
    var c, data := StoredEvaluatesAsAsked(md5, steps, key, userId, context);
    var d: nat :| LifeFrom(ms, d) && LastGiven(ms, d, EnabledOf, ms[d].data.enabled, false);
    OneLife(ms, c, d);
    LastWordIsOne(ms, c, EnabledOf, ms[c].data.enabled, data.enabled, false);
  }

  lemma OneLife(ms: seq<Store.Mutation>, c: nat, d: nat)
    requires LifeFrom(ms, c) && LifeFrom(ms, d)
    ensures c == d
  {
  }

  lemma LastWordIsOne<T(!new)>(ms: seq<Store.Mutation>, c: nat, column: FlagUpdate -> Option<T>, created: T, value: T,
                               value': T)
    requires LastGiven(ms, c, column, created, value) && LastGiven(ms, c, column, created, value')
    ensures value == value'
  {
    if !SilentAfter(ms, c, column) {
      var i: nat :| c < i < |ms| && Gives(ms[i], column) == Some(value) && SilentAfter(ms, i, column);
      var j: nat :| c < j < |ms| && Gives(ms[j], column) == Some(value') && SilentAfter(ms, j, column);
      assert i == j;
    }
  }
}
