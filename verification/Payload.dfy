/**
 The JSON of one flag, as the cache and /ruleset carry it, and the three ways to turn a
 flag into what the engine evaluates. Keys an older build may not have written can be
 absent from a payload.
 */
module Payload {
  import opened Wrappers
  import opened Ordering
  import opened Engine
  import opened EngineLaws
  import opened Schemas
  import opened Models
  import opened ModelLaws

  datatype RuleEntry = RuleEntry(
    id: nat,
    attribute: string,
    operator: string,
    values: seq<string>,
    priority: int,
    variant: Given<Option<string>>)

  datatype VariantEntry = VariantEntry(id: nat, key: string, value: Given<Value>, weight: int)

  datatype Entry = Entry(
    id: nat,
    key: string,
    name: string,
    description: Option<string>,
    enabled: bool,
    rolloutPercentage: int,
    version: nat,
    offVariant: Given<Option<string>>,
    rules: Given<seq<RuleEntry>>,
    variants: Given<seq<VariantEntry>>)

  // ---- flag_payload ------------------------------------------------------------------------------

  function RuleOut(r: RuleRow): RuleEntry {
    RuleEntry(r.id, r.attribute, r.operator, r.values, r.priority, Present(r.variant))
  }

  function VariantOut(v: VariantRow): VariantEntry {
    VariantEntry(v.id, v.key, Present(v.value), v.weight)
  }

  /** Variants as a query returns them, and as they are serialised: in key order. */
  function InKeyOrder(variants: seq<VariantRow>): seq<VariantRow> {
    SortBy(variants, RowKey)
  }

  function FlagPayload(flag: Flag): Entry {
    var row := flag.row;
    Entry(row.id, row.key, row.name, row.description, row.enabled, row.rolloutPercentage, row.version,
          Present(row.offVariant),
          Present(MapSeq(RuleOut, flag.rules)),
          Present(MapSeq(VariantOut, InKeyOrder(flag.variants))))
  }

  /** A payload tells the row, the rules in their order, and the variants up to theirs. */
  lemma PayloadTellsFlag(f: Flag, g: Flag)
    ensures FlagPayload(f) == FlagPayload(g)
       <==> f.row == g.row && f.rules == g.rules && InKeyOrder(f.variants) == InKeyOrder(g.variants)
  {
    if FlagPayload(f) == FlagPayload(g) {
      RulesOutTell(f.rules, g.rules);
      VariantsOutTell(InKeyOrder(f.variants), InKeyOrder(g.variants));
    }
  }

  lemma RulesOutTell(a: seq<RuleRow>, b: seq<RuleRow>)
    requires MapSeq(RuleOut, a) == MapSeq(RuleOut, b)
    ensures a == b
  {
    assert |a| == |MapSeq(RuleOut, a)| == |b|;
    forall i | 0 <= i < |a| ensures a[i] == b[i] {
      assert RuleOut(a[i]) == MapSeq(RuleOut, a)[i] == RuleOut(b[i]);
    }
  }

  lemma VariantsOutTell(a: seq<VariantRow>, b: seq<VariantRow>)
    requires MapSeq(VariantOut, a) == MapSeq(VariantOut, b)
    ensures a == b
  {
    assert |a| == |MapSeq(VariantOut, a)| == |b|;
    forall i | 0 <= i < |a| ensures a[i] == b[i] {
      assert VariantOut(a[i]) == MapSeq(VariantOut, a)[i] == VariantOut(b[i]);
    }
  }

  // ---- The decoders ------------------------------------------------------------------------------

  function RuleOf(r: RuleRow): RuleSpec { RuleSpec(r.attribute, r.operator, r.values, r.variant) }

  function VariantOf(v: VariantRow): VariantSpec { VariantSpec(v.key, v.value, v.weight) }

  /** _to_spec: from the stored flag. */
  function ToSpec(flag: Flag): FlagSpec {
    FlagSpec(flag.row.key, flag.row.enabled, flag.row.rolloutPercentage,
             MapSeq(RuleOf, flag.rules), MapSeq(VariantOf, flag.variants), flag.row.offVariant)
  }

  function OrDefault<T>(given: Given<T>, default: T): T {
    if given.Present? then given.value else default
  }

  function DecodeRule(r: RuleEntry): RuleSpec {
    RuleSpec(r.attribute, r.operator, r.values, OrDefault(r.variant, None))
  }

  function DecodeVariant(v: VariantEntry): VariantSpec {
    VariantSpec(v.key, OrDefault(v.value, Null), v.weight)
  }

  /** spec_from_payload: tolerant of missing optional keys. */
  function SpecFromPayload(e: Entry): FlagSpec {
    FlagSpec(e.key, e.enabled, e.rolloutPercentage,
             MapSeq(DecodeRule, OrDefault(e.rules, [])),
             MapSeq(DecodeVariant, OrDefault(e.variants, [])),
             OrDefault(e.offVariant, None))
  }

  datatype DecodeError = MissingRules

  /** The SDK's decoder, which insists on "rules". */
  function SpecFromJson(e: Entry): Result<FlagSpec, DecodeError> {
    if e.rules.Absent? then Failure(MissingRules)
    else
      Success(FlagSpec(e.key, e.enabled, e.rolloutPercentage,
                       MapSeq(DecodeRule, e.rules.value),
                       MapSeq(DecodeVariant, OrDefault(e.variants, [])),
                       OrDefault(e.offVariant, None)))
  }

  /** The SDK and the server decode the same payload alike, exactly when it carries its rules. */
  lemma DecodersAgree(e: Entry)
    ensures SpecFromJson(e) == Success(SpecFromPayload(e)) <==> e.rules.Present?
  {
  }

  /** A key that an older build left out decodes as if it were there and empty. */
  lemma MissingKeysAreEmpty(e: Entry, r: RuleEntry, v: VariantEntry)
    ensures SpecFromPayload(e.(rules := Absent)) == SpecFromPayload(e.(rules := Present([])))
    ensures SpecFromPayload(e.(variants := Absent)) == SpecFromPayload(e.(variants := Present([])))
    ensures SpecFromPayload(e.(offVariant := Absent)) == SpecFromPayload(e.(offVariant := Present(None)))
    ensures SpecFromPayload(e.(rules := Present([r.(variant := Absent)])))
         == SpecFromPayload(e.(rules := Present([r.(variant := Present(None))])))
    ensures SpecFromPayload(e.(variants := Present([v.(value := Absent)])))
         == SpecFromPayload(e.(variants := Present([v.(value := Present(Null))])))
  {
  }

  /** Decoding a payload gives back the stored flag, with the variants in key order. */
  lemma DecodedPayload(flag: Flag)
    ensures SpecFromPayload(FlagPayload(flag)) == ToSpec(flag.(variants := InKeyOrder(flag.variants)))
    ensures SpecFromPayload(FlagPayload(flag)).variants == Ordered(ToSpec(flag).variants)
  {
    var spec := SpecFromPayload(FlagPayload(flag));
    var sorted := InKeyOrder(flag.variants);
    assert spec.rules == MapSeq(RuleOf, flag.rules);
    assert spec.variants == MapSeq(VariantOf, sorted);
    MapSort(flag.variants, VariantOf, RowKey, VariantKey);
  }

  /** A cached payload evaluates as the stored flag does, for every user and context. */
  lemma PayloadKeepsMeaning(md5: Digest, flag: Flag, userId: string, context: Context)
    requires DistinctKeys(flag.variants, RowKey)
    ensures Evaluate(md5, SpecFromPayload(FlagPayload(flag)), userId, context)
         == Evaluate(md5, ToSpec(flag), userId, context)
    ensures SpecFromJson(FlagPayload(flag)) == Success(SpecFromPayload(FlagPayload(flag)))
  {
    var spec, decoded := ToSpec(flag), SpecFromPayload(FlagPayload(flag));
    DecodedPayload(flag);
    SortIsSortedPermutation(spec.variants, VariantKey);
    forall i, j | 0 <= i < j < |spec.variants| ensures VariantKey(spec.variants[i]) != VariantKey(spec.variants[j]) {
      assert RowKey(flag.variants[i]) != RowKey(flag.variants[j]);
    }
    OrderIndependence(md5, spec, decoded.variants, userId, context);
    assert spec.(variants := decoded.variants) == decoded;
  }

  // ---- Rules after a reload ------------------------------------------------------------------------

  /** A query returns the rules by ascending priority, ties in any order. */
  ghost predicate Reloaded(rules: seq<RuleRow>, loaded: seq<RuleRow>) {
    && multiset(loaded) == multiset(rules)
    && forall i, j :: 0 <= i < j < |loaded| ==> loaded[i].priority <= loaded[j].priority
  }

  ghost predicate StrictlyByPriority(rules: seq<RuleRow>) {
    forall i, j :: 0 <= i < j < |rules| ==> rules[i].priority < rules[j].priority
  }

  lemma ReloadKeepsHead(rules: seq<RuleRow>, loaded: seq<RuleRow>)
    requires StrictlyByPriority(rules) && Reloaded(rules, loaded) && rules != []
    ensures loaded != [] && loaded[0] == rules[0]
  {
    SameMembers(rules, loaded);
    assert rules[0] in loaded && loaded[0] in loaded;
    var i := IndexOf(rules[0], loaded);
    var j := IndexOf(loaded[0], rules);
    assert loaded[0].priority <= loaded[i].priority;
  }

  lemma {:induction false} ReloadOfStrict(rules: seq<RuleRow>, loaded: seq<RuleRow>)
    requires StrictlyByPriority(rules) && Reloaded(rules, loaded)
    ensures loaded == rules
  {
    SameMembers(rules, loaded);
    if rules != [] {
      ReloadKeepsHead(rules, loaded);
      WithoutOne(rules, 0);
      WithoutOne(loaded, 0);
      assert Without(rules, 0) == rules[1..] && Without(loaded, 0) == loaded[1..];
      ReloadOfStrict(rules[1..], loaded[1..]);
    }
  }

  /** Some arrangement by ascending priority exists: insertion by priority finds one. */
  function InsertRule(r: RuleRow, rules: seq<RuleRow>): seq<RuleRow> {
    if rules == [] then [r]
    else if r.priority <= rules[0].priority then [r] + rules
    else [rules[0]] + InsertRule(r, rules[1..])
  }

  function ByPriority(rules: seq<RuleRow>): seq<RuleRow> {
    if rules == [] then [] else InsertRule(rules[0], ByPriority(rules[1..]))
  }

  ghost predicate Ascending(rules: seq<RuleRow>) {
    forall i, j :: 0 <= i < j < |rules| ==> rules[i].priority <= rules[j].priority
  }

  lemma {:induction false} InsertRuleKeeps(r: RuleRow, rules: seq<RuleRow>)
    ensures multiset(InsertRule(r, rules)) == multiset{r} + multiset(rules)
  {
    if rules != [] && r.priority > rules[0].priority {
      InsertRuleKeeps(r, rules[1..]);
      assert rules == [rules[0]] + rules[1..];
    }
  }

  lemma {:induction false} InsertRuleAscends(r: RuleRow, rules: seq<RuleRow>)
    requires Ascending(rules)
    ensures Ascending(InsertRule(r, rules))
  {
    if rules != [] && r.priority > rules[0].priority {
      InsertRuleAscends(r, rules[1..]);
      InsertRuleKeeps(r, rules[1..]);
      var tail := InsertRule(r, rules[1..]);
      forall j | 0 <= j < |tail| ensures rules[0].priority <= tail[j].priority {
        assert tail[j] in multiset(tail);
        assert tail[j] == r || tail[j] in rules[1..];
      }
    }
  }

  lemma {:induction false} ByPriorityReloads(rules: seq<RuleRow>)
    ensures Reloaded(rules, ByPriority(rules)) && Ascending(ByPriority(rules))
  {
    if rules != [] {
      ByPriorityReloads(rules[1..]);
      InsertRuleAscends(rules[0], ByPriority(rules[1..]));
      InsertRuleKeeps(rules[0], ByPriority(rules[1..]));
      assert rules == [rules[0]] + rules[1..];
    }
  }

  ghost predicate DistinctRuleIds(rules: seq<RuleRow>) {
    forall i, j :: 0 <= i < j < |rules| ==> rules[i].id != rules[j].id
  }

  lemma SwapReloads(rules: seq<RuleRow>, i: nat, j: nat)
    requires Reloaded(rules, rules) && i < j < |rules| && rules[i].priority == rules[j].priority
    ensures Reloaded(rules, rules[i := rules[j]][j := rules[i]])
  {
    var swapped := rules[i := rules[j]][j := rules[i]];
    assert multiset(swapped) == multiset(rules);
    forall a, b | 0 <= a < b < |swapped| ensures swapped[a].priority <= swapped[b].priority {
      assert swapped[a].priority == rules[a].priority && swapped[b].priority == rules[b].priority;
    }
  }

  /**
   The payload written after a mutation keeps the rules in request order, a reload does not.
   The two are sure to agree exactly when the priorities strictly increase.
   */
  lemma RequestOrderSurvivesReload(rules: seq<RuleRow>)
    requires DistinctRuleIds(rules)
    ensures (forall loaded :: Reloaded(rules, loaded) ==> loaded == rules) <==> StrictlyByPriority(rules)
  {
    if StrictlyByPriority(rules) {
      forall loaded | Reloaded(rules, loaded) ensures loaded == rules {
        ReloadOfStrict(rules, loaded);
      }
    } else {
      var loaded := SomeOtherReload(rules);
    }
  }

  lemma SomeOtherReload(rules: seq<RuleRow>) returns (loaded: seq<RuleRow>)
    requires DistinctRuleIds(rules) && !StrictlyByPriority(rules)
    ensures Reloaded(rules, loaded) && loaded != rules
  {
    ByPriorityReloads(rules);
    loaded := ByPriority(rules);
    if loaded == rules {
      var i, j :| 0 <= i < j < |rules| && rules[i].priority >= rules[j].priority;
      SwapReloads(rules, i, j);
      loaded := rules[i := rules[j]][j := rules[i]];
      assert loaded[i].id != rules[i].id;
    }
  }
}
