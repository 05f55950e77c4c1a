/** Inbound payloads and the validators that decide whether the API accepts them. */
module Schemas {
  import opened Wrappers
  import opened Ordering
  import opened Bands
  import opened Engine

  datatype Operator = In | NotIn | Eq | Neq

  function OperatorValue(op: Operator): string {
    match op
    case In => "in"
    case NotIn => "not_in"
    case Eq => "eq"
    case Neq => "neq"
  }

  datatype VariantIn = VariantIn(key: string, value: Value, weight: int)

  datatype RuleIn = RuleIn(attribute: string, operator: Operator, values: seq<string>, priority: int,
                           variant: Option<string>)

  datatype FlagCreate = FlagCreate(
    key: string,
    name: string,
    description: Option<string>,
    enabled: bool,
    rolloutPercentage: int,
    rules: seq<RuleIn>,
    variants: seq<VariantIn>,
    offVariant: Option<string>)

  /** Whether a request carries a field at all, as opposed to carrying null. */
  datatype Given<+T> = Absent | Present(value: T)

  /**
   A partial update. A null and an absent name, description, enabled, rollout, rules or
   variants all mean "leave it alone"; only for off_variant are the two told apart.
   */
  datatype FlagUpdate = FlagUpdate(
    name: Option<string>,
    description: Option<string>,
    enabled: Option<bool>,
    rolloutPercentage: Option<int>,
    rules: Option<seq<RuleIn>>,
    variants: Option<seq<VariantIn>>,
    offVariant: Given<Option<string>>,
    version: int)

  // ---- Field constraints ---------------------------------------------------------------------

  predicate KeyStart(c: char) { 'a' <= c <= 'z' || '0' <= c <= '9' }

  predicate KeyRest(c: char) { KeyStart(c) || c == '.' || c == '_' || c == '-' }

  /** The pattern ^[a-z0-9][a-z0-9._-]*$ within a length limit. */
  predicate KeyPattern(key: string, limit: nat) {
    && 1 <= |key| <= limit
    && KeyStart(key[0])
    && forall i :: 1 <= i < |key| ==> KeyRest(key[i])
  }

  predicate BoundedOption(s: Option<string>, limit: nat) {
    s.Some? ==> |s.value| <= limit
  }

  predicate VariantFieldsOk(v: VariantIn) {
    KeyPattern(v.key, 64) && 0 <= v.weight <= 100
  }

  predicate RuleFieldsOk(r: RuleIn) {
    1 <= |r.attribute| <= 128 && 1 <= |r.values| && BoundedOption(r.variant, 64)
  }

  predicate AllVariantsOk(vs: seq<VariantIn>) { forall i :: 0 <= i < |vs| ==> VariantFieldsOk(vs[i]) }

  predicate AllRulesOk(rs: seq<RuleIn>) { forall i :: 0 <= i < |rs| ==> RuleFieldsOk(rs[i]) }

  // ---- Cross-field validators ----------------------------------------------------------------

  function InKey(v: VariantIn): string { v.key }

  function InWeight(v: VariantIn): int { v.weight }

  function InKeys(vs: seq<VariantIn>): set<string> {
    set v | v in vs :: v.key
  }

  function InWeights(vs: seq<VariantIn>): seq<int> {
    MapSeq(InWeight, vs)
  }

  datatype SchemaError =
    | OffVariantNeedsVariants
    | DuplicateVariantKeys
    | TooFewVariants
    | WeightsMustSumTo100
    | UnknownOffVariant
    | UnknownPinnedVariant
    | FieldOutOfBounds

  predicate HasDuplicateKeys(vs: seq<VariantIn>) {
    exists i, j :: 0 <= i < j < |vs| && vs[i].key == vs[j].key
  }

  function ValidateVariants(variants: seq<VariantIn>, offVariant: Option<string>): Option<SchemaError> {
    if variants == [] then
      if offVariant.Some? then Some(OffVariantNeedsVariants) else None
    else if HasDuplicateKeys(variants) then Some(DuplicateVariantKeys)
    else if |variants| < 2 then Some(TooFewVariants)
    else if Sum(InWeights(variants)) != 100 then Some(WeightsMustSumTo100)
    else if offVariant.Some? && offVariant.value !in InKeys(variants) then Some(UnknownOffVariant)
    else None
  }

  function CheckRuleVariants(rules: seq<RuleIn>, variants: seq<VariantIn>): Option<SchemaError> {
    if exists i :: 0 <= i < |rules| && rules[i].variant.Some? && rules[i].variant.value !in InKeys(variants)
    then Some(UnknownPinnedVariant)
    else None
  }

  function ValidateCreate(data: FlagCreate): Option<SchemaError> {
    if !(&& KeyPattern(data.key, 128)
         && 1 <= |data.name| <= 256
         && BoundedOption(data.description, 1024)
         && 0 <= data.rolloutPercentage <= 100
         && AllRulesOk(data.rules) && AllVariantsOk(data.variants)
         && BoundedOption(data.offVariant, 64))
    then Some(FieldOutOfBounds)
    else if ValidateVariants(data.variants, data.offVariant).Some? then ValidateVariants(data.variants, data.offVariant)
    else CheckRuleVariants(data.rules, data.variants)
  }

  /** The off variant as the validator sees it: absent and null look alike. */
  function OffOrNone(given: Given<Option<string>>): Option<string> {
    if given.Present? then given.value else None
  }

  function ValidateUpdate(data: FlagUpdate): Option<SchemaError> {
    if !(&& (data.name.Some? ==> 1 <= |data.name.value| <= 256)
         && BoundedOption(data.description, 1024)
         && (data.rolloutPercentage.Some? ==> 0 <= data.rolloutPercentage.value <= 100)
         && (data.rules.Some? ==> AllRulesOk(data.rules.value))
         && (data.variants.Some? ==> AllVariantsOk(data.variants.value))
         && BoundedOption(OffOrNone(data.offVariant), 64)
         && data.version >= 1)
    then Some(FieldOutOfBounds)
    else if data.variants.None? then None
    else if ValidateVariants(data.variants.value, OffOrNone(data.offVariant)).Some?
      then ValidateVariants(data.variants.value, OffOrNone(data.offVariant))
    else CheckRuleVariants(data.rules.GetOr([]), data.variants.value)
  }

  // ---- What the validators let by ----------------------------------------------------------------

  /** A variant set the engine can serve coherently. */
  ghost predicate CoherentVariants(vs: seq<VariantIn>) {
    vs == [] || (|vs| >= 2 && DistinctKeys(vs, InKey) && Sum(InWeights(vs)) == 100)
  }

  /** The validator accepts exactly the coherent sets whose off variant, if named, is defined. */
  lemma AcceptedVariants(vs: seq<VariantIn>, off: Option<string>)
    ensures ValidateVariants(vs, off).None?
            <==> CoherentVariants(vs) && (off.Some? ==> off.value in InKeys(vs))
  {
    if vs != [] {
      assert HasDuplicateKeys(vs) <==> !DistinctKeys(vs, InKey) by {
        if !DistinctKeys(vs, InKey) {
          var i, j :| 0 <= i < j < |vs| && InKey(vs[i]) == InKey(vs[j]);
        }
        if HasDuplicateKeys(vs) {
          var i, j :| 0 <= i < j < |vs| && vs[i].key == vs[j].key;
          assert InKey(vs[i]) == InKey(vs[j]);
        }
      }
    }
  }
}
