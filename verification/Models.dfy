/** Stored rows, and what creating or patching a flag makes of them. */
module Models {
  import opened Wrappers
  import opened Ordering
  import opened Bands
  import opened Engine
  import opened Schemas

  datatype RuleRow = RuleRow(
    id: nat,
    attribute: string,
    operator: string,
    values: seq<string>,
    priority: int,
    variant: Option<string>)

  datatype VariantRow = VariantRow(id: nat, key: string, value: Value, weight: int)

  /** The columns of the flags table. */
  datatype Row = Row(
    id: nat,
    key: string,
    name: string,
    description: Option<string>,
    enabled: bool,
    rolloutPercentage: int,
    offVariant: Option<string>,
    version: nat)

  /** A flag: its row, with its rules and variants in the order the owner holds them. */
  datatype Flag = Flag(row: Row, rules: seq<RuleRow>, variants: seq<VariantRow>)

  function RowKey(v: VariantRow): string { v.key }

  function RowWeight(v: VariantRow): int { v.weight }

  function RowWeights(vs: seq<VariantRow>): seq<int> {
    MapSeq(RowWeight, vs)
  }

  function RowKeys(vs: seq<VariantRow>): set<string> {
    set v | v in vs :: v.key
  }

  // ---- Building rows from input --------------------------------------------------------------

  function RulesFromInput(rules: seq<RuleIn>, nextId: nat): (r: seq<RuleRow>)
    ensures |r| == |rules|
  {
    seq(|rules|, i requires 0 <= i < |rules| =>
      RuleRow(nextId + i, rules[i].attribute, OperatorValue(rules[i].operator), rules[i].values, rules[i].priority,
              rules[i].variant))
  }

  function VariantsFromInput(variants: seq<VariantIn>, nextId: nat): (r: seq<VariantRow>)
    ensures |r| == |variants|
  {
    seq(|variants|, i requires 0 <= i < |variants| =>
      VariantRow(nextId + i, variants[i].key, variants[i].value, variants[i].weight))
  }

  function NewFlag(data: FlagCreate, nextId: nat): Flag {
    Flag(Row(nextId, data.key, data.name, data.description, data.enabled, data.rolloutPercentage, data.offVariant, 1),
         RulesFromInput(data.rules, nextId + 1),
         VariantsFromInput(data.variants, nextId + 1 + |data.rules|))
  }

  // ---- Merging a variant set -----------------------------------------------------------------

  /** {v.key: v for v in vs}: a repeated key keeps its first place and its last entry. */
  function Wanted(vs: seq<VariantIn>): map<string, VariantIn> {
    if vs == [] then map[] else Wanted(vs[..|vs| - 1])[vs[|vs| - 1].key := vs[|vs| - 1]]
  }

  function WantedKeys(vs: seq<VariantIn>): seq<string> {
    if vs == [] then []
    else
      var ks, last := WantedKeys(vs[..|vs| - 1]), vs[|vs| - 1].key;
      if last in ks then ks else ks + [last]
  }

  lemma {:induction false} WantedAre(vs: seq<VariantIn>)
    ensures forall k :: k in Wanted(vs) <==> k in InKeys(vs)
    ensures forall k :: k in Wanted(vs) ==> Wanted(vs)[k].key == k && Wanted(vs)[k] in vs
  {
    if vs != [] {
      var init, last := vs[..|vs| - 1], vs[|vs| - 1];
      WantedAre(init);
      assert vs == init + [last];
      assert forall k :: k in InKeys(vs) <==> k == last.key || k in InKeys(init);
    }
  }

  lemma {:induction false} WantedKeysAre(vs: seq<VariantIn>)
    ensures forall k :: k in WantedKeys(vs) <==> k in InKeys(vs)
    ensures forall i, j :: 0 <= i < j < |WantedKeys(vs)| ==> WantedKeys(vs)[i] != WantedKeys(vs)[j]
  {
    if vs != [] {
      var init, last := vs[..|vs| - 1], vs[|vs| - 1];
      WantedKeysAre(init);
      assert vs == init + [last];
      assert forall k :: k in InKeys(vs) <==> k == last.key || k in InKeys(init);
    }
  }

  function KeptRow(row: VariantRow, wanted: map<string, VariantIn>): seq<VariantRow> {
    if row.key in wanted then [row.(value := wanted[row.key].value, weight := wanted[row.key].weight)] else []
  }

  /** Existing rows whose key is wanted, in place, with the new value and weight. */
  function KeptRows(rows: seq<VariantRow>, wanted: map<string, VariantIn>): seq<VariantRow> {
    if rows == [] then [] else KeptRow(rows[0], wanted) + KeptRows(rows[1..], wanted)
  }

  /** New rows for the wanted keys that no existing row has, in the order they are wanted. */
  function AddedRows(keys: seq<string>, taken: set<string>, wanted: map<string, VariantIn>,
                     nextId: nat): seq<VariantRow>
    requires forall k :: k in keys ==> k in wanted
  {
    if keys == [] then []
    else if keys[0] in taken then AddedRows(keys[1..], taken, wanted, nextId)
    else [VariantRow(nextId, keys[0], wanted[keys[0]].value, wanted[keys[0]].weight)]
         + AddedRows(keys[1..], taken, wanted, nextId + 1)
  }

  function MergeVariants(rows: seq<VariantRow>, incoming: seq<VariantIn>, nextId: nat): seq<VariantRow> {
    WantedAre(incoming);
    WantedKeysAre(incoming);
    KeptRows(rows, Wanted(incoming)) + AddedRows(WantedKeys(incoming), RowKeys(rows), Wanted(incoming), nextId)
  }

  // ---- Patching a flag -----------------------------------------------------------------------

  /** The variant keys the flag would have after the patch. */
  function EffectiveVariants(flag: Flag, patch: FlagUpdate): set<string> {
    if patch.variants.Some? then InKeys(patch.variants.value) else RowKeys(flag.variants)
  }

  predicate Truthy(s: Option<string>) { s.Some? && s.value != "" }

  /** The non-empty pins the rules would have after the patch. */
  function EffectivePins(flag: Flag, patch: FlagUpdate): set<string> {
    if patch.rules.Some?
    then set r | r in patch.rules.value && Truthy(r.variant) :: r.variant.value
    else set r | r in flag.rules && Truthy(r.variant) :: r.variant.value
  }

  function EffectiveOff(flag: Flag, patch: FlagUpdate): Option<string> {
    if patch.offVariant.Present? then patch.offVariant.value else flag.row.offVariant
  }

  datatype StoreError = DuplicateFlag | FlagNotFound | VersionConflict | InvalidVariant

  /** The rules, off variant and variants the patch would leave behind must agree. */
  function CheckReferences(flag: Flag, patch: FlagUpdate): Option<StoreError> {
    if !(EffectivePins(flag, patch) <= EffectiveVariants(flag, patch)) then Some(InvalidVariant)
    else if Truthy(EffectiveOff(flag, patch)) && EffectiveOff(flag, patch).value !in EffectiveVariants(flag, patch)
      then Some(InvalidVariant)
    else None
  }

  /** Why a patch is refused against the state it would leave behind, if it is. */
  function CheckPatch(flag: Flag, patch: FlagUpdate): Option<StoreError> {
    if flag.row.version != patch.version then Some(VersionConflict) else CheckReferences(flag, patch)
  }

  function PatchedRow(row: Row, patch: FlagUpdate): Row {
    Row(row.id, row.key,
        patch.name.GetOr(row.name),
        if patch.description.Some? then patch.description else row.description,
        patch.enabled.GetOr(row.enabled),
        patch.rolloutPercentage.GetOr(row.rolloutPercentage),
        if patch.offVariant.Present? then patch.offVariant.value else row.offVariant,
        row.version + 1)
  }

  /** How many row ids a patch may draw. */
  function IdsNeeded(patch: FlagUpdate): nat {
    |patch.rules.GetOr([])| + |patch.variants.GetOr([])|
  }

  function ApplyPatch(flag: Flag, patch: FlagUpdate, nextId: nat): Flag {
    Flag(PatchedRow(flag.row, patch),
         if patch.rules.Some? then RulesFromInput(patch.rules.value, nextId) else flag.rules,
         if patch.variants.Some?
         then MergeVariants(flag.variants, patch.variants.value, nextId + |patch.rules.GetOr([])|)
         else flag.variants)
  }

  // ---- The cross-field invariant -------------------------------------------------------------

  predicate PinNames(pin: Option<string>, keys: set<string>) {
    Truthy(pin) ==> pin.value in keys
  }

  /** A variant set the engine can serve: none, or at least two, distinct, summing to 100. */
  ghost predicate ServableVariants(vs: seq<VariantRow>) {
    && (vs == [] || (|vs| >= 2 && Sum(RowWeights(vs)) == 100))
    && DistinctKeys(vs, RowKey)
    && forall v :: v in vs ==> v.key != "" && 0 <= v.weight <= 100
  }

  /** Every non-empty pin and off variant names one of the flag's own variants. */
  ghost predicate ReferencesHold(f: Flag) {
    && (forall r :: r in f.rules ==> PinNames(r.variant, RowKeys(f.variants)))
    && PinNames(f.row.offVariant, RowKeys(f.variants))
  }

  /** What every stored flag satisfies. Empty names escape, see StrictlyValid. */
  ghost predicate ValidFlag(f: Flag) {
    && ServableVariants(f.variants)
    && ReferencesHold(f)
    && 0 <= f.row.rolloutPercentage <= 100
  }

  /** The stronger reading: every name, the empty one included, is defined. */
  ghost predicate StrictlyValid(f: Flag) {
    && ValidFlag(f)
    && (forall r :: r in f.rules && r.variant.Some? ==> r.variant.value in RowKeys(f.variants))
    && (f.row.offVariant.Some? ==> f.row.offVariant.value in RowKeys(f.variants))
  }
}
