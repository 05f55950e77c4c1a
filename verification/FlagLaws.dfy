/** The cross-field invariant of stored flags, over creation and patching. */
module FlagLaws {
  import opened Wrappers
  import opened Ordering
  import opened Bands
  import opened Schemas
  import opened Models
  import opened ModelLaws

  lemma KeysOfInput(vs: seq<VariantIn>, nextId: nat)
    ensures RowKeys(VariantsFromInput(vs, nextId)) == InKeys(vs)
    ensures RowWeights(VariantsFromInput(vs, nextId)) == InWeights(vs)
  {
    var rows := VariantsFromInput(vs, nextId);
    forall k ensures k in RowKeys(rows) <==> k in InKeys(vs) {
      if k in RowKeys(rows) {
        var v :| v in rows && v.key == k;
        var i := IndexOf(v, rows);
        assert vs[i] in vs;
      }
      if k in InKeys(vs) {
        var v :| v in vs && v.key == k;
        var i := IndexOf(v, vs);
        assert rows[i] in rows;
      }
    }
  }

  lemma KeysOfMerge(rows: seq<VariantRow>, vs: seq<VariantIn>, nextId: nat)
    requires DistinctKeys(rows, RowKey) && DistinctKeys(vs, InKey)
    ensures
      var merged := MergeVariants(rows, vs, nextId);
      RowKeys(merged) == InKeys(vs) && Sum(RowWeights(merged)) == Sum(InWeights(vs)) && |merged| == |vs|
      && forall v :: v in merged ==> AsInput(v) in vs
  {
    var merged := MergeVariants(rows, vs, nextId);
    var entries := MapSeq(AsInput, merged);
    MergeIsExact(rows, vs, nextId);
    SameMembers(entries, vs);
    forall k ensures k in RowKeys(merged) <==> k in InKeys(vs) {
      if k in RowKeys(merged) {
        var v :| v in merged && v.key == k;
        var i := IndexOf(v, merged);
        assert entries[i] in entries;
      }
      if k in InKeys(vs) {
        var v :| v in vs && v.key == k;
        assert v in entries;
        var i := IndexOf(v, entries);
        assert merged[i] in merged;
      }
    }
    forall v | v in merged ensures AsInput(v) in vs {
      var i := IndexOf(v, merged);
      assert entries[i] in entries;
    }
    MapForgetsOrder(InWeight, entries, vs);
    assert MapSeq(InWeight, entries) == RowWeights(merged);
    SumForgetsOrder(RowWeights(merged), InWeights(vs));
  }

  /** A flag the API creates is valid in the strict sense and starts at version 1. */
  lemma CreatedFlagIsValid(data: FlagCreate, nextId: nat)
    requires ValidateCreate(data).None?
    ensures StrictlyValid(NewFlag(data, nextId))
    ensures NewFlag(data, nextId).row.version == 1 && NewFlag(data, nextId).row.key == data.key
  {
    var flag := NewFlag(data, nextId);
    var n := nextId + 1 + |data.rules|;
    AcceptedVariants(data.variants, data.offVariant);
    KeysOfInput(data.variants, n);
    forall i, j | 0 <= i < j < |flag.variants| ensures RowKey(flag.variants[i]) != RowKey(flag.variants[j]) {
      assert InKey(data.variants[i]) != InKey(data.variants[j]);
    }
    forall v | v in flag.variants ensures v.key != "" && 0 <= v.weight <= 100 {
      var i := IndexOf(v, flag.variants);
      assert VariantFieldsOk(data.variants[i]);
    }
    forall r | r in flag.rules && r.variant.Some? ensures r.variant.value in RowKeys(flag.variants) {
      var i := IndexOf(r, flag.rules);
      assert data.rules[i].variant == r.variant;
    }
  }

  lemma MergedVariants(rows: seq<VariantRow>, vs: seq<VariantIn>, offVariant: Option<string>, nextId: nat)
    requires ServableVariants(rows) && AllVariantsOk(vs) && ValidateVariants(vs, offVariant).None?
    ensures ServableVariants(MergeVariants(rows, vs, nextId))
    ensures RowKeys(MergeVariants(rows, vs, nextId)) == InKeys(vs)
  {
    AcceptedVariants(vs, offVariant);
    MergeIsExact(rows, vs, nextId);
    KeysOfMerge(rows, vs, nextId);
    forall v | v in MergeVariants(rows, vs, nextId) ensures v.key != "" && 0 <= v.weight <= 100 {
      var i := IndexOf(AsInput(v), vs);
      assert VariantFieldsOk(vs[i]);
    }
  }

  lemma AcceptedUpdate(patch: FlagUpdate)
    requires ValidateUpdate(patch).None? && patch.variants.Some?
    ensures AllVariantsOk(patch.variants.value)
    ensures ValidateVariants(patch.variants.value, OffOrNone(patch.offVariant)).None?
  {
  }

  lemma VariantsOfPatched(flag: Flag, patch: FlagUpdate, nextId: nat)
    ensures ApplyPatch(flag, patch, nextId).variants
         == if patch.variants.Some?
            then MergeVariants(flag.variants, patch.variants.value, nextId + |patch.rules.GetOr([])|)
            else flag.variants
    ensures EffectiveVariants(flag, patch)
         == if patch.variants.Some? then InKeys(patch.variants.value) else RowKeys(flag.variants)
  {
  }

  lemma PatchedVariants(flag: Flag, patch: FlagUpdate, nextId: nat)
    requires ServableVariants(flag.variants) && ValidateUpdate(patch).None?
    ensures ServableVariants(ApplyPatch(flag, patch, nextId).variants)
    ensures RowKeys(ApplyPatch(flag, patch, nextId).variants) == EffectiveVariants(flag, patch)
  {
    if patch.variants.Some? {
      var n := nextId + |patch.rules.GetOr([])|;
      AcceptedUpdate(patch);
      MergedVariants(flag.variants, patch.variants.value, OffOrNone(patch.offVariant), n);
      VariantsOfPatched(flag, patch, nextId);
      SameVariants(ApplyPatch(flag, patch, nextId).variants, MergeVariants(flag.variants, patch.variants.value, n));
    }
  }

  lemma SameVariants(a: seq<VariantRow>, b: seq<VariantRow>)
    requires a == b && ServableVariants(b)
    ensures ServableVariants(a) && RowKeys(a) == RowKeys(b)
  {
  }

  /** The effective pins are the non-empty pins of the patched rules. */
  lemma PatchedPins(flag: Flag, patch: FlagUpdate, nextId: nat, keys: set<string>)
    ensures EffectivePins(flag, patch) <= keys
            <==> forall r :: r in ApplyPatch(flag, patch, nextId).rules ==> PinNames(r.variant, keys)
  {
    var rules := ApplyPatch(flag, patch, nextId).rules;
    if EffectivePins(flag, patch) <= keys {
      forall r | r in rules ensures PinNames(r.variant, keys) {
        PinIsEffective(flag, patch, nextId, r);
      }
    }
    if forall r :: r in rules ==> PinNames(r.variant, keys) {
      forall pin | pin in EffectivePins(flag, patch) ensures pin in keys {
        var r := EffectivePinIsThere(flag, patch, nextId, pin);
      }
    }
  }

  lemma PinIsEffective(flag: Flag, patch: FlagUpdate, nextId: nat, r: RuleRow)
    requires r in ApplyPatch(flag, patch, nextId).rules
    ensures Truthy(r.variant) ==> r.variant.value in EffectivePins(flag, patch)
  {
    if patch.rules.Some? {
      var i := IndexOf(r, ApplyPatch(flag, patch, nextId).rules);
      assert patch.rules.value[i].variant == r.variant && patch.rules.value[i] in patch.rules.value;
    }
  }

  lemma EffectivePinIsThere(flag: Flag, patch: FlagUpdate, nextId: nat, pin: string) returns (r: RuleRow)
    requires pin in EffectivePins(flag, patch)
    ensures r in ApplyPatch(flag, patch, nextId).rules && Truthy(r.variant) && r.variant.value == pin
  {
    if patch.rules.Some? {
      var given :| given in patch.rules.value && Truthy(given.variant) && given.variant.value == pin;
      var i := IndexOf(given, patch.rules.value);
      r := ApplyPatch(flag, patch, nextId).rules[i];
    } else {
      r :| r in flag.rules && Truthy(r.variant) && r.variant.value == pin;
    }
  }

  /**
   The check against the state a patch would leave behind is exact: it refuses if and only if the
   patched flag would hold a non-empty pin or off variant that names none of its own variants.
   */
  lemma ReferencesCheckedExactly(flag: Flag, patch: FlagUpdate, nextId: nat)
    requires ValidFlag(flag) && ValidateUpdate(patch).None?
    ensures CheckReferences(flag, patch).None? <==> ReferencesHold(ApplyPatch(flag, patch, nextId))
  {
    PatchedVariants(flag, patch, nextId);
    PatchedPins(flag, patch, nextId, EffectiveVariants(flag, patch));
  }

  /** A patch is refused if and only if its version is stale or the flag it would leave is invalid. */
  lemma PatchAcceptedExactly(flag: Flag, patch: FlagUpdate, nextId: nat)
    requires ValidFlag(flag) && ValidateUpdate(patch).None?
    ensures CheckPatch(flag, patch).None?
            <==> patch.version == flag.row.version && ValidFlag(ApplyPatch(flag, patch, nextId))
  {
    PatchedVariants(flag, patch, nextId);
    ReferencesCheckedExactly(flag, patch, nextId);
  }

  /** A patch that passes every check leaves a valid flag, one version on, with its identity kept. */
  lemma PatchKeepsValid(flag: Flag, patch: FlagUpdate, nextId: nat)
    requires ValidFlag(flag) && ValidateUpdate(patch).None? && CheckPatch(flag, patch).None?
    ensures
      var f := ApplyPatch(flag, patch, nextId);
      ValidFlag(f) && f.row.version == flag.row.version + 1 && f.row.id == flag.row.id && f.row.key == flag.row.key
  {
    PatchAcceptedExactly(flag, patch, nextId);
  }

  /** The patch names no variant by the empty string. */
  predicate NamesNothingEmpty(patch: FlagUpdate) {
    && (forall r :: r in patch.rules.GetOr([]) ==> r.variant != Some(""))
    && OffOrNone(patch.offVariant) != Some("")
  }

  /**
   The strict invariant survives an accepted patch exactly when the patch names nothing by
   the empty string: those names slip past the truthiness tests.
   */
  lemma StrictValidityExactly(flag: Flag, patch: FlagUpdate, nextId: nat)
    requires StrictlyValid(flag) && ValidateUpdate(patch).None? && CheckPatch(flag, patch).None?
    ensures StrictlyValid(ApplyPatch(flag, patch, nextId)) <==> NamesNothingEmpty(patch)
  {
    var f := ApplyPatch(flag, patch, nextId);
    PatchKeepsValid(flag, patch, nextId);
    PatchedVariants(flag, patch, nextId);
    assert "" !in RowKeys(f.variants);
    assert "" !in RowKeys(flag.variants);
    if patch.rules.Some? {
      forall i | 0 <= i < |patch.rules.value|
        ensures f.rules[i] in f.rules && f.rules[i].variant == patch.rules.value[i].variant
      {}
      assert (exists r :: r in patch.rules.value && r.variant == Some(""))
         ==> exists r :: r in f.rules && r.variant == Some("") by {
        if r :| r in patch.rules.value && r.variant == Some("") {
          var i := IndexOf(r, patch.rules.value);
          assert f.rules[i] in f.rules;
        }
      }
    }
    if NamesNothingEmpty(patch) {
      forall r | r in f.rules && r.variant.Some? ensures r.variant.value in RowKeys(f.variants) {
        if patch.rules.Some? {
          var i := IndexOf(r, f.rules);
          assert patch.rules.value[i] in patch.rules.value;
        }
        assert Truthy(r.variant) && PinNames(r.variant, RowKeys(f.variants));
      }
      assert f.row.offVariant.Some? ==> Truthy(f.row.offVariant);
    }
  }

  /** An accepted patch that leaves a boolean flag with an off variant it does not define. */
  lemma EmptyOffVariantEscapes()
    ensures
      var flag := Flag(Row(1, "f", "f", None, true, 50, None, 1), [], []);
      var patch := FlagUpdate(None, None, None, None, None, None, Present(Some("")), 1);
      && StrictlyValid(flag)
      && ValidateUpdate(patch).None?
      && CheckPatch(flag, patch).None?
      && ApplyPatch(flag, patch, 2).row.offVariant == Some("")
      && !StrictlyValid(ApplyPatch(flag, patch, 2))
  {
    var flag := Flag(Row(1, "f", "f", None, true, 50, None, 1), [], []);
    var patch := FlagUpdate(None, None, None, None, None, None, Present(Some("")), 1);
    assert EffectivePins(flag, patch) == {};
    assert RowKeys(ApplyPatch(flag, patch, 2).variants) == {};
  }
}
