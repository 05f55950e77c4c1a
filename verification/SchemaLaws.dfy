/** Exactly which requests pass validation. */
module SchemaLaws {
  import opened Wrappers
  import opened Schemas

  /** The code points of a to z and of 0 to 9. */
  predicate Alphanumeric(c: char) {
    97 <= c as int <= 122 || 48 <= c as int <= 57
  }

  /** A key for URLs: alphanumeric at the start, then also dots, underscores and dashes. */
  predicate KeyLike(key: string, limit: nat) {
    && 0 < |key| <= limit && Alphanumeric(key[0])
    && forall c :: c in key ==> Alphanumeric(c) || c in "._-"
  }

  lemma KeysAreAlike(key: string, limit: nat)
    ensures KeyPattern(key, limit) <==> KeyLike(key, limit)
  {
    assert forall i :: 0 <= i < |key| ==> key[i] in key;
    assert forall c :: c in "._-" <==> c == '.' || c == '_' || c == '-';
  }

  /** A rule that can be stored: a named attribute, at least one value, a pin that names a variant if any. */
  predicate RuleFits(r: RuleIn, variants: seq<VariantIn>) {
    && 0 < |r.attribute| <= 128 && r.values != []
    && (r.variant.Some? ==> |r.variant.value| <= 64 && exists v :: v in variants && v.key == r.variant.value)
  }

  predicate VariantFits(v: VariantIn) {
    KeyLike(v.key, 64) && 0 <= v.weight <= 100
  }

  /** A variant set that can be served, with an off variant that names one of them if any. */
  ghost predicate VariantsFit(vs: seq<VariantIn>, off: Option<string>) {
    && (forall v :: v in vs ==> VariantFits(v))
    && CoherentVariants(vs)
    && (off.Some? ==> |off.value| <= 64 && exists v :: v in vs && v.key == off.value)
  }

  ghost predicate CreateFits(data: FlagCreate) {
    && KeyLike(data.key, 128) && 0 < |data.name| <= 256
    && (data.description.Some? ==> |data.description.value| <= 1024)
    && 0 <= data.rolloutPercentage <= 100
    && (forall r :: r in data.rules ==> RuleFits(r, data.variants))
    && VariantsFit(data.variants, data.offVariant)
  }

  lemma VariantsOkMeans(vs: seq<VariantIn>)
    ensures AllVariantsOk(vs) <==> forall v :: v in vs ==> VariantFits(v)
  {
    forall v: VariantIn ensures VariantFieldsOk(v) <==> VariantFits(v) {
      KeysAreAlike(v.key, 64);
    }
    if forall v :: v in vs ==> VariantFits(v) {
      forall i | 0 <= i < |vs| ensures VariantFieldsOk(vs[i]) {
        assert vs[i] in vs;
      }
    }
  }

  lemma RulesOkMeans(rules: seq<RuleIn>, vs: seq<VariantIn>)
    ensures AllRulesOk(rules) && CheckRuleVariants(rules, vs).None? <==> forall r :: r in rules ==> RuleFits(r, vs)
  {
    if forall r :: r in rules ==> RuleFits(r, vs) {
      forall i | 0 <= i < |rules| ensures RuleFieldsOk(rules[i]) && RuleFits(rules[i], vs) {
        assert rules[i] in rules;
      }
    }
    if AllRulesOk(rules) && CheckRuleVariants(rules, vs).None? {
      forall r | r in rules ensures RuleFits(r, vs) {
        var i :| 0 <= i < |rules| && rules[i] == r;
        assert RuleFieldsOk(rules[i]);
      }
    }
  }

  /** A creation passes validation if and only if it fits, every well-formed request included. */
  lemma CreateAcceptedExactly(data: FlagCreate)
    ensures ValidateCreate(data).None? <==> CreateFits(data)
  {
    KeysAreAlike(data.key, 128);
    VariantsOkMeans(data.variants);
    RulesOkMeans(data.rules, data.variants);
    AcceptedVariants(data.variants, data.offVariant);
  }

  /** A rule on its own, when the request leaves the variants alone. */
  predicate RuleFitsAlone(r: RuleIn) {
    0 < |r.attribute| <= 128 && r.values != [] && (r.variant.Some? ==> |r.variant.value| <= 64)
  }

  ghost predicate UpdateFits(data: FlagUpdate) {
    && (data.name.Some? ==> 0 < |data.name.value| <= 256)
    && (data.description.Some? ==> |data.description.value| <= 1024)
    && (data.rolloutPercentage.Some? ==> 0 <= data.rolloutPercentage.value <= 100)
    && (data.rules.Some? ==> forall r :: r in data.rules.value ==> RuleFitsAlone(r))
    && (OffOrNone(data.offVariant).Some? ==> |OffOrNone(data.offVariant).value| <= 64)
    && data.version >= 1
    && (data.variants.Some? ==>
          && VariantsFit(data.variants.value, OffOrNone(data.offVariant))
          && (data.rules.Some? ==> forall r :: r in data.rules.value ==> RuleFits(r, data.variants.value)))
  }

  lemma RulesAloneMeans(rules: seq<RuleIn>)
    ensures AllRulesOk(rules) <==> forall r :: r in rules ==> RuleFitsAlone(r)
  {
    if forall r :: r in rules ==> RuleFitsAlone(r) {
      forall i | 0 <= i < |rules| ensures RuleFieldsOk(rules[i]) {
        assert rules[i] in rules;
      }
    }
  }

  /** So does a patch; its variants are looked at only if it carries some, its off variant then with them. */
  lemma UpdateAcceptedExactly(data: FlagUpdate)
    ensures ValidateUpdate(data).None? <==> UpdateFits(data)
  {
    RulesAloneMeans(data.rules.GetOr([]));
    if data.variants.Some? {
      VariantsOkMeans(data.variants.value);
      RulesOkMeans(data.rules.GetOr([]), data.variants.value);
      AcceptedVariants(data.variants.value, OffOrNone(data.offVariant));
    }
  }
}
