/** What the flags that the store can reach serve. */
module StoredEvaluation {
  import opened Wrappers
  import opened Ordering
  import opened Bands
  import opened Engine
  import opened EngineLaws
  import opened Models
  import opened ModelLaws
  import opened Payload
  import Store
  import StoreLaws

  lemma SpecVariants(flag: Flag)
    requires ValidFlag(flag)
    ensures DistinctKeys(ToSpec(flag).variants, VariantKey)
    ensures flag.variants != [] ==> WellWeighted(ToSpec(flag).variants)
    ensures flag.variants != [] ==> Sum(Weights(Ordered(ToSpec(flag).variants))) == 100
    ensures forall v :: v in ToSpec(flag).variants <==> exists r :: r in flag.variants && VariantOf(r) == v
  {
    var vs := ToSpec(flag).variants;
    forall i, j | 0 <= i < j < |vs| ensures VariantKey(vs[i]) != VariantKey(vs[j]) {
      assert RowKey(flag.variants[i]) != RowKey(flag.variants[j]);
    }
    forall v ensures v in vs <==> exists r :: r in flag.variants && VariantOf(r) == v {
      if v in vs {
        var i := IndexOf(v, vs);
        assert flag.variants[i] in flag.variants;
      }
      if r :| r in flag.variants && VariantOf(r) == v {
        var i := IndexOf(r, flag.variants);
        assert vs[i] == v;
      }
    }
    SortIsSortedPermutation(vs, VariantKey);
    MapForgetsOrder(Weight, vs, Ordered(vs));
    assert Weights(vs) == RowWeights(flag.variants);
    SumForgetsOrder(Weights(vs), Weights(Ordered(vs)));
  }

  /** The evaluation serves a variant the flag has, with its value. */
  ghost predicate ServesOwn(flag: Flag, e: Evaluation) {
    exists v :: v in flag.variants && e.variant == Some(v.key) && e.value == v.value
  }

  lemma ActiveServesOwn(flag: Flag, md5: Digest, userId: string, context: Context)
    requires ValidFlag(flag) && flag.variants != [] && Evaluate(md5, ToSpec(flag), userId, context).enabled
    ensures ServesOwn(flag, Evaluate(md5, ToSpec(flag), userId, context))
  {
    var spec := ToSpec(flag);
    var e := Evaluate(md5, spec, userId, context);
    SpecVariants(flag);
    ActiveMeansServed(md5, spec, userId, context);
    var v :| v in spec.variants && e.variant == Some(v.key) && e.value == v.value;
    var r :| r in flag.variants && VariantOf(r) == v;
  }

  /** Rule i is the first whose condition the context meets. */
  ghost predicate FirstRule(flag: Flag, i: int, context: Context) {
    var rules := ToSpec(flag).rules;
    0 <= i < |rules| && RuleMatches(rules[i], context) && forall j :: 0 <= j < i ==> !RuleMatches(rules[j], context)
  }

  /** With distinct keys every variant is the first of its name. */
  lemma FoundFirst(variants: seq<VariantSpec>, v: VariantSpec)
    requires DistinctKeys(variants, VariantKey) && v in variants
    ensures exists k :: FirstNamed(variants, k, v.key) && variants[k] == v
  {
    var k := IndexOf(v, variants);
    forall j | 0 <= j < k ensures variants[j].key != v.key {
      assert VariantKey(variants[j]) != VariantKey(variants[k]);
    }
    assert FirstNamed(variants, k, v.key);
  }

  lemma PinIsServed(flag: Flag, md5: Digest, userId: string, context: Context, i: int)
    requires ValidFlag(flag) && flag.row.enabled && FirstRule(flag, i, context) && Truthy(flag.rules[i].variant)
    ensures
      var e := Evaluate(md5, ToSpec(flag), userId, context);
      ServesOwn(flag, e) && e.enabled && e.reason == "targeting_match" && e.variant == flag.rules[i].variant
  {
    var spec := ToSpec(flag);
    SpecVariants(flag);
    assert flag.rules[i] in flag.rules && PinNames(flag.rules[i].variant, RowKeys(flag.variants));
    var r :| r in flag.variants && r.key == flag.rules[i].variant.value;
    assert VariantOf(r) in spec.variants;
    FoundFirst(spec.variants, VariantOf(r));
    PinnedRule(md5, spec, userId, context, i);
  }

  lemma OffVariantIsServed(flag: Flag, md5: Digest, userId: string, context: Context)
    requires ValidFlag(flag) && !flag.row.enabled && Truthy(flag.row.offVariant)
    ensures
      var e := Evaluate(md5, ToSpec(flag), userId, context);
      ServesOwn(flag, e) && !e.enabled && e.variant == flag.row.offVariant
  {
    var spec := ToSpec(flag);
    SpecVariants(flag);
    var r :| r in flag.variants && r.key == flag.row.offVariant.value;
    assert VariantOf(r) in spec.variants;
    FindInDistinct(spec.variants, VariantOf(r));
  }

  /**
   On every stored flag, whatever interleaving of sessions led to it: an active multivariate
   evaluation serves one of its variants; the first matching rule's non-empty pin is served
   exactly; a disabled flag serves its non-empty off variant.
   */
  lemma StoredFlagServes(steps: seq<Store.Step>, key: string, md5: Digest, userId: string, context: Context)
    requires key in Store.Run(steps).flags
    ensures
      var flag := Store.Run(steps).flags[key];
      var e := Evaluate(md5, ToSpec(flag), userId, context);
      && (flag.variants != [] && e.enabled ==> ServesOwn(flag, e))
      && (forall i :: flag.row.enabled && FirstRule(flag, i, context) && Truthy(flag.rules[i].variant) ==>
            ServesOwn(flag, e) && e.enabled && e.reason == "targeting_match" && e.variant == flag.rules[i].variant)
      && (!flag.row.enabled && Truthy(flag.row.offVariant) ==>
            ServesOwn(flag, e) && !e.enabled && e.variant == flag.row.offVariant)
  {
    var flag := Store.Run(steps).flags[key];
    var e := Evaluate(md5, ToSpec(flag), userId, context);
    StoreLaws.StoredFlagsAreValid(steps, key);
    if flag.variants != [] && e.enabled {
      ActiveServesOwn(flag, md5, userId, context);
    }
    forall i | flag.row.enabled && FirstRule(flag, i, context) && Truthy(flag.rules[i].variant)
      ensures ServesOwn(flag, e) && e.enabled && e.reason == "targeting_match" && e.variant == flag.rules[i].variant
    {
      PinIsServed(flag, md5, userId, context, i);
    }
    if !flag.row.enabled && Truthy(flag.row.offVariant) {
      OffVariantIsServed(flag, md5, userId, context);
    }
  }

  /** Every variant of a stored flag is served to exactly 100 buckets per point of its weight. */
  lemma StoredVariantsShareExactly(steps: seq<Store.Step>, key: string, v: VariantRow)
    requires key in Store.Run(steps).flags && v in Store.Run(steps).flags[key].variants
    ensures |BucketsServed(ToSpec(Store.Run(steps).flags[key]).variants, v.key)| == 100 * v.weight
  {
    var flag := Store.Run(steps).flags[key];
    StoreLaws.StoredFlagsAreValid(steps, key);
    SpecVariants(flag);
    assert VariantOf(v) in ToSpec(flag).variants;
    VariantApportionment(ToSpec(flag).variants, VariantOf(v));
  }
}
