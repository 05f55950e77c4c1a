/** Exactly when the order in which a flag's variants are stored shows in its evaluations. */
module Reordering {
  import opened Wrappers
  import opened Ordering
  import opened Bands
  import opened Engine
  import ModelLaws

  /** What a user sees of the variant served. */
  datatype Sight = Sight(key: string, value: Value)

  function SightOf(v: VariantSpec): Sight { Sight(v.key, v.value) }

  function Found(variants: seq<VariantSpec>, key: Option<string>): Option<Sight> {
    var r := FindVariant(variants, key);
    if r.Some? then Some(SightOf(r.value)) else None
  }

  // ---- The weighted choice ---------------------------------------------------------------------------

  /** What bucket b of the weighted choice shows; nothing without variants. */
  function Choice(vs: seq<VariantSpec>, b: nat): Option<Sight>
    requires b < BUCKETS
  {
    if vs == [] then None else Some(SightOf(VariantAt(vs, b)))
  }

  /** Every bucket is served alike from both orders. */
  ghost predicate ChosenAlike(vs: seq<VariantSpec>, vs': seq<VariantSpec>) {
    forall b: nat :: b < BUCKETS ==> Choice(vs, b) == Choice(vs', b)
  }

  /** One unit per point of weight, in the order of the variants. */
  function Units(vs: seq<VariantSpec>): seq<Sight> {
    if vs == [] then []
    else
      var last := vs[|vs| - 1];
      Units(vs[..|vs| - 1]) + seq(if last.weight < 0 then 0 else last.weight, _ => SightOf(last))
  }

  lemma WeightsOfInit(vs: seq<VariantSpec>)
    requires vs != []
    ensures Weights(vs[..|vs| - 1]) == Weights(vs)[..|vs| - 1]
    ensures Sum(Weights(vs)) == Sum(Weights(vs[..|vs| - 1])) + vs[|vs| - 1].weight
  {
  }

  /** The units of entry i lie between its edges. */
  lemma {:induction false} UnitsOfEntry(vs: seq<VariantSpec>, i: nat, u: nat)
    requires NonNegative(Weights(vs)) && i < |vs| && Upto(Weights(vs), i) <= u < Upto(Weights(vs), i + 1)
    ensures |Units(vs)| == Sum(Weights(vs)) && u < |Units(vs)| && Units(vs)[u] == SightOf(vs[i])
  {
    var init := vs[..|vs| - 1];
    WeightsOfInit(vs);
    UnitsCount(init);
    assert vs[|vs| - 1].weight == Weights(vs)[|vs| - 1] >= 0;
    if i == |vs| - 1 {
      UptoAll(Weights(vs));
    } else {
      assert Weights(vs)[..i] == Weights(init)[..i] && Weights(vs)[..i + 1] == Weights(init)[..i + 1];
      UnitsOfEntry(init, i, u);
    }
  }

  lemma {:induction false} UnitsCount(vs: seq<VariantSpec>)
    requires NonNegative(Weights(vs))
    ensures |Units(vs)| == Sum(Weights(vs))
  {
    if vs != [] {
      WeightsOfInit(vs);
      UnitsCount(vs[..|vs| - 1]);
      assert vs[|vs| - 1].weight == Weights(vs)[|vs| - 1] >= 0;
    }
  }

  /** The unit a bucket falls on. */
  function UnitOf(b: nat, total: nat): nat { b * total / BUCKETS }

  lemma BetweenEdges(lower: int, upper: int, position: nat)
    requires lower * BUCKETS <= position < upper * BUCKETS
    ensures lower <= position / BUCKETS < upper
  {
  }

  ghost predicate NoNegativeWeight(vs: seq<VariantSpec>) {
    forall v :: v in vs ==> v.weight >= 0
  }

  /** A bucket is served the unit it falls on. */
  lemma BucketServesUnit(vs: seq<VariantSpec>, b: nat)
    requires vs != [] && NoNegativeWeight(vs) && Sum(Weights(Ordered(vs))) > 0 && b < BUCKETS
    ensures
      var ordered := Ordered(vs);
      var u := UnitOf(b, Sum(Weights(ordered)));
      u < |Units(ordered)| && Units(ordered)[u] == SightOf(VariantAt(vs, b))
  {
    var ws := Weights(Ordered(vs));
    OrderedNonNegative(vs);
    OrderedLength(vs);
    FoundBandHolds(ws, b);
    BetweenEdges(Upto(ws, BandOf(ws, b)), Upto(ws, BandOf(ws, b) + 1), b * Sum(ws));
    UnitsOfEntry(Ordered(vs), BandOf(ws, b), UnitOf(b, Sum(ws)));
  }

  /** With at most one unit per bucket, every unit has a bucket that falls on it. */
  lemma BucketOnUnit(u: nat, total: nat) returns (b: nat)
    requires u < total <= BUCKETS
    ensures b < BUCKETS && UnitOf(b, total) == u
  {
    b := (u * BUCKETS + total - 1) / total;
    DivisionEdges(u * BUCKETS + total - 1, total);
    assert u * BUCKETS <= b * total < u * BUCKETS + total;
    BetweenEdges(u, u + 1, b * total);
    if b >= BUCKETS {
      ProductsGrow(BUCKETS, b, total);
    }
  }

  lemma DivisionEdges(x: nat, d: nat)
    requires d > 0
    ensures x - d < x / d * d <= x
  {
    assert x == x / d * d + x % d;
  }

  lemma ProductsGrow(a: nat, b: nat, t: nat)
    requires a <= b
    ensures a * t <= b * t
  {
  }

  lemma SameTotal(vs: seq<VariantSpec>, vs': seq<VariantSpec>)
    requires multiset(vs) == multiset(vs')
    ensures Sum(Weights(Ordered(vs))) == Sum(Weights(Ordered(vs')))
  {
    SortIsSortedPermutation(vs, VariantKey);
    SortIsSortedPermutation(vs', VariantKey);
    ModelLaws.MapForgetsOrder(Weight, Ordered(vs), Ordered(vs'));
    ModelLaws.SumForgetsOrder(Weights(Ordered(vs)), Weights(Ordered(vs')));
  }

  /** The unit that bucket b falls on is the same in both orders. */
  predicate UnitAgrees(vs: seq<VariantSpec>, vs': seq<VariantSpec>, b: nat)
    requires Sum(Weights(Ordered(vs))) >= 0
  {
    var a, a', u := Units(Ordered(vs)), Units(Ordered(vs')), UnitOf(b, Sum(Weights(Ordered(vs))));
    u < |a| && u < |a'| && a[u] == a'[u]
  }

  ghost predicate UnitsAgree(vs: seq<VariantSpec>, vs': seq<VariantSpec>)
    requires Sum(Weights(Ordered(vs))) >= 0
  {
    forall b: nat :: b < BUCKETS ==> UnitAgrees(vs, vs', b)
  }

  lemma UnitsDecide(vs: seq<VariantSpec>, vs': seq<VariantSpec>, b: nat)
    requires multiset(vs) == multiset(vs') && vs != [] && vs' != [] && b < BUCKETS
    requires NoNegativeWeight(vs) && Sum(Weights(Ordered(vs))) > 0
    ensures Choice(vs, b) == Choice(vs', b) <==> UnitAgrees(vs, vs', b)
  {
    SameMembers(vs, vs');
    SameTotal(vs, vs');
    BucketServesUnit(vs, b);
    BucketServesUnit(vs', b);
  }

  /**
   Two orders of one list are served alike at every bucket if and only if, sorted by key, they agree on
   every unit of weight that a bucket falls on: on all of them, when there are no more units than buckets.
   */
  lemma ServedAlikeExactly(vs: seq<VariantSpec>, vs': seq<VariantSpec>)
    requires multiset(vs) == multiset(vs') && vs != [] && vs' != []
    requires NoNegativeWeight(vs) && Sum(Weights(Ordered(vs))) > 0
    ensures ChosenAlike(vs, vs') <==> UnitsAgree(vs, vs')
    ensures Sum(Weights(Ordered(vs))) <= BUCKETS ==>
              (ChosenAlike(vs, vs') <==> Units(Ordered(vs)) == Units(Ordered(vs')))
  {
    forall b: nat | b < BUCKETS ensures Choice(vs, b) == Choice(vs', b) <==> UnitAgrees(vs, vs', b) {
      UnitsDecide(vs, vs', b);
    }
    if Sum(Weights(Ordered(vs))) <= BUCKETS {
      AllUnitsAgree(vs, vs');
    }
  }

  /** With no more units than buckets, every unit has a bucket that falls on it. */
  lemma AllUnitsAgree(vs: seq<VariantSpec>, vs': seq<VariantSpec>)
    requires multiset(vs) == multiset(vs') && NoNegativeWeight(vs) && 0 < Sum(Weights(Ordered(vs))) <= BUCKETS
    ensures UnitsAgree(vs, vs') <==> Units(Ordered(vs)) == Units(Ordered(vs'))
  {
    CountUnits(vs, vs');
    var total := Sum(Weights(Ordered(vs)));
    if UnitsAgree(vs, vs') {
      forall u | 0 <= u < total ensures Units(Ordered(vs))[u] == Units(Ordered(vs'))[u] {
        var b := BucketOnUnit(u, total);
        assert UnitAgrees(vs, vs', b);
      }
    }
    forall b: nat | b < BUCKETS ensures UnitOf(b, total) < total {
      UnitWithin(b, total);
    }
  }

  lemma UnitWithin(b: nat, total: nat)
    requires b < BUCKETS && total > 0
    ensures UnitOf(b, total) < total
  {
    Scale(b, BUCKETS, total);
    BetweenEdges(0, total, b * total);
  }

  lemma CountUnits(vs: seq<VariantSpec>, vs': seq<VariantSpec>)
    requires multiset(vs) == multiset(vs') && NoNegativeWeight(vs)
    ensures |Units(Ordered(vs))| == |Units(Ordered(vs'))| == Sum(Weights(Ordered(vs)))
  {
    SameMembers(vs, vs');
    SameTotal(vs, vs');
    OrderedNonNegative(vs);
    OrderedNonNegative(vs');
    UnitsCount(Ordered(vs));
    UnitsCount(Ordered(vs'));
  }

  // ---- The evaluations -------------------------------------------------------------------------------

  /**
   What the flag can come to serve is the same from both orders: the off variant, if the flag is disabled
   or not rolled out in full; the weighted choice, if the rollout admits anyone; and, for each rule that
   some context matches first, its pin, or the weighted choice if the pin names no variant.
   */
  ghost predicate OrdersAgree(flag: FlagSpec, vs': seq<VariantSpec>) {
    var vs := flag.variants;
    && (!flag.enabled || flag.rolloutPercentage < 100 ==> Found(vs, flag.offVariant) == Found(vs', flag.offVariant))
    && (flag.enabled && flag.rolloutPercentage > 0 ==> ChosenAlike(vs, vs'))
    && (flag.enabled ==>
          forall context :: var rule := FirstMatch(flag.rules, context);
                            rule.Some? ==> PinsAgree(vs, vs', rule.value.variant))
  }

  ghost predicate PinsAgree(vs: seq<VariantSpec>, vs': seq<VariantSpec>, pin: Option<string>) {
    Found(vs, pin) == Found(vs', pin) && (Found(vs, pin).None? ==> ChosenAlike(vs, vs'))
  }

  ghost predicate EvaluateAlike(flag: FlagSpec, flag': FlagSpec) {
    forall md5, userId, context :: Evaluate(md5, flag, userId, context) == Evaluate(md5, flag', userId, context)
  }

  // A digest that puts a user in the rollout's first bucket and in bucket b of the variants.
  function Aimed(key: string, b: nat): Digest {
    (text: string) => if text == Material(key, "", "") then 0 else b
  }

  lemma AimedHits(key: string, b: nat)
    requires b < BUCKETS
    ensures BucketFor(Aimed(key, b), key, "", "") == 0 && BucketFor(Aimed(key, b), key, "", VARIANT_SALT) == b
  {
    assert |Material(key, VARIANT_SALT, "")| == |Material(key, "", "")| + |VARIANT_SALT|;
  }

  lemma NothingMatches(rules: seq<RuleSpec>)
    ensures FirstMatch(rules, map[]) == None
  {
  }

  lemma OffMustAgree(flag: FlagSpec, vs': seq<VariantSpec>)
    requires EvaluateAlike(flag, flag.(variants := vs')) && (!flag.enabled || flag.rolloutPercentage < 100)
    ensures Found(flag.variants, flag.offVariant) == Found(vs', flag.offVariant)
  {
    var last: Digest := (text: string) => BUCKETS - 1;
    NothingMatches(flag.rules);
    assert !InRollout(last, flag.key, "", flag.rolloutPercentage) || flag.rolloutPercentage >= 100;
    assert Evaluate(last, flag, "", map[]) == Evaluate(last, flag.(variants := vs'), "", map[]);
  }

  /** With an empty user id and this context the flag comes to its weighted choice. */
  ghost predicate ReachesChoice(flag: FlagSpec, context: Context) {
    flag.enabled &&
    match FirstMatch(flag.rules, context)
    case Some(rule) => Found(flag.variants, rule.variant).None?
    case None => flag.rolloutPercentage > 0
  }

  /** There, an aimed digest shows the bucket it aims at. */
  lemma AimedShows(flag: FlagSpec, context: Context, b: nat)
    requires ReachesChoice(flag, context) && b < BUCKETS
    ensures
      var e := Evaluate(Aimed(flag.key, b), flag, "", context);
      Choice(flag.variants, b) == if e.variant.Some? then Some(Sight(e.variant.value, e.value)) else None
  {
    AimedHits(flag.key, b);
    assert InRollout(Aimed(flag.key, b), flag.key, "", flag.rolloutPercentage) <==> flag.rolloutPercentage > 0;
  }

  /** If both orders come to the weighted choice, it must serve them alike. */
  lemma ChoiceMustAgree(flag: FlagSpec, vs': seq<VariantSpec>, context: Context)
    requires EvaluateAlike(flag, flag.(variants := vs'))
    requires ReachesChoice(flag, context) && ReachesChoice(flag.(variants := vs'), context)
    ensures ChosenAlike(flag.variants, vs')
  {
    forall b: nat | b < BUCKETS ensures Choice(flag.variants, b) == Choice(vs', b) {
      AimedShows(flag, context, b);
      AimedShows(flag.(variants := vs'), context, b);
    }
  }

  lemma PinMustAgree(flag: FlagSpec, vs': seq<VariantSpec>, context: Context)
    requires multiset(vs') == multiset(flag.variants)
    requires EvaluateAlike(flag, flag.(variants := vs')) && flag.enabled && FirstMatch(flag.rules, context).Some?
    ensures PinsAgree(flag.variants, vs', FirstMatch(flag.rules, context).value.variant)
  {
    var pin := FirstMatch(flag.rules, context).value.variant;
    SameMembers(flag.variants, vs');
    var md5 := Aimed(flag.key, 0);
    assert Evaluate(md5, flag, "", context) == Evaluate(md5, flag.(variants := vs'), "", context);
    if Found(flag.variants, pin).None? {
      ChoiceMustAgree(flag, vs', context);
    }
  }

  lemma AgreeingOrdersEvaluateAlike(md5: Digest, flag: FlagSpec, vs': seq<VariantSpec>, userId: string,
                                    context: Context)
    requires OrdersAgree(flag, vs')
    ensures Evaluate(md5, flag, userId, context) == Evaluate(md5, flag.(variants := vs'), userId, context)
  {
    var b := BucketFor(md5, flag.key, userId, VARIANT_SALT);
    assert ChosenAlike(flag.variants, vs') ==> Choice(flag.variants, b) == Choice(vs', b);
    assert flag.rolloutPercentage <= 0 ==> !InRollout(md5, flag.key, userId, flag.rolloutPercentage);
    assert flag.rolloutPercentage >= 100 ==> InRollout(md5, flag.key, userId, flag.rolloutPercentage);
    if flag.enabled && FirstMatch(flag.rules, context).Some? {
      assert PinsAgree(flag.variants, vs', FirstMatch(flag.rules, context).value.variant);
    }
  }

  /**
   Exactly when the stored order shows. Two orders of a flag's variants, repeated keys or not, evaluate
   alike for every digest, user and context if and only if everything the flag can come to serve is the
   same from both.
   */
  lemma OrderShowsExactly(flag: FlagSpec, variants: seq<VariantSpec>)
    requires multiset(variants) == multiset(flag.variants)
    ensures EvaluateAlike(flag, flag.(variants := variants)) <==> OrdersAgree(flag, variants)
  {
    if OrdersAgree(flag, variants) {
      forall md5, userId, context
        ensures Evaluate(md5, flag, userId, context)
             == Evaluate(md5, flag.(variants := variants), userId, context)
      {
        AgreeingOrdersEvaluateAlike(md5, flag, variants, userId, context);
      }
    }
    if EvaluateAlike(flag, flag.(variants := variants)) {
      ServedMustAgree(flag, variants);
    }
  }

  lemma ServedMustAgree(flag: FlagSpec, variants: seq<VariantSpec>)
    requires multiset(variants) == multiset(flag.variants) && EvaluateAlike(flag, flag.(variants := variants))
    ensures OrdersAgree(flag, variants)
  {
    if !flag.enabled || flag.rolloutPercentage < 100 {
      OffMustAgree(flag, variants);
    }
    if flag.enabled && flag.rolloutPercentage > 0 {
      NothingMatches(flag.rules);
      ChoiceMustAgree(flag, variants, map[]);
    }
    if flag.enabled {
      forall context | FirstMatch(flag.rules, context).Some?
        ensures PinsAgree(flag.variants, variants, FirstMatch(flag.rules, context).value.variant)
      {
        PinMustAgree(flag, variants, context);
      }
    }
  }
}
