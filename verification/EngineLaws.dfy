/** What the engine promises, for every flag, user, context and digest. */
module EngineLaws {
  import opened Wrappers
  import opened Ordering
  import opened Bands
  import opened Engine

  // ---- Order independence ------------------------------------------------------------------

  lemma {:induction false} FindInDistinct(variants: seq<VariantSpec>, v: VariantSpec)
    requires DistinctKeys(variants, VariantKey) && v in variants
    ensures FindVariant(variants, Some(v.key)) == Some(v)
  {
    if variants[0] != v {
      assert v in variants[1..];
      var i := IndexOf(v, variants);
      assert VariantKey(variants[0]) != VariantKey(variants[i]);
      FindInDistinct(variants[1..], v);
    }
  }

  lemma FindForgetsOrder(vs: seq<VariantSpec>, vs': seq<VariantSpec>, key: Option<string>)
    requires multiset(vs) == multiset(vs') && DistinctKeys(vs, VariantKey)
    ensures FindVariant(vs, key) == FindVariant(vs', key)
  {
    SameMembers(vs, vs');
    DistinctKeysPermutation(vs, vs', VariantKey);
    match FindVariant(vs, key)
    case Some(v) => FindInDistinct(vs', v);
    case None =>
  }

  /** Reordering the stored variants changes no evaluation. */
  lemma OrderIndependence(md5: Digest, flag: FlagSpec, variants: seq<VariantSpec>, userId: string, context: Context)
    requires multiset(variants) == multiset(flag.variants) && DistinctKeys(flag.variants, VariantKey)
    ensures Evaluate(md5, flag.(variants := variants), userId, context) == Evaluate(md5, flag, userId, context)
  {
    var other := flag.(variants := variants);
    SortForgetsOrder(flag.variants, variants, VariantKey);
    SameMembers(flag.variants, variants);
    FindForgetsOrder(flag.variants, variants, flag.offVariant);
    match FirstMatch(flag.rules, context)
    case Some(rule) => FindForgetsOrder(flag.variants, variants, rule.variant);
    case None =>
    assert Choose(md5, other, userId) == Choose(md5, flag, userId);
  }

  /** With a repeated key the stored order does show: the first of the two is found. */
  lemma RepeatedKeysShowOrder(md5: Digest)
    ensures
      var a, b := VariantSpec("a", Int(1), 50), VariantSpec("a", Int(2), 50);
      var flag := FlagSpec("f", false, 0, [], [a, b], Some("a"));
      Evaluate(md5, flag.(variants := [b, a]), "u", map[]) != Evaluate(md5, flag, "u", map[])
  {
    var a, b := VariantSpec("a", Int(1), 50), VariantSpec("a", Int(2), 50);
    assert FindVariant([a, b], Some("a")) == Some(a);
    assert FindVariant([b, a], Some("a")) == Some(b);
  }

  // ---- Apportionment -----------------------------------------------------------------------

  /** The buckets of the variant hash whose users are served the variant with this key. */
  function BucketsServed(variants: seq<VariantSpec>, key: string): set<int>
    requires variants != []
  {
    set b | 0 <= b < BUCKETS && VariantAt(variants, b).key == key
  }

  ghost predicate WellWeighted(variants: seq<VariantSpec>) {
    && variants != []
    && DistinctKeys(variants, VariantKey)
    && (forall v :: v in variants ==> v.weight >= 0)
    && Sum(Weights(Ordered(variants))) > 0
  }

  lemma OrderedFacts(variants: seq<VariantSpec>)
    requires WellWeighted(variants)
    ensures |Ordered(variants)| == |variants|
    ensures DistinctKeys(Ordered(variants), VariantKey)
    ensures NonNegative(Weights(Ordered(variants)))
    ensures forall v :: v in Ordered(variants) <==> v in variants
  {
    SortIsSortedPermutation(variants, VariantKey);
    SameMembers(variants, Ordered(variants));
    DistinctKeysPermutation(variants, Ordered(variants), VariantKey);
    forall i | 0 <= i < |variants| ensures Weights(Ordered(variants))[i] >= 0 {
      assert Ordered(variants)[i] in Ordered(variants);
    }
  }

  lemma ServedBandBuckets(variants: seq<VariantSpec>, i: nat)
    requires WellWeighted(variants) && i < |Ordered(variants)|
    ensures BucketsServed(variants, Ordered(variants)[i].key) == BucketsOf(Weights(Ordered(variants)), i)
  {
    OrderedFacts(variants);
    var ordered := Ordered(variants);
    forall b: nat | b < BUCKETS
      ensures VariantAt(variants, b).key == ordered[i].key <==> BandOf(Weights(ordered), b) == i
    {
      var r := BandOf(Weights(ordered), b);
      assert VariantKey(ordered[r]) == VariantKey(ordered[i]) <==> r == i;
    }
  }

  /**
   Each variant receives its share of the 10,000 buckets to within one bucket, exactly
   100 * weight of them when the weights sum to 100, and none at weight zero.
   */
  lemma VariantApportionment(variants: seq<VariantSpec>, v: VariantSpec)
    requires WellWeighted(variants) && v in variants
    ensures
      var total, n := Sum(Weights(Ordered(variants))), |BucketsServed(variants, v.key)|;
      && -total < n * total - BUCKETS * v.weight < total
      && (total == 100 ==> n == 100 * v.weight)
      && (v.weight == 0 ==> n == 0)
  {
    OrderedFacts(variants);
    var i := IndexOf(v, Ordered(variants));
    ServedBandBuckets(variants, i);
    Apportionment(Weights(Ordered(variants)), i);
  }

  // ---- Reweighting ---------------------------------------------------------------------------

  function KeysOf(variants: seq<VariantSpec>): seq<string> {
    MapSeq(VariantKey, variants)
  }

  function Same(key: string): string { key }

  lemma OrderedKeys(variants: seq<VariantSpec>)
    ensures KeysOf(Ordered(variants)) == SortBy(KeysOf(variants), Same)
  {
    MapSort(variants, VariantKey, VariantKey, Same);
  }

  /** The same distinct keys, in any order, with other weights and values. */
  ghost predicate SameKeys(variants: seq<VariantSpec>, variants': seq<VariantSpec>) {
    multiset(KeysOf(variants)) == multiset(KeysOf(variants'))
  }

  lemma SameKeysAlign(variants: seq<VariantSpec>, variants': seq<VariantSpec>)
    requires WellWeighted(variants) && WellWeighted(variants') && SameKeys(variants, variants')
    ensures KeysOf(Ordered(variants)) == KeysOf(Ordered(variants'))
    ensures |Ordered(variants)| == |Ordered(variants')|
  {
    OrderedKeys(variants);
    OrderedKeys(variants');
    forall i, j | 0 <= i < j < |variants| ensures Same(KeysOf(variants)[i]) != Same(KeysOf(variants)[j]) {
      assert VariantKey(variants[i]) != VariantKey(variants[j]);
    }
    SortForgetsOrder(KeysOf(variants), KeysOf(variants'), Same);
    assert |KeysOf(Ordered(variants))| == |Ordered(variants)|;
  }

  /** The buckets whose users are served another variant after a reweighting. */
  function Reassigned(variants: seq<VariantSpec>, variants': seq<VariantSpec>): set<int>
    requires variants != [] && variants' != []
  {
    set b | 0 <= b < BUCKETS && VariantAt(variants, b).key != VariantAt(variants', b).key
  }

  lemma ReassignedIsMoved(variants: seq<VariantSpec>, variants': seq<VariantSpec>)
    requires WellWeighted(variants) && WellWeighted(variants') && SameKeys(variants, variants')
    ensures Reassigned(variants, variants') == Moved(Weights(Ordered(variants)), Weights(Ordered(variants')))
  {
    var vs, vs' := Ordered(variants), Ordered(variants');
    OrderedFacts(variants);
    OrderedFacts(variants');
    SameKeysAlign(variants, variants');
    forall b: nat | b < BUCKETS
      ensures VariantAt(variants, b).key != VariantAt(variants', b).key
              <==> BandOf(Weights(vs), b) != BandOf(Weights(vs'), b)
    {
      var r, r' := BandOf(Weights(vs), b), BandOf(Weights(vs'), b);
      assert KeysOf(vs)[r'] == KeysOf(vs')[r'];
      assert VariantKey(vs[r]) == VariantKey(vs[r']) <==> r == r';
    }
  }

  lemma SweptBuckets(ws: seq<int>, ws': seq<int>)
    requires |ws| == |ws'| > 0 && NonNegative(ws) && NonNegative(ws') && Sum(ws) > 0 && Sum(ws') > 0
    ensures forall b :: 0 <= b < BUCKETS ==>
              (b in Moved(ws, ws') <==> exists i :: 1 <= i < |ws| && b in Swept(ws, ws', i))
  {
    forall b | 0 <= b < BUCKETS
      ensures b in Moved(ws, ws') <==> exists i :: 1 <= i < |ws| && b in Swept(ws, ws', i)
    {
      MovedIffSwept(ws, ws', b);
    }
  }

  /**
   Reweighting moves a bucket exactly when some cumulative boundary sweeps over it, and so
   at most 100 buckets per point that the boundaries travel.
   */
  lemma ReweightingIsBounded(variants: seq<VariantSpec>, variants': seq<VariantSpec>)
    requires WellWeighted(variants) && WellWeighted(variants') && SameKeys(variants, variants')
    requires Sum(Weights(Ordered(variants))) == 100 && Sum(Weights(Ordered(variants'))) == 100
    ensures
      var ws, ws' := Weights(Ordered(variants)), Weights(Ordered(variants'));
      && |ws| == |ws'|
      && |Reassigned(variants, variants')| <= 100 * Drift(ws, ws', |ws|)
      && forall b :: 0 <= b < BUCKETS ==>
           (b in Reassigned(variants, variants') <==> exists i :: 1 <= i < |ws| && b in Swept(ws, ws', i))
  {
    OrderedFacts(variants);
    OrderedFacts(variants');
    SameKeysAlign(variants, variants');
    ReassignedIsMoved(variants, variants');
    ReshuffleIsBounded(Weights(Ordered(variants)), Weights(Ordered(variants')));
    SweptBuckets(Weights(Ordered(variants)), Weights(Ordered(variants')));
  }

  // ---- Rollout -------------------------------------------------------------------------------

  /** A user served at p percent is served the identical evaluation at every q >= p. */
  lemma GrowingARollout(md5: Digest, flag: FlagSpec, p: int, q: int, userId: string, context: Context)
    requires p <= q
    requires Evaluate(md5, flag.(rolloutPercentage := p), userId, context).enabled
    ensures Evaluate(md5, flag.(rolloutPercentage := q), userId, context)
         == Evaluate(md5, flag.(rolloutPercentage := p), userId, context)
  {
    var atP, atQ := flag.(rolloutPercentage := p), flag.(rolloutPercentage := q);
    assert Choose(md5, atP, userId) == Choose(md5, atQ, userId);
    assert InRollout(md5, flag.key, userId, p) ==> InRollout(md5, flag.key, userId, q);
  }

  // ---- Operators -----------------------------------------------------------------------------

  predicate Matches(operator: string, attribute: string, values: seq<string>, context: Context) {
    RuleMatches(RuleSpec(attribute, operator, values, None), context)
  }

  /**
   How the four operators relate: "in" is "eq" against one of the values, the negated forms are
   complements on contexts that carry the attribute, and no operator matches one that does not.
   */
  lemma OperatorsRelate(attribute: string, values: seq<string>, context: Context)
    ensures Matches("in", attribute, values, context)
            <==> exists i :: 0 <= i < |values| && Matches("eq", attribute, [values[i]], context)
    ensures Matches("not_in", attribute, values, context)
            <==> attribute in context && !Matches("in", attribute, values, context)
    ensures Matches("neq", attribute, values, context)
            <==> attribute in context && values != [] && !Matches("eq", attribute, values, context)
    ensures forall operator :: Matches(operator, attribute, values, context) ==>
              attribute in context && operator in {"in", "not_in", "eq", "neq"}
  {
    assert "in"[0] == 'i' && "not_in"[2] == 't' && "eq"[0] == 'e' && "neq"[2] == 'q';
    if Matches("in", attribute, values, context) {
      var i := IndexOf(context[attribute], values);
      assert Matches("eq", attribute, [values[i]], context);
    }
  }

  // ---- Precedence ----------------------------------------------------------------------------

  ghost predicate SomeRuleMatches(flag: FlagSpec, context: Context) {
    exists i :: 0 <= i < |flag.rules| && RuleMatches(flag.rules[i], context)
  }

  /** The reason names the deciding step, and the steps are tried in this order. */
  lemma ReasonTellsWhy(md5: Digest, flag: FlagSpec, userId: string, context: Context)
    ensures
      var e := Evaluate(md5, flag, userId, context);
      var matched := SomeRuleMatches(flag, context);
      var included := InRollout(md5, flag.key, userId, flag.rolloutPercentage);
      && (e.reason == "flag_disabled" <==> !flag.enabled)
      && (e.reason == "targeting_match" <==> flag.enabled && matched)
      && (e.reason == "rollout_included" <==> flag.enabled && !matched && included)
      && (e.reason == "rollout_excluded" <==> flag.enabled && !matched && !included)
      && (e.enabled <==> flag.enabled && (matched || included))
  {
    var e := Evaluate(md5, flag, userId, context);
    assert "flag_disabled"[0] == 'f' && "targeting_match"[0] == 't';
    assert "rollout_included"[8] == 'i' && "rollout_excluded"[8] == 'e' && "rollout_included"[0] == 'r';
    assert SomeRuleMatches(flag, context) <==> FirstMatch(flag.rules, context).Some?;
  }

  /** An active multivariate evaluation serves one of the flag's variants, with its value. */
  lemma ActiveMeansServed(md5: Digest, flag: FlagSpec, userId: string, context: Context)
    requires flag.variants != [] && Evaluate(md5, flag, userId, context).enabled
    ensures
      var e := Evaluate(md5, flag, userId, context);
      exists v :: v in flag.variants && e.variant == Some(v.key) && e.value == v.value
  {
    var e := Evaluate(md5, flag, userId, context);
    var chosen := Choose(md5, flag, userId);
    match FirstMatch(flag.rules, context)
    case Some(rule) =>
      var served := FindVariant(flag.variants, rule.variant);
      assert e.value == (if served.Some? then served.value else chosen.value).value;
    case None =>
      assert chosen.value in flag.variants && e.value == chosen.value.value;
  }

  /** Entry k is the first with this key. */
  ghost predicate FirstNamed(variants: seq<VariantSpec>, k: int, key: string) {
    0 <= k < |variants| && variants[k].key == key && forall j :: 0 <= j < k ==> variants[j].key != key
  }

  lemma {:induction false} FindFirstNamed(variants: seq<VariantSpec>, k: int, key: string)
    requires FirstNamed(variants, k, key)
    ensures FindVariant(variants, Some(key)) == Some(variants[k])
  {
    if k > 0 {
      assert variants[0].key != key;
      assert variants[1..][k - 1] == variants[k];
      FindFirstNamed(variants[1..], k - 1, key);
    }
  }

  /**
   The first matching rule decides, on any specification at all. A pin that names a variant
   serves exactly that one, the first of them if a stale specification repeats the key; a
   dangling pin serves exactly what the weighted distribution would.
   */
  lemma PinnedRule(md5: Digest, flag: FlagSpec, userId: string, context: Context, i: nat)
    requires flag.enabled && i < |flag.rules| && RuleMatches(flag.rules[i], context)
    requires forall j :: 0 <= j < i ==> !RuleMatches(flag.rules[j], context)
    ensures
      var e, pin := Evaluate(md5, flag, userId, context), flag.rules[i].variant;
      && (forall k :: pin.Some? && FirstNamed(flag.variants, k, pin.value) ==>
            e == Evaluation(true, "targeting_match", pin, flag.variants[k].value))
      && ((forall v :: v in flag.variants ==> pin != Some(v.key)) ==>
            e == Served(md5, flag, userId, "targeting_match"))
  {
    var e, pin := Evaluate(md5, flag, userId, context), flag.rules[i].variant;
    assert FirstMatch(flag.rules, context) == Some(flag.rules[i]) by {
      var r := FirstMatch(flag.rules, context);
      var k :| 0 <= k < |flag.rules| && flag.rules[k] == r.value && RuleMatches(flag.rules[k], context)
               && forall j :: 0 <= j < k ==> !RuleMatches(flag.rules[j], context);
      assert k == i;
    }
    forall k | pin.Some? && FirstNamed(flag.variants, k, pin.value)
      ensures e == Evaluation(true, "targeting_match", pin, flag.variants[k].value)
    {
      FindFirstNamed(flag.variants, k, pin.value);
    }
  }
}
