/** The flag-evaluation engine: what a flag serves a user, and why. */
module Engine {
  import opened Wrappers
  import opened Ordering
  import opened Bands

  /** A JSON value carried by a variant. The engine never inspects it. */
  datatype Value =
    | Null
    | Bool(b: bool)
    | Int(i: int)
    | Float(r: real)
    | Str(s: string)
    | List(items: seq<Value>)
    | Dict(fields: map<string, Value>)

  datatype RuleSpec = RuleSpec(attribute: string, operator: string, values: seq<string>, variant: Option<string>)

  datatype VariantSpec = VariantSpec(key: string, value: Value, weight: int)

  datatype FlagSpec = FlagSpec(
    key: string,
    enabled: bool,
    rolloutPercentage: int,
    rules: seq<RuleSpec>,
    variants: seq<VariantSpec>,
    offVariant: Option<string>)

  datatype Evaluation = Evaluation(enabled: bool, reason: string, variant: Option<string>, value: Value)

  type Context = map<string, string>

  /**
   The leading 32 bits of a digest. MD5 itself is not modelled: every function and every
   theorem below takes an arbitrary digest.
   */
  type Digest = string -> nat

  const VARIANT_SALT := "variant"

  // ---- Bucketing -----------------------------------------------------------------------

  /** The hashed text: flag key, salt and user id, joined by NUL. */
  function Material(flagKey: string, salt: string, userId: string): string {
    flagKey + ['\0'] + salt + ['\0'] + userId
  }

  function BucketFor(md5: Digest, flagKey: string, userId: string, salt: string): (b: nat)
    ensures b < BUCKETS
  {
    md5(Material(flagKey, salt, userId)) % BUCKETS
  }

  /** A NUL-free prefix is recovered from the text before the first NUL. */
  lemma {:induction false} FirstFieldIsRecovered(a: string, a': string, rest: string, rest': string)
    requires '\0' !in a && '\0' !in a'
    requires a + ['\0'] + rest == a' + ['\0'] + rest'
    ensures a == a' && rest == rest'
  {
    var whole := a + ['\0'] + rest;
    assert whole[|a|] == '\0' && whole[|a'|] == '\0';
    assert forall i :: 0 <= i < |a| ==> whole[i] == a[i];
    assert forall i :: 0 <= i < |a'| ==> whole[i] == a'[i];
    assert a == whole[..|a|] && a' == whole[..|a'|];
    assert rest == whole[|a| + 1..] && rest' == whole[|a'| + 1..];
  }

  /**
   Distinct (flag, salt, user) triples are hashed from distinct text, for flag keys and
   salts without NUL and any user id.
   */
  lemma MaterialIsInjective(k: string, s: string, u: string, k': string, s': string, u': string)
    requires '\0' !in k && '\0' !in k' && '\0' !in s && '\0' !in s'
    ensures Material(k, s, u) == Material(k', s', u') <==> (k, s, u) == (k', s', u')
  {
    if Material(k, s, u) == Material(k', s', u') {
      assert Material(k, s, u) == k + ['\0'] + (s + ['\0'] + u);
      assert Material(k', s', u') == k' + ['\0'] + (s' + ['\0'] + u');
      FirstFieldIsRecovered(k, k', s + ['\0'] + u, s' + ['\0'] + u');
      FirstFieldIsRecovered(s, s', u, u');
    }
  }

  /** The rollout decision and the variant choice never hash the same text. */
  lemma SaltsNeverShareMaterial(k: string, u: string, k': string, u': string)
    requires '\0' !in k && '\0' !in k'
    ensures Material(k, "", u) != Material(k', VARIANT_SALT, u')
  {
    MaterialIsInjective(k, "", u, k', VARIANT_SALT, u');
  }

  // ---- Targeting and rollout -------------------------------------------------------------

  predicate RuleMatches(rule: RuleSpec, context: Context) {
    rule.attribute in context &&
    var actual := context[rule.attribute];
    if rule.operator == "in" then actual in rule.values
    else if rule.operator == "not_in" then actual !in rule.values
    else if rule.operator == "eq" then rule.values != [] && actual == rule.values[0]
    else if rule.operator == "neq" then rule.values != [] && actual != rule.values[0]
    else false
  }

  predicate InRollout(md5: Digest, flagKey: string, userId: string, percentage: int) {
    if percentage <= 0 then false
    else if percentage >= 100 then true
    else BucketFor(md5, flagKey, userId, "") < percentage * (BUCKETS / 100)
  }

  /** The buckets a rollout percentage admits. */
  function AdmittedBuckets(percentage: int): set<int> {
    Range(0, if percentage <= 0 then 0 else if percentage >= 100 then BUCKETS else percentage * (BUCKETS / 100))
  }

  /** A rollout at p percent admits exactly 100 * p buckets, whoever the users are. */
  lemma RolloutAdmits(md5: Digest, flagKey: string, userId: string, p: int)
    ensures InRollout(md5, flagKey, userId, p) <==> BucketFor(md5, flagKey, userId, "") in AdmittedBuckets(p)
    ensures 0 <= p <= 100 ==> |AdmittedBuckets(p)| == 100 * p
  {
    RangeSize(0, if p <= 0 then 0 else if p >= 100 then BUCKETS else p * (BUCKETS / 100));
  }

  // ---- Variants ----------------------------------------------------------------------------

  function VariantKey(v: VariantSpec): string { v.key }

  function Weight(v: VariantSpec): int { v.weight }

  /** Variants in key order. */
  function Ordered(variants: seq<VariantSpec>): seq<VariantSpec> {
    SortBy(variants, VariantKey)
  }

  function Weights(variants: seq<VariantSpec>): seq<int> {
    MapSeq(Weight, variants)
  }

  lemma OrderedLength(variants: seq<VariantSpec>)
    ensures |Ordered(variants)| == |variants|
  {
    SortIsSortedPermutation(variants, VariantKey);
  }

  /** The first variant with the given key, if a key is given. */
  function FindVariant(variants: seq<VariantSpec>, key: Option<string>): (r: Option<VariantSpec>)
    ensures r.Some? ==> r.value in variants && key == Some(r.value.key)
    ensures r.None? ==> key.None? || forall v :: v in variants ==> v.key != key.value
  {
    if key.None? || variants == [] then None
    else if variants[0].key == key.value then Some(variants[0])
    else FindVariant(variants[1..], key)
  }

  /** The variant a bucket of the variant hash is served. */
  function VariantAt(variants: seq<VariantSpec>, bucket: nat): (r: VariantSpec)
    requires variants != [] && bucket < BUCKETS
    ensures r in variants
  {
    SortIsSortedPermutation(variants, VariantKey);
    SameMembers(variants, Ordered(variants));
    var ordered := Ordered(variants);
    if Sum(Weights(ordered)) <= 0 then ordered[0]
    else ordered[BandOf(Weights(ordered), bucket)]
  }

  /** The weighted, sticky choice: None exactly on a boolean flag. */
  function Choose(md5: Digest, flag: FlagSpec, userId: string): (r: Option<VariantSpec>)
    ensures r.None? <==> flag.variants == []
    ensures r.Some? ==> r.value in flag.variants
  {
    if flag.variants == [] then None
    else Some(VariantAt(flag.variants, BucketFor(md5, flag.key, userId, VARIANT_SALT)))
  }

  lemma WeightsUpto(vs: seq<VariantSpec>, i: nat)
    requires i < |vs|
    ensures Upto(Weights(vs), i + 1) == Upto(Weights(vs), i) + vs[i].weight
  {
    UptoStep(Weights(vs), i);
  }

  /**
   The walk over the variants in key order. It returns inside the loop whenever the total
   weight is positive: the statement after the loop is never reached.
   */
  method ChooseVariant(md5: Digest, flag: FlagSpec, userId: string) returns (r: Option<VariantSpec>)
    ensures r == Choose(md5, flag, userId)
  {
    if flag.variants == [] {
      return None;
    }
    OrderedLength(flag.variants);
    var ordered := Ordered(flag.variants);
    ghost var ws := Weights(ordered);
    var total := Sum(Weights(ordered));
    if total <= 0 {
      return Some(ordered[0]);
    }
    var bucket := BucketFor(md5, flag.key, userId, VARIANT_SALT);
    var cumulative := 0;
    for i := 0 to |ordered|
      invariant cumulative == Upto(ws, i)
      invariant i <= BandOf(ws, bucket)
    {
      WeightsUpto(ordered, i);
      cumulative := cumulative + ordered[i].weight;
      BandIsFirstBelow(ws, bucket, i);
      if bucket * total < cumulative * BUCKETS {
        return Some(ordered[i]);
      }
    }
    assert false;
  }

  /**
   The same walk in the source's floating point: the position is a rounded quotient, and the
   cumulative weight is rounded after every addition. It serves what the exact walk serves, and
   never falls off the end, for any rounding like binary64's and any total up to 900 billion.
   */
  method ChooseVariantInFloats(md5: Digest, round: real -> real, flag: FlagSpec, userId: string)
    returns (r: Option<VariantSpec>)
    requires RoundsLikeBinary64(round)
    requires forall v :: v in flag.variants ==> v.weight >= 0
    requires Sum(Weights(Ordered(flag.variants))) <= TOTAL_LIMIT
    ensures r == Choose(md5, flag, userId)
  {
    if flag.variants == [] {
      return None;
    }
    OrderedLength(flag.variants);
    var ordered := Ordered(flag.variants);
    ghost var ws := Weights(ordered);
    OrderedNonNegative(flag.variants);
    var total := Sum(Weights(ordered));
    if total <= 0 {
      return Some(ordered[0]);
    }
    var bucket := BucketFor(md5, flag.key, userId, VARIANT_SALT);
    var position := round((bucket * total) as real / BUCKETS as real);
    var cumulative := 0.0;
    for i := 0 to |ordered|
      invariant cumulative == Upto(ws, i) as real
      invariant i <= BandOf(ws, bucket)
    {
      WeightsUpto(ordered, i);
      UptoWithin(ws, i + 1);
      assert KeepsWhole(round, Upto(ws, i + 1));
      cumulative := round(cumulative + ordered[i].weight as real);
      BandIsFirstBelow(ws, bucket, i);
      RoundedComparisonIsExact(round, bucket, total, Upto(ws, i + 1));
      if position < cumulative {
        return Some(ordered[i]);
      }
    }
    assert false;
  }

  lemma OrderedNonNegative(variants: seq<VariantSpec>)
    requires forall v :: v in variants ==> v.weight >= 0
    ensures NonNegative(Weights(Ordered(variants)))
  {
    SortIsSortedPermutation(variants, VariantKey);
    SameMembers(variants, Ordered(variants));
    forall i | 0 <= i < |Ordered(variants)| ensures Weights(Ordered(variants))[i] >= 0 {
      assert Ordered(variants)[i] in Ordered(variants);
    }
  }

  lemma UptoWithin(ws: seq<int>, i: nat)
    requires NonNegative(ws) && i <= |ws|
    ensures 0 <= Upto(ws, i) <= Sum(ws)
  {
    UptoAll(ws);
    UptoMonotone(ws, 0, i);
    UptoMonotone(ws, i, |ws|);
  }

  /** The walk stops at the band of the bucket: not before it, and not after it. */
  lemma BandIsFirstBelow(ws: seq<int>, b: nat, i: nat)
    requires ws != [] && Sum(ws) > 0 && b < BUCKETS && i <= BandOf(ws, b)
    ensures b * Sum(ws) < Upto(ws, i + 1) * BUCKETS <==> i == BandOf(ws, b)
  {
    assert Below(ws, b, i) <==> i == BandOf(ws, b);
  }

  // ---- Evaluation --------------------------------------------------------------------------

  function OffResult(flag: FlagSpec, reason: string): Evaluation {
    match FindVariant(flag.variants, flag.offVariant)
    case None => Evaluation(false, reason, None, Null)
    case Some(off) => Evaluation(false, reason, Some(off.key), off.value)
  }

  /** Served from the weighted distribution, or plainly on for a boolean flag. */
  function Served(md5: Digest, flag: FlagSpec, userId: string, reason: string): Evaluation {
    match Choose(md5, flag, userId)
    case None => Evaluation(true, reason, None, Null)
    case Some(chosen) => Evaluation(true, reason, Some(chosen.key), chosen.value)
  }

  /** The first rule the context satisfies. */
  function FirstMatch(rules: seq<RuleSpec>, context: Context): (r: Option<RuleSpec>)
    ensures r.None? <==> forall i :: 0 <= i < |rules| ==> !RuleMatches(rules[i], context)
    ensures r.Some? ==> exists i :: 0 <= i < |rules| && rules[i] == r.value && RuleMatches(rules[i], context)
                                    && forall j :: 0 <= j < i ==> !RuleMatches(rules[j], context)
  {
    if rules == [] then None
    else if RuleMatches(rules[0], context) then Some(rules[0])
    else
      var r := FirstMatch(rules[1..], context);
      assert forall i :: 0 < i < |rules| ==> rules[i] == rules[1..][i - 1];
      assert r.Some? ==> exists i :: 0 <= i < |rules| && rules[i] == r.value && RuleMatches(rules[i], context)
                                     && forall j :: 0 <= j < i ==> !RuleMatches(rules[j], context) by {
        if r.Some? {
          var i :| 0 <= i < |rules[1..]| && rules[1..][i] == r.value && RuleMatches(rules[1..][i], context)
                   && forall j :: 0 <= j < i ==> !RuleMatches(rules[1..][j], context);
          assert rules[i + 1] == r.value;
        }
      }
      r
  }

  function OnMatch(md5: Digest, flag: FlagSpec, userId: string, rule: RuleSpec): Evaluation {
    match FindVariant(flag.variants, rule.variant)
    case Some(pinned) => Evaluation(true, "targeting_match", Some(pinned.key), pinned.value)
    case None => Served(md5, flag, userId, "targeting_match")
  }

  function Evaluate(md5: Digest, flag: FlagSpec, userId: string, context: Context): Evaluation {
    if !flag.enabled then OffResult(flag, "flag_disabled")
    else
      match FirstMatch(flag.rules, context)
      case Some(rule) => OnMatch(md5, flag, userId, rule)
      case None =>
        if InRollout(md5, flag.key, userId, flag.rolloutPercentage)
        then Served(md5, flag, userId, "rollout_included")
        else OffResult(flag, "rollout_excluded")
  }

  /** The walk over the rules, with an early return at the first match. */
  method EvaluateFlag(md5: Digest, flag: FlagSpec, userId: string, context: Context) returns (r: Evaluation)
    ensures r == Evaluate(md5, flag, userId, context)
  {
    if !flag.enabled {
      return OffResult(flag, "flag_disabled");
    }
    for i := 0 to |flag.rules|
      invariant FirstMatch(flag.rules, context) == FirstMatch(flag.rules[i..], context)
    {
      if !RuleMatches(flag.rules[i], context) {
        assert flag.rules[i..][1..] == flag.rules[i + 1..];
        continue;
      }
      var pinned := FindVariant(flag.variants, flag.rules[i].variant);
      if pinned.Some? {
        return Evaluation(true, "targeting_match", Some(pinned.value.key), pinned.value.value);
      }
      if flag.variants != [] {
        var chosen := ChooseVariant(md5, flag, userId);
        return Evaluation(true, "targeting_match", Some(chosen.value.key), chosen.value.value);
      }
      return Evaluation(true, "targeting_match", None, Null);
    }
    if InRollout(md5, flag.key, userId, flag.rolloutPercentage) {
      if flag.variants != [] {
        var chosen := ChooseVariant(md5, flag, userId);
        return Evaluation(true, "rollout_included", Some(chosen.value.key), chosen.value.value);
      }
      return Evaluation(true, "rollout_included", None, Null);
    }
    return OffResult(flag, "rollout_excluded");
  }
}
