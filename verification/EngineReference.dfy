/**
 The engine against its inputs: which text a bucket depends on, which contexts a rule admits, and
 which key comes first, each seen through what the engine answers.
 */
module EngineReference {
  import opened Wrappers
  import opened Ordering
  import opened Bands
  import opened Engine
  import opened Reordering

  // ---- Buckets ---------------------------------------------------------------------------------------

  /** Two different texts can hash into any two buckets. */
  lemma AnyTwoBuckets(k: string, u: string, s: string, k': string, u': string, s': string, b: nat, c: nat)
    returns (md5: Digest)
    requires '\0' !in k && '\0' !in k' && '\0' !in s && '\0' !in s' && b < BUCKETS && c < BUCKETS
    requires (k, u, s) != (k', u', s')
    ensures BucketFor(md5, k, u, s) == b && BucketFor(md5, k', u', s') == c
  {
    MaterialIsInjective(k, s, u, k', s', u');
    var first := Material(k, s, u);
    md5 := (text: string) => if text == first then b else c;
  }

  /**
   A bucket belongs to its flag, user and salt: two triples share a bucket under every digest if and
   only if they are the same triple.
   */
  lemma BucketTellsTriple(k: string, u: string, s: string, k': string, u': string, s': string)
    requires '\0' !in k && '\0' !in k' && '\0' !in s && '\0' !in s'
    ensures (forall md5 :: BucketFor(md5, k, u, s) == BucketFor(md5, k', u', s')) <==> (k, u, s) == (k', u', s')
  {
    if (k, u, s) != (k', u', s') {
      var md5 := AnyTwoBuckets(k, u, s, k', u', s', 0, 1);
    }
  }

  /** A flag that is on, targets nobody and is rolled out to p percent. */
  predicate Untargeted(flag: FlagSpec) {
    flag.enabled && flag.rules == []
  }

  /** What the rollout hashes: the flag key and the user id, two NULs between them. */
  function PlainText(flagKey: string, userId: string): string {
    flagKey + ['\0', '\0'] + userId
  }

  /** What the variant choice hashes: the same with its salt between the NULs. */
  function SaltedText(flagKey: string, userId: string): string {
    flagKey + ['\0', 'v', 'a', 'r', 'i', 'a', 'n', 't', '\0'] + userId
  }

  lemma TextsHashed(md5: Digest, flagKey: string, userId: string)
    ensures BucketFor(md5, flagKey, userId, "") == md5(PlainText(flagKey, userId)) % 10000
    ensures BucketFor(md5, flagKey, userId, VARIANT_SALT) == md5(SaltedText(flagKey, userId)) % 10000
  {
    assert Material(flagKey, "", userId) == PlainText(flagKey, userId);
    assert Material(flagKey, VARIANT_SALT, userId) == SaltedText(flagKey, userId);
  }

  /** The rollout, in one inequality: of the 10,000 buckets the lowest 100 p are in, whatever p is. */
  lemma RolloutExactly(md5: Digest, flag: FlagSpec, userId: string, context: Context)
    requires Untargeted(flag)
    ensures Evaluate(md5, flag, userId, context).enabled
       <==> md5(PlainText(flag.key, userId)) % 10000 < 100 * flag.rolloutPercentage
  {
    TextsHashed(md5, flag.key, userId);
  }

  /** What an evaluation shows of the variant it serves. */
  function SightIn(e: Evaluation): Option<Sight> {
    if e.variant.Some? then Some(Sight(e.variant.value, e.value)) else None
  }

  /** A user in the rollout is served what the bucket of the salted text is served. */
  lemma VariantExactly(md5: Digest, flag: FlagSpec, userId: string, context: Context)
    requires Untargeted(flag) && Evaluate(md5, flag, userId, context).enabled
    ensures SightIn(Evaluate(md5, flag, userId, context))
         == Choice(flag.variants, md5(SaltedText(flag.key, userId)) % 10000)
  {
    TextsHashed(md5, flag.key, userId);
  }

  /** Between 0 and 100 percent, no two users are tied together: one can be in and the other out. */
  lemma RolloutTellsUsersApart(flag: FlagSpec, u: string, v: string, context: Context) returns (md5: Digest)
    requires Untargeted(flag) && 0 < flag.rolloutPercentage < 100 && '\0' !in flag.key && u != v
    ensures Evaluate(md5, flag, u, context).enabled && !Evaluate(md5, flag, v, context).enabled
  {
    md5 := AnyTwoBuckets(flag.key, u, "", flag.key, v, "", 0, BUCKETS - 1);
  }

  /** Nor are two users' variants: each can be served what any bucket is served. */
  lemma VariantsTellUsersApart(flag: FlagSpec, u: string, v: string, context: Context, b: nat, c: nat)
    returns (md5: Digest)
    requires Untargeted(flag) && flag.rolloutPercentage >= 100 && '\0' !in flag.key && u != v
    requires b < BUCKETS && c < BUCKETS
    ensures SightIn(Evaluate(md5, flag, u, context)) == Choice(flag.variants, b)
    ensures SightIn(Evaluate(md5, flag, v, context)) == Choice(flag.variants, c)
  {
    md5 := AnyTwoBuckets(flag.key, u, VARIANT_SALT, flag.key, v, VARIANT_SALT, b, c);
  }

  /** Whether a user is in the rollout says nothing about the variant: any two buckets go together. */
  lemma RolloutAndVariantAreIndependent(flag: FlagSpec, userId: string, context: Context, a: nat, b: nat)
    returns (md5: Digest)
    requires Untargeted(flag) && '\0' !in flag.key && a < BUCKETS && b < BUCKETS
    ensures Evaluate(md5, flag, userId, context).enabled <==> a < 100 * flag.rolloutPercentage
    ensures a < 100 * flag.rolloutPercentage ==>
              SightIn(Evaluate(md5, flag, userId, context)) == Choice(flag.variants, b)
  {
    md5 := AnyTwoBuckets(flag.key, userId, "", flag.key, userId, VARIANT_SALT, a, b);
  }

  /** Whatever the flag and the context, the digest matters at those two texts only, modulo 10,000. */
  lemma DigestIsReadTwice(md5: Digest, md5': Digest, flag: FlagSpec, userId: string, context: Context)
    requires md5(PlainText(flag.key, userId)) % 10000 == md5'(PlainText(flag.key, userId)) % 10000
    requires md5(SaltedText(flag.key, userId)) % 10000 == md5'(SaltedText(flag.key, userId)) % 10000
    ensures Evaluate(md5, flag, userId, context) == Evaluate(md5', flag, userId, context)
  {
    TextsHashed(md5, flag.key, userId);
    TextsHashed(md5', flag.key, userId);
  }

  // ---- Rules -----------------------------------------------------------------------------------------

  /** A flag that is on only for those its one rule admits. */
  predicate OnlyTargets(flag: FlagSpec, attribute: string, operator: string, values: seq<string>) {
    && flag.enabled && flag.rolloutPercentage <= 0 && |flag.rules| == 1
    && flag.rules[0].attribute == attribute && flag.rules[0].operator == operator && flag.rules[0].values == values
  }

  /**
   Whom a rule admits: those whose context carries the attribute with one of the values, with none of
   them, with the first, with another than the first; nobody by any other operator.
   */
  lemma RuleAdmitsExactly(md5: Digest, flag: FlagSpec, attribute: string, operator: string, values: seq<string>,
                          userId: string, context: Context)
    requires OnlyTargets(flag, attribute, operator, values)
    ensures
      var on := Evaluate(md5, flag, userId, context).enabled;
      && (attribute !in context ==> !on)
      && (attribute in context ==>
            var actual := context[attribute];
            && (operator == "in" ==> (on <==> exists i :: 0 <= i < |values| && values[i] == actual))
            && (operator == "not_in" ==> (on <==> forall i :: 0 <= i < |values| ==> values[i] != actual))
            && (operator == "eq" ==> (on <==> values != [] && values[0] == actual))
            && (operator == "neq" ==> (on <==> values != [] && values[0] != actual))
            && (operator !in {"in", "not_in", "eq", "neq"} ==> !on))
  {
    OneRule(flag.rules, context);
  }

  lemma OneRule(rules: seq<RuleSpec>, context: Context)
    requires |rules| == 1
    ensures FirstMatch(rules, context).Some? <==> RuleMatches(rules[0], context)
  {
  }

  // ---- Key order -------------------------------------------------------------------------------------

  /** Keys are compared by code points: a prefix comes first, else the smaller first different character. */
  lemma {:induction false} KeysCompareByCodePoints(a: string, b: string)
    ensures LexLe(a, b)
       <==> a <= b || exists i :: 0 <= i < |a| && i < |b| && a[..i] == b[..i] && a[i] < b[i]
  {
    if a != [] && b != [] {
      if a[0] == b[0] {
        KeysCompareByCodePoints(a[1..], b[1..]);
        SharedHead(a, b);
      } else if a[0] < b[0] {
        assert a[..0] == b[..0];
      } else {
        assert forall i :: 0 < i < |a| && i < |b| ==> a[..i][0] == a[0] && b[..i][0] == b[0];
      }
    }
  }

  lemma SharedHead(a: string, b: string)
    requires a != [] && b != [] && a[0] == b[0]
    ensures a[1..] <= b[1..] <==> a <= b
    ensures (exists i :: 0 <= i < |a[1..]| && i < |b[1..]| && a[1..][..i] == b[1..][..i] && a[1..][i] < b[1..][i])
       <==> exists i :: 0 <= i < |a| && i < |b| && a[..i] == b[..i] && a[i] < b[i]
  {
    if i :| 0 <= i < |a[1..]| && i < |b[1..]| && a[1..][..i] == b[1..][..i] && a[1..][i] < b[1..][i] {
      assert a[..i + 1] == [a[0]] + a[1..][..i] && b[..i + 1] == [b[0]] + b[1..][..i];
      assert a[i + 1] < b[i + 1];
    }
    if i :| 0 <= i < |a| && i < |b| && a[..i] == b[..i] && a[i] < b[i] {
      assert i > 0 && a[1..][..i - 1] == a[..i][1..] && b[1..][..i - 1] == b[..i][1..];
      assert a[1..][i - 1] < b[1..][i - 1];
    }
    assert a == [a[0]] + a[1..] && b == [b[0]] + b[1..];
  }

  /** Without any weight everybody is served the least key. */
  lemma NoWeightServesLeastKey(vs: seq<VariantSpec>, b: nat)
    requires vs != [] && b < BUCKETS && Sum(Weights(Ordered(vs))) <= 0
    ensures VariantAt(vs, b) in vs && forall v :: v in vs ==> LexLe(VariantAt(vs, b).key, v.key)
  {
    SortIsSortedPermutation(vs, VariantKey);
    SameMembers(vs, Ordered(vs));
    forall v | v in vs ensures LexLe(VariantAt(vs, b).key, v.key) {
      var i := IndexOf(v, Ordered(vs));
      LexTotal(v.key, v.key);
      assert VariantKey(Ordered(vs)[0]) == VariantAt(vs, b).key && VariantKey(Ordered(vs)[i]) == v.key;
    }
  }
}
