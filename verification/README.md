# Ripcord: a model of the flag service, with proofs

Ripcord is a feature-flag service. Postgres holds the flags, a Redis hash caches them one
field per flag, an engine decides what a flag serves a user, and an SDK keeps its own copy of
the ruleset and follows a change stream. This project models those parts and proves what they
promise, over every input, every interleaving and every reachable state.

`dafny verify dfyconfig.toml` checks all of it.

## How the pieces fit

**The engine** (`Bands`, `Engine`, `EngineLaws`, `EngineReference`, `Reordering`). The choice of a variant is a
loop, proved equal to a band specification over 10,000 buckets. The digest is a parameter of every function
and theorem. `EngineReference` says of the answers themselves what they depend on: which two texts are hashed,
which contexts a rule admits, which key comes first. Bands are compared by cross-multiplication. The source divides and adds floats; a second
method walks the variants in its arithmetic, over any rounding that does what binary64's does, and
is proved to serve the same variant for every total up to 900 billion.

**The store** (`Schemas`, `SchemaLaws`, `Models`, `Store`, `StoreLaws`, `Sessions`, `RowIds`, `FlagLaws`, `ModelLaws`,
`FlagObject`, `Asked`, `AskedEvaluation`).
Sessions read a flag, check a PATCH against the state it would leave behind, and later commit
with a guard on (row id, version). `Store` interleaves any number of them. `FlagObject` is the
session's mutable flag: variant rows are objects that are removed, appended and edited in place,
and the methods are proved to compute the pure patch that `Store` commits. `Asked` ties what is stored to
the requests, column by column over a flag's life, and `AskedEvaluation` ties what is served to them,
condition by condition.

**The cache** (`Payload`, `Redis`, `Protocol`, `Freshness`, `FreshnessKept`, `Reachable`,
`CacheLaws`, `Refinement`, `Healing`, `Requests`, `Availability`, `BadTraces`, `Sequential`). `Redis` has the commands as functions on the
server's state and a class whose methods issue them. `Protocol` is a transition system over arbitrarily many sessions,
mutators and calls: every database statement, Redis command and Redis transaction is a step of its own,
Redis calls may fail, seconds pass, and the hash may be evicted at any moment. A snapshot is
three queries (flags, rules, variants), because that is what the ORM issues. A notify whose command
took effect before it failed is that step followed by the failure. Taken without interruption, the
steps are those methods (`Sequential`). `Protocol.Possible`
is what the program text allows; `Protocol.Assumed` is what the code relies on:

- a commit of a flag does not overlap a notify of the same flag that has yet to write its field
  (`BadTraces.OverlappingNotifies` shows why);
- rules are submitted by strictly increasing priority, as dashboard/components/RulesEditor.tsx:69
  does (`Payload.RequestOrderSurvivesReload` says exactly what this buys);
- a call whose epoch read failed does not then succeed in publishing (`BadTraces.UnfencedRebuild`);
- the epoch counter is never reset (`BadTraces.FlushDuringRebuild`);
- the evaluated key is not `__ruleset__`, which no stored flag can be called
  (`Redis.MarkerIsNoFlagKey`);
- the two commands of `read_flag`, sent in one pipeline without a transaction (cache.py:76), see one
  state: they are one step of the transition system. `BadTraces.SplitReadExactly` says on which pairs of
  states an answer split between them is one neither state gives, `BadTraces.SplitReadIsFresh` that over
  any run it is otherwise as fresh; a rebuild in between can make it deny a published flag
  (`BadTraces.SplitReadDeniesPublishedFlags`).

The proof idea: a value is *fresh for n* when each of its parts (row, rules, variants) is one the
flag had at its n-th commit or later. A state is fresh for n when the cached field, every rebuild
that the fence would still let publish, and every pending field write are. No step undoes that
(`FreshnessKept.FreshKept`), so a landed field write makes everything read afterwards at least that new.
Nothing weaker would do: a state from which every later answer is at least that new is fresh
(`Healing.FreshnessIsExact`).

**The SDK** (`Sdk`, `SdkLaws`, `SdkStream`). Refreshing, local evaluation, and the line machine of the
change stream, compared with the parser of section 9.2.6 of the WHATWG HTML Standard; then a whole
connection, from the changes published on the channel to what the client holds after its lines.

**Keys** (`Auth`, `AuthLaws`, `AuthReference`). The text form of a key; verification and revocation across server
processes, each with its own cache, with the lookup and the cache fill as separate steps. Theorems
that depend on how long a lookup takes carry a bound `lag`; with lookup and fill as one step it is 0.

## Where the code and its documentation disagree

- cache.py:43-45 and 155-158 say a lost notify self-heals through the hash's lifetime. It does unless a
  rebuild that read the database before the change is still under way: the missing bump lets it
  publish after the expiry, for a full lifetime (`BadTraces.LostBumpOutlivesExpiry`). With the field
  gone, later answers are all new enough if and only if every rebuild that could still be published
  read the flag as the change left it (`Healing.LostNotifyHeals`).
- cache.py:43-45 says this takes 300 seconds at most. A notify looks at the lifetime and sets it in two
  commands, so one that was under way, of any flag, may renew a lifetime that another has set since:
  after 300 seconds the stale field can still be there (`BadTraces.RenewedPastTheWindow`). 300 seconds
  heal the flag in every continuation if and only if, besides the rebuilds, its field is already new
  enough, or the hash has a lifetime and no notify is about to renew it, or exactly one is and the
  lifetime is in its last second (`Healing.HealsWithinTheLifetime`).
- A snapshot is three queries, so a commit in between can produce an answer the flag never had
  (`BadTraces.TornSnapshot`). The answer is the whole flag of one instant of the call if and only if the
  follow-up queries find the rules and variants the flag had together with the row that was read
  (`Refinement.AnswerIsAnInstantExactly`); commits that replace neither, the kill switch among them,
  never tear (`Refinement.PlainCommitsDoNotTear`).
- services.py:176-204 tests names for truthiness, so an empty-string pin or off variant is stored
  unchecked. `FlagLaws.StrictValidityExactly` says exactly when the strict invariant survives a patch.
- auth.py:30-32 says revocation is immediate in the process that handled it. Revoking an already
  revoked key is a no-op that does not drop that process's entry
  (`AuthLaws.SecondRevocationKeepsTheEntry`), and a lookup that read the row before the tombstone may
  still settle after the entry was dropped. `AuthLaws.GoneForGoodExactly` is the exact condition for any
  revocation, `AuthLaws.RevocationIsImmediate` what is left of it for the one that set the tombstone.
- client.py:163-169 refreshes once per data line, not once per event
  (`Sdk.WatchAgreesWithStandard` says on which streams that is the same).

## Model

| member | source | states |
|---|---|---|
| Ordering.SortForgetsOrder | ripcord/engine.py:173-176 | Sorting a list with distinct keys gives the same list whatever order it started in |
| Ordering.SortIsStable | ripcord/schemas.py:168-180 | Sorting by key keeps entries with equal keys in their relative order |
| Bands.ExactlyOneBand | ripcord/engine.py:183-194 | Every bucket lies between the edges of exactly one band, the one the walk finds |
| Bands.RoundedComparisonIsExact | ripcord/engine.py:183-192 | Under any rounding that keeps order and whole numbers up to 2^53 and is accurate to 2^-53, as binary64 is, the rounded position of a bucket compares with every cumulative weight as the exact one does, for totals up to 900 billion |
| Engine.MaterialIsInjective | ripcord/engine.py:111-121 | For flag keys and salts without NUL and any user id, hashed texts are equal exactly when all three parts are |
| Engine.SaltsNeverShareMaterial | ripcord/engine.py:111-121 | The rollout decision and the variant choice never hash the same text, even across flags |
| Engine.RolloutAdmits | ripcord/engine.py:145-157 | Between 0 and 100, p percent admits exactly 100 p buckets, and membership depends on the bucket alone |
| EngineReference.BucketTellsTriple | ripcord/engine.py:100-122 | For flag keys and salts without NUL, two triples of flag, user and salt share a bucket under every digest if and only if they are the same triple |
| EngineReference.AnyTwoBuckets | ripcord/engine.py:111-122 | Any two different triples can be put in any two buckets: users, flags and the two salts are all independent |
| EngineReference.RolloutExactly | ripcord/engine.py:145-157 | An enabled flag without rules is on for a user if and only if the digest of the flag key, two NULs and the user id, modulo 10,000, is below 100 p, for every p |
| EngineReference.RolloutTellsUsersApart | ripcord/engine.py:145-157 | Strictly between 0 and 100 percent, of any two users some digest admits one and not the other |
| EngineReference.VariantExactly | ripcord/engine.py:185-194 | A user in the rollout is served what the bucket of the salted text is served |
| EngineReference.VariantsTellUsersApart | ripcord/engine.py:185-194 | Nor are two users' variants tied together: some digest serves the one what any bucket is served and the other what any other is |
| EngineReference.RolloutAndVariantAreIndependent | ripcord/engine.py:108-119 | Whether a user is in the rollout says nothing about the variant: any rollout bucket goes with any variant bucket |
| EngineReference.DigestIsReadTwice | ripcord/engine.py:120-122 | For any flag and context, the digest matters at those two texts only, and only modulo 10,000 |
| EngineReference.RuleAdmitsExactly | ripcord/engine.py:125-142 | A flag at 0 percent with one rule is on exactly for the contexts that carry the attribute with one of the values, with none of them, with the first, with another than the first, by operator; for nobody by any other operator |
| EngineReference.KeysCompareByCodePoints | ripcord/engine.py:180 | Keys are ordered by code points: a prefix first, else by the first difference |
| EngineReference.NoWeightServesLeastKey | ripcord/engine.py:181-183 | With no positive total weight everybody is served the variant with the least key |
| Engine.ChooseVariant | ripcord/engine.py:166-194 | The loop returns the variant of the bucket's band; the fallback after the loop is never reached |
| Engine.ChooseVariantInFloats | ripcord/engine.py:178-194 | The walk in the source's own arithmetic, a rounded quotient against a rounded running sum, serves what the exact walk serves and never reaches the fallback |
| Engine.EvaluateFlag | ripcord/engine.py:205-255 | The walk with early returns computes the evaluation that the theorems are about |
| EngineLaws.OrderIndependence | ripcord/engine.py:160-194 | With distinct variant keys, every permutation of the variants gives the same evaluation for every user and context |
| EngineLaws.RepeatedKeysShowOrder | ripcord/engine.py:160-163 | Without distinct keys it does not: two orders of one list evaluate differently |
| Reordering.OrderShowsExactly | ripcord/engine.py:160-255 | Two orders of one variant list, repeated keys or not, evaluate alike for every digest, user and context if and only if what the flag can come to serve is the same from both: the off variant unless it is rolled out in full, the weighted choice if the rollout admits anyone, and each reachable rule's pin, or the weighted choice where the pin names nothing |
| Reordering.ServedAlikeExactly | ripcord/engine.py:173-194 | The weighted choice serves two orders alike at every bucket if and only if, sorted by key, they agree on every unit of weight a bucket falls on, on all of them when the total is at most 10,000 |
| EngineLaws.VariantApportionment | ripcord/engine.py:173-194 | Each variant is served to a number of the 10,000 buckets within one of its exact share, exactly 100 w when weights sum to 100, none at weight 0 |
| EngineLaws.ReweightingIsBounded | ripcord/engine.py:173-194 | Reweighting moves a bucket exactly when a boundary sweeps over it, so at most 100 buckets per point the boundaries travel |
| EngineLaws.GrowingARollout | ripcord/engine.py:205-255 | A user served enabled at p percent gets the identical evaluation at every larger percentage |
| EngineLaws.ReasonTellsWhy | ripcord/engine.py:205-255 | Each reason is given if and only if its step decides, with kill switch, rules, rollout in that order |
| EngineLaws.ActiveMeansServed | ripcord/engine.py:205-255 | On any spec with variants, an enabled evaluation serves one of them with its own value |
| EngineLaws.PinnedRule | ripcord/engine.py:226-240 | On any specification the first matching rule decides: a pin serves the first variant of that name, a dangling pin serves the weighted choice |
| Schemas.AcceptedVariants | ripcord/schemas.py:78-105 | The validator accepts exactly the empty set and sets of at least two distinct keys summing to 100, with a defined off variant |
| SchemaLaws.CreateAcceptedExactly | ripcord/schemas.py:21-125 | A creation passes validation if and only if every field is within its bounds, its variants can be served, and its pins and off variant name some of them |
| SchemaLaws.UpdateAcceptedExactly | ripcord/schemas.py:128-147 | The same of a patch, whose variants, and pins against them, count only if it carries variants |
| ModelLaws.MergeIsExact | ripcord/services.py:63-96 | The merge ends with exactly the wanted keys, values and weights; kept keys keep their row id, all other rows are new |
| ModelLaws.MergeKeysApart | ripcord/services.py:63-96 | Even when the request repeats a key, no two resulting rows share one |
| ModelLaws.InsertsNeverCollide | ripcord/models.py:101-103 | Inserting the merge's new rows before deleting the old ones never breaks the unique constraint |
| ModelLaws.FreshListCollides | ripcord/services.py:66-71 | Assigning a fresh list instead breaks it exactly when some key is in both sets |
| FlagObject.Flag.ApplyVariants | ripcord/services.py:63-96 | Editing the row objects in place leaves the rows of the merge; an object stays exactly when its key is wanted, any other object is new |
| FlagObject.Flag.ValidateReferences | ripcord/services.py:171-209 | On a valid flag and an accepted request, the in-method check refuses if and only if the patched flag would hold a non-empty pin or off variant naming none of its own variants |
| FlagObject.Flag.UpdateFlag | ripcord/services.py:147-224 | The object ends as the pure patch of what it was, or is refused for the same reason with its rules, variants and version untouched |
| FlagLaws.CreatedFlagIsValid | ripcord/services.py:111-124 | A flag that passes creation's validation is valid in the strict sense, at version 1 |
| FlagLaws.ReferencesCheckedExactly | ripcord/services.py:171-209 | The same of the pure check, for every row id the patch may draw |
| FlagLaws.PatchAcceptedExactly | ripcord/services.py:155-209 | A validated patch is refused if and only if its version is stale or the flag it would leave is invalid |
| FlagLaws.PatchKeepsValid | ripcord/services.py:171-224 | A patch that passes every check leaves a valid flag, one version on, same row |
| FlagLaws.StrictValidityExactly | ripcord/services.py:180-204 | The strict invariant survives an accepted patch if and only if the patch names nothing by the empty string |
| FlagLaws.EmptyOffVariantEscapes | ripcord/services.py:189-204 | A concrete patch that sets an empty off variant on a flag without variants and is accepted |
| StoreLaws.StoredFlagsAreValid | ripcord/services.py:147-240 | In every reachable database every flag has no variants or at least two distinct ones summing to 100, and every non-empty pin and off variant names one |
| StoreLaws.CommitBuildsOnCurrent | ripcord/models.py:37-49 | A commit that succeeds is the patch applied to the flag stored just before it |
| StoreLaws.NoLostUpdate | ripcord/services.py:147-240 | Over any interleaving, the tables equal the successful mutations replayed in commit order |
| StoreLaws.VersionCountsPatches | ripcord/services.py:222-224 | A flag's version is 1 plus the patches committed since its creation, and it exists unless its last mutation deleted it |
| StoreLaws.AuditTrail | ripcord/services.py:125-144 | Every key's entries read (created updated* deleted)* with an optional open tail; the flag exists exactly when it is open, at version 1 plus its updates |
| StoreLaws.RejectionChangesNothing | ripcord/services.py:225-258 | An operation that does not complete changes no flag, no audit entry and no row id |
| StoreLaws.SecondCommitConflicts | ripcord/services.py:225-232 | Of two sessions that read the same row, the second to commit gets a version conflict |
| Sessions.CommitSucceedsExactly | ripcord/models.py:37-49 | A session commits if and only if no other commit of its flag has landed since it read it; otherwise it gets a version conflict |
| Sessions.CommitTellsRequest | ripcord/services.py:125-140 | A commit records the key, the patch and the actor of the request that opened its session |
| Sessions.UpdateAnswered | ripcord/services.py:151-209 | A patch is refused for its contents, a missing flag, a stale version or a dangling reference, in this order, each exactly when that is so, or opened |
| Sessions.CreateAnswered | ripcord/services.py:138-142 | A creation is refused for its contents, or because the key is taken, or done, each exactly then |
| RowIds.IdsAreNeverDrawnTwice | ripcord/models.py:20-110 | No stored flag, rule or variant has an id that is still to be drawn |
| Asked.CreateStoresRequest | ripcord/services.py:111-124 | A creation that is done stores the request's columns, its rules entry by entry under the API's operator names, and its variants in order, and records its actor |
| Asked.StoredAsAsked | ripcord/services.py:147-240 | Over any interleaving, every column of a stored flag, its rules entry by entry and its variants are what the last committed patch of its life that carries them gave, and otherwise what its creation gave |
| AskedEvaluation.EvaluatesAsAsked | ripcord/services.py:261-294 | A flag that holds what a request asks for answers every user as the request reads: kill switch, first rule whose condition holds with its pin, rollout by bucket, off variant |
| AskedEvaluation.LoadedEvaluatesAsAsked | ripcord/services.py:284-294 | However its rows come back from a query, a stored flag answers every user as the requests of its life come to, with the rules tried by ascending priority |
| AskedEvaluation.SwitchedOffForEverybody | ripcord/services.py:165-167 | A flag whose last committed word on enabled is false, from its creation or a patch, answers flag_disabled to everybody |
| StoredEvaluation.StoredFlagServes | ripcord/engine.py:205-255 | On every flag the store can reach, an active multivariate evaluation serves its own variant, a non-empty pin is served exactly, a disabled flag serves its off variant |
| StoredEvaluation.StoredVariantsShareExactly | ripcord/engine.py:178-194 | Every variant of a stored flag is served to exactly 100 buckets per point of weight |
| Payload.DecodersAgree | ripcord/sdk/client.py:26-46 | The SDK's decoder and the server's agree on a payload exactly when it carries its rules |
| Payload.PayloadTellsFlag | ripcord/services.py:319-323 | Two flags have one payload if and only if they agree on the row, on the rules in order, and on the variants up to order |
| Payload.DecodedPayload | ripcord/services.py:319-359 | Decoding a flag's payload gives back the stored flag with its variants in key order |
| Payload.MissingKeysAreEmpty | ripcord/services.py:332-359 | A key that an older build left out of a payload decodes as if it were there and empty |
| Payload.PayloadKeepsMeaning | ripcord/services.py:261-359 | A cached payload, through either decoder, evaluates as the stored flag does for every user and context |
| Payload.RequestOrderSurvivesReload | ripcord/models.py:53-58 | The payload cached after a write and every later reload agree exactly when priorities strictly increase |
| Redis.Cache.ReadFlag | ripcord/cache.py:68-82 | A hit, a known absence or a cold cache, told apart as the read paths rely on |
| Redis.Cache.ReadRuleset | ripcord/cache.py:56-65 | Every cached flag, or nothing when the hash is not marked complete |
| Redis.Cache.WriteRuleset | ripcord/cache.py:101-143 | Publishes the whole mapping with the marker and a 300 second lifetime, or nothing when the epoch moved |
| Redis.Cache.NotifyFlagChange | ripcord/cache.py:146-185 | Bumps the epoch, writes or removes one field, sets a lifetime only if there is none, announces |
| Redis.PublishedRulesetReadsBack | ripcord/cache.py:68-143 | What was published reads back flag by flag and whole; a refused publish changes nothing |
| Redis.NotifyIsLocal | ripcord/cache.py:146-182 | A notify is read back for its own flag, moves no other flag's answer, and closes the fence |
| Redis.MarkerIsNoFlagKey | ripcord/cache.py:32-33 | No accepted flag key is the marker's name |
| Sequential.WriteInOneGo | ripcord/cache.py:127-143 | The transition system's WATCH, compare and EXEC, uninterrupted, are the whole-ruleset write, refused exactly when it refuses |
| Sequential.NotifyInOneGo | ripcord/cache.py:160-182 | The mutator's steps, uninterrupted, leave the server as the uninterrupted notify does |
| FreshnessKept.FreshKept | ripcord/cache.py:101-182 | No step of any process makes a fresh flag stale again |
| FreshnessKept.SnapshotIsFresh | ripcord/services.py:326-329 | A query made while the flag is fresh for n reads only parts it had at n or later, even across a deletion and re-creation |
| FreshnessKept.BumpKillsRebuilds | ripcord/cache.py:161-166 | Once the epoch is bumped, no rebuild that began before it can publish |
| Reachable.InvAlways | ripcord/cache.py:101-182 | The inductive invariant of the whole system holds in every reachable state |
| Reachable.LandedIsFresh | ripcord/cache.py:166-178 | When a notify's field write lands, the flag is fresh for that very commit |
| CacheLaws.Coherence | ripcord/cache.py:101-182 | In every reachable state the cached answer is behind by at most the lost notifies plus the one under way; a settled flag's field, if present, equals the database payload, and a marked hash without it means no such flag |
| CacheLaws.CachedRulesetIsTheDatabase | ripcord/api/realtime.py:25-31 | With every flag settled, a ruleset served from the cache is the whole database |
| CacheLaws.FreshToTheEnd | ripcord/cache.py:109-125 | A flag once fresh for a commit stays so through every continuation |
| CacheLaws.AnswersAreFresh | ripcord/services.py:377-405 | A call that looks at the cache in a state fresh for n answers with a view fresh for n: hit, cold, failed read, aborted or superseded publish alike |
| CacheLaws.LandedView | ripcord/cache.py:166-178 | After a change's field write, or the removal of a deleted flag's field, and until the flag's next commit, later calls see exactly what the change left: that flag, or no flag |
| CacheLaws.KillSwitch | ripcord/services.py:362-405 | If the change disabled the flag, they all answer flag_disabled for every user, whatever rebuilds were in flight, whenever the hash expires, and whether or not Redis can be read |
| Requests.KillRequestDisables | ripcord/api/flags.py:50-75 | After the field write of a committed patch with enabled false, and until the flag's next commit, every later evaluation is flag_disabled |
| Requests.SessionOfRun | ripcord/services.py:147-153 | In any run of the service, an open session holds the flag, the patch and the actor of the request that opened it |
| Requests.DeletedFlagIsNotFound | ripcord/services.py:385-387 | After the removal of a deleted flag's field, and until its next creation, later evaluations are off and flag_not_found |
| Requests.StoreOfRun | ripcord/services.py:111-258 | The store inside the service is the store of the run's store steps, so what holds over its interleavings holds there |
| CacheLaws.AnswersAreFromDuringTheCall | ripcord/services.py:362-405 | A call that looked at the cache while the flag was settled answers with parts the flag had during the call, row before rules before variants, all of one life |
| Refinement.AnswerIsAnInstantExactly | ripcord/services.py:362-405 | Such a call shows the whole flag as it was at one instant of the call if and only if its follow-up queries found the rules and variants the flag had together with the row read |
| Refinement.PlainCommitsDoNotTear | ripcord/models.py:53-65 | Commits between the queries that keep the flag's rules and variants never tear, however many there are |
| Refinement.PlainPatchesDoNotTear | ripcord/services.py:147-224 | Nor do patches that carry neither rules nor variants, the kill switch among them: if every commit of the flag between the queries is one, the answer is the whole flag of one instant |
| Refinement.CachedPathRefinesDatabasePath | ripcord/services.py:284-405 | An untorn call answers, for every user, what the database path answers at one instant of the call |
| CacheLaws.RulesetAfterEvent | ripcord/cache.py:166-183 | A ruleset fetched after a change was published shows that change or a later one |
| CacheLaws.ExpiryIsNeverForgotten | ripcord/cache.py:135-178 | Without failed notifies, a hash without a lifetime exists only between an HSET and its EXPIRE, and no lifetime exceeds 300 seconds |
| Healing.FreshnessIsExact | ripcord/cache.py:109-125 | Every later answer of every continuation shows commit n or later if and only if the cached field and every rebuild that could still be published are fresh for n |
| Healing.LostNotifyHeals | ripcord/cache.py:155-158 | With the field gone, every later answer shows the newest commit or a later one if and only if every rebuild that could still be published has read the flag as that commit left it |
| Healing.HealsWithinTheLifetime | ripcord/cache.py:43-45 | Once 300 seconds have passed, every later answer of every continuation shows commit n or later, if and only if every rebuild that could still be published is fresh for n and, unless the cached field is fresh, the hash has a lifetime and no notify is about to renew it, or one at most is and the lifetime is in its last second |
| Healing.OutlastsUnlessItRunsOut | ripcord/cache.py:177-178 | In every reachable state where that fails, some continuation of exactly 300 seconds leaves every cached field in place |
| Availability.EvaluateNeverFails | ripcord/services.py:369-401 | No call to /evaluate ever fails, in any run, whatever Redis does |
| Availability.AnswersWithoutRedis | ripcord/services.py:377-405 | If every Redis command of a call to /evaluate fails, it answers what the database holds |
| Availability.RulesetFailsExactly | ripcord/api/realtime.py:25-42 | A call to /ruleset fails on exactly the moves on which Redis does |
| Availability.ColdCallFillsCache | ripcord/services.py:389-405 | Undisturbed, a call that finds the cache cold answers from the database and leaves all of it cached, marked, for 300 seconds |
| Availability.WarmEvaluation | ripcord/services.py:377-387 | With its flag settled, a field or a known absence answers for the database in one look |
| Availability.WarmRuleset | ripcord/api/realtime.py:25-31 | With every flag settled, a marked hash answers /ruleset with the whole database in one look |
| Availability.NotifyRunsToItsEnd | ripcord/cache.py:160-183 | A notify whose commands succeed leaves the field as committed, or removed, with a lifetime on the hash, publishes exactly one event, and settles the flag |
| BadTraces.OverlappingNotifies | ripcord/api/flags.py:50-90 | Two notifies of one flag out of commit order bring a deleted flag back with nothing left to correct it |
| BadTraces.UnfencedRebuild | ripcord/services.py:392-401 | A rebuild whose epoch read failed hides a newly created flag for a full lifetime |
| BadTraces.FlushDuringRebuild | ripcord/cache.py:129-133 | A counter reset during a rebuild lets the old snapshot through the fence |
| BadTraces.LostBumpOutlivesExpiry | ripcord/cache.py:155-158 | Under every assumption, a lost bump lets an older snapshot be published after the hash expired |
| BadTraces.RenewedPastTheWindow | ripcord/cache.py:43-45 | Under every assumption, with a lifetime running and no call under way, a deleted flag whose notify was lost can still be served after 300 seconds, because a notify between its TTL and its EXPIRE renews the lifetime |
| BadTraces.TornSnapshot | ripcord/services.py:105-108 | Under every assumption, a commit between two queries makes a call answer off for a user who is on before and after |
| BadTraces.SplitReadIsFresh | ripcord/cache.py:76-82 | With the two commands of read_flag at the two ends of any stretch of any run, the answer is as fresh as one made at its start, unless in between the flag's field appears and the hash is marked complete |
| Sdk.RipcordClient.Refresh | ripcord/sdk/client.py:85-105 | The flags become the fetched ruleset, or stay as they were on any failure |
| Sdk.RipcordClient.Watch | ripcord/sdk/client.py:155-169 | The line machine refreshes exactly as often as the count it is compared by, in order |
| Sdk.RefreshMirrorsRuleset | ripcord/sdk/client.py:85-105 | After a successful refresh the SDK holds exactly the specifications the server evaluates from that ruleset |
| Sdk.WatchAgreesWithStandard | ripcord/sdk/client.py:162-169 | Over any stream of comments and events, the client refreshes exactly once per dispatched flag-change event if and only if no such event has several data lines or a name padded with whitespace |
| SdkLaws.RulesetsAreWhole | ripcord/api/realtime.py:25-42 | Every ruleset served in any history lists whole payloads, each under its own key |
| SdkLaws.SdkCatchesUp | ripcord/sdk/client.py:155-169 | After a change was delivered, a successful refresh reflects that change or a later one; if it is still the newest, local answers equal the database's |
| SdkLaws.ClientAnswersAsDatabase | ripcord/sdk/client.py:107-153 | If that change is the newest, is_enabled, variant and value answer from the database's evaluation of the flag, and the caller's default only for a flag that is not there or serves no variant |
| SdkStream.RulesetIsTheDatabase | ripcord/api/realtime.py:25-42 | A ruleset whose call looked at the cache when every flag's newest change was published is the whole database if nothing was committed since, served from the cache or fetched cold |
| SdkStream.SdkMirrorsDatabase | ripcord/sdk/client.py:85-105 | A successful refresh from it leaves the SDK with exactly the database's specifications, and no others |
| SdkStream.SdkFollowsTheStream | ripcord/sdk/client.py:155-169 | Over the lines of a connection the client refreshes once per published change, and whichever refreshes fail, the last that succeeds leaves it with every change delivered before it, or a later one, and with the database's answers where that change is the newest |
| SdkStream.StreamLeavesTheDatabase | ripcord/api/realtime.py:45-63 | If every flag's newest change was published before that refresh and nothing was committed since, the connection leaves the client with exactly the database's specifications |
| Auth.SplitKeyUndoesFormat | ripcord/auth.py:113-146 | A text splits into an id and a secret if and only if it is their formatted key, the id is non-empty hex and the secret is not empty |
| Auth.KeyCache.Cached | ripcord/auth.py:212-219 | The entry if it has not expired; an expired one is dropped |
| Auth.KeyCache.Authenticate | ripcord/auth.py:222-271 | Done without interruption, authentication is the cache check followed by the settled lookup |
| AuthReference.BootstrapExactly | ripcord/auth.py:229-234 | In any run, a request resolved without a stored key presented the bootstrap key, set and well formed, and is the administrator; one that presents it is resolved as nobody else and never waits for a row |
| AuthReference.LookedUpKeyExactly | ripcord/auth.py:245-271 | A request that settles is accepted, as that key's holder with that name and those scopes, if and only if the row it read was not revoked and had its secret's hash |
| AuthReference.CachedKeyExactly | ripcord/auth.py:236-243 | A well-formed key with a live entry is accepted, as the entry's holder, if and only if the hashes agree; without one it waits for its row |
| AuthReference.CheckExactly | ripcord/auth.py:224-234 | A malformed key is refused, and a well-formed bootstrap key is the administrator, whatever is stored or cached |
| AuthReference.MintKey | ripcord/api/keys.py:26-37 | A minted key is stored live, under the hash of its secret, with the name and scopes asked for |
| AuthReference.MintedKeyIsAccepted | ripcord/auth.py:258-271 | A live key is accepted by a process that has not cached it, with the name and scopes of its row, and cached for the TTL |
| AuthLaws.AcceptedKeyWasLive | ripcord/auth.py:222-271 | A key accepted at t had an unrevoked row with that hash, name and scopes less than the TTL before t, or at t itself, give or take the time a lookup takes |
| AuthReference.RevocationAnswered | ripcord/api/keys.py:66-74 | A revocation finds no key, a key already revoked, or one to revoke, each exactly then |
| AuthLaws.RevocationReachesEveryProcess | ripcord/auth.py:30-35 | No process accepts a key later than the TTL after its tombstone, give or take the time a lookup takes |
| AuthLaws.RevocationIsImmediate | ripcord/api/keys.py:75-80 | The process whose call set the tombstone never accepts the key again, if and only if no lookup that read the row before is still to settle there |
| AuthLaws.GoneForGoodExactly | ripcord/auth.py:204-271 | No continuation accepts a revoked key in a process again if and only if the process has no unexpired entry for it and no lookup that read the row before is still to settle |
| AuthLaws.SecondRevocationKeepsTheEntry | ripcord/api/keys.py:66-82 | A second revocation returns and its process still accepts the key |

## Left out

- MD5, SHA-256, constant-time comparison and secret generation: digests are arbitrary functions, and nothing statistical is claimed.
- JSON text and Pydantic coercion: a payload is a datatype, a variant value an opaque JSON value, and the field patterns and bounds of the schemas are conditions on them.
- Binary64 itself: `round` is any function with the three guarantees of `Bands.RoundsLikeBinary64`, and totals above 900 billion are outside the theorem.
- The unit of work: a commit is one step; `IntegrityError` on update (services.py:233-238), `created_at`, `updated_at` and audit details are not modelled. A session's read of its flag is one step: a torn read would carry the older version and so conflict at its commit.
- In `Store` a session reads a flag's rules in the order they were submitted, where the database returns them by priority (models.py:53-58); `AskedEvaluation.LoadedEvaluatesAsAsked` puts the query's order in, `Protocol` assumes the two agree, and nothing else about `Store` turns on it.
- Row ids are drawn from one counter for flags, rules and variants, where the database keeps one sequence per table.
- `notify_flag_change` without a payload (cache.py:179-180) is in `Redis` but not in `Protocol`: no handler calls it so.
- `Redis.Cache.WriteRuleset` and `Redis.Cache.NotifyFlagChange` are proved without interruption; what other clients do between their commands is in `Protocol`, step by step.
- Refinement.CachedPathRefinesDatabasePath: asks that the follow-up queries find the row's own children, which `Refinement.AnswerIsAnInstantExactly` shows to be exactly when the answer is the flag of one instant.
- The rules of all flags are loaded in one step, and so are the variants, where the ORM asks in batches of row ids; no theorem about one flag turns on it.
- SdkLaws.SdkCatchesUp: for delivered events only.
- SdkStream.SdkFollowsTheStream: one connection that carries every message from its subscription on; lost messages, reconnects, backoff and retries are not modelled, and the client does not refresh on reconnect.
- `_extract_credential`, scope checks and the `last_used_at` refresh (auth.py:153-186, 313-321): each settled by reading one branch; the answer is taken at the cache fill, before that refresh.
- Clocks: all processes share one clock in `AuthLaws`, where each source process reads its own monotonic one.
- FastAPI routing, metrics, logging, CLI, migrations, deployment, the dashboard, `list_audit`, `compute_stats` and `list_keys`: no property beyond their libraries.
