/** What an SDK that follows the change stream can rely on. */
module SdkLaws {
  import opened Wrappers
  import opened Engine
  import opened Models
  import opened Payload
  import opened Protocol
  import opened Freshness
  import opened Reachable
  import opened CacheLaws
  import opened Sdk

  /** A fresh view of a flag is a full payload under the flag's own key. */
  lemma ViewIsWhole(h: History, key: string, current: Option<Flag>, n: nat, entry: Entry)
    requires HistoryOk(h, key, current) && ViewFresh(h, n, Some(entry))
    ensures entry.key == key && entry.rules.Present?
  {
    var a: nat, b: nat, c: nat :| Since(h, n, a) && Since(h, a, b) && Since(h, b, c) && ViewAt(h, Some(entry), a, b, c);
    assert FlagOk(h[a], key);
  }

  /** The ruleset a call has answered with. */
  ghost predicate AnsweredRuleset(s: State, c: nat, ruleset: map<string, Entry>) {
    c in s.calls && s.calls[c].pc == Answered(RulesetView(ruleset))
  }

  /** Every ruleset served in a run lists whole payloads, each under its own key. */
  lemma RulesetsAreWhole(run: seq<Step>, i: nat, c: nat, ruleset: map<string, Entry>)
    requires ValidRun(run) && i <= |run| && YetToRead(After(run[..i]), c)
    requires AnsweredRuleset(After(run), c, ruleset)
    ensures forall k :: k in ruleset ==> ruleset[k].key == k && ruleset[k].rules.Present?
  {
    PrefixIsValid(run, i);
    InvAlways(run[..i]);
    InvAlways(run);
    var s := After(run);
    assert CallOk(s.redis, s.calls[c]);
    forall k | k in ruleset ensures ruleset[k].key == k && ruleset[k].rules.Present? {
      var n := Landed(After(run[..i]), k);
      assert AgesOk(After(run[..i]), k);
      AnswersAreFresh(run, i, c, k, n);
      assert HistoryOk(Hist(s, k), k, Current(s, k));
      ViewIsWhole(Hist(s, k), k, Current(s, k), n, ruleset[k]);
    }
  }

  function SpecOf(view: Option<Entry>): Option<FlagSpec> {
    if view.Some? then Some(SpecFromPayload(view.value)) else None
  }

  /** The database's answer, None for a flag that is not there. */
  function LocalAnswer(md5: Digest, flag: Option<Flag>, userId: string, context: Context): Option<Evaluation> {
    if flag.Some? then Some(Evaluate(md5, ToSpec(flag.value), userId, context)) else None
  }

  lemma NewestAnswer(run: seq<Step>, key: string, flags: map<string, FlagSpec>)
    requires ValidRun(run) && Lookup(flags, key) == SpecOf(ViewOf(Current(After(run), key)))
    ensures forall md5, userId, context ::
              Locally(md5, flags, key, userId, context) == LocalAnswer(md5, Current(After(run), key), userId, context)
  {
    var flag := Current(After(run), key);
    if flag.Some? {
      StoredVariantsDistinct(run, key);
      forall md5, userId, context
        ensures Locally(md5, flags, key, userId, context) == LocalAnswer(md5, flag, userId, context)
      {
        PayloadKeepsMeaning(md5, flag.value, userId, context);
      }
    }
  }

  /** The ruleset shows the flag as it was at that change or later, and as it is if nothing followed. */
  ghost predicate ShowsChange(s: State, e: Event, ruleset: map<string, Entry>) {
    var h, view := Hist(s, e.key), Lookup(ruleset, e.key);
    && e.index < |h|
    && ViewFresh(h, e.index, view)
    && (e.index == |h| - 1 ==> view == ViewOf(Current(s, e.key)))
  }

  lemma FreshHasPlace(h: History, n: nat, v: Option<Entry>, current: Option<Flag>)
    requires ViewFresh(h, n, v) && |h| > 0 && h[|h| - 1] == current
    ensures n < |h| && (n == |h| - 1 ==> v == ViewOf(current))
  {
    if n == |h| - 1 {
      NewestView(h, v);
    }
    var a: nat, b: nat, c: nat :| Since(h, n, a) && Since(h, a, b) && Since(h, b, c) && ViewAt(h, v, a, b, c);
  }

  lemma FreshShowsChange(s: State, e: Event, ruleset: map<string, Entry>)
    requires Structure(s) && ViewFresh(Hist(s, e.key), e.index, Lookup(ruleset, e.key))
    ensures ShowsChange(s, e, ruleset)
  {
    HistoryEnds(s, e.key);
    FreshHasPlace(Hist(s, e.key), e.index, Lookup(ruleset, e.key), Current(s, e.key));
  }

  lemma HistoryEnds(s: State, key: string)
    requires Structure(s)
    ensures |Hist(s, key)| > 0 && Hist(s, key)[|Hist(s, key)| - 1] == Current(s, key)
  {
    assert HistoryOk(Hist(s, key), key, Current(s, key));
  }

  lemma RulesetShowsTheChange(run: seq<Step>, i: nat, e: Event, c: nat, ruleset: map<string, Entry>)
    requires ValidRun(run) && i <= |run| && e in After(run[..i]).channel && YetToRead(After(run[..i]), c)
    requires AnsweredRuleset(After(run), c, ruleset)
    ensures ViewFresh(Hist(After(run), e.key), e.index, Lookup(ruleset, e.key))
  {
    assert Shows(After(run).calls[c], e.key) && Shown(After(run).calls[c], e.key) == Lookup(ruleset, e.key);
    RulesetAfterEvent(run, i, c, e);
  }

  /** A ruleset fetched after a change was delivered shows that change or a later one. */
  lemma RulesetHasTheChange(run: seq<Step>, i: nat, e: Event, c: nat, ruleset: map<string, Entry>)
    requires ValidRun(run) && i <= |run| && e in After(run[..i]).channel && YetToRead(After(run[..i]), c)
    requires AnsweredRuleset(After(run), c, ruleset)
    ensures ShowsChange(After(run), e, ruleset)
  {
    RulesetShowsTheChange(run, i, e, c, ruleset);
    InvAlways(run);
    FreshShowsChange(After(run), e, ruleset);
  }

  /**
   The SDK catches up. After a change was delivered, a refresh that succeeds leaves the SDK with
   a specification made of parts the flag had at that change or later; if the flag has not been
   committed since, the SDK's answer is the database's, for every user and context.
   */
  lemma SdkCatchesUp(run: seq<Step>, i: nat, e: Event, c: nat, ruleset: map<string, Entry>,
                     flags: map<string, FlagSpec>, status: int, body: seq<Entry>)
    requires ValidRun(run) && i <= |run| && e in After(run[..i]).channel && YetToRead(After(run[..i]), c)
    requires AnsweredRuleset(After(run), c, ruleset)
    requires 200 <= status < 300 && Lists(body, ruleset)
    ensures
      var flags' := Refreshed(flags, Response(status, Some(body)));
      && ShowsChange(After(run), e, ruleset)
      && Lookup(flags', e.key) == SpecOf(Lookup(ruleset, e.key))
      && (e.index == |Hist(After(run), e.key)| - 1 ==>
            forall md5, userId, context ::
              Locally(md5, flags', e.key, userId, context)
              == LocalAnswer(md5, Current(After(run), e.key), userId, context))
  {
    RulesetHasTheChange(run, i, e, c, ruleset);
    RulesetsAreWhole(run, i, c, ruleset);
    RefreshMirrorsRuleset(flags, status, body, ruleset, e.key);
    if e.index == |Hist(After(run), e.key)| - 1 {
      NewestAnswer(run, e.key, Refreshed(flags, Response(status, Some(body))));
    }
  }

  /**
   What an application asks its client then is answered from the database: is_enabled as the database
   evaluates the flag, variant and value as it serves them, the caller's default only for a flag that
   is not there or serves no variant.
   */
  lemma ClientAnswersAsDatabase(client: RipcordClient, run: seq<Step>, i: nat, e: Event, c: nat,
                                ruleset: map<string, Entry>, flags: map<string, FlagSpec>, status: int,
                                body: seq<Entry>, md5: Digest, userId: string, context: Context)
    requires ValidRun(run) && i <= |run| && e in After(run[..i]).channel && YetToRead(After(run[..i]), c)
    requires AnsweredRuleset(After(run), c, ruleset) && e.index == |Hist(After(run), e.key)| - 1
    requires 200 <= status < 300 && Lists(body, ruleset)
    requires client.flags == Refreshed(flags, Response(status, Some(body)))
    ensures
      var stored := Current(After(run), e.key);
      var served := EvaluateStored(md5, stored, userId, context);
      && (forall default :: client.IsEnabled(md5, e.key, userId, context, default)
                         == if stored.Some? then served.enabled else default)
      && (forall default :: client.Variant(md5, e.key, userId, context, default)
                         == if served.variant.Some? then served.variant else default)
      && (forall default :: client.ValueOf(md5, e.key, userId, context, default)
                         == if served.variant.Some? then served.value else default)
  {
    SdkCatchesUp(run, i, e, c, ruleset, flags, status, body);
    assert Locally(md5, client.flags, e.key, userId, context)
        == LocalAnswer(md5, Current(After(run), e.key), userId, context);
  }
}
