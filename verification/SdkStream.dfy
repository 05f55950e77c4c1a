/**
 From a published change to the SDK that follows the stream: the whole map after a refresh, and
 every refresh a connection's lines cause.
 */
module SdkStream {
  import opened Wrappers
  import opened Engine
  import opened Models
  import opened Payload
  import opened Redis
  import opened Protocol
  import opened Freshness
  import opened Reachable
  import opened CacheLaws
  import opened Sdk
  import opened SdkLaws

  // ---- The whole ruleset -----------------------------------------------------------------------------

  /** The newest commit of the flag, if there was one, has been published. */
  predicate NewestPublished(s: State, key: string) {
    |Hist(s, key)| == 1 || (|Hist(s, key)| > 1 && Protocol.Event(key, |Hist(s, key)| - 1) in s.channel)
  }

  ghost predicate AllPublished(s: State) {
    forall key :: key != COMPLETE_FIELD ==> NewestPublished(s, key)
  }

  lemma PublishedIsFresh(s: State, key: string)
    requires Inv(s) && key != COMPLETE_FIELD && NewestPublished(s, key)
    ensures Fresh(s, key, |Hist(s, key)| - 1)
  {
    assert AgesOk(s, key);
  }

  lemma PublishedRunIsFresh(run: seq<Step>, key: string)
    requires ValidRun(run) && key != COMPLETE_FIELD && NewestPublished(After(run), key)
    ensures Fresh(After(run), key, |Hist(After(run), key)| - 1)
  {
    InvAlways(run);
    PublishedIsFresh(After(run), key);
  }

  lemma FreshRulesetShows(run: seq<Step>, i: nat, c: nat, ruleset: map<string, Entry>, key: string, n: nat)
    requires ValidRun(run) && i <= |run| && key != COMPLETE_FIELD && Fresh(After(run[..i]), key, n)
    requires YetToRead(After(run[..i]), c) && AnsweredRuleset(After(run), c, ruleset)
    ensures ViewFresh(Hist(After(run), key), n, Lookup(ruleset, key))
  {
    AnswersAreFresh(run, i, c, key, n);
    assert Shown(After(run).calls[c], key) == Lookup(ruleset, key);
  }

  /** A ruleset fetched when the flag's newest change was published shows the flag as it still is. */
  lemma RulesetShowsCurrent(run: seq<Step>, i: nat, c: nat, ruleset: map<string, Entry>, key: string)
    requires ValidRun(run) && i <= |run| && key != COMPLETE_FIELD && NewestPublished(After(run[..i]), key)
    requires YetToRead(After(run[..i]), c) && AnsweredRuleset(After(run), c, ruleset) && NoCommitFrom(run, i, key)
    ensures Lookup(ruleset, key) == ViewOf(Current(After(run), key))
  {
    PrefixIsValid(run, i);
    PublishedRunIsFresh(run[..i], key);
    FreshRulesetShows(run, i, c, ruleset, key, |Hist(After(run[..i]), key)| - 1);
    HistoryStands(run, i, key);
    FactsOfCall(run, c, key);
    NewestIsCurrent(After(run), key, Lookup(ruleset, key));
  }

  lemma NewestIsCurrent(s: State, key: string, view: Option<Entry>)
    requires HistoryOk(Hist(s, key), key, Current(s, key))
    requires ViewFresh(Hist(s, key), |Hist(s, key)| - 1, view)
    ensures view == ViewOf(Current(s, key))
  {
    NewestView(Hist(s, key), view);
  }

  /** Neither a ruleset nor the database has a flag with the marker's name. */
  lemma MarkerNowhere(run: seq<Step>, c: nat, ruleset: map<string, Entry>)
    requires ValidRun(run) && AnsweredRuleset(After(run), c, ruleset)
    ensures COMPLETE_FIELD !in ruleset && COMPLETE_FIELD !in After(run).store.flags
  {
    FactsOfCall(run, c, COMPLETE_FIELD);
    var h := Hist(After(run), COMPLETE_FIELD);
    assert FlagOk(h[|h| - 1], COMPLETE_FIELD);
  }

  /** No step from place i on commits any flag. */
  predicate NothingCommitsFrom(run: seq<Step>, i: nat) {
    forall j :: i <= j < |run| ==> !run[j].Commit?
  }

  lemma QuietForFlag(run: seq<Step>, i: nat, key: string)
    requires NothingCommitsFrom(run, i)
    ensures NoCommitFrom(run, i, key)
  {
  }

  /** The payloads of a whole table. */
  function Payloads(flags: map<string, Flag>): map<string, Entry> {
    map k | k in flags :: FlagPayload(flags[k])
  }

  /**
   The whole ruleset. A ruleset whose call looked at the cache when every flag's newest change was
   published is the whole database, as long as nothing was committed since: cached or fetched cold.
   */
  lemma RulesetIsTheDatabase(run: seq<Step>, i: nat, c: nat, ruleset: map<string, Entry>)
    requires ValidRun(run) && i <= |run| && AllPublished(After(run[..i]))
    requires YetToRead(After(run[..i]), c) && AnsweredRuleset(After(run), c, ruleset)
    requires NothingCommitsFrom(run, i)
    ensures ruleset == Payloads(After(run).store.flags)
  {
    MarkerNowhere(run, c, ruleset);
    var flags := After(run).store.flags;
    forall key ensures Lookup(ruleset, key) == Lookup(Payloads(flags), key) {
      if key != COMPLETE_FIELD {
        QuietForFlag(run, i, key);
        RulesetShowsCurrent(run, i, c, ruleset, key);
      }
    }
    SameLookups(ruleset, Payloads(flags));
  }

  lemma SameLookups<T(!new)>(m: map<string, T>, m': map<string, T>)
    requires forall key :: Lookup(m, key) == Lookup(m', key)
    ensures m == m'
  {
    forall key ensures key in m <==> key in m' ensures key in m ==> m[key] == m'[key] {
      assert Lookup(m, key) == Lookup(m', key);
    }
  }

  /** The specifications of a whole table, each with its variants in key order. */
  function Specs(flags: map<string, Flag>): map<string, FlagSpec> {
    map k | k in flags :: ToSpec(flags[k].(variants := InKeyOrder(flags[k].variants)))
  }

  /** A successful refresh from it leaves the SDK with exactly the database's specifications. */
  lemma SdkMirrorsDatabase(run: seq<Step>, i: nat, c: nat, ruleset: map<string, Entry>,
                           flags: map<string, FlagSpec>, status: int, body: seq<Entry>)
    requires ValidRun(run) && i <= |run| && AllPublished(After(run[..i]))
    requires YetToRead(After(run[..i]), c) && AnsweredRuleset(After(run), c, ruleset)
    requires NothingCommitsFrom(run, i)
    requires 200 <= status < 300 && Lists(body, ruleset)
    ensures Refreshed(flags, Response(status, Some(body))) == Specs(After(run).store.flags)
  {
    RulesetIsTheDatabase(run, i, c, ruleset);
    RefreshedToSpecs(After(run).store.flags, flags, status, body);
  }

  lemma RefreshedToSpecs(stored: map<string, Flag>, flags: map<string, FlagSpec>, status: int, body: seq<Entry>)
    requires 200 <= status < 300 && Lists(body, Payloads(stored))
    ensures Refreshed(flags, Response(status, Some(body))) == Specs(stored)
  {
    var flags' := Refreshed(flags, Response(status, Some(body)));
    forall key ensures Lookup(flags', key) == Lookup(Specs(stored), key) {
      RefreshMirrorsRuleset(flags, status, body, Payloads(stored), key);
      if key in stored {
        DecodedPayload(stored[key]);
      }
    }
    SameLookups(flags', Specs(stored));
  }

  // ---- The stream of changes -------------------------------------------------------------------------

  /** The frame of a published change: its name and one line of data, whatever that says. */
  predicate Announces(f: Frame) {
    f.Event? && f.name == FLAG_CHANGE && |f.data| == 1
  }

  /** A keep-alive comment or the greeting. */
  predicate SaysNothing(f: Frame) {
    f.Event? ==> Strip(f.name) != FLAG_CHANGE
  }

  /** The frames announce that many changes, in between comments and greetings. */
  predicate Carries(frames: seq<Frame>, changes: nat) {
    if frames == [] then changes == 0
    else if Announces(frames[0]) then changes > 0 && Carries(frames[1..], changes - 1)
    else SaysNothing(frames[0]) && Carries(frames[1..], changes)
  }

  /** The client refreshes once per published change the connection carries. */
  lemma {:induction false} OneRefreshPerChange(frames: seq<Frame>, changes: nat)
    requires Carries(frames, changes)
    ensures RefreshCount(None, StreamLines(frames)) == changes
  {
    ClientTotal(frames);
    TotalCarried(frames, changes);
  }

  lemma {:induction false} TotalCarried(frames: seq<Frame>, changes: nat)
    requires Carries(frames, changes)
    ensures Total(ClientCount, frames) == changes
  {
    if frames != [] {
      StripChange();
      TotalCarried(frames[1..], if Announces(frames[0]) then changes - 1 else changes);
    }
  }

  lemma ChannelStep(s: State, step: Step)
    requires Possible(s, step)
    ensures s.channel <= Effect(s, step).channel
  {
  }

  lemma {:induction false} ChannelGrows(run: seq<Step>, i: nat)
    requires ValidRun(run) && i <= |run|
    ensures After(run[..i]).channel <= After(run).channel
  {
    if i < |run| {
      var before := run[..|run| - 1];
      Prefix(run, i);
      ChannelGrows(before, i);
      ChannelStep(After(before), run[|run| - 1]);
    } else {
      assert run[..i] == run;
    }
  }

  // ---- Following it ----------------------------------------------------------------------------------

  /** A refresh: what it got back and, if that was a ruleset, the call it came from and where that began. */
  datatype Fetch = Fetch(response: Response, at: nat, call: nat, ruleset: map<string, Entry>)

  function Got(f: Fetch): Response { f.response }

  /** The client keeps what it has. */
  predicate Fails(r: Response) {
    !(r.Response? && 200 <= r.status < 300 && r.body.Some? && DecodeAll(r.body.value).Success?)
  }

  /** The k-th refresh of a connection from place a of the channel got the ruleset of a call begun after it. */
  ghost predicate Serves(run: seq<Step>, a: nat, k: nat, f: Fetch) {
    && f.at <= |run| && a + k < |After(run[..f.at]).channel|
    && YetToRead(After(run[..f.at]), f.call) && AnsweredRuleset(After(run), f.call, f.ruleset)
    && f.response.Response? && 200 <= f.response.status < 300 && f.response.body.Some?
    && Lists(f.response.body.value, f.ruleset)
  }

  /** The last response that did not fail decides what the client holds. */
  lemma {:induction false} LastSuccessStands(flags: map<string, FlagSpec>, responses: seq<Response>, j: nat)
    requires j < |responses| && forall k :: j < k < |responses| ==> Fails(responses[k])
    ensures RefreshedAll(flags, responses) == Refreshed(RefreshedAll(flags, responses[..j]), responses[j])
  {
    var init := responses[..|responses| - 1];
    if j < |responses| - 1 {
      LastSuccessStands(flags, init, j);
      assert init[..j] == responses[..j];
    }
  }

  /** What Watch leaves the client with after these lines and responses. */
  function Followed(flags: map<string, FlagSpec>, frames: seq<Frame>, fetches: seq<Fetch>): map<string, FlagSpec>
    requires Carries(frames, |fetches|)
  {
    OneRefreshPerChange(frames, |fetches|);
    RefreshedAll(flags, MapSeq(Got, fetches)[..RefreshCount(None, StreamLines(frames))])
  }

  /** The connection's j-th refresh got a ruleset, and none after it did. */
  ghost predicate LastServed(run: seq<Step>, a: nat, fetches: seq<Fetch>, j: nat) {
    && j < |fetches| && Serves(run, a, j, fetches[j])
    && forall k :: j < k < |fetches| ==> Fails(fetches[k].response)
  }

  /** The last ruleset got decides what the client holds. */
  lemma FollowedIsLast(run: seq<Step>, a: nat, frames: seq<Frame>, fetches: seq<Fetch>, j: nat,
                       flags: map<string, FlagSpec>) returns (held: map<string, FlagSpec>)
    requires Carries(frames, |fetches|) && LastServed(run, a, fetches, j)
    ensures Followed(flags, frames, fetches) == Refreshed(held, fetches[j].response)
  {
    var responses := MapSeq(Got, fetches);
    OneRefreshPerChange(frames, |fetches|);
    assert responses[..|fetches|] == responses;
    LastSuccessStands(flags, responses, j);
    held := RefreshedAll(flags, responses[..j]);
  }

  lemma DeliveredBefore(run: seq<Step>, a: nat, k: nat, f: Fetch, p: nat)
    requires ValidRun(run) && Serves(run, a, k, f) && p <= a + k
    ensures p < |After(run).channel| && After(run).channel[p] in After(run[..f.at]).channel
  {
    ChannelGrows(run, f.at);
    assert After(run).channel[p] == After(run[..f.at]).channel[p];
  }

  /**
   The SDK follows the stream. Over the lines of a connection that carries the changes published from
   place a of the channel on, in between comments and greetings, it refreshes once per change; whichever
   of these refreshes fail, the last that does not leaves it with every change delivered before it, and
   every change published before those, or with a later one. Where that change is still the newest, the
   SDK's answer is the database's, for every user and context.
   */
  lemma SdkFollowsTheStream(run: seq<Step>, a: nat, frames: seq<Frame>, fetches: seq<Fetch>, j: nat,
                            flags: map<string, FlagSpec>, p: nat)
    requires ValidRun(run) && Carries(frames, |fetches|) && LastServed(run, a, fetches, j) && p <= a + j
    ensures RefreshCount(None, StreamLines(frames)) == |fetches| && p < |After(run).channel|
    ensures
      var e, flags' := After(run).channel[p], Followed(flags, frames, fetches);
      && ShowsChange(After(run), e, fetches[j].ruleset)
      && Lookup(flags', e.key) == SpecOf(Lookup(fetches[j].ruleset, e.key))
      && (e.index == |Hist(After(run), e.key)| - 1 ==>
            forall md5, userId, context ::
              Locally(md5, flags', e.key, userId, context)
              == LocalAnswer(md5, Current(After(run), e.key), userId, context))
  {
    OneRefreshPerChange(frames, |fetches|);
    var f := fetches[j];
    DeliveredBefore(run, a, j, f, p);
    var held := FollowedIsLast(run, a, frames, fetches, j, flags);
    SdkCatchesUp(run, f.at, After(run).channel[p], f.call, f.ruleset, held, f.response.status, f.response.body.value);
  }

  /** If every flag's newest change was published before that last refresh, it leaves the whole database. */
  lemma StreamLeavesTheDatabase(run: seq<Step>, a: nat, frames: seq<Frame>, fetches: seq<Fetch>, j: nat,
                                flags: map<string, FlagSpec>)
    requires ValidRun(run) && Carries(frames, |fetches|) && LastServed(run, a, fetches, j)
    requires AllPublished(After(run[..fetches[j].at])) && NothingCommitsFrom(run, fetches[j].at)
    ensures Followed(flags, frames, fetches) == Specs(After(run).store.flags)
  {
    var f := fetches[j];
    var held := FollowedIsLast(run, a, frames, fetches, j, flags);
    SdkMirrorsDatabase(run, f.at, f.call, f.ruleset, held, f.response.status, f.response.body.value);
  }
}
