/** Who is let in, exactly: by the bootstrap key, by a cached key, by a looked-up key, and by nothing else. */
module AuthReference {
  import opened Wrappers
  import opened Auth
  import opened AuthLaws

  /** The administrator that the bootstrap key stands for: no stored key, the one scope that implies all. */
  const ADMINISTRATOR := Principal("bootstrap", {"admin"}, None)

  /** The stored key a row stands for. */
  function Holder(keyId: string, name: string, scopes: set<string>): Principal {
    Principal(name, scopes, Some(keyId))
  }

  // ---- One lookup ------------------------------------------------------------------------------------

  /** The request with this key id and secret is answered from this row. */
  ghost predicate AnswersFromRow(w: World, row: Option<KeyRow>, keyId: string, secret: string, p: Option<Principal>) {
    p == if row.Some? && row.value.revokedAt == None && row.value.secretHash == w.hash(secret)
         then Some(Holder(keyId, row.value.name, row.value.scopes))
         else None
  }

  lemma SettleAnswers(w: World, s: State, r: nat)
    requires Possible(s, Settle(r))
    ensures
      var pc := s.requests[r].pc;
      var pc' := Effect(w, s, Settle(r)).requests[r].pc;
      pc'.Resolved? && AnswersFromRow(w, pc.row, pc.keyId, pc.secret, pc'.principal)
  {
  }

  /** What a request that waits for its lookup knows is what it presented, and the row as it was then. */
  ghost predicate LookedUpAt(w: World, run: seq<Step>, r: nat, k: nat) {
    && r in After(w, run).requests && After(w, run).requests[r].pc.ToSettle?
    && k < |run| && run[k] == LookUp(r)
    && var request := After(w, run).requests[r];
       && SplitKey(request.fullKey) == Some((request.pc.keyId, request.pc.secret))
       && request.pc.row == Lookup(After(w, run[..k]).rows, request.pc.keyId)
  }

  lemma RequestAfter(w: World, s: State, step: Step, r: nat)
    requires Possible(s, step) && r in Effect(w, s, step).requests
    ensures
      var request' := Effect(w, s, step).requests[r];
      || (step.Arrive? && step.r == r && request'.pc.ToCheck?)
      || (r in s.requests && request'.fullKey == s.requests[r].fullKey && request'.process == s.requests[r].process
          && (request' == s.requests[r] || step == Check(r) || step == LookUp(r) || step == Settle(r)))
  {
  }

  lemma CheckAsks(w: World, s: State, r: nat)
    requires Possible(s, Check(r))
    ensures
      var request := s.requests[r];
      var pc := Effect(w, s, Check(r)).requests[r].pc;
      && (pc.Resolved? || pc.ToLookUp?)
      && (pc.ToLookUp? ==> SplitKey(request.fullKey) == Some((pc.keyId, pc.secret)))
  {
  }

  lemma {:induction false} AsksForItsKey(w: World, run: seq<Step>, r: nat)
    requires ValidRun(w, run) && r in After(w, run).requests && After(w, run).requests[r].pc.ToLookUp?
    ensures
      var request := After(w, run).requests[r];
      SplitKey(request.fullKey) == Some((request.pc.keyId, request.pc.secret))
  {
    LastStep(w, run);
    var before, last := run[..|run| - 1], run[|run| - 1];
    RequestAfter(w, After(w, before), last, r);
    if last == Check(r) {
      CheckAsks(w, After(w, before), r);
    } else {
      AsksForItsKey(w, before, r);
    }
  }

  lemma {:induction false} HasLookedUp(w: World, run: seq<Step>, r: nat) returns (k: nat)
    requires ValidRun(w, run) && r in After(w, run).requests && After(w, run).requests[r].pc.ToSettle?
    ensures LookedUpAt(w, run, r, k)
  {
    LastStep(w, run);
    var before, last := run[..|run| - 1], run[|run| - 1];
    RequestAfter(w, After(w, before), last, r);
    if last == LookUp(r) {
      AsksForItsKey(w, before, r);
      k := |before|;
    } else {
      if last == Check(r) {
        CheckAsks(w, After(w, before), r);
      }
      k := HasLookedUp(w, before, r);
      assert before[..k] == run[..k];
    }
  }

  /**
   A looked-up key, exactly. A request that settles at the end of the run is accepted, as that stored key
   with that name and those scopes, if and only if the key it presented had, when its row was read, a row
   that was not revoked and carried the hash of its secret; otherwise it is refused.
   */
  lemma LookedUpKeyExactly(w: World, run: seq<Step>, r: nat) returns (k: nat, keyId: string, secret: string)
    requires ValidRun(w, run) && run != [] && run[|run| - 1] == Settle(r)
    ensures r in After(w, run).requests && After(w, run).requests[r].pc.Resolved?
    ensures k < |run| && run[k] == LookUp(r) && After(w, run).requests[r].fullKey == FormatKey(keyId, secret)
    ensures AnswersFromRow(w, Lookup(After(w, run[..k]).rows, keyId), keyId, secret,
                           After(w, run).requests[r].pc.principal)
  {
    LastStep(w, run);
    var before := run[..|run| - 1];
    k := HasLookedUp(w, before, r);
    var request := After(w, before).requests[r];
    keyId, secret := request.pc.keyId, request.pc.secret;
    SplitKeyUndoesFormat(request.fullKey, keyId, secret);
    SettleAnswers(w, After(w, before), r);
    assert before[..k] == run[..k];
  }

  // ---- One check -------------------------------------------------------------------------------------

  /** The text is a key: a formatted one with a non-empty hex id and a secret. */
  ghost predicate WellFormed(fullKey: string) {
    exists keyId, secret :: fullKey == FormatKey(keyId, secret) && keyId != "" && IsHex(keyId) && secret != ""
  }

  lemma WellFormedSplits(fullKey: string)
    ensures WellFormed(fullKey) <==> SplitKey(fullKey).Some?
  {
    if SplitKey(fullKey).Some? {
      var (keyId, secret) := SplitKey(fullKey).value;
      SplitKeyUndoesFormat(fullKey, keyId, secret);
    }
    if WellFormed(fullKey) {
      var keyId, secret :| fullKey == FormatKey(keyId, secret) && keyId != "" && IsHex(keyId) && secret != "";
      SplitKeyUndoesFormat(fullKey, keyId, secret);
    }
  }

  /**
   The check, exactly: a malformed key is refused; the bootstrap key, if one is set, is the administrator
   whatever is stored or cached; a key with a live entry is accepted, as the entry's holder, if and only if
   the hash of its secret is the entry's; any other key waits for its row.
   */
  lemma CheckExactly(w: World, s: State, r: nat)
    requires Possible(s, Check(r))
    ensures
      var request := s.requests[r];
      var pc := Effect(w, s, Check(r)).requests[r].pc;
      && (!WellFormed(request.fullKey) ==> pc == Resolved(None, s.now))
      && (WellFormed(request.fullKey) && IsBootstrap(w, request.fullKey) ==> pc == Resolved(Some(ADMINISTRATOR), s.now))
  {
    WellFormedSplits(s.requests[r].fullKey);
  }

  lemma CachedKeyExactly(w: World, s: State, r: nat, keyId: string, secret: string)
    requires Possible(s, Check(r)) && s.requests[r].fullKey == FormatKey(keyId, secret)
    requires keyId != "" && IsHex(keyId) && secret != "" && !IsBootstrap(w, s.requests[r].fullKey)
    ensures
      var cache := CacheOf(s, s.requests[r].process);
      var pc := Effect(w, s, Check(r)).requests[r].pc;
      if keyId in cache && s.now < cache[keyId].expiresAt
      then pc == Resolved(if cache[keyId].secretHash == w.hash(secret)
                          then Some(Holder(keyId, cache[keyId].name, cache[keyId].scopes)) else None, s.now)
      else pc == ToLookUp(keyId, secret)
  {
    SplitKeyUndoesFormat(s.requests[r].fullKey, keyId, secret);
  }

  // ---- Over any run ----------------------------------------------------------------------------------

  /** Where a request stands with the bootstrap key. */
  ghost predicate Bootstrapped(w: World, request: Request) {
    && (request.pc.Resolved? && request.pc.principal.Some? && request.pc.principal.value.keyId.None? ==>
          && WellFormed(request.fullKey) && IsBootstrap(w, request.fullKey)
          && request.pc.principal == Some(ADMINISTRATOR))
    && (WellFormed(request.fullKey) && IsBootstrap(w, request.fullKey) ==>
          request.pc.ToCheck? || (request.pc.Resolved? && request.pc.principal == Some(ADMINISTRATOR)))
  }

  lemma StepBootstraps(w: World, s: State, step: Step, r: nat)
    requires Possible(s, step) && r in Effect(w, s, step).requests
    requires r in s.requests ==> Bootstrapped(w, s.requests[r])
    ensures Bootstrapped(w, Effect(w, s, step).requests[r])
  {
    RequestAfter(w, s, step, r);
    if step == Check(r) {
      CheckExactly(w, s, r);
      if !IsBootstrap(w, s.requests[r].fullKey) {
        CheckWithoutBootstrap(w, s, r);
      }
    } else if step == Settle(r) {
      SettleAnswers(w, s, r);
    } else if step == LookUp(r) {
      assert Effect(w, s, step).requests[r].pc.ToSettle?;
    }
  }

  lemma CheckWithoutBootstrap(w: World, s: State, r: nat)
    requires Possible(s, Check(r)) && !IsBootstrap(w, s.requests[r].fullKey)
    ensures
      var pc := Effect(w, s, Check(r)).requests[r].pc;
      pc.Resolved? && pc.principal.Some? ==> pc.principal.value.keyId.Some?
  {
  }

  /**
   The bootstrap key, exactly, over any run of any processes. A request resolved without a stored key
   presented the bootstrap key, which was set and well formed, and is the administrator; and a request that
   presents it never waits for a row and is resolved as nobody else.
   */
  lemma {:induction false} BootstrapExactly(w: World, run: seq<Step>, r: nat)
    requires ValidRun(w, run) && r in After(w, run).requests
    ensures Bootstrapped(w, After(w, run).requests[r])
  {
    LastStep(w, run);
    var before, last := run[..|run| - 1], run[|run| - 1];
    RequestAfter(w, After(w, before), last, r);
    if r in After(w, before).requests {
      BootstrapExactly(w, before, r);
    }
    StepBootstraps(w, After(w, before), last, r);
  }

  // ---- From minting to use ---------------------------------------------------------------------------

  /** A key in use: its row is stored and live, and the text is its formatted key. */
  ghost predicate Minted(w: World, s: State, fullKey: string, keyId: string, secret: string, p: Principal) {
    && fullKey == FormatKey(keyId, secret) && keyId != "" && IsHex(keyId) && secret != ""
    && !IsBootstrap(w, fullKey)
    && Lookup(s.rows, keyId) == Some(KeyRow(w.hash(secret), p.name, p.scopes, None)) && p.keyId == Some(keyId)
  }

  lemma MintKey(w: World, run: seq<Step>, keyId: string, secret: string, name: string, scopes: set<string>)
    returns (longer: seq<Step>)
    requires ValidRun(w, run) && keyId !in After(w, run).rows
    requires keyId != "" && IsHex(keyId) && secret != "" && !IsBootstrap(w, FormatKey(keyId, secret))
    ensures longer == run + [CreateKey(keyId, secret, name, scopes)] && ValidRun(w, longer)
    ensures Minted(w, After(w, longer), FormatKey(keyId, secret), keyId, secret, Holder(keyId, name, scopes))
  {
    longer := Extend(w, run, CreateKey(keyId, secret, name, scopes));
  }

  /** The answer of a request, once it has one. */
  ghost predicate AnsweredAs(s: State, r: nat, p: Principal) {
    r in s.requests && s.requests[r].pc.Resolved? && s.requests[r].pc.principal == Some(p)
  }

  lemma ArriveAndAsk(w: World, run: seq<Step>, r: nat, process: nat, fullKey: string, keyId: string, secret: string,
                     p: Principal) returns (longer: seq<Step>)
    requires ValidRun(w, run) && r !in After(w, run).requests && Minted(w, After(w, run), fullKey, keyId, secret, p)
    requires keyId !in CacheOf(After(w, run), process)
    ensures ValidRun(w, longer) && run <= longer && Minted(w, After(w, longer), fullKey, keyId, secret, p)
    ensures
      var s' := After(w, longer);
      r in s'.requests && s'.requests[r] == Request(process, fullKey, ToLookUp(keyId, secret))
  {
    var arrived := Extend(w, run, Arrive(r, process, fullKey));
    CachedKeyExactly(w, After(w, arrived), r, keyId, secret);
    longer := Extend(w, arrived, Check(r));
  }

  /** A live key is accepted by a process that has not cached it, with the name and scopes it was minted with. */
  lemma MintedKeyIsAccepted(w: World, run: seq<Step>, r: nat, process: nat, fullKey: string, keyId: string,
                            secret: string, p: Principal) returns (longer: seq<Step>)
    requires ValidRun(w, run) && r !in After(w, run).requests && Minted(w, After(w, run), fullKey, keyId, secret, p)
    requires keyId !in CacheOf(After(w, run), process)
    ensures ValidRun(w, longer) && run <= longer && AnsweredAs(After(w, longer), r, p)
    ensures w.settings.authCacheSeconds > 0.0 ==>
              Lookup(CacheOf(After(w, longer), process), keyId)
              == Some(CachedKey(w.hash(secret), p.name, p.scopes,
                                After(w, longer).now + w.settings.authCacheSeconds))
  {
    var asked := ArriveAndAsk(w, run, r, process, fullKey, keyId, secret, p);
    var found := Extend(w, asked, LookUp(r));
    longer := Extend(w, found, Settle(r));
  }

  /** A revocation finds no key, a key already revoked, or one to revoke. */
  lemma RevocationAnswered(w: World, s: State, v: nat)
    requires Possible(s, ReadKey(v))
    ensures
      var pc, row := Effect(w, s, ReadKey(v)).revocations[v].pc, Lookup(s.rows, s.revocations[v].keyId);
      && (pc.NotFound? <==> row.None?)
      && (pc.Returned? <==> row.Some? && row.value.revokedAt.Some?)
      && (pc.ToCommit? <==> row.Some? && row.value.revokedAt.None?)
  {
  }
}
