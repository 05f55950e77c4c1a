/**
 Verification and revocation of stored keys across server processes. A request checks its
 process's cache, looks the row up, and settles; a revocation reads the row, commits the
 tombstone, and drops its own process's entry. Each of these is a step, and any number of
 requests and revocations interleave in any number of processes.
 */
module AuthLaws {
  import opened Wrappers
  import opened Auth

  // ---- The machine ---------------------------------------------------------------------------------

  datatype RequestPc =
    | ToCheck
    | ToLookUp(keyId: string, secret: string)
    | ToSettle(keyId: string, secret: string, row: Option<KeyRow>, readAt: real)
    | Resolved(principal: Option<Principal>, at: real)

  datatype Request = Request(process: nat, fullKey: string, pc: RequestPc)

  datatype RevokePc = ToRead | ToCommit | ToDrop | Returned | NotFound

  datatype Revocation = Revocation(process: nat, keyId: string, pc: RevokePc)

  datatype State = State(
    now: real,
    rows: map<string, KeyRow>,
    caches: map<nat, map<string, CachedKey>>,
    requests: map<nat, Request>,
    revocations: map<nat, Revocation>)

  const INITIAL := State(0.0, map[], map[], map[], map[])

  datatype World = World(hash: Hash, settings: Settings)

  datatype Step =
    | Wait(seconds: real)
    | CreateKey(keyId: string, secret: string, name: string, scopes: set<string>)
    | Arrive(r: nat, process: nat, fullKey: string)
    | Check(r: nat)
    | LookUp(r: nat)
    | Settle(r: nat)
    | AskRevoke(v: nat, process: nat, keyId: string)
    | ReadKey(v: nat)
    | CommitTombstone(v: nat)
    | DropEntry(v: nat)

  function CacheOf(s: State, process: nat): map<string, CachedKey> {
    if process in s.caches then s.caches[process] else map[]
  }

  /** Key ids are unique: inserting a second row under one is an integrity error. */
  predicate Possible(s: State, step: Step) {
    match step
    case Wait(seconds) => seconds >= 0.0
    case CreateKey(keyId, _, _, _) => keyId !in s.rows
    case Arrive(r, _, _) => r !in s.requests
    case Check(r) => r in s.requests && s.requests[r].pc.ToCheck?
    case LookUp(r) => r in s.requests && s.requests[r].pc.ToLookUp?
    case Settle(r) => r in s.requests && s.requests[r].pc.ToSettle?
    case AskRevoke(v, _, _) => v !in s.revocations
    case ReadKey(v) => v in s.revocations && s.revocations[v].pc.ToRead?
    case CommitTombstone(v) => v in s.revocations && s.revocations[v].pc.ToCommit? && s.revocations[v].keyId in s.rows
    case DropEntry(v) => v in s.revocations && s.revocations[v].pc.ToDrop?
  }

  function SetRequest(s: State, r: nat, request: Request, cache: map<string, CachedKey>): State {
    s.(requests := s.requests[r := request], caches := s.caches[request.process := cache])
  }

  function AfterCheck(w: World, s: State, r: nat): State
    requires r in s.requests
  {
    var request := s.requests[r];
    var (cache, verdict) := CheckCache(w.hash, w.settings, CacheOf(s, request.process), s.now, request.fullKey);
    var pc := match verdict
              case Known(p) => Resolved(p, s.now)
              case AskDatabase(keyId, secret) => ToLookUp(keyId, secret);
    SetRequest(s, r, request.(pc := pc), cache)
  }

  function AfterLookUp(s: State, r: nat): State
    requires r in s.requests && s.requests[r].pc.ToLookUp?
  {
    var request := s.requests[r];
    var pc := ToSettle(request.pc.keyId, request.pc.secret, Lookup(s.rows, request.pc.keyId), s.now);
    s.(requests := s.requests[r := request.(pc := pc)])
  }

  function AfterSettle(w: World, s: State, r: nat): State
    requires r in s.requests && s.requests[r].pc.ToSettle?
  {
    var request := s.requests[r];
    var pc := request.pc;
    var (cache, p) := SettleLookup(w.hash, w.settings, CacheOf(s, request.process), s.now, pc.keyId, pc.secret, pc.row);
    SetRequest(s, r, request.(pc := Resolved(p, s.now)), cache)
  }

  function AfterReadKey(s: State, v: nat): State
    requires v in s.revocations
  {
    var revocation := s.revocations[v];
    var row := Lookup(s.rows, revocation.keyId);
    var pc := if row.None? then NotFound else if row.value.revokedAt.None? then ToCommit else Returned;
    s.(revocations := s.revocations[v := revocation.(pc := pc)])
  }

  function AfterTombstone(s: State, v: nat): State
    requires v in s.revocations && s.revocations[v].keyId in s.rows
  {
    var revocation := s.revocations[v];
    var keyId := revocation.keyId;
    s.(rows := s.rows[keyId := s.rows[keyId].(revokedAt := Some(s.now))],
       revocations := s.revocations[v := revocation.(pc := ToDrop)])
  }

  function AfterDrop(s: State, v: nat): State
    requires v in s.revocations
  {
    var revocation := s.revocations[v];
    s.(caches := s.caches[revocation.process := CacheOf(s, revocation.process) - {revocation.keyId}],
       revocations := s.revocations[v := revocation.(pc := Returned)])
  }

  function Effect(w: World, s: State, step: Step): State
    requires Possible(s, step)
  {
    match step
    case Wait(seconds) => s.(now := s.now + seconds)
    case CreateKey(keyId, secret, name, scopes) =>
      s.(rows := s.rows[keyId := KeyRow(w.hash(secret), name, scopes, None)])
    case Arrive(r, process, fullKey) => s.(requests := s.requests[r := Request(process, fullKey, ToCheck)])
    case Check(r) => AfterCheck(w, s, r)
    case LookUp(r) => AfterLookUp(s, r)
    case Settle(r) => AfterSettle(w, s, r)
    case AskRevoke(v, process, keyId) => s.(revocations := s.revocations[v := Revocation(process, keyId, ToRead)])
    case ReadKey(v) => AfterReadKey(s, v)
    case CommitTombstone(v) => AfterTombstone(s, v)
    case DropEntry(v) => AfterDrop(s, v)
  }

  function After(w: World, run: seq<Step>): State {
    if run == [] then INITIAL
    else
      var s := After(w, run[..|run| - 1]);
      if Possible(s, run[|run| - 1]) then Effect(w, s, run[|run| - 1]) else s
  }

  predicate ValidRun(w: World, run: seq<Step>) {
    run == [] || (ValidRun(w, run[..|run| - 1]) && Possible(After(w, run[..|run| - 1]), run[|run| - 1]))
  }

  lemma LastStep(w: World, run: seq<Step>)
    requires ValidRun(w, run) && run != []
    ensures
      var before := run[..|run| - 1];
      && ValidRun(w, before) && Possible(After(w, before), run[|run| - 1])
      && After(w, run) == Effect(w, After(w, before), run[|run| - 1])
  {
  }

  lemma Extend(w: World, run: seq<Step>, step: Step) returns (longer: seq<Step>)
    requires ValidRun(w, run) && Possible(After(w, run), step)
    ensures longer == run + [step] && ValidRun(w, longer) && After(w, longer) == Effect(w, After(w, run), step)
  {
    longer := run + [step];
    assert longer[..|longer| - 1] == run;
  }

  // ---- How stale an accepted key can be ------------------------------------------------------------

  /** At instant k the key was stored, not revoked, with this hash, name and scopes. */
  predicate LiveAt(w: World, run: seq<Step>, k: nat, keyId: string, secretHash: string, name: string,
                   scopes: set<string>) {
    k <= |run| && Lookup(After(w, run[..k]).rows, keyId) == Some(KeyRow(secretHash, name, scopes, None))
  }

  function TimeAt(w: World, run: seq<Step>, k: nat): real
    requires k <= |run|
  {
    After(w, run[..k]).now
  }

  /** A cached entry copies a row that was live when its lookup read it. */
  ghost predicate EntryBacked(w: World, run: seq<Step>, lag: real, keyId: string, entry: CachedKey) {
    exists k: nat :: LiveAt(w, run, k, keyId, entry.secretHash, entry.name, entry.scopes)
                     && entry.expiresAt <= TimeAt(w, run, k) + lag + w.settings.authCacheSeconds
  }

  /** A row a request has read was the row at the time it was read. */
  ghost predicate RowBacked(w: World, run: seq<Step>, keyId: string, row: KeyRow, readAt: real) {
    row.revokedAt.None? ==>
      exists k: nat :: LiveAt(w, run, k, keyId, row.secretHash, row.name, row.scopes) && TimeAt(w, run, k) == readAt
  }

  /** At instant k, before the answer by no more than the window, the key was live and had this secret. */
  predicate AnswerBackedAt(w: World, run: seq<Step>, lag: real, k: nat, keyId: string, secret: string, p: Principal,
                           at: real) {
    && LiveAt(w, run, k, keyId, w.hash(secret), p.name, p.scopes)
    && TimeAt(w, run, k) <= at
    && (at < TimeAt(w, run, k) + lag + w.settings.authCacheSeconds || at <= TimeAt(w, run, k) + lag)
  }

  /** An accepted stored key was live within the window before it was accepted. */
  ghost predicate AnswerBacked(w: World, run: seq<Step>, lag: real, request: Request, p: Principal, at: real) {
    p.keyId.Some? ==>
      && SplitKey(request.fullKey).Some?
      && var (keyId, secret) := SplitKey(request.fullKey).value;
         keyId == p.keyId.value && exists k: nat :: AnswerBackedAt(w, run, lag, k, keyId, secret, p, at)
  }

  ghost predicate RequestBacked(w: World, run: seq<Step>, lag: real, request: Request) {
    match request.pc
    case ToCheck => true
    case ToLookUp(keyId, secret) => SplitKey(request.fullKey) == Some((keyId, secret))
    case ToSettle(keyId, secret, row, readAt) =>
      && SplitKey(request.fullKey) == Some((keyId, secret))
      && (row.Some? ==> RowBacked(w, run, keyId, row.value, readAt))
    case Resolved(principal, at) => principal.Some? ==> AnswerBacked(w, run, lag, request, principal.value, at)
  }

  ghost predicate CacheBacked(w: World, run: seq<Step>, lag: real, cache: map<string, CachedKey>) {
    forall keyId :: keyId in cache ==> EntryBacked(w, run, lag, keyId, cache[keyId])
  }

  ghost predicate Backed(w: World, run: seq<Step>, lag: real) {
    var s := After(w, run);
    && (forall p :: p in s.caches ==> CacheBacked(w, run, lag, s.caches[p]))
    && (forall r :: r in s.requests ==> RequestBacked(w, run, lag, s.requests[r]))
  }

  /** No lookup takes longer than `lag` from reading the row to filling the cache. */
  predicate Prompt(w: World, run: seq<Step>, lag: real) {
    run == []
    || (var s := After(w, run[..|run| - 1]);
        var last := run[|run| - 1];
        && Prompt(w, run[..|run| - 1], lag)
        && (last.Settle? && Possible(s, last) ==> s.now <= s.requests[last.r].pc.readAt + lag))
  }

  lemma LiveStays(w: World, run: seq<Step>, k: nat, keyId: string, secretHash: string, name: string,
                  scopes: set<string>)
    requires run != [] && LiveAt(w, run[..|run| - 1], k, keyId, secretHash, name, scopes)
    ensures LiveAt(w, run, k, keyId, secretHash, name, scopes) && k < |run|
    ensures TimeAt(w, run, k) == TimeAt(w, run[..|run| - 1], k)
  {
    assert run[..|run| - 1][..k] == run[..k];
  }

  lemma EntryStays(w: World, run: seq<Step>, lag: real, keyId: string, entry: CachedKey)
    requires run != [] && EntryBacked(w, run[..|run| - 1], lag, keyId, entry)
    ensures EntryBacked(w, run, lag, keyId, entry)
  {
    var before := run[..|run| - 1];
    var k: nat :| LiveAt(w, before, k, keyId, entry.secretHash, entry.name, entry.scopes)
                  && entry.expiresAt <= TimeAt(w, before, k) + lag + w.settings.authCacheSeconds;
    LiveStays(w, run, k, keyId, entry.secretHash, entry.name, entry.scopes);
  }

  lemma CacheStays(w: World, run: seq<Step>, lag: real, cache: map<string, CachedKey>)
    requires run != [] && CacheBacked(w, run[..|run| - 1], lag, cache)
    ensures CacheBacked(w, run, lag, cache)
  {
    forall keyId | keyId in cache ensures EntryBacked(w, run, lag, keyId, cache[keyId]) {
      EntryStays(w, run, lag, keyId, cache[keyId]);
    }
  }

  lemma RowStays(w: World, run: seq<Step>, keyId: string, row: KeyRow, readAt: real)
    requires run != [] && RowBacked(w, run[..|run| - 1], keyId, row, readAt)
    ensures RowBacked(w, run, keyId, row, readAt)
  {
    var before := run[..|run| - 1];
    if row.revokedAt.None? {
      var k: nat :| LiveAt(w, before, k, keyId, row.secretHash, row.name, row.scopes) && TimeAt(w, before, k) == readAt;
      LiveStays(w, run, k, keyId, row.secretHash, row.name, row.scopes);
    }
  }

  lemma RequestStays(w: World, run: seq<Step>, lag: real, request: Request)
    requires run != [] && RequestBacked(w, run[..|run| - 1], lag, request)
    ensures RequestBacked(w, run, lag, request)
  {
    var before := run[..|run| - 1];
    match request.pc
    case ToSettle(keyId, secret, row, readAt) =>
      if row.Some? {
        RowStays(w, run, keyId, row.value, readAt);
      }
    case Resolved(principal, at) =>
      if principal.Some? && principal.value.keyId.Some? {
        var (keyId, secret) := SplitKey(request.fullKey).value;
        var p := principal.value;
        var k: nat :| AnswerBackedAt(w, before, lag, k, keyId, secret, p, at);
        LiveStays(w, run, k, keyId, w.hash(secret), p.name, p.scopes);
        assert AnswerBackedAt(w, run, lag, k, keyId, secret, p, at);
      }
    case _ =>
  }

  lemma {:induction false} TimeGrows(w: World, run: seq<Step>, k: nat)
    requires ValidRun(w, run) && k <= |run|
    ensures TimeAt(w, run, k) <= After(w, run).now
  {
    if k < |run| {
      LastStep(w, run);
      TimeGrows(w, run[..|run| - 1], k);
      assert run[..|run| - 1][..k] == run[..k];
    } else {
      assert run[..k] == run;
    }
  }

  /** What the cache check leaves behind and answers is backed by what backed the cache. */
  lemma CheckIsBacked(w: World, run: seq<Step>, lag: real, request: Request, cache: map<string, CachedKey>)
    requires ValidRun(w, run) && CacheBacked(w, run, lag, cache) && lag >= 0.0
    ensures
      var now := After(w, run).now;
      var (cache', verdict) := CheckCache(w.hash, w.settings, cache, now, request.fullKey);
      && CacheBacked(w, run, lag, cache')
      && match verdict
         case Known(p) => p.Some? ==> AnswerBacked(w, run, lag, request, p.value, now)
         case AskDatabase(keyId, secret) => SplitKey(request.fullKey) == Some((keyId, secret))
  {
    var now := After(w, run).now;
    var (cache', verdict) := CheckCache(w.hash, w.settings, cache, now, request.fullKey);
    if verdict.Known? && verdict.principal.Some? && verdict.principal.value.keyId.Some? {
      var (keyId, secret) := SplitKey(request.fullKey).value;
      var entry := cache[keyId];
      var k: nat :| LiveAt(w, run, k, keyId, entry.secretHash, entry.name, entry.scopes)
                    && entry.expiresAt <= TimeAt(w, run, k) + lag + w.settings.authCacheSeconds;
      TimeGrows(w, run, k);
      assert AnswerBackedAt(w, run, lag, k, keyId, secret, verdict.principal.value, now);
    }
  }

  /** A prompt lookup fills the cache and answers with what was live when it read the row. */
  lemma SettleIsBacked(w: World, run: seq<Step>, lag: real, request: Request, cache: map<string, CachedKey>)
    requires ValidRun(w, run) && CacheBacked(w, run, lag, cache)
    requires request.pc.ToSettle? && RequestBacked(w, run, lag, request)
    requires After(w, run).now <= request.pc.readAt + lag
    ensures
      var now := After(w, run).now;
      var pc := request.pc;
      var (cache', p) := SettleLookup(w.hash, w.settings, cache, now, pc.keyId, pc.secret, pc.row);
      CacheBacked(w, run, lag, cache') && (p.Some? ==> AnswerBacked(w, run, lag, request, p.value, now))
  {
    var now := After(w, run).now;
    var pc := request.pc;
    var (cache', p) := SettleLookup(w.hash, w.settings, cache, now, pc.keyId, pc.secret, pc.row);
    if p.Some? {
      var row := pc.row.value;
      var k: nat :| LiveAt(w, run, k, pc.keyId, row.secretHash, row.name, row.scopes) && TimeAt(w, run, k) == pc.readAt;
      TimeGrows(w, run, k);
      assert AnswerBackedAt(w, run, lag, k, pc.keyId, pc.secret, p.value, now);
      if w.settings.authCacheSeconds > 0.0 {
        assert EntryBacked(w, run, lag, pc.keyId, cache'[pc.keyId]);
      }
    }
  }

  lemma LookUpIsBacked(w: World, run: seq<Step>, keyId: string)
    requires keyId in After(w, run).rows
    ensures RowBacked(w, run, keyId, After(w, run).rows[keyId], After(w, run).now)
  {
    var row := After(w, run).rows[keyId];
    assert run[..|run|] == run;
    if row.revokedAt.None? {
      assert LiveAt(w, run, |run|, keyId, row.secretHash, row.name, row.scopes);
    }
  }

  /** The effect of a step on one request and on one cache, seen from the run before it. */
  lemma StepIsBacked(w: World, run: seq<Step>, lag: real)
    requires ValidRun(w, run) && run != [] && Prompt(w, run, lag) && lag >= 0.0 && Backed(w, run[..|run| - 1], lag)
    ensures
      var before := run[..|run| - 1];
      var s' := After(w, run);
      && (forall p :: p in s'.caches ==> CacheBacked(w, before, lag, s'.caches[p]))
      && (forall r :: r in s'.requests ==> RequestBacked(w, before, lag, s'.requests[r]))
  {
    LastStep(w, run);
    var before, last := run[..|run| - 1], run[|run| - 1];
    var s := After(w, before);
    match last
    case Check(r) =>
      CheckIsBacked(w, before, lag, s.requests[r], CacheOf(s, s.requests[r].process));
    case LookUp(r) =>
      if s.requests[r].pc.keyId in s.rows {
        LookUpIsBacked(w, before, s.requests[r].pc.keyId);
      }
    case Settle(r) =>
      SettleIsBacked(w, before, lag, s.requests[r], CacheOf(s, s.requests[r].process));
    case _ =>
  }

  lemma BackedStays(w: World, run: seq<Step>, lag: real, s': State)
    requires run != [] && s' == After(w, run)
    requires forall p :: p in s'.caches ==> CacheBacked(w, run[..|run| - 1], lag, s'.caches[p])
    requires forall r :: r in s'.requests ==> RequestBacked(w, run[..|run| - 1], lag, s'.requests[r])
    ensures Backed(w, run, lag)
  {
    forall p | p in s'.caches ensures CacheBacked(w, run, lag, s'.caches[p]) {
      CacheStays(w, run, lag, s'.caches[p]);
    }
    forall r | r in s'.requests ensures RequestBacked(w, run, lag, s'.requests[r]) {
      RequestStays(w, run, lag, s'.requests[r]);
    }
  }

  lemma {:induction false} AlwaysBacked(w: World, run: seq<Step>, lag: real)
    requires ValidRun(w, run) && Prompt(w, run, lag) && lag >= 0.0
    ensures Backed(w, run, lag)
  {
    if run != [] {
      AlwaysBacked(w, run[..|run| - 1], lag);
      StepIsBacked(w, run, lag);
      BackedStays(w, run, lag, After(w, run));
    }
  }

  /**
   An accepted stored key was live a moment ago. Whatever requests and revocations run in
   whatever processes, a key accepted at time t had an unrevoked row with that secret's hash,
   and the name and scopes it was accepted with, either less than the cache's TTL before t or
   at t itself, give or take the time a lookup takes.
   */
  lemma AcceptedKeyWasLive(w: World, run: seq<Step>, lag: real, r: nat) returns (k: nat)
    requires ValidRun(w, run) && Prompt(w, run, lag) && lag >= 0.0
    requires r in After(w, run).requests
    requires
      var pc := After(w, run).requests[r].pc;
      pc.Resolved? && pc.principal.Some? && pc.principal.value.keyId.Some?
    ensures
      var request := After(w, run).requests[r];
      var (p, t) := (request.pc.principal.value, request.pc.at);
      && SplitKey(request.fullKey).Some? && k <= |run|
      && var (keyId, secret) := SplitKey(request.fullKey).value;
         && p.keyId == Some(keyId)
         && Lookup(After(w, run[..k]).rows, keyId) == Some(KeyRow(w.hash(secret), p.name, p.scopes, None))
         && After(w, run[..k]).now <= t
         && (t - w.settings.authCacheSeconds - lag < After(w, run[..k]).now || t - lag <= After(w, run[..k]).now)
  {
    AlwaysBacked(w, run, lag);
    var request := After(w, run).requests[r];
    assert RequestBacked(w, run, lag, request);
    var (p, t) := (request.pc.principal.value, request.pc.at);
    var (keyId, secret) := SplitKey(request.fullKey).value;
    k :| AnswerBackedAt(w, run, lag, k, keyId, secret, p, t);
  }

  // ---- Revocation ----------------------------------------------------------------------------------

  predicate Revoked(s: State, keyId: string) {
    keyId in s.rows && s.rows[keyId].revokedAt.Some?
  }

  /** A tombstone is for good. */
  lemma {:induction false} RevokedStays(w: World, run: seq<Step>, j: nat, keyId: string)
    requires ValidRun(w, run) && j <= |run| && Revoked(After(w, run[..j]), keyId)
    ensures Revoked(After(w, run), keyId)
  {
    if j < |run| {
      LastStep(w, run);
      assert run[..|run| - 1][..j] == run[..j];
      RevokedStays(w, run[..|run| - 1], j, keyId);
    } else {
      assert run[..j] == run;
    }
  }

  lemma {:induction false} PrefixIsValid(w: World, run: seq<Step>, k: nat)
    requires ValidRun(w, run) && k <= |run|
    ensures ValidRun(w, run[..k])
  {
    if k < |run| {
      PrefixIsValid(w, run[..|run| - 1], k);
      assert run[..|run| - 1][..k] == run[..k];
    } else {
      assert run[..k] == run;
    }
  }

  /**
   Revocation reaches every process within the cache's TTL, give or take the time a lookup
   takes: nothing is accepted later than that after the tombstone.
   */
  lemma RevocationReachesEveryProcess(w: World, run: seq<Step>, lag: real, j: nat, keyId: string, r: nat)
    requires ValidRun(w, run) && Prompt(w, run, lag) && lag >= 0.0 && j <= |run|
    requires Revoked(After(w, run[..j]), keyId) && r in After(w, run).requests
    requires
      var pc := After(w, run).requests[r].pc;
      pc.Resolved? && pc.principal.Some? && pc.principal.value.keyId == Some(keyId)
    ensures
      var t := After(w, run).requests[r].pc.at;
      var tombstone := After(w, run[..j]).now;
      t < tombstone + w.settings.authCacheSeconds + lag || t <= tombstone + lag
  {
    var k := AcceptedKeyWasLive(w, run, lag, r);
    if j < k {
      PrefixIsValid(w, run, k);
      assert run[..k][..j] == run[..j];
      RevokedStays(w, run[..k], j, keyId);
    }
    PrefixIsValid(w, run, j);
    assert run[..j][..k] == run[..k];
    TimeGrows(w, run[..j], k);
  }

  /** A lookup in the process has read the row before the tombstone and has yet to settle. */
  predicate LiveLookup(w: World, s: State, process: nat, keyId: string, r: nat) {
    && r in s.requests && s.requests[r].process == process && s.requests[r].pc.ToSettle?
    && s.requests[r].pc.keyId == keyId
    && Proves(w.hash, s.requests[r].pc.row, s.requests[r].pc.secret)
  }

  /** Nothing in the process can still vouch for the key. */
  ghost predicate Gone(w: World, s: State, process: nat, keyId: string) {
    && Revoked(s, keyId)
    && (keyId in CacheOf(s, process) ==> Expired(CacheOf(s, process)[keyId], s.now))
    && (forall r :: !LiveLookup(w, s, process, keyId, r))
  }

  /** The request has been answered, as that stored key. */
  predicate Accepted(s: State, process: nat, keyId: string, r: nat) {
    && r in s.requests && s.requests[r].process == process && s.requests[r].pc.Resolved?
    && s.requests[r].pc.principal.Some? && s.requests[r].pc.principal.value.keyId == Some(keyId)
  }

  lemma CheckStaysGone(w: World, s: State, process: nat, keyId: string, r: nat)
    requires Gone(w, s, process, keyId) && Possible(s, Check(r))
    ensures Gone(w, AfterCheck(w, s, r), process, keyId)
    ensures forall q :: Accepted(AfterCheck(w, s, r), process, keyId, q) ==> Accepted(s, process, keyId, q)
  {
    var s' := AfterCheck(w, s, r);
    assert forall q :: LiveLookup(w, s', process, keyId, q) ==> LiveLookup(w, s, process, keyId, q);
  }

  lemma LookUpStaysGone(w: World, s: State, process: nat, keyId: string, r: nat)
    requires Gone(w, s, process, keyId) && Possible(s, LookUp(r))
    ensures Gone(w, AfterLookUp(s, r), process, keyId)
    ensures forall q :: Accepted(AfterLookUp(s, r), process, keyId, q) ==> Accepted(s, process, keyId, q)
  {
    var s' := AfterLookUp(s, r);
    assert forall q :: LiveLookup(w, s', process, keyId, q) ==> LiveLookup(w, s, process, keyId, q);
  }

  lemma SettleStaysGone(w: World, s: State, process: nat, keyId: string, r: nat)
    requires Gone(w, s, process, keyId) && Possible(s, Settle(r))
    ensures Gone(w, AfterSettle(w, s, r), process, keyId)
    ensures forall q :: Accepted(AfterSettle(w, s, r), process, keyId, q) ==> Accepted(s, process, keyId, q)
  {
    var s' := AfterSettle(w, s, r);
    assert !LiveLookup(w, s, process, keyId, r);
    assert forall q :: LiveLookup(w, s', process, keyId, q) ==> LiveLookup(w, s, process, keyId, q);
  }

  lemma StaysGone(w: World, s: State, step: Step, process: nat, keyId: string)
    requires Gone(w, s, process, keyId) && Possible(s, step)
    ensures Gone(w, Effect(w, s, step), process, keyId)
    ensures forall q :: Accepted(Effect(w, s, step), process, keyId, q) ==> Accepted(s, process, keyId, q)
  {
    match step
    case Check(r) => CheckStaysGone(w, s, process, keyId, r);
    case LookUp(r) => LookUpStaysGone(w, s, process, keyId, r);
    case Settle(r) => SettleStaysGone(w, s, process, keyId, r);
    case _ =>
      var s' := Effect(w, s, step);
      assert forall q :: LiveLookup(w, s', process, keyId, q) ==> LiveLookup(w, s, process, keyId, q);
  }

  /** Once nothing in the process vouches for the key, no continuation accepts it there. */
  lemma {:induction false} NeverAcceptedAgain(w: World, run: seq<Step>, more: seq<Step>, process: nat, keyId: string)
    requires ValidRun(w, run + more) && Gone(w, After(w, run), process, keyId)
    ensures Gone(w, After(w, run + more), process, keyId)
    ensures forall q :: Accepted(After(w, run + more), process, keyId, q) ==> Accepted(After(w, run), process, keyId, q)
  {
    if more == [] {
      assert run + more == run;
    } else {
      var before := more[..|more| - 1];
      assert (run + more)[..|run + more| - 1] == run + before;
      LastStep(w, run + more);
      NeverAcceptedAgain(w, run, before, process, keyId);
      StaysGone(w, After(w, run + before), more[|more| - 1], process, keyId);
    }
  }

  // ---- When a revoked key is gone for good -----------------------------------------------------------

  predicate IsBootstrap(w: World, fullKey: string) {
    w.settings.bootstrapAdminKey != "" && fullKey == w.settings.bootstrapAdminKey
  }

  /** A full key that reaches the lookup of this key id with this secret. */
  predicate Presents(w: World, fullKey: string, keyId: string, secret: string) {
    SplitKey(fullKey) == Some((keyId, secret)) && !IsBootstrap(w, fullKey)
  }

  /** Somebody holds a full key that the entry accepts. */
  ghost predicate EntryFilled(w: World, keyId: string, entry: CachedKey) {
    exists fullKey, secret :: Presents(w, fullKey, keyId, secret) && w.hash(secret) == entry.secretHash
  }

  predicate RequestPresents(w: World, request: Request) {
    match request.pc
    case ToLookUp(keyId, secret) => Presents(w, request.fullKey, keyId, secret)
    case ToSettle(keyId, secret, _, _) => Presents(w, request.fullKey, keyId, secret)
    case _ => true
  }

  ghost predicate CacheFilled(w: World, cache: map<string, CachedKey>) {
    forall keyId :: keyId in cache ==> EntryFilled(w, keyId, cache[keyId])
  }

  ghost predicate Filled(w: World, s: State) {
    && (forall p :: p in s.caches ==> CacheFilled(w, s.caches[p]))
    && (forall r :: r in s.requests ==> RequestPresents(w, s.requests[r]))
  }

  lemma CheckFills(w: World, cache: map<string, CachedKey>, now: real, request: Request)
    requires CacheFilled(w, cache)
    ensures
      var (cache', verdict) := CheckCache(w.hash, w.settings, cache, now, request.fullKey);
      && CacheFilled(w, cache')
      && (verdict.AskDatabase? ==> Presents(w, request.fullKey, verdict.keyId, verdict.secret))
  {
  }

  lemma SettleFills(w: World, cache: map<string, CachedKey>, now: real, request: Request)
    requires CacheFilled(w, cache) && request.pc.ToSettle? && RequestPresents(w, request)
    ensures
      var pc := request.pc;
      CacheFilled(w, SettleLookup(w.hash, w.settings, cache, now, pc.keyId, pc.secret, pc.row).0)
  {
    var pc := request.pc;
    var cache' := SettleLookup(w.hash, w.settings, cache, now, pc.keyId, pc.secret, pc.row).0;
    forall keyId | keyId in cache' ensures EntryFilled(w, keyId, cache'[keyId]) {
      if !(keyId in cache && cache'[keyId] == cache[keyId]) {
        assert Presents(w, request.fullKey, keyId, pc.secret);
      }
    }
  }

  lemma SetRequestFills(w: World, s: State, r: nat, request: Request, cache: map<string, CachedKey>)
    requires Filled(w, s) && RequestPresents(w, request) && CacheFilled(w, cache)
    ensures Filled(w, SetRequest(s, r, request, cache))
  {
  }

  lemma CheckStaysFilled(w: World, s: State, r: nat)
    requires Filled(w, s) && Possible(s, Check(r))
    ensures Filled(w, AfterCheck(w, s, r))
  {
    var request := s.requests[r];
    var cache := CacheOf(s, request.process);
    CheckFills(w, cache, s.now, request);
    var cache' := CheckCache(w.hash, w.settings, cache, s.now, request.fullKey).0;
    SetRequestFills(w, s, r, AfterCheck(w, s, r).requests[r], cache');
  }

  lemma SettleStaysFilled(w: World, s: State, r: nat)
    requires Filled(w, s) && Possible(s, Settle(r))
    ensures Filled(w, AfterSettle(w, s, r))
  {
    var request, pc := s.requests[r], s.requests[r].pc;
    var cache := CacheOf(s, request.process);
    SettleFills(w, cache, s.now, request);
    var (cache', p) := SettleLookup(w.hash, w.settings, cache, s.now, pc.keyId, pc.secret, pc.row);
    SetRequestFills(w, s, r, request.(pc := Resolved(p, s.now)), cache');
  }

  lemma DropStaysFilled(w: World, s: State, v: nat)
    requires Filled(w, s) && Possible(s, DropEntry(v))
    ensures Filled(w, AfterDrop(s, v))
  {
    var process := s.revocations[v].process;
    assert CacheFilled(w, CacheOf(s, process) - {s.revocations[v].keyId});
  }

  lemma StaysFilled(w: World, s: State, step: Step)
    requires Filled(w, s) && Possible(s, step)
    ensures Filled(w, Effect(w, s, step))
  {
    match step
    case Check(r) => CheckStaysFilled(w, s, r);
    case Settle(r) => SettleStaysFilled(w, s, r);
    case LookUp(r) => assert Effect(w, s, step).caches == s.caches;
    case DropEntry(v) => DropStaysFilled(w, s, v);
    case _ => assert Effect(w, s, step).caches == s.caches;
  }

  lemma {:induction false} AlwaysFilled(w: World, run: seq<Step>)
    requires ValidRun(w, run)
    ensures Filled(w, After(w, run))
  {
    if run != [] {
      LastStep(w, run);
      AlwaysFilled(w, run[..|run| - 1]);
      StaysFilled(w, After(w, run[..|run| - 1]), run[|run| - 1]);
    }
  }

  lemma CachedKeyIsAccepted(w: World, s: State, r: nat, process: nat, keyId: string, secret: string)
    requires r in s.requests && s.requests[r].process == process
    requires SplitKey(s.requests[r].fullKey) == Some((keyId, secret))
    requires !IsBootstrap(w, s.requests[r].fullKey) && keyId in CacheOf(s, process)
    requires !Expired(CacheOf(s, process)[keyId], s.now) && CacheOf(s, process)[keyId].secretHash == w.hash(secret)
    ensures Accepted(AfterCheck(w, s, r), process, keyId, r)
  {
  }

  /** Whoever filled a live entry is accepted on the next request. */
  lemma LiveEntryIsAccepted(w: World, run: seq<Step>, process: nat, keyId: string) returns (more: seq<Step>, r: nat)
    requires ValidRun(w, run) && keyId in CacheOf(After(w, run), process)
    requires !Expired(CacheOf(After(w, run), process)[keyId], After(w, run).now)
    ensures ValidRun(w, run + more) && Accepted(After(w, run + more), process, keyId, r)
    ensures !Accepted(After(w, run), process, keyId, r)
  {
    var s := After(w, run);
    AlwaysFilled(w, run);
    var entry := CacheOf(s, process)[keyId];
    var fullKey, secret :| Presents(w, fullKey, keyId, secret) && w.hash(secret) == entry.secretHash;
    r := UnusedKey(s.requests);
    more := ArriveAndCheck(w, run, r, process, keyId, fullKey, secret);
  }

  lemma ArriveAndCheck(w: World, run: seq<Step>, r: nat, process: nat, keyId: string, fullKey: string, secret: string)
    returns (more: seq<Step>)
    requires ValidRun(w, run) && r !in After(w, run).requests && keyId in CacheOf(After(w, run), process)
    requires !Expired(CacheOf(After(w, run), process)[keyId], After(w, run).now)
    requires Presents(w, fullKey, keyId, secret) && w.hash(secret) == CacheOf(After(w, run), process)[keyId].secretHash
    ensures ValidRun(w, run + more) && Accepted(After(w, run + more), process, keyId, r)
  {
    var arrived := Extend(w, run, Arrive(r, process, fullKey));
    CachedKeyIsAccepted(w, After(w, arrived), r, process, keyId, secret);
    var checked := Extend(w, arrived, Check(r));
    more := [Arrive(r, process, fullKey), Check(r)];
    assert run + more == checked;
  }

  /**
   Exactly when a revoked key is gone from a process: no continuation accepts it there again if
   and only if the process has no unexpired entry for it and no lookup that read the row before the
   tombstone is still to settle. It decides every revocation, the first one and a repeated one.
   */
  lemma GoneForGoodExactly(w: World, run: seq<Step>, process: nat, keyId: string)
    requires ValidRun(w, run) && Revoked(After(w, run), keyId)
    ensures
      (forall more, r :: ValidRun(w, run + more) && Accepted(After(w, run + more), process, keyId, r)
                         ==> Accepted(After(w, run), process, keyId, r))
      <==> Gone(w, After(w, run), process, keyId)
  {
    var s := After(w, run);
    if Gone(w, s, process, keyId) {
      forall more, r | ValidRun(w, run + more) && Accepted(After(w, run + more), process, keyId, r)
        ensures Accepted(s, process, keyId, r)
      {
        NeverAcceptedAgain(w, run, more, process, keyId);
      }
    } else if r :| LiveLookup(w, s, process, keyId, r) {
      LiveLookupIsAccepted(w, run, process, keyId, r);
    } else {
      var more, r := LiveEntryIsAccepted(w, run, process, keyId);
    }
  }

  lemma LiveLookupIsAccepted(w: World, run: seq<Step>, process: nat, keyId: string, r: nat)
    requires ValidRun(w, run) && LiveLookup(w, After(w, run), process, keyId, r)
    ensures ValidRun(w, run + [Settle(r)]) && Accepted(After(w, run + [Settle(r)]), process, keyId, r)
    ensures !Accepted(After(w, run), process, keyId, r)
  {
    var longer := run + [Settle(r)];
    assert longer[..|longer| - 1] == run;
  }

  // ---- Revoking once ---------------------------------------------------------------------------------

  ghost predicate TombstonesStand(s: State) {
    forall v :: v in s.revocations && s.revocations[v].pc.ToDrop? ==> Revoked(s, s.revocations[v].keyId)
  }

  lemma {:induction false} TombstonesAlwaysStand(w: World, run: seq<Step>)
    requires ValidRun(w, run)
    ensures TombstonesStand(After(w, run))
  {
    if run != [] {
      LastStep(w, run);
      TombstonesAlwaysStand(w, run[..|run| - 1]);
    }
  }

  /** The run ends with revocation v dropping its process's entry, after its tombstone. */
  predicate EndsWithDrop(run: seq<Step>, v: nat) {
    run != [] && run[|run| - 1] == DropEntry(v)
  }

  lemma AfterDropGone(w: World, run: seq<Step>, v: nat)
    requires ValidRun(w, run) && EndsWithDrop(run, v)
    ensures v in After(w, run).revocations
    ensures
      var (s, revocation) := (After(w, run), After(w, run).revocations[v]);
      Gone(w, s, revocation.process, revocation.keyId)
      <==> forall r :: !LiveLookup(w, s, revocation.process, revocation.keyId, r)
  {
    LastStep(w, run);
    TombstonesAlwaysStand(w, run[..|run| - 1]);
  }

  /**
   Revocation is immediate in its own process. The process whose call set the tombstone never
   accepts the key again once that call returns, if and only if no lookup of the key that read
   the row before the tombstone is still to settle there.
   */
  lemma RevocationIsImmediate(w: World, run: seq<Step>, v: nat)
    requires ValidRun(w, run) && EndsWithDrop(run, v)
    ensures v in After(w, run).revocations
    ensures
      var s := After(w, run);
      var (process, keyId) := (s.revocations[v].process, s.revocations[v].keyId);
      (forall more, r :: ValidRun(w, run + more) && Accepted(After(w, run + more), process, keyId, r)
                         ==> Accepted(s, process, keyId, r))
      <==> forall r :: !LiveLookup(w, s, process, keyId, r)
  {
    AfterDropGone(w, run, v);
    var revocation := After(w, run).revocations[v];
    LastStep(w, run);
    TombstonesAlwaysStand(w, run[..|run| - 1]);
    GoneForGoodExactly(w, run, revocation.process, revocation.keyId);
  }

  // ---- Revoking twice ------------------------------------------------------------------------------

  /** A request that finds nothing in the cache and a live row: three steps to a cached entry. */
  lemma ExtendFill(w: World, run: seq<Step>, r: nat, process: nat, keyId: string,
                   secret: string) returns (longer: seq<Step>)
    requires ValidRun(w, run) && w.settings.authCacheSeconds > 0.0
    requires
      var s := After(w, run);
      && r in s.requests && s.requests[r].process == process && s.requests[r].pc == ToCheck
      && SplitKey(s.requests[r].fullKey) == Some((keyId, secret))
      && s.requests[r].fullKey != w.settings.bootstrapAdminKey
      && CacheOf(s, process) == map[] && Proves(w.hash, Lookup(s.rows, keyId), secret)
    ensures ValidRun(w, longer)
    ensures
      var (s, s') := (After(w, run), After(w, longer));
      var row := s.rows[keyId];
      && s'.now == s.now && s'.rows == s.rows && s'.revocations == s.revocations
      && s'.requests.Keys == s.requests.Keys
      && CacheOf(s', process)
         == map[keyId := CachedKey(row.secretHash, row.name, row.scopes, s.now + w.settings.authCacheSeconds)]
  {
    longer := Extend(w, run, Check(r));
    assert After(w, longer).requests[r].pc == ToLookUp(keyId, secret) && CacheOf(After(w, longer), process) == map[];
    longer := Extend(w, longer, LookUp(r));
    longer := ExtendSettle(w, longer, r, process);
  }

  lemma ExtendSettle(w: World, run: seq<Step>, r: nat, process: nat) returns (longer: seq<Step>)
    requires ValidRun(w, run) && w.settings.authCacheSeconds > 0.0
    requires
      var s := After(w, run);
      && r in s.requests && s.requests[r].process == process && s.requests[r].pc.ToSettle?
      && CacheOf(s, process) == map[] && Proves(w.hash, s.requests[r].pc.row, s.requests[r].pc.secret)
    ensures ValidRun(w, longer)
    ensures
      var (s, s') := (After(w, run), After(w, longer));
      var (keyId, row) := (s.requests[r].pc.keyId, s.requests[r].pc.row.value);
      && s'.now == s.now && s'.rows == s.rows && s'.revocations == s.revocations
      && s'.requests.Keys == s.requests.Keys
      && CacheOf(s', process)
         == map[keyId := CachedKey(row.secretHash, row.name, row.scopes, s.now + w.settings.authCacheSeconds)]
  {
    longer := Extend(w, run, Settle(r));
  }

  /** A revocation that has found its key live: it commits and drops. */
  lemma ExtendTombstone(w: World, run: seq<Step>, v: nat) returns (longer: seq<Step>)
    requires ValidRun(w, run) && v in After(w, run).revocations && After(w, run).revocations[v].pc.ToCommit?
    requires After(w, run).revocations[v].keyId in After(w, run).rows
    ensures ValidRun(w, longer)
    ensures
      var (s, s') := (After(w, run), After(w, longer));
      var revocation := s.revocations[v];
      && s'.now == s.now && Revoked(s', revocation.keyId) && s'.requests == s.requests
      && s'.revocations.Keys == s.revocations.Keys
      && forall p :: p != revocation.process ==> CacheOf(s', p) == CacheOf(s, p)
  {
    longer := Extend(w, run, CommitTombstone(v));
    longer := Extend(w, longer, DropEntry(v));
  }

  /** A revocation of a live key, start to end. */
  lemma ExtendRevoke(w: World, run: seq<Step>, v: nat, process: nat, keyId: string) returns (longer: seq<Step>)
    requires ValidRun(w, run) && v !in After(w, run).revocations
    requires keyId in After(w, run).rows && After(w, run).rows[keyId].revokedAt.None?
    ensures ValidRun(w, longer)
    ensures
      var (s, s') := (After(w, run), After(w, longer));
      && s'.now == s.now && Revoked(s', keyId) && s'.requests == s.requests
      && s'.revocations.Keys == s.revocations.Keys + {v}
      && forall p :: p != process ==> CacheOf(s', p) == CacheOf(s, p)
  {
    longer := Extend(w, run, AskRevoke(v, process, keyId));
    longer := Extend(w, longer, ReadKey(v));
    assert After(w, longer).revocations[v] == Revocation(process, keyId, ToCommit);
    longer := ExtendTombstone(w, longer, v);
  }

  /** Process 1 has the key in its cache, and process 0 has revoked it. */
  lemma RevokedElsewhere(w: World) returns (run: seq<Step>)
    requires w.settings.authCacheSeconds > 0.0 && w.settings.bootstrapAdminKey != FormatKey("a", "s")
    ensures ValidRun(w, run) && Revoked(After(w, run), "a") && After(w, run).now == 0.0
    ensures 1 !in After(w, run).revocations && 1 !in After(w, run).requests
    ensures CacheOf(After(w, run), 1) == map["a" := CachedKey(w.hash("s"), "k", {}, w.settings.authCacheSeconds)]
  {
    SplitKeyUndoesFormat(FormatKey("a", "s"), "a", "s");
    run := Extend(w, [], CreateKey("a", "s", "k", {}));
    run := Extend(w, run, Arrive(0, 1, FormatKey("a", "s")));
    run := ExtendFill(w, run, 0, 1, "a", "s");
    run := ExtendRevoke(w, run, 0, 0, "a");
  }

  /**
   Revoking an already revoked key is a no-op that does not drop the process's entry: a call
   that revokes the key in process 1 returns, and process 1 accepts the key afterwards.
   */
  lemma SecondRevocationKeepsTheEntry(w: World) returns (run: seq<Step>, later: seq<Step>)
    requires w.settings.authCacheSeconds > 0.0 && w.settings.bootstrapAdminKey != FormatKey("a", "s")
    ensures ValidRun(w, run) && ValidRun(w, later)
    ensures 1 in After(w, run).revocations && After(w, run).revocations[1] == Revocation(1, "a", Returned)
    ensures 1 !in After(w, run).requests && Accepted(After(w, later), 1, "a", 1) && run <= later
  {
    SplitKeyUndoesFormat(FormatKey("a", "s"), "a", "s");
    run := RevokedElsewhere(w);
    run := Extend(w, run, AskRevoke(1, 1, "a"));
    run := Extend(w, run, ReadKey(1));
    var arrived := Extend(w, run, Arrive(1, 1, FormatKey("a", "s")));
    CachedKeyIsAccepted(w, After(w, arrived), 1, 1, "a", "s");
    later := Extend(w, arrived, Check(1));
  }
}
