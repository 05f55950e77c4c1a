/** API keys: their text form, and verifying one against the stored keys through a per-process cache. */
module Auth {
  import opened Wrappers

  // ---- The text of a key ---------------------------------------------------------------------------

  const KEY_PREFIX := "rpc"

  predicate IsHex(s: string) {
    forall c :: c in s ==> c in "0123456789abcdef"
  }

  function FirstUnderscore(s: string): (i: nat)
    ensures i <= |s| && (forall k :: 0 <= k < i ==> s[k] != '_') && (i < |s| ==> s[i] == '_')
  {
    if s == [] || s[0] == '_' then 0 else 1 + FirstUnderscore(s[1..])
  }

  /** s.split("_", limit) */
  function SplitText(s: string, limit: nat): seq<string>
    decreases limit
  {
    var i := FirstUnderscore(s);
    if limit == 0 || i == |s| then [s] else [s[..i]] + SplitText(s[i + 1..], limit - 1)
  }

  /** The key id and the secret of a well-formed key. */
  function SplitKey(fullKey: string): Option<(string, string)> {
    var parts := SplitText(fullKey, 2);
    if |parts| != 3 || parts[0] != KEY_PREFIX then None
    else if parts[1] == "" || parts[2] == "" then None
    else if !IsHex(parts[1]) then None
    else Some((parts[1], parts[2]))
  }

  function FormatKey(keyId: string, secret: string): string {
    KEY_PREFIX + "_" + keyId + "_" + secret
  }

  lemma {:induction false} FirstUnderscoreAfter(a: string, b: string)
    requires '_' !in a
    ensures FirstUnderscore(a + "_" + b) == |a|
  {
    var s := a + "_" + b;
    if a != [] {
      assert s[0] == a[0] && s[1..] == a[1..] + "_" + b;
      FirstUnderscoreAfter(a[1..], b);
    }
  }

  lemma SplitTextAfter(a: string, b: string, limit: nat)
    requires '_' !in a && limit > 0
    ensures SplitText(a + "_" + b, limit) == [a] + SplitText(b, limit - 1)
  {
    FirstUnderscoreAfter(a, b);
    var s := a + "_" + b;
    assert s[..|a|] == a && s[|a| + 1..] == b;
  }

  lemma FormattedSplits(keyId: string, secret: string)
    requires IsHex(keyId)
    ensures SplitText(FormatKey(keyId, secret), 2) == [KEY_PREFIX, keyId, secret]
  {
    assert '_' !in keyId && '_' !in KEY_PREFIX;
    assert FormatKey(keyId, secret) == KEY_PREFIX + "_" + (keyId + "_" + secret);
    SplitTextAfter(KEY_PREFIX, keyId + "_" + secret, 2);
    SplitTextAfter(keyId, secret, 1);
  }

  lemma PartsRejoin(s: string, limit: nat)
    requires |SplitText(s, limit)| > 1
    ensures
      var head, rest := SplitText(s, limit)[0], s[FirstUnderscore(s) + 1..];
      limit > 0 && s == head + "_" + rest && SplitText(s, limit) == [head] + SplitText(rest, limit - 1)
  {
  }

  lemma SplitsIntoThree(s: string)
    requires |SplitText(s, 2)| == 3
    ensures var parts := SplitText(s, 2); s == parts[0] + "_" + (parts[1] + "_" + parts[2])
  {
    PartsRejoin(s, 2);
    var rest := s[FirstUnderscore(s) + 1..];
    PartsRejoin(rest, 1);
  }

  lemma SplitKeyFormats(fullKey: string, keyId: string, secret: string)
    requires SplitKey(fullKey) == Some((keyId, secret))
    ensures fullKey == FormatKey(keyId, secret)
  {
    SplitsIntoThree(fullKey);
    assert KEY_PREFIX + "_" + (keyId + "_" + secret) == FormatKey(keyId, secret);
  }

  /**
   Splitting and formatting undo each other: a text splits into an id and a secret exactly when
   it is their formatted key, the id is non-empty hex and the secret is not empty. Underscores
   may occur anywhere in the secret.
   */
  lemma SplitKeyUndoesFormat(fullKey: string, keyId: string, secret: string)
    ensures SplitKey(fullKey) == Some((keyId, secret))
       <==> fullKey == FormatKey(keyId, secret) && keyId != "" && IsHex(keyId) && secret != ""
  {
    if SplitKey(fullKey) == Some((keyId, secret)) {
      SplitKeyFormats(fullKey, keyId, secret);
    }
    if fullKey == FormatKey(keyId, secret) && IsHex(keyId) {
      FormattedSplits(keyId, secret);
    }
  }

  // ---- Verifying a key -----------------------------------------------------------------------------

  /** A row of api_keys; a revoked key keeps its row. */
  datatype KeyRow = KeyRow(secretHash: string, name: string, scopes: set<string>, revokedAt: Option<real>)

  datatype CachedKey = CachedKey(secretHash: string, name: string, scopes: set<string>, expiresAt: real)

  datatype Principal = Principal(name: string, scopes: set<string>, keyId: Option<string>)

  /** No bootstrap key is the empty string; both are falsy. */
  datatype Settings = Settings(bootstrapAdminKey: string, authCacheSeconds: real)

  /** SHA-256 is not modelled: everything below takes an arbitrary digest. */
  type Hash = string -> string

  const BOOTSTRAP := Principal("bootstrap", {"admin"}, None)

  /** What the first half of authenticate settles, before any database access. */
  datatype Verdict = Known(principal: Option<Principal>) | AskDatabase(keyId: string, secret: string)

  predicate Expired(entry: CachedKey, now: real) { entry.expiresAt <= now }

  /** The cache after looking up a key in it: an expired entry is dropped. */
  function Purged(cache: map<string, CachedKey>, keyId: string, now: real): map<string, CachedKey> {
    if keyId in cache && Expired(cache[keyId], now) then cache - {keyId} else cache
  }

  function CheckCache(hash: Hash, settings: Settings, cache: map<string, CachedKey>, now: real, fullKey: string)
    : (map<string, CachedKey>, Verdict)
  {
    match SplitKey(fullKey)
    case None => (cache, Known(None))
    case Some((keyId, secret)) =>
      if settings.bootstrapAdminKey != "" && fullKey == settings.bootstrapAdminKey then (cache, Known(Some(BOOTSTRAP)))
      else if keyId in cache && !Expired(cache[keyId], now) then
        var entry := cache[keyId];
        (cache, Known(if entry.secretHash == hash(secret) then Some(Principal(entry.name, entry.scopes, Some(keyId)))
                      else None))
      else (Purged(cache, keyId, now), AskDatabase(keyId, secret))
  }

  /** The row proves the secret: it is there, not revoked, and its hash matches. */
  predicate Proves(hash: Hash, row: Option<KeyRow>, secret: string) {
    row.Some? && row.value.revokedAt.None? && row.value.secretHash == hash(secret)
  }

  /** The second half, once the row has been looked up. */
  function SettleLookup(hash: Hash, settings: Settings, cache: map<string, CachedKey>, now: real, keyId: string,
                        secret: string, row: Option<KeyRow>): (map<string, CachedKey>, Option<Principal>)
  {
    if !Proves(hash, row, secret) then (cache, None)
    else
      var key := row.value;
      (if settings.authCacheSeconds > 0.0
       then cache[keyId := CachedKey(key.secretHash, key.name, key.scopes, now + settings.authCacheSeconds)]
       else cache,
       Some(Principal(key.name, key.scopes, Some(keyId))))
  }

  /** One process's verification cache. */
  class KeyCache {
    var entries: map<string, CachedKey>

    constructor ()
      ensures entries == map[]
    {
      entries := map[];
    }

    /** Drops one key, or all of them. */
    method Invalidate(keyId: Option<string>)
      modifies this
      ensures entries == if keyId.None? then map[] else old(entries) - {keyId.value}
    {
      match keyId {
        case None => entries := map[];
        case Some(id) => entries := entries - {id};
      }
    }

    /** The live entry of a key; an expired one is dropped on the way. */
    method Cached(keyId: string, now: real) returns (r: Option<CachedKey>)
      modifies this
      ensures entries == Purged(old(entries), keyId, now)
      ensures r == Lookup(entries, keyId)
      ensures r.Some? ==> now < r.value.expiresAt
    {
      if keyId !in entries {
        return None;
      }
      var entry := entries[keyId];
      if entry.expiresAt <= now {
        entries := entries - {keyId};
        return None;
      }
      return Some(entry);
    }

    /** Resolves a key when nothing else happens between its steps. */
    method Authenticate(hash: Hash, settings: Settings, rows: map<string, KeyRow>, now: real, fullKey: string)
      returns (principal: Option<Principal>)
      modifies this
      ensures
        var (checked, verdict) := CheckCache(hash, settings, old(entries), now, fullKey);
        match verdict
        case Known(p) => entries == checked && principal == p
        case AskDatabase(keyId, secret) =>
          (entries, principal) == SettleLookup(hash, settings, checked, now, keyId, secret, Lookup(rows, keyId))
    {
      var parts := SplitKey(fullKey);
      if parts.None? {
        return None;
      }
      var (keyId, secret) := parts.value;
      if settings.bootstrapAdminKey != "" && fullKey == settings.bootstrapAdminKey {
        return Some(BOOTSTRAP);
      }
      var entry := Cached(keyId, now);
      if entry.Some? {
        if entry.value.secretHash != hash(secret) {
          return None;
        }
        return Some(Principal(entry.value.name, entry.value.scopes, Some(keyId)));
      }
      if keyId !in rows {
        return None;
      }
      var key := rows[keyId];
      if key.revokedAt.Some? {
        return None;
      }
      if key.secretHash != hash(secret) {
        return None;
      }
      if settings.authCacheSeconds > 0.0 {
        entries := entries[keyId := CachedKey(key.secretHash, key.name, key.scopes, now + settings.authCacheSeconds)];
      }
      return Some(Principal(key.name, key.scopes, Some(keyId)));
    }
  }
}
