/**
 The Redis side of the cache: one hash with a field per flag and a completeness marker, one
 epoch counter, one lifetime. First the commands, as functions on the server's state; then
 the server's state as an object, with the functions that issue the commands as its methods.
 */
module Redis {
  import opened Wrappers
  import opened Schemas
  import opened Payload

  const COMPLETE_FIELD := "__ruleset__"
  const RULESET_TTL_SECONDS: nat := 300

  /** What a hash field holds: the marker's "1" or a flag's JSON. */
  datatype Cell = One | Json(entry: Entry)

  /**
   `touched` counts the writes to the epoch counter: EXEC fails when it has moved since
   WATCH. `lifetime` is the hash's remaining time to live, None when it has none.
   */
  datatype Server = Server(epoch: Option<nat>, touched: nat, hash: map<string, Cell>, lifetime: Option<nat>)

  /** No flag key can be the marker's name: keys start with a letter or a digit. */
  lemma MarkerIsNoFlagKey(key: string, limit: nat)
    requires KeyPattern(key, limit)
    ensures key != COMPLETE_FIELD
  {
    assert COMPLETE_FIELD[0] == '_';
  }

  // ---- Commands ----------------------------------------------------------------------------------

  /** GET epoch, or "0" when the counter has never been set. */
  function EpochOrZero(s: Server): nat { s.epoch.GetOr(0) }

  function Incr(s: Server): Server {
    s.(epoch := Some(EpochOrZero(s) + 1), touched := s.touched + 1)
  }

  function HSet(s: Server, key: string, cell: Cell): Server {
    s.(hash := s.hash[key := cell])
  }

  /** Removing the last field removes the hash, and its lifetime with it. */
  function HDel(s: Server, key: string): Server {
    var hash := s.hash - {key};
    s.(hash := hash, lifetime := if hash == map[] then None else s.lifetime)
  }

  /** TTL: -2 without a hash, -1 without a lifetime. */
  function Ttl(s: Server): int {
    if s.hash == map[] then -2 else if s.lifetime.None? then -1 else s.lifetime.value
  }

  function Expire(s: Server, seconds: nat): Server {
    if s.hash == map[] then s else s.(lifetime := Some(seconds))
  }

  function Del(s: Server): Server {
    s.(hash := map[], lifetime := None)
  }

  function Cells(mapping: map<string, Entry>): map<string, Cell> {
    map k | k in mapping :: Json(mapping[k])
  }

  /** DEL, HSET of the mapping and the marker, EXPIRE: one transaction. */
  function Replace(s: Server, mapping: map<string, Entry>): Server {
    s.(hash := Cells(mapping)[COMPLETE_FIELD := One], lifetime := Some(RULESET_TTL_SECONDS))
  }

  /** One second passes; a lifetime that runs out takes the hash with it. */
  function Tick(s: Server): Server {
    match s.lifetime
    case None => s
    case Some(n) => if n <= 1 then Del(s) else s.(lifetime := Some(n - 1))
  }

  // ---- The read paths ----------------------------------------------------------------------------

  datatype FlagRead = Hit(cell: Cell) | KnownAbsent | Cold

  /** HGET and HEXISTS of the marker, as one step: BadTraces.SplitReadExactly says what that leaves out. */
  function FlagAnswer(s: Server, key: string): FlagRead {
    if key in s.hash then Hit(s.hash[key])
    else if COMPLETE_FIELD in s.hash then KnownAbsent
    else Cold
  }

  /** Every cached flag, or None when the hash is not marked complete. */
  function RulesetAnswer(s: Server): Option<map<string, Cell>> {
    if COMPLETE_FIELD in s.hash then Some(s.hash - {COMPLETE_FIELD}) else None
  }

  // ---- The write paths, uninterrupted ------------------------------------------------------------

  function AfterWrite(s: Server, mapping: map<string, Entry>, expected: Option<nat>): (Server, bool) {
    if expected.Some? && EpochOrZero(s) != expected.value then (s, false) else (Replace(s, mapping), true)
  }

  datatype Change = Wrote(entry: Entry) | Removed | Unknown

  function TouchField(s: Server, key: string, change: Change): Server {
    match change
    case Removed => HDel(s, key)
    case Wrote(entry) =>
      var s1 := HSet(s, key, Json(entry));
      if Ttl(s1) < 0 then Expire(s1, RULESET_TTL_SECONDS) else s1
    case Unknown => Del(s)
  }

  /** A published ruleset reads back exactly, flag by flag and whole. */
  lemma PublishedRulesetReadsBack(s: Server, mapping: map<string, Entry>, expected: Option<nat>, key: string)
    requires COMPLETE_FIELD !in mapping && key != COMPLETE_FIELD
    ensures
      var (s', landed) := AfterWrite(s, mapping, expected);
      && (landed <==> (expected.Some? ==> expected.value == EpochOrZero(s)))
      && (landed ==> RulesetAnswer(s') == Some(Cells(mapping)))
      && (landed ==> FlagAnswer(s', key) == if key in mapping then Hit(Json(mapping[key])) else KnownAbsent)
      && (!landed ==> s' == s)
  {
    var (s', landed) := AfterWrite(s, mapping, expected);
    assert COMPLETE_FIELD !in Cells(mapping);
    assert landed ==> s'.hash - {COMPLETE_FIELD} == Cells(mapping);
  }

  /** A notify is read back for its own flag, and no other flag's answer moves. */
  lemma NotifyIsLocal(s: Server, key: string, change: Change, other: string)
    requires !change.Unknown? && key != COMPLETE_FIELD && other != key
    ensures
      var s' := TouchField(Incr(s), key, change);
      && (match change
          case Wrote(entry) => FlagAnswer(s', key) == Hit(Json(entry)) && s'.lifetime.Some?
          case _ => FlagAnswer(s', key) == if COMPLETE_FIELD in s.hash then KnownAbsent else Cold)
      && FlagAnswer(s', other) == FlagAnswer(s, other)
      && !AfterWrite(s', map[], Some(EpochOrZero(s))).1
  {
  }

  // ---- The client --------------------------------------------------------------------------------

  datatype Message = Message(flagKey: string, action: string)

  class Cache {
    var epoch: Option<nat>
    var touched: nat
    var hash: map<string, Cell>
    var lifetime: Option<nat>
    var published: seq<Message>

    constructor ()
      ensures Now() == Server(None, 0, map[], None) && published == []
    {
      epoch, touched, hash, lifetime, published := None, 0, map[], None, [];
    }

    function Now(): Server
      reads this
    {
      Server(epoch, touched, hash, lifetime)
    }

    /** Installs the outcome of one command. */
    method Command(s: Server)
      modifies this`epoch, this`touched, this`hash, this`lifetime
      ensures Now() == s
    {
      epoch, touched, hash, lifetime := s.epoch, s.touched, s.hash, s.lifetime;
    }

    method ReadFlag(key: string) returns (r: FlagRead)
      ensures r == FlagAnswer(Now(), key)
    {
      var payload := Lookup(hash, key);
      var complete := COMPLETE_FIELD in hash;
      if payload.Some? {
        return Hit(payload.value);
      }
      return if complete then KnownAbsent else Cold;
    }

    method ReadRuleset() returns (r: Option<map<string, Cell>>)
      ensures r == RulesetAnswer(Now())
    {
      if hash == map[] || COMPLETE_FIELD !in hash {
        return None;
      }
      var flags := map k | k in hash && k != COMPLETE_FIELD :: hash[k];
      assert flags == hash - {COMPLETE_FIELD};
      return Some(flags);
    }

    /**
     Publishes a whole ruleset unless the epoch has moved since it was read. What happens
     when other clients move it between the commands is the business of Protocol.
     */
    method WriteRuleset(mapping: map<string, Entry>, expectedEpoch: Option<nat>) returns (landed: bool)
      modifies this`epoch, this`touched, this`hash, this`lifetime
      ensures (Now(), landed) == AfterWrite(old(Now()), mapping, expectedEpoch)
    {
      if expectedEpoch.Some? {
        if EpochOrZero(Now()) != expectedEpoch.value {
          return false;
        }
      }
      Command(Del(Now()));
      SetFields(mapping);
      assert COMPLETE_FIELD in hash;
      Command(Expire(Now(), RULESET_TTL_SECONDS));
      return true;
    }

    /** HSET of every entry and of the marker. */
    method SetFields(mapping: map<string, Entry>)
      requires hash == map[]
      modifies this`hash
      ensures hash == Cells(mapping)[COMPLETE_FIELD := One]
    {
      hash := Cells(mapping)[COMPLETE_FIELD := One];
    }

    /** Bumps the fence, then rewrites or removes one field, then announces the change. */
    method NotifyFlagChange(key: string, action: string, payload: Option<Entry>)
      modifies this
      ensures Now() == TouchField(Incr(old(Now())), key,
                                  if action == "deleted" then Removed
                                  else if payload.Some? then Wrote(payload.value)
                                  else Unknown)
      ensures published == old(published) + [Message(key, action)]
    {
      Command(Incr(Now()));
      if action == "deleted" {
        Command(HDel(Now(), key));
      } else if payload.Some? {
        Command(HSet(Now(), key, Json(payload.value)));
        if Ttl(Now()) < 0 {
          Command(Expire(Now(), RULESET_TTL_SECONDS));
        }
      } else {
        Command(Del(Now()));
      }
      published := published + [Message(key, action)];
    }
  }
}
