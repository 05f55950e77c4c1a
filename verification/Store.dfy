/**
 The flag store as a machine over sessions. A session reads a flag, checks its request
 against what it read, and later commits; the commit finds the row again by (id, version)
 and fails when that row is gone. Any number of sessions may be between the two.
 */
module Store {
  import opened Schemas
  import opened Models

  datatype Action = Created | Updated | Deleted

  datatype AuditEntry = AuditEntry(flagKey: string, action: Action, actor: string)

  /** A request between its read and its commit, with its private copy of the flag. */
  datatype Session =
    | Updating(base: Flag, patch: FlagUpdate, actor: string)
    | Deleting(base: Flag, actor: string)

  /** A mutation that committed, with the first row id it drew. */
  datatype Mutation =
    | CreateOf(data: FlagCreate, nextId: nat)
    | PatchOf(patch: FlagUpdate, nextId: nat)
    | DeleteOf

  datatype Committed = Committed(key: string, mutation: Mutation)

  /** The committed tables, the open sessions, and the record of what has committed. */
  datatype State = State(
    flags: map<string, Flag>,
    audit: seq<AuditEntry>,
    nextId: nat,
    sessions: map<nat, Session>,
    log: seq<Committed>)

  const EMPTY := State(map[], [], 1, map[], [])

  datatype Step =
    | Create(data: FlagCreate, actor: string)
    | ReadForUpdate(sid: nat, key: string, patch: FlagUpdate, actor: string)
    | CommitUpdate(sid: nat)
    | ReadForDelete(sid: nat, key: string, actor: string)
    | CommitDelete(sid: nat)

  datatype Outcome =
    | Opened
    | Done(key: string)
    | Rejected(schema: SchemaError)
    | Failed(error: StoreError)
    | NoSession

  /** The guard SQLAlchemy adds to every UPDATE and DELETE of a flag. */
  predicate RowStillThere(s: State, base: Flag) {
    && base.row.key in s.flags
    && s.flags[base.row.key].row.id == base.row.id
    && s.flags[base.row.key].row.version == base.row.version
  }

  function DoCreate(s: State, data: FlagCreate, actor: string): (State, Outcome) {
    if ValidateCreate(data).Some? then (s, Rejected(ValidateCreate(data).value))
    else if data.key in s.flags then (s, Failed(DuplicateFlag))
    else
      (s.(flags := s.flags[data.key := NewFlag(data, s.nextId)],
          audit := s.audit + [AuditEntry(data.key, Created, actor)],
          nextId := s.nextId + 1 + |data.rules| + |data.variants|,
          log := s.log + [Committed(data.key, CreateOf(data, s.nextId))]),
       Done(data.key))
  }

  function DoReadForUpdate(s: State, sid: nat, key: string, patch: FlagUpdate, actor: string): (State, Outcome) {
    if ValidateUpdate(patch).Some? then (s, Rejected(ValidateUpdate(patch).value))
    else if key !in s.flags then (s, Failed(FlagNotFound))
    else if CheckPatch(s.flags[key], patch).Some? then (s, Failed(CheckPatch(s.flags[key], patch).value))
    else (s.(sessions := s.sessions[sid := Updating(s.flags[key], patch, actor)]), Opened)
  }

  function DoCommitUpdate(s: State, sid: nat): (State, Outcome) {
    if sid !in s.sessions || !s.sessions[sid].Updating? then (s, NoSession)
    else
      var session := s.sessions[sid];
      var closed := s.(sessions := s.sessions - {sid});
      var key := session.base.row.key;
      if !RowStillThere(s, session.base) then (closed, Failed(VersionConflict))
      else
        (closed.(flags := s.flags[key := ApplyPatch(session.base, session.patch, s.nextId)],
                 audit := s.audit + [AuditEntry(key, Updated, session.actor)],
                 nextId := s.nextId + IdsNeeded(session.patch),
                 log := s.log + [Committed(key, PatchOf(session.patch, s.nextId))]),
         Done(key))
  }

  function DoReadForDelete(s: State, sid: nat, key: string, actor: string): (State, Outcome) {
    if key !in s.flags then (s, Failed(FlagNotFound))
    else (s.(sessions := s.sessions[sid := Deleting(s.flags[key], actor)]), Opened)
  }

  function DoCommitDelete(s: State, sid: nat): (State, Outcome) {
    if sid !in s.sessions || !s.sessions[sid].Deleting? then (s, NoSession)
    else
      var session := s.sessions[sid];
      var closed := s.(sessions := s.sessions - {sid});
      var key := session.base.row.key;
      if !RowStillThere(s, session.base) then (closed, Failed(VersionConflict))
      else
        (closed.(flags := s.flags - {key},
                 audit := s.audit + [AuditEntry(key, Deleted, session.actor)],
                 log := s.log + [Committed(key, DeleteOf)]),
         Done(key))
  }

  function Do(s: State, step: Step): (State, Outcome) {
    match step
    case Create(data, actor) => DoCreate(s, data, actor)
    case ReadForUpdate(sid, key, patch, actor) => DoReadForUpdate(s, sid, key, patch, actor)
    case CommitUpdate(sid) => DoCommitUpdate(s, sid)
    case ReadForDelete(sid, key, actor) => DoReadForDelete(s, sid, key, actor)
    case CommitDelete(sid) => DoCommitDelete(s, sid)
  }

  /** The state after any sequence of steps of any sessions, from an empty database. */
  function Run(steps: seq<Step>): State {
    if steps == [] then EMPTY else Do(Run(steps[..|steps| - 1]), steps[|steps| - 1]).0
  }

  /** What one recorded mutation makes of a table. */
  function Perform(flags: map<string, Flag>, c: Committed): map<string, Flag> {
    match c.mutation
    case CreateOf(data, nextId) => flags[c.key := NewFlag(data, nextId)]
    case PatchOf(patch, nextId) =>
      if c.key in flags then flags[c.key := ApplyPatch(flags[c.key], patch, nextId)] else flags
    case DeleteOf => flags - {c.key}
  }

  /** What the recorded mutations make of an empty table, one after the other. */
  function Replay(log: seq<Committed>): map<string, Flag> {
    if log == [] then map[] else Perform(Replay(log[..|log| - 1]), log[|log| - 1])
  }
}
