/** The transition system's steps, taken without interruption, are the methods of Redis.Cache. */
module Sequential {
  import opened Models
  import opened Payload
  import opened Redis
  import opened Protocol

  lemma SameSnapshot(a: Call, b: Call)
    requires a.kind == b.kind && a.rows == b.rows && a.rules == b.rules && a.variants == b.variants
    ensures Mapping(a) == Mapping(b) && FromMapping(a).pc == FromMapping(b).pc
  {
    assert Mapping(a) == Mapping(b);
  }

  /** WATCH, compare and EXEC in a row publish exactly what WriteRuleset publishes, or nothing when it refuses. */
  lemma WriteInOneGo(flags: map<string, Flag>, server: Server, call: Call)
    requires call.pc == ToWatch && call.epoch.Some?
    ensures
      var watching := CallAfter(flags, server, call, Watch);
      var compared := CallAfter(flags, server, watching, Compare);
      var (server', landed) := AfterWrite(server, Mapping(call), call.epoch);
      && CanCall(flags, watching, Compare)
      && (landed <==> CanCall(flags, compared, Exec))
      && (landed ==> CallServer(server, compared, Exec) == server'
                     && CallAfter(flags, server, compared, Exec).pc == FromMapping(call).pc)
      && (!landed ==> server' == server && compared.pc == FromMapping(call).pc)
  {
    var watching := call.(pc := ToCompare, watched := server.touched);
    assert CallAfter(flags, server, call, Watch) == watching;
    SameSnapshot(call, watching);
    SameSnapshot(call, watching.(pc := ToExec));
  }

  /** What a mutator's notify is asked to do. */
  function ChangeOf(mut: Mutator): Change {
    if mut.after.Some? then Wrote(FlagPayload(mut.after.value)) else Removed
  }

  function NotifyOnce(server: Server, mut: Mutator, move: MutatorMove): (Server, Mutator) {
    (NotifyServer(server, mut, move), mut.(pc := PcAfter(server, mut, move)))
  }

  /** The server after the rest of a notify that nothing interrupts. */
  function NotifyToEnd(server: Server, mut: Mutator): Server
    decreases if mut.pc.ToIncr? then 4 else if mut.pc.ToWrite? then 3 else if mut.pc.ToCheckTtl? then 2
              else if mut.pc.ToExpire? then 1 else 0
  {
    match mut.pc
    case ToIncr => var (s, m) := NotifyOnce(server, mut, IncrEpoch); NotifyToEnd(s, m)
    case ToWrite => var (s, m) := NotifyOnce(server, mut, WriteField); NotifyToEnd(s, m)
    case ToCheckTtl => var (s, m) := NotifyOnce(server, mut, CheckTtl); NotifyToEnd(s, m)
    case ToExpire => var (s, m) := NotifyOnce(server, mut, SetTtl); NotifyToEnd(s, m)
    case _ => server
  }

  /** Uninterrupted, the mutator's steps leave the server as NotifyFlagChange does. */
  lemma NotifyInOneGo(server: Server, mut: Mutator)
    requires mut.pc == ToIncr
    ensures NotifyToEnd(server, mut) == TouchField(Incr(server), mut.key, ChangeOf(mut))
  {
    var (s1, m1) := NotifyOnce(server, mut, IncrEpoch);
    var (s2, m2) := NotifyOnce(s1, m1, WriteField);
    assert NotifyToEnd(server, mut) == NotifyToEnd(s2, m2);
    if mut.after.Some? {
      var (s3, m3) := NotifyOnce(s2, m2, CheckTtl);
      assert s2 == HSet(Incr(server), mut.key, Json(FlagPayload(mut.after.value)));
      assert NotifyToEnd(s2, m2) == NotifyToEnd(s3, m3);
      if m3.pc.ToExpire? {
        var (s4, m4) := NotifyOnce(s3, m3, SetTtl);
        assert NotifyToEnd(s3, m3) == NotifyToEnd(s4, m4);
      }
    }
  }
}
