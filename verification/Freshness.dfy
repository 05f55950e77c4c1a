/**
 How old a cached answer can be. A value is fresh for commit number n of a flag when its row,
 its rules and its variants are ones the flag had at n or later, the row first, the rules not
 before the row and the variants not before the rules, as the queries are issued. A state is
 fresh for n when the cached field, every rebuild that can still be published, and every pending
 field write are. No step of the service undoes that.
 */
module Freshness {
  import opened Wrappers
  import opened Ordering
  import opened Models
  import opened Payload
  import opened Redis
  import opened Protocol

  type History = seq<Option<Flag>>

  // ---- Parts of a flag ---------------------------------------------------------------------------

  function RowPart(o: Option<Flag>): Option<Row> {
    if o.Some? then Some(o.value.row) else None
  }

  function RulesPart(o: Option<Flag>): seq<RuleRow> {
    if o.Some? then o.value.rules else []
  }

  function VariantsPart(o: Option<Flag>): seq<VariantRow> {
    if o.Some? then InKeyOrder(o.value.variants) else []
  }

  predicate Since(h: History, n: nat, i: nat) { n <= i < |h| }

  /** At that instant the flag was in the life of this row, or gone. */
  predicate InLifeOf(row: Row, o: Option<Flag>) {
    o.Some? ==> o.value.row.id == row.id
  }

  ghost predicate RowFresh(h: History, n: nat, row: Option<Row>) {
    exists a: nat :: Since(h, n, a) && RowPart(h[a]) == row
  }

  /** The flag had the row at a, and its rules were these at b. */
  predicate RulesAt(h: History, row: Row, rules: seq<RuleRow>, a: nat, b: nat)
    requires a < |h| && b < |h|
  {
    RowPart(h[a]) == Some(row) && InLifeOf(row, h[b]) && RulesPart(h[b]) == rules
  }

  ghost predicate RulesFresh(h: History, n: nat, row: Row, rules: seq<RuleRow>) {
    exists a: nat, b: nat :: Since(h, n, a) && Since(h, a, b) && RulesAt(h, row, rules, a, b)
  }

  predicate VariantsAt(h: History, row: Row, variants: seq<VariantRow>, c: nat)
    requires c < |h|
  {
    InLifeOf(row, h[c]) && VariantsPart(h[c]) == variants
  }

  ghost predicate PartsFresh(h: History, n: nat, row: Row, rules: seq<RuleRow>, variants: seq<VariantRow>) {
    exists a: nat, b: nat, c: nat :: Since(h, n, a) && Since(h, a, b) && Since(h, b, c)
                                     && RulesAt(h, row, rules, a, b) && VariantsAt(h, row, variants, c)
  }

  /** The payload of a row, rules and variants. */
  function Assemble(row: Row, rules: seq<RuleRow>, variants: seq<VariantRow>): Entry {
    FlagPayload(Flag(row, rules, variants))
  }

  /** A view whose row, rules and variants the flag had at a, b and c. */
  ghost predicate ViewAt(h: History, v: Option<Entry>, a: nat, b: nat, c: nat)
    requires a < |h| && b < |h| && c < |h|
  {
    if h[a].None? then v == None
    else
      && InLifeOf(h[a].value.row, h[b]) && InLifeOf(h[a].value.row, h[c])
      && v == Some(Assemble(h[a].value.row, RulesPart(h[b]), VariantsPart(h[c])))
  }

  /** The row was the flag's at n or later, the rules not before the row, the variants not before the rules. */
  ghost predicate ViewFresh(h: History, n: nat, v: Option<Entry>) {
    exists a: nat, b: nat, c: nat :: Since(h, n, a) && Since(h, a, b) && Since(h, b, c) && ViewAt(h, v, a, b, c)
  }

  /** Reading a whole flag at one commit. */
  function ViewOf(o: Option<Flag>): Option<Entry> {
    if o.Some? then Some(FlagPayload(o.value)) else None
  }

  lemma AssembleWhole(f: Flag)
    ensures Assemble(f.row, f.rules, InKeyOrder(f.variants)) == FlagPayload(f)
  {
    SortIdempotent(f.variants, RowKey);
  }

  lemma WholeIsFresh(h: History, n: nat, i: nat)
    requires Since(h, n, i)
    ensures ViewFresh(h, n, ViewOf(h[i]))
  {
    if h[i].Some? {
      AssembleWhole(h[i].value);
    }
    assert ViewAt(h, ViewOf(h[i]), i, i, i);
  }

  lemma ViewFromParts(h: History, n: nat, row: Option<Row>, rules: seq<RuleRow>, variants: seq<VariantRow>)
    requires RowFresh(h, n, row)
    requires row.Some? ==> PartsFresh(h, n, row.value, rules, variants)
    ensures ViewFresh(h, n, if row.Some? then Some(Assemble(row.value, rules, variants)) else None)
  {
    if row.Some? {
      var a: nat, b: nat, c: nat :| Since(h, n, a) && Since(h, a, b) && Since(h, b, c)
                                    && RulesAt(h, row.value, rules, a, b) && VariantsAt(h, row.value, variants, c);
      assert ViewAt(h, Some(Assemble(row.value, rules, variants)), a, b, c);
    } else {
      var a: nat :| Since(h, n, a) && RowPart(h[a]) == row;
      assert ViewAt(h, None, a, a, a);
    }
  }

  // ---- Fresh states ------------------------------------------------------------------------------

  ghost predicate AnswerFresh(h: History, n: nat, answer: FlagRead) {
    match answer
    case Hit(cell) => cell.Json? && ViewFresh(h, n, Some(cell.entry))
    case KnownAbsent => ViewFresh(h, n, None)
    case Cold => true
  }

  ghost predicate FieldFresh(h: History, n: nat, server: Server, key: string) {
    AnswerFresh(h, n, FlagAnswer(server, key))
  }

  predicate HasRows(pc: CallPc) { pc.ToReadRules? || HasRules(pc) }

  predicate HasRules(pc: CallPc) { pc.ToReadVariants? || Publishing(pc) }

  /** Whatever a call has read of the flag so far is fresh. */
  ghost predicate CallFresh(h: History, n: nat, call: Call, key: string) {
    && (HasRows(call.pc) ==> RowFresh(h, n, Lookup(call.rows, key)))
    && (HasRules(call.pc) && key in call.rows ==> RulesFresh(h, n, call.rows[key], RulesFor(call, key)))
    && (Publishing(call.pc) && key in call.rows ==>
          PartsFresh(h, n, call.rows[key], RulesFor(call, key), VariantsFor(call, key)))
  }

  /** The fence would still let this call publish. */
  predicate Live(server: Server, call: Call) {
    && call.epoch == Some(EpochOrZero(server))
    && (call.pc.ToExec? ==> call.watched == server.touched)
  }

  ghost predicate RebuildsFresh(s: State, key: string, n: nat) {
    forall c :: c in s.calls && Live(s.redis, s.calls[c]) ==> CallFresh(Hist(s, key), n, s.calls[c], key)
  }

  ghost predicate WritersFresh(s: State, key: string, n: nat) {
    forall m :: m in s.mutators && s.mutators[m].key == key && Pending(s.mutators[m]) ==> n <= s.mutators[m].index
  }

  ghost predicate Fresh(s: State, key: string, n: nat) {
    && n < |Hist(s, key)|
    && FieldFresh(Hist(s, key), n, s.redis, key)
    && RebuildsFresh(s, key, n)
    && WritersFresh(s, key, n)
  }

  // ---- What every reachable state satisfies ------------------------------------------------------

  /** Between two consecutive values of a flag the row id stays, unless the flag was deleted. */
  ghost predicate IdsStable(h: History) {
    forall i :: 0 <= i < |h| - 1 && h[i].Some? && h[i + 1].Some? ==> h[i].value.row.id == h[i + 1].value.row.id
  }

  /** Row ids are never drawn twice, and a flag's version rises with every commit of its life. */
  ghost predicate RowsRise(h: History) {
    forall i, j :: 0 <= i < j < |h| && h[i].Some? && h[j].Some? ==> Precedes(h[i].value.row, h[j].value.row)
  }

  predicate Precedes(earlier: Row, later: Row) {
    earlier.id < later.id || (earlier.id == later.id && earlier.version < later.version)
  }

  ghost predicate IdsBelow(h: History, nextId: nat) {
    forall i :: 0 <= i < |h| && h[i].Some? ==> h[i].value.row.id < nextId
  }

  /** A row belongs to one value of the flag. */
  lemma RowTellsFlag(h: History, i: nat, j: nat)
    requires RowsRise(h) && i < |h| && j < |h| && RowPart(h[i]) == RowPart(h[j])
    ensures h[i] == h[j]
  {
  }

  ghost predicate FlagOk(o: Option<Flag>, key: string) {
    o.Some? ==> key != COMPLETE_FIELD && o.value.row.key == key && StrictlyByPriority(o.value.rules)
  }

  ghost predicate HistoryOk(h: History, key: string, current: Option<Flag>) {
    && |h| > 0
    && h[|h| - 1] == current
    && IdsStable(h)
    && RowsRise(h)
    && (forall i :: 0 <= i < |h| ==> FlagOk(h[i], key))
  }

  /** What a call knows of the epoch: it has not fallen, and a WATCH stands while it has not moved. */
  predicate FenceOk(server: Server, call: Call) {
    && (call.epoch.Some? ==> call.epoch.value <= EpochOrZero(server))
    && (call.pc.ToCompare? || call.pc.ToExec? ==> call.watched <= server.touched)
    && (call.pc.ToExec? && call.watched == server.touched ==> call.epoch == Some(EpochOrZero(server)))
    && (call.pc.ToCompare? && call.epoch == Some(EpochOrZero(server)) ==> call.watched == server.touched)
    && (call.pc.ToWatch? || call.pc.ToCompare? || call.pc.ToExec? ==> call.epoch.Some?)
    && (call.pc.ToWriteUnfenced? ==> call.epoch.None?)
  }

  predicate RowsUnderKeys(rows: map<string, Row>) {
    forall k :: k in rows ==> rows[k].key == k && k != COMPLETE_FIELD
  }

  predicate VariantsInOrder(variants: map<string, seq<VariantRow>>) {
    forall k :: k in variants ==> InKeyOrder(variants[k]) == variants[k]
  }

  ghost predicate SnapshotOk(call: Call) {
    && RowsUnderKeys(call.rows)
    && VariantsInOrder(call.variants)
    && (call.pc.Answered? && call.pc.answer.RulesetView? ==> COMPLETE_FIELD !in call.pc.answer.entries)
  }

  ghost predicate CallOk(server: Server, call: Call) {
    FenceOk(server, call) && SnapshotOk(call)
  }

  ghost predicate MutatorOk(h: History, mut: Mutator) {
    && mut.index < |h|
    && h[mut.index] == mut.after
    && mut.key != COMPLETE_FIELD
    && (Pending(mut) ==> mut.index == |h| - 1)
  }

  /** Once a notify has bumped the epoch, no older snapshot can be published. */
  ghost predicate FenceHolds(s: State, mut: Mutator) {
    mut.pc.ToWrite? ==> RebuildsFresh(s, mut.key, mut.index)
  }

  ghost predicate OnePending(s: State) {
    forall m, m' :: (&& m in s.mutators && m' in s.mutators && s.mutators[m].key == s.mutators[m'].key
                     && Pending(s.mutators[m]) && Pending(s.mutators[m'])) ==> m == m'
  }

  /** The structural part of the invariant: everything but the ages. */
  ghost predicate Structure(s: State) {
    && (forall key :: HistoryOk(Hist(s, key), key, Current(s, key)))
    && (forall key :: IdsBelow(Hist(s, key), s.store.nextId))
    && (forall m :: m in s.mutators ==> MutatorOk(Hist(s, s.mutators[m].key), s.mutators[m]))
    && (forall c :: c in s.calls ==> CallOk(s.redis, s.calls[c]))
    && OnePending(s)
  }
}
