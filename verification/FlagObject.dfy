/**
 The flag object a session holds, edited in place: scalar columns are assigned, variant
 rows are removed, appended and edited as objects, so that a kept variant is the same row.
 */
module FlagObject {
  import opened Wrappers
  import opened Ordering
  import opened Engine
  import opened Schemas
  import opened Models
  import opened ModelLaws
  import opened FlagLaws

  class Variant {
    const id: nat
    const key: string
    var value: Value
    var weight: int

    constructor (id: nat, key: string, value: Value, weight: int)
      ensures this.id == id && this.key == key && this.value == value && this.weight == weight
    {
      this.id, this.key, this.value, this.weight := id, key, value, weight;
    }

    function Row(): VariantRow
      reads this
    {
      VariantRow(id, key, value, weight)
    }
  }

  function Rows(objects: seq<Variant>): (r: seq<VariantRow>)
    reads objects
    ensures |r| == |objects|
    ensures forall i :: 0 <= i < |r| ==> r[i] == objects[i].Row()
  {
    seq(|objects|, i requires 0 <= i < |objects| reads objects => objects[i].Row())
  }

  ghost predicate NoAliases(objects: seq<Variant>) {
    forall i, j :: 0 <= i < j < |objects| ==> objects[i] != objects[j]
  }

  ghost predicate KeysApart(objects: seq<Variant>) {
    forall i, j :: 0 <= i < j < |objects| ==> objects[i].key != objects[j].key
  }

  /** list.remove: drops the first occurrence. */
  function Remove<T(==)>(xs: seq<T>, x: T): seq<T> {
    if xs == [] then [] else if xs[0] == x then xs[1..] else [xs[0]] + Remove(xs[1..], x)
  }

  lemma {:induction false} RemoveMiddle<T>(a: seq<T>, x: T, b: seq<T>)
    requires x !in a
    ensures Remove(a + [x] + b, x) == a + b
  {
    if a == [] {
      assert ([x] + b)[1..] == b;
      assert a + [x] + b == [x] + b;
    } else {
      var whole := a + [x] + b;
      assert whole[1..] == a[1..] + [x] + b;
      RemoveMiddle(a[1..], x, b);
    }
  }

  /** The objects whose key is wanted. */
  function Kept(objects: seq<Variant>, wanted: map<string, VariantIn>): (r: seq<Variant>)
    ensures forall o :: o in r ==> o in objects && o.key in wanted
    ensures forall o :: o in objects && o.key in wanted ==> o in r
  {
    if objects == [] then []
    else Kept(objects[..|objects| - 1], wanted)
         + (if objects[|objects| - 1].key in wanted then [objects[|objects| - 1]] else [])
  }

  lemma {:induction false} KeptRowsAppend(rows: seq<VariantRow>, row: VariantRow, wanted: map<string, VariantIn>)
    ensures KeptRows(rows + [row], wanted) == KeptRows(rows, wanted) + KeptRow(row, wanted)
  {
    if rows == [] {
      assert rows + [row] == [row] && [row][1..] == [];
    } else {
      KeptRowsAppend(rows[1..], row, wanted);
      assert (rows + [row])[0] == rows[0] && (rows + [row])[1..] == rows[1..] + [row];
      var first, middle, last := KeptRow(rows[0], wanted), KeptRows(rows[1..], wanted), KeptRow(row, wanted);
      assert KeptRows(rows + [row], wanted) == first + (middle + last);
      assert first + (middle + last) == (first + middle) + last;
    }
  }

  lemma {:induction false} AddedRowsAppend(keys: seq<string>, k: string, taken: set<string>,
                                           wanted: map<string, VariantIn>, nextId: nat)
    requires k in wanted && forall x :: x in keys ==> x in wanted
    ensures AddedRows(keys + [k], taken, wanted, nextId)
         == AddedRows(keys, taken, wanted, nextId)
            + (if k in taken then []
               else [VariantRow(nextId + |AddedRows(keys, taken, wanted, nextId)|, k,
                                wanted[k].value, wanted[k].weight)])
  {
    if keys == [] {
      assert keys + [k] == [k];
    } else {
      assert (keys + [k])[1..] == keys[1..] + [k];
      AddedRowsAppend(keys[1..], k, taken, wanted, if keys[0] in taken then nextId else nextId + 1);
    }
  }

  /** The rows added for one more key. */
  lemma AddedRowsUpto(keys: seq<string>, i: nat, taken: set<string>, wanted: map<string, VariantIn>, nextId: nat)
    requires i < |keys| && forall x :: x in keys ==> x in wanted
    ensures forall x :: x in keys[..i + 1] <==> x in keys[..i] || x == keys[i]
    ensures
      var before := AddedRows(keys[..i], taken, wanted, nextId);
      AddedRows(keys[..i + 1], taken, wanted, nextId)
      == before + (if keys[i] in taken then []
                   else [VariantRow(nextId + |before|, keys[i], wanted[keys[i]].value, wanted[keys[i]].weight)])
  {
    assert keys[..i + 1] == keys[..i] + [keys[i]];
    AddedRowsAppend(keys[..i], keys[i], taken, wanted, nextId);
  }

  /** A kept object, with the wanted value and weight. */
  ghost predicate IsUpdated(o: Variant, wanted: map<string, VariantIn>)
    reads o
  {
    o.key in wanted && o.value == wanted[o.key].value && o.weight == wanted[o.key].weight
  }

  lemma UpdatedRow(kept: seq<Variant>, o: Variant, before: seq<VariantRow>, row: VariantRow,
                   wanted: map<string, VariantIn>)
    requires Rows(kept) == KeptRows(before, wanted)
    requires row.id == o.id && row.key == o.key && (o.key in wanted ==> IsUpdated(o, wanted))
    ensures Rows(kept + (if o.key in wanted then [o] else [])) == KeptRows(before + [row], wanted)
  {
    KeptRowsAppend(before, row, wanted);
    if o.key in wanted {
      assert o.Row() == KeptRow(row, wanted)[0];
      assert Rows(kept + [o]) == Rows(kept) + [o.Row()];
    } else {
      assert kept + [] == kept;
    }
  }

  /** Kept objects that have been updated hold exactly the rows the merge keeps. */
  lemma {:induction false} UpdatedRows(objects: seq<Variant>, before: seq<VariantRow>, wanted: map<string, VariantIn>)
    requires |before| == |objects|
    requires forall i :: 0 <= i < |objects| ==> before[i].id == objects[i].id && before[i].key == objects[i].key
    requires forall o :: o in objects && o.key in wanted ==> IsUpdated(o, wanted)
    ensures Rows(Kept(objects, wanted)) == KeptRows(before, wanted)
  {
    if objects != [] {
      var n := |objects| - 1;
      UpdatedRows(objects[..n], before[..n], wanted);
      assert before == before[..n] + [before[n]];
      assert objects[n] in objects;
      UpdatedRow(Kept(objects[..n], wanted), objects[n], before[..n], before[n], wanted);
    }
  }

  class Flag {
    const id: nat
    const key: string
    var name: string
    var description: Option<string>
    var enabled: bool
    var rolloutPercentage: int
    var offVariant: Option<string>
    var version: nat
    var rules: seq<RuleRow>
    var variants: seq<Variant>

    constructor (flag: Models.Flag)
      requires DistinctKeys(flag.variants, RowKey)
      ensures Contents() == flag
      ensures Valid() && fresh(variants)
    {
      var row := flag.row;
      id, key, name, description := row.id, row.key, row.name, row.description;
      enabled, rolloutPercentage := row.enabled, row.rolloutPercentage;
      offVariant, version := row.offVariant, row.version;
      rules, variants := flag.rules, [];
      new;
      variants := Load(flag.variants);
      forall i, j | 0 <= i < j < |variants| ensures variants[i].key != variants[j].key {
        assert variants[i].Row() == flag.variants[i] && variants[j].Row() == flag.variants[j];
        assert RowKey(flag.variants[i]) != RowKey(flag.variants[j]);
      }
    }

    /** One object per row. */
    static method Load(rows: seq<VariantRow>) returns (objects: seq<Variant>)
      ensures fresh(objects) && NoAliases(objects) && Rows(objects) == rows
    {
      objects := [];
      for i := 0 to |rows|
        invariant |objects| == i && fresh(objects) && NoAliases(objects)
        invariant forall j :: 0 <= j < i ==> objects[j].Row() == rows[j]
      {
        var o := new Variant(rows[i].id, rows[i].key, rows[i].value, rows[i].weight);
        objects := objects + [o];
      }
    }

    /** Variant rows are separate objects, and the (flag_id, key) constraint holds. */
    ghost predicate Valid()
      reads this
    {
      NoAliases(variants) && KeysApart(variants)
    }

    function RowOf(): Row
      reads this
    {
      Models.Row(id, key, name, description, enabled, rolloutPercentage, offVariant, version)
    }

    function Contents(): Models.Flag
      reads this, variants
    {
      Models.Flag(RowOf(), rules, Rows(variants))
    }

    /** The existing row with a key: {v.key: v for v in flag.variants}.get(key). */
    static function Find(objects: seq<Variant>, key: string): (r: Option<Variant>)
      ensures r.Some? ==> r.value in objects && r.value.key == key
      ensures r.None? ==> forall o :: o in objects ==> o.key != key
    {
      if objects == [] then None
      else if objects[|objects| - 1].key == key then Some(objects[|objects| - 1])
      else
        assert objects == objects[..|objects| - 1] + [objects[|objects| - 1]];
        Find(objects[..|objects| - 1], key)
    }

    method RemoveUnwanted(wanted: map<string, VariantIn>)
      requires NoAliases(variants)
      modifies this`variants
      ensures variants == Kept(old(variants), wanted)
    {
      var existing := variants;
      for i := 0 to |existing|
        invariant variants == KeptSoFar(existing, i, wanted)
      {
        RemoveStep(existing, i, wanted);
        if existing[i].key !in wanted {
          variants := Remove(variants, existing[i]);
        }
      }
      assert existing[..|existing|] == existing;
    }

    /** Edits the existing row of a wanted key, or appends a new row to the list and to those added before. */
    method AddOrEdit(existing: seq<Variant>, added: seq<Variant>, wanted: map<string, VariantIn>, key: string,
                     id: nat)
      returns (more: seq<Variant>)
      requires KeysApart(existing) && key in wanted && NoAliases(added) && forall o :: o in added ==> o !in existing
      modifies this`variants, existing
      ensures |added| <= |more| && more[..|added|] == added && fresh(more[|added|..]) && NoAliases(more)
      ensures variants == old(variants) + more[|added|..]
      ensures Rows(more) == old(Rows(added)) + if key in KeysIn(existing) then []
                                               else [VariantRow(id, key, wanted[key].value, wanted[key].weight)]
      ensures forall e :: e in existing ==> if e.key == key then IsUpdated(e, wanted) else unchanged(e)
    {
      more := added;
      var row := Find(existing, key);
      if row.None? {
        var o := new Variant(id, key, wanted[key].value, wanted[key].weight);
        more := added + [o];
        variants := variants + [o];
        RowsAppend(added, [o]);
      } else {
        row.value.value := wanted[key].value;
        row.value.weight := wanted[key].weight;
        RowByKey(existing, row.value);
      }
    }

    method AddOrEditAll(existing: seq<Variant>, wanted: map<string, VariantIn>, keys: seq<string>, nextId: nat)
      returns (added: seq<Variant>)
      requires KeysApart(existing)
      requires forall k :: k in keys ==> k in wanted
      modifies this`variants, existing
      ensures variants == old(variants) + added && fresh(added) && NoAliases(added)
      ensures Rows(added) == AddedRows(keys, KeysIn(existing), wanted, nextId)
      ensures forall e :: e in existing && e.key in keys ==> IsUpdated(e, wanted)
    {
      added := [];
      assert variants == old(variants) + added;
      for i := 0 to |keys|
        invariant variants == old(variants) + added && fresh(added) && NoAliases(added)
        invariant Rows(added) == AddedRows(keys[..i], KeysIn(existing), wanted, nextId)
        invariant forall e :: e in existing && e.key in keys[..i] ==> IsUpdated(e, wanted)
      {
        AddedRowsUpto(keys, i, KeysIn(existing), wanted, nextId);
        added := AddOrEdit(existing, added, wanted, keys[i], nextId + |added|);
      }
      assert keys[..|keys|] == keys;
    }

    /** Merges a new variant set into the existing rows, matching on key. */
    method ApplyVariants(incoming: seq<VariantIn>, nextId: nat)
      requires Valid()
      modifies this`variants, variants
      ensures Valid()
      ensures Rows(variants) == old(MergeVariants(Rows(variants), incoming, nextId))
      ensures forall o :: o in old(variants) ==> (o in variants <==> o.key in Wanted(incoming))
      ensures forall o :: o in variants && o !in old(variants) ==> fresh(o)
    {
      var existing := variants;
      ghost var before := Rows(variants);
      var wanted := Wanted(incoming);
      WantedAre(incoming);
      WantedKeysAre(incoming);
      RemoveUnwanted(wanted);
      ghost var kept := variants;
      KeptNoAliases(existing, wanted);
      KeysOfRows(existing);
      var added := AddOrEditAll(existing, wanted, WantedKeys(incoming), nextId);
      UpdatedRows(existing, before, wanted);
      RowsAppend(kept, added);
      KeysStayApart(existing, before, variants, incoming, nextId);
    }

    method AssignScalars(data: FlagUpdate)
      modifies this`name, this`description, this`enabled, this`rolloutPercentage
      ensures Contents() == old(WithScalars(Contents(), data))
    {
      if data.name.Some? {
        name := data.name.value;
      }
      if data.description.Some? {
        description := data.description;
      }
      if data.enabled.Some? {
        enabled := data.enabled.value;
      }
      if data.rolloutPercentage.Some? {
        rolloutPercentage := data.rolloutPercentage.value;
      }
    }

    method AssignRules(data: FlagUpdate, nextId: nat)
      modifies this`rules
      ensures rules == if data.rules.Some? then RulesFromInput(data.rules.value, nextId) else old(rules)
    {
      if data.rules.Some? {
        rules := RulesFromInput(data.rules.value, nextId);
      }
    }

    method AssignVariants(data: FlagUpdate, nextId: nat, ghost before: seq<VariantRow>)
      requires Valid() && before == Rows(variants)
      modifies this`variants, variants
      ensures Valid()
      ensures Rows(variants) == if data.variants.Some?
                                then MergeVariants(before, data.variants.value, nextId)
                                else before
    {
      if data.variants.Some? {
        ApplyVariants(data.variants.value, nextId);
      }
    }

    method AssignOffVariant(data: FlagUpdate)
      modifies this`offVariant, this`version
      ensures offVariant == if data.offVariant.Present? then data.offVariant.value else old(offVariant)
      ensures version == old(version) + 1
    {
      if data.offVariant.Present? && data.offVariant.value != offVariant {
        offVariant := data.offVariant.value;
      }
      version := version + 1;
    }

    /** Everything that follows the validation. */
    method Assign(data: FlagUpdate, nextId: nat)
      requires Valid()
      modifies this`rules, this`variants, this`offVariant, this`version, variants
      ensures Valid() && Contents() == old(WithRelated(Contents(), data, nextId))
    {
      ghost var before := Contents();
      AssignRelated(data, nextId, nextId + |data.rules.GetOr([])|, before);
      RelatedParts(before, Contents(), data, nextId);
    }

    method AssignRelated(data: FlagUpdate, rulesId: nat, variantsId: nat, ghost before: Models.Flag)
      requires Valid() && before == Contents()
      modifies this`rules, this`variants, this`offVariant, this`version, variants
      ensures Valid() && RelatedAssigned(before, Contents(), data, rulesId, variantsId)
    {
      AssignRules(data, rulesId);
      assert Rows(variants) == before.variants;
      AssignVariants(data, variantsId, before.variants);
      ghost var merged := Rows(variants);
      AssignOffVariant(data);
      assert Rows(variants) == merged;
    }

    /** Validates the patch against the state it would leave behind. */
    method ValidateReferences(data: FlagUpdate) returns (error: Option<StoreError>)
      ensures error == CheckReferences(Contents(), data)
      ensures ValidFlag(Contents()) && ValidateUpdate(data).None? ==>
                forall n: nat :: error.None? <==> ReferencesHold(ApplyPatch(Contents(), data, n))
    {
      CheckIsExact(Contents(), data);
      KeysOfRows(variants);
      var effectiveVariants := if data.variants.Some? then set v | v in data.variants.value :: v.key
                               else set v | v in variants :: v.key;
      var effectivePins := if data.rules.Some?
                           then set r | r in data.rules.value && Truthy(r.variant) :: r.variant.value
                           else set r | r in rules && Truthy(r.variant) :: r.variant.value;
      var effectiveOff := if data.offVariant.Present? then data.offVariant.value else offVariant;
      assert effectiveVariants == EffectiveVariants(Contents(), data);
      assert effectivePins == EffectivePins(Contents(), data);
      if !(effectivePins <= effectiveVariants) {
        return Some(InvalidVariant);
      }
      if Truthy(effectiveOff) && effectiveOff.value !in effectiveVariants {
        return Some(InvalidVariant);
      }
      return None;
    }

    /** Applies a partial update in place; the caller commits or discards the object. */
    method UpdateFlag(data: FlagUpdate, nextId: nat) returns (error: Option<StoreError>)
      requires Valid()
      modifies this, variants
      ensures Valid()
      ensures error == old(CheckPatch(Contents(), data))
      ensures error.None? ==> Contents() == old(ApplyPatch(Contents(), data, nextId))
      ensures error == Some(VersionConflict) ==> Contents() == old(Contents())
      ensures error == Some(InvalidVariant) ==>
                Contents() == old(WithScalars(Contents(), data))
    {
      if version != data.version {
        return Some(VersionConflict);
      }
      ghost var before := Contents();
      AssignScalars(data);
      ghost var now := Contents();
      ReferencesIgnoreScalars(before, now, data);
      PatchInTwoParts(before, data, nextId);
      error := ValidateReferences(data);
      if error.Some? {
        return;
      }
      Assign(data, nextId);
    }
  }

  lemma KeysStayApart(existing: seq<Variant>, before: seq<VariantRow>, merged: seq<Variant>,
                      incoming: seq<VariantIn>, nextId: nat)
    requires |existing| == |before| && KeysApart(existing)
    requires forall i :: 0 <= i < |before| ==> before[i].key == existing[i].key
    requires Rows(merged) == MergeVariants(before, incoming, nextId)
    ensures KeysApart(merged)
  {
    forall i, j | 0 <= i < j < |before| ensures RowKey(before[i]) != RowKey(before[j]) {
    }
    MergeKeysApart(before, incoming, nextId);
    forall i, j | 0 <= i < j < |merged| ensures merged[i].key != merged[j].key {
      assert RowKey(merged[i].Row()) != RowKey(merged[j].Row());
    }
  }

  /** The flag after the plain columns have been assigned. */
  function WithScalars(flag: Models.Flag, data: FlagUpdate): Models.Flag {
    var row := PatchedRow(flag.row, data);
    flag.(row := row.(offVariant := flag.row.offVariant, version := flag.row.version))
  }

  /** The flag after its rules, variants, off variant and version have been. */
  function WithRelated(flag: Models.Flag, data: FlagUpdate, nextId: nat): Models.Flag {
    var patched := ApplyPatch(flag, data, nextId);
    patched.(row := flag.row.(offVariant := patched.row.offVariant, version := patched.row.version))
  }

  function RelatedRow(row: Row, data: FlagUpdate): Row {
    row.(offVariant := if data.offVariant.Present? then data.offVariant.value else row.offVariant,
         version := row.version + 1)
  }

  /** The rules, the variants and the off variant are the patch's where it has them; the version is bumped. */
  predicate RelatedAssigned(before: Models.Flag, after: Models.Flag, data: FlagUpdate, rulesId: nat,
                            variantsId: nat)
  {
    && after.rules == (if data.rules.Some? then RulesFromInput(data.rules.value, rulesId) else before.rules)
    && after.variants == (if data.variants.Some?
                          then MergeVariants(before.variants, data.variants.value, variantsId)
                          else before.variants)
    && after.row == RelatedRow(before.row, data)
  }

  /** And that is all of it. */
  lemma RelatedParts(before: Models.Flag, after: Models.Flag, data: FlagUpdate, nextId: nat)
    requires RelatedAssigned(before, after, data, nextId, nextId + |data.rules.GetOr([])|)
    ensures after == WithRelated(before, data, nextId)
  {
  }

  lemma PatchInTwoParts(flag: Models.Flag, data: FlagUpdate, nextId: nat)
    ensures WithRelated(WithScalars(flag, data), data, nextId) == ApplyPatch(flag, data, nextId)
  {
  }

  lemma CheckIsExact(flag: Models.Flag, data: FlagUpdate)
    ensures ValidFlag(flag) && ValidateUpdate(data).None? ==>
              forall n: nat :: CheckReferences(flag, data).None? <==> ReferencesHold(ApplyPatch(flag, data, n))
  {
    if ValidFlag(flag) && ValidateUpdate(data).None? {
      forall n: nat ensures CheckReferences(flag, data).None? <==> ReferencesHold(ApplyPatch(flag, data, n)) {
        ReferencesCheckedExactly(flag, data, n);
      }
    }
  }

  lemma ReferencesIgnoreScalars(a: Models.Flag, b: Models.Flag, data: FlagUpdate)
    requires a.rules == b.rules && a.variants == b.variants && a.row.offVariant == b.row.offVariant
    ensures CheckReferences(a, data) == CheckReferences(b, data)
  {
    assert EffectivePins(a, data) == EffectivePins(b, data);
    assert EffectiveVariants(a, data) == EffectiveVariants(b, data);
  }

  lemma {:induction false} KeptNoAliases(objects: seq<Variant>, wanted: map<string, VariantIn>)
    requires NoAliases(objects)
    ensures NoAliases(Kept(objects, wanted))
  {
    if objects != [] {
      var n := |objects| - 1;
      KeptNoAliases(objects[..n], wanted);
      assert objects[n] !in objects[..n];
      forall i, j | 0 <= i < j < |Kept(objects, wanted)| ensures Kept(objects, wanted)[i] != Kept(objects, wanted)[j] {
        if j >= |Kept(objects[..n], wanted)| {
          assert Kept(objects[..n], wanted)[i] in Kept(objects[..n], wanted);
        }
      }
    }
  }

  function KeysIn(objects: seq<Variant>): set<string> {
    set o | o in objects :: o.key
  }

  lemma KeysOfRows(objects: seq<Variant>)
    ensures RowKeys(Rows(objects)) == KeysIn(objects)
  {
    var rows := Rows(objects);
    forall k ensures k in RowKeys(rows) <==> k in KeysIn(objects) {
      if k in RowKeys(rows) {
        var v :| v in rows && v.key == k;
        var i := IndexOf(v, rows);
        assert objects[i] in objects;
      }
      if k in KeysIn(objects) {
        var o :| o in objects && o.key == k;
        var i := IndexOf(o, objects);
        assert rows[i] in rows;
      }
    }
  }

  lemma RowsAppend(a: seq<Variant>, b: seq<Variant>)
    ensures Rows(a + b) == Rows(a) + Rows(b)
  {
  }

  /** The list once the first i existing rows have been looked at. */
  function KeptSoFar(existing: seq<Variant>, i: nat, wanted: map<string, VariantIn>): seq<Variant>
    requires i <= |existing|
  {
    Kept(existing[..i], wanted) + existing[i..]
  }

  lemma RemoveStep(existing: seq<Variant>, i: nat, wanted: map<string, VariantIn>)
    requires NoAliases(existing) && i < |existing|
    ensures KeptSoFar(existing, i + 1, wanted)
         == if existing[i].key in wanted then KeptSoFar(existing, i, wanted)
            else Remove(KeptSoFar(existing, i, wanted), existing[i])
  {
    var kept := Kept(existing[..i], wanted);
    assert existing[..i + 1][..i] == existing[..i];
    assert existing[i..] == [existing[i]] + existing[i + 1..];
    assert KeptSoFar(existing, i, wanted) == kept + [existing[i]] + existing[i + 1..];
    assert existing[i] !in kept;
    RemoveMiddle(kept, existing[i], existing[i + 1..]);
  }

  /** A key names one row. */
  lemma RowByKey(objects: seq<Variant>, row: Variant)
    requires KeysApart(objects) && row in objects
    ensures forall o :: o in objects && o.key == row.key ==> o == row
  {
    forall o | o in objects && o.key == row.key ensures o == row {
      var i := IndexOf(o, objects);
      var j := IndexOf(row, objects);
    }
  }
}
