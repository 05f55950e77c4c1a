/** What merging a variant set does to its rows, and what sums and orders of rows it rests on. */
module ModelLaws {
  import opened Wrappers
  import opened Ordering
  import opened Bands
  import opened Schemas
  import opened Models

  // ---- Lists that hold the same entries --------------------------------------------------------

  ghost predicate NoRepeats<T(!new)>(xs: seq<T>) {
    forall i, j :: 0 <= i < j < |xs| ==> xs[i] != xs[j]
  }

  lemma {:induction false} CountInNoRepeats<T(!new)>(xs: seq<T>, x: T)
    requires NoRepeats(xs)
    ensures multiset(xs)[x] == if x in xs then 1 else 0
  {
    if xs != [] {
      assert xs == [xs[0]] + xs[1..];
      CountInNoRepeats(xs[1..], x);
    }
  }

  lemma SameEntries<T(!new)>(xs: seq<T>, ys: seq<T>)
    requires NoRepeats(xs) && NoRepeats(ys)
    requires forall x :: x in xs <==> x in ys
    ensures multiset(xs) == multiset(ys)
  {
    forall x ensures multiset(xs)[x] == multiset(ys)[x] {
      CountInNoRepeats(xs, x);
      CountInNoRepeats(ys, x);
    }
  }

  function Without<T>(xs: seq<T>, i: nat): seq<T>
    requires i < |xs|
  {
    xs[..i] + xs[i + 1..]
  }

  lemma WithoutOne<T>(xs: seq<T>, i: nat)
    requires i < |xs|
    ensures multiset(xs) == multiset{xs[i]} + multiset(Without(xs, i))
    ensures multiset(Without(xs, i)) == multiset(xs) - multiset{xs[i]}
  {
    assert xs == xs[..i] + [xs[i]] + xs[i + 1..];
  }

  lemma {:induction false} SumOfTail(ws: seq<int>)
    requires ws != []
    ensures Sum(ws) == ws[0] + Sum(ws[1..])
  {
    if |ws| > 1 {
      SumOfTail(ws[..|ws| - 1]);
      assert ws[..|ws| - 1][1..] == ws[1..][..|ws| - 2];
    }
  }

  lemma {:induction false} SumWithout(ws: seq<int>, i: nat)
    requires i < |ws|
    ensures Sum(ws) == ws[i] + Sum(Without(ws, i))
  {
    SumOfTail(ws);
    if i == 0 {
      assert Without(ws, 0) == ws[1..];
    } else {
      SumWithout(ws[1..], i - 1);
      assert Without(ws, i)[1..] == Without(ws[1..], i - 1);
      SumOfTail(Without(ws, i));
    }
  }

  /** Summing forgets the order. */
  lemma {:induction false} SumForgetsOrder(ws: seq<int>, ws': seq<int>)
    requires multiset(ws) == multiset(ws')
    ensures Sum(ws) == Sum(ws')
  {
    SameMembers(ws, ws');
    if ws != [] {
      assert ws[0] in ws';
      var i := IndexOf(ws[0], ws');
      WithoutOne(ws, 0);
      WithoutOne(ws', i);
      SumForgetsOrder(Without(ws, 0), Without(ws', i));
      SumWithout(ws, 0);
      SumWithout(ws', i);
    }
  }

  lemma MapWithout<T, U>(f: T -> U, xs: seq<T>, i: nat)
    requires i < |xs|
    ensures MapSeq(f, Without(xs, i)) == Without(MapSeq(f, xs), i)
  {
  }

  lemma {:induction false} MapForgetsOrder<T(!new), U>(f: T -> U, xs: seq<T>, ys: seq<T>)
    requires multiset(xs) == multiset(ys)
    ensures multiset(MapSeq(f, xs)) == multiset(MapSeq(f, ys))
  {
    SameMembers(xs, ys);
    if xs != [] {
      assert xs[0] in ys;
      var i := IndexOf(xs[0], ys);
      WithoutOne(xs, 0);
      WithoutOne(ys, i);
      MapForgetsOrder(f, Without(xs, 0), Without(ys, i));
      MapWithout(f, xs, 0);
      MapWithout(f, ys, i);
      WithoutOne(MapSeq(f, xs), 0);
      WithoutOne(MapSeq(f, ys), i);
    }
  }

  // ---- The merge -------------------------------------------------------------------------------

  /** A stored variant as the input that would describe it. */
  function AsInput(v: VariantRow): VariantIn { VariantIn(v.key, v.value, v.weight) }

  lemma {:induction false} KeptRowsAre(rows: seq<VariantRow>, wanted: map<string, VariantIn>)
    requires DistinctKeys(rows, RowKey)
    ensures DistinctKeys(KeptRows(rows, wanted), RowKey)
    ensures forall v :: v in KeptRows(rows, wanted) <==>
              v.key in wanted && v.value == wanted[v.key].value && v.weight == wanted[v.key].weight
              && exists r :: r in rows && r.id == v.id && r.key == v.key
  {
    if rows != [] {
      var tail := KeptRows(rows[1..], wanted);
      KeptRowsAre(rows[1..], wanted);
      assert rows == [rows[0]] + rows[1..];
      forall v | v in tail ensures RowKey(v) != RowKey(rows[0]) {
        var r :| r in rows[1..] && r.id == v.id && r.key == v.key;
        var i := IndexOf(r, rows[1..]);
        assert RowKey(rows[0]) != RowKey(rows[i + 1]);
      }
      var head := rows[0];
      if head.key in wanted {
        var kept := head.(value := wanted[head.key].value, weight := wanted[head.key].weight);
        assert KeptRows(rows, wanted) == [kept] + tail;
        forall i, j | 0 <= i < j < |[kept] + tail| ensures RowKey(([kept] + tail)[i]) != RowKey(([kept] + tail)[j]) {
          assert ([kept] + tail)[j] in tail;
        }
      } else {
        assert KeptRows(rows, wanted) == tail;
      }
    }
  }

  lemma {:induction false} AddedRowsAre(keys: seq<string>, taken: set<string>, wanted: map<string, VariantIn>,
                                        nextId: nat)
    requires forall k :: k in keys ==> k in wanted
    requires NoRepeats(keys)
    ensures
      var added := AddedRows(keys, taken, wanted, nextId);
      && DistinctKeys(added, RowKey)
      && (forall v :: v in added ==> v.key in keys && v.key !in taken && nextId <= v.id < nextId + |keys|
                                     && v.value == wanted[v.key].value && v.weight == wanted[v.key].weight)
      && (forall k :: k in keys && k !in taken ==> exists v :: v in added && v.key == k)
  {
    if keys != [] {
      assert keys == [keys[0]] + keys[1..];
      if keys[0] in taken {
        AddedRowsAre(keys[1..], taken, wanted, nextId);
      } else {
        AddedRowsAre(keys[1..], taken, wanted, nextId + 1);
        var head := VariantRow(nextId, keys[0], wanted[keys[0]].value, wanted[keys[0]].weight);
        var tail := AddedRows(keys[1..], taken, wanted, nextId + 1);
        var added := [head] + tail;
        assert keys[0] !in keys[1..];
        forall i, j | 0 <= i < j < |added| ensures RowKey(added[i]) != RowKey(added[j]) {
          assert added[j] in tail;
        }
        forall k | k in keys && k !in taken ensures exists v :: v in added && v.key == k {
          if k == keys[0] {
            assert head in added && head.key == k;
          } else {
            var v :| v in tail && v.key == k;
            assert v in added;
          }
        }
      }
    }
  }

  lemma {:induction false} WantedFinds(vs: seq<VariantIn>, v: VariantIn)
    requires DistinctKeys(vs, InKey) && v in vs
    ensures v.key in Wanted(vs) && Wanted(vs)[v.key] == v
  {
    var last, init := vs[|vs| - 1], vs[..|vs| - 1];
    assert vs == init + [last];
    if v != last {
      var i := IndexOf(v, vs);
      assert InKey(vs[i]) != InKey(last);
      assert v in init;
      WantedFinds(init, v);
    }
  }

  /** The rows a merge inserts. */
  function Inserted(rows: seq<VariantRow>, incoming: seq<VariantIn>, nextId: nat): seq<VariantRow> {
    WantedAre(incoming);
    WantedKeysAre(incoming);
    AddedRows(WantedKeys(incoming), RowKeys(rows), Wanted(incoming), nextId)
  }

  /** Whatever is asked for, even with repeated keys, the merge leaves no two rows with one key. */
  lemma MergeKeysApart(rows: seq<VariantRow>, incoming: seq<VariantIn>, nextId: nat)
    requires DistinctKeys(rows, RowKey)
    ensures DistinctKeys(MergeVariants(rows, incoming, nextId), RowKey)
  {
    var merged := MergeVariants(rows, incoming, nextId);
    var kept, added := KeptRows(rows, Wanted(incoming)), Inserted(rows, incoming, nextId);
    WantedAre(incoming);
    WantedKeysAre(incoming);
    KeptRowsAre(rows, Wanted(incoming));
    AddedRowsAre(WantedKeys(incoming), RowKeys(rows), Wanted(incoming), nextId);
    forall i, j | 0 <= i < j < |merged| ensures RowKey(merged[i]) != RowKey(merged[j]) {
      if i < |kept| && |kept| <= j {
        assert merged[i] in kept && merged[j] in added;
      }
    }
  }

  /**
   The merge ends with exactly the wanted keys, values and weights; a key that was there
   before keeps its row id, and every other row is new.
   */
  lemma MergeIsExact(rows: seq<VariantRow>, incoming: seq<VariantIn>, nextId: nat)
    requires DistinctKeys(rows, RowKey) && DistinctKeys(incoming, InKey)
    ensures
      var merged := MergeVariants(rows, incoming, nextId);
      && DistinctKeys(merged, RowKey)
      && multiset(MapSeq(AsInput, merged)) == multiset(incoming)
      && (forall v, r :: v in merged && r in rows && v.key == r.key ==> v.id == r.id)
      && (forall v :: v in merged && v.key !in RowKeys(rows) ==> nextId <= v.id < nextId + |incoming|)
  {
    var wanted, keys, merged := Wanted(incoming), WantedKeys(incoming), MergeVariants(rows, incoming, nextId);
    var kept, added := KeptRows(rows, wanted), Inserted(rows, incoming, nextId);
    WantedAre(incoming);
    WantedKeysAre(incoming);
    KeptRowsAre(rows, wanted);
    AddedRowsAre(keys, RowKeys(rows), wanted, nextId);
    WantedKeysCount(incoming);
    MergeKeysApart(rows, incoming, nextId);
    forall v, r | v in merged && r in rows && v.key == r.key ensures v.id == r.id {
      assert v in kept;
      var r' :| r' in rows && r'.id == v.id && r'.key == v.key;
      var i := IndexOf(r, rows);
      var j := IndexOf(r', rows);
      assert RowKey(rows[i]) == RowKey(rows[j]);
    }
    MergedEntries(rows, incoming, nextId);
  }

  lemma {:induction false} WantedKeysCount(vs: seq<VariantIn>)
    ensures |WantedKeys(vs)| <= |vs|
  {
    if vs != [] {
      WantedKeysCount(vs[..|vs| - 1]);
    }
  }

  /** What a merged row holds is what was asked for. */
  lemma MergedIsWanted(rows: seq<VariantRow>, incoming: seq<VariantIn>, nextId: nat, v: VariantRow)
    requires DistinctKeys(rows, RowKey) && v in MergeVariants(rows, incoming, nextId)
    ensures AsInput(v) in incoming
  {
    var wanted, added := Wanted(incoming), Inserted(rows, incoming, nextId);
    WantedAre(incoming);
    WantedKeysAre(incoming);
    KeptRowsAre(rows, wanted);
    AddedRowsAre(WantedKeys(incoming), RowKeys(rows), wanted, nextId);
    assert v in KeptRows(rows, wanted) || v in added;
    assert wanted[v.key] == AsInput(v);
  }

  /** What was asked for is in some merged row. */
  lemma WantedIsMerged(rows: seq<VariantRow>, incoming: seq<VariantIn>, nextId: nat, x: VariantIn)
    returns (v: VariantRow)
    requires DistinctKeys(rows, RowKey) && DistinctKeys(incoming, InKey) && x in incoming
    ensures v in MergeVariants(rows, incoming, nextId) && AsInput(v) == x
  {
    var wanted, added := Wanted(incoming), Inserted(rows, incoming, nextId);
    WantedAre(incoming);
    WantedKeysAre(incoming);
    KeptRowsAre(rows, wanted);
    AddedRowsAre(WantedKeys(incoming), RowKeys(rows), wanted, nextId);
    WantedFinds(incoming, x);
    if x.key in RowKeys(rows) {
      var r :| r in rows && r.key == x.key;
      v := r.(value := x.value, weight := x.weight);
      assert v in KeptRows(rows, wanted);
    } else {
      assert x.key in WantedKeys(incoming);
      v :| v in added && v.key == x.key;
    }
  }

  lemma MergedEntries(rows: seq<VariantRow>, incoming: seq<VariantIn>, nextId: nat)
    requires DistinctKeys(rows, RowKey) && DistinctKeys(incoming, InKey)
    requires DistinctKeys(MergeVariants(rows, incoming, nextId), RowKey)
    ensures multiset(MapSeq(AsInput, MergeVariants(rows, incoming, nextId))) == multiset(incoming)
  {
    var merged := MergeVariants(rows, incoming, nextId);
    var entries := MapSeq(AsInput, merged);
    forall x ensures x in entries <==> x in incoming {
      if x in entries {
        var i := IndexOf(x, entries);
        MergedIsWanted(rows, incoming, nextId, merged[i]);
      }
      if x in incoming {
        var v := WantedIsMerged(rows, incoming, nextId, x);
        var i := IndexOf(v, merged);
        assert entries[i] == x;
      }
    }
    forall i, j | 0 <= i < j < |entries| ensures entries[i] != entries[j] {
      assert RowKey(merged[i]) != RowKey(merged[j]);
    }
    forall i, j | 0 <= i < j < |incoming| ensures incoming[i] != incoming[j] {
      assert InKey(incoming[i]) != InKey(incoming[j]);
    }
    SameEntries(entries, incoming);
  }

  /** The rows present while a flush has inserted but not yet deleted. */
  function BeforeDeletes(rows: seq<VariantRow>, inserted: seq<VariantRow>): seq<VariantRow> {
    rows + inserted
  }

  /** Inserting the merge's new rows before deleting the dropped ones never repeats a key. */
  lemma InsertsNeverCollide(rows: seq<VariantRow>, incoming: seq<VariantIn>, nextId: nat)
    requires DistinctKeys(rows, RowKey)
    ensures DistinctKeys(BeforeDeletes(rows, Inserted(rows, incoming, nextId)), RowKey)
  {
    var added := Inserted(rows, incoming, nextId);
    var all := BeforeDeletes(rows, added);
    WantedAre(incoming);
    WantedKeysAre(incoming);
    AddedRowsAre(WantedKeys(incoming), RowKeys(rows), Wanted(incoming), nextId);
    forall i, j | 0 <= i < j < |all| ensures RowKey(all[i]) != RowKey(all[j]) {
      if i < |rows| && |rows| <= j {
        assert all[i] in rows && all[j] in added;
      }
    }
  }

  /** Assigning a fresh list instead collides exactly when some key is kept. */
  lemma FreshListCollides(rows: seq<VariantRow>, incoming: seq<VariantIn>, nextId: nat)
    requires DistinctKeys(rows, RowKey) && DistinctKeys(incoming, InKey)
    ensures DistinctKeys(BeforeDeletes(rows, VariantsFromInput(incoming, nextId)), RowKey)
            <==> RowKeys(rows) !! InKeys(incoming)
  {
    var replacement := VariantsFromInput(incoming, nextId);
    var all := BeforeDeletes(rows, replacement);
    if k :| k in RowKeys(rows) && k in InKeys(incoming) {
      var r :| r in rows && r.key == k;
      var v :| v in incoming && v.key == k;
      var i := IndexOf(r, rows);
      var j := IndexOf(v, incoming);
      assert RowKey(all[i]) == RowKey(all[|rows| + j]);
    } else {
      forall i, j | 0 <= i < j < |all| ensures RowKey(all[i]) != RowKey(all[j]) {
        if j < |rows| {
          assert RowKey(rows[i]) != RowKey(rows[j]);
        } else if |rows| <= i {
          assert InKey(incoming[i - |rows|]) != InKey(incoming[j - |rows|]);
        } else {
          assert rows[i] in rows && incoming[j - |rows|] in incoming;
          assert rows[i].key in RowKeys(rows) && incoming[j - |rows|].key in InKeys(incoming);
        }
      }
    }
  }
}
