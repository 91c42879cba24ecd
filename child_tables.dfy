/** Keyed tables of owned rows, and the id-diff the reconciling update runs on a child
    collection, written once for any row type with an id. */
module ChildTables {
  import opened Common

  /** The rows of `xs`, in their order, whose ids are not among `stored`:
      `xs.Where(x => !stored.Contains(x.Id)).ToList()`. */
  function Unsaved<C(==)>(xs: seq<C>, stored: set<Guid>, idOf: C -> Guid): (ys: seq<C>)
    ensures |ys| <= |xs|
    ensures forall y | y in ys :: y in xs && idOf(y) !in stored
    ensures forall x | x in xs && idOf(x) !in stored :: x in ys
    decreases |xs|
  {
    if xs == [] then []
    else
      var init := Unsaved(xs[..|xs| - 1], stored, idOf);
      if idOf(xs[|xs| - 1]) in stored then init else init + [xs[|xs| - 1]]
  }

  /** The filter keeps the order: one more row at the end is kept, at the end, exactly when it is unsaved. */
  lemma UnsavedSnoc<C>(xs: seq<C>, y: C, stored: set<Guid>, idOf: C -> Guid)
    ensures Unsaved(xs + [y], stored, idOf) == Unsaved(xs, stored, idOf) + (if idOf(y) in stored then [] else [y])
  {
    assert (xs + [y])[..|xs + [y]| - 1] == xs;
  }

  /** When every id of the collection is already stored, nothing is left to insert. */
  lemma UnsavedOfStored<C>(xs: seq<C>, stored: set<Guid>, idOf: C -> Guid)
    requires IdsOf(xs, idOf) <= stored
    ensures Unsaved(xs, stored, idOf) == []
  {
  }

  /** Filtering the stored ids out loses no id: together with the stored ones, the unsaved rows
      cover every id of the collection and no other. */
  lemma UnsavedIds<C>(xs: seq<C>, stored: set<Guid>, idOf: C -> Guid)
    ensures IdsOf(Unsaved(xs, stored, idOf), idOf) + stored == IdsOf(xs, idOf) + stored
  {
    var ys := Unsaved(xs, stored, idOf);
    forall k | k in IdsOf(xs, idOf) && k !in stored
      ensures k in IdsOf(ys, idOf)
    {
      var x :| x in xs && idOf(x) == k;
      assert x in ys;
    }
  }

  /** A collection without repeated ids keeps that property under the filter. */
  lemma {:induction false} UnsavedDistinct<C>(xs: seq<C>, stored: set<Guid>, idOf: C -> Guid)
    requires DistinctIds(xs, idOf)
    ensures DistinctIds(Unsaved(xs, stored, idOf), idOf)
    decreases |xs|
  {
    if xs != [] {
      var init := xs[..|xs| - 1];
      var last := xs[|xs| - 1];
      assert DistinctIds(init, idOf) by {
        forall i, j | 0 <= i < j < |init|
          ensures idOf(init[i]) != idOf(init[j])
        {
          assert init[i] == xs[i] && init[j] == xs[j];
        }
      }
      UnsavedDistinct(init, stored, idOf);
      var ys := Unsaved(init, stored, idOf);
      if idOf(last) !in stored {
        forall y | y in ys
          ensures idOf(y) != idOf(last)
        {
          var i :| 0 <= i < |init| && init[i] == y;
          assert xs[i] == y;
        }
        var zs := ys + [last];
        forall i, j | 0 <= i < j < |zs|
          ensures idOf(zs[i]) != idOf(zs[j])
        {
          if j == |ys| {
            assert zs[i] in ys;
          } else {
            assert zs[i] == ys[i] && zs[j] == ys[j];
          }
        }
      }
    }
  }

  lemma IdsOfSnoc<C>(xs: seq<C>, y: C, idOf: C -> Guid)
    ensures IdsOf(xs + [y], idOf) == IdsOf(xs, idOf) + {idOf(y)}
  {
    forall k | k in IdsOf(xs + [y], idOf)
      ensures k in IdsOf(xs, idOf) + {idOf(y)}
    {
      var x :| x in xs + [y] && idOf(x) == k;
      if x != y {
        assert x in xs;
      }
    }
    assert y in xs + [y];
    forall k | k in IdsOf(xs, idOf)
      ensures k in IdsOf(xs + [y], idOf)
    {
      var x :| x in xs && idOf(x) == k;
      assert x in xs + [y];
    }
  }

  /** A row with a new id extends a collection without repeated ids. */
  lemma DistinctSnoc<C>(xs: seq<C>, y: C, idOf: C -> Guid)
    requires DistinctIds(xs, idOf) && idOf(y) !in IdsOf(xs, idOf)
    ensures DistinctIds(xs + [y], idOf)
  {
    var zs := xs + [y];
    forall i, j | 0 <= i < j < |zs|
      ensures idOf(zs[i]) != idOf(zs[j])
    {
      assert zs[i] == xs[i] && zs[i] in xs;
      if j < |xs| {
        assert zs[j] == xs[j];
      }
    }
  }

  /** The rows a collection puts in a table: each row under its own id (when two rows share an
      id, the later one, which a commit refuses anyway). */
  function Rows<C(==)>(xs: seq<C>, idOf: C -> Guid): (m: map<Guid, C>)
    ensures m.Keys == IdsOf(xs, idOf)
    ensures forall k | k in m :: m[k] in xs && idOf(m[k]) == k
    decreases |xs|
  {
    if xs == [] then map[]
    else
      var init := xs[..|xs| - 1];
      assert xs == init + [xs[|xs| - 1]];
      IdsOfSnoc(init, xs[|xs| - 1], idOf);
      Rows(init, idOf)[idOf(xs[|xs| - 1]) := xs[|xs| - 1]]
  }

  /** Inserting one row is a single map update. */
  lemma InsertOne<C>(table: map<Guid, C>, x: C, idOf: C -> Guid)
    ensures table + Rows([x], idOf) == table[idOf(x) := x]
  {
    assert [x][..0] == [];
    assert Rows([x], idOf) == map[idOf(x) := x];
  }

  /** Inserting no rows changes nothing. */
  lemma InsertNone<C>(table: map<Guid, C>, idOf: C -> Guid)
    ensures table + Rows([], idOf) == table
  {
    assert table + map[] == table;
  }

  /** Inserting a collection into a table violates no key: its ids are pairwise distinct
      and none is in the table yet. */
  predicate Insertable<C(==)>(table: map<Guid, C>, xs: seq<C>, idOf: C -> Guid)
  {
    DistinctIds(xs, idOf) && forall x | x in xs :: idOf(x) !in table
  }

  /** Every row of the collection names an owner among `owners` (its foreign key holds). */
  predicate OwnedBy<C(==)>(xs: seq<C>, ownerOf: C -> Guid, owners: set<Guid>)
  {
    forall x | x in xs :: ownerOf(x) in owners
  }

  /** The ids of the rows of `table` owned by `owner`: `table.Where(x => x.OwnerId == owner).Select(x => x.Id)`. */
  function Owned<C>(table: map<Guid, C>, ownerOf: C -> Guid, owner: Guid): set<Guid>
  {
    set k | k in table && ownerOf(table[k]) == owner
  }

  /** Inserting rows that all belong to `owner` and take no stored key adds exactly their ids to
      the rows of `owner`, and leaves the rows of every other owner as they were. */
  lemma OwnedAfterInsert<C>(table: map<Guid, C>, xs: seq<C>, idOf: C -> Guid, ownerOf: C -> Guid, owner: Guid)
    requires forall x | x in xs :: idOf(x) !in table
    requires OwnedBy(xs, ownerOf, {owner})
    ensures Owned(table + Rows(xs, idOf), ownerOf, owner) == Owned(table, ownerOf, owner) + IdsOf(xs, idOf)
    ensures forall o | o != owner :: Owned(table + Rows(xs, idOf), ownerOf, o) == Owned(table, ownerOf, o)
  {
    var rows := Rows(xs, idOf);
    forall k | k in rows
      ensures k !in table && ownerOf(rows[k]) == owner
    {
      assert rows[k] in xs;
    }
    forall o | o != owner
      ensures Owned(table + rows, ownerOf, o) == Owned(table, ownerOf, o)
    {
    }
  }

  /** Storing one new row of `owner` adds exactly its key to the rows of `owner`. */
  lemma OwnedAfterPut<C>(table: map<Guid, C>, k: Guid, x: C, ownerOf: C -> Guid, owner: Guid)
    requires k !in table && ownerOf(x) == owner
    ensures Owned(table[k := x], ownerOf, owner) == Owned(table, ownerOf, owner) + {k}
  {
  }

  /** Every row of the table is stored under its own id. */
  predicate KeyedBy<C>(table: map<Guid, C>, idOf: C -> Guid)
  {
    forall k | k in table :: idOf(table[k]) == k
  }

  /** Every row of the table names an owner among `owners`. */
  predicate PointInto<C>(table: map<Guid, C>, ownerOf: C -> Guid, owners: set<Guid>)
  {
    forall k | k in table :: ownerOf(table[k]) in owners
  }

  /** Read back by id, the rows of a collection without repeated ids are its own elements. */
  lemma RowsOfDistinct<C>(xs: seq<C>, idOf: C -> Guid)
    requires DistinctIds(xs, idOf)
    ensures forall x | x in xs :: idOf(x) in Rows(xs, idOf) && Rows(xs, idOf)[idOf(x)] == x
  {
    var rows := Rows(xs, idOf);
    forall x | x in xs
      ensures idOf(x) in rows && rows[idOf(x)] == x
    {
      assert idOf(x) in IdsOf(xs, idOf);
      var i :| 0 <= i < |xs| && xs[i] == rows[idOf(x)];
      var j :| 0 <= j < |xs| && xs[j] == x;
      assert !(i < j) && !(j < i);
    }
  }

  /** After inserting the rows of an owner that had none, a listing of the owner's rows is the
      inserted collection itself. */
  lemma InsertedListed<C>(table: map<Guid, C>, xs: seq<C>, idOf: C -> Guid, ownerOf: C -> Guid, owner: Guid)
    requires Insertable(table, xs, idOf) && OwnedBy(xs, ownerOf, {owner})
    requires Owned(table, ownerOf, owner) == {}
    ensures Lists(xs, table + Rows(xs, idOf), Owned(table + Rows(xs, idOf), ownerOf, owner), idOf)
  {
    OwnedAfterInsert(table, xs, idOf, ownerOf, owner);
    RowsOfDistinct(xs, idOf);
  }

  /** The id-diff on one child collection, end to end: the owner's rows were listed as `before`,
      the collection grew to `after` by rows with new ids, and inserting the unsaved rows makes
      `after` a listing of the owner's rows. */
  lemma UpdatedListed<C>(table: map<Guid, C>, before: seq<C>, after: seq<C>, idOf: C -> Guid,
                             ownerOf: C -> Guid, owner: Guid)
    requires Lists(before, table, Owned(table, ownerOf, owner), idOf)
    requires before <= after && DistinctIds(after, idOf) && OwnedBy(after, ownerOf, {owner})
    requires forall x | x in after :: x in before || idOf(x) !in table
    ensures Insertable(table, Unsaved(after, Owned(table, ownerOf, owner), idOf), idOf)
    ensures var ys := Unsaved(after, Owned(table, ownerOf, owner), idOf);
            Lists(after, table + Rows(ys, idOf), Owned(table + Rows(ys, idOf), ownerOf, owner), idOf)
  {
    var stored := Owned(table, ownerOf, owner);
    var ys := Unsaved(after, stored, idOf);
    UnsavedDistinct(after, stored, idOf);
    forall y | y in ys
      ensures idOf(y) !in table
    {
      assert y in before ==> idOf(y) in IdsOf(before, idOf);
    }
    OwnedAfterInsert(table, ys, idOf, ownerOf, owner);
    UnsavedIds(after, stored, idOf);
    assert IdsOf(before, idOf) <= IdsOf(after, idOf) by {
      forall x | x in before
        ensures x in after
      {
        var i :| 0 <= i < |before| && before[i] == x;
        assert after[i] == x;
      }
    }
    RowsOfDistinct(ys, idOf);
    var rows := Rows(ys, idOf);
    forall x | x in after
      ensures idOf(x) in table + rows && (table + rows)[idOf(x)] == x
    {
      assert x !in before ==> x in ys;
      assert x in before ==> idOf(x) !in rows;
    }
  }

  /** Inserted rows are stored under their own ids, so a keyed table stays keyed. */
  lemma InsertKeepsKeys<C>(table: map<Guid, C>, xs: seq<C>, idOf: C -> Guid)
    requires KeyedBy(table, idOf)
    ensures KeyedBy(table + Rows(xs, idOf), idOf)
  {
  }

  /** Inserted rows whose owners exist keep every foreign key of the table valid. */
  lemma InsertKeepsLinks<C>(table: map<Guid, C>, xs: seq<C>, idOf: C -> Guid, ownerOf: C -> Guid,
                                owners: set<Guid>, owners': set<Guid>)
    requires PointInto(table, ownerOf, owners) && owners <= owners'
    requires OwnedBy(xs, ownerOf, owners')
    ensures PointInto(table + Rows(xs, idOf), ownerOf, owners')
  {
    var rows := Rows(xs, idOf);
    forall k | k in rows
      ensures ownerOf(rows[k]) in owners'
    {
      assert rows[k] in xs;
    }
  }

  /** `xs` is a listing of the rows of `table` whose keys are `keys`: each of them exactly once,
      in an order the store chooses. */
  predicate Lists<C(==)>(xs: seq<C>, table: map<Guid, C>, keys: set<Guid>, idOf: C -> Guid)
  {
    && IdsOf(xs, idOf) == keys
    && DistinctIds(xs, idOf)
    && forall x | x in xs :: idOf(x) in table && table[idOf(x)] == x
  }

  /** A listing has one element per key. */
  lemma {:induction false} ListsCount<C>(xs: seq<C>, table: map<Guid, C>, keys: set<Guid>, idOf: C -> Guid)
    requires Lists(xs, table, keys, idOf)
    ensures |xs| == |keys|
    decreases |xs|
  {
    if xs != [] {
      var init := xs[..|xs| - 1];
      var last := xs[|xs| - 1];
      assert xs == init + [last];
      IdsOfSnoc(init, last, idOf);
      forall x | x in init
        ensures idOf(x) != idOf(last)
      {
        var i :| 0 <= i < |init| && init[i] == x;
        assert xs[i] == x;
      }
      assert idOf(last) !in IdsOf(init, idOf);
      assert Lists(init, table, keys - {idOf(last)}, idOf) by {
        assert IdsOf(init, idOf) == keys - {idOf(last)};
        forall i, j | 0 <= i < j < |init|
          ensures idOf(init[i]) != idOf(init[j])
        {
          assert init[i] == xs[i] && init[j] == xs[j];
        }
      }
      ListsCount(init, table, keys - {idOf(last)}, idOf);
    }
  }

  /** Elements whose ids follow, one for one, a duplicate-free listing of `keys` list `keys`. */
  lemma EnumeratedIds<C>(xs: seq<C>, ks: seq<Guid>, keys: set<Guid>, idOf: C -> Guid)
    requires |xs| == |ks| && forall j | 0 <= j < |xs| :: idOf(xs[j]) == ks[j]
    requires forall k :: k in ks <==> k in keys
    requires forall i, j | 0 <= i < j < |ks| :: ks[i] != ks[j]
    ensures IdsOf(xs, idOf) == keys && DistinctIds(xs, idOf)
  {
    forall k | k in keys
      ensures k in IdsOf(xs, idOf)
    {
      var j :| 0 <= j < |ks| && ks[j] == k;
      assert xs[j] in xs;
    }
    forall x | x in xs
      ensures idOf(x) in keys
    {
      var j :| 0 <= j < |xs| && xs[j] == x;
      assert ks[j] in ks;
    }
  }

  /** The id-diff loop: the elements of `xs`, in order, whose ids are not in `stored`. */
  method CollectUnsaved<C(==)>(xs: seq<C>, stored: set<Guid>, idOf: C -> Guid) returns (ys: seq<C>)
    ensures ys == Unsaved(xs, stored, idOf)
  {
    ys := [];
    for i := 0 to |xs|
      invariant ys == Unsaved(xs[..i], stored, idOf)
    {
      assert xs[..i + 1][..i] == xs[..i];
      if idOf(xs[i]) !in stored {
        ys := ys + [xs[i]];
      }
    }
    assert xs[..|xs|] == xs;
  }

  /** The rows marked added, one at a time. */
  method CollectRows<C(==)>(xs: seq<C>, idOf: C -> Guid) returns (m: map<Guid, C>)
    ensures m == Rows(xs, idOf)
  {
    m := map[];
    for i := 0 to |xs|
      invariant m == Rows(xs[..i], idOf)
    {
      assert xs[..i + 1][..i] == xs[..i];
      m := m[idOf(xs[i]) := xs[i]];
    }
    assert xs[..|xs|] == xs;
  }

  /** Some order of a finite set of keys, each key once: the order rows come back from a query. */
  method Enumerate(s: set<Guid>) returns (ks: seq<Guid>)
    ensures |ks| == |s|
    ensures forall k :: k in ks <==> k in s
    ensures forall i, j | 0 <= i < j < |ks| :: ks[i] != ks[j]
  {
    ks := [];
    var rest := s;
    while rest != {}
      invariant |ks| + |rest| == |s|
      invariant forall k :: k in s <==> k in ks || k in rest
      invariant forall k | k in ks :: k !in rest
      invariant forall i, j | 0 <= i < j < |ks| :: ks[i] != ks[j]
      decreases |rest|
    {
      var k :| k in rest;
      ks := ks + [k];
      rest := rest - {k};
    }
  }

  /** The query `table.Where(row => keys.Contains(row.Id)).ToList()`. */
  method ListRows<C(==)>(table: map<Guid, C>, keys: set<Guid>, idOf: C -> Guid) returns (xs: seq<C>)
    requires keys <= table.Keys && KeyedBy(table, idOf)
    ensures Lists(xs, table, keys, idOf)
  {
    var ks := Enumerate(keys);
    xs := [];
    var i := 0;
    while i < |ks|
      invariant 0 <= i <= |ks| && |xs| == i
      invariant forall j | 0 <= j < i :: xs[j] == table[ks[j]] && idOf(xs[j]) == ks[j]
    {
      xs := xs + [table[ks[i]]];
      i := i + 1;
    }
    forall k | k in keys
      ensures k in IdsOf(xs, idOf)
    {
      var j :| 0 <= j < |ks| && ks[j] == k;
      assert xs[j] in xs;
    }
    forall x | x in xs
      ensures idOf(x) in keys && idOf(x) in table && table[idOf(x)] == x
    {
      var j :| 0 <= j < |xs| && xs[j] == x;
      assert ks[j] in ks;
    }
  }
}
