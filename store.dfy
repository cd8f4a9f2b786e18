/** The remote store as the dashboard sees it: a log of issued single-field updates
    `supabase.from(table).update({field: value}).eq('id', id)`, and the value each
    record's field holds once the log has been applied in order. */
module Store {
  import opened Records
  import opened Sequences

  datatype Table = CategoriesTable | ProductsTable

  datatype Field = DisplayOrderField | CategoryIdField | AvailabilityField

  datatype Update =
    | DisplayOrder(order: int)
    | CategoryId(categoryId: string)
    | Availability(available: bool)
  {
    function FieldOf(): Field {
      match this
      case DisplayOrder(_) => DisplayOrderField
      case CategoryId(_) => CategoryIdField
      case Availability(_) => AvailabilityField
    }
  }

  datatype Write = Write(table: Table, id: string, update: Update)

  /** The batch that gives every listed record `display_order = index` (lines 259-261 and
      306-316): one update per element, in list order. */
  function OrderWrites(t: Table, ids: seq<string>): seq<Write>
  {
    seq(|ids|, i requires 0 <= i < |ids| => Write(t, ids[i], DisplayOrder(i)))
  }

  /** The value the store holds for `field` of record `id` of `t` after the log, or None
      when the log never wrote it. */
  function Persisted(log: seq<Write>, t: Table, id: string, field: Field): (v: Option<Update>)
    ensures v.Some? ==> v.value.FieldOf() == field
    ensures v.Some? ==> Write(t, id, v.value) in log
  {
    if log == [] then None
    else
      var w := log[|log| - 1];
      if w.table == t && w.id == id && w.update.FieldOf() == field then Some(w.update)
      else
        var v := Persisted(log[..|log| - 1], t, id, field);
        assert v.Some? ==> Write(t, id, v.value) in log[..|log| - 1];
        v
  }

  /** No two writes of a batch target the same field of the same record, so the order in
      which concurrently sent writes land does not matter. */
  predicate DistinctTargets(log: seq<Write>) {
    forall i, j :: 0 <= i < j < |log| ==> !SameTarget(log[i], log[j])
  }

  predicate SameTarget(v: Write, w: Write) {
    v.table == w.table && v.id == w.id && v.update.FieldOf() == w.update.FieldOf()
  }

  lemma DistinctAppend(a: seq<Write>, b: seq<Write>)
    requires DistinctTargets(a) && DistinctTargets(b)
    requires forall v, w :: v in a && w in b ==> !SameTarget(v, w)
    ensures DistinctTargets(a + b)
  {
    var ab := a + b;
    forall i, j | 0 <= i < j < |ab| ensures !SameTarget(ab[i], ab[j]) {
      if j < |a| {
        assert ab[i] == a[i] && ab[j] == a[j];
      } else if i >= |a| {
        assert ab[i] == b[i - |a|] && ab[j] == b[j - |a|];
      } else {
        assert ab[i] == a[i] && ab[j] == b[j - |a|];
      }
    }
  }

  /** In a batch that never writes one field of one record twice, every write is what the
      store ends up holding for its field, wherever it sits in the batch: the order in
      which the batch's writes land does not matter. */
  lemma {:induction false} DistinctLastWins(log: seq<Write>, i: nat)
    requires DistinctTargets(log)
    requires i < |log|
    ensures Persisted(log, log[i].table, log[i].id, log[i].update.FieldOf()) == Some(log[i].update)
  {
    var n := |log|;
    if i < n - 1 {
      assert !SameTarget(log[i], log[n - 1]);
      var prefix := log[..n - 1];
      assert prefix[i] == log[i];
      assert DistinctTargets(prefix) by {
        forall a, b | 0 <= a < b < |prefix| ensures !SameTarget(prefix[a], prefix[b]) {
          assert prefix[a] == log[a] && prefix[b] == log[b];
        }
      }
      DistinctLastWins(prefix, i);
    }
  }

  /** Two batches holding the same writes, each writing no field of a record twice, leave
      the store holding the same values, whichever order their writes land in. */
  lemma OrderIrrelevant(a: seq<Write>, b: seq<Write>, t: Table, id: string, field: Field)
    requires multiset(a) == multiset(b)
    requires DistinctTargets(a) && DistinctTargets(b)
    ensures Persisted(a, t, id, field) == Persisted(b, t, id, field)
  {
    if Persisted(a, t, id, field).Some? {
      var w := Write(t, id, Persisted(a, t, id, field).value);
      assert w in multiset(b);
      var j :| 0 <= j < |b| && b[j] == w;
      DistinctLastWins(b, j);
    } else if Persisted(b, t, id, field).Some? {
      var w := Write(t, id, Persisted(b, t, id, field).value);
      assert w in multiset(a);
      var i :| 0 <= i < |a| && a[i] == w;
      DistinctLastWins(a, i);
    }
  }

  /** The `display_order` values a log writes. */
  function WrittenOrders(log: seq<Write>): set<int>
  {
    set w | w in log && w.update.DisplayOrder? :: w.update.order
  }

  /** An order batch writes one `display_order` per element and the written values are
      exactly 0 .. n-1, each once. */
  lemma OrderWritesDense(t: Table, ids: seq<string>)
    ensures |OrderWrites(t, ids)| == |ids|
    ensures forall i :: 0 <= i < |ids| ==> OrderWrites(t, ids)[i] == Write(t, ids[i], DisplayOrder(i))
    ensures forall v :: v in WrittenOrders(OrderWrites(t, ids)) <==> 0 <= v < |ids|
    ensures forall i, j :: 0 <= i < j < |ids| ==>
      OrderWrites(t, ids)[i].update.order != OrderWrites(t, ids)[j].update.order
  {
    var ws := OrderWrites(t, ids);
    forall v | 0 <= v < |ids| ensures v in WrittenOrders(ws) {
      assert ws[v] in ws;
    }
  }

  lemma {:induction false} PersistedAppend(a: seq<Write>, b: seq<Write>, t: Table, id: string, field: Field)
    ensures Persisted(a + b, t, id, field) ==
      if Persisted(b, t, id, field).Some? then Persisted(b, t, id, field) else Persisted(a, t, id, field)
  {
    if b != [] {
      assert (a + b)[..|a + b| - 1] == a + b[..|b| - 1];
      PersistedAppend(a, b[..|b| - 1], t, id, field);
    } else {
      assert a + b == a;
    }
  }

  lemma {:induction false} PersistedNotWritten(log: seq<Write>, t: Table, id: string, field: Field)
    requires forall w :: w in log ==> w.table != t || w.id != id || w.update.FieldOf() != field
    ensures Persisted(log, t, id, field) == None
  {
    if log != [] {
      PersistedNotWritten(log[..|log| - 1], t, id, field);
    }
  }

  /** With distinct ids, after an order batch every listed record holds its index in the
      list, and records not in the list hold nothing from it. */
  lemma {:induction false} OrderWritesPersist(t: Table, ids: seq<string>, k: nat)
    requires Unique(ids)
    requires k < |ids|
    ensures Persisted(OrderWrites(t, ids), t, ids[k], DisplayOrderField) == Some(DisplayOrder(k))
  {
    var ws := OrderWrites(t, ids);
    var n := |ids|;
    if k == n - 1 {
    } else {
      assert ws[..n - 1] == OrderWrites(t, ids[..n - 1]);
      OrderWritesPersist(t, ids[..n - 1], k);
    }
  }

  lemma OrderWritesUntouched(t: Table, ids: seq<string>, t': Table, id: string, field: Field)
    requires t' != t || id !in ids || field != DisplayOrderField
    ensures Persisted(OrderWrites(t, ids), t', id, field) == None
  {
    PersistedNotWritten(OrderWrites(t, ids), t', id, field);
  }

  /** With distinct ids an order batch never writes the same record twice. */
  lemma OrderWritesDistinct(t: Table, ids: seq<string>)
    requires Unique(ids)
    ensures DistinctTargets(OrderWrites(t, ids))
  {
  }

  /** The batch of a cross-category move (lines 310-316): the moved record's new category,
      then the order of the source list, then the order of the destination list. */
  function MoveBatch(t: Table, movedId: string, category: string, srcIds: seq<string>, dstIds: seq<string>): seq<Write>
  {
    [Write(t, movedId, CategoryId(category))] + OrderWrites(t, srcIds) + OrderWrites(t, dstIds)
  }

  predicate DisjointIds(a: seq<string>, b: seq<string>) {
    forall x :: x in a ==> x !in b
  }

  lemma MoveBatchDistinct(t: Table, movedId: string, category: string, srcIds: seq<string>, dstIds: seq<string>)
    requires Unique(srcIds) && Unique(dstIds) && DisjointIds(srcIds, dstIds)
    ensures DistinctTargets(MoveBatch(t, movedId, category, srcIds, dstIds))
  {
    var head := [Write(t, movedId, CategoryId(category))];
    var a, b := OrderWrites(t, srcIds), OrderWrites(t, dstIds);
    OrderWritesDistinct(t, srcIds);
    OrderWritesDistinct(t, dstIds);
    DistinctAppend(head, a);
    forall v, w | v in head + a && w in b ensures !SameTarget(v, w) {
      if v in a {
        var i :| 0 <= i < |a| && a[i] == v;
        var j :| 0 <= j < |b| && b[j] == w;
        assert srcIds[i] !in dstIds;
      }
    }
    DistinctAppend(head + a, b);
  }

  lemma MoveBatchCategory(t: Table, movedId: string, category: string, srcIds: seq<string>, dstIds: seq<string>)
    ensures Persisted(MoveBatch(t, movedId, category, srcIds, dstIds), t, movedId, CategoryIdField) == Some(CategoryId(category))
  {
    var head := [Write(t, movedId, CategoryId(category))];
    var a, b := OrderWrites(t, srcIds), OrderWrites(t, dstIds);
    PersistedAppend(head + a, b, t, movedId, CategoryIdField);
    OrderWritesUntouched(t, dstIds, t, movedId, CategoryIdField);
    PersistedAppend(head, a, t, movedId, CategoryIdField);
    OrderWritesUntouched(t, srcIds, t, movedId, CategoryIdField);
  }

  lemma MoveBatchSourceOrder(t: Table, movedId: string, category: string, srcIds: seq<string>, dstIds: seq<string>, k: nat)
    requires Unique(srcIds) && DisjointIds(srcIds, dstIds)
    requires k < |srcIds|
    ensures Persisted(MoveBatch(t, movedId, category, srcIds, dstIds), t, srcIds[k], DisplayOrderField) == Some(DisplayOrder(k))
  {
    var head := [Write(t, movedId, CategoryId(category))];
    var a, b := OrderWrites(t, srcIds), OrderWrites(t, dstIds);
    PersistedAppend(head + a, b, t, srcIds[k], DisplayOrderField);
    OrderWritesUntouched(t, dstIds, t, srcIds[k], DisplayOrderField);
    PersistedAppend(head, a, t, srcIds[k], DisplayOrderField);
    OrderWritesPersist(t, srcIds, k);
  }

  lemma MoveBatchTargetOrder(t: Table, movedId: string, category: string, srcIds: seq<string>, dstIds: seq<string>, k: nat)
    requires Unique(dstIds)
    requires k < |dstIds|
    ensures Persisted(MoveBatch(t, movedId, category, srcIds, dstIds), t, dstIds[k], DisplayOrderField) == Some(DisplayOrder(k))
  {
    var head := [Write(t, movedId, CategoryId(category))];
    PersistedAppend(head + OrderWrites(t, srcIds), OrderWrites(t, dstIds), t, dstIds[k], DisplayOrderField);
    OrderWritesPersist(t, dstIds, k);
  }
}
