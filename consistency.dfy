/** Consistency of `productsByCategory` and of the order batches: every product id sits in
    at most one group, a drop keeps it that way, and a drop's batch leaves every product of
    the affected groups with its position as stored display order. */
module Consistency {
  import opened Records
  import opened Sequences
  import opened ArrayMove
  import opened Store
  import opened Grouping
  import opened Reorder

  /** No product id is listed twice, within a group or across groups. */
  predicate Partitioned(g: Groups) {
    && (forall c :: c in g ==> Unique(ProductIds(g[c])))
    && (forall c, d :: c in g && d in g && c != d ==> DisjointIds(ProductIds(g[c]), ProductIds(g[d])))
  }

  lemma IdsOfRemoveAt(ps: seq<Product>, i: nat)
    requires i < |ps|
    ensures ProductIds(RemoveAt(ps, i)) == RemoveAt(ProductIds(ps), i)
  {
  }

  lemma IdsOfInsertAt(ps: seq<Product>, i: nat, x: Product)
    requires i <= |ps|
    ensures ProductIds(InsertAt(ps, i, x)) == InsertAt(ProductIds(ps), i, x.id)
  {
    var a, b := ProductIds(InsertAt(ps, i, x)), InsertAt(ProductIds(ps), i, x.id);
    assert forall k :: 0 <= k < |a| ==> a[k] == b[k];
  }

  lemma IdsOfMove(ps: seq<Product>, from: nat, to: nat)
    requires from < |ps| && to < |ps|
    ensures ProductIds(Move(ps, from, to)) == Move(ProductIds(ps), from, to)
  {
    var a, b := ProductIds(Move(ps, from, to)), Move(ProductIds(ps), from, to);
    forall i | 0 <= i < |ps| ensures a[i] == b[i] {
      MoveAt(ps, from, to, i);
      MoveAt(ProductIds(ps), from, to, i);
    }
  }

  lemma MoveMembers<T>(s: seq<T>, from: nat, to: nat)
    requires from < |s| && to < |s|
    ensures forall x :: x in Move(s, from, to) <==> x in s
  {
    MovePermutes(s, from, to);
    assert forall x :: x in Move(s, from, to) <==> x in multiset(Move(s, from, to));
  }

  /** The ids of both groups a cross-container drop rewrites. */
  lemma CrossContainerIds(g: Groups, activeId: string, overId: string, source: string, target: string)
    requires source != target
    requires ProductDropResolvable(g, activeId, overId, source, target)
    requires Partitioned(g)
    ensures var g' := ProductDrop(g, activeId, overId, source, target);
      && Unique(ProductIds(g'[source]))
      && Unique(ProductIds(g'[target]))
      && (forall x :: x in ProductIds(g'[source]) <==> x in ProductIds(GroupAt(g, source)) && x != activeId)
      && (forall x :: x in ProductIds(g'[target]) <==> x in ProductIds(GroupAt(g, target)) || x == activeId)
  {
    var src, dst := GroupAt(g, source), GroupAt(g, target);
    var from := FindIndex(ProductIds(src), activeId);
    var at := LandingIndex(FindIndex(ProductIds(dst), overId), dst);
    CrossContainerShape(g, activeId, overId, source, target);
    WithoutIdRemovesAt(src, from);
    IdsOfRemoveAt(src, from);
    IdsOfInsertAt(dst, at, src[from]);
    assert source in g;
    assert DisjointIds(ProductIds(src), ProductIds(dst)) by {
      if target in g {
        assert DisjointIds(ProductIds(g[source]), ProductIds(g[target]));
      }
    }
    UniqueRemoveAt(ProductIds(src), from);
    UniqueInsertAt(ProductIds(dst), at, activeId);
  }

  /** A drop keeps every product id in at most one group. */
  lemma ProductDropKeepsPartition(g: Groups, activeId: string, overId: string, source: string, target: string)
    requires ProductDropResolvable(g, activeId, overId, source, target)
    requires Partitioned(g)
    ensures Partitioned(ProductDrop(g, activeId, overId, source, target))
  {
    if source == target {
      SameContainerKeepsPartition(g, activeId, overId, source);
    } else {
      CrossContainerKeepsPartition(g, activeId, overId, source, target);
    }
  }

  lemma SameContainerKeepsPartition(g: Groups, activeId: string, overId: string, c: string)
    requires ProductDropResolvable(g, activeId, overId, c, c)
    requires Partitioned(g)
    ensures Partitioned(ProductDrop(g, activeId, overId, c, c))
  {
    var src := GroupAt(g, c);
    assert c in g;
    var from, to := FindIndex(ProductIds(src), activeId), FindIndex(ProductIds(src), overId);
    var g' := g[c := Move(src, from, to)];
    assert ProductDrop(g, activeId, overId, c, c) == g';
    IdsOfMove(src, from, to);
    MoveKeepsUnique(ProductIds(src), from, to);
    MoveMembers(ProductIds(src), from, to);
    forall d, e | d in g' && e in g' && d != e
      ensures DisjointIds(ProductIds(g'[d]), ProductIds(g'[e]))
    {
      assert DisjointIds(ProductIds(g[d]), ProductIds(g[e]));
    }
  }

  lemma CrossContainerKeepsPartition(g: Groups, activeId: string, overId: string, source: string, target: string)
    requires source != target
    requires ProductDropResolvable(g, activeId, overId, source, target)
    requires Partitioned(g)
    ensures Partitioned(ProductDrop(g, activeId, overId, source, target))
  {
    var g' := ProductDrop(g, activeId, overId, source, target);
    assert source in g;
    CrossContainerShape(g, activeId, overId, source, target);
    CrossContainerIds(g, activeId, overId, source, target);
    // the dragged product was listed in its own container only
    forall e | e in g && e != source ensures activeId !in ProductIds(g[e]) {
      assert DisjointIds(ProductIds(g[source]), ProductIds(g[e]));
    }
    forall c, d | c in g' && d in g' && c != d
      ensures DisjointIds(ProductIds(g'[c]), ProductIds(g'[d]))
    {
      forall x | x in ProductIds(g'[c]) ensures x !in ProductIds(g'[d]) {
        if x != activeId {
          assert c in g && x in ProductIds(g[c]);
          if d in g {
            assert DisjointIds(ProductIds(g[c]), ProductIds(g[d]));
          }
        }
      }
    }
  }

  /** After a successful drop within one container, every product of that group holds its
      new position as stored display order, and no record is written twice. */
  lemma SameContainerPersisted(g: Groups, activeId: string, overId: string, c: string, k: nat)
    requires ProductDropResolvable(g, activeId, overId, c, c)
    requires Partitioned(g)
    requires k < |ProductDrop(g, activeId, overId, c, c)[c]|
    ensures var g' := ProductDrop(g, activeId, overId, c, c);
      var log := ProductDropWrites(g, activeId, overId, c, c);
      && DistinctTargets(log)
      && Persisted(log, ProductsTable, g'[c][k].id, DisplayOrderField) == Some(DisplayOrder(k))
  {
    var src := GroupAt(g, c);
    assert c in g;
    var from, to := FindIndex(ProductIds(src), activeId), FindIndex(ProductIds(src), overId);
    var moved := Move(src, from, to);
    IdsOfMove(src, from, to);
    MoveKeepsUnique(ProductIds(src), from, to);
    OrderWritesDistinct(ProductsTable, ProductIds(moved));
    OrderWritesPersist(ProductsTable, ProductIds(moved), k);
  }

  /** After a successful cross-container drop: the dragged product's stored category is the
      destination, every product left in the source group and every product of the
      destination group holds its position as stored display order, and no record field is
      written twice in the batch. */
  lemma CrossContainerPersisted(g: Groups, activeId: string, overId: string, source: string, target: string)
    requires source != target
    requires ProductDropResolvable(g, activeId, overId, source, target)
    requires Partitioned(g)
    ensures var g' := ProductDrop(g, activeId, overId, source, target);
      var log := ProductDropWrites(g, activeId, overId, source, target);
      && DistinctTargets(log)
      && Persisted(log, ProductsTable, activeId, CategoryIdField) == Some(CategoryId(target))
      && (forall k :: 0 <= k < |g'[source]| ==>
            Persisted(log, ProductsTable, g'[source][k].id, DisplayOrderField) == Some(DisplayOrder(k)))
      && (forall k :: 0 <= k < |g'[target]| ==>
            Persisted(log, ProductsTable, g'[target][k].id, DisplayOrderField) == Some(DisplayOrder(k)))
  {
    var g' := ProductDrop(g, activeId, overId, source, target);
    var srcIds, dstIds := ProductIds(g'[source]), ProductIds(g'[target]);
    CrossContainerIds(g, activeId, overId, source, target);
    MoveBatchDistinct(ProductsTable, activeId, target, srcIds, dstIds);
    MoveBatchCategory(ProductsTable, activeId, target, srcIds, dstIds);
    forall k | 0 <= k < |srcIds| ensures Persisted(MoveBatch(ProductsTable, activeId, target, srcIds, dstIds),
                                                    ProductsTable, srcIds[k], DisplayOrderField) == Some(DisplayOrder(k)) {
      MoveBatchSourceOrder(ProductsTable, activeId, target, srcIds, dstIds, k);
    }
    forall k | 0 <= k < |dstIds| ensures Persisted(MoveBatch(ProductsTable, activeId, target, srcIds, dstIds),
                                                    ProductsTable, dstIds[k], DisplayOrderField) == Some(DisplayOrder(k)) {
      MoveBatchTargetOrder(ProductsTable, activeId, target, srcIds, dstIds, k);
    }
  }

  lemma {:induction false} UniqueIdsCountOnce(ps: seq<Product>, p: Product)
    requires Unique(ProductIds(ps))
    ensures multiset(ps)[p] <= 1
  {
    if ps != [] {
      ProductIdsTail(ps);
      assert ps == [ps[0]] + ps[1..];
      UniqueIdsCountOnce(ps[1..], p);
      if ps[0] == p {
        assert ps[0].id !in ProductIds(ps[1..]);
        assert p !in ps[1..];
      }
    }
  }

  /** A sub-collection of products with distinct ids has distinct ids. */
  lemma SubCollectionUnique(r: seq<Product>, ps: seq<Product>)
    requires forall p :: multiset(r)[p] <= multiset(ps)[p]
    requires Unique(ProductIds(ps))
    ensures Unique(ProductIds(r))
  {
    forall i, j | 0 <= i < j < |r| ensures r[i].id != r[j].id {
      if r[i] == r[j] {
        assert r == r[..j] + [r[j]] + r[j + 1..];
        assert r[i] in r[..j];
        assert multiset(r)[r[i]] >= 2;
        UniqueIdsCountOnce(ps, r[i]);
      } else {
        assert r[i] in multiset(r) && r[j] in multiset(r);
        assert r[i] in ps && r[j] in ps;
      }
    }
  }

  lemma GroupsShareNoId(ps: seq<Product>, cs: seq<Category>, c: string, d: string, x: string)
    requires Unique(ProductIds(ps))
    requires c in Group(ps, cs) && d in Group(ps, cs) && c != d
    requires x in ProductIds(Group(ps, cs)[c])
    ensures x !in ProductIds(Group(ps, cs)[d])
  {
    var g: Groups := Group(ps, cs);
    var i: int :| 0 <= i < |g[c]| && g[c][i].id == x;
    var p := g[c][i];
    GroupMembers(ps, cs, c, p);
    var a: int :| 0 <= a < |ps| && ps[a] == p;
    forall j: int | 0 <= j < |g[d]| ensures g[d][j].id != x {
      var q := g[d][j];
      GroupMembers(ps, cs, d, q);
      var b: int :| 0 <= b < |ps| && ps[b] == q;
      assert a != b;
      assert ProductIds(ps)[a] != ProductIds(ps)[b];
    }
  }

  /** Rebuilding the grouping from a product list with distinct ids lists every product id
      in at most one group. */
  lemma GroupPartitioned(ps: seq<Product>, cs: seq<Category>)
    requires Unique(ProductIds(ps))
    ensures Partitioned(Group(ps, cs))
  {
    var g: Groups := Group(ps, cs);
    GroupShape(ps, cs);
    forall c | c in g ensures Unique(ProductIds(g[c])) {
      SubCollectionUnique(g[c], ps);
    }
    forall c, d | c in g && d in g && c != d ensures DisjointIds(ProductIds(g[c]), ProductIds(g[d])) {
      forall x | x in ProductIds(g[c]) ensures x !in ProductIds(g[d]) {
        GroupsShareNoId(ps, cs, c, d, x);
      }
    }
  }
}
