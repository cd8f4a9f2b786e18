/** What one completed drag does to the ordered collections and which writes it issues
    (components/AdminDashboard.tsx, `handleCategoryDragEnd` at lines 251-270 and
    `handleProductDragEnd` at lines 272-324), as functions of the state before the drop. */
module Reorder {
  import opened Records
  import opened Sequences
  import opened ArrayMove
  import opened Store

  /** `productsByCategory`: category id to the ordered products shown in it. */
  type Groups = map<string, seq<Product>>

  /** The element a drag ends over: its id and, when it is a sortable item, the id of the
      sortable container it belongs to. */
  datatype DropTarget = DropTarget(id: string, sortableContainer: Option<string>)

  /** JavaScript truthiness of an optional string id: present and not empty. */
  predicate Present(o: Option<string>) {
    o.Some? && o.value != ""
  }

  /** `over.data.current?.sortable?.containerId || over.id`: a product's own list, or the
      category drop zone itself when the drag ends over the zone. */
  function OverContainer(over: DropTarget): (c: string)
    ensures Present(over.sortableContainer) ==> c == over.sortableContainer.value
    ensures !Present(over.sortableContainer) ==> c == over.id
  {
    if Present(over.sortableContainer) then over.sortableContainer.value else over.id
  }

  /** `productsByCategory[c] || []`. */
  function GroupAt(g: Groups, c: string): seq<Product> {
    if c in g then g[c] else []
  }

  // ----- Category reorder -----

  /** Line 253: a drop over some element other than the dragged one. */
  predicate CategoryDropAccepted(activeId: string, overId: Option<string>) {
    overId.Some? && activeId != overId.value
  }

  /** What the sortable list guarantees: both ids are ids of listed categories. */
  predicate CategoryDropResolvable(cs: seq<Category>, activeId: string, overId: Option<string>) {
    CategoryDropAccepted(activeId, overId) ==>
      activeId in CategoryIds(cs) && overId.value in CategoryIds(cs)
  }

  /** Lines 254-256: move the dragged category to the index of the one it was dropped on. */
  function ReorderCategories(cs: seq<Category>, activeId: string, overId: string): seq<Category>
    requires activeId in CategoryIds(cs) && overId in CategoryIds(cs)
  {
    Move(cs, FindIndex(CategoryIds(cs), activeId), FindIndex(CategoryIds(cs), overId))
  }

  lemma CategoryIdsOfMove(cs: seq<Category>, from: nat, to: nat)
    requires from < |cs| && to < |cs|
    ensures CategoryIds(Move(cs, from, to)) == Move(CategoryIds(cs), from, to)
  {
    var a, b := CategoryIds(Move(cs, from, to)), Move(CategoryIds(cs), from, to);
    forall i | 0 <= i < |cs| ensures a[i] == b[i] {
      MoveAt(cs, from, to, i);
      MoveAt(CategoryIds(cs), from, to, i);
    }
  }

  lemma MoveKeepsUnique<T>(s: seq<T>, from: nat, to: nat)
    requires from < |s| && to < |s|
    requires Unique(s)
    ensures Unique(Move(s, from, to))
  {
    forall i, j | 0 <= i < j < |s| ensures Move(s, from, to)[i] != Move(s, from, to)[j] {
      MoveAt(s, from, to, i);
      MoveAt(s, from, to, j);
    }
  }

  /** A category reorder is a permutation that puts the dragged category at the index of
      the one it was dropped on and keeps every other category in its relative order; ids
      stay distinct. */
  lemma CategoryReorderMoves(cs: seq<Category>, activeId: string, overId: string)
    requires activeId in CategoryIds(cs) && overId in CategoryIds(cs)
    requires Unique(CategoryIds(cs))
    ensures var r := ReorderCategories(cs, activeId, overId);
      var from, to := FindIndex(CategoryIds(cs), activeId), FindIndex(CategoryIds(cs), overId);
      && multiset(r) == multiset(cs)
      && r[to].id == activeId
      && RemoveAt(r, to) == RemoveAt(cs, from)
      && Unique(CategoryIds(r))
  {
    var from, to := FindIndex(CategoryIds(cs), activeId), FindIndex(CategoryIds(cs), overId);
    MovePermutes(cs, from, to);
    MoveKeepsOthersInOrder(cs, from, to);
    CategoryIdsOfMove(cs, from, to);
    MoveKeepsUnique(CategoryIds(cs), from, to);
  }

  /** After a successful category reorder batch, every category's stored display order is
      its index in the new list, and the batch never writes one record twice. */
  lemma CategoryOrderPersisted(cs: seq<Category>, activeId: string, overId: string, k: nat)
    requires activeId in CategoryIds(cs) && overId in CategoryIds(cs)
    requires Unique(CategoryIds(cs))
    requires k < |cs|
    ensures var r := ReorderCategories(cs, activeId, overId);
      var log := OrderWrites(CategoriesTable, CategoryIds(r));
      && DistinctTargets(log)
      && Persisted(log, CategoriesTable, r[k].id, DisplayOrderField) == Some(DisplayOrder(k))
  {
    var r := ReorderCategories(cs, activeId, overId);
    CategoryReorderMoves(cs, activeId, overId);
    OrderWritesDistinct(CategoriesTable, CategoryIds(r));
    OrderWritesPersist(CategoriesTable, CategoryIds(r), k);
  }

  // ----- Product reorder and cross-category move -----

  /** Lines 274 and 282: a drop over something, both containers known, not onto itself. */
  predicate ProductDropAccepted(activeId: string, over: Option<DropTarget>, activeContainer: Option<string>) {
    && over.Some?
    && Present(activeContainer)
    && OverContainer(over.value) != ""
    && activeId != over.value.id
  }

  /** What the sortable lists guarantee: the dragged product is in its own container's
      group and, within one container, the drop is over another product of that group. */
  predicate ProductDropResolvable(g: Groups, activeId: string, overId: string, source: string, target: string) {
    && activeId in ProductIds(GroupAt(g, source))
    && (source == target ==> overId in ProductIds(GroupAt(g, source)))
  }

  /** `sourceItems.filter(item => item.id !== activeId)`. */
  function WithoutId(ps: seq<Product>, id: string): (r: seq<Product>)
    ensures forall p :: multiset(r)[p] == if p.id == id then 0 else multiset(ps)[p]
    ensures id !in ProductIds(r)
  {
    if ps == [] then []
    else
      assert ps == [ps[0]] + ps[1..];
      if ps[0].id != id then [ps[0]] + WithoutId(ps[1..], id) else WithoutId(ps[1..], id)
  }

  /** Where the dragged product lands in another container: at the hovered product's index,
      or at the end when the drop was on the container zone itself (line 297). */
  function LandingIndex(overIndex: int, dst: seq<Product>): (i: nat)
    requires overIndex < |dst|
    ensures i <= |dst|
    ensures overIndex >= 0 ==> i == overIndex
    ensures overIndex < 0 ==> i == |dst|
  {
    if overIndex >= 0 then overIndex else |dst|
  }

  /** Where the dragged product ends up in the destination: just ahead of the hovered
      product, or appended after the last product when no product was hovered. */
  lemma LandingPlacement(dst: seq<Product>, overIndex: int, x: Product)
    requires -1 <= overIndex < |dst|
    ensures var r := InsertAt(dst, LandingIndex(overIndex, dst), x);
      && (overIndex >= 0 ==> r[overIndex] == x && r[overIndex + 1] == dst[overIndex])
      && (overIndex < 0 ==> r == dst + [x])
  {
    if overIndex < 0 {
      assert dst[..|dst|] == dst && dst[|dst|..] == [];
    }
  }

  /** Lines 286-299: the new `productsByCategory` after a resolved drop. */
  function ProductDrop(g: Groups, activeId: string, overId: string, source: string, target: string): Groups
    requires ProductDropResolvable(g, activeId, overId, source, target)
  {
    var src, dst := GroupAt(g, source), GroupAt(g, target);
    var activeIndex := FindIndex(ProductIds(src), activeId);
    var overIndex := FindIndex(ProductIds(dst), overId);
    if source == target then g[source := Move(src, activeIndex, overIndex)]
    else g[source := WithoutId(src, activeId)][target := InsertAt(dst, LandingIndex(overIndex, dst), src[activeIndex])]
  }

  /** Lines 304-317: the batch issued for a resolved drop. */
  function ProductDropWrites(g: Groups, activeId: string, overId: string, source: string, target: string): seq<Write>
    requires ProductDropResolvable(g, activeId, overId, source, target)
  {
    var g' := ProductDrop(g, activeId, overId, source, target);
    if source == target then OrderWrites(ProductsTable, ProductIds(g'[source]))
    else MoveBatch(ProductsTable, activeId, target, ProductIds(g'[source]), ProductIds(g'[target]))
  }

  lemma ProductIdsTail(ps: seq<Product>)
    requires ps != []
    ensures ProductIds(ps[1..]) == ProductIds(ps)[1..]
  {
  }

  /** With distinct ids, filtering the dragged product out is removing it at its index. */
  lemma {:induction false} WithoutIdRemovesAt(ps: seq<Product>, i: nat)
    requires i < |ps|
    requires Unique(ProductIds(ps))
    ensures WithoutId(ps, ps[i].id) == RemoveAt(ps, i)
  {
    ProductIdsTail(ps);
    if i == 0 {
      WithoutIdAbsent(ps[1..], ps[0].id);
    } else {
      WithoutIdSkips(ps, ps[i].id);
      WithoutIdRemovesAt(ps[1..], i - 1);
      RemoveAtTail(ps, i);
    }
  }

  lemma WithoutIdSkips(ps: seq<Product>, id: string)
    requires ps != [] && ps[0].id != id
    ensures WithoutId(ps, id) == [ps[0]] + WithoutId(ps[1..], id)
  {
  }

  lemma {:induction false} WithoutIdAbsent(ps: seq<Product>, id: string)
    requires id !in ProductIds(ps)
    ensures WithoutId(ps, id) == ps
  {
    if ps != [] {
      ProductIdsTail(ps);
      assert ps[0].id == ProductIds(ps)[0];
      WithoutIdAbsent(ps[1..], id);
      assert ps == [ps[0]] + ps[1..];
    }
  }

  /** A drop within one container reorders only that container's group with `arrayMove`,
      leaves every other group as it was, and writes `display_order = index` for exactly
      the products of that group. */
  lemma SameContainerDrop(g: Groups, activeId: string, overId: string, c: string)
    requires ProductDropResolvable(g, activeId, overId, c, c)
    ensures var g' := ProductDrop(g, activeId, overId, c, c);
      var src := GroupAt(g, c);
      var from, to := FindIndex(ProductIds(src), activeId), FindIndex(ProductIds(src), overId);
      && g'.Keys == g.Keys + {c}
      && (forall d :: d in g && d != c ==> g'[d] == g[d])
      && g'[c] == Move(src, from, to)
      && multiset(g'[c]) == multiset(src)
      && g'[c][to].id == activeId
      && RemoveAt(g'[c], to) == RemoveAt(src, from)
      && ProductDropWrites(g, activeId, overId, c, c) == OrderWrites(ProductsTable, ProductIds(g'[c]))
  {
    var src := GroupAt(g, c);
    var from, to := FindIndex(ProductIds(src), activeId), FindIndex(ProductIds(src), overId);
    MovePermutes(src, from, to);
    MoveKeepsOthersInOrder(src, from, to);
  }

  lemma CrossContainerShape(g: Groups, activeId: string, overId: string, source: string, target: string)
    requires source != target
    requires ProductDropResolvable(g, activeId, overId, source, target)
    ensures var g' := ProductDrop(g, activeId, overId, source, target);
      var src, dst := GroupAt(g, source), GroupAt(g, target);
      var from := FindIndex(ProductIds(src), activeId);
      && g'.Keys == g.Keys + {source, target}
      && (forall d :: d in g && d != source && d != target ==> g'[d] == g[d])
      && g'[source] == WithoutId(src, activeId)
      && g'[target] == InsertAt(dst, LandingIndex(FindIndex(ProductIds(dst), overId), dst), src[from])
  {
    var src, dst := GroupAt(g, source), GroupAt(g, target);
    var from := FindIndex(ProductIds(src), activeId);
    var landed := InsertAt(dst, LandingIndex(FindIndex(ProductIds(dst), overId), dst), src[from]);
    var g' := g[source := WithoutId(src, activeId)][target := landed];
    assert ProductDrop(g, activeId, overId, source, target) == g';
    assert g'.Keys == g.Keys + {source, target};
  }

  lemma MoveAcrossConserves(src: seq<Product>, dst: seq<Product>, from: nat, at: nat)
    requires from < |src| && at <= |dst|
    requires Unique(ProductIds(src))
    ensures multiset(WithoutId(src, src[from].id)) + multiset(InsertAt(dst, at, src[from])) == multiset(src) + multiset(dst)
  {
    WithoutIdRemovesAt(src, from);
    RemoveAtMultiset(src, from);
    InsertAtMultiset(dst, at, src[from]);
  }

  /** A drop into another container: the source group loses exactly the dragged product,
      the destination gains it at the hovered product's index (or at the end), all other
      groups stay as they were, and no product is lost or duplicated. */
  lemma CrossContainerDrop(g: Groups, activeId: string, overId: string, source: string, target: string)
    requires source != target
    requires ProductDropResolvable(g, activeId, overId, source, target)
    requires Unique(ProductIds(GroupAt(g, source)))
    ensures var g' := ProductDrop(g, activeId, overId, source, target);
      var src, dst := GroupAt(g, source), GroupAt(g, target);
      var from := FindIndex(ProductIds(src), activeId);
      var at := LandingIndex(FindIndex(ProductIds(dst), overId), dst);
      && g'.Keys == g.Keys + {source, target}
      && (forall d :: d in g && d != source && d != target ==> g'[d] == g[d])
      && g'[source] == RemoveAt(src, from)
      && |g'[target]| == |dst| + 1
      && g'[target][at].id == activeId
      && RemoveAt(g'[target], at) == dst
      && multiset(g'[source]) + multiset(g'[target]) == multiset(src) + multiset(dst)
  {
    var src, dst := GroupAt(g, source), GroupAt(g, target);
    var from := FindIndex(ProductIds(src), activeId);
    var at := LandingIndex(FindIndex(ProductIds(dst), overId), dst);
    CrossContainerShape(g, activeId, overId, source, target);
    WithoutIdRemovesAt(src, from);
    RemoveInserted(dst, at, src[from]);
    MoveAcrossConserves(src, dst, from, at);
  }
}
