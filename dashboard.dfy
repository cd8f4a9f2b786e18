/** The admin dashboard's ordering state and its handlers (components/AdminDashboard.tsx):
    the state hooks at lines 146-154, `refreshPreview` (162), the grouping effect (224-232),
    `handleStatusChange` (234-249), `handleCategoryDragEnd` (251-270) and
    `handleProductDragEnd` (272-324). The remote store is the append-only log `writes`;
    `fetchData` is counted in `refetches` and its result delivered by `FetchCompleted`. */
module Dashboard {
  import opened Records
  import opened Sequences
  import opened ArrayMove
  import opened Grouping
  import opened Store
  import opened Reorder
  import opened Consistency

  /** The two kinds of record a status switch can belong to. */
  datatype Kind = ProductKind | CategoryKind

  /** How one awaited `supabase...update(...)` call came back: with no error, with an
      `{error}` value, or by throwing. */
  datatype WriteOutcome = Written | ReturnedError | Threw

  function TableOf(kind: Kind): (t: Table)
    ensures kind == ProductKind <==> t == ProductsTable
  {
    if kind == ProductKind then ProductsTable else CategoriesTable
  }

  /** `prev.map(p => p.id === id ? { ...p, is_available: available } : p)` on products. */
  function SetProductAvailability(ps: seq<Product>, id: string, available: bool): (r: seq<Product>)
    ensures ProductIds(r) == ProductIds(ps)
    ensures forall i :: 0 <= i < |ps| ==> r[i].(isAvailable := ps[i].isAvailable) == ps[i]
    ensures forall i :: 0 <= i < |ps| ==> r[i].isAvailable == (if ps[i].id == id then available else ps[i].isAvailable)
  {
    seq(|ps|, i requires 0 <= i < |ps| => if ps[i].id == id then ps[i].(isAvailable := available) else ps[i])
  }

  /** The same map on categories. */
  function SetCategoryAvailability(cs: seq<Category>, id: string, available: bool): (r: seq<Category>)
    ensures CategoryIds(r) == CategoryIds(cs)
    ensures forall i :: 0 <= i < |cs| ==> r[i].(isAvailable := cs[i].isAvailable) == cs[i]
    ensures forall i :: 0 <= i < |cs| ==> r[i].isAvailable == (if cs[i].id == id then available else cs[i].isAvailable)
  {
    seq(|cs|, i requires 0 <= i < |cs| => if cs[i].id == id then cs[i].(isAvailable := available) else cs[i])
  }

  /** Builds the `display_order = index` updates for a list, one per element, as the
      `map` at lines 259-261 and the `forEach`/`push` loops at lines 306-316 do. */
  method OrderUpdates(t: Table, ids: seq<string>) returns (updates: seq<Write>)
    ensures updates == OrderWrites(t, ids)
  {
    updates := [];
    var i := 0;
    while i < |ids|
      invariant 0 <= i <= |ids|
      invariant |updates| == i
      invariant forall k :: 0 <= k < i ==> updates[k] == Write(t, ids[k], DisplayOrder(k))
    {
      updates := updates + [Write(t, ids[i], DisplayOrder(i))];
      i := i + 1;
    }
  }

  class AdminDashboard {
    var categories: seq<Category>
    var products: seq<Product>
    var productsByCategory: Groups
    var previewKey: int
    /** Every update sent to the store, in the order the handlers issued them. */
    var writes: seq<Write>
    /** How many times a failure made the dashboard call `fetchData`. */
    var refetches: nat

    /** Record ids are primary keys, and no product is shown in two places. */
    ghost predicate Valid()
      reads this
    {
      && Unique(CategoryIds(categories))
      && Unique(ProductIds(products))
      && Partitioned(productsByCategory)
    }

    /** The hooks' initial values: empty lists, an empty grouping, `previewKey = Date.now()`. */
    constructor (now: int)
      ensures Valid()
      ensures categories == [] && products == [] && productsByCategory == map[]
      ensures previewKey == now && writes == [] && refetches == 0
    {
      categories, products, productsByCategory := [], [], map[];
      previewKey, writes, refetches := now, [], 0;
    }

    /** `setPreviewKey(Date.now())`: the `key` query parameter of the preview iframe's `src`
        (line 422) changes, so the frame reloads. */
    method RefreshPreview(now: int)
      modifies this`previewKey
      ensures previewKey == now
    {
      previewKey := now;
    }

    /** The effect that runs whenever `products` or `categories` is replaced: the grouping
        is rebuilt from the flat lists, discarding whatever order it held. */
    method RebuildGrouping()
      requires Unique(CategoryIds(categories)) && Unique(ProductIds(products))
      modifies this`productsByCategory
      ensures Valid()
      ensures productsByCategory == Group(products, categories)
    {
      var g := Group(products, categories);
      GroupPartitioned(products, categories);
      productsByCategory := g;
    }

    /** The end of a successful `fetchData` (lines 201-202): both lists replaced by the
        store's current records, then the grouping rebuilt from them. */
    method FetchCompleted(ps: seq<Product>, cs: seq<Category>)
      requires Unique(ProductIds(ps)) && Unique(CategoryIds(cs))
      modifies this
      ensures Valid()
      ensures products == ps && categories == cs && productsByCategory == Group(ps, cs)
      ensures unchanged(this`previewKey, this`writes, this`refetches)
    {
      products := ps;
      categories := cs;
      RebuildGrouping();
    }

    /** How a drag handler settles its batch: `Promise.all` resolving (whatever `{error}`
        values individual calls returned) refreshes the preview; a thrown exception is
        caught and triggers `fetchData`. */
    method SettleBatch(rejected: bool, now: int)
      modifies this`previewKey, this`refetches
      ensures !rejected ==> previewKey == now && unchanged(this`refetches)
      ensures rejected ==> unchanged(this`previewKey) && refetches == old(refetches) + 1
    {
      if rejected {
        refetches := refetches + 1;
      } else {
        RefreshPreview(now);
      }
    }

    /** The local update after a status write came back without error (lines 242-246):
        the matching records' `is_available` is set, then the effect rebuilds the grouping. */
    method ApplyAvailability(kind: Kind, id: string, newStatus: bool)
      requires Valid()
      modifies this`products, this`categories, this`productsByCategory
      ensures Valid()
      ensures kind == ProductKind ==>
        products == SetProductAvailability(old(products), id, newStatus) && unchanged(this`categories)
      ensures kind == CategoryKind ==>
        categories == SetCategoryAvailability(old(categories), id, newStatus) && unchanged(this`products)
      ensures productsByCategory == Group(products, categories)
    {
      if kind == ProductKind {
        products := SetProductAvailability(products, id, newStatus);
      } else {
        categories := SetCategoryAvailability(categories, id, newStatus);
      }
      RebuildGrouping();
    }

    /** `handleStatusChange`: one `is_available` write; local state changes only when the
        write came back without error, and then only the matching records' flag. A thrown
        exception is not caught and leaves everything else as it was. */
    method StatusChange(kind: Kind, id: string, newStatus: bool, outcome: WriteOutcome, now: int)
      requires Valid()
      modifies this
      ensures Valid()
      ensures writes == old(writes) + [Write(TableOf(kind), id, Availability(newStatus))]
      ensures outcome == Written ==>
        && (kind == ProductKind ==>
              products == SetProductAvailability(old(products), id, newStatus) && unchanged(this`categories))
        && (kind == CategoryKind ==>
              categories == SetCategoryAvailability(old(categories), id, newStatus) && unchanged(this`products))
        && productsByCategory == Group(products, categories)
        && previewKey == now && unchanged(this`refetches)
      ensures outcome == ReturnedError ==>
        && unchanged(this`products, this`categories, this`productsByCategory, this`previewKey)
        && refetches == old(refetches) + 1
      ensures outcome == Threw ==>
        unchanged(this`products, this`categories, this`productsByCategory, this`previewKey, this`refetches)
    {
      writes := writes + [Write(TableOf(kind), id, Availability(newStatus))];
      if outcome == ReturnedError {
        refetches := refetches + 1;
      } else if outcome == Written {
        ApplyAvailability(kind, id, newStatus);
        RefreshPreview(now);
      }
    }

    /** Sending a batch of updates and settling it: the updates join the log in order,
        then the batch's outcome decides between a preview refresh and a refetch. */
    method CommitBatch(updates: seq<Write>, rejected: bool, now: int)
      modifies this`writes, this`previewKey, this`refetches
      ensures writes == old(writes) + updates
      ensures !rejected ==> previewKey == now && unchanged(this`refetches)
      ensures rejected ==> unchanged(this`previewKey) && refetches == old(refetches) + 1
    {
      writes := writes + updates;
      SettleBatch(rejected, now);
    }

    /** Lines 254-257 and the effect they trigger: the dragged category moves to the index
        of the one it was dropped on, and the grouping is rebuilt from the flat lists. */
    method MoveCategory(activeId: string, overId: string)
      requires Valid()
      requires activeId in CategoryIds(categories) && overId in CategoryIds(categories)
      modifies this`categories, this`productsByCategory
      ensures Valid()
      ensures categories == ReorderCategories(old(categories), activeId, overId)
      ensures productsByCategory == Group(products, categories)
    {
      var oldIndex := FindIndex(CategoryIds(categories), activeId);
      var newIndex := FindIndex(CategoryIds(categories), overId);
      var newOrderedCategories := Move(categories, oldIndex, newIndex);
      CategoryReorderMoves(categories, activeId, overId);
      categories := newOrderedCategories;
      RebuildGrouping();
    }

    /** `handleCategoryDragEnd`: a drop over another category moves the dragged one to
        that category's index, rebuilds the grouping from the flat lists, and sends one
        `display_order = index` write per category. */
    method CategoryDragEnd(activeId: string, overId: Option<string>, rejected: bool, now: int)
      requires Valid()
      requires CategoryDropResolvable(categories, activeId, overId)
      modifies this
      ensures Valid()
      ensures !CategoryDropAccepted(activeId, overId) ==> unchanged(this)
      ensures CategoryDropAccepted(activeId, overId) ==>
        && categories == ReorderCategories(old(categories), activeId, overId.value)
        && unchanged(this`products)
        && productsByCategory == Group(products, categories)
        && writes == old(writes) + OrderWrites(CategoriesTable, CategoryIds(categories))
        && (!rejected ==> previewKey == now && unchanged(this`refetches))
        && (rejected ==> unchanged(this`previewKey) && refetches == old(refetches) + 1)
    {
      if overId.Some? && activeId != overId.value {
        MoveCategory(activeId, overId.value);
        var updates := OrderUpdates(CategoriesTable, CategoryIds(categories));
        CommitBatch(updates, rejected, now);
      }
    }

    /** Lines 286-301: the shallow copy of `productsByCategory` gets the rearranged source
        and destination lists and replaces the state. The flat `products` list, and the
        records' own `display_order` and `category_id`, are left as they were. */
    method RearrangeGroups(activeId: string, overId: string, source: string, target: string)
      requires Valid()
      requires ProductDropResolvable(productsByCategory, activeId, overId, source, target)
      modifies this`productsByCategory
      ensures Valid()
      ensures productsByCategory == ProductDrop(old(productsByCategory), activeId, overId, source, target)
    {
      var newGroups := productsByCategory;
      var sourceItems := GroupAt(newGroups, source);
      var destinationItems := GroupAt(newGroups, target);
      var activeIndex := FindIndex(ProductIds(sourceItems), activeId);
      var overIndex := FindIndex(ProductIds(destinationItems), overId);
      var draggedItem := sourceItems[activeIndex];
      if source == target {
        newGroups := newGroups[source := Move(sourceItems, activeIndex, overIndex)];
      } else {
        newGroups := newGroups[source := WithoutId(sourceItems, activeId)];
        destinationItems := InsertAt(destinationItems, if overIndex >= 0 then overIndex else |destinationItems|, draggedItem);
        newGroups := newGroups[target := destinationItems];
      }
      ProductDropKeepsPartition(productsByCategory, activeId, overId, source, target);
      productsByCategory := newGroups;
    }

    /** `handleProductDragEnd`: a resolved drop rearranges `productsByCategory` only and
        sends the category change and the order rewrites of the affected groups. */
    method ProductDragEnd(activeId: string, over: Option<DropTarget>, activeContainer: Option<string>, rejected: bool, now: int)
      requires Valid()
      requires ProductDropAccepted(activeId, over, activeContainer) ==>
        ProductDropResolvable(productsByCategory, activeId, over.value.id, activeContainer.value, OverContainer(over.value))
      modifies this
      ensures Valid()
      ensures !ProductDropAccepted(activeId, over, activeContainer) ==> unchanged(this)
      ensures ProductDropAccepted(activeId, over, activeContainer) ==>
        var source, target := activeContainer.value, OverContainer(over.value);
        && productsByCategory == ProductDrop(old(productsByCategory), activeId, over.value.id, source, target)
        && writes == old(writes) + ProductDropWrites(old(productsByCategory), activeId, over.value.id, source, target)
        && unchanged(this`products, this`categories)
        && (!rejected ==> previewKey == now && unchanged(this`refetches))
        && (rejected ==> unchanged(this`previewKey) && refetches == old(refetches) + 1)
    {
      if over.None? {
        return;
      }
      var overId := over.value.id;
      if !Present(activeContainer) || OverContainer(over.value) == "" || activeId == overId {
        return;
      }
      var source, target := activeContainer.value, OverContainer(over.value);
      RearrangeGroups(activeId, overId, source, target);

      var updates: seq<Write>;
      if source == target {
        updates := OrderUpdates(ProductsTable, ProductIds(productsByCategory[source]));
      } else {
        var sourceUpdates := OrderUpdates(ProductsTable, ProductIds(productsByCategory[source]));
        var destinationUpdates := OrderUpdates(ProductsTable, ProductIds(productsByCategory[target]));
        updates := [Write(ProductsTable, activeId, CategoryId(target))] + sourceUpdates + destinationUpdates;
      }
      CommitBatch(updates, rejected, now);
    }
  }
}
