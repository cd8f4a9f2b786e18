# Menu admin dashboard: ordering, grouping and availability

This project models the part of the restaurant-menu admin dashboard
(`components/AdminDashboard.tsx`) that keeps menu categories and products in order.
It covers these parts:

- **Category reorder.** Dragging one category over another moves it to that category's
  index with dnd-kit's `arrayMove`. The dashboard replaces the category list and sends
  one `display_order = index` update per category.
- **Product reorder and cross-category move.** A drop inside one category's list reorders
  that group with `arrayMove`. A drop into another category works in three steps:
  - the product is filtered out of its source group;
  - it is spliced into the destination group at the hovered product's index, or at the
    end when it was dropped on the category's drop zone;
  - the dashboard sends a `category_id` update for the product and `display_order = index`
    updates for every product of both groups.
- **The grouping effect.** Whenever the flat `products` or `categories` list is replaced,
  `productsByCategory` is rebuilt. Each category id maps to the products with that
  `category_id`, sorted ascending and stably by `display_order`.
- **Availability switch.** One `is_available` update is sent. When it comes back without
  an error, the matching record's flag is set locally and the preview is refreshed. When
  it returns an error, the data are fetched again.
- **Preview refresh.** The `key` query parameter of the preview iframe's `src` is set to
  the current time, which reloads the frame.

The remote store (Supabase) is modelled as an append-only log of updates, `writes`.
`Persisted` reads the value a log leaves for one field of one record. A refetch is
counted in `refetches`. When a fetch completes, `FetchCompleted` delivers its result.
`Date.now()` becomes a parameter `now`. How a batch of updates ends is a parameter:
`rejected` for the drag handlers, and a `WriteOutcome` for the switch.

The model keeps these behaviours of the code exactly as written:

- A drag never changes the `display_order` field of the records held in memory.
- A cross-category move does not change the moved product's `category_id` in memory.
- A product drag changes only `productsByCategory`, never the flat `products` list.
  The next rebuild of the grouping (after a successful switch, say) therefore restores
  the pre-drag grouping from the stale list. `Scenarios.StaleRebuildScenario` shows
  this on a concrete drag.
- The supabase client reports a failed update as a returned `{error}` value, not as an
  exception. So the drag handlers' `catch` branch (refetch instead of preview refresh)
  runs only when a call throws. A batch whose updates returned errors still refreshes the
  preview.
- The switch's comment calls its local update "optimistic". In the code it happens only
  after the update has come back without an error, and the model follows the code. A
  thrown exception in the switch is not caught, so the handler stops with nothing
  changed locally.

Modules:

- `Records`: the record shapes.
- `Sequences`: `findIndex`, removal and insertion.
- `ArrayMove`: `arrayMove`.
- `Grouping`: the rebuild effect.
- `Store`: the update log.
- `Reorder`: the drops as functions of the state before them.
- `Consistency`: that no product id sits in two groups, and what the batches leave
  stored.
- `Dashboard`: the component's state and handlers as a class.
- `Scenarios`: concrete drags.

## Model

| member | source | states |
|---|---|---|
| Sequences.FindIndex | components/AdminDashboard.tsx:254-255 | `findIndex` is -1 exactly when the id is absent; otherwise it is the first index holding the id |
| Sequences.RemoveAt | components/AdminDashboard.tsx:296 | removal at `i` shortens the list by one; elements before `i` stay, later ones shift down by one |
| Sequences.InsertAt | components/AdminDashboard.tsx:297 | `splice(i, 0, x)` lengthens the list by one and puts `x` at `i`; earlier elements stay, later ones shift up by one |
| Sequences.RemoveInserted | components/AdminDashboard.tsx:297 | removing what was just inserted at `i` gives the original list back |
| Sequences.InsertRemoved | components/AdminDashboard.tsx:296-297 | re-inserting the removed element at its index gives the original list back |
| Sequences.RemoveAtMultiset | components/AdminDashboard.tsx:296 | removal loses exactly the removed element |
| Sequences.InsertAtMultiset | components/AdminDashboard.tsx:297 | insertion adds exactly the inserted element |
| Sequences.UniqueRemoveAt | components/AdminDashboard.tsx:296 | removal keeps ids distinct; the remaining members are exactly the old ones except the removed one |
| Sequences.UniqueInsertAt | components/AdminDashboard.tsx:297 | inserting a new id keeps ids distinct; the members are exactly the old ones plus the new one |
| ArrayMove.Move | components/AdminDashboard.tsx:24 | `arrayMove(s, from, to)` keeps the length, and the element taken from `from` ends at `to` |
| ArrayMove.MoveAt | components/AdminDashboard.tsx:24 | position by position, the move agrees with the reference description `SourceIndex`: elements between the two indices shift one place towards `from`, and the rest stay |
| ArrayMove.MovePermutes | components/AdminDashboard.tsx:24 | the move is a permutation |
| ArrayMove.MoveKeepsOthersInOrder | components/AdminDashboard.tsx:24 | taking the moved element out of the result gives the input without it, so all other elements keep their relative order |
| ArrayMove.MoveToSameIndex | components/AdminDashboard.tsx:24 | moving an element onto its own index changes nothing |
| ArrayMove.MoveBack | components/AdminDashboard.tsx:24 | moving back from `to` to `from` undoes the move |
| Grouping.InCategory | components/AdminDashboard.tsx:227 | the filter keeps every product with that `category_id`, as often as it occurs, and drops all others |
| Grouping.InCategorySingle | components/AdminDashboard.tsx:227 | on a one-product list the filter returns the product exactly when its `category_id` matches, and nothing otherwise |
| Grouping.InCategoryAppend | components/AdminDashboard.tsx:227 | filtering a concatenation concatenates the filtered parts; with `InCategorySingle` this makes the filter's output the matching products in the flat list's order |
| Grouping.InsertByOrder | components/AdminDashboard.tsx:228 | inserting into a sorted list keeps it sorted and adds exactly the new product |
| Grouping.SortByOrder | components/AdminDashboard.tsx:228 | the sort's result is ascending by `display_order` and is a permutation of its input |
| Grouping.WithOrderInsert | components/AdminDashboard.tsx:228 | an insertion step puts the new product ahead of every product with the same order |
| Grouping.SortIsStable | components/AdminDashboard.tsx:228 | the sort is stable: products with equal `display_order` keep their input order |
| Grouping.GroupOfCategory | components/AdminDashboard.tsx:226-228 | a category's group is sorted and holds exactly the products with that `category_id` |
| Grouping.InCategoryKeepsOrder | components/AdminDashboard.tsx:227 | taking the products of one display order commutes with taking those of one category, so the filter hands the sort each tie group in the order `InCategoryAppend` fixes |
| Grouping.GroupTiesInListOrder | components/AdminDashboard.tsx:226-228 | within a group, the products with one `display_order` are the filter applied to the flat list's products of that order, so by `InCategoryAppend` they keep their flat-list order, as the stable sort leaves them |
| Grouping.Group | components/AdminDashboard.tsx:225-230 | the `reduce` building `productsByCategory`; its properties are stated by `GroupShape`, `GroupMembers`, `UngroupedProducts` and `GroupPartitioned` |
| Grouping.GroupShape | components/AdminDashboard.tsx:224-231 | the rebuilt grouping has one key per listed category id, and each key holds that category's sorted products |
| Grouping.GroupMembers | components/AdminDashboard.tsx:224-231 | a product is in a category's group exactly when it is in the flat list with that `category_id`; each group is sorted |
| Grouping.UngroupedProducts | components/AdminDashboard.tsx:224-231 | a product whose `category_id` is null, or names no listed category, is in no group |
| Store.Persisted | components/AdminDashboard.tsx:259-261 | a stored value comes from a write to that same field of that same record |
| Store.DistinctLastWins | components/AdminDashboard.tsx:318 | in a batch that writes no field of a record twice, every write is the value its field ends up holding, wherever it sits in the batch, so the landing order of the concurrent writes does not matter |
| Store.OrderIrrelevant | components/AdminDashboard.tsx:318 | two batches holding the same writes, each writing no field of a record twice, leave the store holding the same values whichever order the writes land in |
| Store.DistinctAppend | components/AdminDashboard.tsx:304-317 | two batches without duplicate targets and without shared targets concatenate into a batch without duplicate targets |
| Store.OrderWritesDense | components/AdminDashboard.tsx:259-261 | an order batch has one update per listed record with `display_order = index`; the written values are exactly 0..n-1, each once |
| Store.PersistedAppend | components/AdminDashboard.tsx:318 | after two batches, a field holds the second batch's value if it wrote one, else the first's |
| Store.PersistedNotWritten | components/AdminDashboard.tsx:318 | a field no write touches holds nothing from the log |
| Store.OrderWritesPersist | components/AdminDashboard.tsx:259-261 | after an order batch over distinct ids, every listed record's stored `display_order` is its index |
| Store.OrderWritesUntouched | components/AdminDashboard.tsx:306-308 | an order batch stores nothing for records it does not list, or for fields other than `display_order` |
| Store.OrderWritesDistinct | components/AdminDashboard.tsx:259-261 | an order batch over distinct ids writes no record twice |
| Store.OrderWrites | components/AdminDashboard.tsx:259-261 | the `display_order = index` batch; `OrderWritesDense`, `OrderWritesPersist`, `OrderWritesUntouched` and `OrderWritesDistinct` state what it writes and leaves stored |
| Store.MoveBatch | components/AdminDashboard.tsx:310-316 | the cross-category batch; `MoveBatchDistinct`, `MoveBatchCategory`, `MoveBatchSourceOrder` and `MoveBatchTargetOrder` state what it leaves stored |
| Store.MoveBatchDistinct | components/AdminDashboard.tsx:309-316 | a cross-category batch over distinct, disjoint groups writes no field of any record twice |
| Store.MoveBatchCategory | components/AdminDashboard.tsx:310 | after a cross-category batch, the moved product's stored `category_id` is the destination |
| Store.MoveBatchSourceOrder | components/AdminDashboard.tsx:311-313 | after a cross-category batch, each product of the source group stores its index in that group |
| Store.MoveBatchTargetOrder | components/AdminDashboard.tsx:314-316 | after a cross-category batch, each product of the destination group stores its index in that group |
| Reorder.CategoryIdsOfMove | components/AdminDashboard.tsx:256 | moving categories moves their ids in the same way |
| Reorder.MoveKeepsUnique | components/AdminDashboard.tsx:256 | a move keeps distinct elements distinct |
| Reorder.CategoryDropAccepted | components/AdminDashboard.tsx:253 | a category drop is acted on only with a drop target other than the dragged category; `AdminDashboard.CategoryDragEnd` proves every other drop changes nothing |
| Reorder.ReorderCategories | components/AdminDashboard.tsx:254-256 | the reordered category list; `CategoryReorderMoves` and `CategoryOrderPersisted` state its properties |
| Reorder.CategoryReorderMoves | components/AdminDashboard.tsx:254-257 | a category reorder is a permutation, puts the dragged category at the drop target's index, keeps all others in relative order, and keeps ids distinct |
| Reorder.CategoryOrderPersisted | components/AdminDashboard.tsx:259-261 | after the reorder batch, every category's stored `display_order` is its index in the new list, and no category is written twice |
| Reorder.WithoutId | components/AdminDashboard.tsx:296 | the filter drops every product with the dragged id and keeps all others |
| Reorder.LandingPlacement | components/AdminDashboard.tsx:297 | the dragged product lands just ahead of the hovered product, or is appended after the last product when no product was hovered |
| Reorder.ProductDropAccepted | components/AdminDashboard.tsx:274-284 | a product drop is acted on only with a target, a truthy source container, a truthy target container (line 280) and a target other than the dragged product; `AdminDashboard.ProductDragEnd` proves every other drop changes nothing |
| Reorder.ProductDrop | components/AdminDashboard.tsx:286-299 | the new `productsByCategory`; `SameContainerDrop`, `CrossContainerDrop` and `ProductDropKeepsPartition` state its properties |
| Reorder.ProductDropWrites | components/AdminDashboard.tsx:304-317 | the batch of a drop; `SameContainerPersisted` and `CrossContainerPersisted` state what it leaves stored |
| Reorder.WithoutIdRemovesAt | components/AdminDashboard.tsx:296 | with distinct ids, filtering out the dragged product removes it at its index |
| Reorder.WithoutIdAbsent | components/AdminDashboard.tsx:296 | filtering out an absent id changes nothing |
| Reorder.SameContainerDrop | components/AdminDashboard.tsx:286-294 | a same-container drop replaces only that group, with `arrayMove` of it. The result is a permutation with the dragged product at the hovered index and the others in relative order. The batch rewrites only that group's orders |
| Reorder.CrossContainerShape | components/AdminDashboard.tsx:286-298 | a cross-container drop replaces exactly the source and destination groups, with the filtered source and the spliced destination |
| Reorder.MoveAcrossConserves | components/AdminDashboard.tsx:296-297 | together the two new groups hold exactly the products the two old groups held |
| Reorder.CrossContainerDrop | components/AdminDashboard.tsx:286-298 | a cross-container drop: the source loses exactly the dragged product; the destination grows by one, holds the product at the landing index and keeps its old products in order; other groups are unchanged; no product is lost or duplicated |
| Consistency.IdsOfRemoveAt | components/AdminDashboard.tsx:296 | removing a product removes its id at the same index |
| Consistency.IdsOfInsertAt | components/AdminDashboard.tsx:297 | inserting a product inserts its id at the same index |
| Consistency.IdsOfMove | components/AdminDashboard.tsx:294 | moving products moves their ids in the same way |
| Consistency.MoveMembers | components/AdminDashboard.tsx:294 | a move keeps the same members |
| Consistency.CrossContainerIds | components/AdminDashboard.tsx:296-298 | after a cross move, both groups have distinct ids. The source holds its old ids except the dragged one, and the destination holds its old ids plus the dragged one |
| Consistency.ProductDropKeepsPartition | components/AdminDashboard.tsx:286-301 | every drop keeps each product id in at most one group and at most once in it |
| Consistency.SameContainerKeepsPartition | components/AdminDashboard.tsx:293-294 | a same-container drop keeps each product id in at most one group and at most once in it |
| Consistency.CrossContainerKeepsPartition | components/AdminDashboard.tsx:295-299 | a cross-container drop keeps each product id in at most one group and at most once in it |
| Consistency.SameContainerPersisted | components/AdminDashboard.tsx:305-308 | after a same-container batch, every product of the group stores its new index, and no record is written twice |
| Consistency.CrossContainerPersisted | components/AdminDashboard.tsx:309-316 | after a cross-container batch, the dragged product's stored category is the destination. Every product of both groups stores its new index, and no field of a record is written twice |
| Consistency.SubCollectionUnique | components/AdminDashboard.tsx:227 | a sub-collection of a list with distinct ids has distinct ids |
| Consistency.GroupsShareNoId | components/AdminDashboard.tsx:224-231 | two groups of a rebuilt grouping share no product id |
| Consistency.GroupPartitioned | components/AdminDashboard.tsx:224-231 | a rebuilt grouping lists every product id in at most one group, at most once |
| Dashboard.SetProductAvailability | components/AdminDashboard.tsx:243 | only the matching products' `is_available` changes, to the new value; ids and all other fields stay |
| Dashboard.SetCategoryAvailability | components/AdminDashboard.tsx:245 | only the matching categories' `is_available` changes, to the new value; ids and all other fields stay |
| Dashboard.OrderUpdates | components/AdminDashboard.tsx:259-261 | the loop builds exactly the order batch: one `display_order = index` update per listed record, in list order |
| Dashboard.AdminDashboard.constructor | components/AdminDashboard.tsx:146-154 | the dashboard starts with empty lists and grouping, no writes, and `previewKey = now` |
| Dashboard.AdminDashboard.RefreshPreview | components/AdminDashboard.tsx:162 | `previewKey`, the `key` query parameter of the preview iframe's `src`, becomes `now`, and nothing else changes |
| Dashboard.AdminDashboard.RebuildGrouping | components/AdminDashboard.tsx:224-232 | the grouping becomes the rebuild of the current lists and keeps the dashboard's invariant |
| Dashboard.AdminDashboard.FetchCompleted | components/AdminDashboard.tsx:201-202 | both lists are replaced by the fetched ones and the grouping is rebuilt; the key, log and refetch count are unchanged |
| Dashboard.AdminDashboard.SettleBatch | components/AdminDashboard.tsx:262-268 | a batch that resolves refreshes the preview; a thrown batch triggers one refetch instead |
| Dashboard.AdminDashboard.ApplyAvailability | components/AdminDashboard.tsx:242-246 | only the switched record's list changes, as the availability map says; the grouping is rebuilt |
| Dashboard.AdminDashboard.StatusChange | components/AdminDashboard.tsx:234-249 | exactly one `is_available` update is logged, to `products` for a product switch and to `categories` for a category switch (line 235). Without an error: the record's flag is set, the grouping is rebuilt and the preview refreshed. With an `{error}`: one refetch, no local change. When it throws: nothing else changes |
| Dashboard.AdminDashboard.CommitBatch | components/AdminDashboard.tsx:318-323 | the batch joins the log in order, then settles as `SettleBatch` says |
| Dashboard.AdminDashboard.MoveCategory | components/AdminDashboard.tsx:254-257 | the category list becomes the reorder of the old list, and the grouping is rebuilt from it |
| Dashboard.AdminDashboard.CategoryDragEnd | components/AdminDashboard.tsx:251-270 | a drag with no target, or dropped on itself, changes nothing. Otherwise the list is reordered, products stay, the grouping is rebuilt, one order update per category is logged, and the batch settles |
| Dashboard.AdminDashboard.RearrangeGroups | components/AdminDashboard.tsx:286-301 | the grouping becomes the drop's result and keeps every product id in one place |
| Dashboard.AdminDashboard.ProductDragEnd | components/AdminDashboard.tsx:272-324 | without `over`, without a truthy container (the target container is the hovered item's sortable container when truthy, else the hovered element's id, line 280), or onto itself: nothing changes. Otherwise only the grouping changes, as the drop says; the drop's batch is logged and settles. The flat lists stay as they were |
| Scenarios.CategoryScenario | components/AdminDashboard.tsx:251-261 | categories A, B, C with A dropped over C become B, C, A, stored with orders 0, 1, 2 |
| Scenarios.CrossCategoryScenario | components/AdminDashboard.tsx:286-316 | p1 dragged from X [p1, p2] onto p3 in Y [p3] gives X [p2] and Y [p1, p3]. It stores p1's category as Y, p2 = 0, p1 = 0 and p3 = 1 |
| Scenarios.EmptyCategoryScenario | components/AdminDashboard.tsx:280-297 | a drop on an empty category's drop zone is accepted and lands the product at index 0 |
| Scenarios.StaleRebuildScenario | components/AdminDashboard.tsx:224-232 | rebuilding from the untouched flat list after that drag puts p1 back in X, ahead of p2 |
| Scenarios.StaleGroupX | components/AdminDashboard.tsx:226-228 | in that list, X's group is p1, p2 |
| Scenarios.StaleGroupY | components/AdminDashboard.tsx:226-228 | in that list, Y's group is p3 |

## Left out

- Supabase I/O is not modelled as a real store. The store is an append-only log. A
  batch's outcome (`rejected`) and a switch's outcome (`WriteOutcome`) are inputs.
- `fetchData` (components/AdminDashboard.tsx:165-210) is not modelled in full. Its user,
  membership and business lookups are network I/O. The model counts the call in
  `refetches` and takes its result through `FetchCompleted`.
- `Promise.all` concurrency (lines 263 and 318) is not modelled. Each batch lands as one
  atomic unit, in list order. Every drop's batch writes no field of a record twice
  (`CategoryOrderPersisted`, `SameContainerPersisted`, `CrossContainerPersisted`), and
  `Store.OrderIrrelevant` proves that any reordering of such a batch leaves the store
  holding the same values.
- Each handler runs as one atomic step. The `await`s at lines 236, 263 and 318, where
  another handler could run before the rest of the handler continues, are not modelled,
  so the model does not capture interleavings of two handlers' local state updates.
  Nor does it capture the order in which two handlers' batches land. Two drags in the
  same category both write `display_order` for the same products, and a second drag can
  start while the first batch is in flight. The model appends each batch to the store's
  log whole and in handler order, so it cannot show requests of the two batches
  interleaving or the earlier batch landing last.
- A partially failed batch is not modelled. Whether an update returned an error has no
  effect on the log, because the dashboard ignores returned errors from drag batches.
- dnd-kit's sensors, collision detection and sortable wiring are not modelled, because
  they are gesture handling in a foreign library. `active.id`, `over.id` and the
  containers are inputs.
- Reorder.ReorderCategories requires both category ids to be listed, and
  Reorder.ProductDropResolvable requires the dragged product to be listed in its own
  container and, within one container, the hovered product too. The sortable lists
  guarantee both. A same-container drop
  on the container's own drop zone (hovered index -1) is excluded, because `arrayMove`
  with a negative index is library code that is not part of this model.
- ArrayMove.Move requires both indices in range. `arrayMove`'s handling of negative
  indices is not modelled.
- The `'refresh-preview'` message transport and the iframe reload are not modelled. The
  preview refresh is only the change of `previewKey`.
- `handleDelete` and `openDeleteModal` (lines 326-344) are not modelled. Nor are the
  forms, login, layouts, tabs, `Switch`, price formatting with `toFixed` (floating-point
  display), or the new-product `display_order` count query. They are outside the
  ordering core.
- The nested `products` field of `Category` (lib/types.ts:20) and `Business` are not
  modelled, because the handlers never read them.
- `display_order` is a JavaScript number. It is modelled as an integer, because the
  handlers only ever write list indices into it.
- `price` is modelled as a real number. It is never computed with here.
