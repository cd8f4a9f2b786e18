/** Concrete drags worked through the model: a category reorder, a product moved into
    another category, and a drop on an empty category's drop zone. */
module Scenarios {
  import opened Records
  import opened Sequences
  import opened Store
  import opened Reorder
  import opened Grouping

  function Cat(id: string, order: int): Category {
    Category(id, "", id, None, order, None, true, "", "b")
  }

  function Prod(id: string, category: string, order: int): Product {
    Product(id, "", id, None, 1.0, None, Some(category), true, order, "b")
  }

  /** Categories A(0), B(1), C(2); A dropped over C. The list becomes B, C, A and the
      batch stores B = 0, C = 1, A = 2. */
  lemma CategoryScenario()
    ensures var cs := [Cat("A", 0), Cat("B", 1), Cat("C", 2)];
      && "A" in CategoryIds(cs) && "C" in CategoryIds(cs)
      && var r := ReorderCategories(cs, "A", "C");
      var log := OrderWrites(CategoriesTable, CategoryIds(r));
      && CategoryIds(r) == ["B", "C", "A"]
      && Persisted(log, CategoriesTable, "B", DisplayOrderField) == Some(DisplayOrder(0))
      && Persisted(log, CategoriesTable, "C", DisplayOrderField) == Some(DisplayOrder(1))
      && Persisted(log, CategoriesTable, "A", DisplayOrderField) == Some(DisplayOrder(2))
  {
    var cs := [Cat("A", 0), Cat("B", 1), Cat("C", 2)];
    assert CategoryIds(cs) == ["A", "B", "C"];
    assert FindIndex(CategoryIds(cs), "A") == 0;
    assert FindIndex(CategoryIds(cs), "C") == 2;
    var r := ReorderCategories(cs, "A", "C");
    assert r == [Cat("B", 1), Cat("C", 2), Cat("A", 0)];
    var ids := CategoryIds(r);
    assert ids == ["B", "C", "A"];
    assert Unique(ids);
    OrderWritesPersist(CategoriesTable, ids, 0);
    OrderWritesPersist(CategoriesTable, ids, 1);
    OrderWritesPersist(CategoriesTable, ids, 2);
  }

  /** X holds p1(0), p2(1) and Y holds p3(0); p1 dropped over p3. X becomes [p2], Y becomes
      [p1, p3], and the batch stores p1's category as Y and the orders p2 = 0, p1 = 0,
      p3 = 1. The records keep their old `display_order` and `category_id` in memory. */
  lemma CrossCategoryScenario()
    ensures var p1, p2, p3 := Prod("p1", "X", 0), Prod("p2", "X", 1), Prod("p3", "Y", 0);
      var g: Groups := map["X" := [p1, p2], "Y" := [p3]];
      && ProductDropResolvable(g, "p1", "p3", "X", "Y")
      && var g' := ProductDrop(g, "p1", "p3", "X", "Y");
      var log := ProductDropWrites(g, "p1", "p3", "X", "Y");
      && g' == map["X" := [p2], "Y" := [p1, p3]]
      && Persisted(log, ProductsTable, "p1", CategoryIdField) == Some(CategoryId("Y"))
      && Persisted(log, ProductsTable, "p2", DisplayOrderField) == Some(DisplayOrder(0))
      && Persisted(log, ProductsTable, "p1", DisplayOrderField) == Some(DisplayOrder(0))
      && Persisted(log, ProductsTable, "p3", DisplayOrderField) == Some(DisplayOrder(1))
  {
    var p1, p2, p3 := Prod("p1", "X", 0), Prod("p2", "X", 1), Prod("p3", "Y", 0);
    var g: Groups := map["X" := [p1, p2], "Y" := [p3]];
    assert ProductIds([p1, p2]) == ["p1", "p2"];
    assert ProductIds([p3]) == ["p3"];
    assert FindIndex(ProductIds([p1, p2]), "p1") == 0;
    assert FindIndex(ProductIds([p3]), "p3") == 0;
    assert WithoutId([p2], "p1") == [p2];
    assert WithoutId([p1, p2], "p1") == [p2];
    assert LandingIndex(0, [p3]) == 0;
    assert InsertAt([p3], 0, p1) == [p1, p3];
    var g' := ProductDrop(g, "p1", "p3", "X", "Y");
    assert g' == map["X" := [p2], "Y" := [p1, p3]];
    assert ProductIds([p2]) == ["p2"];
    assert ProductIds([p1, p3]) == ["p1", "p3"];
    var srcIds, dstIds := ["p2"], ["p1", "p3"];
    assert ProductDropWrites(g, "p1", "p3", "X", "Y") == MoveBatch(ProductsTable, "p1", "Y", srcIds, dstIds);
    assert Unique(srcIds) && Unique(dstIds) && DisjointIds(srcIds, dstIds);
    MoveBatchCategory(ProductsTable, "p1", "Y", srcIds, dstIds);
    MoveBatchSourceOrder(ProductsTable, "p1", "Y", srcIds, dstIds, 0);
    MoveBatchTargetOrder(ProductsTable, "p1", "Y", srcIds, dstIds, 0);
    MoveBatchTargetOrder(ProductsTable, "p1", "Y", srcIds, dstIds, 1);
  }

  /** A product dropped on the drop zone of a category without products: the zone's id is
      the container, no product matches it, and the product lands at index 0. */
  lemma EmptyCategoryScenario()
    ensures var p1 := Prod("p1", "X", 0);
      var g: Groups := map["X" := [p1], "Z" := []];
      var over := DropTarget("Z", None);
      && ProductDropAccepted("p1", Some(over), Some("X"))
      && OverContainer(over) == "Z"
      && ProductDropResolvable(g, "p1", "Z", "X", "Z")
      && ProductDrop(g, "p1", "Z", "X", "Z") == map["X" := [], "Z" := [p1]]
  {
    var p1 := Prod("p1", "X", 0);
    assert ProductIds([p1]) == ["p1"];
    assert FindIndex(ProductIds([p1]), "p1") == 0;
    assert FindIndex(ProductIds([]), "Z") == -1;
    assert WithoutId([p1], "p1") == [];
    assert LandingIndex(-1, []) == 0;
    assert InsertAt([], 0, p1) == [p1];
  }

  /** The drag above leaves the flat product list as it was, so the next rebuild of the
      grouping (after a status toggle or a refetch that has not yet seen the batch) shows
      p1 back in X, ahead of p2. */
  lemma StaleRebuildScenario()
    ensures var p1, p2, p3 := Prod("p1", "X", 0), Prod("p2", "X", 1), Prod("p3", "Y", 0);
      Group([p1, p2, p3], [Cat("X", 0), Cat("Y", 1)]) == map["X" := [p1, p2], "Y" := [p3]]
  {
    var p1, p2, p3 := Prod("p1", "X", 0), Prod("p2", "X", 1), Prod("p3", "Y", 0);
    var ps, cs := [p1, p2, p3], [Cat("X", 0), Cat("Y", 1)];
    StaleGroupX();
    StaleGroupY();
    assert cs[..1] == [Cat("X", 0)] && cs[..1][..0] == [];
    assert Group(ps, cs[..1]) == map["X" := [p1, p2]];
    assert Group(ps, cs) == Group(ps, cs[..1])["Y" := [p3]];
  }

  lemma StaleGroupX()
    ensures var p1, p2, p3 := Prod("p1", "X", 0), Prod("p2", "X", 1), Prod("p3", "Y", 0);
      GroupOfCategory([p1, p2, p3], "X") == [p1, p2]
  {
    var p1, p2, p3 := Prod("p1", "X", 0), Prod("p2", "X", 1), Prod("p3", "Y", 0);
    assert InCategory([p3], "X") == [];
    assert InCategory([p2, p3], "X") == [p2];
    assert InCategory([p1, p2, p3], "X") == [p1, p2];
    assert SortByOrder([p2]) == [p2];
    assert SortByOrder([p1, p2]) == [p1, p2];
  }

  lemma StaleGroupY()
    ensures var p1, p2, p3 := Prod("p1", "X", 0), Prod("p2", "X", 1), Prod("p3", "Y", 0);
      GroupOfCategory([p1, p2, p3], "Y") == [p3]
  {
    var p1, p2, p3 := Prod("p1", "X", 0), Prod("p2", "X", 1), Prod("p3", "Y", 0);
    assert InCategory([p3], "Y") == [p3];
    assert InCategory([p2, p3], "Y") == [p3];
    assert InCategory([p1, p2, p3], "Y") == [p3];
    assert SortByOrder([p3]) == [p3];
  }
}
