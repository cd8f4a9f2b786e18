/** The derived view `productsByCategory`, rebuilt from the flat product and category lists
    (components/AdminDashboard.tsx, the effect at lines 224-232). */
module Grouping {
  import opened Records
  import opened Sequences

  /** Ascending by `displayOrder`. */
  predicate SortedByOrder(ps: seq<Product>) {
    forall i, j :: 0 <= i < j < |ps| ==> ps[i].displayOrder <= ps[j].displayOrder
  }

  predicate BelongsTo(p: Product, categoryId: string) {
    p.categoryId == Some(categoryId)
  }

  /** `products.filter(p => p.category_id === category.id)`. */
  function InCategory(ps: seq<Product>, categoryId: string): (r: seq<Product>)
    ensures forall p :: multiset(r)[p] == if BelongsTo(p, categoryId) then multiset(ps)[p] else 0
    ensures |r| <= |ps|
  {
    if ps == [] then []
    else
      assert ps == [ps[0]] + ps[1..];
      if BelongsTo(ps[0], categoryId) then [ps[0]] + InCategory(ps[1..], categoryId)
      else InCategory(ps[1..], categoryId)
  }

  /** The filter of a one-product list: the product itself when it belongs, else nothing. */
  lemma InCategorySingle(p: Product, categoryId: string)
    ensures InCategory([p], categoryId) == if BelongsTo(p, categoryId) then [p] else []
  {
    assert [p][1..] == [];
  }

  /** One step of the filter: a nonempty list keeps its first product in front exactly when
      it belongs. */
  lemma InCategoryUnfold(ps: seq<Product>, categoryId: string)
    requires ps != []
    ensures InCategory(ps, categoryId)
         == (if BelongsTo(ps[0], categoryId) then [ps[0]] else []) + InCategory(ps[1..], categoryId)
  {
  }

  /** The inductive step of `InCategoryAppend`: from the tail of `a` to the whole of it. */
  lemma InCategoryAppendStep(a: seq<Product>, b: seq<Product>, categoryId: string)
    requires a != []
    requires InCategory(a[1..] + b, categoryId)
          == InCategory(a[1..], categoryId) + InCategory(b, categoryId)
    ensures InCategory(a + b, categoryId) == InCategory(a, categoryId) + InCategory(b, categoryId)
  {
    var head := if BelongsTo(a[0], categoryId) then [a[0]] else [];
    var x, y := InCategory(a[1..], categoryId), InCategory(b, categoryId);
    assert InCategory(a + b, categoryId) == head + (x + y) by {
      AppendTail(a, b);
      InCategoryUnfold(a + b, categoryId);
    }
    assert InCategory(a, categoryId) == head + x by {
      InCategoryUnfold(a, categoryId);
    }
    AppendRegroup(InCategory(a + b, categoryId), InCategory(a, categoryId), head, x, y);
  }

  /** The filter keeps the flat list's order: filtering a concatenation is concatenating
      the filtered parts. With `InCategorySingle`, this fixes the filter's output position
      by position as the matching products in their input order. */
  lemma {:induction false} InCategoryAppend(a: seq<Product>, b: seq<Product>, categoryId: string)
    ensures InCategory(a + b, categoryId) == InCategory(a, categoryId) + InCategory(b, categoryId)
  {
    if a == [] {
      assert a + b == b;
    } else {
      InCategoryAppend(a[1..], b, categoryId);
      InCategoryAppendStep(a, b, categoryId);
    }
  }

  /** The products of `ps` with display order `k`, in their order in `ps`. */
  function WithOrder(ps: seq<Product>, k: int): seq<Product>
  {
    if ps == [] then []
    else if ps[0].displayOrder == k then [ps[0]] + WithOrder(ps[1..], k)
    else WithOrder(ps[1..], k)
  }

  /** One step of a stable insertion sort: `p` goes before the first element whose order
      is not smaller than its own. */
  function InsertByOrder(p: Product, s: seq<Product>): (r: seq<Product>)
    requires SortedByOrder(s)
    ensures |r| == |s| + 1
    ensures r[0] == p || (s != [] && r[0] == s[0])
    ensures SortedByOrder(r)
    ensures multiset(r) == multiset(s) + multiset{p}
  {
    if s == [] || p.displayOrder <= s[0].displayOrder then [p] + s
    else
      var t := InsertByOrder(p, s[1..]);
      assert s == [s[0]] + s[1..];
      assert s[0].displayOrder <= t[0].displayOrder;
      [s[0]] + t
  }

  /** `.sort((a, b) => a.display_order - b.display_order)`; `Array.prototype.sort` is stable. */
  function SortByOrder(ps: seq<Product>): (r: seq<Product>)
    ensures SortedByOrder(r)
    ensures multiset(r) == multiset(ps)
  {
    if ps == [] then []
    else
      assert ps == [ps[0]] + ps[1..];
      InsertByOrder(ps[0], SortByOrder(ps[1..]))
  }

  lemma {:induction false} WithOrderInsert(p: Product, s: seq<Product>, k: int)
    requires SortedByOrder(s)
    ensures WithOrder(InsertByOrder(p, s), k) == if p.displayOrder == k then [p] + WithOrder(s, k) else WithOrder(s, k)
  {
    if s == [] || p.displayOrder <= s[0].displayOrder {
    } else {
      WithOrderInsert(p, s[1..], k);
      if p.displayOrder == k {
        // s[0] sorts strictly before p, so it does not carry order k
        assert s[0].displayOrder < k;
      }
    }
  }

  /** The sort is stable: products with equal display order keep their input order. */
  lemma {:induction false} SortIsStable(ps: seq<Product>, k: int)
    ensures WithOrder(SortByOrder(ps), k) == WithOrder(ps, k)
  {
    if ps != [] {
      SortIsStable(ps[1..], k);
      WithOrderInsert(ps[0], SortByOrder(ps[1..]), k);
    }
  }

  /** The filter keeps the input order: picking the products of one display order commutes
      with picking the products of one category. */
  lemma {:induction false} InCategoryKeepsOrder(ps: seq<Product>, categoryId: string, k: int)
    ensures WithOrder(InCategory(ps, categoryId), k) == InCategory(WithOrder(ps, k), categoryId)
  {
    if ps != [] {
      InCategoryKeepsOrder(ps[1..], categoryId, k);
    }
  }

  /** The group of one category: its products, ascending by display order. */
  function GroupOfCategory(ps: seq<Product>, categoryId: string): (r: seq<Product>)
    ensures SortedByOrder(r)
    ensures forall p :: multiset(r)[p] == if BelongsTo(p, categoryId) then multiset(ps)[p] else 0
  {
    SortByOrder(InCategory(ps, categoryId))
  }

  /** Within a category's group, products with equal display order appear in the order
      they have in the flat list. With `SortedByOrder` and the multiset clause of
      `GroupOfCategory`, this fixes the group completely. */
  lemma GroupTiesInListOrder(ps: seq<Product>, categoryId: string, k: int)
    ensures WithOrder(GroupOfCategory(ps, categoryId), k) == InCategory(WithOrder(ps, k), categoryId)
  {
    SortIsStable(InCategory(ps, categoryId), k);
    InCategoryKeepsOrder(ps, categoryId, k);
  }

  /** `categories.reduce((acc, category) => { acc[category.id] = ...; return acc }, {})`. */
  function Group(ps: seq<Product>, cs: seq<Category>): map<string, seq<Product>>
  {
    if cs == [] then map[]
    else
      var last := cs[|cs| - 1];
      Group(ps, cs[..|cs| - 1])[last.id := GroupOfCategory(ps, last.id)]
  }

  /** The rebuilt grouping has one entry per listed category id, holding that category's
      products in display order. */
  lemma {:induction false} GroupShape(ps: seq<Product>, cs: seq<Category>)
    ensures Group(ps, cs).Keys == set c | c in cs :: c.id
    ensures forall id :: id in Group(ps, cs) ==> Group(ps, cs)[id] == GroupOfCategory(ps, id)
  {
    if cs != [] {
      var last := cs[|cs| - 1];
      assert cs == cs[..|cs| - 1] + [last];
      GroupShape(ps, cs[..|cs| - 1]);
    }
  }

  /** A product is in a category's group exactly when it is in the flat list with that
      category id; every group is sorted. */
  lemma GroupMembers(ps: seq<Product>, cs: seq<Category>, id: string, p: Product)
    requires id in Group(ps, cs)
    ensures SortedByOrder(Group(ps, cs)[id])
    ensures p in Group(ps, cs)[id] <==> p in ps && BelongsTo(p, id)
  {
    GroupShape(ps, cs);
    var r := Group(ps, cs)[id];
    assert multiset(r)[p] == if BelongsTo(p, id) then multiset(ps)[p] else 0;
  }

  /** A product whose category id is null, or names no listed category, is in no group. */
  lemma UngroupedProducts(ps: seq<Product>, cs: seq<Category>, p: Product)
    requires p.categoryId.None? || forall c :: c in cs ==> p.categoryId != Some(c.id)
    ensures forall id :: id in Group(ps, cs) ==> p !in Group(ps, cs)[id]
  {
    var g := Group(ps, cs);
    GroupShape(ps, cs);
    forall id | id in g
      ensures p !in g[id]
    {
      var c :| c in cs && c.id == id;
      GroupMembers(ps, cs, id, p);
    }
  }
}
