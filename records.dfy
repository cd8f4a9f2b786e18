/** Record shapes of the menu's two ordered collections (lib/types.ts). */
module Records {

  datatype Option<T> = None | Some(value: T)

  /** A menu category; `displayOrder` positions it among the business's categories. */
  datatype Category = Category(
    id: string,
    createdAt: string,
    name: string,
    description: Option<string>,
    displayOrder: int,
    imageUrl: Option<string>,
    isAvailable: bool,
    namePosition: string,
    businessId: string)

  /** A menu product; `categoryId` may be null, `displayOrder` is scoped to its category. */
  datatype Product = Product(
    id: string,
    createdAt: string,
    name: string,
    description: Option<string>,
    price: real,
    imageUrl: Option<string>,
    categoryId: Option<string>,
    isAvailable: bool,
    displayOrder: int,
    businessId: string)

  function CategoryIds(cs: seq<Category>): (ids: seq<string>)
    ensures |ids| == |cs|
    ensures forall i :: 0 <= i < |cs| ==> ids[i] == cs[i].id
  {
    seq(|cs|, i requires 0 <= i < |cs| => cs[i].id)
  }

  function ProductIds(ps: seq<Product>): (ids: seq<string>)
    ensures |ids| == |ps|
    ensures forall i :: 0 <= i < |ps| ==> ids[i] == ps[i].id
  {
    seq(|ps|, i requires 0 <= i < |ps| => ps[i].id)
  }
}
