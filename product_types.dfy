/**
 * The CMS records the catalog works on (types/product.ts). Only the fields
 * the filter, the sort and the sitemap read are kept; prices and ratings are
 * whole numbers.
 */
module ProductTypes {
  import opened Options

  datatype Category = Category(id: string, name: string, slug: Option<string>)

  datatype Product = Product(
    id: string,
    name: string,
    comment: Option<string>,
    price: int,
    rating: int,
    categories: seq<Category>)

  /** The category names of a list of categories, in order (`categories.map(c => c.name)`). */
  function Names(cs: seq<Category>): (r: seq<string>)
    ensures |r| == |cs|
    ensures forall i :: 0 <= i < |cs| ==> r[i] == cs[i].name
  {
    if cs == [] then [] else [cs[0].name] + Names(cs[1..])
  }
}
