/**
 * The sitemap (app/sitemap.ts): the home page, then one page per product,
 * then one filtered home page per category. When either CMS request fails
 * the sitemap holds the home page alone. The two requests are inputs here.
 */
module Sitemap {
  import opened Options
  import opened ProductTypes
  import opened Uri
  import CategoryParam
  import opened Catalog
  import opened CatalogPage

  datatype ChangeFrequency = Daily | Weekly

  datatype Entry = Entry(url: string, changeFrequency: ChangeFrequency, priority: real)

  /** The outcome of a CMS list request: a failure, or a response whose `contents` may be missing. */
  datatype Response<T> = Failed | Received(contents: Option<seq<T>>)

  const BaseUrl := "https://shimizu-item.vercel.app"

  const Home := Entry(BaseUrl, Daily, 1.0)

  /** A response's list, a missing `contents` read as empty. */
  function Contents<T>(response: Response<T>): (r: seq<T>)
    requires response.Received?
    ensures response.contents.None? ==> r == []
    ensures response.contents.Some? ==> r == response.contents.value
  {
    response.contents.GetOr([])
  }

  function ProductEntry(p: Product): Entry
  {
    Entry(BaseUrl + "/product/" + p.id, Weekly, 0.8)
  }

  /** The text a category page's link carries: the slug when there is a non-empty one, the name otherwise. */
  function LinkText(c: Category): string
  {
    if c.slug.Some? && c.slug.value != "" then c.slug.value else c.name
  }

  function CategoryEntry(c: Category): Entry
  {
    Entry(BaseUrl + "/?category=" + Encode(LinkText(c)), Weekly, 0.6)
  }

  function ProductPages(products: seq<Product>): (r: seq<Entry>)
    ensures |r| == |products|
    ensures forall i :: 0 <= i < |products| ==> r[i] == ProductEntry(products[i])
  {
    if products == [] then [] else [ProductEntry(products[0])] + ProductPages(products[1..])
  }

  function CategoryPages(categories: seq<Category>): (r: seq<Entry>)
    ensures |r| == |categories|
    ensures forall i :: 0 <= i < |categories| ==> r[i] == CategoryEntry(categories[i])
  {
    if categories == [] then [] else [CategoryEntry(categories[0])] + CategoryPages(categories[1..])
  }

  /**
   * `sitemap()`: the home page, the product pages and the category pages, in
   * that order; only the home page when a request fails (the categories are
   * not requested once the products have failed).
   */
  function Sitemap(products: Response<Product>, categories: Response<Category>): (r: seq<Entry>)
    ensures |r| >= 1 && r[0] == Home
    ensures products.Failed? || categories.Failed? ==> r == [Home]
    ensures products.Received? && categories.Received? ==>
      |r| == 1 + |Contents(products)| + |Contents(categories)|
  {
    match products
    case Failed => [Home]
    case Received(_) =>
      match categories
      case Failed => [Home]
      case Received(_) => [Home] + ProductPages(Contents(products)) + CategoryPages(Contents(categories))
  }

  /** Product `i` is entry `1 + i` of a complete sitemap: its page, weekly, priority 0.8. */
  lemma ProductEntries(products: seq<Product>, categories: seq<Category>, i: nat)
    requires i < |products|
    ensures var e := Sitemap(Received(Some(products)), Received(Some(categories)))[1 + i];
      e.url == BaseUrl + "/product/" + products[i].id && e.changeFrequency == Weekly && e.priority == 0.8
  {
    var pp := ProductPages(products);
    var r := [Home] + pp + CategoryPages(categories);
    assert r[1 + i] == pp[i];
  }

  /**
   * Category `j` comes after every product in a complete sitemap: the home page
   * filtered by its encoded link text, weekly, priority 0.6.
   */
  lemma CategoryEntries(products: seq<Product>, categories: seq<Category>, j: nat)
    requires j < |categories|
    ensures var e := Sitemap(Received(Some(products)), Received(Some(categories)))[1 + |products| + j];
      e.url == BaseUrl + "/?category=" + Encode(LinkText(categories[j]))
      && e.changeFrequency == Weekly && e.priority == 0.6
  {
    var cp := CategoryPages(categories);
    assert Sitemap(Received(Some(products)), Received(Some(categories))) == [Home] + ProductPages(products) + cp;
    ThirdPart([Home], ProductPages(products), cp, j);
    assert cp[j] == CategoryEntry(categories[j]);
  }

  lemma ThirdPart<T>(a: seq<T>, b: seq<T>, c: seq<T>, k: nat)
    requires k < |c|
    ensures (a + b + c)[|a| + |b| + k] == c[k]
  {
  }

  /** A product response without `contents` contributes no pages. */
  lemma MissingContentsIsEmpty(products: Response<Product>, categories: seq<Category>)
    requires products == Received(None)
    ensures Sitemap(products, Received(Some(categories))) == [Home] + CategoryPages(categories)
  {
    assert ProductPages([]) == [];
  }

  /** A category response without `contents` contributes no pages. */
  lemma MissingCategoryContentsIsEmpty(products: seq<Product>, categories: Response<Category>)
    requires categories == Received(None)
    ensures Sitemap(Received(Some(products)), categories) == [Home] + ProductPages(products)
  {
    assert CategoryPages([]) == [];
    assert [Home] + ProductPages(products) + [] == [Home] + ProductPages(products);
  }

  /**
   * A category page's query value decodes with `decodeURIComponent` to the
   * link text, so the category filter reads the slug when there is one. The
   * form-urlencoded parser of `URLSearchParams` agrees with `decodeURIComponent`
   * on this text, which has no `+` and no malformed escape (`EncodeAlphabet`,
   * `DecodeEncode`).
   */
  lemma CategoryLinkCarries(c: Category)
    ensures var url := CategoryEntry(c).url;
      && url[..|BaseUrl + "/?category="|] == BaseUrl + "/?category="
      && Decode(url[|BaseUrl + "/?category="|..]) == Some(LinkText(c))
  {
    DecodeEncode(LinkText(c));
    var prefix := BaseUrl + "/?category=";
    assert CategoryEntry(c).url[|prefix|..] == Encode(LinkText(c));
  }

  /**
   * Following the page of a category without a slug selects that category
   * when its name is non-empty and among the names the filter offers: the
   * link carries the name.
   */
  lemma NameLinkSelects(c: Category, names: seq<string>)
    requires c.slug.None? || c.slug.value == ""
    requires c.name != "" && c.name in names
    ensures CategoryParam.Adopted([(CategoryParam.CategoryName, LinkText(c))], names) == Some([c.name])
  {
  }

  /**
   * Once products are loaded, the page of a category whose link text names
   * no category that a loaded product uses selects nothing, although the
   * sitemap lists a page for every category.
   */
  lemma UnusedLinkSelectsNothing(c: Category, products: seq<Product>, allCategories: seq<Category>)
    requires |products| != 0
    requires forall d :: d in allCategories && d.name == LinkText(c) ==>
      forall p :: p in products ==> !UsesCategoryId(p, d.id)
    ensures CategoryParam.Adopted([(CategoryParam.CategoryName, LinkText(c))],
      Names(CategoriesForUI(products, allCategories))) == None
  {
    if LinkText(c) != "" {
      AdoptsUsedCategoryNames(products, allCategories, [(CategoryParam.CategoryName, LinkText(c))], LinkText(c));
    }
  }

  /**
   * Following the page of a category that has a slug selects nothing unless
   * the slug is also some category's name: the filter only accepts names.
   */
  lemma SlugLinkSelectsNothing(c: Category, names: seq<string>)
    requires c.slug.Some? && c.slug.value != "" && c.slug.value !in names
    ensures CategoryParam.Adopted([(CategoryParam.CategoryName, LinkText(c))], names) == None
  {
  }
}
