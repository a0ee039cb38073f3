/**
 * The catalog page's pipeline (app/page.tsx:70-98): filter the loaded products
 * with the three tests, then sort the survivors in place by the chosen key.
 */
module CatalogPage {
  import opened Options
  import opened ProductTypes
  import opened Sequences
  import opened Catalog
  import opened CatalogSort
  import opened SearchParams
  import CategoryParam

  /**
   * The filtered-and-sorted list is a permutation of exactly the input
   * products that pass the three tests: each such product occurs as often as
   * in the input, every other product not at all.
   */
  lemma PipelinePermutation(products: seq<Product>, searchTerm: string, selected: seq<string>, minRating: int, key: SortKey)
    ensures forall p ::
      multiset(SortBy(Filtered(products, searchTerm, selected, minRating), key))[p]
        == if Passes(p, searchTerm, selected, minRating) then multiset(products)[p] else 0
  {
    var filtered := Filtered(products, searchTerm, selected, minRating);
    SortByPermutes(filtered, key);
    forall p ensures multiset(filtered)[p] == if Passes(p, searchTerm, selected, minRating) then multiset(products)[p] else 0 {
      FilterMultiset(products, (q: Product) => Passes(q, searchTerm, selected, minRating), p);
    }
  }

  /** Every product of the filtered-and-sorted list passes the three tests. */
  lemma PipelinePasses(products: seq<Product>, searchTerm: string, selected: seq<string>, minRating: int, key: SortKey)
    ensures forall i :: 0 <= i < |SortBy(Filtered(products, searchTerm, selected, minRating), key)| ==>
      Passes(SortBy(Filtered(products, searchTerm, selected, minRating), key)[i], searchTerm, selected, minRating)
  {
    var filtered := Filtered(products, searchTerm, selected, minRating);
    var r := SortBy(filtered, key);
    SortByPermutes(filtered, key);
    forall i | 0 <= i < |r| ensures Passes(r[i], searchTerm, selected, minRating) {
      assert r[i] in multiset(r);
      assert r[i] in filtered;
    }
  }

  /** What each sort value's order means for the prices or ratings of a sorted list. */
  lemma SortedMeaning(r: seq<Product>, sort: string)
    requires Sorted(r, KeyOf(sort))
    ensures sort == PriceAsc ==> forall i, j :: 0 <= i < j < |r| ==> r[i].price <= r[j].price
    ensures sort == PriceDesc ==> forall i, j :: 0 <= i < j < |r| ==> r[i].price >= r[j].price
    ensures sort == RatingDesc ==> forall i, j :: 0 <= i < j < |r| ==> r[i].rating >= r[j].rating
    ensures sort == RatingAsc ==> forall i, j :: 0 <= i < j < |r| ==> r[i].rating <= r[j].rating
  {
  }

  /**
   * The category filter is given the names of the offered categories. Once
   * products are loaded, a non-empty `category` parameter is adopted exactly
   * when it names a category that some loaded product uses.
   */
  lemma AdoptsUsedCategoryNames(products: seq<Product>, allCategories: seq<Category>, searchParams: QueryString, v: string)
    requires |products| != 0
    requires GetParam(searchParams, CategoryParam.CategoryName) == Some(v) && v != ""
    ensures CategoryParam.Adopted(searchParams, Names(CategoriesForUI(products, allCategories))).Some?
      <==> exists c :: c in allCategories && c.name == v && exists p :: p in products && UsesCategoryId(p, c.id)
  {
    var offered := CategoriesForUI(products, allCategories);
    NameOffered(offered, v);
    if exists c :: c in allCategories && c.name == v && exists p :: p in products && UsesCategoryId(p, c.id) {
      var c :| c in allCategories && c.name == v && exists p :: p in products && UsesCategoryId(p, c.id);
      assert c in offered;
    }
  }

  lemma NameOffered(offered: seq<Category>, v: string)
    ensures v in Names(offered) <==> exists c :: c in offered && c.name == v
  {
    var names := Names(offered);
    if v in names {
      var i :| 0 <= i < |names| && names[i] == v;
      assert offered[i] in offered;
    }
    if exists c :: c in offered && c.name == v {
      var c :| c in offered && c.name == v;
      var i :| 0 <= i < |offered| && offered[i] == c;
      assert names[i] == v;
    }
  }

  /**
   * `filteredAndSortedProducts`: the products that pass the three tests,
   * copied into a fresh array and sorted in place by the chosen key.
   */
  method FilterAndSort(products: seq<Product>, searchTerm: string, selected: seq<string>, minRating: int, sort: string)
    returns (r: seq<Product>)
    ensures r == SortBy(Filtered(products, searchTerm, selected, minRating), KeyOf(sort))
    ensures forall i :: 0 <= i < |r| ==> Passes(r[i], searchTerm, selected, minRating)
    ensures forall p :: multiset(r)[p] == if Passes(p, searchTerm, selected, minRating) then multiset(products)[p] else 0
    ensures |r| <= |products|
    ensures Sorted(r, KeyOf(sort))
    ensures sort == PriceAsc ==> forall i, j :: 0 <= i < j < |r| ==> r[i].price <= r[j].price
    ensures sort == PriceDesc ==> forall i, j :: 0 <= i < j < |r| ==> r[i].price >= r[j].price
    ensures sort == RatingDesc ==> forall i, j :: 0 <= i < j < |r| ==> r[i].rating >= r[j].rating
    ensures sort == RatingAsc ==> forall i, j :: 0 <= i < j < |r| ==> r[i].rating <= r[j].rating
    ensures KeyOf(sort) == Unsorted ==> r == Filtered(products, searchTerm, selected, minRating)
  {
    var key := KeyOf(sort);
    var filtered := Filtered(products, searchTerm, selected, minRating);
    var a := new Product[|filtered|](k requires 0 <= k < |filtered| => filtered[k]);
    assert a[..] == filtered;
    SortInPlace(a, key);
    r := a[..];
    PipelinePermutation(products, searchTerm, selected, minRating, key);
    PipelinePasses(products, searchTerm, selected, minRating, key);
    SortBySorted(filtered, key);
    SortedMeaning(r, sort);
    if key == Unsorted {
      UnknownSortKeepsOrder(filtered, key);
    }
  }
}
