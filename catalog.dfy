/**
 * The catalog page's pure computations (app/page.tsx): which categories are in
 * use, which categories the filter panel offers, the three filter predicates
 * joined with AND, and the star rule of the rating display.
 */
module Catalog {
  import opened ProductTypes
  import opened Text
  import opened Sequences

  /** Some category of `p` has identifier `id`. */
  predicate UsesCategoryId(p: Product, id: string)
  {
    exists c :: c in p.categories && c.id == id
  }

  /** `usedCategoryIds`: the identifiers of every category attached to some product. */
  function UsedCategoryIds(products: seq<Product>): (ids: set<string>)
    ensures forall id :: id in ids <==> exists p :: p in products && UsesCategoryId(p, id)
  {
    if products == [] then {}
    else
      var head := set c | c in products[0].categories :: c.id;
      var rest := UsedCategoryIds(products[1..]);
      assert forall id :: id in head <==> UsesCategoryId(products[0], id);
      assert forall id :: ((exists p :: p in products && UsesCategoryId(p, id))
        <==> UsesCategoryId(products[0], id) || exists p :: p in products[1..] && UsesCategoryId(p, id))
      by {
        assert forall p :: p in products <==> p == products[0] || p in products[1..];
      }
      head + rest
  }

  /**
   * `categoriesForUI`: every category while no product is loaded; afterwards
   * only the categories some product uses, in the order of `allCategories`
   * and each as often as it occurs there.
   */
  function CategoriesForUI(products: seq<Product>, allCategories: seq<Category>): (r: seq<Category>)
    ensures |products| == 0 ==> r == allCategories
    ensures |products| != 0 ==>
      forall c :: c in r <==> c in allCategories && exists p :: p in products && UsesCategoryId(p, c.id)
    ensures |products| != 0 ==>
      forall c :: multiset(r)[c] == if c.id in UsedCategoryIds(products) then multiset(allCategories)[c] else 0
    ensures Subsequence(r, allCategories)
  {
    if |products| == 0 then
      assert Subsequence(allCategories, allCategories) by { SubsequenceRefl(allCategories); }
      allCategories
    else
      var used := UsedCategoryIds(products);
      var inUse := (c: Category) => c.id in used;
      FilterIsSubsequence(allCategories, inUse);
      assert forall c :: multiset(Filter(allCategories, inUse))[c] == if inUse(c) then multiset(allCategories)[c] else 0 by {
        forall c
          ensures multiset(Filter(allCategories, inUse))[c] == if inUse(c) then multiset(allCategories)[c] else 0
        {
          FilterMultiset(allCategories, inUse, c);
        }
      }
      Filter(allCategories, inUse)
  }

  /** The search test: the lower-cased name, or the lower-cased comment if there is one, includes the lower-cased term. */
  predicate MatchesSearch(p: Product, searchTerm: string)
  {
    Contains(Lower(p.name), Lower(searchTerm))
    || (p.comment.Some? && Contains(Lower(p.comment.value), Lower(searchTerm)))
  }

  /** Some category of `p` is named `name`. */
  predicate HasCategoryNamed(p: Product, name: string)
  {
    exists c :: c in p.categories && c.name == name
  }

  /** The category test: nothing selected, or some selected name is a category of `p`. */
  predicate MatchesCategory(p: Product, selected: seq<string>)
  {
    |selected| == 0 || exists name :: name in selected && HasCategoryNamed(p, name)
  }

  predicate MatchesRating(p: Product, minRating: int)
  {
    p.rating >= minRating
  }

  /** The three tests joined with AND. */
  predicate Passes(p: Product, searchTerm: string, selected: seq<string>, minRating: int)
  {
    MatchesSearch(p, searchTerm) && MatchesCategory(p, selected) && MatchesRating(p, minRating)
  }

  /** `products.filter(...)`: the products that pass, in input order. */
  function Filtered(products: seq<Product>, searchTerm: string, selected: seq<string>, minRating: int): (r: seq<Product>)
    ensures |r| <= |products|
    ensures forall p :: p in r <==> p in products && Passes(p, searchTerm, selected, minRating)
    ensures Subsequence(r, products)
  {
    FilterIsSubsequence(products, (p: Product) => Passes(p, searchTerm, selected, minRating));
    Filter(products, (p: Product) => Passes(p, searchTerm, selected, minRating))
  }

  /** A product passes the search test exactly when the lower-cased term occurs in its lower-cased name or comment. */
  lemma SearchMeansOccurrence(p: Product, searchTerm: string)
    ensures MatchesSearch(p, searchTerm) <==>
      (exists i :: OccursAt(Lower(p.name), Lower(searchTerm), i))
      || (p.comment.Some? && exists i :: OccursAt(Lower(p.comment.value), Lower(searchTerm), i))
  {
    NameOccurrence(p, searchTerm);
    if p.comment.Some? {
      CommentOccurrence(p, searchTerm);
    }
  }

  lemma NameOccurrence(p: Product, searchTerm: string)
    ensures Contains(Lower(p.name), Lower(searchTerm)) <==> exists i :: OccursAt(Lower(p.name), Lower(searchTerm), i)
  {
    ContainsIff(Lower(p.name), Lower(searchTerm));
  }

  lemma CommentOccurrence(p: Product, searchTerm: string)
    requires p.comment.Some?
    ensures Contains(Lower(p.comment.value), Lower(searchTerm))
      <==> exists i :: OccursAt(Lower(p.comment.value), Lower(searchTerm), i)
  {
    ContainsIff(Lower(p.comment.value), Lower(searchTerm));
  }

  /**
   * With an empty search term, nothing selected and a minimum no product is
   * below, the filter keeps every product in order.
   */
  lemma NoFilterKeepsAll(products: seq<Product>, minRating: int)
    requires forall i :: 0 <= i < |products| ==> products[i].rating >= minRating
    ensures Filtered(products, "", [], minRating) == products
  {
    FilterAll(products, (p: Product) => Passes(p, "", [], minRating));
  }

  /**
   * OR semantics: once something is selected, selecting more categories can
   * only let more products through.
   */
  lemma SelectingMoreWidens(p: Product, selected: seq<string>, wider: seq<string>)
    requires selected != []
    requires forall name :: name in selected ==> name in wider
    ensures MatchesCategory(p, selected) ==> MatchesCategory(p, wider)
  {
  }

  /** How many of the stars are filled. */
  function CountFilled(stars: seq<bool>): (n: nat)
    ensures n <= |stars|
  {
    if stars == [] then 0 else (if stars[0] then 1 else 0) + CountFilled(stars[1..])
  }

  /**
   * `renderStars`: five stars; star `i` is filled when `i < rating`, so the
   * filled stars come first and there are `rating` of them, clamped to 0..5.
   */
  function Stars(rating: int): (stars: seq<bool>)
    ensures |stars| == 5
    ensures forall i :: 0 <= i < 5 ==> (stars[i] <==> i < rating)
    ensures forall i, j :: 0 <= i <= j < 5 && stars[j] ==> stars[i]
    ensures CountFilled(stars) == if rating < 0 then 0 else if rating > 5 then 5 else rating
  {
    var stars := seq(5, i => i < rating);
    assert CountFilled(stars[4..]) == if 4 < rating then 1 else 0 by {
      assert stars[4..][1..] == [];
    }
    assert stars[3..][1..] == stars[4..];
    assert CountFilled(stars[3..]) == if 4 < rating then 2 else if 3 < rating then 1 else 0;
    assert stars[2..][1..] == stars[3..];
    assert CountFilled(stars[2..]) == if 4 < rating then 3 else if 3 < rating then 2 else if 2 < rating then 1 else 0;
    assert stars[1..][1..] == stars[2..];
    assert CountFilled(stars[1..]) == if 4 < rating then 4 else if 1 < rating then rating - 1 else 0;
    stars
  }
}
