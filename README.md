# A verified model of the product-comparison catalog

The system is a small Next.js site that lists products from a headless CMS.
Its home page loads products and categories and offers three filters: a
search box, category checkboxes and a minimum star rating. It also offers a
sort order and shows each product's rating as five stars. Three hooks keep
the chosen categories, the minimum rating and the sort order in the page's
query string. A generated sitemap lists the home page, every product page and
one filtered home page per category.

This project models that logic in Dafny and proves what it promises:

- `catalog.dfy` covers the categories in use and the ones the filter panel
  offers, the three filter tests, and the star rule.
- `catalog_sort.dfy` covers the sort comparator and a stable in-place
  insertion sort on an array. The sort is proved equal to a functional
  specification that is sorted, a permutation of its input, and stable.
- `catalog_page.dfy` joins the two into `filteredAndSortedProducts`.
- `search_params.dfy` gives the query string as a list of name-value pairs.
  Its `get`, `set` and `delete` follow section 6.2 of the WHATWG URL Standard.
- `category_param.dfy`, `rating_param.dfy` and `sort_param.dfy` model the
  three hooks. Each is a class whose fields are the hook's state: the
  selection, the initialised flag, and the list of URLs written with
  `router.replace`. Its methods are the effects and the setter.
- `numbers.dfy` gives `parseInt` with radix 10 (section 19.2.5 of ECMA-262)
  and decimal `toString`.
- `uri.dfy` gives `encodeURIComponent` and `decodeURIComponent`
  (section 19.2.6 of ECMA-262).
- `sitemap.dfy` builds the sitemap.
- `text.dfy`, `sequences.dfy`, `options.dfy` and `product_types.dfy` hold
  the shared string and list operations and the record types.

A fact that spans files is proved in `sitemap.dfy`:

- A category page in the sitemap carries the category's slug when it has a
  non-empty one (app/sitemap.ts:40).
- The category hook only adopts a parameter equal to a category name
  (hooks/useCategoryQueryParam.ts:27).
- So a category without a slug is selected by its sitemap link when its name
  is non-empty and among the names the filter offers (`Sitemap.NameLinkSelects`).
  Once products are loaded, those are only the names of categories some
  loaded product uses (app/page.tsx:60-67, `CatalogPage.AdoptsUsedCategoryNames`).
- The link of a category with a non-empty slug selects nothing when the slug
  is not an offered name (`Sitemap.SlugLinkSelectsNothing`). When the slug
  equals the name of another offered category, it selects that other category.

## Model

| member | source | states |
|---|---|---|
| Text.Lower | app/page.tsx:73-74 | lower-casing keeps the length and maps each character on its own, upper-case ASCII letters to lower case and every other character to itself |
| Text.LowerIdempotent | app/page.tsx:73-74 | lower-casing twice is lower-casing once |
| Text.ContainsIff | app/page.tsx:73-74 | `includes` holds exactly when the term occurs at some position of the text |
| Catalog.UsedCategoryIds | app/page.tsx:52-58 | an id is in the set exactly when some product has a category with that id |
| Catalog.CategoriesForUI | app/page.tsx:60-63 | with no products it is every category; otherwise it holds exactly the categories whose id some product uses, each as many times as in the full list; either way it keeps the order of the full list (a subsequence) |
| Catalog.Filtered | app/page.tsx:71-82 | a product is kept exactly when it passes the search, category and rating tests; the result keeps input order and is no longer than the input |
| Catalog.SearchMeansOccurrence | app/page.tsx:72-74 | a product passes the search exactly when the lower-cased term occurs in its lower-cased name, or in its lower-cased comment when it has one |
| Catalog.NoFilterKeepsAll | app/page.tsx:71-82 | an empty search, no selected category and a minimum no product is below keep every product in order |
| Catalog.SelectingMoreWidens | app/page.tsx:75-79 | once a category is selected, selecting more can only let more products through (OR semantics) |
| Catalog.Stars | app/page.tsx:100-108 | five stars; star `i` is filled exactly when `i < rating`; filled stars come first, and there are as many as the rating clamped to 0..5 |
| CatalogSort.KeyOf | app/page.tsx:84-95 | each of the four sort values selects its own comparator case; any other value selects the default case |
| CatalogSort.Compare | app/page.tsx:83-96 | the comparator is the difference of the two products' ranks for the key (price, negated price, negated rating, rating), and 0 in the default case |
| CatalogSort.SortBy | app/page.tsx:83 | the stable sort keeps the length |
| CatalogSort.SortByPermutes | app/page.tsx:83-97 | sorting is a permutation: the multiset of products is unchanged |
| CatalogSort.SortBySorted | app/page.tsx:83-92 | the sorted list is ordered by rank |
| CatalogSort.SortByStable | app/page.tsx:83-96 | for every rank, the products of that rank appear in input order |
| CatalogSort.UnknownSortKeepsOrder | app/page.tsx:93-94 | under a sort value other than the four keys the order is unchanged |
| CatalogSort.InsertInPlace | app/page.tsx:83 | one round of the in-place sort leaves the prefix equal to inserting the next product into the sorted prefix, and the rest untouched |
| CatalogSort.SortInPlace | app/page.tsx:83-96 | sorting the array in place leaves it equal to the stable sort of its old contents |
| CatalogPage.PipelinePermutation | app/page.tsx:71-97 | each product passing the tests occurs in the result as often as in the input; no other product occurs |
| CatalogPage.PipelinePasses | app/page.tsx:71-82 | every product in the result passes the three tests |
| CatalogPage.SortedMeaning | app/page.tsx:84-92 | sorted by `price-asc` means non-decreasing prices, `price-desc` non-increasing prices, `rating-desc` non-increasing ratings, `rating-asc` non-decreasing ratings |
| CatalogPage.AdoptsUsedCategoryNames | app/page.tsx:60-67 | once products are loaded, a non-empty `category` parameter is adopted exactly when it names a category some loaded product uses |
| CatalogPage.FilterAndSort | app/page.tsx:70-98 | the result is the stable sort of the filtered products; every product passes the tests; it is a permutation of the passing input products; it is no longer than the input; it is ordered per the sort value; an unknown sort value keeps the filtered order |
| SearchParams.GetParam | hooks/useCategoryQueryParam.ts:26 | `get` is absent exactly when no pair has the name, and otherwise returns the value of a pair with that name |
| SearchParams.GetReturnsFirst | hooks/useCategoryQueryParam.ts:26 | `get` returns the value of the first pair with the name |
| SearchParams.DeleteParam | hooks/useCategoryQueryParam.ts:44 | after `delete` no pair has the name; a list without the name is unchanged |
| SearchParams.DeleteIsFilter | hooks/useCategoryQueryParam.ts:44 | `delete` equals the filter that keeps the pairs with another name, in order |
| SearchParams.DeleteKeepsPairs | hooks/useCategoryQueryParam.ts:44 | `delete` keeps exactly the pairs with another name, each as many times as before and in their original order |
| SearchParams.DeleteKeepsOthers | hooks/useCategoryQueryParam.ts:39-46 | `delete` does not change what `get` returns for any other name |
| SearchParams.SetParam | hooks/useCategoryQueryParam.ts:41 | after `set`, `get` returns the new value; deleting the name afterwards gives what deleting it before gives, so every other pair is kept in order |
| SearchParams.SetLeavesOnePair | hooks/useCategoryQueryParam.ts:41 | after `set` exactly one pair has the name |
| SearchParams.SetAppendsNew | hooks/useCategoryQueryParam.ts:41 | `set` of a name the list does not have appends the pair at the end |
| SearchParams.SetReplacesFirst | hooks/useCategoryQueryParam.ts:41 | when the name is present, `set` puts the value in place of the first such pair and removes the later ones |
| SearchParams.SetKeepsOthers | hooks/useCategoryQueryParam.ts:39-46 | `set` does not change what `get` returns for any other name |
| SearchParams.UrlSearchParams.constructor | hooks/useCategoryQueryParam.ts:39 | a new object holds a copy of the given pairs |
| SearchParams.UrlSearchParams.Set | hooks/useCategoryQueryParam.ts:41 | the object's pairs become `set` applied to the old pairs |
| SearchParams.UrlSearchParams.Delete | hooks/useCategoryQueryParam.ts:44 | the object's pairs become `delete` applied to the old pairs |
| CategoryParam.Toggle | hooks/useCategoryQueryParam.ts:53-55 | checking appends the name and leaves the earlier names unchanged; unchecking keeps exactly the other names |
| CategoryParam.UncheckKeepsOthers | hooks/useCategoryQueryParam.ts:55 | unchecking removes every copy of the name and keeps the other names in order with their multiplicity |
| CategoryParam.CheckThenUncheck | hooks/useCategoryQueryParam.ts:52-57 | checking and then unchecking a name that was not selected restores the selection |
| CategoryParam.Adopted | hooks/useCategoryQueryParam.ts:26-29 | initialisation adopts a selection exactly when the `category` parameter is non-empty and one of the category names, and the selection is that one name |
| CategoryParam.Synced | hooks/useCategoryQueryParam.ts:39-46 | after sync, `get("category")` is the selected name when exactly one is selected and absent otherwise; the other pairs are kept in order |
| CategoryParam.SyncKeepsOthers | hooks/useCategoryQueryParam.ts:39-46 | sync does not change any other parameter |
| CategoryParam.SingleSelectionRoundTrip | hooks/useCategoryQueryParam.ts:26-45 | a single selected category written to the URL is adopted again by a fresh initialisation |
| CategoryParam.OtherSelectionsAreLost | hooks/useCategoryQueryParam.ts:40-45 | no selection, or more than one, is written as an absent parameter, so a fresh initialisation adopts nothing |
| CategoryParam.CategoryQueryParam.constructor | hooks/useCategoryQueryParam.ts:17-18 | the hook starts with nothing selected, not initialised, and no URL written |
| CategoryParam.CategoryQueryParam.Initialize | hooks/useCategoryQueryParam.ts:21-32 | nothing changes once initialised or while no category names are known; otherwise the hook becomes initialised and adopts the parameter when valid, else keeps its selection; no URL is written |
| CategoryParam.CategoryQueryParam.Sync | hooks/useCategoryQueryParam.ts:35-47 | before initialisation nothing is written; afterwards exactly one URL is written, the synced query; the state is unchanged |
| CategoryParam.CategoryQueryParam.ChangeCategory | hooks/useCategoryQueryParam.ts:50-60 | the selection becomes its toggle; nothing else changes |
| Numbers.ParseInt | hooks/useRatingQueryParam.ts:27 | the empty string reads as `NaN` |
| Numbers.Decimal | hooks/useRatingQueryParam.ts:42 | the numeral is non-empty, all digits, with no leading zero |
| Numbers.DecimalValue | hooks/useRatingQueryParam.ts:42 | the numeral's digits denote the number |
| Numbers.ParseDecimal | hooks/useRatingQueryParam.ts:27 | `parseInt` reads back the decimal numeral of any natural number, and stops at the first character that is not a digit |
| Numbers.ParseNegative | hooks/useRatingQueryParam.ts:27 | a leading minus sign negates the number read |
| Numbers.MinusNegates | hooks/useRatingQueryParam.ts:27 | text starting with a digit reads as a number, and with a minus sign in front it reads as that number negated |
| Numbers.ParseSkipsWhiteSpace | hooks/useRatingQueryParam.ts:27 | leading white space and line terminators do not change the result |
| Numbers.ParseNaN | hooks/useRatingQueryParam.ts:27 | text with no decimal digit reads as `NaN` |
| RatingParam.ValidRating | hooks/useRatingQueryParam.ts:25-31 | a rating is adopted exactly when the parameter is present, non-empty, and `parseInt` reads it as a number from 0 to 5, and then it is that number |
| RatingParam.RatingText | hooks/useRatingQueryParam.ts:42 | the text written for a positive minimum reads back as that minimum |
| RatingParam.Synced | hooks/useRatingQueryParam.ts:40-46 | after sync, `get("rating")` is the minimum's text when it is positive and absent otherwise; the other pairs are kept in order |
| RatingParam.SyncKeepsOthers | hooks/useRatingQueryParam.ts:40-46 | sync does not change any other parameter |
| RatingParam.RoundTrip | hooks/useRatingQueryParam.ts:25-46 | a minimum from 0 to 5 written to the URL is recovered by a fresh initialisation; any other minimum comes back as 0 |
| RatingParam.RatingQueryParam.constructor | hooks/useRatingQueryParam.ts:16-17 | the minimum starts at 0, not initialised, with no URL written |
| RatingParam.RatingQueryParam.Initialize | hooks/useRatingQueryParam.ts:20-33 | once initialised nothing changes; otherwise a valid parameter replaces the minimum and the hook becomes initialised; no URL is written |
| RatingParam.RatingQueryParam.Sync | hooks/useRatingQueryParam.ts:36-48 | before initialisation nothing is written; afterwards exactly one URL is written, the synced query; the state is unchanged |
| RatingParam.RatingQueryParam.SetMinRating | hooks/useRatingQueryParam.ts:51-53 | the minimum becomes the argument, unclamped; nothing else changes |
| SortParam.Adopted | hooks/useSortQueryParam.ts:22-25 | initialisation adopts a sort value exactly when `get("sort")` is non-empty, and then adopts that value verbatim and unchecked |
| SortParam.Synced | hooks/useSortQueryParam.ts:34-41 | after sync, `get("sort")` is the order when it differs from the default and absent otherwise; the other pairs are kept in order |
| SortParam.SyncKeepsOthers | hooks/useSortQueryParam.ts:34-41 | sync does not change any other parameter |
| SortParam.RoundTrip | hooks/useSortQueryParam.ts:22-41 | an order written to the URL is recovered by a fresh initialisation, except that an empty non-default order comes back as the default |
| SortParam.SortQueryParam.constructor | hooks/useSortQueryParam.ts:15-16 | the order starts at the default, not initialised, with no URL written |
| SortParam.SortQueryParam.Initialize | hooks/useSortQueryParam.ts:19-28 | once initialised nothing changes; otherwise a non-empty parameter replaces the order and the hook becomes initialised; no URL is written |
| SortParam.SortQueryParam.Sync | hooks/useSortQueryParam.ts:31-43 | before initialisation nothing is written; afterwards exactly one URL is written, the synced query; the state is unchanged |
| SortParam.SortQueryParam.SetSort | hooks/useSortQueryParam.ts:46-48 | the order becomes the argument; nothing else changes |
| Uri.Encode | app/sitemap.ts:40 | the encoding is at least as long as the text |
| Uri.EncodeUnreserved | app/sitemap.ts:40 | text made only of unreserved characters is encoded as itself |
| Uri.EncodeAlphabet | app/sitemap.ts:40 | the encoding holds only unreserved characters and `%`, so it cannot end the query value |
| Uri.DecodeEncode | app/sitemap.ts:40 | decoding the encoding gives back the text |
| Sitemap.Contents | app/sitemap.ts:21 | a missing `contents` is read as the empty list |
| Sitemap.ProductPages | app/sitemap.ts:24-31 | one entry per product, in input order, each the product's page entry |
| Sitemap.CategoryPages | app/sitemap.ts:38-45 | one entry per category, in input order, each the category's page entry |
| Sitemap.Sitemap | app/sitemap.ts:5-55 | the first entry is the home page; if either request fails the sitemap is the home page alone; otherwise its length is one plus the number of products plus the number of categories |
| Sitemap.ProductEntries | app/sitemap.ts:24-31 | in a complete sitemap product `i` is entry `1 + i`, at `/product/` plus its id, weekly, priority 0.8 |
| Sitemap.CategoryEntries | app/sitemap.ts:38-47 | in a complete sitemap category `j` is entry `1 + n + j` where `n` is the number of products, after every product, at `/?category=` plus the encoded slug or name, weekly, priority 0.6 |
| Sitemap.MissingContentsIsEmpty | app/sitemap.ts:20-35 | a product response without `contents` contributes no pages |
| Sitemap.MissingCategoryContentsIsEmpty | app/sitemap.ts:33-35 | a category response without `contents` contributes no pages |
| Sitemap.CategoryLinkCarries | app/sitemap.ts:40 | a category page's query value decodes to the slug when non-empty, else the name |
| Sitemap.NameLinkSelects | hooks/useCategoryQueryParam.ts:26-29 | the page of a category without a slug selects that category when its name is non-empty and among the names the filter offers |
| Sitemap.UnusedLinkSelectsNothing | app/sitemap.ts:38-45 | once products are loaded, a category page whose link text names no category a loaded product uses selects nothing, though the sitemap lists every category |
| Sitemap.SlugLinkSelectsNothing | hooks/useCategoryQueryParam.ts:27 | the page of a category with a slug that is no category's name selects nothing |

## Left out

- Prices and ratings are whole numbers. The source's floating-point numbers, price formatting with `toLocaleString`, and the `-0` that `parseInt("-0")` returns (read here as 0) are not modelled.
- `toLowerCase` is modelled on the ASCII letters only. Full Unicode case mapping is not modelled.
- Text.Lower: the model states ASCII lower-casing, weaker than the Unicode mapping the source uses.
- Numbers.ParseInt: the value is exact. The rounding of numerals with more than 20 significant digits is not modelled.
- `Number.prototype.toString` is modelled for positive whole numbers only, the only ones the rating hook writes. The exponent form for values of 1e21 and above is not modelled.
- `encodeURIComponent` cannot throw here, because a Dafny `char` is a Unicode scalar value. The `URIError` for a lone surrogate is not modelled.
- The query string is the list of pairs. Its serialisation to `a=b&c=d` text and back (the `/?` URL passed to `router.replace`, and `searchParams.toString()`) is not modelled. `router.replace` is modelled as appending the pairs to the hook's `replaced` list.
- React scheduling is not modelled: when effects run, re-renders, `useCallback` and `useMemo` caching, and the `typeof window` guards. Each effect is a method that the caller invokes.
- Loading products and categories (`fetch`, `Promise.all`, the CMS client, the API routes) and the loading and error flags of the page are not modelled. Their results are inputs: the product and category sequences, and `Response` values for the sitemap.
- `product.categories?` is treated as always present (possibly empty). Only the fields the filter, sort and sitemap read are kept.
- The sitemap's `lastModified` dates (`new Date()`) and its `console.error` are not modelled.
- Not modelled: all JSX markup, the star icons' classes (only the filled/unfilled rule is kept), `ResponsiveSelect`, `LoadingAnimation`, the layouts, `isMobile` and `cn`.
- Sorting is specified as one stable sort. Any stable algorithm gives the same result for a consistent comparator such as this one, so the engine's own algorithm and call order are not modelled.
