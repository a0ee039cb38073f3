/**
 * The category filter's link with the `category` query parameter
 * (hooks/useCategoryQueryParam.ts): a state machine over the selected
 * category names and an initialised flag. Initialisation adopts the parameter
 * once, synchronisation writes the selection back to the URL, and the
 * checkbox handler toggles one name.
 */
module CategoryParam {
  import opened Options
  import opened Sequences
  import opened SearchParams

  const CategoryName := "category"

  /** The checkbox handler's update: checking appends the name, unchecking removes every copy of it. */
  function Toggle(prev: seq<string>, category: string, checked: bool): (r: seq<string>)
    ensures checked ==> |r| == |prev| + 1 && r[..|prev|] == prev && r[|prev|] == category
    ensures !checked ==> forall c :: c in r <==> c in prev && c != category
  {
    if checked then prev + [category] else Filter(prev, (c: string) => c != category)
  }

  /** Unchecking keeps the other names in their order and with their multiplicity. */
  lemma UncheckKeepsOthers(prev: seq<string>, category: string)
    ensures Subsequence(Toggle(prev, category, false), prev)
    ensures forall c :: c != category ==> multiset(Toggle(prev, category, false))[c] == multiset(prev)[c]
    ensures category !in Toggle(prev, category, false)
  {
    FilterIsSubsequence(prev, (c: string) => c != category);
    forall c | c != category
      ensures multiset(Toggle(prev, category, false))[c] == multiset(prev)[c]
    {
      FilterMultiset(prev, (c: string) => c != category, c);
    }
  }

  /** Checking a name that is not selected and unchecking it again restores the selection. */
  lemma CheckThenUncheck(prev: seq<string>, category: string)
    requires category !in prev
    ensures Toggle(Toggle(prev, category, true), category, false) == prev
  {
    var p := (c: string) => c != category;
    FilterConcat(prev, [category], p);
    FilterAll(prev, p);
    assert Filter([category], p) == [];
  }

  /**
   * The selection initialisation adopts: the `category` parameter as the only
   * selected name when it is non-empty and one of `allCategories`, otherwise nothing.
   */
  function Adopted(searchParams: QueryString, allCategories: seq<string>): (r: Option<seq<string>>)
    ensures r.Some? <==> exists v :: GetParam(searchParams, CategoryName) == Some(v) && v != "" && v in allCategories
    ensures r.Some? ==> r.value == [GetParam(searchParams, CategoryName).value]
  {
    match GetParam(searchParams, CategoryName)
    case Some(v) => if v != "" && v in allCategories then Some([v]) else None
    case None => None
  }

  /** The query the sync step writes: `category` set to the single selected name, or removed. */
  function Synced(searchParams: QueryString, selected: seq<string>): (r: QueryString)
    ensures GetParam(r, CategoryName) == if |selected| == 1 then Some(selected[0]) else None
    ensures DeleteParam(r, CategoryName) == DeleteParam(searchParams, CategoryName)
  {
    if |selected| == 1 then SetParam(searchParams, CategoryName, selected[0])
    else DeleteParam(searchParams, CategoryName)
  }

  /** Sync leaves every other parameter's value as it was. */
  lemma SyncKeepsOthers(searchParams: QueryString, selected: seq<string>, other: string)
    requires other != CategoryName
    ensures GetParam(Synced(searchParams, selected), other) == GetParam(searchParams, other)
  {
    if |selected| == 1 {
      SetKeepsOthers(searchParams, CategoryName, selected[0], other);
    } else {
      DeleteKeepsOthers(searchParams, CategoryName, other);
    }
  }

  /** A single selected category survives a write to the URL and a fresh initialisation from it. */
  lemma SingleSelectionRoundTrip(searchParams: QueryString, category: string, allCategories: seq<string>)
    requires category != "" && category in allCategories
    ensures Adopted(Synced(searchParams, [category]), allCategories) == Some([category])
  {
  }

  /** No selection, or more than one, leaves no parameter, so a fresh initialisation selects nothing. */
  lemma OtherSelectionsAreLost(searchParams: QueryString, selected: seq<string>, allCategories: seq<string>)
    requires |selected| != 1
    ensures Adopted(Synced(searchParams, selected), allCategories) == None
  {
  }

  /** The hook's state: the selected names, the initialised flag, and every URL written with `router.replace`. */
  class CategoryQueryParam {
    var selected: seq<string>
    var initialized: bool
    var replaced: seq<QueryString>

    constructor ()
      ensures selected == [] && !initialized && replaced == []
    {
      selected := [];
      initialized := false;
      replaced := [];
    }

    /** The initialisation effect: runs once, and only when the category names are known. */
    method Initialize(searchParams: QueryString, allCategories: seq<string>)
      modifies this
      ensures old(initialized) || |allCategories| == 0 ==>
        selected == old(selected) && initialized == old(initialized)
      ensures !old(initialized) && |allCategories| != 0 ==>
        initialized && selected == Adopted(searchParams, allCategories).GetOr(old(selected))
      ensures replaced == old(replaced)
    {
      if initialized {
        return;
      }
      if |allCategories| == 0 {
        return;
      }
      var categoryParam := GetParam(searchParams, CategoryName);
      if categoryParam.Some? && categoryParam.value != "" && categoryParam.value in allCategories {
        selected := [categoryParam.value];
      }
      initialized := true;
    }

    /** The synchronisation effect: before initialisation nothing is written. */
    method Sync(searchParams: QueryString)
      modifies this
      ensures !initialized ==> replaced == old(replaced)
      ensures initialized ==> replaced == old(replaced) + [Synced(searchParams, selected)]
      ensures selected == old(selected) && initialized == old(initialized)
    {
      if !initialized {
        return;
      }
      var params := new UrlSearchParams(searchParams);
      if |selected| == 1 {
        params.Set(CategoryName, selected[0]);
      } else {
        params.Delete(CategoryName);
      }
      replaced := replaced + [params.list];
    }

    /** `handleCategoryChange`. */
    method ChangeCategory(category: string, checked: bool)
      modifies this
      ensures selected == Toggle(old(selected), category, checked)
      ensures initialized == old(initialized) && replaced == old(replaced)
    {
      selected := Toggle(selected, category, checked);
    }
  }
}
