/**
 * The sort order's link with the `sort` query parameter
 * (hooks/useSortQueryParam.ts): the order starts at a default, initialisation
 * adopts any non-empty parameter once, and synchronisation writes a
 * non-default order to the URL and removes the parameter for the default.
 */
module SortParam {
  import opened Options
  import opened SearchParams

  const SortName := "sort"

  /** The order the initialisation effect adopts: any non-empty `sort` parameter, unchecked. */
  function Adopted(searchParams: QueryString): (r: Option<string>)
    ensures r.Some? <==> GetParam(searchParams, SortName).Some? && GetParam(searchParams, SortName).value != ""
    ensures r.Some? ==> r.value == GetParam(searchParams, SortName).value
  {
    match GetParam(searchParams, SortName)
    case Some(v) => if v != "" then Some(v) else None
    case None => None
  }

  /** The query the sync step writes: `sort` set to a non-default order, or removed. */
  function Synced(searchParams: QueryString, sort: string, defaultSort: string): (r: QueryString)
    ensures GetParam(r, SortName) == if sort != defaultSort then Some(sort) else None
    ensures DeleteParam(r, SortName) == DeleteParam(searchParams, SortName)
  {
    if sort != defaultSort then SetParam(searchParams, SortName, sort)
    else DeleteParam(searchParams, SortName)
  }

  /** Sync leaves every other parameter's value as it was. */
  lemma SyncKeepsOthers(searchParams: QueryString, sort: string, defaultSort: string, other: string)
    requires other != SortName
    ensures GetParam(Synced(searchParams, sort, defaultSort), other) == GetParam(searchParams, other)
  {
    if sort != defaultSort {
      SetKeepsOthers(searchParams, SortName, sort, other);
    } else {
      DeleteKeepsOthers(searchParams, SortName, other);
    }
  }

  /**
   * Writing an order to the URL and initialising a fresh hook (which holds the
   * default) from it gives the order back, unless it is the empty string and
   * not the default: then the default comes back instead.
   */
  lemma RoundTrip(searchParams: QueryString, sort: string, defaultSort: string)
    ensures Adopted(Synced(searchParams, sort, defaultSort)).GetOr(defaultSort)
      == if sort == "" then defaultSort else sort
  {
  }

  /** The hook's state: the default it was created with, the order, the initialised flag, and every URL written. */
  class SortQueryParam {
    const defaultSort: string
    var sort: string
    var initialized: bool
    var replaced: seq<QueryString>

    constructor (defaultSort: string)
      ensures this.defaultSort == defaultSort && sort == defaultSort
      ensures !initialized && replaced == []
    {
      this.defaultSort := defaultSort;
      sort := defaultSort;
      initialized := false;
      replaced := [];
    }

    /** The initialisation effect: runs once; a non-empty parameter replaces the order. */
    method Initialize(searchParams: QueryString)
      modifies this
      ensures old(initialized) ==> sort == old(sort)
      ensures !old(initialized) ==> sort == Adopted(searchParams).GetOr(old(sort))
      ensures initialized && replaced == old(replaced)
    {
      if initialized {
        return;
      }
      var sortParam := GetParam(searchParams, SortName);
      if sortParam.Some? && sortParam.value != "" {
        sort := sortParam.value;
      }
      initialized := true;
    }

    /** The synchronisation effect: before initialisation nothing is written. */
    method Sync(searchParams: QueryString)
      modifies this
      ensures !initialized ==> replaced == old(replaced)
      ensures initialized ==> replaced == old(replaced) + [Synced(searchParams, sort, defaultSort)]
      ensures sort == old(sort) && initialized == old(initialized)
    {
      if !initialized {
        return;
      }
      var params := new UrlSearchParams(searchParams);
      if sort != defaultSort {
        params.Set(SortName, sort);
      } else {
        params.Delete(SortName);
      }
      replaced := replaced + [params.list];
    }

    /** `setSort`: the value is stored as given. */
    method SetSort(value: string)
      modifies this
      ensures sort == value
      ensures initialized == old(initialized) && replaced == old(replaced)
    {
      sort := value;
    }
  }
}
