/**
 * The minimum-rating filter's link with the `rating` query parameter
 * (hooks/useRatingQueryParam.ts): the minimum starts at 0, initialisation
 * adopts a valid parameter once, and synchronisation writes a positive
 * minimum back to the URL and removes the parameter otherwise.
 */
module RatingParam {
  import opened Options
  import opened Numbers
  import opened SearchParams

  const RatingName := "rating"

  /**
   * The validation of the initialisation effect: the parameter counts when it
   * is present, non-empty, and reads with `parseInt` as a number from 0 to 5.
   */
  function ValidRating(param: Option<string>): (r: Option<int>)
    ensures r.Some? ==> 0 <= r.value <= 5
    ensures r.Some? ==> param.Some? && param.value != "" && ParseInt(param.value) == r
    ensures (param.Some? && param.value != "" && ParseInt(param.value).Some?
             && 0 <= ParseInt(param.value).value <= 5) ==> r.Some?
  {
    match param
    case None => None
    case Some(v) =>
      if v == "" then None
      else match ParseInt(v)
        case None => None
        case Some(rating) => if 0 <= rating <= 5 then Some(rating) else None
  }

  /** `minRating.toString()`, for the positive minimums the sync step writes. */
  function RatingText(minRating: int): (s: string)
    requires minRating > 0
    ensures ParseInt(s) == Some(minRating)
  {
    ParseDecimal(minRating, []);
    assert Decimal(minRating) + [] == Decimal(minRating);
    Decimal(minRating)
  }

  /** The query the sync step writes: `rating` set to a positive minimum, or removed. */
  function Synced(searchParams: QueryString, minRating: int): (r: QueryString)
    ensures minRating > 0 ==> GetParam(r, RatingName) == Some(RatingText(minRating))
    ensures minRating <= 0 ==> GetParam(r, RatingName) == None
    ensures DeleteParam(r, RatingName) == DeleteParam(searchParams, RatingName)
  {
    if minRating > 0 then SetParam(searchParams, RatingName, RatingText(minRating))
    else DeleteParam(searchParams, RatingName)
  }

  /** Sync leaves every other parameter's value as it was. */
  lemma SyncKeepsOthers(searchParams: QueryString, minRating: int, other: string)
    requires other != RatingName
    ensures GetParam(Synced(searchParams, minRating), other) == GetParam(searchParams, other)
  {
    if minRating > 0 {
      SetKeepsOthers(searchParams, RatingName, RatingText(minRating), other);
    } else {
      DeleteKeepsOthers(searchParams, RatingName, other);
    }
  }

  /**
   * Writing a minimum to the URL and initialising a fresh hook from it gives
   * the minimum back when it is 0 to 5; any other minimum comes back as 0.
   */
  lemma RoundTrip(searchParams: QueryString, minRating: int)
    ensures ValidRating(GetParam(Synced(searchParams, minRating), RatingName)).GetOr(0)
      == if 0 <= minRating <= 5 then minRating else 0
  {
    if minRating > 0 {
      assert RatingText(minRating) != [] by {
        assert ParseInt(RatingText(minRating)).Some?;
      }
    }
  }

  /** The hook's state: the minimum rating, the initialised flag, and every URL written with `router.replace`. */
  class RatingQueryParam {
    var minRating: int
    var initialized: bool
    var replaced: seq<QueryString>

    constructor ()
      ensures minRating == 0 && !initialized && replaced == []
    {
      minRating := 0;
      initialized := false;
      replaced := [];
    }

    /** The initialisation effect: runs once; a valid parameter replaces the minimum. */
    method Initialize(searchParams: QueryString)
      modifies this
      ensures old(initialized) ==> minRating == old(minRating)
      ensures !old(initialized) ==>
        minRating == ValidRating(GetParam(searchParams, RatingName)).GetOr(old(minRating))
      ensures initialized && replaced == old(replaced)
    {
      if initialized {
        return;
      }
      var ratingParam := GetParam(searchParams, RatingName);
      if ratingParam.Some? && ratingParam.value != "" {
        var rating := ParseInt(ratingParam.value);
        if rating.Some? && rating.value >= 0 && rating.value <= 5 {
          minRating := rating.value;
        }
      }
      initialized := true;
    }

    /** The synchronisation effect: before initialisation nothing is written. */
    method Sync(searchParams: QueryString)
      modifies this
      ensures !initialized ==> replaced == old(replaced)
      ensures initialized ==> replaced == old(replaced) + [Synced(searchParams, minRating)]
      ensures minRating == old(minRating) && initialized == old(initialized)
    {
      if !initialized {
        return;
      }
      var params := new UrlSearchParams(searchParams);
      if minRating > 0 {
        params.Set(RatingName, RatingText(minRating));
      } else {
        params.Delete(RatingName);
      }
      replaced := replaced + [params.list];
    }

    /** `setMinRating`: the value is stored as given, without clamping. */
    method SetMinRating(rating: int)
      modifies this
      ensures minRating == rating
      ensures initialized == old(initialized) && replaced == old(replaced)
    {
      minRating := rating;
    }
  }
}
