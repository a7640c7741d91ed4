/**
 * The home page: the genre and year choices offered to the filter form, the filter and page
 * state that drives the movie query, and when pagination and the empty notice show.
 */
module HomePage {
  import opened Wrappers
  import opened CinemaTypes
  import opened Collections

  const ItemsPerPage := 12

  /** The movies of the current response; `None` while there is no response. */
  function GenresOf(movies: Option<seq<Movie>>): (gs: seq<string>)
    ensures movies.None? ==> gs == []
    ensures movies.Some? ==> |gs| == |movies.value| && forall i :: 0 <= i < |gs| ==> gs[i] == movies.value[i].genre
  {
    if movies.None? then [] else seq(|movies.value|, i requires 0 <= i < |movies.value| => movies.value[i].genre)
  }

  function YearsOf(movies: Option<seq<Movie>>): (ys: seq<int>)
    ensures movies.None? ==> ys == []
    ensures movies.Some? ==> |ys| == |movies.value| && forall i :: 0 <= i < |ys| ==> ys[i] == movies.value[i].releaseYear
  {
    if movies.None? then [] else seq(|movies.value|, i requires 0 <= i < |movies.value| => movies.value[i].releaseYear)
  }

  /** `genres`: every genre of the listed movies once, in order of first appearance. */
  function Genres(movies: Option<seq<Movie>>): (genres: seq<string>)
    ensures NoDuplicates(genres)
    ensures forall i :: 0 <= i < |genres| ==>
              movies.Some? && exists k :: 0 <= k < |movies.value| && movies.value[k].genre == genres[i]
    ensures movies.Some? ==> forall k :: 0 <= k < |movies.value| ==> movies.value[k].genre in genres
  {
    var all := GenresOf(movies);
    var d := Distinct(all);
    assert forall i :: 0 <= i < |d| ==> d[i] in all;
    assert movies.Some? ==> forall k :: 0 <= k < |movies.value| ==> all[k] in d;
    d
  }

  /** Genres are listed in the order in which they first appear among the movies. */
  lemma GenresInFirstAppearanceOrder(movies: Option<seq<Movie>>, i: nat, j: nat)
    requires i < j < |Genres(movies)|
    ensures FirstIndex(GenresOf(movies), Genres(movies)[i]) < FirstIndex(GenresOf(movies), Genres(movies)[j])
  {
    DistinctKeepsFirstOccurrenceOrder(GenresOf(movies), i, j);
  }

  /** `years`: every release year of the listed movies once, newest first. */
  function Years(movies: Option<seq<Movie>>): (years: seq<int>)
    ensures StrictlyDescending(years)
    ensures forall y :: y in years <==> movies.Some? && exists k :: 0 <= k < |movies.value| && movies.value[k].releaseYear == y
  {
    var all := YearsOf(movies);
    var d := Distinct(all);
    var sorted := SortDescending(d);
    SortKeepsNoDuplicates(d);
    SortedDistinctIsStrict(sorted);
    assert forall y :: y in sorted <==> y in d by {
      forall y ensures y in sorted <==> y in d {
        assert y in sorted <==> y in multiset(sorted);
        assert y in d <==> y in multiset(d);
      }
    }
    assert forall y :: y in d <==> y in all;
    sorted
  }

  /** antd's page count for `total` items at 12 per page. */
  function PageCount(total: nat): (n: nat)
    ensures n * ItemsPerPage >= total
    ensures total > 0 ==> (n - 1) * ItemsPerPage < total
    ensures total == 0 ==> n == 0
  {
    (total + ItemsPerPage - 1) / ItemsPerPage
  }

  /** Pagination shows when the response's `total` exceeds one page; an absent total shows none. */
  predicate ShowPagination(total: Option<int>): (show: bool)
    ensures total.Some? && total.value >= 0 ==> (show <==> PageCount(total.value) >= 2)
    ensures total.None? ==> !show
  {
    total.Some? && total.value > ItemsPerPage
  }

  /** Pagination shows exactly when there is more than one page. */
  lemma PaginationMeansSeveralPages(total: nat)
    ensures ShowPagination(Some(total)) <==> PageCount(total) >= 2
  {
  }

  /** The "no movies found" notice shows exactly when a response came with an empty list. */
  predicate ShowEmptyNotice(movies: Option<seq<Movie>>): (show: bool)
    ensures show ==> movies.Some? && GenresOf(movies) == [] && YearsOf(movies) == []
    ensures show <==> movies.Some? && Genres(movies) == []
  {
    assert movies.Some? && |movies.value| > 0 ==> movies.value[0].genre in Genres(movies);
    movies.Some? && |movies.value| == 0
  }

  /** When the notice shows, the filter form offers no genre and no year. */
  lemma EmptyNoticeMeansNoChoices(movies: Option<seq<Movie>>)
    ensures ShowEmptyNotice(movies) ==> Genres(movies) == [] && Years(movies) == []
    ensures movies.None? ==> !ShowEmptyNotice(movies) && Genres(movies) == [] && Years(movies) == []
  {
  }

  datatype SortOrder = Asc | Desc

  /** The filter form's values; each may be absent. */
  datatype Filters = Filters(
    search: Option<string>,
    genre: Option<string>,
    year: Option<int>,
    sortBy: Option<string>,
    sortOrder: Option<SortOrder>)

  const NoFilters := Filters(None, None, None, None, None)

  /** The filters and page the movie query is made with. */
  class HomeState {
    var filters: Filters
    var currentPage: int

    constructor ()
      ensures filters == NoFilters && currentPage == 1
    {
      filters := NoFilters;
      currentPage := 1;
    }

    /** `handleFilter`: the submitted values replace the filters and the list starts over at page 1. */
    method HandleFilter(values: Filters)
      modifies this
      ensures filters == values && currentPage == 1
    {
      filters := values;
      currentPage := 1;
    }

    /** `handlePageChange`: go to the chosen page under the same filters. */
    method HandlePageChange(page: int)
      modifies this
      ensures currentPage == page && filters == old(filters)
    {
      currentPage := page;
    }

    /** The query key: the filter values and the page, so a change of either refetches. */
    function QueryKey(): (key: (Filters, int))
      reads this
      ensures key.0 == filters && key.1 == currentPage
    {
      (filters, currentPage)
    }
  }
}
