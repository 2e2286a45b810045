/** The viewer's state and its event handlers: the module-level variables of the
    page become the fields of one object, and each handler a method on it. */
module Hero {
  import opened Wrappers
  import opened Champions
  import opened Sorting
  import opened Pagination
  import Favorites
  import Seqs

  /** One page-number button: its page and whether it is marked active. */
  datatype PageButton = PageButton(page: int, active: bool)

  /** What the pagination bar shows. */
  datatype PaginationView = PaginationView(prevDisabled: bool, buttons: seq<PageButton>, nextDisabled: bool)

  class HeroState {
    /** The records in fetch order (later possibly reordered by a sort, see SortChampions). */
    var championsData: array<Champion>
    /** The records the card list pages through; after a fetch or a reset this is the
        very same array as `championsData`. */
    var filteredChampions: array<Champion>
    var currentPage: int
    var currentPaginationStart: int
    /** The value under the `favorites` key of the key-value store; `None` when the key
        is missing. */
    var storedFavorites: Option<seq<string>>
    /** The records the favorites panel shows. Only the fetch, an add that writes and a
        remove redraw this panel; filter, sort, reset and the pagination handlers leave it
        as it is. */
    var favoritesShown: seq<Champion>

    /** The filtered records are drawn from the full record list, and both counters
        are positive. */
    ghost predicate Valid()
      reads this, championsData, filteredChampions
    {
      && currentPage >= 1
      && currentPaginationStart >= 1
      && multiset(filteredChampions[..]) <= multiset(championsData[..])
    }

    /** The state on page load, before the fetch has finished: two distinct empty
        arrays, page 1, window start 1, an empty favorites panel, whatever the store
        already holds. */
    constructor (stored: Option<seq<string>>)
      ensures Valid()
      ensures championsData[..] == [] && filteredChampions[..] == []
      ensures championsData != filteredChampions
      ensures currentPage == 1 && currentPaginationStart == 1
      ensures storedFavorites == stored
      ensures favoritesShown == []
    {
      championsData := new Champion[0];
      filteredChampions := new Champion[0];
      currentPage := 1;
      currentPaginationStart := 1;
      storedFavorites := stored;
      favoritesShown := [];
    }

    /** The effect of a successful fetch: both variables are assigned the same new array,
        and the favorites panel is drawn from it. */
    method FetchSucceeded(records: seq<Champion>)
      requires Valid()
      modifies this
      ensures Valid()
      ensures fresh(championsData) && championsData[..] == records
      ensures filteredChampions == championsData
      ensures currentPage == old(currentPage) && currentPaginationStart == old(currentPaginationStart)
      ensures storedFavorites == old(storedFavorites)
      ensures favoritesShown == Favorites.Select(records, Favorites.Read(storedFavorites))
    {
      championsData := new Champion[|records|](k requires 0 <= k < |records| => records[k]);
      filteredChampions := championsData;
      favoritesShown := Favorites.Select(championsData[..], Favorites.Read(storedFavorites));
    }

    /** The cards `renderChampions` draws: at most one page of the filtered records,
        starting at record `(currentPage - 1) * pageSize`. */
    method RenderChampions() returns (shown: seq<Champion>)
      requires Valid()
      ensures |shown| <= PageSize
      ensures (currentPage - 1) * PageSize >= filteredChampions.Length ==> shown == []
      ensures (currentPage - 1) * PageSize < filteredChampions.Length ==>
                shown == filteredChampions[(currentPage - 1) * PageSize ..
                           if currentPage * PageSize < filteredChampions.Length
                           then currentPage * PageSize else filteredChampions.Length]
    {
      shown := PageSlice(filteredChampions[..], currentPage);
    }

    /** The bar `renderPagination` draws: Previous, the page buttons of the window and
        Next, with their disabled and active markers. */
    method RenderPagination() returns (v: PaginationView)
      ensures v.prevDisabled <==> PrevDisabled(currentPaginationStart)
      ensures v.nextDisabled <==> NextDisabled(currentPaginationStart, TotalPages(filteredChampions.Length))
      ensures |v.buttons| == ButtonCount(currentPaginationStart, TotalPages(filteredChampions.Length))
      ensures forall k :: 0 <= k < |v.buttons| ==>
                v.buttons[k] == PageButton(currentPaginationStart + k,
                                           IsActive(currentPaginationStart + k, currentPage))
    {
      var total := TotalPages(filteredChampions.Length);
      var buttons := [];
      var i := currentPaginationStart;
      while i <= currentPaginationStart + PaginationSize - 1 && i <= total
        invariant currentPaginationStart <= i <= currentPaginationStart + PaginationSize
        invariant i <= total + 1 || i == currentPaginationStart
        invariant |buttons| == i - currentPaginationStart
        invariant forall k :: 0 <= k < |buttons| ==>
                    buttons[k] == PageButton(currentPaginationStart + k,
                                             IsActive(currentPaginationStart + k, currentPage))
      {
        buttons := buttons + [PageButton(i, (i - 1) * PageSize + 1 == currentPage)];
        i := i + 1;
      }
      v := PaginationView(currentPaginationStart == 1, buttons,
                          currentPaginationStart + PaginationSize > total);
    }

    /** The Previous button's handler (the button is disabled at window start 1). */
    method PreviousClicked()
      requires Valid() && !PrevDisabled(currentPaginationStart)
      modifies this`currentPaginationStart, this`currentPage
      ensures Valid()
      ensures currentPaginationStart == PrevStart(old(currentPaginationStart))
      ensures currentPaginationStart == old(currentPaginationStart) - 1
      ensures currentPage == WindowPage(currentPaginationStart)
    {
      currentPaginationStart := PrevStart(currentPaginationStart);
      currentPage := (currentPaginationStart - 1) * PaginationSize + 1;
    }

    /** The Next button's handler (the button is disabled unless a whole further
        window of pages exists). */
    method NextClicked()
      requires Valid() && !NextDisabled(currentPaginationStart, TotalPages(filteredChampions.Length))
      modifies this`currentPaginationStart, this`currentPage
      ensures Valid()
      ensures currentPaginationStart == NextStart(old(currentPaginationStart), TotalPages(filteredChampions.Length))
      ensures currentPaginationStart == old(currentPaginationStart) + 1
      ensures currentPaginationStart + PaginationSize - 1 <= TotalPages(filteredChampions.Length)
      ensures currentPage == WindowPage(currentPaginationStart)
    {
      currentPaginationStart := NextStart(currentPaginationStart, TotalPages(filteredChampions.Length));
      currentPage := (currentPaginationStart - 1) * PaginationSize + 1;
    }

    /** The handler of page button `i`, one of the buttons drawn. */
    method PageClicked(i: int)
      requires Valid() && IsDrawn(currentPaginationStart, TotalPages(filteredChampions.Length), i)
      modifies this`currentPage
      ensures Valid()
      ensures currentPage == ClickPage(i)
      ensures IsActive(i, currentPage)
      ensures forall j :: IsActive(j, currentPage) ==> j == i
    {
      currentPage := (i - 1) * PageSize + 1;
    }

    /** `filterChampions`: a new array holding the records of `championsData` whose name
        contains the term; the window start is left alone. */
    method FilterChampions(term: string)
      requires Valid()
      modifies this
      ensures Valid()
      ensures fresh(filteredChampions)
      ensures filteredChampions[..] == FilterByName(championsData[..], term)
      ensures championsData == old(championsData) && championsData[..] == old(championsData[..])
      ensures currentPage == 1 && currentPaginationStart == old(currentPaginationStart)
      ensures storedFavorites == old(storedFavorites)
      ensures favoritesShown == old(favoritesShown)
    {
      var r := FilterByName(championsData[..], term);
      filteredChampions := new Champion[|r|](k requires 0 <= k < |r| => r[k]);
      assert filteredChampions[..] == r;
      currentPage := 1;
    }

    /** `resetFilters`: the filtered view becomes the full record array itself. */
    method ResetFilters()
      requires Valid()
      modifies this`filteredChampions, this`currentPage
      ensures Valid()
      ensures filteredChampions == championsData
      ensures currentPage == 1
    {
      filteredChampions := championsData;
      currentPage := 1;
    }

    /** `sortChampions`: the filtered array is sorted in place; when it is the full record
        array, the full record list is reordered with it. */
    method SortChampions(key: SortKey)
      requires Valid()
      modifies this`currentPage, filteredChampions
      ensures Valid()
      ensures filteredChampions == old(filteredChampions) && championsData == old(championsData)
      ensures filteredChampions[..] == SortSeq(key, old(filteredChampions[..]))
      ensures Sorted(key, filteredChampions[..])
      ensures multiset(filteredChampions[..]) == multiset(old(filteredChampions[..]))
      ensures championsData[..] == if old(championsData == filteredChampions)
                                   then filteredChampions[..] else old(championsData[..])
      ensures currentPage == 1
    {
      SortSeqSortedPermutation(key, filteredChampions[..]);
      InsertionSort(filteredChampions, key);
      currentPage := 1;
    }

    /** `addToFavorites`: the stored list gains `id` when it lacks it, and the panel is
        redrawn; otherwise neither the store nor the panel changes. */
    method AddToFavorites(id: string)
      requires Valid()
      modifies this`storedFavorites, this`favoritesShown
      ensures Valid()
      ensures id in Favorites.Read(storedFavorites)
      ensures storedFavorites == if id in Favorites.Read(old(storedFavorites))
                                 then old(storedFavorites)
                                 else Some(Favorites.Add(Favorites.Read(old(storedFavorites)), id))
      ensures favoritesShown == if id in Favorites.Read(old(storedFavorites))
                                then old(favoritesShown)
                                else Favorites.Select(championsData[..], Favorites.Read(storedFavorites))
    {
      var favorites := Favorites.Read(storedFavorites);
      if id !in favorites {
        storedFavorites := Some(favorites + [id]);
        favoritesShown := Favorites.Select(championsData[..], Favorites.Read(storedFavorites));
      }
    }

    /** `removeFromFavorites`: the store is written with every occurrence of `id` dropped,
        whether or not it was there, and the panel is redrawn. */
    method RemoveFromFavorites(id: string)
      requires Valid()
      modifies this`storedFavorites, this`favoritesShown
      ensures Valid()
      ensures storedFavorites.Some?
      ensures id !in Favorites.Read(storedFavorites)
      ensures storedFavorites == Some(Favorites.Remove(Favorites.Read(old(storedFavorites)), id))
      ensures favoritesShown == Favorites.Select(championsData[..], Favorites.Read(storedFavorites))
    {
      var favorites := Favorites.Read(storedFavorites);
      storedFavorites := Some(Favorites.Remove(favorites, id));
      favoritesShown := Favorites.Select(championsData[..], Favorites.Read(storedFavorites));
    }

    /** The cards `renderFavorites` would draw now: the records whose identifier is
        stored, in the order of `championsData`. */
    method RenderFavorites() returns (r: seq<Champion>)
      ensures forall c :: c in r <==> c in championsData[..] && c.id in Favorites.Read(storedFavorites)
      ensures Seqs.IsSubseq(r, championsData[..])
    {
      r := Favorites.Select(championsData[..], Favorites.Read(storedFavorites));
      Favorites.SelectKeepsOrder(championsData[..], Favorites.Read(storedFavorites));
    }

    /** `viewChampionDetails`: the first record with the identifier and its radar
        dataset, or nothing when no record has it. */
    method ViewChampionDetails(id: string) returns (d: Option<Details>)
      ensures d.None? <==> forall k :: 0 <= k < championsData.Length ==> championsData[k].id != id
      ensures d.Some? ==> exists k :: FirstWithId(championsData[..], id, k) && d.value.champion == championsData[k]
      ensures d.Some? ==> |d.value.radar| == |RadarAxes|
      ensures d.Some? ==> forall k :: 0 <= k < |RadarAxes| ==>
                d.value.radar[k] == Rating(d.value.champion.info, RadarAxes[k])
    {
      var found := FindById(championsData[..], id);
      match found
      case None => d := None;
      case Some(c) => d := Some(Details(c, RadarData(c.info)));
    }
  }

  /** Reset, sort, then filter: the sort runs on the full record array itself, so the
      full list and the later filter result come out in sort order. None of the three
      redraws the favorites panel, which keeps its old order. */
  method SortAfterReset(h: HeroState, key: SortKey, term: string)
    requires h.Valid()
    modifies h, h.championsData
    ensures h.Valid()
    ensures Sorted(key, h.championsData[..])
    ensures multiset(h.championsData[..]) == old(multiset(h.championsData[..]))
    ensures Sorted(key, h.filteredChampions[..])
    ensures h.favoritesShown == old(h.favoritesShown)
  {
    h.ResetFilters();
    h.SortChampions(key);
    ghost var sorted := h.championsData[..];
    assert Sorted(key, sorted);
    h.FilterChampions(term);
    assert h.championsData[..] == sorted;
    FilterKeepsSorted(key, c => NameMatches(term, c), sorted);
  }

  /** Once the full record list is sorted, the next redraw of the favorites panel (by a
      remove, or by an add that writes) shows the favorites in sort order. */
  method RemoveAfterSort(h: HeroState, key: SortKey, id: string)
    requires h.Valid() && Sorted(key, h.championsData[..])
    modifies h
    ensures h.Valid()
    ensures Sorted(key, h.favoritesShown)
  {
    h.RemoveFromFavorites(id);
    Favorites.SelectKeepsOrder(h.championsData[..], Favorites.Read(h.storedFavorites));
    SubseqKeepsSorted(key, h.favoritesShown, h.championsData[..]);
  }

  /** Sort while the two arrays are one, then reset: the reset does not bring back the
      fetch order, because the full record list itself was sorted. */
  method ResetAfterSort(h: HeroState, key: SortKey)
    requires h.Valid() && h.filteredChampions == h.championsData
    modifies h, h.championsData
    ensures h.Valid()
    ensures h.filteredChampions == h.championsData
    ensures h.filteredChampions[..] == SortSeq(key, old(h.championsData[..]))
    ensures h.currentPage == 1
  {
    h.SortChampions(key);
    h.ResetFilters();
  }

  /** Filter, then sort: the sort runs on the filter's own array, so the full record list
      keeps its order. */
  method SortAfterFilter(h: HeroState, key: SortKey, term: string)
    requires h.Valid()
    modifies h
    ensures h.Valid()
    ensures h.championsData[..] == old(h.championsData[..])
    ensures h.filteredChampions[..] == SortSeq(key, FilterByName(old(h.championsData[..]), term))
  {
    h.FilterChampions(term);
    h.SortChampions(key);
  }
}
