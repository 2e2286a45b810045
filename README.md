# Champion catalog viewer — Dafny model

This project models the logic of `hero.js`, the script behind a browser page that lists
League of Legends champions. The page fetches the champion records once. It shows them
ten to a page, with a bar of at most five page buttons between Previous and Next. It can
filter the records by name, sort them by name or by one of four ratings, and reset the
view. It keeps a list of favorite champion identifiers in the browser's key-value store.
It can also show one champion's details with a radar chart of its ratings.

The script's module-level variables become the fields of one class, `Hero.HeroState`:

- `championsData` and `filteredChampions` are `array<Champion>` fields;
- `currentPage` and `currentPaginationStart` are integers;
- the `favorites` entry of the key-value store is `storedFavorites: Option<seq<string>>`,
  where `None` stands for a missing key.

Each event handler is a method of that class. Each rendering step is a method that only
reads the state and returns what would be drawn. The pure parts of the script are
functions, each in its own module:

- `Pagination`: the page slice, the button window, and the Previous/Next/page formulas;
- `Champions`: the name filter, the lookup by identifier, the radar data;
- `Sorting`: the sort order, plus a functional insertion sort that specifies the in-place
  sort;
- `Favorites`: the stored list and its add, remove and select operations;
- `Seqs` and `Text`: generic `filter` and the string helpers.

The arrays keep the script's aliasing. After a fetch or a reset, `filteredChampions` is
the same array as `championsData`. A sort then reorders `championsData` too. The model
does not fix the script's quirks; it proves them:

- Previous and Next set `currentPage = (start - 1) * 5 + 1`. So after landing on a window
  start of 2 or more, no page button is marked active (`Pagination.NoActiveAfterWindowMove`).
- A click on page button `i` sets `currentPage = (i - 1) * 10 + 1`. That is a record
  position, not a page number, so the click shows records from `(i - 1) * 100` on
  (`Pagination.ClickPageFirstRecord`).
- Without its guard, Next's `Math.min` clamp falls below 1 when there are fewer than five
  pages (`Pagination.NextStartBelowOne`). The disabled condition always holds in that case
  (`Pagination.NextDisabledWithFewPages`). The handler takes that condition as its
  precondition.
- One might expect filtering to discard an earlier sort. That fails after a sort made
  right after a fetch or a reset: the filter then works on already sorted records
  (`Hero.SortAfterReset`). Filtering first and then sorting does leave the full list alone
  (`Hero.SortAfterFilter`).
- One might expect a reset to restore the fetch order. It does not after such a sort, for
  the same reason (`Hero.ResetAfterSort`).
- Only the fetch, an add that writes, and a remove redraw the favorites panel (hero.js:17,
  177, 185). So after a sort that reorders `championsData`, the panel keeps its old order
  until the next such redraw (`Hero.SortAfterReset`, `Hero.RemoveAfterSort`).
- One might expect the current page to always be the first page of the window. The code
  does not keep that (see the page-click quirk). The class invariant `Valid()` keeps only
  what the code keeps: both counters are at least 1, and the filtered records are a
  sub-multiset of the full list.

## Model

| member | source | states |
|---|---|---|
| `Seqs.Filter` | hero.js:148 | the result is no longer than the input, holds exactly the elements that satisfy the predicate, and is a sub-multiset of the input |
| `Seqs.FilterIsSubseq` | hero.js:148 | a filter keeps the relative order of what it keeps |
| `Seqs.FilterAll` | hero.js:148 | a predicate true of every element keeps the whole sequence |
| `Seqs.FilterAgree` | hero.js:148 | predicates that agree on every element give the same filter result |
| `Seqs.FilterAppend` | hero.js:183 | filtering a concatenation is the concatenation of the filtered parts |
| `Seqs.FilterNoDuplicates` | hero.js:183 | filtering a duplicate-free list gives a duplicate-free list |
| `Seqs.SubseqMembers` | hero.js:193 | a subsequence holds only elements of the sequence |
| `Text.LowerChar` | hero.js:147 | 'A'+k becomes 'a'+k; every other character is unchanged |
| `Text.Lower` | hero.js:147-148 | lower-casing maps each character by `LowerChar`, keeps the length, and leaves no upper-case character |
| `Text.LowerIdempotent` | hero.js:147-148 | lower-casing twice equals lower-casing once |
| `Text.Includes` | hero.js:148 | `includes` holds whenever the term is a prefix, and only when the term is no longer than the string |
| `Text.IncludesEmpty` | hero.js:148 | every string includes the empty string |
| `Text.IncludesAt` | hero.js:148 | `includes` holds exactly when the term occurs at some index |
| `Text.LexLe` | hero.js:164 | the stand-in for `localeCompare(...) <= 0`; a prefix of a name sorts before it |
| `Text.LexLeReflexive` | hero.js:164 | every name compares equal to itself |
| `Text.LexLeTotal` | hero.js:164 | any two names are comparable |
| `Text.LexLeTransitive` | hero.js:164 | the name order is transitive |
| `Text.LexLeAntisymmetric` | hero.js:164 | names that compare equal both ways are equal |
| `Champions.RadarData` | hero.js:112-116 | the radar dataset has one value per labelled axis, and the k-th value is the rating on the k-th axis |
| `Champions.NameMatches` | hero.js:147-148 | the filter's test: the lower-cased name includes the lower-cased term |
| `Champions.FilterByName` | hero.js:146-148 | the filter result holds exactly the records of `championsData` whose lower-cased name includes the lower-cased term, and only records of it |
| `Champions.FilterByNameKeepsOrder` | hero.js:148 | the filter result is in `championsData` order |
| `Champions.FilterByNameEmptyTerm` | hero.js:147-148 | the empty term keeps every record, in order |
| `Champions.FilterByNameIgnoresCase` | hero.js:147-148 | lower-casing the term first gives the same filter result: the search ignores the term's case |
| `Champions.FindById` | hero.js:96 | `find` gives nothing exactly when no record has the identifier; otherwise it gives the first record that has it |
| `Sorting.Before` | hero.js:163-166 | the order both comparators impose: ascending name, or non-increasing rating |
| `Sorting.BeforeIsComparator` | hero.js:164-166 | `Before` is exactly a comparator result of at most 0: the name comparison, or `b.info[k] - a.info[k] <= 0`, which is descending order |
| `Sorting.BeforeTotal` | hero.js:163-166 | under either comparator, any two records are ordered one way or the other |
| `Sorting.BeforeTransitive` | hero.js:163-166 | both comparators are transitive |
| `Sorting.Insert` | hero.js:164-166 | stable insertion of one record: it adds exactly one element (its order and content are stated by `InsertPermutes` and `InsertSorted`) |
| `Sorting.SortSeq` | hero.js:161-167 | the functional stable sort that every sort contract is stated against; it keeps the length (sortedness and permutation are `SortSeqSortedPermutation`) |
| `Sorting.InsertPermutes` | hero.js:164-166 | inserting adds exactly one occurrence of the inserted record |
| `Sorting.InsertSorted` | hero.js:164-166 | inserting into a sorted list keeps it sorted |
| `Sorting.SortSeqSortedPermutation` | hero.js:161-167 | the sorted list is a permutation of the input and is ascending by name or non-increasing in the chosen rating |
| `Sorting.SortSeqOfSorted` | hero.js:161-167 | sorting an already sorted list leaves it unchanged |
| `Sorting.SortSeqIdempotent` | hero.js:161-167 | sorting twice by the same key equals sorting once |
| `Sorting.SubseqKeepsSorted` | hero.js:193 | every order-preserving sublist of a sorted list is sorted |
| `Sorting.FilterKeepsSorted` | hero.js:148 | filtering a sorted list gives a sorted list |
| `Sorting.InsertStep` | hero.js:164-166 | one leftward move of the inserted record matches one unfolding of the insertion |
| `Sorting.SwapLeft` | hero.js:164-166 | swapping the inserted record with its left neighbour moves it one place left in the layout |
| `Sorting.SortSeqExtend` | hero.js:164-166 | sorting one more element inserts it into the sorted prefix |
| `Sorting.InsertInPlace` | hero.js:164-166 | moving `a[i]` left into the sorted prefix leaves the array equal to the functional insertion, and the rest untouched |
| `Sorting.InsertionSort` | hero.js:164-166 | the in-place sort leaves the array equal to the functional sort of its old contents |
| `Pagination.TotalPages` | hero.js:57 | the page count is the least count of ten-record pages that covers every record |
| `Pagination.SliceIndex` | hero.js:28 | a slice bound resolves into `[0, len]`, and a non-negative bound is clamped to the length |
| `Pagination.JsSlice` | hero.js:28 | the slice holds exactly the elements from the resolved begin up to the resolved end, or none when they cross |
| `Pagination.PageSlice` | hero.js:26-28 | for a page of at least 1: at most ten records; none once the start index reaches the length; otherwise exactly the records from `(page-1)*10` up to `min(page*10, len)` |
| `Pagination.WindowEnd` | hero.js:71 | the last button of the window is `min(start + 4, totalPages)` |
| `Pagination.IsDrawn` | hero.js:71 | page `i` is drawn exactly when the loop condition admits it |
| `Pagination.ButtonCount` | hero.js:71 | at most five buttons; none when the window start is past the last page; page `i` is drawn exactly when it lies in `[start, start + count)` |
| `Pagination.PrevDisabled` | hero.js:63 | Previous is disabled exactly at window start 1 |
| `Pagination.NextDisabled` | hero.js:86 | Next is disabled exactly when `start + 5 > totalPages` |
| `Pagination.PrevStart` | hero.js:65 | the new window start stays at least 1, never grows, and is exactly `start - 1` when Previous is enabled |
| `Pagination.NextStart` | hero.js:88 | the new window start is at most `start + 1` and at most `total - 4`; when Next is enabled it is exactly `start + 1` and the new window still fits |
| `Pagination.WindowPage` | hero.js:66 | the page set by Previous and Next is at least 1 for a positive window start |
| `Pagination.ClickPage` | hero.js:75 | the page set by a click on a positive button is at least 1 |
| `Pagination.IsActive` | hero.js:78 | button `i` is active exactly when `(i-1)*10+1 == currentPage` |
| `Pagination.ActiveUnique` | hero.js:78 | two active buttons are the same button |
| `Pagination.ClickedIsActive` | hero.js:74-79 | the clicked button is the one and only active button |
| `Pagination.NextStartBelowOne` | hero.js:88 | with fewer than five pages, the unguarded clamp gives a window start below 1 |
| `Pagination.NextDisabledWithFewPages` | hero.js:86 | with fewer than five pages and a positive start, Next is disabled |
| `Pagination.NoActiveAfterWindowMove` | hero.js:66 | after Previous or Next lands on a start of 2 or more, no button drawn is active |
| `Pagination.ClickPageFirstRecord` | hero.js:75 | after a click on button `i`, the first record shown is record `(i-1)*100` |
| `Favorites.Read` | hero.js:173 | a missing key reads as the empty list; otherwise the stored list is returned |
| `Favorites.Add` | hero.js:174-175 | the identifier ends up in the list; the list is unchanged if it was there, and extended by exactly it otherwise |
| `Favorites.Remove` | hero.js:183 | the identifier is absent afterwards, and every other identifier keeps its membership |
| `Favorites.Select` | hero.js:193 | the rendered favorites are exactly the records whose identifier is in the list |
| `Favorites.SelectKeepsOrder` | hero.js:193 | the rendered favorites are in `championsData` order |
| `Favorites.AddNoDuplicates` | hero.js:174-175 | adding never introduces a duplicate |
| `Favorites.AddTwice` | hero.js:174 | adding twice equals adding once |
| `Favorites.AddOccursOnce` | hero.js:174-175 | an absent identifier occurs exactly once after one or two additions |
| `Favorites.RemoveNoDuplicates` | hero.js:183 | removing never introduces a duplicate |
| `Favorites.RemoveAbsent` | hero.js:183 | removing an absent identifier changes nothing |
| `Favorites.RemoveAfterAdd` | hero.js:172-185 | add then remove equals remove alone, and gives back a list that lacked the identifier |
| `Hero.HeroState.constructor` | hero.js:1-6 | the page loads with two distinct empty arrays, page 1, window start 1, and whatever the store holds |
| `Hero.HeroState.FetchSucceeded` | hero.js:13-17 | after a fetch, both fields refer to one new array holding the records, and the favorites panel shows the stored favorites among them; nothing else changes |
| `Hero.HeroState.RenderChampions` | hero.js:22-28 | the cards drawn are at most ten, none past the end, else exactly `filteredChampions[(currentPage-1)*10 .. min(currentPage*10, len))` |
| `Hero.HeroState.RenderPagination` | hero.js:56-92 | Previous is disabled iff the start is 1; Next is disabled iff `start + 5 > totalPages`; the buttons are exactly the pages `start, start+1, …` of the window, each marked active iff `(i-1)*10+1 == currentPage` |
| `Hero.HeroState.PreviousClicked` | hero.js:63-66 | an enabled Previous moves the window start to `max(1, start-1)`, which is `start-1`, and sets `currentPage = (start'-1)*5+1` |
| `Hero.HeroState.NextClicked` | hero.js:86-89 | an enabled Next moves the window start to the clamp value, which is `start+1`; the window still fits, and `currentPage = (start'-1)*5+1` |
| `Hero.HeroState.PageClicked` | hero.js:74-75 | a click on a drawn button `i` sets `currentPage = (i-1)*10+1`, and makes `i` the only active button |
| `Hero.HeroState.FilterChampions` | hero.js:146-150 | the filtered field is a fresh array holding the name filter of `championsData`; `championsData` is untouched; page 1; window start unchanged |
| `Hero.HeroState.ResetFilters` | hero.js:153-158 | the filtered field becomes `championsData` itself; page 1 |
| `Hero.HeroState.SortChampions` | hero.js:161-170 | the filtered array is sorted in place into a sorted permutation of itself; `championsData` takes the same order exactly when it is that array; page 1 |
| `Hero.HeroState.AddToFavorites` | hero.js:172-179 | the stored list gains the identifier when it lacks it and the panel is redrawn; otherwise neither changes; afterwards the identifier is stored |
| `Hero.HeroState.RemoveFromFavorites` | hero.js:181-186 | the store is always written, with every occurrence of the identifier dropped, and the panel is redrawn |
| `Hero.HeroState.RenderFavorites` | hero.js:188-198 | the favorites drawn are exactly the records whose identifier is stored, in `championsData` order |
| `Hero.HeroState.ViewChampionDetails` | hero.js:95-116 | nothing when no record has the identifier; otherwise the first record with it, whose radar data has one value per axis, equal to its rating on that axis |
| `Hero.SortAfterReset` | hero.js:150-169 | reset, sort, filter: the full list and the filter result come out sorted, the full list is a permutation of what it was, and the favorites panel is not redrawn |
| `Hero.RemoveAfterSort` | hero.js:181-198 | once `championsData` is sorted, the next remove redraws the favorites panel in sort order |
| `Hero.ResetAfterSort` | hero.js:153-170 | sorting while aliased and then resetting gives the sorted list, not the fetch order |
| `Hero.SortAfterFilter` | hero.js:146-170 | filter then sort: the full list keeps its order, and the view is the sorted filter result |

## Left out

- The fetch and its `.then`/`.catch` chain: network I/O and asynchrony. Only the effect of
  success is modelled, by `FetchSucceeded`. A failed fetch only logs, and the state stays
  as it was loaded.
- `Object.values(data.data)`: the order of the fetched records is whatever the caller of
  `FetchSucceeded` supplies.
- `JSON.parse`/`JSON.stringify` of the stored favorites: serialization. A malformed stored
  value makes the script throw; that is not modelled. Only a missing key is modelled as
  reading the empty list.
- Building the DOM: `createChampionCard`, the HTML templates, the splash image URL, button
  texts, the modal's show/hide and its dismissal handler. Rendering is modelled only as the
  values that would be drawn.
- The Chart.js radar chart. Only its dataset is modelled, as `Champions.RadarData`.
- Redrawing: the card list and the pagination bar are not stored. Every handler that
  changes the page, the window or the filtered records redraws both (hero.js:15-16, 35,
  67, 76, 90, 150, 158, 169). They are therefore `RenderChampions` and `RenderPagination`
  applied to the current state. The favorites panel is the field `favoritesShown`, written
  only by `FetchSucceeded`, by an `AddToFavorites` that writes, and by
  `RemoveFromFavorites` (hero.js:17, 177, 185).
- `Text.Lower`: an ASCII stand-in for Unicode `toLowerCase`; only 'A'..'Z' are mapped.
- `Text.LexLe`: ordinal (code-point) lexicographic order stands in for the
  locale-dependent `localeCompare`. JavaScript's own ordinal order is over UTF-16 code
  units, which differs from code-point order only for characters outside the Basic
  Multilingual Plane.
- `Sorting.InsertionSort`: the engine's `Array.prototype.sort` is modelled as a stable
  insertion sort. Stability itself is not stated as a property.
- `Hero.HeroState.PreviousClicked` and `Hero.HeroState.NextClicked`: each requires its
  button to be enabled. A disabled button never runs its handler.
- `Hero.HeroState.PageClicked`: requires `i` to be a button of the current window, since
  only drawn buttons have the handler.
- `Math.ceil` over a floating-point division is modelled as integer ceiling division.
- Arbitrary `sortSelect` values: only "name" and the four rating names exist. With any
  other value the script's comparator returns `NaN`.
