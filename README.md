# newEggBot leaderboard core, modelled in Dafny

This project models the ranking pipeline of the newEggBot sliding-puzzle
leaderboard bot and the selection rules behind three of its chat commands.

- `leaderboard/leaderboard.py`:
  - `get_category_results` keeps the feed results that belong to a ranked
    category, tags each with its category index and sorts them by user.
  - `results_table` builds `user -> row`, where each row holds the user's
    best time per category.
  - `power` scores a row by the tiers its times attain.
  - `sort_table` orders the table by descending power.
  - `format_results_table` lays the table out as `[user, place, power,
    times…]`, with `-1` for an empty slot.
- `leaderboard/commands.py`:
  - `get_move_pb` groups move-count results by `avglen`, keeps the minimum
    of each group and lists them by ascending `avglen` as `single` or
    `ao{k}`.
  - `get_req` lists a tier's thresholds for the categories of one size.
  - `get_pb` reports either per category, with best time, tier and next
    tier, or with a single general time, depending on whether the size is
    ranked.

## Modules

- `Wrappers`: `Option`, `Result` and `Min`.
- `Sorting`: Python's stable `list.sort`/`sorted` with a key, as a stable
  insertion sort. Any stable sort by the same key yields the same list, so
  Timsort and this sort agree. The module proves the result is a
  permutation, sorted, stable and idempotent. `sorted(set(...))` is
  modelled as `SortedSet`.
- `UserOrder`: Python's `str` comparison (lexicographic by code point),
  proved to be a total order.
- `Tiers`: the tier schedule and `result_tier`.
- `Leaderboard`: the pipeline of `leaderboard.py`.
- `Commands`: the rules of `commands.py`.

### Modelling choices

- Inputs passed as parameters:
  - the fetched feed, as `seq<FeedResult>`;
  - the category list, as `seq<Category>`;
  - the tier schedule, as `seq<Tier>` ordered from lowest to highest tier.
- Python dicts keep insertion order, and `sort_table` relies on it. The
  results table is therefore a sequence of `Entry(user, row)` in insertion
  order.
- The dictionary of `get_move_pb` is re-sorted by key before it is read, so
  it is a `map`.
- Loops that build a list or accumulate a value are methods with loop
  invariants. Each is proved equal to a specification function, and the
  lemmas state the properties of those functions. The one exception is
  `get_move_pb` as written: its grouping and emitting loops
  (leaderboard/commands.py:60-66 and 71-78) are the recursive functions
  `GroupAsWritten` and `EmitGrouped`, with no method. They serve only to
  exhibit the `KeyError`, and `EmitGroupedIsEmit` ties the emitting loop to
  the intended report.

## Model

| member | source | states |
|---|---|---|
| Sorting.SortBy | leaderboard/leaderboard.py:66 | the sorted list holds exactly the items of the input (same multiset) |
| Sorting.SortByIsSorted | leaderboard/leaderboard.py:66 | with a total preorder on keys, the result is in non-decreasing key order |
| Sorting.SortByIsStable | leaderboard/leaderboard.py:66 | items with equal keys keep their relative input order (the items of each key form the same subsequence before and after) |
| Sorting.SortByIdempotent | leaderboard/leaderboard.py:114 | sorting an already sorted list by the same key changes nothing |
| Sorting.SortedTiesKeepInputOrder | leaderboard/leaderboard.py:114 | if the input is ordered by a second key, two output items with equal sort keys are still in that order |
| Sorting.SortedSet | leaderboard/leaderboard.py:75 | `sorted(set(xs))` holds each element of the set exactly once, in strictly ascending order |
| UserOrder.LexLeIsTotalOrder | leaderboard/leaderboard.py:66 | Python's string comparison is reflexive, total, transitive and antisymmetric |
| UserOrder.LexLtTransitive | leaderboard/leaderboard.py:75 | strict string order is transitive |
| Tiers.ResultTier | leaderboard/leaderboard.py:106 | a returned tier is one of the schedule's and the time attains it; `None` only for a missing time or a time no tier attains |
| Tiers.ResultTierIsHighest | leaderboard/leaderboard.py:106 | with strictly increasing powers, the returned tier has at least the power of every tier the time attains |
| Tiers.ResultTierMonotone | leaderboard/leaderboard.py:106 | for a fixed category, a faster time lands in a tier of at least the power of a slower time's tier |
| Leaderboard.CategoryIndex | leaderboard/leaderboard.py:59 | `categories.index`: the first index holding the category, and `None` (Python's ValueError) exactly when it is absent |
| Leaderboard.Matching | leaderboard/leaderboard.py:55-63 | a result is kept with index `c` exactly when it is in the feed and its four fields are first found at index `c` |
| Leaderboard.GetCategoryResults | leaderboard/leaderboard.py:48-68 | the filter-then-sort loop returns the kept results sorted by user |
| Leaderboard.MatchingIsSubMultiset | leaderboard/leaderboard.py:53-63 | no feed result is kept more often than the feed holds it |
| Leaderboard.CategoryResultsSpec | leaderboard/leaderboard.py:54-66 | every kept result has a category equal to its fields at the first such index; every matching feed result is kept; the results are a sub-multiset of the feed, sorted by user, and each user's results are in feed order |
| Leaderboard.CategoryResultsMembers | leaderboard/leaderboard.py:55-63 | the sort neither adds nor drops kept results |
| Leaderboard.CategoryResultsInRange | leaderboard/leaderboard.py:59-60 | every attached category index is a valid index into the category list |
| Leaderboard.CategoryResultsIgnoreOrder | leaderboard/leaderboard.py:55-66 | reordering the feed keeps the same set of kept results |
| Leaderboard.InCategoryWhenDistinct | leaderboard/leaderboard.py:56-59 | with distinct categories, a result is filed under `c` exactly when its four fields equal category `c` |
| Leaderboard.BestTimeIsMinimum | leaderboard/leaderboard.py:93-96 | the slot is `None` exactly when the user has no result in the category; otherwise it is a time of one of those results and no greater than any of them |
| Leaderboard.BestTimeIgnoresOrder | leaderboard/leaderboard.py:83-96 | the slot depends only on which results are present, not on their order |
| Leaderboard.BestTimeExample | leaderboard/leaderboard.py:93-96 | times 120 and 95 for one user and category give 95, in either order |
| Leaderboard.TableUsers | leaderboard/leaderboard.py:75 | the users are those of the kept results, each once, in ascending order |
| Leaderboard.FillRow | leaderboard/leaderboard.py:81-96 | the inner loop leaves in slot `c` the user's best time in category `c` |
| Leaderboard.ResultsTable | leaderboard/leaderboard.py:73-101 | the nested loops build the table of every kept user with their best-time row |
| Leaderboard.TableRowsHaveOneSlotPerCategory | leaderboard/leaderboard.py:81 | every row has exactly one slot per category |
| Leaderboard.TableUsersAscend | leaderboard/leaderboard.py:75-79 | the table's users are inserted in strictly ascending username order |
| Leaderboard.KeptResultUsers | leaderboard/leaderboard.py:54-75 | the users of the kept results are exactly the users with a feed result whose four fields name a ranked category |
| Leaderboard.TableFromKeys | leaderboard/leaderboard.py:75-79 | the table built from a list of kept results has one key for each user among them, and no other |
| Leaderboard.TableKeysAreKeptUsers | leaderboard/leaderboard.py:74-79 | the table's keys are exactly the users with a feed result in some category |
| Leaderboard.TableSlotsAreBestTimes | leaderboard/leaderboard.py:83-96 | slot `c` of a user's row is `None` exactly when the feed has no result of that user in category `c`, and otherwise the least such time |
| Leaderboard.KeptBestTimeIsBestTime | leaderboard/leaderboard.py:83-96 | the best time computed over the kept results is the least time of that user's feed results in category `c`, and `None` exactly when there is none |
| Leaderboard.BestRowIgnoresOrder | leaderboard/leaderboard.py:81-96 | two lists holding the same kept results give every user the same row |
| Leaderboard.TableFromIgnoresOrder | leaderboard/leaderboard.py:73-101 | two lists holding the same kept results give the same table |
| Leaderboard.TableOfIgnoresOrder | leaderboard/leaderboard.py:73-101 | shuffling the feed yields the identical table |
| Leaderboard.Power | leaderboard/leaderboard.py:103-110 | the loop returns the sum over the slots of the power of the tier each attains, with 0 where there is none |
| Leaderboard.RowPowerNonNegative | leaderboard/leaderboard.py:103-110 | power is never negative when no tier's power is |
| Leaderboard.RowPowerOfEmptyRow | leaderboard/leaderboard.py:106-108 | a row with no times has power 0 |
| Leaderboard.RowPowerMonotone | leaderboard/leaderboard.py:103-110 | improving or adding times never lowers a row's power |
| Leaderboard.SortTable | leaderboard/leaderboard.py:113-114 | `sort_table` returns the same entries, as many as it was given |
| Leaderboard.SortTableSpec | leaderboard/leaderboard.py:113-114 | `sort_table` returns the same items, with power non-increasing, and items of equal power keep their input order |
| Leaderboard.SortTableIdempotent | leaderboard/leaderboard.py:113-114 | sorting the sorted table again changes nothing |
| Leaderboard.SortTableBreaksTiesByUser | leaderboard/leaderboard.py:113-114 | on a table built by `results_table`, users of equal power are ranked by ascending username |
| Leaderboard.FormatRow | leaderboard/leaderboard.py:123-124 | a row is user, place and power followed by one cell per slot: `-1` for `None`, the time otherwise |
| Leaderboard.FormatRowRoundTrip | leaderboard/leaderboard.py:124 | when times are non-negative, the `-1` sentinel loses nothing: the formatted row reads back to the same user, place, power and slots |
| Leaderboard.FormatResultsTable | leaderboard/leaderboard.py:118-126 | row `k` of the output is the `k`-th item of the sorted table with place `k + 1` and its power |
| Commands.SizeIndices | leaderboard/commands.py:92-93 | the categories of one size are exactly the indices whose width and height match, in increasing index order |
| Commands.UsedSizeHasCategories | leaderboard/commands.py:22-24 | a size is in the used-size set exactly when at least one category has that size |
| Commands.RequirementsSpec | leaderboard/commands.py:92-95 | `get_req` lists, in category order, exactly the categories of the size with `tier["times"][i]`, and fails only when the thresholds do not cover one of them |
| Commands.RequirementsFailureSticks | leaderboard/commands.py:92-95 | an `IndexError` stops the loop: no later category changes the outcome |
| Commands.GetReq | leaderboard/commands.py:92-95 | the loop returns what `Requirements` describes |
| Commands.LabelOf | leaderboard/commands.py:75-78 | the label is `single` exactly when `avglen` is 1, and gives back its `avglen` |
| Commands.MinMovesIsMinimum | leaderboard/commands.py:60-66 | the value left under key `a` is `None` exactly when no result has `avglen == a`, and otherwise the least move count among them |
| Commands.EmitAll | leaderboard/commands.py:71-78 | when every key has a value, line `k` is the label and value of key `k` |
| Commands.SortedAvgLens | leaderboard/commands.py:69 | the keys are the distinct `avglen` values, each once, in strictly ascending order |
| Commands.MovePbsLines | leaderboard/commands.py:68-78 | no key is skipped: line `k` carries the `k`-th smallest `avglen` and its minimum |
| Commands.MovePbsAscending | leaderboard/commands.py:68-71 | the lines come in strictly ascending `avglen` order |
| Commands.MovePbsCoverAvgLens | leaderboard/commands.py:59-73 | there is exactly one line per distinct `avglen` among the results |
| Commands.MovePbsAreMinima | leaderboard/commands.py:60-78 | each line carries the least move count for its `avglen`, and is `single` exactly when that `avglen` is 1 |
| Commands.MovePbsExample | leaderboard/commands.py:59-78 | singles of 40 and 38 moves and an ao5 of 42 give `single: 38`, `ao5: 42` |
| Commands.GroupMoves | leaderboard/commands.py:59-66 | the grouping loop leaves one key per distinct `avglen`, holding the minimum of that group |
| Commands.GetMovePb | leaderboard/commands.py:59-80 | the move report is the list of per-`avglen` minima in ascending `avglen` order |
| Commands.GroupAsWritten | leaderboard/commands.py:59-66 | the grouping loop as written, from a given dictionary: it gets through exactly when every `avglen` is already a key, never adds a key, and otherwise fails on an `avglen` the dictionary lacks |
| Commands.EmitGrouped | leaderboard/commands.py:68-78 | at most as many lines as there are keys, and each line is the label and stored value of one of the keys |
| Commands.EmitGroupedIsEmit | leaderboard/commands.py:71-78 | when every key holds its group's minimum, the emitting loop gives the intended report: one line per key whose value is not `None`, in ascending key order |
| Commands.MovePbsAsWritten | leaderboard/commands.py:59-78 | `get_move_pb` as written, given the fetched list: it gets through only an empty list, with no lines, and otherwise fails with `KeyError` on one of the list's `avglen` values |
| Commands.MovePbsAsWrittenFailsOnAnyResult | leaderboard/commands.py:59-63 | as written, the grouping loop raises `KeyError` on the first result: given the fetched list, it gets through only an empty one, though the intended report then has a line |
| Commands.LineFor | leaderboard/commands.py:25-33 | the line for category `i` carries `category_pb`'s time; its tier is one of the schedule's and is attained by that time, and there is no tier exactly when there is no time or no tier is attained by it; the next tier is `get_next_tier` of that tier |
| Commands.LineForTierIsHighest | leaderboard/commands.py:25-29 | with tiers in increasing power, the tier on a category's line has at least the power of every tier the best time attains |
| Commands.GetPb | leaderboard/commands.py:22-44 | the per-category branch is taken exactly for used sizes, and it visits exactly the categories of that size in index order; other sizes get the single general time |

## Left out

- `get_leaderboard` (leaderboard/leaderboard.py:8-43): the HTTP request,
  the environment-variable URL and the parsing of the response text are
  network I/O. The parsed result list is an input.
- `latest_from_db` (leaderboard/leaderboard.py:129-132) and
  `db.latest_results`: the key/value store and its serialiser are outside
  the model.
- `rank` and `update` (leaderboard/commands.py:100-109): they only call
  `ranking`, `tiers.power_tier` and `update`, which are not part of this
  model.
- keep_alive.py: a web server started on a thread.
- `names.find_username`: the username is taken as already resolved.
- Message text: the text the commands build is not modelled. This covers
  the f-strings, code fences, time and move formatting, category names,
  tier names and requirement messages. The commands return the data their
  messages list, in the same order. A move-report label is `Single` or
  `Ao(k)` rather than the string `ao{k}`.
- The fetch of `get_move_pb` (leaderboard/commands.py:54) passes
  `pbtype="move"`, a keyword `get_leaderboard` (leaderboard/leaderboard.py:8)
  does not accept, so as written the command raises `TypeError` before its
  grouping loop, and `get_leaderboard` asks for `"pbtype": "time"` in any
  case (leaderboard/leaderboard.py:16). The fetch is network I/O outside the
  model: the move commands start from the fetched list, and the claims about
  the command as written cover its grouping loop only.
- leaderboard/tiers.py is not part of this model:
  - `result_tier` is taken to return the highest tier whose threshold for
    the category is at or above the time, with the schedule listed from
    lowest to highest tier;
  - `get_tier` (tier lookup by name) is replaced by passing the tier itself
    to `Commands.GetReq`.
- leaderboard/commands_helper.py is not part of this model:
  - `category_pb`, `general_pb` and `get_next_tier` are function
    parameters of `Commands.GetPb`;
  - `get_tier_name` and `get_requirement_message` only build text;
  - `get_used_sizes` is taken to be the set of the categories' sizes
    (`Commands.UsedSizes`).
- leaderboard/categories.py is not part of this model:
  - the category list is a parameter;
  - `categories.index` compares a result's four fields with each entry,
    assuming category entries hold exactly those four fields.
- Leaderboard.GetCategoryResults: the source writes the category index
  into the fetched result dicts in place (leaderboard/leaderboard.py:60).
  Here each kept result becomes a new `CategorisedResult` pair, so the
  aliasing with the caller's records is not modelled.
- Leaderboard.FillRow: the inner loop of `results_table` is a method of
  its own that `ResultsTable` calls. The row list is a sequence replaced
  slot by slot rather than a list mutated in place.
- Commands.GroupMoves: the grouping loop of `get_move_pb` is likewise a
  method that `GetMovePb` calls. The `v is None` skip of
  leaderboard/commands.py:72-73 is kept in `GetMovePb`; with integer move
  counts it never fires.
- Commands.GetReq: an `IndexError` from a threshold list shorter than the
  category list is a `Failure`, not an exception.
- Leaderboard.CategoryIndex: the `ValueError` raised by `list.index` is
  `None`.

## Findings

| source | as written | input that shows it | evidently intended | confidence | as-written member | corrected member |
|---|---|---|---|---|---|---|
| leaderboard/commands.py:63 | `results[avglen] is None` indexes the dict built from `{}`, so the first lookup of every key raises `KeyError` | given the fetched list, any non-empty one, e.g. one result with `avglen` 1 and 40 moves: `KeyError(1)` instead of `single: 40` | a key not yet present reads as `None` (`results.get(avglen)`), and the loop keeps the minimum per `avglen` | not executed | Commands.MovePbsAsWrittenFailsOnAnyResult | Commands.GetMovePb |
