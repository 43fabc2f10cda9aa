/**
  The ranking pipeline of leaderboard/leaderboard.py: keep the results that
  belong to a ranked category, build the table of each user's best time per
  category, score each row by the power of the tiers it attains, sort the
  table by power and lay it out as rows of cells.

  The raw result list that the source fetches over the network is a
  parameter here, and so are the category list and the tier schedule that
  the source reads from its `categories` and `tiers` modules.
*/
module Leaderboard {
  import opened Wrappers
  import opened Sorting
  import opened UserOrder
  import opened Tiers

  /** A ranked puzzle configuration; two categories are the same when all four fields are. */
  datatype Category = Category(width: int, height: int, solveType: string, avgLen: int)

  /** One record of the external leaderboard feed. */
  datatype FeedResult = FeedResult(
    width: int, height: int, solveType: string, displayType: string, user: string,
    time: int, moves: int, tps: int, avgLen: int, controls: string, pbType: string,
    timestamp: int)

  /** A kept result together with the index of its category. */
  datatype CategorisedResult = CategorisedResult(result: FeedResult, category: nat)

  /** One slot per category: the user's best time there, or `None`. */
  type Row = seq<Option<int>>

  /** One `user: row` item of the results table (a dict that keeps insertion order). */
  datatype Entry = Entry(user: string, row: Row)

  /** An element of a formatted row: the username, or a number. */
  datatype Cell = Name(name: string) | Num(value: int)

  /** The four fields of a result that identify its category. */
  function CategoryKey(r: FeedResult): Category
  {
    Category(r.width, r.height, r.solveType, r.avgLen)
  }

  /** `categories.index(c)`: the first index holding `c`, or `None` where Python raises ValueError. */
  function CategoryIndex(cats: seq<Category>, c: Category): (r: Option<nat>)
    ensures r.Some? ==> r.value < |cats| && cats[r.value] == c
    ensures r.Some? ==> forall j :: 0 <= j < r.value ==> cats[j] != c
    ensures r.None? <==> c !in cats
  {
    if cats == [] then None
    else if cats[0] == c then Some(0)
    else
      match CategoryIndex(cats[1..], c)
      case None => None
      case Some(i) => Some(i + 1)
  }

  /** `r` is filed under category `c`. */
  predicate InCategory(cats: seq<Category>, r: FeedResult, c: nat)
  {
    CategoryIndex(cats, CategoryKey(r)) == Some(c)
  }

  function ResultOf(t: CategorisedResult): FeedResult
  {
    t.result
  }

  function UserOf(t: CategorisedResult): string
  {
    t.result.user
  }

  /** The results of `lb` that belong to a category, tagged with its index, in input order. */
  function Matching(cats: seq<Category>, lb: seq<FeedResult>): (rs: seq<CategorisedResult>)
    ensures forall t :: t in rs <==> t.result in lb && InCategory(cats, t.result, t.category)
  {
    if lb == [] then []
    else
      var r := lb[|lb| - 1];
      var prev := Matching(cats, lb[..|lb| - 1]);
      assert forall x :: x in lb <==> x in lb[..|lb| - 1] || x == r;
      match CategoryIndex(cats, CategoryKey(r))
      case None => prev
      case Some(i) => prev + [CategorisedResult(r, i)]
  }

  /** What `get_category_results` returns for the fetched list `lb`. */
  function CategoryResults(cats: seq<Category>, lb: seq<FeedResult>): seq<CategorisedResult>
  {
    SortBy(Matching(cats, lb), UserOf, LexLe)
  }

  /**
    `get_category_results`: keeps the results whose category is in `cats`,
    tags each with its category index, and sorts them by username.
  */
  method GetCategoryResults(cats: seq<Category>, lb: seq<FeedResult>) returns (filtered: seq<CategorisedResult>)
    ensures filtered == CategoryResults(cats, lb)
  {
    filtered := [];
    for k := 0 to |lb|
      invariant filtered == Matching(cats, lb[..k])
    {
      assert lb[..k + 1][..k] == lb[..k];
      var result := lb[k];
      var resultCategory := CategoryKey(result);
      var index := CategoryIndex(cats, resultCategory);
      if index.None? {
        continue;
      }
      filtered := filtered + [CategorisedResult(result, index.value)];
    }
    assert lb[..|lb|] == lb;
    filtered := SortBy(filtered, UserOf, LexLe);
  }

  lemma {:induction false} MatchingIsSubMultiset(cats: seq<Category>, lb: seq<FeedResult>)
    ensures multiset(MapSeq(Matching(cats, lb), ResultOf)) <= multiset(lb)
  {
    if lb != [] {
      var init := lb[..|lb| - 1];
      MatchingIsSubMultiset(cats, init);
      assert lb == init + [lb[|lb| - 1]];
      var prev := Matching(cats, init);
      match CategoryIndex(cats, CategoryKey(lb[|lb| - 1]))
      case None =>
      case Some(i) =>
        MapSeqConcat(prev, [CategorisedResult(lb[|lb| - 1], i)], ResultOf);
        assert MapSeq([CategorisedResult(lb[|lb| - 1], i)], ResultOf) == [lb[|lb| - 1]];
    }
  }

  /**
    What the filter keeps: exactly the results whose four category fields
    equal some category, each tagged with the first index holding them,
    none more often than the input holds it, sorted by username, and with
    the results of each user in their input order.
  */
  lemma CategoryResultsSpec(cats: seq<Category>, lb: seq<FeedResult>)
    ensures forall t :: t in CategoryResults(cats, lb) ==>
      t.result in lb && t.category < |cats| && cats[t.category] == CategoryKey(t.result) &&
      forall j :: 0 <= j < t.category ==> cats[j] != CategoryKey(t.result)
    ensures forall r :: r in lb && CategoryKey(r) in cats ==>
      CategorisedResult(r, CategoryIndex(cats, CategoryKey(r)).value) in CategoryResults(cats, lb)
    ensures multiset(MapSeq(CategoryResults(cats, lb), ResultOf)) <= multiset(lb)
    ensures SortedBy(CategoryResults(cats, lb), UserOf, LexLe)
    ensures forall u :: Filter(CategoryResults(cats, lb), UserOf, u) == Filter(Matching(cats, lb), UserOf, u)
  {
    var rs := CategoryResults(cats, lb);
    var m := Matching(cats, lb);
    forall t | t in rs ensures t in m {
      assert t in multiset(rs);
    }
    forall r | r in lb && CategoryKey(r) in cats
      ensures CategorisedResult(r, CategoryIndex(cats, CategoryKey(r)).value) in rs
    {
      var t := CategorisedResult(r, CategoryIndex(cats, CategoryKey(r)).value);
      assert t in m;
      assert t in multiset(m);
    }
    MatchingIsSubMultiset(cats, lb);
    SortByMapped(m, UserOf, LexLe, ResultOf);
    LexLeIsTotalOrder();
    SortByIsSorted(m, UserOf, LexLe);
    forall u ensures Filter(rs, UserOf, u) == Filter(m, UserOf, u) {
      SortByIsStable(m, UserOf, LexLe, u);
    }
  }

  /** With distinct categories, a result is filed under `c` exactly when its fields equal `cats[c]`. */
  lemma InCategoryWhenDistinct(cats: seq<Category>, r: FeedResult, c: nat)
    requires forall i, j :: 0 <= i < j < |cats| ==> cats[i] != cats[j]
    ensures InCategory(cats, r, c) <==> c < |cats| && cats[c] == CategoryKey(r)
  {
    if c < |cats| && cats[c] == CategoryKey(r) {
      assert CategoryKey(r) in cats;
    }
  }

  /** `t` is one of `user`'s results in category `c`. */
  predicate InGroup(t: CategorisedResult, user: string, c: nat)
  {
    t.result.user == user && t.category == c
  }

  /**
    The slot that the loop over `rs` leaves in `user`'s row for category
    `c`: set by the first result of the group, lowered to the minimum by
    each later one.
  */
  function BestTime(rs: seq<CategorisedResult>, user: string, c: nat): Option<int>
  {
    if rs == [] then None
    else
      var prev := BestTime(rs[..|rs| - 1], user, c);
      var t := rs[|rs| - 1];
      if !InGroup(t, user, c) then prev
      else
        match prev
        case None => Some(t.result.time)
        case Some(best) => Some(Min(best, t.result.time))
  }

  /** `best` is the least time of `user`'s results in category `c` among `rs`, and `None` exactly when there are none. */
  ghost predicate IsGroupMinimum(rs: seq<CategorisedResult>, user: string, c: nat, best: Option<int>)
  {
    && (best.None? <==> forall t :: t in rs ==> !InGroup(t, user, c))
    && (best.Some? ==> exists t :: t in rs && InGroup(t, user, c) && t.result.time == best.value)
    && (best.Some? ==> forall t :: t in rs && InGroup(t, user, c) ==> best.value <= t.result.time)
  }

  /** The loop's running minimum ends at the minimum of the group, as `min` over a list would. */
  lemma {:induction false} BestTimeIsMinimum(rs: seq<CategorisedResult>, user: string, c: nat)
    ensures IsGroupMinimum(rs, user, c, BestTime(rs, user, c))
  {
    if rs != [] {
      var init := rs[..|rs| - 1];
      BestTimeIsMinimum(init, user, c);
      assert forall x :: x in rs <==> x in init || x == rs[|rs| - 1];
    }
  }

  /** The best time of a group depends only on which results are present, not on their order. */
  lemma BestTimeIgnoresOrder(rs1: seq<CategorisedResult>, rs2: seq<CategorisedResult>, user: string, c: nat)
    requires forall t :: t in rs1 <==> t in rs2
    ensures BestTime(rs1, user, c) == BestTime(rs2, user, c)
  {
    BestTimeIsMinimum(rs1, user, c);
    BestTimeIsMinimum(rs2, user, c);
    var b1, b2 := BestTime(rs1, user, c), BestTime(rs2, user, c);
    if b1.Some? && b2.Some? {
      var t1 :| t1 in rs1 && InGroup(t1, user, c) && t1.result.time == b1.value;
      var t2 :| t2 in rs2 && InGroup(t2, user, c) && t2.result.time == b2.value;
      assert b2.value <= b1.value && b1.value <= b2.value;
    }
  }

  /** Two results of one user in one category, 120 and then 95: the slot keeps 95. */
  lemma BestTimeExample(t1: CategorisedResult, t2: CategorisedResult, user: string, c: nat)
    requires InGroup(t1, user, c) && InGroup(t2, user, c)
    requires t1.result.time == 120 && t2.result.time == 95
    ensures BestTime([t1, t2], user, c) == Some(95)
    ensures BestTime([t2, t1], user, c) == Some(95)
  {
    assert [t1, t2][..1] == [t1] && [t2, t1][..1] == [t2];
    assert [t1][..0] == [] && [t2][..0] == [];
    assert BestTime([t1], user, c) == Some(120);
    assert BestTime([t2], user, c) == Some(95);
  }

  /** A row of `n` slots, each holding `user`'s best time in that category. */
  function BestRow(rs: seq<CategorisedResult>, user: string, n: nat): Row
  {
    seq(n, c requires 0 <= c < n => BestTime(rs, user, c))
  }

  function UsersIn(rs: seq<CategorisedResult>): set<string>
  {
    set t | t in rs :: t.result.user
  }

  function EntryUser(e: Entry): string
  {
    e.user
  }

  /** `sorted(set(x["user"] for x in results))`: each user once, in ascending order. */
  function TableUsers(rs: seq<CategorisedResult>): (users: seq<string>)
    ensures forall u :: u in users <==> u in UsersIn(rs)
    ensures StrictlyAscending(users, LexLe)
  {
    LexLeIsTotalOrder();
    SortedSet(UsersIn(rs), LexLe)
  }

  /** The table built from the kept results `rs`, with `n` slots per row. */
  function TableFrom(rs: seq<CategorisedResult>, n: nat): seq<Entry>
  {
    var users := TableUsers(rs);
    seq(|users|, k requires 0 <= k < |users| => Entry(users[k], BestRow(rs, users[k], n)))
  }

  /** The table `results_table` returns for the fetched list `lb`. */
  function TableOf(cats: seq<Category>, lb: seq<FeedResult>): seq<Entry>
  {
    TableFrom(CategoryResults(cats, lb), |cats|)
  }

  lemma CategoryResultsMembers(cats: seq<Category>, lb: seq<FeedResult>)
    ensures forall t :: t in CategoryResults(cats, lb) <==> t.result in lb && InCategory(cats, t.result, t.category)
  {
    var m := Matching(cats, lb);
    forall t ensures t in CategoryResults(cats, lb) <==> t in m {
      assert t in CategoryResults(cats, lb) <==> t in multiset(CategoryResults(cats, lb));
    }
  }

  lemma CategoryResultsInRange(cats: seq<Category>, lb: seq<FeedResult>)
    ensures forall t :: t in CategoryResults(cats, lb) ==> t.category < |cats|
  {
    CategoryResultsMembers(cats, lb);
  }

  /** Reordering the feed keeps the same kept results. */
  lemma CategoryResultsIgnoreOrder(cats: seq<Category>, lb1: seq<FeedResult>, lb2: seq<FeedResult>)
    requires multiset(lb1) == multiset(lb2)
    ensures forall t :: t in CategoryResults(cats, lb1) <==> t in CategoryResults(cats, lb2)
  {
    CategoryResultsMembers(cats, lb1);
    CategoryResultsMembers(cats, lb2);
    forall r: FeedResult ensures r in lb1 <==> r in lb2 {
      assert r in lb1 <==> r in multiset(lb1);
      assert r in lb2 <==> r in multiset(lb2);
    }
  }

  /**
    The inner loop of `results_table`: a row of `n` empty slots, filled from
    `user`'s results, each slot taking the first time seen and then the
    minimum of it and every later time for that category.
  */
  method FillRow(results: seq<CategorisedResult>, user: string, n: nat) returns (row: Row)
    requires forall t :: t in results ==> t.category < n
    ensures row == BestRow(results, user, n)
  {
    row := seq(n, _ => None);
    for j := 0 to |results|
      invariant |row| == n
      invariant forall c :: 0 <= c < n ==> row[c] == BestTime(results[..j], user, c)
    {
      assert results[..j + 1][..j] == results[..j];
      var result := results[j];
      if result.result.user != user {
        continue;
      }
      var category := result.category;
      assert result in results;
      if row[category].None? {
        row := row[category := Some(result.result.time)];
      } else {
        row := row[category := Some(Min(row[category].value, result.result.time))];
      }
    }
    assert results[..|results|] == results;
  }

  /**
    `results_table`: one row per user who has a kept result, users in
    ascending username order, each row with one slot per category holding
    the user's fastest time there.
  */
  method ResultsTable(cats: seq<Category>, lb: seq<FeedResult>) returns (table: seq<Entry>)
    ensures table == TableOf(cats, lb)
  {
    var results := GetCategoryResults(cats, lb);
    CategoryResultsInRange(cats, lb);
    var users := TableUsers(results);
    table := [];
    for ui := 0 to |users|
      invariant |table| == ui
      invariant forall k :: 0 <= k < ui ==> table[k] == Entry(users[k], BestRow(results, users[k], |cats|))
    {
      var user := users[ui];
      var row := FillRow(results, user, |cats|);
      ghost var prev := table;
      table := table + [Entry(user, row)];
      forall k | 0 <= k < ui + 1
        ensures table[k] == Entry(users[k], BestRow(results, users[k], |cats|))
      {
        if k < ui {
          assert table[k] == prev[k];
        }
      }
    }
  }

  /** `v` is `user`'s fastest time among the results of `lb` filed under category `c`, or `None` if there are none. */
  ghost predicate IsBestTime(cats: seq<Category>, lb: seq<FeedResult>, user: string, c: nat, v: Option<int>)
  {
    && (v.None? <==> forall r :: r in lb && r.user == user ==> !InCategory(cats, r, c))
    && (v.Some? ==> exists r :: r in lb && r.user == user && InCategory(cats, r, c) && r.time == v.value)
    && (v.Some? ==> forall r :: r in lb && r.user == user && InCategory(cats, r, c) ==> v.value <= r.time)
  }

  /** Every row has exactly one slot per category. */
  lemma TableRowsHaveOneSlotPerCategory(cats: seq<Category>, lb: seq<FeedResult>)
    ensures forall k :: 0 <= k < |TableOf(cats, lb)| ==> |TableOf(cats, lb)[k].row| == |cats|
  {
  }

  /** Users appear in strictly ascending username order, each once. */
  lemma TableUsersAscend(cats: seq<Category>, lb: seq<FeedResult>)
    ensures SortedBy(TableOf(cats, lb), EntryUser, LexLt)
  {
    var table := TableOf(cats, lb);
    var users := TableUsers(CategoryResults(cats, lb));
    forall i, j | 0 <= i < j < |table| ensures LexLt(EntryUser(table[i]), EntryUser(table[j])) {
      assert table[i].user == users[i] && table[j].user == users[j];
    }
  }

  /** The users of the kept results are the users of the feed results that match a category. */
  lemma KeptResultUsers(cats: seq<Category>, lb: seq<FeedResult>)
    ensures UsersIn(CategoryResults(cats, lb)) == (set r | r in lb && CategoryKey(r) in cats :: r.user)
  {
    var rs := CategoryResults(cats, lb);
    var kept := set r | r in lb && CategoryKey(r) in cats :: r.user;
    CategoryResultsMembers(cats, lb);
    forall u | u in UsersIn(rs) ensures u in kept {
      var t :| t in rs && t.result.user == u;
      assert CategoryKey(t.result) in cats;
    }
    forall u | u in kept ensures u in UsersIn(rs) {
      var r :| r in lb && CategoryKey(r) in cats && r.user == u;
      var t := CategorisedResult(r, CategoryIndex(cats, CategoryKey(r)).value);
      assert t in rs;
    }
  }

  /** `table.keys()`. */
  function Keys(table: seq<Entry>): set<string>
  {
    set k | 0 <= k < |table| :: table[k].user
  }

  /** A table built from `rs` has one key for each user of `rs`. */
  lemma TableFromKeys(rs: seq<CategorisedResult>, n: nat)
    ensures Keys(TableFrom(rs, n)) == UsersIn(rs)
  {
    var table := TableFrom(rs, n);
    var users := TableUsers(rs);
    var keys := set k | 0 <= k < |table| :: table[k].user;
    forall u | u in keys ensures u in UsersIn(rs) {
      var k :| 0 <= k < |table| && table[k].user == u;
      assert u == users[k];
    }
    forall u | u in UsersIn(rs) ensures u in keys {
      var k :| 0 <= k < |users| && users[k] == u;
      assert table[k].user == u;
    }
  }

  /** The table's keys are exactly the users that have a result in some category. */
  lemma TableKeysAreKeptUsers(cats: seq<Category>, lb: seq<FeedResult>)
    ensures Keys(TableOf(cats, lb)) == (set r | r in lb && CategoryKey(r) in cats :: r.user)
  {
    KeptResultUsers(cats, lb);
    TableFromKeys(CategoryResults(cats, lb), |cats|);
  }

  /** The best time of a user's group among the kept results is the best over the feed's results in that category. */
  lemma KeptBestTimeIsBestTime(cats: seq<Category>, lb: seq<FeedResult>, u: string, c: nat)
    ensures IsBestTime(cats, lb, u, c, BestTime(CategoryResults(cats, lb), u, c))
  {
    var rs := CategoryResults(cats, lb);
    var v := BestTime(rs, u, c);
    CategoryResultsMembers(cats, lb);
    BestTimeIsMinimum(rs, u, c);
    if v.None? {
      forall r | r in lb && r.user == u ensures !InCategory(cats, r, c) {
        if InCategory(cats, r, c) {
          assert InGroup(CategorisedResult(r, c), u, c);
        }
      }
    } else {
      var t :| t in rs && InGroup(t, u, c) && t.result.time == v.value;
      assert t.result in lb && t.result.user == u && InCategory(cats, t.result, c);
      forall r | r in lb && r.user == u && InCategory(cats, r, c) ensures v.value <= r.time {
        assert InGroup(CategorisedResult(r, c), u, c);
      }
    }
  }

  /** Slot `c` of a user's row is the user's fastest time in category `c`, and `None` exactly when there is none. */
  lemma TableSlotsAreBestTimes(cats: seq<Category>, lb: seq<FeedResult>, k: nat, c: nat)
    requires k < |TableOf(cats, lb)| && c < |cats|
    ensures IsBestTime(cats, lb, TableOf(cats, lb)[k].user, c, TableOf(cats, lb)[k].row[c])
  {
    var e := TableOf(cats, lb)[k];
    assert e.row[c] == BestTime(CategoryResults(cats, lb), e.user, c);
    KeptBestTimeIsBestTime(cats, lb, e.user, c);
  }

  /** The table does not depend on the order in which the feed lists the results. */
  lemma TableOfIgnoresOrder(cats: seq<Category>, lb1: seq<FeedResult>, lb2: seq<FeedResult>)
    requires multiset(lb1) == multiset(lb2)
    ensures TableOf(cats, lb1) == TableOf(cats, lb2)
  {
    CategoryResultsIgnoreOrder(cats, lb1, lb2);
    TableFromIgnoresOrder(CategoryResults(cats, lb1), CategoryResults(cats, lb2), |cats|);
  }

  /** A row depends only on which results are present. */
  lemma BestRowIgnoresOrder(rs1: seq<CategorisedResult>, rs2: seq<CategorisedResult>, user: string, n: nat)
    requires forall t :: t in rs1 <==> t in rs2
    ensures BestRow(rs1, user, n) == BestRow(rs2, user, n)
  {
    forall c | 0 <= c < n ensures BestTime(rs1, user, c) == BestTime(rs2, user, c) {
      BestTimeIgnoresOrder(rs1, rs2, user, c);
    }
  }

  /** A table depends only on which results are present. */
  lemma TableFromIgnoresOrder(rs1: seq<CategorisedResult>, rs2: seq<CategorisedResult>, n: nat)
    requires forall t :: t in rs1 <==> t in rs2
    ensures TableFrom(rs1, n) == TableFrom(rs2, n)
  {
    assert UsersIn(rs1) == UsersIn(rs2);
    var users := TableUsers(rs1);
    assert users == TableUsers(rs2);
    var t1, t2 := TableFrom(rs1, n), TableFrom(rs2, n);
    forall k | 0 <= k < |users| ensures t1[k] == t2[k] {
      BestRowIgnoresOrder(rs1, rs2, users[k], n);
    }
  }

  /** What tier `i` of a row contributes to its power: the power of the tier attained, or 0. */
  function TierPower(schedule: seq<Tier>, i: nat, time: Option<int>): int
  {
    match ResultTier(schedule, i, time)
    case None => 0
    case Some(tier) => tier.power
  }

  /** `power(row)`: the sum over the row's slots of the tier power each attains. */
  function RowPower(schedule: seq<Tier>, row: Row): int
  {
    if row == [] then 0
    else RowPower(schedule, row[..|row| - 1]) + TierPower(schedule, |row| - 1, row[|row| - 1])
  }

  /** `power`: accumulates the power of the tier of each slot, skipping slots with no tier. */
  method Power(schedule: seq<Tier>, row: Row) returns (total: int)
    ensures total == RowPower(schedule, row)
  {
    total := 0;
    for i := 0 to |row|
      invariant total == RowPower(schedule, row[..i])
    {
      assert row[..i + 1][..i] == row[..i];
      var tier := ResultTier(schedule, i, row[i]);
      if tier.None? {
        continue;
      }
      total := total + tier.value.power;
    }
    assert row[..|row|] == row;
  }

  /** Power is never negative when no tier has negative power. */
  lemma {:induction false} RowPowerNonNegative(schedule: seq<Tier>, row: Row)
    requires PowersNonNegative(schedule)
    ensures RowPower(schedule, row) >= 0
  {
    if row != [] {
      RowPowerNonNegative(schedule, row[..|row| - 1]);
    }
  }

  /** A row without any result has power 0. */
  lemma {:induction false} RowPowerOfEmptyRow(schedule: seq<Tier>, row: Row)
    requires forall i :: 0 <= i < |row| ==> row[i].None?
    ensures RowPower(schedule, row) == 0
  {
    if row != [] {
      RowPowerOfEmptyRow(schedule, row[..|row| - 1]);
    }
  }

  /** Slot `a` is at least as good as slot `b`: `b` is empty, or both hold times and `a`'s is not slower. */
  predicate AtLeastAsGood(a: Option<int>, b: Option<int>)
  {
    b.None? || (a.Some? && a.value <= b.value)
  }

  /** Improving any times of a row never lowers its power. */
  lemma {:induction false} RowPowerMonotone(schedule: seq<Tier>, better: Row, worse: Row)
    requires PowersIncrease(schedule) && PowersNonNegative(schedule)
    requires |better| == |worse|
    requires forall i :: 0 <= i < |better| ==> AtLeastAsGood(better[i], worse[i])
    ensures RowPower(schedule, better) >= RowPower(schedule, worse)
  {
    if better != [] {
      var n := |better| - 1;
      RowPowerMonotone(schedule, better[..n], worse[..n]);
      var b, w := ResultTier(schedule, n, better[n]), ResultTier(schedule, n, worse[n]);
      if w.Some? {
        ResultTierMonotone(schedule, n, better[n].value, worse[n].value);
      } else if b.Some? {
        var j :| 0 <= j < |schedule| && schedule[j] == b.value;
      }
    }
  }

  /** The sort key of `sort_table`: the negated power of the row. */
  function PowerKey(schedule: seq<Tier>): Entry -> int
  {
    (e: Entry) => -RowPower(schedule, e.row)
  }

  /** `sort_table`: the table's items stably sorted by descending power. */
  function SortTable(schedule: seq<Tier>, table: seq<Entry>): (r: seq<Entry>)
    ensures |r| == |table| && multiset(r) == multiset(table)
  {
    var r := SortBy(table, PowerKey(schedule), IntLe);
    assert |multiset(r)| == |multiset(table)|;
    r
  }

  /**
    The sorted table holds the same items, by non-increasing power, and
    the items of any one power keep the order they had.
  */
  lemma SortTableSpec(schedule: seq<Tier>, table: seq<Entry>)
    ensures multiset(SortTable(schedule, table)) == multiset(table)
    ensures forall i, j :: 0 <= i < j < |SortTable(schedule, table)| ==>
      RowPower(schedule, SortTable(schedule, table)[i].row) >= RowPower(schedule, SortTable(schedule, table)[j].row)
    ensures forall p :: Filter(SortTable(schedule, table), PowerKey(schedule), p) == Filter(table, PowerKey(schedule), p)
  {
    IntLeIsTotalOrder();
    var sorted := SortTable(schedule, table);
    SortByIsSorted(table, PowerKey(schedule), IntLe);
    forall i, j | 0 <= i < j < |sorted|
      ensures RowPower(schedule, sorted[i].row) >= RowPower(schedule, sorted[j].row)
    {
      assert IntLe(PowerKey(schedule)(sorted[i]), PowerKey(schedule)(sorted[j]));
    }
    forall p ensures Filter(sorted, PowerKey(schedule), p) == Filter(table, PowerKey(schedule), p) {
      SortByIsStable(table, PowerKey(schedule), IntLe, p);
    }
  }

  /** Sorting the table a second time changes nothing. */
  lemma SortTableIdempotent(schedule: seq<Tier>, table: seq<Entry>)
    ensures SortTable(schedule, SortTable(schedule, table)) == SortTable(schedule, table)
  {
    IntLeIsTotalOrder();
    SortByIdempotent(table, PowerKey(schedule), IntLe);
  }

  /**
    Ties in power: because the sort is stable and `results_table` inserts
    users in ascending order, users of equal power are ranked by ascending
    username.
  */
  lemma SortTableBreaksTiesByUser(schedule: seq<Tier>, cats: seq<Category>, lb: seq<FeedResult>, i: nat, j: nat)
    requires i < j < |SortTable(schedule, TableOf(cats, lb))|
    requires RowPower(schedule, SortTable(schedule, TableOf(cats, lb))[i].row)
          == RowPower(schedule, SortTable(schedule, TableOf(cats, lb))[j].row)
    ensures LexLt(SortTable(schedule, TableOf(cats, lb))[i].user, SortTable(schedule, TableOf(cats, lb))[j].user)
  {
    var table := TableOf(cats, lb);
    TableUsersAscend(cats, lb);
    IntLeIsTotalOrder();
    var sorted := SortTable(schedule, table);
    assert PowerKey(schedule)(sorted[i]) == PowerKey(schedule)(sorted[j]);
    SortedTiesKeepInputOrder(table, PowerKey(schedule), IntLe, EntryUser, LexLt, i, j);
  }

  /** `x if x is not None else -1`. */
  function Sentinel(x: Option<int>): int
  {
    match x
    case None => -1
    case Some(v) => v
  }

  /** `[user, place, power] + [x if x is not None else -1 for x in row]`. */
  function FormatRow(e: Entry, place: int, power: int): (cells: seq<Cell>)
    ensures |cells| == 3 + |e.row|
    ensures cells[0] == Name(e.user) && cells[1] == Num(place) && cells[2] == Num(power)
    ensures forall c :: 0 <= c < |e.row| && e.row[c].None? ==> cells[3 + c] == Num(-1)
    ensures forall c :: 0 <= c < |e.row| && e.row[c].Some? ==> cells[3 + c] == Num(e.row[c].value)
  {
    [Name(e.user), Num(place), Num(power)]
      + seq(|e.row|, c requires 0 <= c < |e.row| => Num(Sentinel(e.row[c])))
  }

  /** Reads a formatted row back: `-1` stands for an empty slot. */
  function ParseRow(cells: seq<Cell>): Option<(Entry, int, int)>
  {
    if |cells| < 3 || !cells[0].Name? || !cells[1].Num? || !cells[2].Num? then None
    else if exists c :: 3 <= c < |cells| && !cells[c].Num? then None
    else
      var row := seq(|cells| - 3, c requires 0 <= c < |cells| - 3 =>
        if cells[3 + c].value == -1 then None else Some(cells[3 + c].value));
      Some((Entry(cells[0].name, row), cells[1].value, cells[2].value))
  }

  /**
    The `-1` sentinel loses nothing as long as no real time is negative:
    the formatted row gives back the user, place, power and every slot.
  */
  lemma FormatRowRoundTrip(e: Entry, place: int, power: int)
    requires forall c :: 0 <= c < |e.row| && e.row[c].Some? ==> e.row[c].value >= 0
    ensures ParseRow(FormatRow(e, place, power)) == Some((e, place, power))
  {
    var cells := FormatRow(e, place, power);
    assert forall c :: 0 <= c < |e.row| ==> cells[3 + c] == Num(Sentinel(e.row[c]));
    var parsed := ParseRow(cells);
    assert parsed.Some?;
    assert parsed.value.0.row == e.row;
  }

  /**
    `format_results_table`: the table sorted by power, row k laid out as
    user, place k + 1, power, then each slot with `None` written as -1.
  */
  method FormatResultsTable(schedule: seq<Tier>, table: seq<Entry>) returns (formatted: seq<seq<Cell>>)
    ensures |formatted| == |SortTable(schedule, table)|
    ensures forall k :: 0 <= k < |formatted| ==>
      formatted[k] == FormatRow(SortTable(schedule, table)[k], k + 1, RowPower(schedule, SortTable(schedule, table)[k].row))
  {
    var sortedTable := SortTable(schedule, table);
    formatted := [];
    for i := 0 to |sortedTable|
      invariant |formatted| == i
      invariant forall k :: 0 <= k < i ==>
        formatted[k] == FormatRow(sortedTable[k], k + 1, RowPower(schedule, sortedTable[k].row))
    {
      var entry := sortedTable[i];
      var power := Power(schedule, entry.row);
      ghost var prev := formatted;
      formatted := formatted + [FormatRow(entry, i + 1, power)];
      forall k | 0 <= k < i + 1
        ensures formatted[k] == FormatRow(sortedTable[k], k + 1, RowPower(schedule, sortedTable[k].row))
      {
        if k < i {
          assert formatted[k] == prev[k];
        }
      }
    }
  }
}
