/**
  The selection and aggregation rules behind three chat commands of
  leaderboard/commands.py: the per-size personal-best report (`get_pb`),
  the move-count personal bests (`get_move_pb`) and the requirement list of
  a tier (`get_req`). The text of the messages is not modelled; each
  command returns the data its message is built from, in the order the
  message lists it.
*/
module Commands {
  import opened Wrappers
  import opened Sorting
  import opened Tiers
  import opened Leaderboard

  // ---------------------------------------------------------------------
  // Categories of one puzzle size
  // ---------------------------------------------------------------------

  predicate SameSize(c: Category, width: int, height: int)
  {
    c.width == width && c.height == height
  }

  /** The indices that `for i, category in enumerate(categories)` visits when it keeps the categories of one size. */
  function SizeIndices(cats: seq<Category>, width: int, height: int): (r: seq<nat>)
    ensures forall i: nat :: i in r <==> i < |cats| && SameSize(cats[i], width, height)
    ensures forall j, k :: 0 <= j < k < |r| ==> r[j] < r[k]
  {
    if cats == [] then []
    else
      var n := |cats| - 1;
      var init := SizeIndices(cats[..n], width, height);
      assert forall j :: 0 <= j < |init| ==> init[j] < n by {
        forall j | 0 <= j < |init| ensures init[j] < n {
          assert init[j] in init;
        }
      }
      if SameSize(cats[n], width, height) then init + [n] else init
  }

  /** `helper.get_used_sizes(categories)`: the sizes that have at least one category. */
  function UsedSizes(cats: seq<Category>): set<(int, int)>
  {
    set c | c in cats :: (c.width, c.height)
  }

  /** A size is used exactly when some category has it, so the per-category report is never empty. */
  lemma UsedSizeHasCategories(cats: seq<Category>, width: int, height: int)
    ensures (width, height) in UsedSizes(cats) <==> |SizeIndices(cats, width, height)| > 0
  {
    var r := SizeIndices(cats, width, height);
    if (width, height) in UsedSizes(cats) {
      var c :| c in cats && (c.width, c.height) == (width, height);
      var i :| 0 <= i < |cats| && cats[i] == c;
      assert i in r;
    }
    if |r| > 0 {
      assert r[0] in r;
      assert cats[r[0]] in cats;
    }
  }

  // ---------------------------------------------------------------------
  // get_req
  // ---------------------------------------------------------------------

  /** One line of the requirement message: a category and the tier's threshold there. */
  datatype Requirement = Requirement(category: nat, time: int)

  /** `tier["times"][i]` on a list too short for `i` raises `IndexError`. */
  datatype ReqError = IndexError(index: nat)

  /**
    The lines `get_req` produces over the categories `cats`, or the error
    its loop stops at: the first category of the size whose index is past
    the end of the tier's threshold list.
  */
  function Requirements(cats: seq<Category>, width: int, height: int, times: seq<int>): Result<seq<Requirement>, ReqError>
  {
    if cats == [] then Success([])
    else
      var n := |cats| - 1;
      match Requirements(cats[..n], width, height, times)
      case Failure(e) => Failure(e)
      case Success(reqs) =>
        if !SameSize(cats[n], width, height) then Success(reqs)
        else if n >= |times| then Failure(IndexError(n))
        else Success(reqs + [Requirement(n, times[n])])
  }

  /** The threshold list covers every category of the size. */
  ghost predicate CoversSize(cats: seq<Category>, width: int, height: int, times: seq<int>)
  {
    forall i :: i in SizeIndices(cats, width, height) ==> i < |times|
  }

  /**
    `get_req` lists, in category order, exactly the categories of the
    requested size, each with the tier's threshold for that category; it
    fails only when the threshold list is too short for one of them.
  */
  lemma {:induction false} RequirementsSpec(cats: seq<Category>, width: int, height: int, times: seq<int>)
    ensures Requirements(cats, width, height, times).Success? <==> CoversSize(cats, width, height, times)
    ensures Requirements(cats, width, height, times).Failure? ==>
      var i := Requirements(cats, width, height, times).error.index;
      i in SizeIndices(cats, width, height) && i >= |times|
    ensures Requirements(cats, width, height, times).Success? ==>
      var reqs := Requirements(cats, width, height, times).value;
      var idx := SizeIndices(cats, width, height);
      |reqs| == |idx| &&
      forall k :: 0 <= k < |reqs| ==> idx[k] < |times| && reqs[k] == Requirement(idx[k], times[idx[k]])
  {
    if cats != [] {
      var n := |cats| - 1;
      RequirementsSpec(cats[..n], width, height, times);
      var idx := SizeIndices(cats, width, height);
      var init := SizeIndices(cats[..n], width, height);
      assert forall i :: i in init ==> i in idx;
    }
  }

  /** `get_req(width, height, tier_name)`, with the tier already looked up. */
  method GetReq(cats: seq<Category>, width: int, height: int, tier: Tier) returns (r: Result<seq<Requirement>, ReqError>)
    ensures r == Requirements(cats, width, height, tier.times)
  {
    var reqs := [];
    for i := 0 to |cats|
      invariant Requirements(cats[..i], width, height, tier.times) == Success(reqs)
    {
      assert cats[..i + 1][..i] == cats[..i];
      var category := cats[i];
      if category.width == width && category.height == height {
        if i >= |tier.times| {
          r := Failure(IndexError(i));
          RequirementsFailureSticks(cats, width, height, tier.times, i + 1);
          return;
        }
        reqs := reqs + [Requirement(i, tier.times[i])];
      }
    }
    assert cats[..|cats|] == cats;
    r := Success(reqs);
  }

  /** Once the loop has failed on a prefix, the whole list fails with the same error. */
  lemma {:induction false} RequirementsFailureSticks(cats: seq<Category>, width: int, height: int, times: seq<int>, m: nat)
    requires m <= |cats|
    requires Requirements(cats[..m], width, height, times).Failure?
    ensures Requirements(cats, width, height, times) == Requirements(cats[..m], width, height, times)
  {
    if m < |cats| {
      var n := |cats| - 1;
      assert cats[..n][..m] == cats[..m];
      RequirementsFailureSticks(cats[..n], width, height, times, m);
    } else {
      assert cats[..m] == cats;
    }
  }

  // ---------------------------------------------------------------------
  // get_move_pb
  // ---------------------------------------------------------------------

  /** The name a move personal best is shown under: `single` or `ao{k}`. */
  datatype Label = Single | Ao(n: int)

  function LabelOf(avgLen: int): (l: Label)
    ensures l == Single <==> avgLen == 1
    ensures AvgLenOf(l) == avgLen
  {
    if avgLen == 1 then Single else Ao(avgLen)
  }

  function AvgLenOf(l: Label): int
  {
    match l
    case Single => 1
    case Ao(n) => n
  }

  /** One line of the move report. */
  datatype MovePb = MovePb(name: Label, moves: int)

  /** The distinct `avglen` values among the results. */
  function AvgLens(data: seq<FeedResult>): set<int>
  {
    set r | r in data :: r.avgLen
  }

  /**
    What the grouping loop leaves under key `a`: the first move count seen
    for that `avglen`, lowered to the minimum by each later one.
  */
  function MinMoves(data: seq<FeedResult>, a: int): Option<int>
  {
    if data == [] then None
    else
      var prev := MinMoves(data[..|data| - 1], a);
      var r := data[|data| - 1];
      if r.avgLen != a then prev
      else
        match prev
        case None => Some(r.moves)
        case Some(m) => Some(Min(m, r.moves))
  }

  /** `best` is the least move count among the results with `avglen == a`, and `None` exactly when there are none. */
  ghost predicate IsMovesMinimum(data: seq<FeedResult>, a: int, best: Option<int>)
  {
    && (best.None? <==> forall r :: r in data ==> r.avgLen != a)
    && (best.Some? ==> exists r :: r in data && r.avgLen == a && r.moves == best.value)
    && (best.Some? ==> forall r :: r in data && r.avgLen == a ==> best.value <= r.moves)
  }

  lemma {:induction false} MinMovesIsMinimum(data: seq<FeedResult>, a: int)
    ensures IsMovesMinimum(data, a, MinMoves(data, a))
  {
    if data != [] {
      var init := data[..|data| - 1];
      MinMovesIsMinimum(init, a);
      assert forall x :: x in data <==> x in init || x == data[|data| - 1];
    }
  }

  /** The lines emitted for the sorted keys `keys`, skipping keys whose value is `None`. */
  function Emit(keys: seq<int>, data: seq<FeedResult>): seq<MovePb>
  {
    if keys == [] then []
    else
      var n := |keys| - 1;
      var init := Emit(keys[..n], data);
      match MinMoves(data, keys[n])
      case None => init
      case Some(m) => init + [MovePb(LabelOf(keys[n]), m)]
  }

  /** When every key has a value, nothing is skipped and line `k` belongs to key `k`. */
  lemma {:induction false} EmitAll(keys: seq<int>, data: seq<FeedResult>)
    requires forall a :: a in keys ==> MinMoves(data, a).Some?
    ensures |Emit(keys, data)| == |keys|
    ensures forall k :: 0 <= k < |keys| ==>
      Emit(keys, data)[k] == MovePb(LabelOf(keys[k]), MinMoves(data, keys[k]).value)
  {
    if keys != [] {
      var n := |keys| - 1;
      assert forall a :: a in keys[..n] ==> a in keys;
      EmitAll(keys[..n], data);
      assert keys[n] in keys;
    }
  }

  /** `sorted(results.items(), key=lambda x: x[0])` over the grouped keys: each `avglen` once, ascending. */
  function SortedAvgLens(data: seq<FeedResult>): (keys: seq<int>)
    ensures |keys| == |AvgLens(data)|
    ensures forall a :: a in keys <==> a in AvgLens(data)
    ensures StrictlyAscending(keys, IntLe)
  {
    IntLeIsTotalOrder();
    SortedSet(AvgLens(data), IntLe)
  }

  /** The move report: the emitted lines over the sorted distinct `avglen` values. */
  function MovePbs(data: seq<FeedResult>): seq<MovePb>
  {
    Emit(SortedAvgLens(data), data)
  }

  /** Every `avglen` present among the results has a minimum, so no key is skipped. */
  lemma MovePbsLines(data: seq<FeedResult>)
    ensures |MovePbs(data)| == |SortedAvgLens(data)|
    ensures forall k :: 0 <= k < |SortedAvgLens(data)| ==>
      MinMoves(data, SortedAvgLens(data)[k]).Some? &&
      MovePbs(data)[k] == MovePb(LabelOf(SortedAvgLens(data)[k]), MinMoves(data, SortedAvgLens(data)[k]).value)
  {
    var keys := SortedAvgLens(data);
    forall a | a in keys
      ensures MinMoves(data, a).Some?
    {
      MinMovesIsMinimum(data, a);
      var r :| r in data && r.avgLen == a;
    }
    EmitAll(keys, data);
  }

  /** The lines come in strictly ascending `avglen` order, as the dictionary is rebuilt sorted by key. */
  lemma MovePbsAscending(data: seq<FeedResult>)
    ensures forall j, k :: 0 <= j < k < |MovePbs(data)| ==>
      AvgLenOf(MovePbs(data)[j].name) < AvgLenOf(MovePbs(data)[k].name)
  {
    MovePbsLines(data);
  }

  /** There is exactly one line for each distinct `avglen` among the results. */
  lemma MovePbsCoverAvgLens(data: seq<FeedResult>)
    ensures |MovePbs(data)| == |AvgLens(data)|
    ensures forall r :: r in data ==>
      exists k :: 0 <= k < |MovePbs(data)| && AvgLenOf(MovePbs(data)[k].name) == r.avgLen
  {
    var keys := SortedAvgLens(data);
    MovePbsLines(data);
    IntLeIsTotalOrder();
    var pbs := MovePbs(data);
    forall r | r in data
      ensures exists k :: 0 <= k < |pbs| && AvgLenOf(pbs[k].name) == r.avgLen
    {
      assert r.avgLen in keys;
      var k :| 0 <= k < |keys| && keys[k] == r.avgLen;
      assert AvgLenOf(pbs[k].name) == r.avgLen;
    }
  }

  /**
    Each line carries the least move count among the results with its
    `avglen`; it is `single` exactly when that `avglen` is 1.
  */
  lemma MovePbsAreMinima(data: seq<FeedResult>)
    ensures forall k :: 0 <= k < |MovePbs(data)| ==>
      IsMovesMinimum(data, AvgLenOf(MovePbs(data)[k].name), Some(MovePbs(data)[k].moves))
    ensures forall k :: 0 <= k < |MovePbs(data)| ==>
      (MovePbs(data)[k].name == Single <==> AvgLenOf(MovePbs(data)[k].name) == 1)
  {
    var keys := SortedAvgLens(data);
    MovePbsLines(data);
    var pbs := MovePbs(data);
    forall k | 0 <= k < |pbs|
      ensures IsMovesMinimum(data, AvgLenOf(pbs[k].name), Some(pbs[k].moves))
    {
      MinMovesIsMinimum(data, keys[k]);
      assert MinMoves(data, keys[k]) == Some(pbs[k].moves);
      assert AvgLenOf(pbs[k].name) == keys[k];
    }
  }

  /** A strictly ascending pair holding the values `x < y` is `[x, y]`. */
  lemma AscendingPair(keys: seq<int>, x: int, y: int)
    requires StrictlyAscending(keys, IntLe) && |keys| == 2
    requires x < y
    requires forall v :: v in keys <==> v == x || v == y
    ensures keys == [x, y]
  {
    assert x in keys && y in keys;
    assert keys[0] in keys && keys[1] in keys;
    assert IntLe(keys[0], keys[1]) && keys[0] != keys[1];
  }

  /** Singles of 40 and 38 moves and an ao5 of 42: the minima are 38 and 42. */
  lemma ExampleMinima(a: FeedResult, b: FeedResult, c: FeedResult)
    requires a.avgLen == 1 && a.moves == 40
    requires b.avgLen == 1 && b.moves == 38
    requires c.avgLen == 5 && c.moves == 42
    ensures MinMoves([a, b, c], 1) == Some(38) && MinMoves([a, b, c], 5) == Some(42)
  {
    var data, ab, just := [a, b, c], [a, b], [a];
    assert data[..2] == ab && ab[..1] == just && just[..0] == [];
    assert MinMoves(just[..0], 1) == None && MinMoves(just[..0], 5) == None;
    assert MinMoves(just, 1) == Some(40) && MinMoves(just, 5) == None;
    assert MinMoves(ab, 1) == Some(38) && MinMoves(ab, 5) == None;
  }

  /** Singles of 40 and 38 moves and an ao5 of 42: the averages used are 1 and 5. */
  lemma ExampleAvgLens(a: FeedResult, b: FeedResult, c: FeedResult)
    requires a.avgLen == 1 && b.avgLen == 1 && c.avgLen == 5
    ensures AvgLens([a, b, c]) == {1, 5}
  {
    var data := [a, b, c];
    assert forall r :: r in data ==> r.avgLen == 1 || r.avgLen == 5;
    assert a in data && c in data;
  }

  /** Singles of 40 and 38 moves and an ao5 of 42 report `single: 38` and `ao5: 42`. */
  lemma MovePbsExample(a: FeedResult, b: FeedResult, c: FeedResult)
    requires a.avgLen == 1 && a.moves == 40
    requires b.avgLen == 1 && b.moves == 38
    requires c.avgLen == 5 && c.moves == 42
    ensures MovePbs([a, b, c]) == [MovePb(Single, 38), MovePb(Ao(5), 42)]
  {
    var data := [a, b, c];
    var keys := SortedAvgLens(data);
    ExampleAvgLens(a, b, c);
    AscendingPair(keys, 1, 5);
    ExampleMinima(a, b, c);
    MovePbsLines(data);
  }

  /**
    The grouping loop of `get_move_pb`: after it, the dictionary holds one
    key per distinct `avglen`, with the least move count seen for it.
  */
  method GroupMoves(data: seq<FeedResult>) returns (results: map<int, Option<int>>)
    ensures results.Keys == AvgLens(data)
    ensures forall a :: a in results ==> results[a] == MinMoves(data, a)
  {
    results := map[];
    for k := 0 to |data|
      invariant results.Keys == AvgLens(data[..k])
      invariant forall a :: a in results ==> results[a] == MinMoves(data[..k], a)
    {
      assert data[..k + 1][..k] == data[..k];
      assert forall r :: r in data[..k + 1] <==> r in data[..k] || r == data[k];
      var avglen := data[k].avgLen;
      if avglen !in results {
        MinMovesIsMinimum(data[..k], avglen);
      }
      var current := if avglen in results then results[avglen] else None;
      if current.None? {
        results := results[avglen := Some(data[k].moves)];
      } else {
        results := results[avglen := Some(Min(current.value, data[k].moves))];
      }
      assert forall a :: a in results ==> results[a] == MinMoves(data[..k + 1], a);
    }
    assert data[..|data|] == data;
  }

  /** One more key adds at most one line: the one for `keys[i]`, when it has a minimum. */
  lemma EmitStep(keys: seq<int>, data: seq<FeedResult>, i: nat)
    requires i < |keys|
    ensures Emit(keys[..i + 1], data) ==
      Emit(keys[..i], data) + (match MinMoves(data, keys[i])
                               case None => []
                               case Some(m) => [MovePb(LabelOf(keys[i]), m)])
  {
    assert keys[..i + 1][..i] == keys[..i] && keys[..i + 1][i] == keys[i];
  }

  /**
    `get_move_pb` with the lookup on its grouping line read as the authors
    evidently meant it: a key not yet in the dictionary counts as `None`.
  */
  method GetMovePb(data: seq<FeedResult>) returns (pbs: seq<MovePb>)
    ensures pbs == MovePbs(data)
  {
    var results := GroupMoves(data);
    IntLeIsTotalOrder();
    var keys := SortedSet(results.Keys, IntLe);
    pbs := [];
    for i := 0 to |keys|
      invariant pbs == Emit(keys[..i], data)
    {
      EmitStep(keys, data, i);
      assert keys[i] in results;
      var v := results[keys[i]];
      if v.None? {
        continue;
      }
      pbs := pbs + [MovePb(LabelOf(keys[i]), v.value)];
    }
    assert keys[..|keys|] == keys;
  }

  /** Python's `KeyError` for a missing dictionary key. */
  datatype KeyError = KeyError(key: int)

  /**
    The grouping loop of `get_move_pb` as written: `results[avglen]` on a
    key the dictionary does not hold raises `KeyError`.
  */
  function GroupAsWritten(data: seq<FeedResult>, results: map<int, Option<int>>): (r: Result<map<int, Option<int>>, KeyError>)
    ensures r.Success? <==> forall k :: 0 <= k < |data| ==> data[k].avgLen in results
    ensures r.Success? ==> r.value.Keys == results.Keys
    ensures r.Failure? ==> r.error.key !in results && r.error.key in AvgLens(data)
  {
    if data == [] then Success(results)
    else
      var avglen := data[0].avgLen;
      if avglen !in results then
        assert data[0] in data;
        Failure(KeyError(avglen))
      else
        var current := results[avglen];
        var next := if current.None? then Some(data[0].moves) else Some(Min(current.value, data[0].moves));
        var r := GroupAsWritten(data[1..], results[avglen := next]);
        assert results[avglen := next].Keys == results.Keys;
        assert forall k :: 1 <= k < |data| ==> data[k] == data[1..][k - 1];
        assert AvgLens(data[1..]) <= AvgLens(data) by {
          assert forall x :: x in data[1..] ==> x in data;
        }
        r
  }

  /** The emitting part of `get_move_pb`, over the sorted keys of the grouped dictionary. */
  function EmitGrouped(keys: seq<int>, results: map<int, Option<int>>): (r: seq<MovePb>)
    requires forall k :: 0 <= k < |keys| ==> keys[k] in results
    ensures |r| <= |keys|
    ensures forall k :: 0 <= k < |r| ==>
      exists j :: 0 <= j < |keys| && results[keys[j]] == Some(r[k].moves) && r[k].name == LabelOf(keys[j])
  {
    if keys == [] then []
    else
      var n := |keys| - 1;
      var init := EmitGrouped(keys[..n], results);
      assert forall j :: 0 <= j < n ==> keys[..n][j] == keys[j];
      match results[keys[n]]
      case None => init
      case Some(m) => init + [MovePb(LabelOf(keys[n]), m)]
  }

  /**
    Over keys that each hold their group's minimum, the emitting loop gives
    the intended report: one line per key with a value, in key order.
  */
  lemma {:induction false} EmitGroupedIsEmit(keys: seq<int>, results: map<int, Option<int>>, data: seq<FeedResult>)
    requires forall k :: 0 <= k < |keys| ==> keys[k] in results && results[keys[k]] == MinMoves(data, keys[k])
    ensures EmitGrouped(keys, results) == Emit(keys, data)
  {
    if keys != [] {
      var n := |keys| - 1;
      assert forall j :: 0 <= j < n ==> keys[..n][j] == keys[j];
      EmitGroupedIsEmit(keys[..n], results, data);
    }
  }

  /** `get_move_pb` as written, starting from the empty dictionary. */
  function MovePbsAsWritten(data: seq<FeedResult>): (r: Result<seq<MovePb>, KeyError>)
    ensures r.Success? <==> data == []
    ensures r.Success? ==> r.value == []
    ensures r.Failure? ==> r.error.key in AvgLens(data)
  {
    match GroupAsWritten(data, map[])
    case Failure(e) => Failure(e)
    case Success(results) =>
      IntLeIsTotalOrder();
      Success(EmitGrouped(SortedSet(results.Keys, IntLe), results))
  }

  /**
    As written, the grouping loop gets through only a fetched list with
    nothing to report: any result at all makes the first lookup fail, where
    the intended report has a line for it.
  */
  lemma MovePbsAsWrittenFailsOnAnyResult(data: seq<FeedResult>)
    ensures MovePbsAsWritten(data).Success? <==> data == []
    ensures data != [] ==> MovePbsAsWritten(data) == Failure(KeyError(data[0].avgLen))
    ensures data != [] ==> |MovePbs(data)| > 0
  {
    MovePbsCoverAvgLens(data);
    if data != [] {
      assert data[0] in data;
    } else {
      IntLeIsTotalOrder();
      var empty: map<int, Option<int>> := map[];
      assert SortedSet(empty.Keys, IntLe) == [];
    }
  }

  // ---------------------------------------------------------------------
  // get_pb
  // ---------------------------------------------------------------------

  /** One line of the per-category report: the category, the best time, its tier and the tier above it. */
  datatype PbLine = PbLine(category: nat, best: Option<int>, tier: Option<Tier>, next: Option<Tier>)

  /** `get_pb` reports per category for sizes that are ranked, and one general time otherwise. */
  datatype PbReport = PerCategory(lines: seq<PbLine>) | General(best: Option<int>)

  /** The line for category `i`: its best time from `categoryPb`, that time's tier, and `nextTier` of that tier. */
  function LineFor(cats: seq<Category>, schedule: seq<Tier>, data: seq<FeedResult>,
                   categoryPb: (Category, seq<FeedResult>) -> Option<int>,
                   nextTier: Option<Tier> -> Option<Tier>, i: nat): (l: PbLine)
    requires i < |cats|
    ensures l.category == i && l.best == categoryPb(cats[i], data)
    ensures l.tier.Some? ==> l.best.Some? && l.tier.value in schedule && Attains(l.tier.value, i, l.best.value)
    ensures l.tier.None? <==> l.best.None? || forall j :: 0 <= j < |schedule| ==> !Attains(schedule[j], i, l.best.value)
    ensures l.tier == ResultTier(schedule, i, l.best) && l.next == nextTier(l.tier)
  {
    var best := categoryPb(cats[i], data);
    var tier := ResultTier(schedule, i, best);
    PbLine(i, best, tier, nextTier(tier))
  }

  /**
    With tiers listed in increasing power, the tier on a category's line is
    the most powerful of the tiers its best time attains.
  */
  lemma LineForTierIsHighest(cats: seq<Category>, schedule: seq<Tier>, data: seq<FeedResult>,
                             categoryPb: (Category, seq<FeedResult>) -> Option<int>,
                             nextTier: Option<Tier> -> Option<Tier>, i: nat, j: nat)
    requires i < |cats| && PowersIncrease(schedule)
    requires categoryPb(cats[i], data).Some?
    requires j < |schedule| && Attains(schedule[j], i, categoryPb(cats[i], data).value)
    ensures LineFor(cats, schedule, data, categoryPb, nextTier, i).tier.Some?
    ensures schedule[j].power <= LineFor(cats, schedule, data, categoryPb, nextTier, i).tier.value.power
  {
    ResultTierIsHighest(schedule, i, categoryPb(cats[i], data).value, j);
  }

  /**
    `get_pb(width, height, user)` over the user's fetched results `data`.
    `categoryPb`, `generalPb` and `nextTier` stand for the helpers
    `helper.category_pb`, `helper.general_pb` and `helper.get_next_tier`.
  */
  method GetPb(cats: seq<Category>, schedule: seq<Tier>, width: int, height: int, data: seq<FeedResult>,
               categoryPb: (Category, seq<FeedResult>) -> Option<int>,
               generalPb: seq<FeedResult> -> Option<int>,
               nextTier: Option<Tier> -> Option<Tier>) returns (report: PbReport)
    ensures report.PerCategory? <==> (width, height) in UsedSizes(cats)
    ensures report.General? ==> report.best == generalPb(data)
    ensures report.PerCategory? ==>
      var idx := SizeIndices(cats, width, height);
      |report.lines| == |idx| &&
      forall k :: 0 <= k < |idx| ==> idx[k] < |cats| && report.lines[k] == LineFor(cats, schedule, data, categoryPb, nextTier, idx[k])
  {
    if (width, height) in UsedSizes(cats) {
      var lines := [];
      for i := 0 to |cats|
        invariant var idx := SizeIndices(cats[..i], width, height);
          |lines| == |idx| &&
          forall k :: 0 <= k < |idx| ==> idx[k] < |cats| && lines[k] == LineFor(cats, schedule, data, categoryPb, nextTier, idx[k])
      {
        assert cats[..i + 1][..i] == cats[..i];
        var category := cats[i];
        if category.width == width && category.height == height {
          var best := categoryPb(category, data);
          var tier := ResultTier(schedule, i, best);
          var next := nextTier(tier);
          lines := lines + [PbLine(i, best, tier, next)];
        }
      }
      assert cats[..|cats|] == cats;
      report := PerCategory(lines);
    } else {
      report := General(generalPb(data));
    }
  }
}
