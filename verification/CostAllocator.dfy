/** `CostAllocator.allocate`: the loops, proved to produce the specified shares. */
module CostAllocator {
  import opened Prelude
  import opened Ordering
  import opened CostAllocation

  /** The two dictionaries the first loop fills. */
  datatype Index = Index(tokens: map<string, nat>, runs: map<string, set<string>>)

  function TokensIn(index: Index, item: string): nat {
    if item in index.tokens then index.tokens[item] else 0
  }

  function ItemsIn(index: Index, run: string): set<string> {
    if run in index.runs then index.runs[run] else {}
  }

  /** The dictionaries summarize the usage of the eligible items. */
  ghost predicate Summarizes(index: Index, usage: seq<Usage>, eligible: set<string>) {
    && (forall item :: item in eligible ==> TokensIn(index, item) == Tokens(usage, item))
    && (forall run :: ItemsIn(index, run) == RunItems(usage, eligible, run))
  }

  method IndexUsage(usage: seq<Usage>, eligible: set<string>) returns (index: Index)
    ensures Summarizes(index, usage, eligible)
  {
    index := Index(map[], map[]);
    for i := 0 to |usage|
      invariant Summarizes(index, usage[..i], eligible)
    {
      var u := usage[i];
      ghost var before := index;
      if u.workItem in eligible {
        index := index.(tokens := index.tokens[u.workItem := TokensIn(index, u.workItem) + u.inputTokens + u.outputTokens]);
        if u.run.Some? {
          index := index.(runs := index.runs[u.run.value := ItemsIn(index, u.run.value) + {u.workItem}]);
        }
      }
      OneMoreUsage(before, index, usage, i, eligible);
    }
    assert usage[..|usage|] == usage;
  }

  lemma OneMoreUsage(before: Index, after: Index, usage: seq<Usage>, i: nat, eligible: set<string>)
    requires i < |usage| && Summarizes(before, usage[..i], eligible)
    requires
      var u := usage[i];
      && (forall item :: item in eligible ==>
            TokensIn(after, item)
            == TokensIn(before, item) + (if u.workItem == item then u.inputTokens + u.outputTokens else 0))
      && (forall run :: ItemsIn(after, run)
            == ItemsIn(before, run) + (if u.workItem in eligible && u.run == Some(run) then {u.workItem} else {}))
    ensures Summarizes(after, usage[..i + 1], eligible)
  {
    var u, grown := usage[i], usage[..i + 1];
    assert grown[..i] == usage[..i] && grown == usage[..i] + [u];
    forall run
      ensures ItemsIn(after, run) == RunItems(grown, eligible, run)
    {
      RunItemsThen(usage[..i], u, eligible, run);
    }
  }

  lemma RunItemsThen(usage: seq<Usage>, u: Usage, eligible: set<string>, run: string)
    ensures RunItems(usage + [u], eligible, run)
         == RunItems(usage, eligible, run) + (if u.workItem in eligible && u.run == Some(run) then {u.workItem} else {})
  {
    var grown := usage + [u];
    assert forall v :: v in grown <==> v in usage || v == u;
  }

  method DivideEvenly(cost: Cost, items: seq<string>, basis: Basis) returns (shares: seq<Share>)
    requires items != []
    ensures shares == EvenShares(cost, items, cost.amount / |items| as real, basis)
  {
    var share := cost.amount / |items| as real;
    shares := [];
    for k := 0 to |items|
      invariant shares == EvenShares(cost, items[..k], share, basis)
    {
      shares := shares + [Share(items[k], share, cost.id, basis)];
      assert items[..k + 1][..k] == items[..k];
    }
    assert items[..|items|] == items;
  }

  method CountTokens(index: Index, items: seq<string>, ghost usage: seq<Usage>) returns (total: nat)
    requires forall item :: item in items ==> TokensIn(index, item) == Tokens(usage, item)
    ensures total == SumTokens(usage, items)
  {
    total := 0;
    for k := 0 to |items|
      invariant total == SumTokens(usage, items[..k])
    {
      total := total + TokensIn(index, items[k]);
      assert items[..k + 1][..k] == items[..k];
    }
    assert items[..|items|] == items;
  }

  method DivideByTokens(cost: Cost, index: Index, items: seq<string>, total: nat, ghost usage: seq<Usage>)
    returns (shares: seq<Share>)
    requires total > 0
    requires forall item :: item in items ==> TokensIn(index, item) == Tokens(usage, item)
    ensures shares == TokenShares(cost, items, usage, total)
  {
    shares := [];
    for k := 0 to |items|
      invariant shares == TokenShares(cost, items[..k], usage, total)
    {
      assert items[..k + 1][..k] == items[..k];
      var itemTokens := TokensIn(index, items[k]);
      if itemTokens == 0 {
        continue;
      }
      shares := shares + [Share(items[k], TokenAmount(cost, itemTokens, total), cost.id, TokenShare)];
    }
    assert items[..|items|] == items;
  }

  /** One turn of the loop over the costs. */
  method DivideCost(cost: Cost, index: Index, eligible: set<string>, ghost usage: seq<Usage>)
    returns (r: Result<seq<Share>, AllocationError>)
    requires eligible != {} && Summarizes(index, usage, eligible)
    ensures r == SharesOf(cost, usage, eligible)
  {
    if cost.workItem.Some? {
      if cost.workItem.value !in eligible {
        return Err(IneligibleWorkItem(cost.id));
      }
      return Ok([Share(cost.workItem.value, cost.amount, cost.id, Direct)]);
    }
    if cost.run.Some? {
      var runItems := Ascending(ItemsIn(index, cost.run.value));
      if runItems == [] {
        return Err(UnmappedRun(cost.id, cost.run.value));
      }
      var shares := DivideEvenly(cost, runItems, RunShare);
      return Ok(shares);
    }
    if cost.basis.TokenShare? {
      var total := CountTokens(index, Ascending(eligible), usage);
      if total == 0 {
        return Err(NoAttributableTokens(cost.id));
      }
      var shares := DivideByTokens(cost, index, Ascending(eligible), total, usage);
      return Ok(shares);
    }
    if cost.basis.EqualShare? {
      var shares := DivideEvenly(cost, Ascending(eligible), EqualShare);
      return Ok(shares);
    }
    return Err(NoAllocationKey(cost.id));
  }

  /** The allocator. The final comparison of totals never fails. */
  method Allocate(costs: seq<Cost>, usage: seq<Usage>, eligibleIds: seq<string>)
    returns (r: Result<seq<Share>, AllocationError>)
    ensures eligibleIds == [] ==> r == if costs == [] then Ok([]) else Err(NoEligibleWorkItems)
    ensures eligibleIds != [] ==>
              Elements(eligibleIds) != {} && r == AllShares(costs, usage, Elements(eligibleIds))
  {
    var eligible := Elements(eligibleIds);
    NoElementsExactlyWhen(eligibleIds);
    if eligible == {} {
      if costs != [] {
        return Err(NoEligibleWorkItems);
      }
      return Ok([]);
    }
    var index := IndexUsage(usage, eligible);
    var allocations: seq<Share> := [];
    for i := 0 to |costs|
      invariant AllShares(costs[..i], usage, eligible) == Ok(allocations)
    {
      var shares := DivideCost(costs[i], index, eligible, usage);
      AllSharesThen(costs, i, usage, eligible);
      if shares.Err? {
        return Err(shares.error);
      }
      allocations := allocations + shares.value;
    }
    assert costs[..|costs|] == costs;
    TotalIsConserved(costs, usage, eligible);
    var difference := TotalShares(allocations) - TotalCosts(costs);
    if difference > 0.000001 || -difference > 0.000001 {
      return Err(TotalsDiffer);
    }
    return Ok(allocations);
  }

  function Elements(ids: seq<string>): set<string> {
    set x | x in ids
  }

  lemma NoElementsExactlyWhen(ids: seq<string>)
    ensures Elements(ids) == {} <==> ids == []
  {
    if ids != [] { assert ids[0] in Elements(ids); }
  }

  lemma AllSharesThen(costs: seq<Cost>, i: nat, usage: seq<Usage>, eligible: set<string>)
    requires eligible != {} && i < |costs| && AllShares(costs[..i], usage, eligible).Ok?
    ensures
      var shares := SharesOf(costs[i], usage, eligible);
      && (shares.Ok? ==> AllShares(costs[..i + 1], usage, eligible)
                         == Ok(AllShares(costs[..i], usage, eligible).value + shares.value))
      && (shares.Err? ==> AllShares(costs, usage, eligible) == Err(shares.error))
  {
    assert costs[..i + 1][..i] == costs[..i];
    if SharesOf(costs[i], usage, eligible).Err? {
      ErrorsEnd(costs, i + 1, usage, eligible);
    }
  }

  lemma {:induction false} ErrorsEnd(costs: seq<Cost>, n: nat, usage: seq<Usage>, eligible: set<string>)
    requires eligible != {} && n <= |costs| && AllShares(costs[..n], usage, eligible).Err?
    ensures AllShares(costs, usage, eligible) == AllShares(costs[..n], usage, eligible)
    decreases |costs|
  {
    if n == |costs| {
      assert costs[..n] == costs;
    } else {
      var front := costs[..|costs| - 1];
      assert front[..n] == costs[..n];
      ErrorsEnd(front, n, usage, eligible);
    }
  }

  /** An allocation succeeds exactly when every cost has a key to divide it by; it then
      conserves the total and, when costs have their own identifiers, each cost. */
  lemma AllocationConservesMoney(costs: seq<Cost>, usage: seq<Usage>, eligible: set<string>)
    requires eligible != {}
    ensures AllShares(costs, usage, eligible).Ok?
       <==> forall i :: 0 <= i < |costs| ==> Allocatable(costs[i], usage, eligible)
    ensures AllShares(costs, usage, eligible).Ok? ==>
              TotalShares(AllShares(costs, usage, eligible).value) == TotalCosts(costs)
    ensures AllShares(costs, usage, eligible).Ok?
            && (forall i, j :: 0 <= i < j < |costs| ==> costs[i].id != costs[j].id) ==>
              forall k :: 0 <= k < |costs| ==>
                TotalShares(OfCost(AllShares(costs, usage, eligible).value, costs[k].id)) == costs[k].amount
  {
    AllSharesExistExactlyWhen(costs, usage, eligible);
    if AllShares(costs, usage, eligible).Ok? {
      TotalIsConserved(costs, usage, eligible);
      if forall i, j :: 0 <= i < j < |costs| ==> costs[i].id != costs[j].id {
        forall k | 0 <= k < |costs|
          ensures TotalShares(OfCost(AllShares(costs, usage, eligible).value, costs[k].id)) == costs[k].amount
        {
          EachCostIsConserved(costs, usage, eligible, k);
        }
      }
    }
  }

  /** No share of the whole allocation is negative or goes to an ineligible item. */
  lemma {:induction false} EveryShareIsSound(
    costs: seq<Cost>, usage: seq<Usage>, eligible: set<string>, s: Share)
    requires eligible != {} && AllShares(costs, usage, eligible).Ok?
    requires forall i :: 0 <= i < |costs| ==> costs[i].amount >= 0.0
    requires s in AllShares(costs, usage, eligible).value
    ensures s.amount >= 0.0 && s.workItem in eligible && exists i :: 0 <= i < |costs| && costs[i].id == s.costId
  {
    var front, last := costs[..|costs| - 1], costs[|costs| - 1];
    if s in AllShares(front, usage, eligible).value {
      EveryShareIsSound(front, usage, eligible, s);
      var i :| 0 <= i < |front| && front[i].id == s.costId;
      assert costs[i].id == s.costId;
    } else {
      SharesAreSound(last, usage, eligible, s);
      assert costs[|costs| - 1].id == s.costId;
    }
  }
}
