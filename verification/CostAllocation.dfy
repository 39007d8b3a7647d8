/** Dividing costs over work items so that no money appears or disappears. */
module CostAllocation {
  import opened Prelude
  import opened Ordering
  import opened RealArithmetic

  datatype Basis = Direct | Tag | TokenShare | ComputeTimeShare | RunShare | EqualShare | Manual

  datatype Cost = Cost(id: string, amount: real, workItem: Option<string>, run: Option<string>, basis: Basis)

  datatype Usage = Usage(workItem: string, run: Option<string>, inputTokens: nat, outputTokens: nat)

  datatype Share = Share(workItem: string, amount: real, costId: string, basis: Basis)

  datatype AllocationError =
    | NoEligibleWorkItems
    | IneligibleWorkItem(costId: string)
    | UnmappedRun(costId: string, run: string)
    | NoAttributableTokens(costId: string)
    | NoAllocationKey(costId: string)
    | TotalsDiffer

  // ----- Specification: the usage ---------------------------------------------------

  /** All tokens an item used. */
  function Tokens(usage: seq<Usage>, item: string): nat {
    if usage == [] then 0
    else
      var last := usage[|usage| - 1];
      Tokens(usage[..|usage| - 1], item)
      + (if last.workItem == item then last.inputTokens + last.outputTokens else 0)
  }

  /** The eligible items a run worked on. */
  function RunItems(usage: seq<Usage>, eligible: set<string>, run: string): set<string> {
    set u | u in usage && u.workItem in eligible && u.run == Some(run) :: u.workItem
  }

  function SumTokens(usage: seq<Usage>, items: seq<string>): nat {
    if items == [] then 0 else SumTokens(usage, items[..|items| - 1]) + Tokens(usage, items[|items| - 1])
  }

  /** The tokens of every record of an eligible item, counted record by record. */
  function AttributableTokens(usage: seq<Usage>, eligible: set<string>): nat {
    if usage == [] then 0
    else
      var last := usage[|usage| - 1];
      AttributableTokens(usage[..|usage| - 1], eligible)
      + (if last.workItem in eligible then last.inputTokens + last.outputTokens else 0)
  }

  // ----- Specification: the shares ----------------------------------------------------

  function EvenShares(cost: Cost, items: seq<string>, share: real, basis: Basis): seq<Share> {
    if items == [] then []
    else
      EvenShares(cost, items[..|items| - 1], share, basis)
      + [Share(items[|items| - 1], share, cost.id, basis)]
  }

  function TokenAmount(cost: Cost, tokens: nat, total: nat): real
    requires total > 0
  {
    cost.amount * tokens as real / total as real
  }

  /** One share per item that used tokens. */
  function TokenShares(cost: Cost, items: seq<string>, usage: seq<Usage>, total: nat): seq<Share>
    requires total > 0
  {
    if items == [] then []
    else
      var last := items[|items| - 1];
      TokenShares(cost, items[..|items| - 1], usage, total)
      + (if Tokens(usage, last) == 0 then []
         else [Share(last, TokenAmount(cost, Tokens(usage, last), total), cost.id, TokenShare)])
  }

  function DirectShare(cost: Cost, item: string, eligible: set<string>): Result<seq<Share>, AllocationError> {
    if item !in eligible then Err(IneligibleWorkItem(cost.id)) else Ok([Share(item, cost.amount, cost.id, Direct)])
  }

  function RunShares(cost: Cost, run: string, usage: seq<Usage>, eligible: set<string>)
    : Result<seq<Share>, AllocationError>
  {
    var items := Ascending(RunItems(usage, eligible, run));
    if items == [] then Err(UnmappedRun(cost.id, run))
    else Ok(EvenShares(cost, items, cost.amount / |items| as real, RunShare))
  }

  function SharesByToken(cost: Cost, usage: seq<Usage>, items: seq<string>): Result<seq<Share>, AllocationError> {
    var total := SumTokens(usage, items);
    if total == 0 then Err(NoAttributableTokens(cost.id)) else Ok(TokenShares(cost, items, usage, total))
  }

  function EqualShares(cost: Cost, items: seq<string>): seq<Share>
    requires items != []
  {
    EvenShares(cost, items, cost.amount / |items| as real, EqualShare)
  }

  /** How one cost is divided: by its work item, else by its run, else by its basis. */
  function SharesOf(cost: Cost, usage: seq<Usage>, eligible: set<string>): Result<seq<Share>, AllocationError>
    requires eligible != {}
  {
    if cost.workItem.Some? then DirectShare(cost, cost.workItem.value, eligible)
    else if cost.run.Some? then RunShares(cost, cost.run.value, usage, eligible)
    else if cost.basis.TokenShare? then SharesByToken(cost, usage, Ascending(eligible))
    else if cost.basis.EqualShare? then Ok(EqualShares(cost, Ascending(eligible)))
    else Err(NoAllocationKey(cost.id))
  }

  /** The shares of all costs in order, or the first error. */
  function AllShares(costs: seq<Cost>, usage: seq<Usage>, eligible: set<string>)
    : Result<seq<Share>, AllocationError>
    requires eligible != {}
  {
    if costs == [] then Ok([])
    else
      var front := AllShares(costs[..|costs| - 1], usage, eligible);
      var last := SharesOf(costs[|costs| - 1], usage, eligible);
      if front.Err? then front else if last.Err? then last else Ok(front.value + last.value)
  }

  function TotalShares(shares: seq<Share>): real {
    if shares == [] then 0.0 else TotalShares(shares[..|shares| - 1]) + shares[|shares| - 1].amount
  }

  function TotalCosts(costs: seq<Cost>): real {
    if costs == [] then 0.0 else TotalCosts(costs[..|costs| - 1]) + costs[|costs| - 1].amount
  }

  // ----- Conservation -------------------------------------------------------------------

  lemma TotalThen(shares: seq<Share>, s: Share)
    ensures TotalShares(shares + [s]) == TotalShares(shares) + s.amount
  {
    assert (shares + [s])[..|shares|] == shares;
  }

  lemma {:induction false} TotalAppend(a: seq<Share>, b: seq<Share>)
    ensures TotalShares(a + b) == TotalShares(a) + TotalShares(b)
  {
    if b == [] {
      assert a + b == a;
    } else {
      var front, last := b[..|b| - 1], b[|b| - 1];
      TotalAppend(a, front);
      TotalThen(a + front, last);
      assert a + b == (a + front) + [last];
    }
  }

  lemma {:induction false} EvenTotal(cost: Cost, items: seq<string>, share: real, basis: Basis)
    ensures TotalShares(EvenShares(cost, items, share, basis)) == |items| as real * share
  {
    if items != [] {
      var front := items[..|items| - 1];
      EvenTotal(cost, front, share, basis);
      TotalThen(EvenShares(cost, front, share, basis), Share(items[|items| - 1], share, cost.id, basis));
      assert |items| as real * share == |front| as real * share + share;
    }
  }

  lemma AmountsAdd(cost: Cost, a: nat, b: nat, total: nat)
    requires total > 0
    ensures TokenAmount(cost, a, total) + TokenAmount(cost, b, total) == TokenAmount(cost, a + b, total)
    ensures TokenAmount(cost, 0, total) == 0.0 && TokenAmount(cost, total, total) == cost.amount
  {
    var k := total as real;
    SameDenominator(cost.amount * a as real, cost.amount * b as real, k);
    assert cost.amount * a as real + cost.amount * b as real == cost.amount * (a + b) as real;
  }

  lemma SameDenominator(x: real, y: real, k: real)
    requires k > 0.0
    ensures x / k + y / k == (x + y) / k
  {}

  lemma {:induction false} TokenTotal(cost: Cost, items: seq<string>, usage: seq<Usage>, total: nat)
    requires total > 0
    ensures TotalShares(TokenShares(cost, items, usage, total)) == TokenAmount(cost, SumTokens(usage, items), total)
  {
    if items == [] {
      AmountsAdd(cost, 0, 0, total);
    } else {
      var front, last := items[..|items| - 1], items[|items| - 1];
      TokenTotal(cost, front, usage, total);
      AmountsAdd(cost, SumTokens(usage, front), Tokens(usage, last), total);
      TotalThen(TokenShares(cost, front, usage, total),
                Share(last, TokenAmount(cost, Tokens(usage, last), total), cost.id, TokenShare));
      if Tokens(usage, last) == 0 {
        assert TokenShares(cost, front, usage, total) + [] == TokenShares(cost, front, usage, total);
      }
    }
  }

  lemma EvenIsConserved(cost: Cost, items: seq<string>, basis: Basis)
    requires items != []
    ensures TotalShares(EvenShares(cost, items, cost.amount / |items| as real, basis)) == cost.amount
  {
    var share := cost.amount / |items| as real;
    EvenTotal(cost, items, share, basis);
  }

  lemma DirectIsConserved(cost: Cost, item: string, eligible: set<string>)
    requires DirectShare(cost, item, eligible).Ok?
    ensures TotalShares(DirectShare(cost, item, eligible).value) == cost.amount
  {
    var only := Share(item, cost.amount, cost.id, Direct);
    TotalThen([], only);
    assert [] + [only] == [only];
  }

  /** The shares of one cost add up to that cost. */
  lemma CostIsConserved(cost: Cost, usage: seq<Usage>, eligible: set<string>)
    requires eligible != {} && SharesOf(cost, usage, eligible).Ok?
    ensures TotalShares(SharesOf(cost, usage, eligible).value) == cost.amount
  {
    if cost.workItem.Some? {
      DirectIsConserved(cost, cost.workItem.value, eligible);
    } else if cost.run.Some? {
      EvenIsConserved(cost, Ascending(RunItems(usage, eligible, cost.run.value)), RunShare);
    } else if cost.basis.TokenShare? {
      var total := SumTokens(usage, Ascending(eligible));
      TokenTotal(cost, Ascending(eligible), usage, total);
      AmountsAdd(cost, 0, 0, total);
    } else {
      EvenIsConserved(cost, Ascending(eligible), EqualShare);
    }
  }

  lemma {:induction false} TotalIsConserved(costs: seq<Cost>, usage: seq<Usage>, eligible: set<string>)
    requires eligible != {} && AllShares(costs, usage, eligible).Ok?
    ensures TotalShares(AllShares(costs, usage, eligible).value) == TotalCosts(costs)
  {
    if costs != [] {
      var front, last := costs[..|costs| - 1], costs[|costs| - 1];
      TotalIsConserved(front, usage, eligible);
      CostIsConserved(last, usage, eligible);
      TotalAppend(AllShares(front, usage, eligible).value, SharesOf(last, usage, eligible).value);
    }
  }

  // ----- Who receives what ------------------------------------------------------------------

  lemma {:induction false} EvenSharesAre(cost: Cost, items: seq<string>, share: real, basis: Basis)
    ensures
      var shares := EvenShares(cost, items, share, basis);
      && |shares| == |items|
      && forall i :: 0 <= i < |items| ==> shares[i] == Share(items[i], share, cost.id, basis)
  {
    if items != [] { EvenSharesAre(cost, items[..|items| - 1], share, basis); }
  }

  lemma {:induction false} TokenSharesAre(cost: Cost, items: seq<string>, usage: seq<Usage>, total: nat, s: Share)
    requires total > 0
    ensures s in TokenShares(cost, items, usage, total) <==>
              && s.workItem in items && Tokens(usage, s.workItem) > 0
              && s == Share(s.workItem, TokenAmount(cost, Tokens(usage, s.workItem), total), cost.id, TokenShare)
  {
    if items != [] {
      TokenSharesAre(cost, items[..|items| - 1], usage, total, s);
      assert items == items[..|items| - 1] + [items[|items| - 1]];
    }
  }

  predicate Sound(cost: Cost, eligible: set<string>, s: Share) {
    s.costId == cost.id && s.amount >= 0.0 && s.workItem in eligible
  }

  lemma EvenSharesAreSound(cost: Cost, items: seq<string>, basis: Basis, eligible: set<string>, s: Share)
    requires items != [] && cost.amount >= 0.0 && forall x :: x in items ==> x in eligible
    requires s in EvenShares(cost, items, cost.amount / |items| as real, basis)
    ensures Sound(cost, eligible, s)
  {
    var share := cost.amount / |items| as real;
    EvenSharesAre(cost, items, share, basis);
    Quotient(cost.amount, |items| as real);
  }

  lemma AmountIsNonNegative(cost: Cost, tokens: nat, total: nat)
    requires cost.amount >= 0.0 && total > 0
    ensures TokenAmount(cost, tokens, total) >= 0.0
  {
    NonNegativeProduct(cost.amount, tokens as real);
    Quotient(cost.amount * tokens as real, total as real);
  }

  /** Every share of a cost names it, is not negative and goes to an eligible item. */
  lemma SharesAreSound(cost: Cost, usage: seq<Usage>, eligible: set<string>, s: Share)
    requires eligible != {} && cost.amount >= 0.0
    requires SharesOf(cost, usage, eligible).Ok? && s in SharesOf(cost, usage, eligible).value
    ensures Sound(cost, eligible, s)
  {
    if cost.workItem.Some? {
    } else if cost.run.Some? {
      EvenSharesAreSound(cost, Ascending(RunItems(usage, eligible, cost.run.value)), RunShare, eligible, s);
    } else if cost.basis.TokenShare? {
      var total := SumTokens(usage, Ascending(eligible));
      TokenSharesAre(cost, Ascending(eligible), usage, total, s);
      AmountIsNonNegative(cost, Tokens(usage, s.workItem), total);
    } else {
      EvenSharesAreSound(cost, Ascending(eligible), EqualShare, eligible, s);
    }
  }

  /** `amount` is to the cost as `tokens` is to `total`. */
  predicate InProportion(amount: real, cost: Cost, tokens: nat, total: nat) {
    amount * total as real == cost.amount * tokens as real
  }

  lemma ProportionalAmount(amount: real, cost: Cost, tokens: nat, total: nat)
    requires total > 0
    ensures amount == TokenAmount(cost, tokens, total) <==> InProportion(amount, cost, tokens, total)
  {
    var k, product := total as real, cost.amount * tokens as real;
    if amount * k == product { Cancel(amount, product / k, k); }
  }

  /** A token-share cost pays exactly the items that used tokens, in proportion to the
      tokens of all eligible items. */
  lemma TokenSharesAreProportional(cost: Cost, usage: seq<Usage>, eligible: set<string>, s: Share)
    requires eligible != {} && cost.workItem.None? && cost.run.None? && cost.basis.TokenShare?
    requires SharesOf(cost, usage, eligible).Ok?
    ensures AttributableTokens(usage, eligible) > 0
    ensures s in SharesOf(cost, usage, eligible).value <==>
              && s.workItem in eligible && Tokens(usage, s.workItem) > 0
              && s.costId == cost.id && s.basis == TokenShare
              && InProportion(s.amount, cost, Tokens(usage, s.workItem), AttributableTokens(usage, eligible))
  {
    TokensCountedTwice(usage, eligible);
    PaidByTokens(cost, Ascending(eligible), usage, SumTokens(usage, Ascending(eligible)), s);
  }

  /** A cost that names a work item is paid by that item, whole and alone. */
  lemma DirectCostIsPaidByItsItem(cost: Cost, usage: seq<Usage>, eligible: set<string>)
    requires eligible != {} && cost.workItem.Some? && SharesOf(cost, usage, eligible).Ok?
    ensures cost.workItem.value in eligible
    ensures SharesOf(cost, usage, eligible).value == [Share(cost.workItem.value, cost.amount, cost.id, Direct)]
  {}

  /** A cost that names only a run is paid in equal parts by exactly the eligible items the run
      worked on, each once. */
  lemma RunCostIsPaidEqually(cost: Cost, usage: seq<Usage>, eligible: set<string>)
    requires eligible != {} && cost.workItem.None? && cost.run.Some? && SharesOf(cost, usage, eligible).Ok?
    ensures
      var shares := SharesOf(cost, usage, eligible).value;
      && PaidOnce(shares)
      && (forall item :: item in Payers(shares) <==>
            item in eligible && exists u :: u in usage && u.workItem == item && u.run == cost.run)
      && forall s :: s in shares ==> IsPart(s, cost, RunShare, |shares|)
  {
    var items := Ascending(RunItems(usage, eligible, cost.run.value));
    EvenSharesArePaid(cost, items, RunShare);
    assert SharesOf(cost, usage, eligible).value == EvenShares(cost, items, cost.amount / |items| as real, RunShare);
    forall item
      ensures item in items <==> item in eligible && exists u :: u in usage && u.workItem == item && u.run == cost.run
    {
      assert item in items <==> item in RunItems(usage, eligible, cost.run.value);
    }
  }

  /** An equal-share cost is paid in equal parts by all eligible items, each once. */
  lemma EqualCostIsPaidEqually(cost: Cost, usage: seq<Usage>, eligible: set<string>)
    requires eligible != {} && cost.workItem.None? && cost.run.None? && cost.basis.EqualShare?
    ensures
      && SharesOf(cost, usage, eligible).Ok?
      && var shares := SharesOf(cost, usage, eligible).value;
      && PaidOnce(shares) && |shares| == |eligible|
      && (forall item :: item in Payers(shares) <==> item in eligible)
      && forall s :: s in shares ==> IsPart(s, cost, EqualShare, |eligible|)
  {
    var items := Ascending(eligible);
    EvenSharesArePaid(cost, items, EqualShare);
    assert SharesOf(cost, usage, eligible).value == EvenShares(cost, items, cost.amount / |items| as real, EqualShare);
  }

  /** One of `n` equal parts of the cost. */
  predicate IsPart(s: Share, cost: Cost, basis: Basis, n: nat) {
    s.costId == cost.id && s.basis == basis && s.amount * n as real == cost.amount
  }

  /** No item pays twice. */
  predicate PaidOnce(shares: seq<Share>) {
    forall i, j :: 0 <= i < j < |shares| ==> shares[i].workItem != shares[j].workItem
  }

  function Payers(shares: seq<Share>): set<string> {
    set s | s in shares :: s.workItem
  }

  lemma EvenSharesArePaid(cost: Cost, items: seq<string>, basis: Basis)
    requires items != [] && forall i, j :: 0 <= i < j < |items| ==> items[i] != items[j]
    ensures
      var shares := EvenShares(cost, items, cost.amount / |items| as real, basis);
      && PaidOnce(shares) && |shares| == |items|
      && (forall item :: item in Payers(shares) <==> item in items)
      && forall s :: s in shares ==> IsPart(s, cost, basis, |items|)
  {
    var share := cost.amount / |items| as real;
    var shares := EvenShares(cost, items, share, basis);
    EvenSharesAre(cost, items, share, basis);
    forall item | item in items
      ensures item in Payers(shares)
    {
      var i :| 0 <= i < |items| && items[i] == item;
      assert shares[i].workItem == item;
    }
    assert share * |items| as real == cost.amount;
  }

  /** The tokens of an item are the input and output tokens of all its usage. */
  lemma TokensThen(usage: seq<Usage>, u: Usage, item: string)
    ensures Tokens([], item) == 0
    ensures Tokens(usage + [u], item) == Tokens(usage, item) + if u.workItem == item then u.inputTokens + u.outputTokens else 0
  {
    assert (usage + [u])[..|usage|] == usage;
  }

  /** Why a cost cannot be divided. */
  lemma ErrorsMean(cost: Cost, usage: seq<Usage>, eligible: set<string>)
    requires eligible != {} && SharesOf(cost, usage, eligible).Err?
    ensures
      SharesOf(cost, usage, eligible).error ==
      match cost.workItem
      case Some(_) => IneligibleWorkItem(cost.id)
      case None =>
        match cost.run
        case Some(run) => UnmappedRun(cost.id, run)
        case None => if cost.basis == TokenShare then NoAttributableTokens(cost.id) else NoAllocationKey(cost.id)
  {}

  lemma PaidByTokens(cost: Cost, items: seq<string>, usage: seq<Usage>, total: nat, s: Share)
    requires total > 0
    ensures s in TokenShares(cost, items, usage, total) <==>
              && s.workItem in items && Tokens(usage, s.workItem) > 0
              && s.costId == cost.id && s.basis == TokenShare
              && InProportion(s.amount, cost, Tokens(usage, s.workItem), total)
  {
    TokenSharesAre(cost, items, usage, total, s);
    ProportionalAmount(s.amount, cost, Tokens(usage, s.workItem), total);
  }

  lemma {:induction false} SumIgnoresOthers(usage: seq<Usage>, items: seq<string>, u: Usage)
    requires forall i, j :: 0 <= i < j < |items| ==> items[i] != items[j]
    ensures SumTokens(usage + [u], items)
         == SumTokens(usage, items) + (if u.workItem in items then u.inputTokens + u.outputTokens else 0)
  {
    if items != [] {
      var front, last := items[..|items| - 1], items[|items| - 1];
      SumIgnoresOthers(usage, front, u);
      assert (usage + [u])[..|usage|] == usage;
      assert items == front + [last];
      if u.workItem == last { assert last !in front; }
    }
  }

  lemma {:induction false} NoTokensWithoutUsage(items: seq<string>)
    ensures SumTokens([], items) == 0
  {
    if items != [] { NoTokensWithoutUsage(items[..|items| - 1]); }
  }

  /** Counting tokens item by item or record by record gives the same total. */
  lemma {:induction false} TokensCountedTwice(usage: seq<Usage>, eligible: set<string>)
    ensures SumTokens(usage, Ascending(eligible)) == AttributableTokens(usage, eligible)
  {
    if usage == [] {
      NoTokensWithoutUsage(Ascending(eligible));
    } else {
      var front, last := usage[..|usage| - 1], usage[|usage| - 1];
      TokensCountedTwice(front, eligible);
      SumIgnoresOthers(front, Ascending(eligible), last);
      assert usage == front + [last];
    }
  }

  // ----- When it fails ------------------------------------------------------------------------

  /** A cost that can be divided. */
  predicate Allocatable(cost: Cost, usage: seq<Usage>, eligible: set<string>) {
    match cost.workItem
    case Some(item) => item in eligible
    case None =>
      match cost.run
      case Some(run) => exists u :: u in usage && u.workItem in eligible && u.run == Some(run)
      case None =>
        match cost.basis
        case TokenShare => AttributableTokens(usage, eligible) > 0
        case EqualShare => true
        case _ => false
  }

  lemma SharesExistExactlyWhen(cost: Cost, usage: seq<Usage>, eligible: set<string>)
    requires eligible != {}
    ensures SharesOf(cost, usage, eligible).Ok? <==> Allocatable(cost, usage, eligible)
  {
    TokensCountedTwice(usage, eligible);
    if cost.workItem.None? && cost.run.Some? {
      RunIsMappedExactlyWhen(usage, eligible, cost.run.value);
    }
  }

  lemma RunIsMappedExactlyWhen(usage: seq<Usage>, eligible: set<string>, run: string)
    ensures Ascending(RunItems(usage, eligible, run)) != []
       <==> exists u :: u in usage && u.workItem in eligible && u.run == Some(run)
  {
    var items := RunItems(usage, eligible, run);
    if u: Usage :| u in usage && u.workItem in eligible && u.run == Some(run) {
      assert u.workItem in items;
    }
    if items != {} {
      var item :| item in items;
    }
  }

  /** Allocation fails exactly when some cost has no key to divide it by. */
  lemma {:induction false} AllSharesExistExactlyWhen(costs: seq<Cost>, usage: seq<Usage>, eligible: set<string>)
    requires eligible != {}
    ensures AllShares(costs, usage, eligible).Ok?
       <==> forall i :: 0 <= i < |costs| ==> Allocatable(costs[i], usage, eligible)
  {
    if costs != [] {
      AllSharesExistExactlyWhen(costs[..|costs| - 1], usage, eligible);
      SharesExistExactlyWhen(costs[|costs| - 1], usage, eligible);
    }
  }

  /** The shares bearing a cost's identifier. */
  function OfCost(shares: seq<Share>, id: string): seq<Share> {
    if shares == [] then []
    else
      var last := shares[|shares| - 1];
      OfCost(shares[..|shares| - 1], id) + (if last.costId == id then [last] else [])
  }

  lemma {:induction false} OfCostAppend(a: seq<Share>, b: seq<Share>, id: string)
    ensures OfCost(a + b, id) == OfCost(a, id) + OfCost(b, id)
  {
    if b == [] {
      assert a + b == a;
    } else {
      OfCostAppend(a, b[..|b| - 1], id);
      assert (a + b)[..|a + b| - 1] == a + b[..|b| - 1];
    }
  }

  lemma {:induction false} OfCostAll(shares: seq<Share>, id: string, wanted: bool)
    requires forall s :: s in shares ==> (s.costId == id <==> wanted)
    ensures OfCost(shares, id) == if wanted then shares else []
  {
    if shares != [] {
      OfCostAll(shares[..|shares| - 1], id, wanted);
      assert shares[|shares| - 1] in shares;
      assert shares == shares[..|shares| - 1] + [shares[|shares| - 1]];
    }
  }

  lemma SharesNameTheirCost(cost: Cost, usage: seq<Usage>, eligible: set<string>, s: Share)
    requires eligible != {}
    requires SharesOf(cost, usage, eligible).Ok? && s in SharesOf(cost, usage, eligible).value
    ensures s.costId == cost.id
  {
    if cost.workItem.Some? {
    } else if cost.run.Some? {
      var items := Ascending(RunItems(usage, eligible, cost.run.value));
      EvenSharesAre(cost, items, cost.amount / |items| as real, RunShare);
    } else if cost.basis.TokenShare? {
      TokenSharesAre(cost, Ascending(eligible), usage, SumTokens(usage, Ascending(eligible)), s);
    } else {
      EvenSharesAre(cost, Ascending(eligible), cost.amount / |Ascending(eligible)| as real, EqualShare);
    }
  }

  /** In the whole allocation, the shares bearing a cost's identifier are those of that
      cost, so they add up to it. */
  lemma {:induction false} EachCostIsConserved(
    costs: seq<Cost>, usage: seq<Usage>, eligible: set<string>, k: nat)
    requires eligible != {} && AllShares(costs, usage, eligible).Ok? && k < |costs|
    requires forall i, j :: 0 <= i < j < |costs| ==> costs[i].id != costs[j].id
    ensures TotalShares(OfCost(AllShares(costs, usage, eligible).value, costs[k].id)) == costs[k].amount
  {
    var front, last := costs[..|costs| - 1], costs[|costs| - 1];
    var id := costs[k].id;
    var before, added := AllShares(front, usage, eligible).value, SharesOf(last, usage, eligible).value;
    OfCostAppend(before, added, id);
    forall s | s in added
      ensures s.costId == last.id
    {
      SharesNameTheirCost(last, usage, eligible, s);
    }
    OfCostAll(added, id, id == last.id);
    if k == |costs| - 1 {
      NotNamedBefore(front, usage, eligible, id);
      assert [] + added == added;
      CostIsConserved(last, usage, eligible);
    } else {
      assert costs[k].id != costs[|costs| - 1].id;
      EachCostIsConserved(front, usage, eligible, k);
      assert OfCost(before, id) + [] == OfCost(before, id);
    }
  }

  lemma {:induction false} NotNamedBefore(costs: seq<Cost>, usage: seq<Usage>, eligible: set<string>, id: string)
    requires eligible != {} && AllShares(costs, usage, eligible).Ok?
    requires forall i :: 0 <= i < |costs| ==> costs[i].id != id
    ensures OfCost(AllShares(costs, usage, eligible).value, id) == []
  {
    if costs != [] {
      var front, last := costs[..|costs| - 1], costs[|costs| - 1];
      NotNamedBefore(front, usage, eligible, id);
      var added := SharesOf(last, usage, eligible).value;
      OfCostAppend(AllShares(front, usage, eligible).value, added, id);
      forall s | s in added
        ensures s.costId == last.id
      {
        SharesNameTheirCost(last, usage, eligible, s);
      }
      OfCostAll(added, id, false);
    }
  }
}
