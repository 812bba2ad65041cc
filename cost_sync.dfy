/**
 * The sync reconciler (`CostSyncService.RefreshAsync`) and the billing
 * source it reads (`AwsCostService`). The remote calls are parameters: the
 * pages the cost-and-usage request returns, and the account directory each
 * dimension-values call returns (`None` when that call throws).
 */
module CostSync {
  import opened Calendar
  import opened Text
  import opened Wrappers
  import opened DateText
  import opened Models
  import opened CostStore

  /** Days fetched by a full sync, or when the store is empty. */
  const FullSyncDays := 60

  /** The most recent days that every sync fetches again, since the source may still revise them. */
  const CatchUpDays := 3

  /**
   * The start of the fetched range before the gap check: a forced sync or
   * an empty store go back 60 days; otherwise the day after the latest
   * stored day, but no later than three days ago.
   */
  function PlannedSyncFrom(forceFullSync: bool, today: Date, latest: Option<Date>): (syncFrom: Date)
    ensures forceFullSync || latest.None? ==> syncFrom == today - FullSyncDays
    ensures !forceFullSync && latest.Some? ==> syncFrom == Min(latest.value + 1, today - CatchUpDays)
    ensures syncFrom <= today - CatchUpDays
  {
    if forceFullSync then today - FullSyncDays
    else match latest
      case Some(latestDate) =>
        var catchUpFrom := today - CatchUpDays;
        if latestDate < catchUpFrom then latestDate + 1 else catchUpFrom
      case None => today - FullSyncDays
  }

  /**
   * The gap check can only move the start to three days ago when the
   * store's own missing days in [syncFrom, yesterday] are empty, and then
   * the start was three days ago already: the check never changes it.
   */
  lemma {:induction false} GapCheckIsNoOp(facts: Facts, forceFullSync: bool, today: Date, missing: seq<Date>)
    requires var syncFrom := PlannedSyncFrom(forceFullSync, today, LatestDate(facts));
      forall d :: d in missing <==> syncFrom <= d <= today - 1 && NoFactOn(facts, d)
    ensures |missing| == 0 && !forceFullSync ==>
      PlannedSyncFrom(forceFullSync, today, LatestDate(facts)) == today - CatchUpDays
  {
    var syncFrom := PlannedSyncFrom(forceFullSync, today, LatestDate(facts));
    if !forceFullSync && syncFrom < today - CatchUpDays {
      // every stored day is before `syncFrom`, so yesterday has no row
      match LatestDate(facts)
      case None =>
        assert NoFactOn(facts, today - 1);
      case Some(latest) =>
        assert forall k :: k in facts ==> k.date <= latest < today - 1;
        assert NoFactOn(facts, today - 1);
      assert today - 1 in missing;
    }
  }

  /**
   * A worked example of the catch-up branch, already covered by the contract
   * of `PlannedSyncFrom`: today 2024-03-15 with 2024-03-10 the latest stored
   * day, the sync starts at 2024-03-11.
   */
  lemma {:induction false} CatchUpExample()
    ensures PlannedSyncFrom(false, FromCivil(Civil(2024, 3, 15)), Some(FromCivil(Civil(2024, 3, 10))))
         == FromCivil(Civil(2024, 3, 11))
  {
  }

  /**
   * `GetCostsForDateRangeAsync`'s request period: start `from`, exclusive end
   * `until + 1`. It documents the request's text form; the `respond`
   * parameter of `RefreshAsync` takes the dates themselves, which this text
   * picks out exactly.
   */
  function RequestInterval(from: Date, until: Date): (interval: (string, string))
    requires InDateOnlyRange(from) && InDateOnlyRange(until + 1)
    ensures forall d :: InDateOnlyRange(d) ==>
      (from <= d <= until <==> !StrLess(Format(d), interval.0) && StrLess(Format(d), interval.1))
    ensures Parse(interval.0) == Some(from) && Parse(interval.1) == Some(until + 1)
  {
    RangeAsText(from, until);
    ParseFormat(from);
    ParseFormat(until + 1);
    (Format(from), Format(until + 1))
  }

  /**
   * A date lies in `from..until` exactly when its text lies in the half-open
   * text interval, so a request keyed by dates asks for the same days as the
   * request's text.
   */
  lemma {:induction false} RangeAsText(from: Date, until: Date)
    requires InDateOnlyRange(from) && InDateOnlyRange(until + 1)
    ensures forall d :: InDateOnlyRange(d) ==>
      (from <= d <= until <==> !StrLess(Format(d), Format(from)) && StrLess(Format(d), Format(until + 1)))
  {
    forall d | InDateOnlyRange(d)
      ensures from <= d <= until <==> !StrLess(Format(d), Format(from)) && StrLess(Format(d), Format(until + 1))
    {
      FormatOrder(d, from);
      FormatOrder(d, until + 1);
    }
  }

  // ---------------------------------------------------------------------
  // The billing source

  /** One group of a daily result: keys LINKED_ACCOUNT and SERVICE, and the UnblendedCost metric. */
  datatype CostGroup = CostGroup(accountId: string, service: string, amount: real, unit: string)

  /** One day of results; the period start arrives already parsed. */
  datatype ResultByTime = ResultByTime(start: Date, groups: seq<CostGroup>)

  /** One page of a cost-and-usage response. */
  datatype Page = Page(results: seq<ResultByTime>)

  /** An entry of the LINKED_ACCOUNT dimension and its optional "description" attribute. */
  datatype DimensionValue = DimensionValue(value: string, description: Option<string>)

  /** One group with the day it belongs to, in the order the pages list them. */
  datatype Item = Item(date: Date, group: CostGroup)

  function GroupItems(date: Date, groups: seq<CostGroup>): (items: seq<Item>)
    ensures |items| == |groups|
    ensures forall i :: 0 <= i < |groups| ==> items[i] == Item(date, groups[i])
  {
    if groups == [] then [] else GroupItems(date, groups[..|groups| - 1]) + [Item(date, groups[|groups| - 1])]
  }

  function ResultItems(results: seq<ResultByTime>): seq<Item> {
    if results == [] then []
    else
      var last := results[|results| - 1];
      ResultItems(results[..|results| - 1]) + GroupItems(last.start, last.groups)
  }

  function PageItems(pages: seq<Page>): seq<Item> {
    if pages == [] then [] else PageItems(pages[..|pages| - 1]) + ResultItems(pages[|pages| - 1].results)
  }

  function DescriptionOr(v: DimensionValue): string {
    match v.description
    case Some(name) => name
    case None => v.value
  }

  /** The name cache after the directory entries are written into it in order. */
  function Loaded(names: map<string, string>, values: seq<DimensionValue>): (r: map<string, string>)
    ensures r.Keys == names.Keys + set v | v in values :: v.value
  {
    if values == [] then names
    else Loaded(names, values[..|values| - 1])[values[|values| - 1].value := DescriptionOr(values[|values| - 1])]
  }

  /** Loading a directory into a cache overrides the cache with the directory's names. */
  lemma {:induction false} LoadedOverrides(names: map<string, string>, values: seq<DimensionValue>)
    ensures Loaded(names, values) == names + Loaded(map[], values)
  {
    if values != [] {
      LoadedOverrides(names, values[..|values| - 1]);
    }
  }

  /** The name one dimension-values answer gives an account: its listed name, or the raw id. */
  function DirectoryName(directory: Option<seq<DimensionValue>>, accountId: string): string {
    match directory
    case None => accountId
    case Some(values) =>
      var listed := Loaded(map[], values);
      if accountId in listed then listed[accountId] else accountId
  }

  /**
   * `GetAccountNameAsync`, given the answer its dimension-values call gets:
   * a cached id gives its cached name; otherwise the answer is loaded into
   * the cache and the id's name is looked up, falling back to the raw id
   * when the id is not listed or the call throws.
   */
  function ResolveName(names: map<string, string>, directory: Option<seq<DimensionValue>>, accountId: string)
    : (r: (string, map<string, string>))
    ensures accountId in names ==> r == (names[accountId], names)
    ensures accountId !in names ==> r.0 == DirectoryName(directory, accountId)
    ensures accountId !in names ==>
      r.1 == (if directory.Some? then names + Loaded(map[], directory.value) else names)
  {
    if accountId in names then (names[accountId], names)
    else match directory
      case None => (accountId, names)
      case Some(values) =>
        LoadedOverrides(names, values);
        var loaded := Loaded(names, values);
        (if accountId in loaded then loaded[accountId] else accountId, loaded)
  }

  /**
   * The answers the dimension-values calls of one service get, in call
   * order: `None` when that call throws. Each call may get a different answer.
   */
  type Lookups = nat -> Option<seq<DimensionValue>>

  /** The costs collected so far, the name cache, and the number of dimension-values calls made. */
  datatype FetchState = FetchState(costs: seq<DailyCost>, names: map<string, string>, calls: nat)

  /**
   * One group read: a positive amount becomes a cost with the account's
   * resolved name, and an account missing from the cache costs one call.
   */
  function FetchStep(s: FetchState, lookups: Lookups, item: Item): FetchState {
    if item.group.amount > 0.0 then
      var accountId := item.group.accountId;
      var (name, names) := ResolveName(s.names, lookups(s.calls), accountId);
      FetchState(s.costs + [DailyCost(item.date, accountId, name, item.group.service,
                                      item.group.amount, item.group.unit)],
                 names, if accountId in s.names then s.calls else s.calls + 1)
    else s
  }

  /** The state after the groups are read in order, starting from an empty cost list and no calls. */
  function Fetch(items: seq<Item>, names: map<string, string>, lookups: Lookups): FetchState {
    if items == [] then FetchState([], names, 0)
    else FetchStep(Fetch(items[..|items| - 1], names, lookups), lookups, items[|items| - 1])
  }

  function PositiveItems(items: seq<Item>): (r: seq<Item>)
    ensures forall i :: 0 <= i < |r| ==> r[i].group.amount > 0.0
  {
    if items == [] then []
    else
      var init := PositiveItems(items[..|items| - 1]);
      if items[|items| - 1].group.amount > 0.0 then init + [items[|items| - 1]] else init
  }

  /**
   * The costs of a fetch are the groups with a positive amount, in order,
   * carrying their day, account, service, amount and unit.
   */
  lemma {:induction false} FetchKeepsPositiveGroups(items: seq<Item>, names: map<string, string>, lookups: Lookups)
    ensures var costs := Fetch(items, names, lookups).costs;
      var kept := PositiveItems(items);
      && |costs| == |kept|
      && forall i :: 0 <= i < |costs| ==>
           && costs[i].date == kept[i].date
           && costs[i].accountId == kept[i].group.accountId
           && costs[i].service == kept[i].group.service
           && costs[i].cost == kept[i].group.amount
           && costs[i].currency == kept[i].group.unit
  {
    if items != [] {
      FetchKeepsPositiveGroups(items[..|items| - 1], names, lookups);
    }
  }

  /** One of the first `n` calls listed `name` as the name of `accountId`. */
  predicate ListedBy(lookups: Lookups, n: nat, accountId: string, name: string) {
    n > 0 &&
    ((lookups(n - 1).Some? && accountId in Loaded(map[], lookups(n - 1).value)
      && Loaded(map[], lookups(n - 1).value)[accountId] == name)
     || ListedBy(lookups, n - 1, accountId, name))
  }

  /** A name listed by one of the first `n` calls is listed by one of the first `m >= n`. */
  lemma {:induction false} ListedLater(lookups: Lookups, n: nat, m: nat, accountId: string, name: string)
    requires n <= m && ListedBy(lookups, n, accountId, name)
    ensures ListedBy(lookups, m, accountId, name)
  {
    if n < m {
      ListedLater(lookups, n, m - 1, accountId, name);
    }
  }

  /**
   * The cache of a fresh service after its first `n` dimension-values calls:
   * every successful answer loaded in call order. Each cached name was
   * listed for its id by one of those calls.
   */
  function CacheAfter(lookups: Lookups, n: nat): (r: map<string, string>)
    ensures forall accountId :: accountId in r ==> ListedBy(lookups, n, accountId, r[accountId])
  {
    if n == 0 then map[]
    else match lookups(n - 1)
      case None => CacheAfter(lookups, n - 1)
      case Some(values) =>
        LoadedOverrides(CacheAfter(lookups, n - 1), values);
        Loaded(CacheAfter(lookups, n - 1), values)
  }

  /** A cost is named by its raw id, or by a name one of the first `n` calls listed for its account. */
  predicate NamedWithin(lookups: Lookups, n: nat, c: DailyCost) {
    c.accountName == c.accountId || ListedBy(lookups, n, c.accountId, c.accountName)
  }

  /**
   * One group read by a service whose cache is its successful answers
   * loaded in call order: the cache stays so, and a new cost is named by
   * its raw id or by a name one of the calls so far listed.
   */
  lemma {:induction false} FreshStep(prev: FetchState, lookups: Lookups, item: Item)
    requires prev.names == CacheAfter(lookups, prev.calls)
    ensures var s := FetchStep(prev, lookups, item);
      && s.names == CacheAfter(lookups, s.calls)
      && prev.calls <= s.calls
      && (s.costs == prev.costs
          || (s.costs == prev.costs + [s.costs[|prev.costs|]] && NamedWithin(lookups, s.calls, s.costs[|prev.costs|])))
  {
    var accountId := item.group.accountId;
    if item.group.amount > 0.0 {
      var r := ResolveName(prev.names, lookups(prev.calls), accountId);
      var c := DailyCost(item.date, accountId, r.0, item.group.service, item.group.amount, item.group.unit);
      assert FetchStep(prev, lookups, item) == FetchState(prev.costs + [c], r.1,
                                                            if accountId in prev.names then prev.calls else prev.calls + 1);
      if accountId !in prev.names {
        CacheAfterNext(lookups, prev.calls);
        if r.0 != accountId {
          assert ListedBy(lookups, prev.calls + 1, accountId, r.0);
        }
      }
    }
  }

  /** One more call loads its answer, if any, over the cache. */
  lemma {:induction false} CacheAfterNext(lookups: Lookups, n: nat)
    ensures CacheAfter(lookups, n + 1)
         == if lookups(n).Some? then CacheAfter(lookups, n) + Loaded(map[], lookups(n).value) else CacheAfter(lookups, n)
  {
    if lookups(n).Some? {
      LoadedOverrides(CacheAfter(lookups, n), lookups(n).value);
    }
  }

  /**
   * With the cache empty at the start, as each sync's new service has it,
   * the cache is every successful answer loaded in call order, and every
   * cost is named by its raw id or by a name some call listed for its
   * account. Calls may get different answers, so one account can be named
   * both ways in one sync.
   */
  lemma {:induction false} FreshCacheNames(items: seq<Item>, lookups: Lookups)
    ensures var s := Fetch(items, map[], lookups);
      && s.names == CacheAfter(lookups, s.calls)
      && forall i :: 0 <= i < |s.costs| ==> NamedWithin(lookups, s.calls, s.costs[i])
  {
    if items != [] {
      var prev := Fetch(items[..|items| - 1], map[], lookups);
      FreshCacheNames(items[..|items| - 1], lookups);
      FreshStep(prev, lookups, items[|items| - 1]);
      var s := Fetch(items, map[], lookups);
      forall i | 0 <= i < |prev.costs| ensures NamedWithin(lookups, s.calls, s.costs[i]) {
        assert s.costs[i] == prev.costs[i];
        if prev.costs[i].accountName != prev.costs[i].accountId {
          ListedLater(lookups, prev.calls, s.calls, prev.costs[i].accountId, prev.costs[i].accountName);
        }
      }
    }
  }

  /**
   * When every call gets the same answer, every cost is named by that
   * answer's entry for its account, or by its raw id.
   */
  lemma {:induction false} SteadyDirectoryNames(items: seq<Item>, lookups: Lookups, directory: Option<seq<DimensionValue>>)
    requires forall n :: lookups(n) == directory
    ensures var s := Fetch(items, map[], lookups);
      && (s.names == map[] || (directory.Some? && s.names == Loaded(map[], directory.value)))
      && forall i :: 0 <= i < |s.costs| ==> s.costs[i].accountName == DirectoryName(directory, s.costs[i].accountId)
  {
    if items != [] {
      SteadyDirectoryNames(items[..|items| - 1], lookups, directory);
      if directory.Some? {
        LoadedOverrides(Loaded(map[], directory.value), directory.value);
      }
    }
  }

  /** Only positive amounts are upserted, so every row a sync writes has a positive cost. */
  lemma {:induction false} PositiveBatchWritesPositive(facts: Facts, batch: seq<DailyCost>)
    requires forall c :: c in batch ==> c.cost > 0.0
    ensures forall k :: k in ApplyBatch(facts, batch) ==>
      (k in facts && ApplyBatch(facts, batch)[k] == facts[k]) || ApplyBatch(facts, batch)[k].cost > 0.0
  {
    if batch != [] {
      assert forall c :: c in batch[..|batch| - 1] ==> c in batch;
      PositiveBatchWritesPositive(facts, batch[..|batch| - 1]);
    }
  }

  lemma {:induction false} FetchedCostsPositive(items: seq<Item>, names: map<string, string>, lookups: Lookups)
    ensures forall c :: c in Fetch(items, names, lookups).costs ==> c.cost > 0.0
  {
    var costs := Fetch(items, names, lookups).costs;
    FetchKeepsPositiveGroups(items, names, lookups);
    forall c | c in costs ensures c.cost > 0.0 {
      var i :| 0 <= i < |costs| && costs[i] == c;
    }
  }

  class AwsCostService {
    /** Account id to display name, filled from the directory on each lookup of an unknown id. */
    var accountNames: map<string, string>

    constructor ()
      ensures accountNames == map[]
    {
      accountNames := map[];
    }

    /**
     * `GetAccountNameAsync`. `calls` dimension-values calls were made before
     * this one; an id missing from the cache makes call number `calls`,
     * whose answer is `lookups(calls)`.
     */
    method GetAccountName(accountId: string, lookups: Lookups, calls: nat) returns (name: string, callsAfter: nat)
      modifies this
      ensures (name, accountNames) == ResolveName(old(accountNames), lookups(calls), accountId)
      ensures callsAfter == if accountId in old(accountNames) then calls else calls + 1
    {
      if accountId in accountNames {
        return accountNames[accountId], calls;
      }
      callsAfter := calls + 1;
      match lookups(calls) {
        case None =>
          name := accountId;
        case Some(values) =>
          for i := 0 to |values|
            invariant accountNames == Loaded(old(accountNames), values[..i])
          {
            assert values[..i + 1][..i] == values[..i];
            accountNames := accountNames[values[i].value := DescriptionOr(values[i])];
          }
          assert values[..|values|] == values;
          name := if accountId in accountNames then accountNames[accountId] else accountId;
      }
    }

    /** One day's groups, in order: each positive group becomes a cost row carrying its account's name. */
    method ReadGroups(costs0: seq<DailyCost>, calls0: nat, ghost done: seq<Item>, date: Date, groups: seq<CostGroup>,
                      ghost names0: map<string, string>, lookups: Lookups)
      returns (costs: seq<DailyCost>, calls: nat)
      modifies this
      requires FetchState(costs0, accountNames, calls0) == Fetch(done, names0, lookups)
      ensures FetchState(costs, accountNames, calls) == Fetch(done + GroupItems(date, groups), names0, lookups)
    {
      costs, calls := costs0, calls0;
      assert done + GroupItems(date, groups[..0]) == done;
      for g := 0 to |groups|
        invariant FetchState(costs, accountNames, calls) == Fetch(done + GroupItems(date, groups[..g]), names0, lookups)
      {
        var group := groups[g];
        FetchNextGroup(done, date, groups, g, names0, lookups);
        if group.amount > 0.0 {
          var accountName;
          accountName, calls := GetAccountName(group.accountId, lookups, calls);
          costs := costs + [DailyCost(date, group.accountId, accountName, group.service, group.amount, group.unit)];
        }
      }
      assert groups[..|groups|] == groups;
    }

    /**
     * `GetCostsForDateRangeAsync`, given the pages the request returns in
     * order: every group with a positive amount becomes a cost.
     */
    method GetCostsForDateRange(pages: seq<Page>, lookups: Lookups) returns (costs: seq<DailyCost>)
      modifies this
      ensures var s := Fetch(PageItems(pages), old(accountNames), lookups);
        costs == s.costs && accountNames == s.names
    {
      costs := [];
      var calls := 0;
      var p := 0;
      while p < |pages|
        invariant 0 <= p <= |pages|
        invariant FetchState(costs, accountNames, calls) == Fetch(PageItems(pages[..p]), old(accountNames), lookups)
      {
        var results := pages[p].results;
        assert pages[..p + 1][..p] == pages[..p];
        assert PageItems(pages[..p]) + ResultItems(results[..0]) == PageItems(pages[..p]);
        for r := 0 to |results|
          invariant FetchState(costs, accountNames, calls)
                 == Fetch(PageItems(pages[..p]) + ResultItems(results[..r]), old(accountNames), lookups)
        {
          assert results[..r + 1][..r] == results[..r];
          var result := results[r];
          costs, calls := ReadGroups(costs, calls, PageItems(pages[..p]) + ResultItems(results[..r]), result.start,
                                     result.groups, old(accountNames), lookups);
          NextResultItems(PageItems(pages[..p]), results, r);
        }
        assert results[..|results|] == results;
        p := p + 1;
      }
      assert pages[..|pages|] == pages;
    }
  }

  /** Reading group `g` of a day's groups is one more `FetchStep`. */
  lemma {:induction false} FetchNextGroup(done: seq<Item>, date: Date, groups: seq<CostGroup>, g: int,
                       names: map<string, string>, lookups: Lookups)
    requires 0 <= g < |groups|
    ensures Fetch(done + GroupItems(date, groups[..g + 1]), names, lookups)
         == FetchStep(Fetch(done + GroupItems(date, groups[..g]), names, lookups), lookups, Item(date, groups[g]))
  {
    var before := done + GroupItems(date, groups[..g]);
    assert groups[..g + 1][..g] == groups[..g];
    var after := done + GroupItems(date, groups[..g + 1]);
    assert after == before + [Item(date, groups[g])];
    assert after[..|after| - 1] == before;
  }

  lemma {:induction false} NextResultItems(done: seq<Item>, results: seq<ResultByTime>, r: int)
    requires 0 <= r < |results|
    ensures done + ResultItems(results[..r + 1])
         == done + ResultItems(results[..r]) + GroupItems(results[r].start, results[r].groups)
  {
    assert results[..r + 1][..r] == results[..r];
  }

  /** The costs a fresh service collects from the pages. */
  function FetchedCosts(pages: seq<Page>, lookups: Lookups): seq<DailyCost> {
    Fetch(PageItems(pages), map[], lookups).costs
  }

  /**
   * `RefreshAsync` at day `today`. `respond` gives the pages the billing
   * API returns for a range, or None when the request throws (a network
   * failure or a cancellation); `faultAt` is the upsert element whose
   * statement throws, if any; `lookups` answers the dimension-values calls
   * of the sync's new service in turn. Returns the start of the fetched range and
   * whether the upsert committed.
   */
  method RefreshAsync(repo: CostRepository, forceFullSync: bool, today: Date,
                      respond: (Date, Date) -> Option<seq<Page>>, lookups: Lookups,
                      faultAt: Option<nat>)
    returns (syncFrom: Date, committed: bool)
    modifies repo
    ensures syncFrom == PlannedSyncFrom(forceFullSync, today, LatestDate(old(repo.facts)))
    ensures respond(syncFrom, today - 1).None? ==> !committed && repo.facts == old(repo.facts)
    ensures respond(syncFrom, today - 1).Some? ==>
      var costs := FetchedCosts(respond(syncFrom, today - 1).value, lookups);
      && (committed <==> faultAt.None? || faultAt.value >= |costs|)
      && repo.facts == (if committed then ApplyBatch(old(repo.facts), costs) else old(repo.facts))
  {
    var costService := new AwsCostService();
    var yesterday := today - 1;
    syncFrom := PlannedSyncFrom(forceFullSync, today, LatestDate(repo.facts));
    var missingDates := repo.GetMissingDates(syncFrom, yesterday);
    GapCheckIsNoOp(repo.facts, forceFullSync, today, missingDates);
    if |missingDates| == 0 && !forceFullSync {
      syncFrom := today - CatchUpDays;
    }
    match respond(syncFrom, yesterday) {
      case None =>
        committed := false;
      case Some(pages) =>
        var costs := costService.GetCostsForDateRange(pages, lookups);
        committed := repo.UpsertCosts(costs, faultAt);
    }
  }

  /**
   * After a refresh, every row is either one that was there before,
   * untouched, or one the sync wrote with a positive cost.
   */
  lemma {:induction false} RefreshWritesOnlyPositiveCosts(facts: Facts, pages: seq<Page>, lookups: Lookups)
    ensures var after := ApplyBatch(facts, FetchedCosts(pages, lookups));
      forall k :: k in after ==> (k in facts && after[k] == facts[k]) || after[k].cost > 0.0
  {
    FetchedCostsPositive(PageItems(pages), map[], lookups);
    PositiveBatchWritesPositive(facts, FetchedCosts(pages, lookups));
  }
}
