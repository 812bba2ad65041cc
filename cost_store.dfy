/**
 * The daily-cost store: a table of facts with the unique key
 * (date, account_id, service). The table is the map `Facts`; each query is a
 * function of that map, and `CostRepository` holds the map and has the
 * operations that the source writes as loops (the transactional upsert, the
 * gap finder, and the per-account summaries).
 */
module CostStore {
  import opened Calendar
  import opened Collections
  import opened Text
  import opened Wrappers
  import opened Models

  /** The table's unique key. */
  datatype Key = Key(date: Date, accountId: string, service: string)

  /** The columns an upsert writes besides the key. */
  datatype Entry = Entry(accountName: string, cost: real, currency: string)

  type Facts = map<Key, Entry>

  function KeyOf(c: DailyCost): Key {
    Key(c.date, c.accountId, c.service)
  }

  function EntryOf(c: DailyCost): Entry {
    Entry(c.accountName, c.cost, c.currency)
  }

  /** The row the table holds under `k`. */
  function FactAt(facts: Facts, k: Key): (c: DailyCost)
    requires k in facts
    ensures KeyOf(c) == k && EntryOf(c) == facts[k]
  {
    DailyCost(k.date, k.accountId, facts[k].accountName, k.service, facts[k].cost, facts[k].currency)
  }

  /** ORDER BY date, account_id, service. */
  predicate KeyLess(a: Key, b: Key) {
    || a.date < b.date
    || (a.date == b.date && StrLess(a.accountId, b.accountId))
    || (a.date == b.date && a.accountId == b.accountId && StrLess(a.service, b.service))
  }

  lemma {:induction false} KeyLessIsStrictTotalOrder()
    ensures StrictTotalOrder(KeyLess)
  {
    StrLessIsStrictTotalOrder();
  }

  /** Rows compared by their keys. */
  predicate CostLess(a: DailyCost, b: DailyCost) {
    KeyLess(KeyOf(a), KeyOf(b))
  }

  lemma {:induction false} CostLessIsStrictOrder()
    ensures StrictOrder(CostLess)
  {
    KeyLessIsStrictTotalOrder();
  }

  // ---------------------------------------------------------------------
  // The credit heuristic

  const CreditMarker := "credit"

  /** `service LIKE '%Credit%'`: SQLite's LIKE ignores ASCII case. */
  predicate IsCreditService(service: string): (r: bool)
    ensures r <==> Like(service, "Credit")
  {
    assert forall j :: 0 <= j < |CreditMarker| ==> AsciiLower("Credit"[j]) == CreditMarker[j];
    assert forall i :: 0 <= i && i + |CreditMarker| <= |service| ==>
      (MatchesAt(service, CreditMarker, i) <==> LikeAt(service, "Credit", i));
    ContainsIgnoringAsciiCase(service, CreditMarker)
  }

  /** The credits query's condition `service LIKE '%Credit%' OR cost < 0`. */
  predicate IsCreditCost(c: DailyCost): (r: bool)
    ensures r <==> Like(c.service, "Credit") || c.cost < 0.0
  {
    IsCreditService(c.service) || c.cost < 0.0
  }

  /**
   * The filter added when credits are excluded, `service NOT LIKE '%Credit%'
   * AND cost >= 0`: it keeps exactly the rows the credits query does not select.
   */
  predicate NotCreditCost(c: DailyCost): (r: bool)
    ensures r <==> !IsCreditCost(c)
  {
    !IsCreditService(c.service) && c.cost >= 0.0
  }

  /** The WHERE clause of the range queries. */
  predicate Selected(c: DailyCost, from: Date, until: Date, includeCredits: bool) {
    from <= c.date <= until && (includeCredits || NotCreditCost(c))
  }

  // ---------------------------------------------------------------------
  // Queries

  /** `GetLatestDate`: MAX(date), or nothing for an empty table. */
  function LatestDate(facts: Facts): (latest: Option<Date>)
    ensures latest.None? <==> facts == map[]
    ensures latest.Some? ==>
      (exists k :: k in facts && k.date == latest.value)
      && forall k :: k in facts ==> k.date <= latest.value
  {
    var dates := set k | k in facts :: k.date;
    assert forall k :: k in facts ==> k.date in dates;
    if dates == {} then None
    else
      DateGreaterIsStrictTotalOrder();
      Some(Minimum(dates, DateGreater))
  }

  predicate DateGreater(a: Date, b: Date) {
    a > b
  }

  lemma {:induction false} DateGreaterIsStrictTotalOrder()
    ensures StrictTotalOrder(DateGreater)
  {
  }

  predicate DateLess(a: Date, b: Date) {
    a < b
  }

  lemma {:induction false} DateLessIsStrictTotalOrder()
    ensures StrictTotalOrder(DateLess)
  {
  }

  /** The keys of the rows a range query selects. */
  function SelectedKeys(facts: Facts, from: Date, until: Date, includeCredits: bool): set<Key> {
    set k | k in facts && Selected(FactAt(facts, k), from, until, includeCredits)
  }

  /** The rows the table holds under `keys`, in that order. */
  function FactsAt(facts: Facts, keys: seq<Key>): (rows: seq<DailyCost>)
    requires forall k :: k in keys ==> k in facts
    ensures |rows| == |keys|
    ensures forall i :: 0 <= i < |keys| ==> rows[i] == FactAt(facts, keys[i])
  {
    if keys == [] then [] else [FactAt(facts, keys[0])] + FactsAt(facts, keys[1..])
  }

  /**
   * `GetCostsForDateRange`: every stored row inside [from, until] that passes
   * the credit filter, each once, ordered by (date, account_id, service).
   */
  function CostsForDateRange(facts: Facts, from: Date, until: Date, includeCredits: bool): (rows: seq<DailyCost>)
    ensures forall c :: c in rows ==>
      KeyOf(c) in facts && c == FactAt(facts, KeyOf(c)) && Selected(c, from, until, includeCredits)
    ensures forall k :: k in facts && Selected(FactAt(facts, k), from, until, includeCredits) ==> FactAt(facts, k) in rows
    ensures StrictlyAscending(rows, CostLess)
  {
    KeyLessIsStrictTotalOrder();
    var keys := SortSet(SelectedKeys(facts, from, until, includeCredits), KeyLess);
    FactsAtContents(facts, keys);
    FactsAt(facts, keys)
  }

  lemma {:induction false} FactsAtContents(facts: Facts, keys: seq<Key>)
    requires forall k :: k in keys ==> k in facts
    ensures forall c :: c in FactsAt(facts, keys) ==> KeyOf(c) in keys && c == FactAt(facts, KeyOf(c))
    ensures forall k :: k in keys ==> FactAt(facts, k) in FactsAt(facts, keys)
    ensures StrictlyAscending(keys, KeyLess) ==> StrictlyAscending(FactsAt(facts, keys), CostLess)
  {
    var rows := FactsAt(facts, keys);
    forall c | c in rows ensures KeyOf(c) in keys && c == FactAt(facts, KeyOf(c)) {
      var i :| 0 <= i < |rows| && rows[i] == c;
      assert KeyOf(c) == keys[i];
    }
    forall k | k in keys ensures FactAt(facts, k) in rows {
      var i :| 0 <= i < |keys| && keys[i] == k;
      assert rows[i] == FactAt(facts, k);
    }
  }

  function CostOf(c: DailyCost): real {
    c.cost
  }

  function AbsCost(c: DailyCost): real {
    Abs(c.cost)
  }

  /** `GetTotalForDateRange`: COALESCE(SUM(cost), 0) over the rows the range query selects. */
  function TotalForDateRange(facts: Facts, from: Date, until: Date, includeCredits: bool): (total: real)
    ensures CostsForDateRange(facts, from, until, includeCredits) == [] ==> total == 0.0
    ensures (forall c :: c in CostsForDateRange(facts, from, until, includeCredits) ==> c.cost >= 0.0) ==> total >= 0.0
  {
    var rows := CostsForDateRange(facts, from, until, includeCredits);
    SumNonNegative(rows, CostOf);
    Sum(rows, CostOf)
  }

  /**
   * `GetCreditsForDateRange`: the sum of |cost| over the in-range rows that
   * are credits. It has no credits toggle.
   */
  function CreditsForDateRange(facts: Facts, from: Date, until: Date): (credits: real)
    ensures credits >= 0.0
    ensures (forall c :: c in CostsForDateRange(facts, from, until, true) ==> !IsCreditCost(c)) ==> credits == 0.0
  {
    var credits := Filter(CostsForDateRange(facts, from, until, true), IsCreditCost);
    SumNonNegative(credits, AbsCost);
    HasMember(credits);
    Sum(credits, AbsCost)
  }

  function DateOf(c: DailyCost): Date {
    c.date
  }

  function DayTotalOf(day: (Date, real)): real {
    day.1
  }

  /** One (day, sum of that day's costs) pair per day of `days`, in that order. */
  function DayRows(rows: seq<DailyCost>, days: seq<Date>): (r: seq<(Date, real)>)
    ensures |r| == |days|
    ensures forall i :: 0 <= i < |r| ==> r[i] == (days[i], SumWhere(rows, CostOf, DateOf, days[i]))
  {
    if days == [] then []
    else [(days[0], SumWhere(rows, CostOf, DateOf, days[0]))] + DayRows(rows, days[1..])
  }

  /** The dates that occur in `rows`. */
  function DatesOf(rows: seq<DailyCost>): set<Date> {
    set c | c in rows :: c.date
  }

  /**
   * `GetDailyTotals`: GROUP BY date ORDER BY date over the selected rows —
   * one entry per date that has selected rows, ascending, holding that
   * date's sum.
   */
  function DailyTotals(facts: Facts, from: Date, until: Date, includeCredits: bool): (days: seq<(Date, real)>)
    ensures forall i, j :: 0 <= i < j < |days| ==> days[i].0 < days[j].0
    ensures forall i :: 0 <= i < |days| ==> days[i].0 in DatesOf(CostsForDateRange(facts, from, until, includeCredits))
    ensures forall d :: d in DatesOf(CostsForDateRange(facts, from, until, includeCredits)) ==>
      exists i :: 0 <= i < |days| && days[i].0 == d
    ensures forall i :: 0 <= i < |days| ==>
      days[i].1 == SumWhere(CostsForDateRange(facts, from, until, includeCredits), CostOf, DateOf, days[i].0)
  {
    GroupByDate(CostsForDateRange(facts, from, until, includeCredits))
  }

  /** GROUP BY date ORDER BY date: one entry per date of `rows`, ascending, holding that date's sum. */
  function GroupByDate(rows: seq<DailyCost>): (days: seq<(Date, real)>)
    ensures forall i, j :: 0 <= i < j < |days| ==> days[i].0 < days[j].0
    ensures forall i :: 0 <= i < |days| ==> days[i].0 in DatesOf(rows)
    ensures forall d :: d in DatesOf(rows) ==> exists i :: 0 <= i < |days| && days[i].0 == d
    ensures forall i :: 0 <= i < |days| ==> days[i].1 == SumWhere(rows, CostOf, DateOf, days[i].0)
  {
    DateLessIsStrictTotalOrder();
    var dates := SortSet(DatesOf(rows), DateLess);
    DayRowsCover(rows, dates);
    DayRows(rows, dates)
  }

  /** Every day `DailyTotals` lists lies in the queried range. */
  lemma {:induction false} DailyTotalsInRange(facts: Facts, from: Date, until: Date, includeCredits: bool)
    ensures var days := DailyTotals(facts, from, until, includeCredits);
      forall i :: 0 <= i < |days| ==> from <= days[i].0 <= until
  {
    var rows := CostsForDateRange(facts, from, until, includeCredits);
    var days := DailyTotals(facts, from, until, includeCredits);
    forall i | 0 <= i < |days| ensures from <= days[i].0 <= until {
      assert days[i].0 in DatesOf(rows);
      var c :| c in rows && c.date == days[i].0;
    }
  }

  lemma {:induction false} DayRowsCover(rows: seq<DailyCost>, dates: seq<Date>)
    ensures forall d :: d in dates ==> exists i :: 0 <= i < |DayRows(rows, dates)| && DayRows(rows, dates)[i].0 == d
  {
    var r := DayRows(rows, dates);
    forall d | d in dates ensures exists i :: 0 <= i < |r| && r[i].0 == d {
      var i :| 0 <= i < |dates| && dates[i] == d;
      assert r[i] == (dates[i], SumWhere(rows, CostOf, DateOf, dates[i]));
    }
    assert r == DayRows(rows, dates);
  }

  // ---------------------------------------------------------------------
  // Facts about the queries

  /** Excluding credits keeps exactly the non-credit rows of the unfiltered query, in the same order. */
  lemma {:induction false} FilteredQueryIsFilter(facts: Facts, from: Date, until: Date)
    ensures CostsForDateRange(facts, from, until, false)
         == Filter(CostsForDateRange(facts, from, until, true), NotCreditCost)
  {
    var all := CostsForDateRange(facts, from, until, true);
    CostLessIsStrictOrder();
    FilterAscending(all, NotCreditCost, CostLess);
    AscendingUnique(CostsForDateRange(facts, from, until, false), Filter(all, NotCreditCost), CostLess);
  }

  /**
   * The credits filter and the exclude-credits filter are complements:
   * the unfiltered total is the filtered total plus the signed sum over the
   * rows the credits summary covers.
   */
  lemma {:induction false} TotalsDifference(facts: Facts, from: Date, until: Date)
    ensures TotalForDateRange(facts, from, until, true)
         == TotalForDateRange(facts, from, until, false)
          + Sum(Filter(CostsForDateRange(facts, from, until, true), IsCreditCost), CostOf)
  {
    FilteredQueryIsFilter(facts, from, until);
    SumPartition(CostsForDateRange(facts, from, until, true), CostOf, IsCreditCost, NotCreditCost);
  }

  /**
   * The credits summary bounds the change that excluding credits makes to a
   * total, and equals it exactly when every credit row is a non-positive amount.
   */
  lemma {:induction false} CreditsVersusTotals(facts: Facts, from: Date, until: Date)
    ensures var change := TotalForDateRange(facts, from, until, false) - TotalForDateRange(facts, from, until, true);
      -CreditsForDateRange(facts, from, until) <= change <= CreditsForDateRange(facts, from, until)
    ensures (forall c :: c in CostsForDateRange(facts, from, until, true) && IsCreditCost(c) ==> c.cost <= 0.0) ==>
      TotalForDateRange(facts, from, until, false) - TotalForDateRange(facts, from, until, true)
        == CreditsForDateRange(facts, from, until)
  {
    TotalsDifference(facts, from, until);
    SignedWithinAbsolute(Filter(CostsForDateRange(facts, from, until, true), IsCreditCost));
  }

  lemma {:induction false} SignedWithinAbsolute(rows: seq<DailyCost>)
    ensures -Sum(rows, AbsCost) <= Sum(rows, CostOf) <= Sum(rows, AbsCost)
    ensures (forall c :: c in rows ==> c.cost <= 0.0) ==> Sum(rows, CostOf) == -Sum(rows, AbsCost)
  {
    if rows != [] {
      SignedWithinAbsolute(rows[1..]);
      assert forall c :: c in rows[1..] ==> c in rows;
    }
  }

  lemma {:induction false} DayRowsSum(rows: seq<DailyCost>, days: seq<Date>)
    ensures Sum(DayRows(rows, days), DayTotalOf) == SumOfGroups(rows, CostOf, DateOf, days)
  {
    if days != [] {
      DayRowsSum(rows, days[1..]);
    }
  }

  /** The daily totals add up to the range total: every selected row lies on exactly one listed day. */
  lemma {:induction false} DailyTotalsAddUp(facts: Facts, from: Date, until: Date, includeCredits: bool)
    ensures Sum(DailyTotals(facts, from, until, includeCredits), DayTotalOf)
         == TotalForDateRange(facts, from, until, includeCredits)
  {
    var rows := CostsForDateRange(facts, from, until, includeCredits);
    DateLessIsStrictTotalOrder();
    var dates := SortSet(DatesOf(rows), DateLess);
    DayRowsSum(rows, dates);
    AscendingDistinct(dates, DateLess);
    assert forall c :: c in rows ==> DateOf(c) in dates;
    SumByGroups(rows, CostOf, DateOf, dates);
  }

  // ---------------------------------------------------------------------
  // Upsert

  /** INSERT ... ON CONFLICT(date, account_id, service) DO UPDATE for one row. */
  function Upsert(facts: Facts, c: DailyCost): (r: Facts)
    ensures r.Keys == facts.Keys + {KeyOf(c)}
    ensures r[KeyOf(c)] == EntryOf(c)
    ensures forall k :: k in facts && k != KeyOf(c) ==> r[k] == facts[k]
  {
    facts[KeyOf(c) := EntryOf(c)]
  }

  /** The table after every row of the batch has been upserted, in order. */
  function ApplyBatch(facts: Facts, batch: seq<DailyCost>): Facts {
    if batch == [] then facts
    else Upsert(ApplyBatch(facts, batch[..|batch| - 1]), batch[|batch| - 1])
  }

  function Lookup(facts: Facts, k: Key): Option<Entry> {
    if k in facts then Some(facts[k]) else None
  }

  /** What the batch leaves under `k`, starting from `before`: the last write until `k` wins. */
  function LastWrite(before: Option<Entry>, batch: seq<DailyCost>, k: Key): Option<Entry> {
    if batch == [] then before
    else if KeyOf(batch[|batch| - 1]) == k then Some(EntryOf(batch[|batch| - 1]))
    else LastWrite(before, batch[..|batch| - 1], k)
  }

  lemma {:induction false} ApplyBatchAt(facts: Facts, batch: seq<DailyCost>, k: Key)
    ensures Lookup(ApplyBatch(facts, batch), k) == LastWrite(Lookup(facts, k), batch, k)
  {
    if batch != [] {
      ApplyBatchAt(facts, batch[..|batch| - 1], k);
    }
  }

  /** A key the batch writes ends with the batch's value whatever it held before. */
  lemma {:induction false} LastWriteShape(before: Option<Entry>, batch: seq<DailyCost>, k: Key)
    ensures LastWrite(before, batch, k)
         == (if LastWrite(None, batch, k).Some? then LastWrite(None, batch, k) else before)
  {
    if batch != [] && KeyOf(batch[|batch| - 1]) != k {
      LastWriteShape(before, batch[..|batch| - 1], k);
    }
  }

  /**
   * Last write wins: when element `i` is the batch's last one with key `k`,
   * the table holds that element's name, cost and currency under `k`.
   */
  lemma {:induction false} ApplyBatchLastWins(facts: Facts, batch: seq<DailyCost>, i: int)
    requires 0 <= i < |batch|
    requires forall j :: i < j < |batch| ==> KeyOf(batch[j]) != KeyOf(batch[i])
    ensures KeyOf(batch[i]) in ApplyBatch(facts, batch)
    ensures ApplyBatch(facts, batch)[KeyOf(batch[i])] == EntryOf(batch[i])
  {
    if i < |batch| - 1 {
      ApplyBatchLastWins(facts, batch[..|batch| - 1], i);
    }
  }

  /** Keys the batch does not mention keep their row, or stay absent. */
  lemma {:induction false} ApplyBatchUntouched(facts: Facts, batch: seq<DailyCost>, k: Key)
    requires forall j :: 0 <= j < |batch| ==> KeyOf(batch[j]) != k
    ensures k in ApplyBatch(facts, batch) <==> k in facts
    ensures k in facts ==> ApplyBatch(facts, batch)[k] == facts[k]
  {
    if batch != [] {
      ApplyBatchUntouched(facts, batch[..|batch| - 1], k);
    }
  }

  /** Upserting the same batch twice leaves the table as upserting it once. */
  lemma {:induction false} ApplyBatchIdempotent(facts: Facts, batch: seq<DailyCost>)
    ensures ApplyBatch(ApplyBatch(facts, batch), batch) == ApplyBatch(facts, batch)
  {
    var once := ApplyBatch(facts, batch);
    var twice := ApplyBatch(once, batch);
    forall k ensures Lookup(twice, k) == Lookup(once, k) {
      ApplyBatchAt(once, batch, k);
      ApplyBatchAt(facts, batch, k);
      LastWriteShape(Lookup(once, k), batch, k);
      LastWriteShape(Lookup(facts, k), batch, k);
    }
    assert forall k :: k in twice <==> k in once by {
      forall k ensures k in twice <==> k in once {
        assert Lookup(twice, k) == Lookup(once, k);
      }
    }
    assert forall k :: k in twice ==> twice[k] == once[k] by {
      forall k | k in twice ensures twice[k] == once[k] {
        assert Lookup(twice, k) == Lookup(once, k);
      }
    }
  }

  // ---------------------------------------------------------------------
  // Per-account summaries

  /** A row of GROUP BY account_id, account_name, service. */
  datatype ServiceTotal = ServiceTotal(accountId: string, accountName: string, service: string, total: real)

  datatype AccountServiceGroup = AccountServiceGroup(accountId: string, service: string, accountName: string)

  function GroupOf(c: DailyCost): AccountServiceGroup {
    AccountServiceGroup(c.accountId, c.service, c.accountName)
  }

  /**
   * ORDER BY account_id, service; two groups that differ only in the account
   * name are placed by the name.
   */
  predicate GroupLess(a: AccountServiceGroup, b: AccountServiceGroup) {
    || StrLess(a.accountId, b.accountId)
    || (a.accountId == b.accountId && StrLess(a.service, b.service))
    || (a.accountId == b.accountId && a.service == b.service && StrLess(a.accountName, b.accountName))
  }

  lemma {:induction false} GroupLessIsStrictTotalOrder()
    ensures StrictTotalOrder(GroupLess)
  {
    StrLessIsStrictTotalOrder();
  }

  function GroupRows(rows: seq<DailyCost>, groups: seq<AccountServiceGroup>): (r: seq<ServiceTotal>)
    ensures |r| == |groups|
    ensures forall i :: 0 <= i < |r| ==>
      r[i] == ServiceTotal(groups[i].accountId, groups[i].accountName, groups[i].service,
                           SumWhere(rows, CostOf, GroupOf, groups[i]))
  {
    if groups == [] then []
    else
      [ServiceTotal(groups[0].accountId, groups[0].accountName, groups[0].service,
                    SumWhere(rows, CostOf, GroupOf, groups[0]))]
      + GroupRows(rows, groups[1..])
  }

  /** The groups that occur among `rows`. */
  function GroupsOf(rows: seq<DailyCost>): set<AccountServiceGroup> {
    set c | c in rows :: GroupOf(c)
  }

  /**
   * The query behind `GetAccountSummaries`: one row per (account, name,
   * service) group of the selected rows, holding the group's sum, ordered by
   * account and service.
   */
  function ServiceTotals(facts: Facts, from: Date, until: Date, includeCredits: bool): (r: seq<ServiceTotal>)
    ensures var rows := CostsForDateRange(facts, from, until, includeCredits);
      && (forall i, j :: 0 <= i < j < |r| ==> GroupLess(GroupOfTotal(r[i]), GroupOfTotal(r[j])))
      && (forall i :: 0 <= i < |r| ==>
            GroupOfTotal(r[i]) in GroupsOf(rows) && r[i].total == SumWhere(rows, CostOf, GroupOf, GroupOfTotal(r[i])))
      && (forall g :: g in GroupsOf(rows) ==> exists i :: 0 <= i < |r| && GroupOfTotal(r[i]) == g)
  {
    GroupByAccountService(CostsForDateRange(facts, from, until, includeCredits))
  }

  /**
   * GROUP BY account, name and service ORDER BY account, service: each group
   * of `rows` is listed once, in group order, with the sum of its rows.
   */
  function GroupByAccountService(rows: seq<DailyCost>): (r: seq<ServiceTotal>)
    ensures forall i, j :: 0 <= i < j < |r| ==> GroupLess(GroupOfTotal(r[i]), GroupOfTotal(r[j]))
    ensures forall i :: 0 <= i < |r| ==>
      GroupOfTotal(r[i]) in GroupsOf(rows) && r[i].total == SumWhere(rows, CostOf, GroupOf, GroupOfTotal(r[i]))
    ensures forall g :: g in GroupsOf(rows) ==> exists i :: 0 <= i < |r| && GroupOfTotal(r[i]) == g
  {
    GroupLessIsStrictTotalOrder();
    GroupRowsCover(rows, SortSet(GroupsOf(rows), GroupLess));
    GroupRows(rows, SortSet(GroupsOf(rows), GroupLess))
  }

  function GroupOfTotal(t: ServiceTotal): AccountServiceGroup {
    AccountServiceGroup(t.accountId, t.service, t.accountName)
  }

  lemma {:induction false} GroupRowsCover(rows: seq<DailyCost>, groups: seq<AccountServiceGroup>)
    ensures forall i :: 0 <= i < |groups| ==> GroupOfTotal(GroupRows(rows, groups)[i]) == groups[i]
    ensures forall g :: g in groups ==>
      exists i :: 0 <= i < |GroupRows(rows, groups)| && GroupOfTotal(GroupRows(rows, groups)[i]) == g
  {
    forall g | g in groups
      ensures exists i :: 0 <= i < |GroupRows(rows, groups)| && GroupOfTotal(GroupRows(rows, groups)[i]) == g
    {
      var i :| 0 <= i < |groups| && groups[i] == g;
      assert GroupOfTotal(GroupRows(rows, groups)[i]) == g;
    }
  }

  /** The account ids that occur in `rows`. */
  function AccountIds(rows: seq<ServiceTotal>): set<string> {
    set r | r in rows :: r.accountId
  }

  /**
   * The account ids in the order they first occur: the order in which the
   * summaries are added to the dictionary.
   */
  function AccountOrder(rows: seq<ServiceTotal>): seq<string> {
    if rows == [] then []
    else
      var init := rows[..|rows| - 1];
      var id := rows[|rows| - 1].accountId;
      if id in AccountIds(init) then AccountOrder(init) else AccountOrder(init) + [id]
  }

  /** The account name of the first row for the account. */
  function FirstNameOf(rows: seq<ServiceTotal>, accountId: string): string {
    if rows == [] then ""
    else
      var init := rows[..|rows| - 1];
      if accountId in AccountIds(init) then FirstNameOf(init, accountId)
      else rows[|rows| - 1].accountName
  }

  /** The account's service map after all rows are read: a later row for the same service replaces the earlier one. */
  function ServiceCostsOf(rows: seq<ServiceTotal>, accountId: string): map<string, real> {
    if rows == [] then map[]
    else
      var m := ServiceCostsOf(rows[..|rows| - 1], accountId);
      var row := rows[|rows| - 1];
      if row.accountId == accountId then m[row.service := row.total] else m
  }

  /** The services that occur in the rows of one account. */
  function ServicesOf(rows: seq<ServiceTotal>, accountId: string): set<string> {
    set r | r in rows && r.accountId == accountId :: r.service
  }

  /** Every service row of the account leaves an entry, and only those do. */
  lemma {:induction false} ServiceCostsOfKeys(rows: seq<ServiceTotal>, accountId: string)
    ensures ServiceCostsOf(rows, accountId).Keys == ServicesOf(rows, accountId)
  {
    if rows != [] {
      var init := rows[..|rows| - 1];
      ServiceCostsOfKeys(init, accountId);
      assert rows == init + [rows[|rows| - 1]];
      assert forall r :: r in rows <==> r in init || r == rows[|rows| - 1];
    }
  }

  /** The values of `m` at the keys `ks`, added up; a key `m` lacks adds nothing. */
  function SumOfKeys(m: map<string, real>, ks: seq<string>): real {
    if ks == [] then 0.0 else (if ks[0] in m then m[ks[0]] else 0.0) + SumOfKeys(m, ks[1..])
  }

  /** `Values.Sum()`: every value of the map, added up once. */
  function SumOfValues(m: map<string, real>): real {
    StrLessIsStrictTotalOrder();
    SumOfKeys(m, SortSet(m.Keys, StrLess))
  }

  /** The summary the source builds for one account. */
  function SummaryOf(rows: seq<ServiceTotal>, accountId: string): (a: AccountSummary)
    ensures a.accountId == accountId
  {
    var services := ServiceCostsOf(rows, accountId);
    AccountSummary(accountId, FirstNameOf(rows, accountId), SumOfValues(services), services)
  }

  /**
   * An account's total is the sum of its per-service costs, and it has one
   * per-service entry for each service that occurs in its rows.
   */
  lemma {:induction false} SummaryTotals(rows: seq<ServiceTotal>, accountId: string)
    ensures var a := SummaryOf(rows, accountId);
      && a.totalCost == SumOfValues(a.costByService)
      && a.costByService.Keys == ServicesOf(rows, accountId)
  {
    ServiceCostsOfKeys(rows, accountId);
  }

  /** The index of the last row for the account and service, or -1 when there is none. */
  function LastRowFor(rows: seq<ServiceTotal>, accountId: string, service: string): (i: int)
    ensures -1 <= i < |rows|
    ensures i >= 0 ==> rows[i].accountId == accountId && rows[i].service == service
    ensures forall j :: i < j < |rows| ==> rows[j].accountId != accountId || rows[j].service != service
  {
    if rows == [] then -1
    else if rows[|rows| - 1].accountId == accountId && rows[|rows| - 1].service == service then |rows| - 1
    else LastRowFor(rows[..|rows| - 1], accountId, service)
  }

  /**
   * A service has an entry exactly when some row is for the account and
   * service, and the entry is the total of the last such row.
   */
  lemma {:induction false} ServiceCostIsLastRow(rows: seq<ServiceTotal>, accountId: string, service: string)
    ensures var i := LastRowFor(rows, accountId, service);
      && (service in ServiceCostsOf(rows, accountId) <==> i >= 0)
      && (i >= 0 ==> ServiceCostsOf(rows, accountId)[service] == rows[i].total)
  {
    if rows != [] {
      ServiceCostIsLastRow(rows[..|rows| - 1], accountId, service);
    }
  }

  /** The services of one account among the stored rows. */
  function CostServicesOf(costs: seq<DailyCost>, accountId: string): set<string> {
    set c | c in costs && c.accountId == accountId :: c.service
  }

  function ServiceKeyOf(c: DailyCost): (string, string) {
    (c.accountId, c.service)
  }

  function AccountIdOf(c: DailyCost): string {
    c.accountId
  }

  /** Over the grouped query, an account's services are exactly the services of its stored rows. */
  lemma {:induction false} GroupedServices(costs: seq<DailyCost>, accountId: string)
    ensures ServicesOf(GroupByAccountService(costs), accountId) == CostServicesOf(costs, accountId)
  {
    ServicesOfGroups(GroupByAccountService(costs), costs, accountId);
  }

  /** Rows listing exactly the groups of `costs` list, for an account, exactly the services of its stored rows. */
  lemma {:induction false} ServicesOfGroups(rows: seq<ServiceTotal>, costs: seq<DailyCost>, accountId: string)
    requires forall i :: 0 <= i < |rows| ==> GroupOfTotal(rows[i]) in GroupsOf(costs)
    requires forall g :: g in GroupsOf(costs) ==> exists i :: 0 <= i < |rows| && GroupOfTotal(rows[i]) == g
    ensures ServicesOf(rows, accountId) == CostServicesOf(costs, accountId)
  {
    forall s | s in ServicesOf(rows, accountId) ensures s in CostServicesOf(costs, accountId) {
      var k :| 0 <= k < |rows| && rows[k].accountId == accountId && rows[k].service == s;
      var c :| c in costs && GroupOf(c) == GroupOfTotal(rows[k]);
    }
    forall s | s in CostServicesOf(costs, accountId) ensures s in ServicesOf(rows, accountId) {
      var c :| c in costs && c.accountId == accountId && c.service == s;
      assert GroupOf(c) in GroupsOf(costs);
      var k :| 0 <= k < |rows| && GroupOfTotal(rows[k]) == GroupOf(c);
      assert rows[k] in rows;
    }
  }

  /**
   * Over the grouped query, an account has an entry for each service of its
   * stored rows, and each entry is the sum of the stored rows of one
   * (account, name, service) group: the one whose grouped row comes last.
   */
  lemma {:induction false} GroupedServiceCost(costs: seq<DailyCost>, accountId: string, service: string)
    ensures var rows := GroupByAccountService(costs);
      var m := ServiceCostsOf(rows, accountId);
      var i := LastRowFor(rows, accountId, service);
      && m.Keys == CostServicesOf(costs, accountId)
      && (service in m ==>
            && i >= 0 && GroupOfTotal(rows[i]) in GroupsOf(costs)
            && m[service] == SumWhere(costs, CostOf, GroupOf, GroupOfTotal(rows[i])))
  {
    var rows := GroupByAccountService(costs);
    GroupedServices(costs, accountId);
    ServiceCostsOfKeys(rows, accountId);
    ServiceCostIsLastRow(rows, accountId, service);
  }

  /** Every stored row of an account carries the same account name. */
  predicate OneNamePerAccount(costs: seq<DailyCost>) {
    forall c, d :: c in costs && d in costs && c.accountId == d.accountId ==> c.accountName == d.accountName
  }

  /** With one name per account, a service's entry is the sum of the account's stored rows for that service. */
  lemma {:induction false} OneNameServiceCost(costs: seq<DailyCost>, accountId: string, service: string)
    requires OneNamePerAccount(costs)
    ensures var m := ServiceCostsOf(GroupByAccountService(costs), accountId);
      service in m ==> m[service] == SumWhere(costs, CostOf, ServiceKeyOf, (accountId, service))
  {
    var rows := GroupByAccountService(costs);
    GroupedServiceCost(costs, accountId, service);
    if service in ServiceCostsOf(rows, accountId) {
      var g := GroupOfTotal(rows[LastRowFor(rows, accountId, service)]);
      var c0 :| c0 in costs && GroupOf(c0) == g;
      forall c | c in costs ensures GroupOf(c) == g <==> ServiceKeyOf(c) == (accountId, service) {
        if ServiceKeyOf(c) == (accountId, service) {
          assert c.accountName == c0.accountName;
        }
      }
      SumWhereSameSelection(costs, CostOf, GroupOf, g, ServiceKeyOf, (accountId, service));
    }
  }

  /** The pairs of one account with each of the services `ss`, in order. */
  function Pairs(accountId: string, ss: seq<string>): (r: seq<(string, string)>)
    ensures |r| == |ss|
    ensures forall i :: 0 <= i < |r| ==> r[i] == (accountId, ss[i])
  {
    if ss == [] then [] else [(accountId, ss[0])] + Pairs(accountId, ss[1..])
  }

  lemma {:induction false} SumOfKeysAsGroups(m: map<string, real>, costs: seq<DailyCost>, accountId: string, ss: seq<string>)
    requires forall s :: s in ss ==> s in m && m[s] == SumWhere(costs, CostOf, ServiceKeyOf, (accountId, s))
    ensures SumOfKeys(m, ss) == SumOfGroups(costs, CostOf, ServiceKeyOf, Pairs(accountId, ss))
  {
    if ss != [] {
      assert ss[0] in ss;
      assert forall s :: s in ss[1..] ==> s in ss;
      SumOfKeysAsGroups(m, costs, accountId, ss[1..]);
      assert Pairs(accountId, ss)[1..] == Pairs(accountId, ss[1..]);
    }
  }

  lemma {:induction false} PairsDistinct(accountId: string, ss: seq<string>)
    requires Distinct(ss)
    ensures Distinct(Pairs(accountId, ss))
  {
    var pairs := Pairs(accountId, ss);
    forall i, j | 0 <= i < j < |pairs| ensures pairs[i] != pairs[j] {
      assert ss[i] != ss[j];
    }
  }

  lemma {:induction false} PairsMembers(accountId: string, ss: seq<string>, p: (string, string))
    ensures p in Pairs(accountId, ss) <==> p.0 == accountId && p.1 in ss
  {
    if ss != [] {
      PairsMembers(accountId, ss[1..], p);
      assert ss == [ss[0]] + ss[1..];
    }
  }

  /** When `ss` holds every service of the account, its pairs pick out exactly the account's rows. */
  lemma {:induction false} PairsCover(costs: seq<DailyCost>, accountId: string, ss: seq<string>)
    requires forall c :: c in costs && c.accountId == accountId ==> c.service in ss
    ensures forall c :: c in costs ==> (ServiceKeyOf(c) in Pairs(accountId, ss) <==> AccountIdOf(c) == accountId)
  {
    forall c | c in costs ensures ServiceKeyOf(c) in Pairs(accountId, ss) <==> AccountIdOf(c) == accountId {
      PairsMembers(accountId, ss, ServiceKeyOf(c));
    }
  }

  /**
   * A service map of an account that holds, for each service of the
   * account's stored rows, their sum adds up to the sum of all the
   * account's stored rows.
   */
  lemma {:induction false} ServiceSumsAddUp(costs: seq<DailyCost>, accountId: string, m: map<string, real>)
    requires m.Keys == CostServicesOf(costs, accountId)
    requires forall s :: s in m ==> m[s] == SumWhere(costs, CostOf, ServiceKeyOf, (accountId, s))
    ensures SumOfValues(m) == SumWhere(costs, CostOf, AccountIdOf, accountId)
  {
    StrLessIsStrictTotalOrder();
    var ss := SortSet(m.Keys, StrLess);
    assert SumOfValues(m) == SumOfKeys(m, ss);
    AscendingDistinct(ss, StrLess);
    PairsDistinct(accountId, ss);
    SumOfKeysAsGroups(m, costs, accountId, ss);
    forall c | c in costs && c.accountId == accountId ensures c.service in ss {
      assert c.service in CostServicesOf(costs, accountId);
    }
    PairsCover(costs, accountId, ss);
    SumWhereByGroups(costs, CostOf, ServiceKeyOf, Pairs(accountId, ss), AccountIdOf, accountId);
  }

  /**
   * With one account name per account id, an account's summary holds, per
   * service, the sum of the account's stored costs for that service, and as
   * its total the sum of all the account's stored costs.
   */
  lemma {:induction false} OneNameSummary(costs: seq<DailyCost>, accountId: string)
    requires OneNamePerAccount(costs)
    ensures var a := SummaryOf(GroupByAccountService(costs), accountId);
      && a.costByService.Keys == CostServicesOf(costs, accountId)
      && (forall s :: s in a.costByService ==> a.costByService[s] == SumWhere(costs, CostOf, ServiceKeyOf, (accountId, s)))
      && a.totalCost == SumWhere(costs, CostOf, AccountIdOf, accountId)
  {
    var rows := GroupByAccountService(costs);
    var m := ServiceCostsOf(rows, accountId);
    GroupedServices(costs, accountId);
    ServiceCostsOfKeys(rows, accountId);
    forall s | s in m ensures m[s] == SumWhere(costs, CostOf, ServiceKeyOf, (accountId, s)) {
      OneNameServiceCost(costs, accountId, s);
    }
    ServiceSumsAddUp(costs, accountId, m);
  }

  /**
   * `GetAccountSummaries` when the selected rows carry one name per account
   * id: each summary's per-service costs and total are the sums of that
   * account's selected rows.
   */
  lemma {:induction false} AccountSummariesSums(facts: Facts, from: Date, until: Date, includeCredits: bool)
    requires OneNamePerAccount(CostsForDateRange(facts, from, until, includeCredits))
    ensures var costs := CostsForDateRange(facts, from, until, includeCredits);
      forall a :: a in AccountSummaries(ServiceTotals(facts, from, until, includeCredits)) ==>
        && a.costByService.Keys == CostServicesOf(costs, a.accountId)
        && (forall s :: s in a.costByService ==>
              a.costByService[s] == SumWhere(costs, CostOf, ServiceKeyOf, (a.accountId, s)))
        && a.totalCost == SumWhere(costs, CostOf, AccountIdOf, a.accountId)
  {
    var costs := CostsForDateRange(facts, from, until, includeCredits);
    var rows := ServiceTotals(facts, from, until, includeCredits);
    assert rows == GroupByAccountService(costs);
    var r := AccountSummaries(rows);
    forall a | a in r
      ensures && a.costByService.Keys == CostServicesOf(costs, a.accountId)
              && (forall s :: s in a.costByService ==>
                    a.costByService[s] == SumWhere(costs, CostOf, ServiceKeyOf, (a.accountId, s)))
              && a.totalCost == SumWhere(costs, CostOf, AccountIdOf, a.accountId)
    {
      var i :| 0 <= i < |r| && r[i] == a;
      OneNameSummary(costs, a.accountId);
    }
  }

  function TotalCostOf(a: AccountSummary): real {
    a.totalCost
  }

  lemma {:induction false} AccountOrderContents(rows: seq<ServiceTotal>)
    ensures forall id :: id in AccountOrder(rows) <==> id in AccountIds(rows)
    ensures Distinct(AccountOrder(rows))
  {
    if rows != [] {
      var init := rows[..|rows| - 1];
      AccountOrderContents(init);
      assert rows == init + [rows[|rows| - 1]];
      assert forall r :: r in rows <==> r in init || r == rows[|rows| - 1];
    }
  }

  lemma {:induction false} DistinctCount<T>(xs: seq<T>, x: T)
    requires Distinct(xs)
    ensures multiset(xs)[x] <= 1
  {
    if xs != [] {
      assert xs == [xs[0]] + xs[1..];
      assert Distinct(xs[1..]) by {
        forall i, j | 0 <= i < j < |xs[1..]| ensures xs[1..][i] != xs[1..][j] {
          assert xs[1..][i] == xs[i + 1] && xs[1..][j] == xs[j + 1];
        }
      }
      DistinctCount(xs[1..], x);
      if xs[0] == x {
        assert x !in xs[1..] by {
          forall j | 0 <= j < |xs[1..]| ensures xs[1..][j] != x {
            assert xs[1..][j] == xs[j + 1];
          }
        }
      }
    }
  }

  lemma {:induction false} PermutationKeepsDistinct<T>(xs: seq<T>, ys: seq<T>)
    requires Distinct(xs) && multiset(xs) == multiset(ys)
    ensures Distinct(ys)
  {
    forall i, j | 0 <= i < j < |ys| ensures ys[i] != ys[j] {
      if ys[i] == ys[j] {
        assert ys == ys[..j] + ys[j..];
        assert ys[i] in ys[..j];
        assert ys[j] in ys[j..];
        assert multiset(ys)[ys[j]] == multiset(ys[..j])[ys[j]] + multiset(ys[j..])[ys[j]];
        DistinctCount(xs, ys[j]);
        assert false;
      }
    }
  }

  /** The pieces of state the summaries loop keeps after reading the first rows. */
  ghost predicate SummariesSoFar(rows: seq<ServiceTotal>, accounts: map<string, AccountSummary>, order: seq<string>) {
    && order == AccountOrder(rows)
    && accounts.Keys == AccountIds(rows)
    && forall id :: id in accounts ==>
         accounts[id] == AccountSummary(id, FirstNameOf(rows, id), 0.0, ServiceCostsOf(rows, id))
  }

  /** An account without rows has an empty service map. */
  lemma {:induction false} ServiceCostsOfAbsent(rows: seq<ServiceTotal>, accountId: string)
    ensures accountId !in AccountIds(rows) ==> ServiceCostsOf(rows, accountId) == map[]
  {
    if rows != [] {
      var init := rows[..|rows| - 1];
      ServiceCostsOfAbsent(init, accountId);
      assert forall r :: r in init ==> r in rows;
      assert rows[|rows| - 1] in rows;
    }
  }

  lemma {:induction false} SummariesStep(rows: seq<ServiceTotal>, i: int, accounts: map<string, AccountSummary>, order: seq<string>,
                       summary: AccountSummary, nextOrder: seq<string>)
    requires 0 <= i < |rows| && SummariesSoFar(rows[..i], accounts, order)
    requires summary == if rows[i].accountId in accounts then accounts[rows[i].accountId]
                        else AccountSummary(rows[i].accountId, rows[i].accountName, 0.0, map[])
    requires nextOrder == if rows[i].accountId in accounts then order else order + [rows[i].accountId]
    ensures SummariesSoFar(rows[..i + 1],
      accounts[rows[i].accountId := summary.(costByService := summary.costByService[rows[i].service := rows[i].total])],
      nextOrder)
  {
    var init, row := rows[..i], rows[i];
    var prefix := rows[..i + 1];
    assert prefix[..|prefix| - 1] == init;
    assert prefix[|prefix| - 1] == row;
    assert forall r :: r in prefix <==> r in init || r == row;
    assert AccountIds(prefix) == AccountIds(init) + {row.accountId};
    var next := accounts[row.accountId := summary.(costByService := summary.costByService[row.service := row.total])];
    ServiceCostsOfAbsent(init, row.accountId);
    forall id | id in next
      ensures next[id] == AccountSummary(id, FirstNameOf(prefix, id), 0.0, ServiceCostsOf(prefix, id))
    {
      assert FirstNameOf(prefix, id) == if id in AccountIds(init) then FirstNameOf(init, id) else row.accountName;
      assert ServiceCostsOf(prefix, id)
          == if row.accountId == id then ServiceCostsOf(init, id)[row.service := row.total] else ServiceCostsOf(init, id);
    }
  }

  /** The summaries in the order their accounts first occur. */
  function SummariesInOrder(rows: seq<ServiceTotal>): (r: seq<AccountSummary>)
    ensures |r| == |AccountOrder(rows)|
    ensures forall k :: 0 <= k < |r| ==> r[k] == SummaryOf(rows, AccountOrder(rows)[k])
  {
    var order := AccountOrder(rows);
    seq(|order|, k requires 0 <= k < |order| => SummaryOf(rows, order[k]))
  }

  /**
   * The per-account summaries of the grouped rows: one per account that
   * has rows, ordered by non-increasing total (ties keep the order in which
   * the accounts first occur).
   */
  function AccountSummaries(rows: seq<ServiceTotal>): (r: seq<AccountSummary>)
    ensures NonIncreasing(r, TotalCostOf)
    ensures forall i :: 0 <= i < |r| ==> r[i] == SummaryOf(rows, r[i].accountId) && r[i].accountId in AccountIds(rows)
    ensures forall id :: id in AccountIds(rows) ==> exists i :: 0 <= i < |r| && r[i].accountId == id
    ensures forall i, j :: 0 <= i < j < |r| ==> r[i].accountId != r[j].accountId
  {
    var inOrder := SummariesInOrder(rows);
    SummariesInOrderFacts(rows);
    var r := SortDescending(inOrder, TotalCostOf);
    ReorderedSummaries(rows, inOrder, r);
    r
  }

  /** Reordering the per-account summaries keeps each account once, with its own summary. */
  lemma {:induction false} ReorderedSummaries(rows: seq<ServiceTotal>, inOrder: seq<AccountSummary>, r: seq<AccountSummary>)
    requires Distinct(inOrder) && multiset(r) == multiset(inOrder)
    requires forall x :: x in inOrder ==> x == SummaryOf(rows, x.accountId) && x.accountId in AccountIds(rows)
    requires forall id :: id in AccountIds(rows) ==> exists k :: 0 <= k < |inOrder| && inOrder[k].accountId == id
    ensures forall i :: 0 <= i < |r| ==> r[i] == SummaryOf(rows, r[i].accountId) && r[i].accountId in AccountIds(rows)
    ensures forall id :: id in AccountIds(rows) ==> exists i :: 0 <= i < |r| && r[i].accountId == id
    ensures forall i, j :: 0 <= i < j < |r| ==> r[i].accountId != r[j].accountId
  {
    PermutationKeepsDistinct(inOrder, r);
    forall x | x in r ensures x in inOrder {
      assert x in multiset(r);
    }
    forall id | id in AccountIds(rows) ensures exists i :: 0 <= i < |r| && r[i].accountId == id {
      var k :| 0 <= k < |inOrder| && inOrder[k].accountId == id;
      assert inOrder[k] in multiset(inOrder);
      assert inOrder[k] in r;
    }
    forall i, j | 0 <= i < j < |r| ensures r[i].accountId != r[j].accountId {
      assert r[i] in inOrder && r[j] in inOrder;
      assert r[i] != r[j];
    }
  }

  lemma {:induction false} SummariesInOrderFacts(rows: seq<ServiceTotal>)
    ensures Distinct(SummariesInOrder(rows))
    ensures forall x :: x in SummariesInOrder(rows) ==> x == SummaryOf(rows, x.accountId) && x.accountId in AccountIds(rows)
    ensures forall id :: id in AccountIds(rows) ==>
      exists k :: 0 <= k < |SummariesInOrder(rows)| && SummariesInOrder(rows)[k].accountId == id
  {
    var inOrder := SummariesInOrder(rows);
    var order := AccountOrder(rows);
    AccountOrderContents(rows);
    forall i, j | 0 <= i < j < |inOrder| ensures inOrder[i] != inOrder[j] {
      assert inOrder[i].accountId == order[i] && inOrder[j].accountId == order[j];
    }
    forall x | x in inOrder ensures x == SummaryOf(rows, x.accountId) && x.accountId in AccountIds(rows) {
      var k :| 0 <= k < |inOrder| && inOrder[k] == x;
      assert order[k] in order;
    }
    forall id | id in AccountIds(rows) ensures exists k :: 0 <= k < |inOrder| && inOrder[k].accountId == id {
      var k :| 0 <= k < |order| && order[k] == id;
      assert inOrder[k].accountId == id;
    }
  }

  /** `a with { TotalCost = a.CostByService.Values.Sum() }` for the accounts in `order`. */
  function WithTotals(accounts: map<string, AccountSummary>, order: seq<string>): seq<AccountSummary>
    requires forall id :: id in order ==> id in accounts
  {
    seq(|order|, k requires 0 <= k < |order| =>
      accounts[order[k]].(totalCost := SumOfValues(accounts[order[k]].costByService)))
  }

  lemma {:induction false} FinishedSummaries(rows: seq<ServiceTotal>, accounts: map<string, AccountSummary>, order: seq<string>)
    requires SummariesSoFar(rows, accounts, order)
    ensures forall id :: id in order ==> id in accounts
    ensures WithTotals(accounts, order) == SummariesInOrder(rows)
  {
    AccountOrderContents(rows);
  }

  /** The table holds no row dated `d`. */
  ghost predicate NoFactOn(facts: Facts, d: Date) {
    forall k :: k in facts ==> k.date != d
  }

  /**
   * The reader loop of `GetAccountSummaries` over the grouped rows: each
   * row fills its account's entry (created on first sight) and then the
   * accounts are ordered by their totals.
   */
  method ReadSummaries(rows: seq<ServiceTotal>) returns (summaries: seq<AccountSummary>)
    ensures summaries == AccountSummaries(rows)
  {
    var accounts: map<string, AccountSummary> := map[];
    var order: seq<string> := [];
    for i := 0 to |rows|
      invariant SummariesSoFar(rows[..i], accounts, order)
    {
      var row := rows[i];
      ghost var orderBefore := order;
      var summary;
      if row.accountId in accounts {
        summary := accounts[row.accountId];
      } else {
        summary := AccountSummary(row.accountId, row.accountName, 0.0, map[]);
        order := order + [row.accountId];
      }
      SummariesStep(rows, i, accounts, orderBefore, summary, order);
      accounts := accounts[row.accountId := summary.(costByService := summary.costByService[row.service := row.total])];
    }
    assert rows[..|rows|] == rows;
    FinishedSummaries(rows, accounts, order);
    summaries := SortDescending(WithTotals(accounts, order), TotalCostOf);
  }

  class CostRepository {
    /** The rows of the daily_costs table, by their unique key. */
    var facts: Facts

    /** A fresh database holds no rows. */
    constructor ()
      ensures facts == map[]
    {
      facts := map[];
    }

    /**
     * `UpsertCosts`: the rows are upserted one by one inside a transaction
     * that commits after the last one. `faultAt` is the index of the element
     * whose statement throws, if any; the transaction then rolls back.
     */
    method UpsertCosts(costs: seq<DailyCost>, faultAt: Option<nat>) returns (committed: bool)
      modifies this
      ensures committed <==> faultAt.None? || faultAt.value >= |costs|
      ensures committed ==> facts == ApplyBatch(old(facts), costs)
      ensures !committed ==> facts == old(facts)
    {
      var pending := facts;
      for i := 0 to |costs|
        invariant pending == ApplyBatch(facts, costs[..i])
        invariant faultAt.Some? ==> faultAt.value >= i
      {
        if faultAt == Some(i) {
          return false;
        }
        assert costs[..i + 1][..i] == costs[..i];
        pending := Upsert(pending, costs[i]);
      }
      assert costs[..|costs|] == costs;
      facts := pending;
      committed := true;
    }

    /** `GetMissingDates`: the days of [from, until], ascending, on which the table holds no row. */
    method GetMissingDates(from: Date, until: Date) returns (missing: seq<Date>)
      ensures forall i, j :: 0 <= i < j < |missing| ==> missing[i] < missing[j]
      ensures forall d :: d in missing <==> from <= d <= until && NoFactOn(facts, d)
      ensures from > until ==> missing == []
    {
      var existing := set k | k in facts && from <= k.date <= until :: k.date;
      missing := [];
      var date := from;
      while date <= until
        invariant date == from || from <= date <= until + 1
        invariant forall i, j :: 0 <= i < j < |missing| ==> missing[i] < missing[j]
        invariant forall i :: 0 <= i < |missing| ==> missing[i] < date
        invariant forall d :: d in missing <==> from <= d < date && NoFactOn(facts, d)
        decreases until - date
      {
        if date !in existing {
          missing := missing + [date];
        } else {
          var k :| k in facts && from <= k.date <= until && k.date == date;
        }
        date := date + 1;
      }
      HasMember(missing);
    }

    /**
     * `GetAccountSummaries`: the grouped rows are read in order into a
     * dictionary of summaries keyed by account id, each summary's total is
     * then set to the sum of its service map, and the summaries are sorted
     * by non-increasing total.
     */
    method GetAccountSummaries(from: Date, until: Date, includeCredits: bool) returns (summaries: seq<AccountSummary>)
      ensures summaries == AccountSummaries(ServiceTotals(facts, from, until, includeCredits))
    {
      var rows := ServiceTotals(facts, from, until, includeCredits);
      summaries := ReadSummaries(rows);
    }
  }
}
