/**
 * The records the store and the analysis engine produce, and the two
 * expression-bodied mappers that turn comparison records into grid rows.
 * Number formatting ("+0.0;-0.0", "N2") is not rendered: a cell that the
 * source fills with formatted text holds the number it would format.
 */
module Models {
  import opened Calendar
  import opened Text

  /** One stored fact: the cost of one service in one account on one day. */
  datatype DailyCost = DailyCost(
    date: Date,
    accountId: string,
    accountName: string,
    service: string,
    cost: real,
    currency: string)

  /** "Month-to-Date", or "{month} vs {previous month}" with the month names left unrendered. */
  datatype ComparisonLabel = MonthToDate | MonthVersusMonth(month: int, previousMonth: int)

  datatype CostComparison = CostComparison(
    periodLabel: ComparisonLabel,
    currentPeriod: real,
    previousPeriod: real,
    difference: real,
    percentageChange: real)

  datatype DayComparison = DayComparison(
    dayOfMonth: int,
    thisMonth: real,
    lastMonth: real,
    difference: real,
    percentageChange: real)

  datatype AccountSummary = AccountSummary(
    accountId: string,
    accountName: string,
    totalCost: real,
    costByService: map<string, real>)

  datatype ServiceAccountSummary = ServiceAccountSummary(
    name: string,
    mtdCost: real,
    lastMonthSameDayCost: real,
    mtdDifferencePercent: real,
    mtdIsUp: bool,
    lastFullMonthCost: real,
    previousFullMonthCost: real,
    fullMonthDifferencePercent: real,
    fullMonthIsUp: bool)

  /** A percentage cell: "-", or the signed percentage followed by "%". */
  datatype PercentText = NoPercent | SignedPercent(percent: real)

  /** A difference cell: "-", or an arrow followed by the amount as "$N2". */
  datatype DifferenceText = NoDifference | Moved(arrow: string, amount: real)

  const Dash := "-"
  const UpArrow := "\U{2191}"
  const DownArrow := "\U{2193}"

  datatype ServiceAccountRow = ServiceAccountRow(
    name: string,
    mtdCost: real,
    lastMtdCost: real,
    mtdDiffPercent: PercentText,
    mtdDirection: string,
    mtdIsUp: bool,
    rolling30Cost: real,
    prev30Cost: real,
    fullDiffPercent: PercentText,
    fullDirection: string,
    fullIsUp: bool)

  datatype DayComparisonRow = DayComparisonRow(
    day: string,
    thisMonth: real,
    lastMonth: real,
    difference: DifferenceText,
    percentChange: PercentText,
    isUp: bool,
    isTotal: bool)

  const MaxNameLength := 40

  /** Names longer than 40 characters keep their first 37 and end in "...". */
  function TruncateName(name: string): (r: string)
    ensures |r| <= MaxNameLength
    ensures |name| <= MaxNameLength ==> r == name
    ensures |name| > MaxNameLength ==>
      |r| == MaxNameLength && r[..37] == name[..37] && r[37..] == "..."
  {
    if |name| > MaxNameLength then name[..37] + "..." else name
  }

  /** The percentage cell and arrow of one comparison: both "-" unless the base is positive. */
  function PercentCell(base: real, percent: real): (c: PercentText)
    ensures c == NoPercent <==> base <= 0.0
    ensures c.SignedPercent? ==> c.percent == percent
  {
    if base > 0.0 then SignedPercent(percent) else NoPercent
  }

  function Direction(base: real, isUp: bool): (d: string)
    ensures d == Dash <==> base <= 0.0
    ensures base > 0.0 ==> (d == UpArrow <==> isUp) && (d == DownArrow <==> !isUp)
  {
    if base > 0.0 then (if isUp then UpArrow else DownArrow) else Dash
  }

  /** `ServiceAccountRow.FromSummary`. */
  function FromSummary(s: ServiceAccountSummary): (r: ServiceAccountRow)
    ensures r.name == TruncateName(s.name)
    ensures r.mtdCost == s.mtdCost && r.lastMtdCost == s.lastMonthSameDayCost
    ensures r.rolling30Cost == s.lastFullMonthCost && r.prev30Cost == s.previousFullMonthCost
    ensures r.mtdIsUp == s.mtdIsUp && r.fullIsUp == s.fullMonthIsUp
    ensures (r.mtdDiffPercent == NoPercent) == (r.mtdDirection == Dash) == (s.lastMonthSameDayCost <= 0.0)
    ensures s.lastMonthSameDayCost > 0.0 ==>
      r.mtdDiffPercent == SignedPercent(s.mtdDifferencePercent) && (r.mtdDirection == UpArrow <==> s.mtdIsUp)
    ensures (r.fullDiffPercent == NoPercent) == (r.fullDirection == Dash) == (s.previousFullMonthCost <= 0.0)
    ensures s.previousFullMonthCost > 0.0 ==>
      r.fullDiffPercent == SignedPercent(s.fullMonthDifferencePercent) && (r.fullDirection == UpArrow <==> s.fullMonthIsUp)
  {
    ServiceAccountRow(
      TruncateName(s.name),
      s.mtdCost,
      s.lastMonthSameDayCost,
      PercentCell(s.lastMonthSameDayCost, s.mtdDifferencePercent),
      Direction(s.lastMonthSameDayCost, s.mtdIsUp),
      s.mtdIsUp,
      s.lastFullMonthCost,
      s.previousFullMonthCost,
      PercentCell(s.previousFullMonthCost, s.fullMonthDifferencePercent),
      Direction(s.previousFullMonthCost, s.fullMonthIsUp),
      s.fullMonthIsUp)
  }

  function Abs(x: real): (r: real)
    ensures r >= 0.0 && (r == x || r == -x)
  {
    if x < 0.0 then -x else x
  }

  /** `DayComparisonRow.FromComparison`. */
  function FromComparison(d: DayComparison): (r: DayComparisonRow)
    ensures r.day == IntText(d.dayOfMonth)
    ensures r.thisMonth == d.thisMonth && r.lastMonth == d.lastMonth
    ensures r.difference == NoDifference <==> d.difference == 0.0
    ensures r.difference.Moved? ==>
      r.difference.amount > 0.0 && r.difference.amount == Abs(d.difference)
      && (r.difference.arrow == UpArrow <==> d.difference > 0.0)
      && (r.difference.arrow == DownArrow <==> d.difference < 0.0)
    ensures r.percentChange == NoPercent <==> d.lastMonth <= 0.0
    ensures r.percentChange.SignedPercent? ==> r.percentChange.percent == d.percentageChange
    ensures r.isUp <==> d.difference >= 0.0
    ensures !r.isTotal
  {
    DayComparisonRow(
      IntText(d.dayOfMonth),
      d.thisMonth,
      d.lastMonth,
      if d.difference != 0.0 then Moved(if d.difference >= 0.0 then UpArrow else DownArrow, Abs(d.difference))
      else NoDifference,
      PercentCell(d.lastMonth, d.percentageChange),
      d.difference >= 0.0,
      false)
  }
}
