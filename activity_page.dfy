/**
  The all-activity page for viewers (app/dashboard/carms-corner/activity/page.tsx): the feed
  filtered by urgency and product, the relative time shown for each row, and the initial
  shown in each row's product badge.
*/
module ActivityPage {
  import opened Wrappers
  import opened Numbers
  import Seqs
  import RA = RecentActivity

  /** The priority select: 'all' or one urgency. */
  datatype UrgencyFilter = AnyUrgency | Only(urgency: RA.Urgency)

  /** The product select's value for every product. */
  const AllProducts := "all"

  /** The test of `filteredActivities`. */
  predicate Listed(row: RA.FeedRow, urgency: UrgencyFilter, product: string) {
    && (urgency.AnyUrgency? || row.urgency == urgency.urgency)
    && (product == AllProducts || row.product == product)
  }

  function Shown(urgency: UrgencyFilter, product: string): RA.FeedRow -> bool {
    (row: RA.FeedRow) => Listed(row, urgency, product)
  }

  /** `filteredActivities`: the rows passing both selects, in feed order. */
  function FilterFeed(rows: seq<RA.FeedRow>, urgency: UrgencyFilter, product: string)
    : (r: seq<RA.FeedRow>)
    ensures Seqs.IsSubseq(r, rows)
    ensures forall row | row in r :: Listed(row, urgency, product)
    ensures forall row | row in rows && Listed(row, urgency, product) :: row in r
  {
    Seqs.FilterIsSubseq(rows, Shown(urgency, product));
    Seqs.Filter(rows, Shown(urgency, product))
  }

  /** With both selects on 'all' the feed is shown whole. */
  lemma AllShowsEverything(rows: seq<RA.FeedRow>)
    ensures FilterFeed(rows, AnyUrgency, AllProducts) == rows
  {
    Seqs.FilterAll(rows, Shown(AnyUrgency, AllProducts));
  }

  /** The two selects are independent: filtering by urgency and then by product is filtering by
      both. */
  lemma FiltersCompose(rows: seq<RA.FeedRow>, urgency: UrgencyFilter, product: string)
    ensures FilterFeed(FilterFeed(rows, urgency, AllProducts), AnyUrgency, product)
      == FilterFeed(rows, urgency, product)
  {
    Seqs.FilterFilter(rows, Shown(urgency, AllProducts), Shown(AnyUrgency, product),
      Shown(urgency, product));
  }

  // ---------------------------------------------------------------------------------------
  // `formatTimeAgo`, given the elapsed milliseconds (negative for a date in the future)

  const MinuteMs := 60000
  const HourMs := 60 * MinuteMs
  const DayMs := 24 * HourMs

  /** `Math.floor(elapsed / 60000)`: the divisor is positive, so Dafny's division floors. */
  function Minutes(elapsedMs: int): (m: int)
    ensures m * MinuteMs <= elapsedMs < (m + 1) * MinuteMs
  {
    elapsedMs / MinuteMs
  }

  /** The number shown and its unit letter. */
  datatype Ago = Ago(amount: int, unit: char)

  /** The bucket: minutes below an hour, whole hours below a day, whole days beyond. */
  function Bucket(elapsedMs: int): (a: Ago)
    ensures a.unit == 'm' <==> elapsedMs < HourMs
    ensures a.unit == 'h' <==> HourMs <= elapsedMs < DayMs
    ensures a.unit == 'd' <==> DayMs <= elapsedMs
    ensures a.unit == 'm' ==>
      a.amount < 60 && a.amount * MinuteMs <= elapsedMs < (a.amount + 1) * MinuteMs
    ensures a.unit == 'h' ==>
      1 <= a.amount <= 23 && a.amount * HourMs <= elapsedMs < (a.amount + 1) * HourMs
    ensures a.unit == 'd' ==>
      1 <= a.amount && a.amount * DayMs <= elapsedMs < (a.amount + 1) * DayMs
  {
    var m := Minutes(elapsedMs);
    if m < 60 then Ago(m, 'm')
    else if m < 1440 then Ago(m / 60, 'h')
    else Ago(m / 1440, 'd')
  }

  /** `formatTimeAgo`. */
  function FormatTimeAgo(elapsedMs: int): string {
    var a := Bucket(elapsedMs);
    IntToString(a.amount) + [a.unit] + " ago"
  }

  /** The text is the number, the unit letter and " ago", and the number reads back as the
      bucket's amount. */
  lemma FormatTimeAgoReadsBack(elapsedMs: int)
    ensures var r, a := FormatTimeAgo(elapsedMs), Bucket(elapsedMs);
      && |r| >= 6 && r[|r| - 4..] == " ago" && r[|r| - 5] == a.unit
      && ParseInt(r[..|r| - 5]) == a.amount
  {
    var r, a := FormatTimeAgo(elapsedMs), Bucket(elapsedMs);
    assert r[..|r| - 5] == IntToString(a.amount);
    ParseIntToString(a.amount);
  }

  /** The bucket boundaries. */
  lemma TimeAgoExamples()
    ensures Bucket(59999) == Ago(0, 'm')
    ensures Bucket(-1) == Ago(-1, 'm')
    ensures Bucket(3599999) == Ago(59, 'm')
    ensures Bucket(3600000) == Ago(1, 'h')
    ensures Bucket(86399999) == Ago(23, 'h')
    ensures Bucket(86400000) == Ago(1, 'd')
  {
  }

  // ---------------------------------------------------------------------------------------
  // `getProductInitial`

  /** The first character of the catalog name when the key is known and the name is not
      empty, else the first character of the key; nothing when both are empty. `catalog` maps
      each product key to its display name. */
  function ProductInitial(catalog: map<string, string>, product: string): (r: Option<char>)
    ensures r.None? <==> (product !in catalog || catalog[product] == "") && product == ""
    ensures product in catalog && catalog[product] != "" ==> r == Some(catalog[product][0])
    ensures (product !in catalog || catalog[product] == "") && product != "" ==> r == Some(product[0])
  {
    if product in catalog && catalog[product] != "" then Some(catalog[product][0])
    else if product != "" then Some(product[0])
    else None
  }
}
