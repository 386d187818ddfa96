/**
  The read side of the sales endpoints: listing every sale newest first,
  fetching one sale by id, and the report over a range of calendar days.
*/
module SaleQueries {
  import opened Results
  import opened Money
  import opened Calendar
  import opened Store
  import opened Sorting
  import opened SaleCreation

  datatype QueryError =
    | NotFound        // no sale has the requested id
    | InvertedRange   // the report's upper bound precedes its lower bound

  /** The body of a successful report. */
  datatype SalesReport = SalesReport(
    from: Instant,
    to: Instant,
    totalSales: int,
    totalAmount: Money,
    sales: seq<SaleView>)

  /**
    The listing order: newer instants first and, among equal instants, lower
    ids first. `OrderByDescending(s => s.Date)` asks for the first key; loading
    the sale lines with `Include` makes the query order by the sale's key
    after it.
  */
  predicate Precedes(aDate: Instant, aId: int, bDate: Instant, bId: int)
  {
    aDate > bDate || (aDate == bDate && aId <= bId)
  }

  predicate ListedBefore(a: Sale, b: Sale)
  {
    Precedes(a.date, a.id, b.date, b.id)
  }

  lemma ListedBeforeOrders()
    ensures Total(ListedBefore)
    ensures Transitive(ListedBefore)
  {
  }

  /** The sales rearranged in listing order. */
  function NewestFirst(sales: seq<Sale>): (r: seq<Sale>)
    ensures multiset(r) == multiset(sales)
    ensures forall i, j :: 0 <= i < j < |r| ==> ListedBefore(r[i], r[j])
  {
    ListedBeforeOrders();
    var r := SortBy(sales, ListedBefore);
    SortedPairwise(r, ListedBefore);
    r
  }

  /** Rearranging resolving sales keeps them resolving, and rearranges their views. */
  lemma RearrangedViews(sales: seq<Sale>, ordered: seq<Sale>, products: map<int, Product>)
    requires SaleItemsResolve(sales, products)
    requires multiset(ordered) == multiset(sales)
    ensures SaleItemsResolve(ordered, products)
    ensures multiset(ViewsOf(ordered, products)) == multiset(ViewsOf(sales, products))
  {
    assert forall x :: x in ordered ==> x in multiset(sales);
    ResolvesByMembers(sales, ordered, products);
    ViewsPermutation(ordered, sales, products);
  }

  /** `GET api/sales`: the view of every sale, newest first, ties by ascending id. */
  function GetAll(db: Db): (r: seq<SaleView>)
    requires SaleItemsResolve(db.sales, db.products)
    ensures multiset(r) == multiset(ViewsOf(db.sales, db.products))
    ensures forall i, j :: 0 <= i < j < |r| ==> Precedes(r[i].date, r[i].id, r[j].date, r[j].id)
  {
    var ordered := NewestFirst(db.sales);
    RearrangedViews(db.sales, ordered, db.products);
    ViewsOf(ordered, db.products)
  }

  /** Every stored sale is listed, and nothing else. */
  lemma GetAllListsEverySale(db: Db)
    requires SaleItemsResolve(db.sales, db.products)
    ensures |GetAll(db)| == |db.sales|
    ensures forall i :: 0 <= i < |db.sales| ==> ViewOf(db.sales[i], db.products) in GetAll(db)
    ensures forall v :: v in GetAll(db) ==>
      exists i :: 0 <= i < |db.sales| && v == ViewOf(db.sales[i], db.products)
  {
    var r, all := GetAll(db), ViewsOf(db.sales, db.products);
    PermutationMembers(r, all);
    forall v | v in r
      ensures exists i :: 0 <= i < |db.sales| && v == ViewOf(db.sales[i], db.products)
    {
      var i :| 0 <= i < |all| && all[i] == v;
    }
  }

  /** The position of the first sale with the given id, if any. */
  function FindSale(sales: seq<Sale>, id: int): (r: Option<nat>)
    ensures r.None? <==> forall i :: 0 <= i < |sales| ==> sales[i].id != id
    ensures r.Some? ==> r.value < |sales| && sales[r.value].id == id
    ensures r.Some? ==> forall i :: 0 <= i < r.value ==> sales[i].id != id
  {
    if |sales| == 0 then
      None
    else if sales[0].id == id then
      Some(0)
    else
      match FindSale(sales[1..], id)
      case None => None
      case Some(k) => Some(k + 1)
  }

  /** `GET api/sales/{id}`: the view of the sale with that id, or not found. */
  function GetById(db: Db, id: int): (r: Result<SaleView, QueryError>)
    requires SaleItemsResolve(db.sales, db.products)
    ensures r.Failure? <==> forall i :: 0 <= i < |db.sales| ==> db.sales[i].id != id
    ensures r.Failure? ==> r.error == NotFound
    ensures r.Success? ==>
      exists i :: 0 <= i < |db.sales| && db.sales[i].id == id && r.value == ViewOf(db.sales[i], db.products)
  {
    match FindSale(db.sales, id)
    case None => Failure(NotFound)
    case Some(i) => Success(ViewOf(db.sales[i], db.products))
  }

  /** Ids are unique, so fetching a stored sale's id returns that very sale. */
  lemma GetByIdFindsStoredSale(db: Db, i: int)
    requires Valid(db)
    requires 0 <= i < |db.sales|
    ensures GetById(db, db.sales[i].id) == Success(ViewOf(db.sales[i], db.products))
  {
    var k := FindSale(db.sales, db.sales[i].id).value;
    assert !(k < i) && !(i < k);
  }

  /**
    The created-at location resolves: after a sale is recorded, fetching the
    id it was given returns the very body the creation answered with.
  */
  lemma CreatedSaleIsFetchable(db: Db, request: SaleRequest, now: Instant)
    requires Valid(db)
    ensures Valid(Create(db, request, now).0)
    ensures Create(db, request, now).1.Success? ==>
      && Create(db, request, now).1.value.id == db.nextSaleId
      && GetById(Create(db, request, now).0, db.nextSaleId) == Success(Create(db, request, now).1.value)
  {
    var r := Create(db, request, now);
    if r.1.Success? {
      CommittedSaleIsFetchable(db, request, now, r.0);
    }
  }

  /** A recorded sale is found under the id the counter handed out. */
  lemma CommittedSaleIsFetchable(db: Db, request: SaleRequest, now: Instant, after: Db)
    requires Valid(db)
    requires Committed(db, request, now, after)
    ensures Valid(after)
    ensures ViewOf(after.sales[|db.sales|], after.products).id == db.nextSaleId
    ensures GetById(after, db.nextSaleId) == Success(ViewOf(after.sales[|db.sales|], after.products))
  {
    CommittedPreservesValid(db, request, now, after);
    CommittedResponse(db, request, now, after);
    GetByIdFindsStoredSale(after, |db.sales|);
  }

  /** The instant lies on a calendar day from `from`'s day to `to`'s day, both included. */
  predicate InPeriod(t: Instant, from: Instant, to: Instant)
  {
    DateOf(from) <= t < DateOf(to) + TicksPerDay
  }

  /** The report's filter, `s.Date.Date >= from.Date && s.Date.Date <= to.Date`, in stored order. */
  function OnReportDays(sales: seq<Sale>, from: Instant, to: Instant): (r: seq<Sale>)
    ensures forall s :: multiset(r)[s] == if InPeriod(s.date, from, to) then multiset(sales)[s] else 0
    ensures forall s :: s in r ==> s in sales
  {
    if |sales| == 0 then
      []
    else
      var rest := OnReportDays(sales[1..], from, to);
      WithinDays(from, sales[0].date, to);
      assert sales == [sales[0]] + sales[1..];
      if DateOf(sales[0].date) >= DateOf(from) && DateOf(sales[0].date) <= DateOf(to) then
        [sales[0]] + rest
      else
        rest
  }

  /**
    What a report lists: exactly the stored sales whose instant falls on one of
    the requested days, each as often as it is stored, in listing order.
  */
  ghost predicate ReportSelection(sales: seq<Sale>, from: Instant, to: Instant, chosen: seq<Sale>)
  {
    && (forall s :: multiset(chosen)[s] == if InPeriod(s.date, from, to) then multiset(sales)[s] else 0)
    && (forall i, j :: 0 <= i < j < |chosen| ==> ListedBefore(chosen[i], chosen[j]))
  }

  /** `GET api/sales/report`: the sales on the days from `from` to `to`, with their count and sum. */
  function GetReport(db: Db, from: Instant, to: Instant): (r: Result<SalesReport, QueryError>)
    requires SaleItemsResolve(db.sales, db.products)
    ensures r.Failure? <==> to < from
    ensures r.Failure? ==> r.error == InvertedRange
    ensures r.Success? ==> r.value.from == from && r.value.to == to
    ensures r.Success? ==> r.value.totalSales == |r.value.sales|
    ensures r.Success? ==> r.value.totalAmount == Sum(r.value.sales, ViewTotalOf)
    ensures r.Success? ==>
      exists chosen :: && ReportSelection(db.sales, from, to, chosen)
                       && SaleItemsResolve(chosen, db.products)
                       && r.value.sales == ViewsOf(chosen, db.products)
  {
    if to < from then
      Failure(InvertedRange)
    else
      var chosen := NewestFirst(OnReportDays(db.sales, from, to));
      SelectionIsReported(db.sales, from, to, db.products);
      var views := ViewsOf(chosen, db.products);
      Success(SalesReport(from, to, |views|, Sum(views, ViewTotalOf), views))
  }

  /** Filtering by day and then ordering newest first selects what a report lists. */
  lemma SelectionIsReported(sales: seq<Sale>, from: Instant, to: Instant, products: map<int, Product>)
    requires SaleItemsResolve(sales, products)
    ensures ReportSelection(sales, from, to, NewestFirst(OnReportDays(sales, from, to)))
    ensures SaleItemsResolve(NewestFirst(OnReportDays(sales, from, to)), products)
  {
    var filtered := OnReportDays(sales, from, to);
    var chosen := NewestFirst(filtered);
    assert forall s :: s in chosen ==> s in multiset(filtered);
    ResolvesByMembers(sales, chosen, products);
  }

  /** A view's total is its sale's total, so summing views sums sales. */
  lemma {:induction false} ViewTotals(sales: seq<Sale>, products: map<int, Product>)
    requires SaleItemsResolve(sales, products)
    ensures Sum(ViewsOf(sales, products), ViewTotalOf) == Sum(sales, TotalOf)
    decreases |sales|
  {
    if |sales| > 0 {
      ResolvesByMembers(sales, sales[1..], products);
      ViewTotals(sales[1..], products);
      var vs := ViewsOf(sales, products);
      assert vs[1..] == ViewsOf(sales[1..], products);
    }
  }

  /** A sale's total if it lies in the period, otherwise nothing. */
  function PeriodTotal(from: Instant, to: Instant): (f: Sale -> Money)
    ensures forall s :: f(s) == if InPeriod(s.date, from, to) then s.total else 0.0
  {
    (s: Sale) => if InPeriod(s.date, from, to) then s.total else 0.0
  }

  /** Filtering and summing is summing the masked totals. */
  lemma {:induction false} FilteredSum(sales: seq<Sale>, from: Instant, to: Instant)
    ensures Sum(OnReportDays(sales, from, to), TotalOf) == Sum(sales, PeriodTotal(from, to))
    decreases |sales|
  {
    if |sales| > 0 {
      FilteredSum(sales[1..], from, to);
      WithinDays(from, sales[0].date, to);
    }
  }

  /**
    The report's amount is the sum, over all stored sales, of the totals of
    those in the period, whatever order the report lists them in.
  */
  lemma ReportAmountIsPeriodTotal(db: Db, from: Instant, to: Instant)
    requires SaleItemsResolve(db.sales, db.products)
    requires from <= to
    ensures GetReport(db, from, to).value.totalAmount == Sum(db.sales, PeriodTotal(from, to))
  {
    var filtered := OnReportDays(db.sales, from, to);
    var chosen := NewestFirst(filtered);
    ResolvesByMembers(db.sales, chosen, db.products);
    ViewTotals(chosen, db.products);
    SumPermutation(chosen, filtered, TotalOf);
    FilteredSum(db.sales, from, to);
  }

  /**
    The bounds are compared as full timestamps before any truncation: a report
    whose `to` is earlier on the same day as `from` is refused, although the
    filter alone would accept that day.
  */
  lemma SameDayInvertedBoundsRejected(db: Db)
    requires SaleItemsResolve(db.sales, db.products)
    ensures var from, to := 10 * TicksPerDay + 5, 10 * TicksPerDay + 3;
      && DateOf(from) == DateOf(to)
      && GetReport(db, from, to) == Failure(InvertedRange)
  {
    var from, to := 10 * TicksPerDay + 5, 10 * TicksPerDay + 3;
    assert from % TicksPerDay == 5 && to % TicksPerDay == 3;
  }

  /** A sale later on `to`'s day than `to` itself is still reported: the last day counts whole. */
  lemma LastDayCountsWhole(from: Instant, to: Instant, t: Instant)
    requires from <= to
    requires DateOf(t) == DateOf(to)
    ensures InPeriod(t, from, to)
  {
    DateOfMonotone(from, to);
  }
}
