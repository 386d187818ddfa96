/**
  Recording a sale (`POST api/sales`): validate the requested lines against the
  catalogue, decrement stock line by line, snapshot prices into sale lines, sum
  the total, and commit the sale together with the new stock levels.
*/
module SaleCreation {
  import opened Results
  import opened Money
  import opened Calendar
  import opened Store

  /** One requested line (`SaleItemCreateDto`). */
  datatype LineRequest = LineRequest(productId: int, quantity: int)

  /** The request body (`SaleCreateRequest`); a missing item list reads as an empty one. */
  datatype SaleRequest = SaleRequest(customerName: Option<string>, items: seq<LineRequest>)

  /** The four `BadRequest` answers, in the order the action can give them. */
  datatype SaleError =
    | NoItems
    | UnknownProduct
    | NonPositiveQuantity
    | InsufficientStock(productName: string)

  /** The distinct product ids a request names. */
  function RequestedIds(lines: seq<LineRequest>): (ids: set<int>)
    ensures forall k :: 0 <= k < |lines| ==> lines[k].productId in ids
    ensures forall id :: id in ids ==> exists k :: 0 <= k < |lines| && lines[k].productId == id
  {
    set k | 0 <= k < |lines| :: lines[k].productId
  }

  /** The total quantity the lines ask of product `id`. */
  function Requested(lines: seq<LineRequest>, id: int): (q: int)
    ensures (forall k :: 0 <= k < |lines| ==> lines[k].productId != id) ==> q == 0
  {
    if |lines| == 0 then 0
    else (if lines[0].productId == id then lines[0].quantity else 0) + Requested(lines[1..], id)
  }

  /**
    The products a request names that exist: the query filtered by the
    distinct ids. As many rows come back as ids were asked for exactly when
    every id exists, so the count comparison after loading is the existence
    check, and the later by-id lookups among the loaded rows always succeed.
  */
  function LoadProducts(products: map<int, Product>, ids: set<int>): (loaded: map<int, Product>)
    ensures loaded.Keys == ids * products.Keys
    ensures forall id :: id in loaded ==> loaded[id] == products[id]
    ensures |loaded| == |ids| <==> ids <= products.Keys
  {
    var loaded := map id | id in ids && id in products :: products[id];
    assert loaded.Keys == ids * products.Keys;
    assert |loaded| == |loaded.Keys|;
    FullIntersection(ids, products.Keys);
    loaded
  }

  /** `a` loses nothing by intersecting with `b` exactly when it is inside `b`. */
  lemma FullIntersection(a: set<int>, b: set<int>)
    ensures |a * b| == |a| <==> a <= b
  {
    if |a * b| == |a| {
      SameSizeSubset(a * b, a);
    }
    if a <= b {
      assert a * b == a;
    }
  }

  /** A subset as large as its superset is the whole superset. */
  lemma SameSizeSubset(a: set<int>, b: set<int>)
    requires a <= b && |a| == |b|
    ensures a == b
  {
    assert b == a + (b - a);
    assert |b - a| == 0;
  }

  /** The state the action's loop keeps: the loaded products, the sale lines so far, the running total. */
  datatype Walk = Walk(products: map<int, Product>, items: seq<SaleItem>, total: Money)

  /** The sale line for an accepted request line: the price snapshot and price times quantity. */
  function PriceLine(id: int, price: Money, quantity: int): (item: SaleItem)
    ensures item.productId == id && item.quantity == quantity && item.unitPrice == price
    ensures item.subtotal == item.unitPrice * item.quantity as real
  {
    SaleItem(id, quantity, price, price * quantity as real)
  }

  /** One sale line per request line, in request order, priced from `products`. */
  function ExpectedItems(lines: seq<LineRequest>, products: map<int, Product>): (items: seq<SaleItem>)
    requires forall k :: 0 <= k < |lines| ==> lines[k].productId in products
    ensures |items| == |lines|
    ensures forall k :: 0 <= k < |lines| ==>
      items[k] == PriceLine(lines[k].productId, products[lines[k].productId].price, lines[k].quantity)
  {
    seq(|lines|, k requires 0 <= k < |lines| =>
      PriceLine(lines[k].productId, products[lines[k].productId].price, lines[k].quantity))
  }

  /** `after` is `before` with each product's stock lowered by what `lines` ask of it, and nothing else changed. */
  ghost predicate StockDrawn(before: map<int, Product>, lines: seq<LineRequest>, after: map<int, Product>)
  {
    && after.Keys == before.Keys
    && forall id :: id in before ==> after[id] == before[id].(stock := before[id].stock - Requested(lines, id))
  }

  /** The walk state after line 0 passes both checks. */
  function Advance(lines: seq<LineRequest>, acc: Walk): (next: Walk)
    requires |lines| > 0 && lines[0].productId in acc.products
  {
    var line := lines[0];
    var product := acc.products[line.productId];
    var item := PriceLine(line.productId, product.price, line.quantity);
    Walk(acc.products[line.productId := product.(stock := product.stock - line.quantity)],
         acc.items + [item], acc.total + item.subtotal)
  }

  /**
    The loop over the request lines, in request order. A line with a
    non-positive quantity, or asking more than the product's current stock,
    ends the walk with that error; otherwise the product's stock drops by the
    quantity before the next line is looked at, so repeated lines for one
    product draw on the same, shrinking stock.
  */
  function WalkLines(lines: seq<LineRequest>, acc: Walk): (r: Result<Walk, SaleError>)
    requires forall k :: 0 <= k < |lines| ==> lines[k].productId in acc.products
    ensures r.Success? ==> StockDrawn(acc.products, lines, r.value.products)
    ensures r.Success? ==> forall k :: 0 <= k < |lines| ==> r.value.products[lines[k].productId].stock >= 0
    ensures r.Success? ==> forall k :: 0 <= k < |lines| ==> lines[k].quantity > 0
    ensures r.Success? ==> r.value.items == acc.items + ExpectedItems(lines, acc.products)
    ensures r.Success? ==> r.value.total == acc.total + Sum(ExpectedItems(lines, acc.products), SubtotalOf)
    ensures r.Failure? ==> r.error.NonPositiveQuantity? || r.error.InsufficientStock?
    decreases |lines|
  {
    if |lines| == 0 then
      Success(acc)
    else
      var line := lines[0];
      var product := acc.products[line.productId];
      if line.quantity <= 0 then
        Failure(NonPositiveQuantity)
      else if product.stock < line.quantity then
        Failure(InsufficientStock(product.name))
      else
        var next := Advance(lines, acc);
        var r := WalkLines(lines[1..], next);
        if r.Success? then
          WalkStep(lines, acc, next, r.value);
          r
        else
          r
  }

  /** The contract of the walk over `lines[1..]` from `next` gives the contract of the walk over `lines` from `acc`. */
  lemma WalkStep(lines: seq<LineRequest>, acc: Walk, next: Walk, w: Walk)
    requires |lines| > 0
    requires forall k :: 0 <= k < |lines| ==> lines[k].productId in acc.products
    requires lines[0].quantity > 0 && acc.products[lines[0].productId].stock >= lines[0].quantity
    requires next == Advance(lines, acc)
    requires StockDrawn(next.products, lines[1..], w.products)
    requires forall k :: 0 <= k < |lines| - 1 ==> w.products[lines[1..][k].productId].stock >= 0
    requires forall k :: 0 <= k < |lines| - 1 ==> lines[1..][k].quantity > 0
    requires w.items == next.items + ExpectedItems(lines[1..], next.products)
    requires w.total == next.total + Sum(ExpectedItems(lines[1..], next.products), SubtotalOf)
    ensures StockDrawn(acc.products, lines, w.products)
    ensures forall k :: 0 <= k < |lines| ==> w.products[lines[k].productId].stock >= 0
    ensures forall k :: 0 <= k < |lines| ==> lines[k].quantity > 0
    ensures w.items == acc.items + ExpectedItems(lines, acc.products)
    ensures w.total == acc.total + Sum(ExpectedItems(lines, acc.products), SubtotalOf)
  {
    var p0 := acc.products[lines[0].productId];
    assert next.products == acc.products[lines[0].productId := p0.(stock := p0.stock - lines[0].quantity)];
    StepStock(lines, acc.products, next.products, w.products);
    StepTotals(lines, acc, next, w);
    StepQuantities(lines);
  }

  /** The first line's quantity is positive and so are the rest's: all are. */
  lemma StepQuantities(lines: seq<LineRequest>)
    requires |lines| > 0 && lines[0].quantity > 0
    requires forall k :: 0 <= k < |lines| - 1 ==> lines[1..][k].quantity > 0
    ensures forall k :: 0 <= k < |lines| ==> lines[k].quantity > 0
  {
    forall k | 0 < k < |lines|
      ensures lines[k].quantity > 0
    {
      assert lines[1..][k - 1] == lines[k];
    }
  }

  /** The priced lines and running total after the first line, extended by the rest, are those of all lines. */
  lemma StepTotals(lines: seq<LineRequest>, acc: Walk, next: Walk, w: Walk)
    requires |lines| > 0
    requires forall k :: 0 <= k < |lines| ==> lines[k].productId in acc.products
    requires next == Advance(lines, acc)
    requires w.items == next.items + ExpectedItems(lines[1..], next.products)
    requires w.total == next.total + Sum(ExpectedItems(lines[1..], next.products), SubtotalOf)
    ensures w.items == acc.items + ExpectedItems(lines, acc.products)
    ensures w.total == acc.total + Sum(ExpectedItems(lines, acc.products), SubtotalOf)
  {
    StepItems(lines, acc.products, next.products);
    var e := ExpectedItems(lines, acc.products);
    var rest := ExpectedItems(lines[1..], next.products);
    AdvancePrices(lines, acc);
    AppendAssociates(acc.items, [e[0]], rest);
    assert Sum(e, SubtotalOf) == e[0].subtotal + Sum(rest, SubtotalOf);
  }

  /** One step of the walk appends the first line's priced item and adds its subtotal. */
  lemma AdvancePrices(lines: seq<LineRequest>, acc: Walk)
    requires |lines| > 0
    requires forall k :: 0 <= k < |lines| ==> lines[k].productId in acc.products
    ensures Advance(lines, acc).items == acc.items + [ExpectedItems(lines, acc.products)[0]]
    ensures Advance(lines, acc).total == acc.total + ExpectedItems(lines, acc.products)[0].subtotal
  {
  }

  lemma AppendAssociates<T>(a: seq<T>, b: seq<T>, c: seq<T>)
    ensures a + b + c == a + (b + c)
  {
  }

  /** Drawing the first line's quantity and then the rest's is drawing all of them; stock stays non-negative. */
  lemma StepStock(lines: seq<LineRequest>, before: map<int, Product>, next: map<int, Product>, after: map<int, Product>)
    requires |lines| > 0 && lines[0].productId in before
    requires before[lines[0].productId].stock >= lines[0].quantity
    requires next == before[lines[0].productId := before[lines[0].productId].(stock := before[lines[0].productId].stock - lines[0].quantity)]
    requires StockDrawn(next, lines[1..], after)
    requires forall k :: 0 <= k < |lines| - 1 ==> lines[1..][k].productId in after && after[lines[1..][k].productId].stock >= 0
    ensures StockDrawn(before, lines, after)
    ensures forall k :: 0 <= k < |lines| ==> after[lines[k].productId].stock >= 0
  {
    var first := lines[0].productId;
    forall k | 0 <= k < |lines|
      ensures after[lines[k].productId].stock >= 0
    {
      if k > 0 {
        assert lines[1..][k - 1] == lines[k];
      } else if forall j :: 0 <= j < |lines| - 1 ==> lines[1..][j].productId != first {
        assert Requested(lines[1..], first) == 0;
      }
    }
  }

  /** Pricing the rest of the lines from the stock-reduced catalogue gives the same lines: prices do not move. */
  lemma StepItems(lines: seq<LineRequest>, before: map<int, Product>, next: map<int, Product>)
    requires |lines| > 0
    requires forall k :: 0 <= k < |lines| ==> lines[k].productId in before
    requires next == before[lines[0].productId := before[lines[0].productId].(stock := before[lines[0].productId].stock - lines[0].quantity)]
    ensures ExpectedItems(lines[1..], next) == ExpectedItems(lines, before)[1..]
    ensures ExpectedItems(lines, before) == [ExpectedItems(lines, before)[0]] + ExpectedItems(lines[1..], next)
  {
    var e := ExpectedItems(lines, before);
    assert e == [e[0]] + e[1..];
  }

  /*
    An order-by-order description of which request the walk accepts,
    independent of how the walk is computed: line `k` is accepted when its
    quantity is positive and at most what is left of its product's stock once
    the lines before it have taken theirs.
  */

  ghost predicate Accepted(products: map<int, Product>, lines: seq<LineRequest>, k: int)
    requires 0 <= k < |lines| && lines[k].productId in products
  {
    && lines[k].quantity > 0
    && lines[k].quantity <= products[lines[k].productId].stock - Requested(lines[..k], lines[k].productId)
  }

  /** The error a rejected line gets: the quantity check comes first, then the stock check. */
  function Rejection(products: map<int, Product>, line: LineRequest): SaleError
    requires line.productId in products
  {
    if line.quantity <= 0 then NonPositiveQuantity else InsufficientStock(products[line.productId].name)
  }

  /** Line `k` is the first line that is not accepted. */
  ghost predicate FirstRejected(products: map<int, Product>, lines: seq<LineRequest>, k: int)
    requires forall j :: 0 <= j < |lines| ==> lines[j].productId in products
  {
    && 0 <= k < |lines|
    && (forall j :: 0 <= j < k ==> Accepted(products, lines, j))
    && !Accepted(products, lines, k)
  }

  /** After the first line takes its quantity, line `k` is judged as line `k - 1` of the rest. */
  lemma AcceptedShift(products: map<int, Product>, next: map<int, Product>, lines: seq<LineRequest>, k: int)
    requires 0 < k < |lines|
    requires forall j :: 0 <= j < |lines| ==> lines[j].productId in products
    requires next == products[lines[0].productId := products[lines[0].productId].(stock := products[lines[0].productId].stock - lines[0].quantity)]
    ensures lines[1..][k - 1] == lines[k]
    ensures Accepted(products, lines, k) <==> Accepted(next, lines[1..], k - 1)
  {
    assert lines[..k] == [lines[0]] + lines[1..][..k - 1];
    assert ([lines[0]] + lines[1..][..k - 1])[1..] == lines[1..][..k - 1];
  }

  /** When line 0 passes, the walk is the walk of the rest from the advanced state, and acceptance shifts by one. */
  lemma WalkAdvance(lines: seq<LineRequest>, acc: Walk)
    requires |lines| > 0
    requires forall k :: 0 <= k < |lines| ==> lines[k].productId in acc.products
    requires lines[0].quantity > 0 && acc.products[lines[0].productId].stock >= lines[0].quantity
    ensures forall k :: 0 <= k < |lines| - 1 ==> lines[1..][k].productId in Advance(lines, acc).products
    ensures WalkLines(lines, acc) == WalkLines(lines[1..], Advance(lines, acc))
    ensures Accepted(acc.products, lines, 0)
    ensures forall k :: 0 < k < |lines| ==>
      (Accepted(acc.products, lines, k) <==> Accepted(Advance(lines, acc).products, lines[1..], k - 1))
    ensures forall k :: 0 < k < |lines| ==> lines[1..][k - 1] == lines[k]
  {
    assert lines[..0] == [];
    forall k | 0 < k < |lines|
      ensures Accepted(acc.products, lines, k) <==> Accepted(Advance(lines, acc).products, lines[1..], k - 1)
    {
      AcceptedShift(acc.products, Advance(lines, acc).products, lines, k);
    }
  }

  /** The walk succeeds exactly when every line is accepted. */
  lemma {:induction false} WalkAcceptsAll(lines: seq<LineRequest>, acc: Walk)
    requires forall k :: 0 <= k < |lines| ==> lines[k].productId in acc.products
    ensures WalkLines(lines, acc).Success? <==> forall k :: 0 <= k < |lines| ==> Accepted(acc.products, lines, k)
    decreases |lines|
  {
    if |lines| > 0 {
      var line := lines[0];
      assert lines[..0] == [];
      if line.quantity > 0 && acc.products[line.productId].stock >= line.quantity {
        var next := Advance(lines, acc);
        WalkAdvance(lines, acc);
        WalkAcceptsAll(lines[1..], next);
        if WalkLines(lines, acc).Success? {
          forall k | 0 < k < |lines|
            ensures Accepted(acc.products, lines, k)
          {
            assert Accepted(next.products, lines[1..], k - 1);
          }
        } else {
          var k :| 0 <= k < |lines| - 1 && !Accepted(next.products, lines[1..], k);
          assert !Accepted(acc.products, lines, k + 1);
        }
      } else {
        assert !Accepted(acc.products, lines, 0);
      }
    }
  }

  /** A failed walk reports the error of the first line that is not accepted. */
  lemma {:induction false} WalkReportsFirstRejection(lines: seq<LineRequest>, acc: Walk)
    requires forall k :: 0 <= k < |lines| ==> lines[k].productId in acc.products
    requires WalkLines(lines, acc).Failure?
    ensures exists k :: FirstRejected(acc.products, lines, k) && WalkLines(lines, acc).error == Rejection(acc.products, lines[k])
    decreases |lines|
  {
    var line := lines[0];
    assert lines[..0] == [];
    if line.quantity <= 0 || acc.products[line.productId].stock < line.quantity {
      assert FirstRejected(acc.products, lines, 0);
    } else {
      var next := Advance(lines, acc);
      WalkAdvance(lines, acc);
      WalkReportsFirstRejection(lines[1..], next);
      var k :| FirstRejected(next.products, lines[1..], k)
        && WalkLines(lines[1..], next).error == Rejection(next.products, lines[1..][k]);
      assert lines[1..][k] == lines[k + 1];
      assert FirstRejected(acc.products, lines, k + 1);
    }
  }

  /**
    The checks of the action and its loop, before anything is saved: the item
    list is not empty; every distinct product id exists (decided before any
    quantity is looked at); then each line in request order, quantity first
    and stock second, against the stock the earlier lines left.
  */
  function Validate(products: map<int, Product>, lines: seq<LineRequest>): (r: Result<Walk, SaleError>)
    ensures |lines| == 0 ==> r == Failure(NoItems)
    ensures |lines| > 0 ==>
      (r == Failure(UnknownProduct) <==> exists k :: 0 <= k < |lines| && lines[k].productId !in products)
    ensures r.Success? ==> Priced(products, lines, r.value)
  {
    if |lines| == 0 then
      Failure(NoItems)
    else
      var ids := RequestedIds(lines);
      var loaded := LoadProducts(products, ids);
      if |loaded| != |ids| then
        Failure(UnknownProduct)
      else
        var r := WalkLines(lines, Walk(loaded, [], 0.0));
        if r.Success? then
          WalkFromEmpty(lines, loaded);
          ValidatePrices(products, lines, loaded, r.value);
          r
        else
          r
  }

  /**
    A successful walk: every product known, every quantity positive, the
    loaded products' stock drawn by the request and none below zero, one sale
    line per request line priced from the catalogue, and the total their sum.
  */
  ghost predicate Priced(products: map<int, Product>, lines: seq<LineRequest>, w: Walk)
  {
    && (forall k :: 0 <= k < |lines| ==> lines[k].productId in products)
    && (forall k :: 0 <= k < |lines| ==> lines[k].quantity > 0)
    && StockCommitted(products, lines, products + w.products)
    && w.items == ExpectedItems(lines, products)
    && w.total == Sum(w.items, SubtotalOf)
  }

  /** Stock is drawn per request and no referenced product ends below zero. */
  ghost predicate StockCommitted(before: map<int, Product>, lines: seq<LineRequest>, after: map<int, Product>)
  {
    && StockDrawn(before, lines, after)
    && (forall k :: 0 <= k < |lines| ==> lines[k].productId in after && after[lines[k].productId].stock >= 0)
  }

  /** A walk that starts with no lines and a zero total ends with exactly the expected lines and their sum. */
  lemma WalkFromEmpty(lines: seq<LineRequest>, loaded: map<int, Product>)
    requires forall k :: 0 <= k < |lines| ==> lines[k].productId in loaded
    ensures var r := WalkLines(lines, Walk(loaded, [], 0.0));
      r.Success? ==> r.value.items == ExpectedItems(lines, loaded) && r.value.total == Sum(r.value.items, SubtotalOf)
  {
    assert [] + ExpectedItems(lines, loaded) == ExpectedItems(lines, loaded);
  }

  /** The walk over the loaded products, read against the whole catalogue. */
  lemma ValidatePrices(products: map<int, Product>, lines: seq<LineRequest>, loaded: map<int, Product>, w: Walk)
    requires RequestedIds(lines) <= products.Keys
    requires loaded == LoadProducts(products, RequestedIds(lines))
    requires StockDrawn(loaded, lines, w.products)
    requires forall k :: 0 <= k < |lines| ==> w.products[lines[k].productId].stock >= 0
    requires forall k :: 0 <= k < |lines| ==> lines[k].quantity > 0
    requires w.items == ExpectedItems(lines, loaded)
    requires w.total == Sum(ExpectedItems(lines, loaded), SubtotalOf)
    ensures Priced(products, lines, w)
  {
    assert loaded.Keys == RequestedIds(lines);
    MergeStock(products, lines, loaded, w.products);
    SamePrices(products, lines, loaded);
  }

  /** Lines priced from rows copied out of the catalogue are priced as from the catalogue. */
  lemma SamePrices(products: map<int, Product>, lines: seq<LineRequest>, loaded: map<int, Product>)
    requires forall k :: 0 <= k < |lines| ==> lines[k].productId in loaded && lines[k].productId in products
    requires forall id :: id in loaded ==> id in products && loaded[id] == products[id]
    ensures ExpectedItems(lines, loaded) == ExpectedItems(lines, products)
  {
    assert forall k :: 0 <= k < |lines| ==> loaded[lines[k].productId] == products[lines[k].productId];
  }

  /** Writing the walked products back over the catalogue draws stock exactly for the requested ids. */
  lemma MergeStock(products: map<int, Product>, lines: seq<LineRequest>, loaded: map<int, Product>, walked: map<int, Product>)
    requires loaded.Keys == RequestedIds(lines) <= products.Keys
    requires forall id :: id in loaded ==> loaded[id] == products[id]
    requires StockDrawn(loaded, lines, walked)
    requires forall k :: 0 <= k < |lines| ==> walked[lines[k].productId].stock >= 0
    ensures StockCommitted(products, lines, products + walked)
  {
    var ids := RequestedIds(lines);
    forall id | id in products
      ensures (products + walked)[id] == products[id].(stock := products[id].stock - Requested(lines, id))
    {
      if id !in ids {
        assert Requested(lines, id) == 0;
      }
    }
  }

  /**
    What a committed sale leaves behind: categories untouched, each product's
    stock lowered by its total requested quantity and none below zero, and
    one new sale with the next sale id, dated `now`, with one line per request
    line priced from the catalogue at sale time and a total equal to the sum
    of its lines.
  */
  ghost predicate Committed(db: Db, request: SaleRequest, now: Instant, after: Db)
  {
    && (forall k :: 0 <= k < |request.items| ==> request.items[k].productId in db.products)
    && (forall k :: 0 <= k < |request.items| ==> request.items[k].quantity > 0)
    && after.categories == db.categories
    && after.nextCategoryId == db.nextCategoryId
    && StockCommitted(db.products, request.items, after.products)
    && after.nextSaleId == db.nextSaleId + 1
    && var items := ExpectedItems(request.items, db.products);
       after.sales == db.sales + [Sale(db.nextSaleId, now, request.customerName, Sum(items, SubtotalOf), items)]
  }

  /** The save: the new stock levels and the new sale, which takes the next sale id. */
  function Commit(db: Db, request: SaleRequest, now: Instant, w: Walk): (after: Db)
    requires Priced(db.products, request.items, w)
    ensures after.categories == db.categories && after.nextCategoryId == db.nextCategoryId
    ensures StockCommitted(db.products, request.items, after.products)
    ensures after.nextSaleId == db.nextSaleId + 1
    ensures after.sales == db.sales + [Sale(db.nextSaleId, now, request.customerName, w.total, w.items)]
  {
    db.(products := db.products + w.products,
        sales := db.sales + [Sale(db.nextSaleId, now, request.customerName, w.total, w.items)],
        nextSaleId := db.nextSaleId + 1)
  }

  lemma CommitIsCommitted(db: Db, request: SaleRequest, now: Instant, w: Walk)
    requires Priced(db.products, request.items, w)
    ensures Committed(db, request, now, Commit(db, request, now, w))
    ensures forall k :: 0 <= k < |w.items| ==> w.items[k].productId in Commit(db, request, now, w).products
    ensures Commit(db, request, now, w).sales[|db.sales|] == Sale(db.nextSaleId, now, request.customerName, w.total, w.items)
  {
  }

  /**
    `POST api/sales`. Only when every check passes are the sale and the new
    stock levels committed, in one save; any rejection leaves the database as
    it was. `now` is the server clock (`DateTime.UtcNow`).
  */
  function Create(db: Db, request: SaleRequest, now: Instant): (r: (Db, Result<SaleView, SaleError>))
    ensures |request.items| == 0 ==> r == (db, Failure(NoItems))
    ensures r.1.Failure? ==> r.0 == db
    ensures |request.items| > 0 ==>
      (r.1 == Failure(UnknownProduct) <==>
       exists k :: 0 <= k < |request.items| && request.items[k].productId !in db.products)
    ensures r.1.Success? ==> Committed(db, request, now, r.0)
    ensures r.1.Success? ==> r.1.value == ViewOf(r.0.sales[|db.sales|], r.0.products)
  {
    var v := Validate(db.products, request.items);
    if v.Failure? then
      (db, Failure(v.error))
    else
      CommitIsCommitted(db, request, now, v.value);
      var after := Commit(db, request, now, v.value);
      (after, Success(ViewOf(after.sales[|db.sales|], after.products)))
  }

  /**
    The response of a committed sale carries the new sale's id and date, its
    total, and per request line the product's name and the price it was sold
    at. (`Create` answers `ViewOf` the recorded sale and leaves a database
    that is `Committed`.)
  */
  lemma CommittedResponse(db: Db, request: SaleRequest, now: Instant, after: Db)
    requires Committed(db, request, now, after)
    ensures SaleItemsResolve([after.sales[|db.sales|]], after.products)
    ensures var v := ViewOf(after.sales[|db.sales|], after.products);
      && v.id == db.nextSaleId && v.date == now && v.customerName == request.customerName
      && v.total == Sum(ExpectedItems(request.items, db.products), SubtotalOf)
      && |v.items| == |request.items|
      && forall k :: 0 <= k < |request.items| ==>
        && v.items[k].productId == request.items[k].productId
        && v.items[k].productName == db.products[request.items[k].productId].name
        && v.items[k].quantity == request.items[k].quantity
        && v.items[k].unitPrice == db.products[request.items[k].productId].price
        && v.items[k].subtotal == v.items[k].unitPrice * v.items[k].quantity as real
  {
    CommittedNames(db, request, now, after);
    RecordedResponse(db, request, now, after);
  }

  /** The view of the recorded sale, from the facts `Committed` gives about it. */
  lemma RecordedResponse(db: Db, request: SaleRequest, now: Instant, after: Db)
    requires forall k :: 0 <= k < |request.items| ==> request.items[k].productId in db.products
    requires |after.sales| == |db.sales| + 1
    requires var items := ExpectedItems(request.items, db.products);
      after.sales[|db.sales|] == Sale(db.nextSaleId, now, request.customerName, Sum(items, SubtotalOf), items)
    requires forall k :: 0 <= k < |request.items| ==>
      && request.items[k].productId in after.products
      && after.products[request.items[k].productId].name == db.products[request.items[k].productId].name
    ensures SaleItemsResolve([after.sales[|db.sales|]], after.products)
    ensures var v := ViewOf(after.sales[|db.sales|], after.products);
      && v.id == db.nextSaleId && v.date == now && v.customerName == request.customerName
      && v.total == Sum(ExpectedItems(request.items, db.products), SubtotalOf)
      && |v.items| == |request.items|
      && forall k :: 0 <= k < |request.items| ==>
        && v.items[k].productId == request.items[k].productId
        && v.items[k].productName == db.products[request.items[k].productId].name
        && v.items[k].quantity == request.items[k].quantity
        && v.items[k].unitPrice == db.products[request.items[k].productId].price
        && v.items[k].subtotal == v.items[k].unitPrice * v.items[k].quantity as real
  {
    ResponseOf(db.products, request, now, db.nextSaleId, after.products);
  }

  /** The names of the products a committed sale drew from are unchanged. */
  lemma CommittedNames(db: Db, request: SaleRequest, now: Instant, after: Db)
    requires Committed(db, request, now, after)
    ensures forall k :: 0 <= k < |request.items| ==> request.items[k].productId in db.products
    ensures |after.sales| == |db.sales| + 1
    ensures var items := ExpectedItems(request.items, db.products);
      after.sales[|db.sales|] == Sale(db.nextSaleId, now, request.customerName, Sum(items, SubtotalOf), items)
    ensures forall k :: 0 <= k < |request.items| ==>
      && request.items[k].productId in after.products
      && after.products[request.items[k].productId].name == db.products[request.items[k].productId].name
  {
  }

  /** The view of the sale built from the priced lines, against any catalogue with the same names. */
  lemma ResponseOf(products: map<int, Product>, request: SaleRequest, now: Instant, id: int, live: map<int, Product>)
    requires forall k :: 0 <= k < |request.items| ==>
      && request.items[k].productId in products
      && request.items[k].productId in live
      && live[request.items[k].productId].name == products[request.items[k].productId].name
    ensures var items := ExpectedItems(request.items, products);
      var sale := Sale(id, now, request.customerName, Sum(items, SubtotalOf), items);
      && SaleItemsResolve([sale], live)
      && var v := ViewOf(sale, live);
      && v.id == id && v.date == now && v.customerName == request.customerName
      && v.total == Sum(items, SubtotalOf)
      && |v.items| == |request.items|
      && forall k :: 0 <= k < |request.items| ==>
        && v.items[k].productId == request.items[k].productId
        && v.items[k].productName == products[request.items[k].productId].name
        && v.items[k].quantity == request.items[k].quantity
        && v.items[k].unitPrice == products[request.items[k].productId].price
        && v.items[k].subtotal == v.items[k].unitPrice * v.items[k].quantity as real
  {
    var items := ExpectedItems(request.items, products);
    var sale := Sale(id, now, request.customerName, Sum(items, SubtotalOf), items);
    assert SaleItemsResolve([sale], live) by {
      forall i, k | 0 <= i < 1 && 0 <= k < |sale.items|
        ensures [sale][i].items[k].productId in live
      {
        assert items[k].productId == request.items[k].productId;
      }
    }
  }

  /**
    With every product known, the checks pass exactly when every line is
    accepted against the stock its earlier lines left; otherwise the first
    line that is not decides the error.
  */
  lemma ValidateVerdict(products: map<int, Product>, lines: seq<LineRequest>)
    requires |lines| > 0
    requires forall k :: 0 <= k < |lines| ==> lines[k].productId in products
    ensures Validate(products, lines).Success? <==> forall k :: 0 <= k < |lines| ==> Accepted(products, lines, k)
    ensures Validate(products, lines).Failure? ==> exists k ::
      FirstRejected(products, lines, k) && Validate(products, lines).error == Rejection(products, lines[k])
  {
    var ids := RequestedIds(lines);
    var loaded := LoadProducts(products, ids);
    var acc := Walk(loaded, [], 0.0);
    assert Validate(products, lines) == WalkLines(lines, acc);
    WalkAcceptsAll(lines, acc);
    forall k | 0 <= k < |lines|
      ensures Accepted(loaded, lines, k) <==> Accepted(products, lines, k)
    {
      assert loaded[lines[k].productId] == products[lines[k].productId];
    }
    if WalkLines(lines, acc).Failure? {
      WalkReportsFirstRejection(lines, acc);
      var k :| FirstRejected(loaded, lines, k) && WalkLines(lines, acc).error == Rejection(loaded, lines[k]);
      assert FirstRejected(products, lines, k);
    }
  }

  /** `Create` answers what the checks decide. */
  lemma CreateVerdict(db: Db, request: SaleRequest, now: Instant)
    requires |request.items| > 0
    requires forall k :: 0 <= k < |request.items| ==> request.items[k].productId in db.products
    ensures Create(db, request, now).1.Success? <==>
      forall k :: 0 <= k < |request.items| ==> Accepted(db.products, request.items, k)
    ensures Create(db, request, now).1.Failure? ==> exists k ::
      && FirstRejected(db.products, request.items, k)
      && Create(db, request, now).1.error == Rejection(db.products, request.items[k])
  {
    ValidateVerdict(db.products, request.items);
  }

  /** With 5 pens in stock, a line asking for 3 passes. */
  lemma SingleLineWithinStock()
    ensures Validate(map[7 := Product("Pen", 2.5, 5, 1)], [LineRequest(7, 3)]).Success?
  {
    var products := map[7 := Product("Pen", 2.5, 5, 1)];
    var one := [LineRequest(7, 3)];
    ValidateVerdict(products, one);
    assert one[..0] == [];
    assert Accepted(products, one, 0);
  }

  /**
    Repeated lines are checked against the stock the earlier lines left: with
    5 pens in stock, two lines of 3 are rejected although each passes on its own.
  */
  lemma RepeatedLinesDrawOnSameStock()
    ensures Validate(map[7 := Product("Pen", 2.5, 5, 1)], [LineRequest(7, 3), LineRequest(7, 3)])
         == Failure(InsufficientStock("Pen"))
  {
    var products := map[7 := Product("Pen", 2.5, 5, 1)];
    var two := [LineRequest(7, 3), LineRequest(7, 3)];
    ValidateVerdict(products, two);
    assert two[..0] == [] && two[..1] == [LineRequest(7, 3)];
    assert Accepted(products, two, 0) && !Accepted(products, two, 1);
    var k :| FirstRejected(products, two, k) && Validate(products, two).error == Rejection(products, two[k]);
    assert k == 1;
  }

  /** An unknown product is reported even when another line has a non-positive quantity. */
  lemma UnknownProductReportedFirst()
    ensures var db := Db(map[1 := "Office"], map[7 := Product("Pen", 2.5, 5, 1)], [], 2, 1);
      Create(db, SaleRequest(None, [LineRequest(7, 0), LineRequest(8, 1)]), 0).1 == Failure(UnknownProduct)
  {
    var lines := [LineRequest(7, 0), LineRequest(8, 1)];
    assert lines[1].productId == 8;
  }

  /** A committed sale keeps the database's invariants. */
  lemma CreatePreservesValid(db: Db, request: SaleRequest, now: Instant)
    requires Valid(db)
    ensures Valid(Create(db, request, now).0)
  {
    var r := Create(db, request, now);
    if r.1.Success? {
      CommittedPreservesValid(db, request, now, r.0);
    }
  }

  lemma CommittedPreservesValid(db: Db, request: SaleRequest, now: Instant, after: Db)
    requires Valid(db)
    requires Committed(db, request, now, after)
    ensures Valid(after)
  {
    CommittedNames(db, request, now, after);
    var items := ExpectedItems(request.items, db.products);
    var sale := Sale(db.nextSaleId, now, request.customerName, Sum(items, SubtotalOf), items);
    assert after.sales == db.sales + [sale];
    PricedSaleConsistent(request.items, db.products, now, request.customerName, db.nextSaleId);
    StockCommittedKeepsRows(db.products, request.items, after.products);
    assert SaleItemsResolve(after.sales, after.products) by {
      forall i, k | 0 <= i < |after.sales| && 0 <= k < |after.sales[i].items|
        ensures after.sales[i].items[k].productId in after.products
      {
        if i < |db.sales| {
          assert after.sales[i] == db.sales[i];
        } else {
          assert after.sales[i] == sale;
        }
      }
    }
  }

  /** A sale built from accepted lines is consistent: positive quantities, priced lines, summed total. */
  lemma PricedSaleConsistent(lines: seq<LineRequest>, products: map<int, Product>, now: Instant, customer: Option<string>, id: int)
    requires forall k :: 0 <= k < |lines| ==> lines[k].productId in products
    requires forall k :: 0 <= k < |lines| ==> lines[k].quantity > 0
    ensures var items := ExpectedItems(lines, products);
      SaleConsistent(Sale(id, now, customer, Sum(items, SubtotalOf), items))
  {
  }

  /** Drawing stock keeps every product's category and, when it was so before, a non-negative stock. */
  lemma StockCommittedKeepsRows(before: map<int, Product>, lines: seq<LineRequest>, after: map<int, Product>)
    requires StockCommitted(before, lines, after)
    requires forall id :: id in before ==> before[id].stock >= 0
    ensures after.Keys == before.Keys
    ensures forall id :: id in before ==> after[id].stock >= 0 && after[id].categoryId == before[id].categoryId
  {
    forall id | id in before
      ensures after[id].stock >= 0
    {
      if forall k :: 0 <= k < |lines| ==> lines[k].productId != id {
        assert Requested(lines, id) == 0;
      } else {
        var k :| 0 <= k < |lines| && lines[k].productId == id;
      }
    }
  }
}
