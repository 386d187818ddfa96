/**
  The entities of the application and the database that holds them, plus the
  response shapes the sales endpoints return.
*/
module Store {
  import opened Results
  import opened Money
  import opened Calendar
  import opened Sorting

  /** A product row; its id is its key in `Db.products`. */
  datatype Product = Product(name: string, price: Money, stock: int, categoryId: int)

  /** One line of a committed sale: quantity and a snapshot of the price at sale time. */
  datatype SaleItem = SaleItem(productId: int, quantity: int, unitPrice: Money, subtotal: Money)

  datatype Sale = Sale(id: int, date: Instant, customerName: Option<string>, total: Money, items: seq<SaleItem>)

  /**
    The database: categories by id (id to name), products by id, committed
    sales in insertion order, and the next values of the two identity columns.
  */
  datatype Db = Db(
    categories: map<int, string>,
    products: map<int, Product>,
    sales: seq<Sale>,
    nextCategoryId: int,
    nextSaleId: int)

  function SubtotalOf(i: SaleItem): Money { i.subtotal }

  function TotalOf(s: Sale): Money { s.total }

  /** A committed sale: positive quantities, priced lines, and a total equal to the sum of its lines. */
  predicate SaleConsistent(s: Sale)
  {
    && (forall i :: 0 <= i < |s.items| ==> s.items[i].quantity > 0)
    && (forall i :: 0 <= i < |s.items| ==> s.items[i].subtotal == s.items[i].unitPrice * s.items[i].quantity as real)
    && s.total == Sum(s.items, SubtotalOf)
  }

  /** Every sale line refers to an existing product (the foreign key of SaleItem.ProductId). */
  predicate SaleItemsResolve(sales: seq<Sale>, products: map<int, Product>)
  {
    forall i, k :: 0 <= i < |sales| && 0 <= k < |sales[i].items| ==> sales[i].items[k].productId in products
  }

  /** What the database and the controllers together keep true. */
  predicate Valid(db: Db)
  {
    && (forall c :: c in db.categories ==> c < db.nextCategoryId)
    && (forall p :: p in db.products ==> db.products[p].categoryId in db.categories)
    && (forall p :: p in db.products ==> db.products[p].stock >= 0)
    && (forall i :: 0 <= i < |db.sales| ==> db.sales[i].id < db.nextSaleId)
    && (forall i, j :: 0 <= i < j < |db.sales| ==> db.sales[i].id != db.sales[j].id)
    && (forall i :: 0 <= i < |db.sales| ==> SaleConsistent(db.sales[i]))
    && SaleItemsResolve(db.sales, db.products)
  }

  /** `SaleItemDto`: a sale line with the product's name resolved. */
  datatype SaleItemView = SaleItemView(productId: int, productName: string, quantity: int, unitPrice: Money, subtotal: Money)

  /** `SaleDto`. */
  datatype SaleView = SaleView(id: int, date: Instant, customerName: Option<string>, total: Money, items: seq<SaleItemView>)

  function ViewTotalOf(v: SaleView): Money { v.total }

  /** The response shape of a sale line: the line's own snapshot plus the product's name. */
  function ItemView(item: SaleItem, products: map<int, Product>): (v: SaleItemView)
    requires item.productId in products
    ensures v.productId == item.productId && v.productName == products[item.productId].name
    ensures v.quantity == item.quantity && v.unitPrice == item.unitPrice && v.subtotal == item.subtotal
  {
    SaleItemView(item.productId, products[item.productId].name, item.quantity, item.unitPrice, item.subtotal)
  }

  /**
    The response shape of a sale. Names come from the products given; the
    quantities and prices come from the sale's own snapshot.
  */
  function ViewOf(s: Sale, products: map<int, Product>): (v: SaleView)
    requires forall k :: 0 <= k < |s.items| ==> s.items[k].productId in products
    ensures v.id == s.id && v.date == s.date && v.customerName == s.customerName && v.total == s.total
    ensures |v.items| == |s.items|
    ensures forall k :: 0 <= k < |s.items| ==>
      && v.items[k].productId == s.items[k].productId
      && v.items[k].productName == products[s.items[k].productId].name
      && v.items[k].quantity == s.items[k].quantity
      && v.items[k].unitPrice == s.items[k].unitPrice
      && v.items[k].subtotal == s.items[k].subtotal
  {
    SaleView(s.id, s.date, s.customerName, s.total,
             seq(|s.items|, k requires 0 <= k < |s.items| => ItemView(s.items[k], products)))
  }

  /**
    Sale lines are snapshots: the view of a committed sale depends on the live
    catalogue only through product names, so repricing or restocking a product
    leaves every past sale's prices, subtotals and total as they were.
  */
  lemma ViewIgnoresLivePrices(s: Sale, before: map<int, Product>, after: map<int, Product>)
    requires forall k :: 0 <= k < |s.items| ==> s.items[k].productId in before && s.items[k].productId in after
    requires forall k :: 0 <= k < |s.items| ==> before[s.items[k].productId].name == after[s.items[k].productId].name
    ensures ViewOf(s, before) == ViewOf(s, after)
  {
  }

  /** The views of a sequence of sales, in the same order. */
  function ViewsOf(sales: seq<Sale>, products: map<int, Product>): (vs: seq<SaleView>)
    requires SaleItemsResolve(sales, products)
    ensures |vs| == |sales|
    ensures forall i :: 0 <= i < |sales| ==> vs[i] == ViewOf(sales[i], products)
  {
    seq(|sales|, i requires 0 <= i < |sales| => ViewOf(sales[i], products))
  }

  /** Every sale drawn from a set of resolving sales resolves too. */
  lemma ResolvesByMembers(a: seq<Sale>, b: seq<Sale>, products: map<int, Product>)
    requires SaleItemsResolve(a, products)
    requires forall x :: x in b ==> x in a
    ensures SaleItemsResolve(b, products)
  {
    forall i, k | 0 <= i < |b| && 0 <= k < |b[i].items|
      ensures b[i].items[k].productId in products
    {
      assert b[i] in a;
    }
  }

  /** Taking a sale out of resolving sales leaves resolving sales. */
  lemma ResolvesWithout(b: seq<Sale>, j: nat, products: map<int, Product>)
    requires j < |b|
    requires SaleItemsResolve(b, products)
    ensures SaleItemsResolve(b[..j] + b[j + 1..], products)
    ensures SaleItemsResolve(b[j + 1..], products)
  {
    var rest := b[..j] + b[j + 1..];
    forall i, k | 0 <= i < |rest| && 0 <= k < |rest[i].items|
      ensures rest[i].items[k].productId in products
    {
      assert rest[i] == if i < j then b[i] else b[i + 1];
    }
    var tail := b[j + 1..];
    forall i, k | 0 <= i < |tail| && 0 <= k < |tail[i].items|
      ensures tail[i].items[k].productId in products
    {
      assert tail[i] == b[j + 1 + i];
    }
  }

  /** Rearranging sales rearranges their views the same way. */
  lemma {:induction false} ViewsPermutation(a: seq<Sale>, b: seq<Sale>, products: map<int, Product>)
    requires multiset(a) == multiset(b)
    requires SaleItemsResolve(a, products) && SaleItemsResolve(b, products)
    ensures multiset(ViewsOf(a, products)) == multiset(ViewsOf(b, products))
    decreases |a|
  {
    if |a| == 0 {
      assert |b| == |multiset(b)| == 0;
    } else {
      assert a[0] in multiset(b);
      var j :| 0 <= j < |b| && b[j] == a[0];
      var rest := b[..j] + b[j + 1..];
      RestPermutation(a, b, j);
      ResolvesWithout(a, 0, products);
      ResolvesWithout(b, j, products);
      ViewsPermutation(a[1..], rest, products);
      ViewsStep(a, b, j, products);
    }
  }

  /** The inductive step of `ViewsPermutation`: matching first sale, matching rest. */
  lemma ViewsStep(a: seq<Sale>, b: seq<Sale>, j: nat, products: map<int, Product>)
    requires 0 < |a| && j < |b| && b[j] == a[0]
    requires SaleItemsResolve(a, products) && SaleItemsResolve(b, products)
    requires SaleItemsResolve(a[1..], products) && SaleItemsResolve(b[..j] + b[j + 1..], products)
    requires multiset(ViewsOf(a[1..], products)) == multiset(ViewsOf(b[..j] + b[j + 1..], products))
    ensures multiset(ViewsOf(a, products)) == multiset(ViewsOf(b, products))
  {
    assert a[..0] + a[1..] == a[1..];
    ViewsRemove(a, 0, products);
    ViewsRemove(b, j, products);
    var va, vb := ViewsOf(a, products), ViewsOf(b, products);
    assert va[..0] + va[1..] == va[1..];
    assert ViewsOf(a[1..], products) == va[1..];
    assert vb[j] == ViewOf(b[j], products) == va[0];
    MultisetStep(va, vb, j);
  }

  /** Taking one sale out takes its view out at the same place. */
  lemma ViewsRemove(b: seq<Sale>, j: nat, products: map<int, Product>)
    requires j < |b|
    requires SaleItemsResolve(b, products) && SaleItemsResolve(b[..j] + b[j + 1..], products)
    ensures ViewsOf(b[..j] + b[j + 1..], products) == ViewsOf(b, products)[..j] + ViewsOf(b, products)[j + 1..]
  {
  }
}
