# Sales and categories backend — a Dafny model

This project models the two controllers at the centre of a small
point-of-sale backend:

- the **sales endpoints**: recording a sale against live stock, listing sales,
  fetching one sale, and the sales report over a range of days;
- the **category endpoints**: list, fetch, create, rename and delete
  categories.

The database is an immutable value `Store.Db`. It holds these parts:

- categories, as a map from id to name;
- products, as a map from id to `Product`;
- sales, as a sequence of `Sale` in insertion order;
- the two identity counters.

Every action is a pure function from a database, plus the request, to the new
database and the response. A rejected request returns the database unchanged.
This is how the model captures "no partial stock change on a rejected order".

`Store.Valid` states what the database and the controllers keep true together:

- products point at existing categories;
- stock is never negative;
- sale ids are unique and below the counter;
- every sale's total is the sum of its lines;
- every line names an existing product.

Each writing action is proved to preserve `Valid`.

Modules:

| file | module | what it holds |
|---|---|---|
| results.dfy | `Results` | `Option`, `Result` |
| money.dfy | `Money` | amounts as exact rationals, `Sum`, sums under reordering |
| calendar.dfy | `Calendar` | instants as ticks, `DateOf` (truncation to the day) |
| text.dfy | `Text` | ASCII lower-casing as the database's `lower()` does it, binary (ordinal) string order |
| sorting.dfy | `Sorting` | `Sorted`, a stable insertion sort standing for `OrderBy`, and how multisets track rearrangements |
| store.dfy | `Store` | entities, `Db`, `Valid`, the response shapes and how a sale is rendered |
| sale_creation.dfy | `SaleCreation` | `POST api/sales` |
| sale_queries.dfy | `SaleQueries` | `GET api/sales`, `GET api/sales/{id}`, `GET api/sales/report` |
| categories.dfy | `CategoryRegistry` | the five category actions |

## How the sale is checked

`SaleCreation.Create` follows the action step by step:

1. An empty item list is refused.
2. The distinct product ids are loaded. If fewer rows come back than ids were
   asked for, the request is refused as naming an unknown product.
3. The lines are then walked in request order (`WalkLines`). For each line:
   - a non-positive quantity is refused;
   - otherwise the line is checked against the product's *current* tracked
     stock;
   - if it passes, the line takes its quantity from that stock, is priced at
     the product's price, and adds its subtotal to the total.

Because the walk draws on the same tracked product each time, repeated lines
for one product are checked cumulatively.

An independent description of which requests pass is the predicate
`Accepted`. Line `k` is accepted when its quantity is positive and at most the
product's stock minus what lines `0..k-1` asked of that product. The lemmas
`WalkAcceptsAll`, `WalkReportsFirstRejection` and `ValidateVerdict` tie the
walk to this description.

Two orderings of the checks decide some answers:

- The unknown-product check runs over all lines before any quantity is
  examined. So a request with a zero quantity on one line and an unknown
  product on another is answered "unknown product"
  (`UnknownProductReportedFirst`).
- The report compares `to < from` on full instants, before any truncation to
  the day. So `to` earlier on the same day as `from` is refused
  (`SameDayInvertedBoundsRejected`), while the filter itself works by
  calendar day.

## How names are compared

`CategoryRegistry.Create` refuses a name when a stored name matches it once
both are lower-cased, but the two sides are lower-cased in different places.
The stored names are lower-cased by the database's `lower()`, which folds only
ASCII letters (`Text.Lower`). The new name is lower-cased by the application
before the query is sent, with the runtime's culture-aware `ToLower`. The model
takes that second function as a parameter, `requestLower`, and does not fix
it. When the runtime folds ASCII letters as `lower()` does, case variants are
refused (`CaseVariantRejected`). For a name starting with a non-ASCII capital
the two folds differ: the same name can be stored twice
(`NonAsciiCapitalNotMatched`), while its lower-case form already stored blocks
it (`NonAsciiCapitalMatchesLowerCase`). In a Turkic culture the runtime lowers
the ASCII `I` to the dotless `ı`, so even an ASCII name containing `I` can be
stored twice (`DotlessIDuplicate`).

## Model

| member | source | states |
|---|---|---|
| SaleCreation.Create | backend/Api/Controllers/SalesController.cs:24-99 | An empty request is refused with the database unchanged, and every refusal leaves the database unchanged. An unknown product is reported exactly when some line names a missing product. On success (`Committed`): each product's stock drops by the total its lines asked; one sale is appended under the next id, with the given instant and customer, lines priced at current prices, and total the sum of subtotals. The response is the view of that sale. |
| SaleCreation.LoadProducts | backend/Api/Controllers/SalesController.cs:32-38 | The query returns the catalogue rows of exactly the requested ids that exist, as stored. As many rows come back as distinct ids were asked for exactly when every requested id exists, so the count comparison is the existence check. |
| SaleCreation.WalkLines | backend/Api/Controllers/SalesController.cs:48-74 | A completed walk has drawn each product's stock by the total its lines asked, and left no referenced stock negative. Every quantity is positive. It appended one line per request line, priced at that product's price. The total grew by the sum of their subtotals. A failed walk reports only a quantity or stock error. |
| SaleCreation.WalkAcceptsAll | backend/Api/Controllers/SalesController.cs:48-56 | The walk succeeds if and only if every line is accepted against the stock the earlier lines left. |
| SaleCreation.WalkReportsFirstRejection | backend/Api/Controllers/SalesController.cs:48-56 | A failed walk reports the error of the first line that is not accepted: quantity first, then stock with that product's name. |
| SaleCreation.Validate | backend/Api/Controllers/SalesController.cs:26-74 | Empty lines give `NoItems`. Otherwise `UnknownProduct` is returned exactly when some id is missing. Success yields lines priced from the catalogue, a total equal to their sum, and stock drawn with none negative. |
| SaleCreation.ValidateVerdict | backend/Api/Controllers/SalesController.cs:37-56 | With all products known, the checks pass exactly when every line is accepted. Otherwise the first rejected line decides the error. |
| SaleCreation.CreateVerdict | backend/Api/Controllers/SalesController.cs:24-79 | The same verdict stated for the action: success if and only if every line is accepted, otherwise the first rejected line's error. |
| SaleCreation.SingleLineWithinStock | backend/Api/Controllers/SalesController.cs:52-62 | With 5 in stock, one line of 3 passes. |
| SaleCreation.RepeatedLinesDrawOnSameStock | backend/Api/Controllers/SalesController.cs:55-62 | With 5 in stock, two lines of 3 for the same product are refused on the second line, naming the product. |
| SaleCreation.UnknownProductReportedFirst | backend/Api/Controllers/SalesController.cs:37-53 | A request with a zero quantity on a known product and a line for an unknown one is answered "unknown product". |
| SaleCreation.Commit | backend/Api/Controllers/SalesController.cs:76-79 | The single save: categories and their counter are untouched, each product's stock drops by the total its lines asked with none below zero (`StockCommitted`), and the sale counter moves on by one. |
| SaleCreation.CommittedResponse | backend/Api/Controllers/SalesController.cs:82-96 | The response carries the new id, the instant and the customer, and the total equals the sum of subtotals. It has one item per request line with that line's product id, the product's name, the quantity, the price at sale time, and subtotal = price × quantity. |
| SaleCreation.CreatePreservesValid | backend/Api/Controllers/SalesController.cs:40-79 | Recording a sale keeps every database invariant: stock non-negative, sale ids unique, totals equal to the sum of lines, lines naming existing products. |
| SaleCreation.CommittedPreservesValid | backend/Api/Controllers/SalesController.cs:58-79 | Any state satisfying the success description of a sale is again consistent. |
| Store.ViewOf | backend/Api/Controllers/SalesController.cs:111-125 | The response shape of a sale copies its id, instant, customer and total, and has one item per sale line, in order. Each item takes the product id, quantity, unit price and subtotal from the line's own snapshot, and only the product name from the live catalogue. |
| Store.ViewIgnoresLivePrices | backend/Api/Controllers/SalesController.cs:58-70 | The view of a recorded sale depends on the live catalogue only through product names. Repricing or restocking leaves past prices, subtotals and totals as they were. |
| Money.SumPermutation | backend/Api/Controllers/SalesController.cs:197 | Sums of amounts do not depend on the order of the rows summed. |
| Calendar.DateOf | backend/Api/Controllers/SalesController.cs:172 | `DateTime.Date`: the result is day-aligned (a multiple of 864 000 000 000 ticks) and is the last such instant at or before the given one. |
| Calendar.WithinDays | backend/Api/Controllers/SalesController.cs:172 | The day-by-day comparison of the report filter is the same as lying between midnight of `from`'s day and midnight after `to`'s day. |
| SaleQueries.NewestFirst | backend/Api/Controllers/SalesController.cs:105-109 | The result is a rearrangement of the sales. Every sale comes before every later one that is older, or as old with a higher id. |
| SaleQueries.GetAll | backend/Api/Controllers/SalesController.cs:103-128 | The list is, as a multiset, exactly the views of all stored sales. It is newest first, and sales with the same instant come in ascending id order. |
| SaleQueries.GetAllListsEverySale | backend/Api/Controllers/SalesController.cs:104-125 | Every stored sale is listed, only stored sales are listed, and the list is as long as the table. |
| SaleQueries.FindSale | backend/Api/Controllers/SalesController.cs:134-137 | The first-match lookup: no position exactly when no sale has the id; otherwise a position holding that id with no earlier sale holding it. |
| SaleQueries.GetById | backend/Api/Controllers/SalesController.cs:132-158 | Not found exactly when no sale has the id. Otherwise the result is the view of a sale with that id. |
| SaleQueries.GetByIdFindsStoredSale | backend/Api/Controllers/SalesController.cs:134-139 | On a consistent database, fetching a stored sale's id returns that sale's view. |
| SaleQueries.CreatedSaleIsFetchable | backend/Api/Controllers/SalesController.cs:98 | After a sale is created, fetching the id in its created-at location returns the very body the creation answered with. |
| SaleQueries.CommittedSaleIsFetchable | backend/Api/Controllers/SalesController.cs:78-98 | A recorded sale keeps the database consistent and is found under the id the counter handed out. |
| SaleQueries.OnReportDays | backend/Api/Controllers/SalesController.cs:172 | The filter keeps each sale as often as it is stored if its instant lies on one of the days from `from`'s to `to`'s, and drops it otherwise. |
| SaleQueries.GetReport | backend/Api/Controllers/SalesController.cs:162-202 | Refused exactly when `to < from`. Otherwise the report echoes both bounds. It lists the views of exactly the in-period sales, newest first and ties by ascending id. The count is the number listed, and the amount is the sum of their totals. |
| SaleQueries.ReportAmountIsPeriodTotal | backend/Api/Controllers/SalesController.cs:170-197 | The report's amount equals the sum, over all stored sales in stored order, of the totals of those in the period. |
| SaleQueries.SameDayInvertedBoundsRejected | backend/Api/Controllers/SalesController.cs:166-167 | A `to` earlier on the same day as `from` is refused, although both fall on one day. |
| SaleQueries.LastDayCountsWhole | backend/Api/Controllers/SalesController.cs:172 | A sale later on `to`'s day than `to` itself is in the period. |
| CategoryRegistry.GetAll | backend/Api/Controllers/CategoriesController.cs:24-36 | Every category is listed once as its id and name, and nothing else is listed. Every name is at or before every later name in binary order. |
| CategoryRegistry.GetById | backend/Api/Controllers/CategoriesController.cs:41-51 | Not found exactly when the id is absent. Otherwise the result is that id with its name. |
| CategoryRegistry.Create | backend/Api/Controllers/CategoriesController.cs:56-79 | Refused, with the database unchanged, exactly when some stored name, lower-cased by the database, equals the new name lower-cased by the application. Otherwise the name is stored under the next identity value, every other category keeps its name, and no other table changes. |
| CategoryRegistry.CreateAddsExactlyOne | backend/Api/Controllers/CategoriesController.cs:64-70 | On a consistent database a successful creation uses a fresh id, grows the registry by exactly one, and leaves every other category as it was. |
| CategoryRegistry.CreatedCategoryIsFetchable | backend/Api/Controllers/CategoriesController.cs:72-78 | Fetching the created id returns the creation's response body. |
| CategoryRegistry.CaseVariantRejected | backend/Api/Controllers/CategoriesController.cs:58-62 | With "Books" stored, creating "BOOKS" is refused and nothing changes, whenever the application lowers "BOOKS" to "books". |
| CategoryRegistry.NonAsciiCapitalNotMatched | backend/Api/Controllers/CategoriesController.cs:58-70 | With "Árbol" stored, creating "Árbol" again succeeds when the application lowers it to "árbol", because the database's `lower()` leaves "Á" as it is. |
| CategoryRegistry.DotlessIDuplicate | backend/Api/Controllers/CategoriesController.cs:58-70 | With "INFO" stored, creating "INFO" again succeeds when the application lowers it to "ınfo" (Turkic cultures), because the database's `lower()` gives "info". |
| CategoryRegistry.NonAsciiCapitalMatchesLowerCase | backend/Api/Controllers/CategoriesController.cs:58-62 | With "árbol" stored, creating "Árbol" is refused when the application lowers it to "árbol", although the database's `lower()` tells the two names apart. |
| CategoryRegistry.Update | backend/Api/Controllers/CategoriesController.cs:84-93 | Not found, with nothing changed, exactly when the id is absent. Otherwise only that category's name changes. |
| CategoryRegistry.RenameCanDuplicate | backend/Api/Controllers/CategoriesController.cs:86-89 | Renaming makes no duplicate check: renaming "Toys" to "BOOKS" beside "Books" succeeds, leaving two names equal ignoring case. |
| CategoryRegistry.Delete | backend/Api/Controllers/CategoriesController.cs:98-111 | Not found when the id is absent. For a present id: refused as in use, with nothing changed, exactly when some product belongs to the category, and successful otherwise. A success removes only that category. |
| CategoryRegistry.DeletedCategoryIsNotFound | backend/Api/Controllers/CategoriesController.cs:107 | After a deletion, fetching the id is not found. |
| CategoryRegistry.CreatePreservesValid | backend/Api/Controllers/CategoriesController.cs:64-70 | Creating a category keeps the database consistent. |
| CategoryRegistry.UpdatePreservesValid | backend/Api/Controllers/CategoriesController.cs:89-90 | Renaming keeps the database consistent. |
| CategoryRegistry.DeletePreservesValid | backend/Api/Controllers/CategoriesController.cs:103-108 | Deleting keeps every product pointing at an existing category. |
| Text.LowerChar | backend/Api/Controllers/CategoriesController.cs:59 | SQLite `lower()` on one character: an ASCII capital becomes the letter 32 code points later, and every other character, non-ASCII capitals included, stays as it is. |
| Text.Lower | backend/Api/Controllers/CategoriesController.cs:59 | The stored side of the duplicate test: the fold keeps the length and folds each character on its own. |
| Text.CaseVariantsMatch | backend/Api/Controllers/CategoriesController.cs:59 | Strings that differ only in the case of ASCII letters compare equal after lower-casing. |
| Text.OrdinalTotal | backend/Api/Controllers/CategoriesController.cs:27 | Any two names are ordered one way or the other, so ordering by name is defined. |
| Text.OrdinalTransitive | backend/Api/Controllers/CategoriesController.cs:27 | The binary name order is transitive, so a list sorted by neighbours is sorted pairwise. |

## Left out

- Authentication and authorisation attributes, the frontend, and application
  start-up are not modelled. They decide who may call an action, not what it
  does.
- Concurrency and transactions are not modelled. Each action is one atomic
  step from one database value to the next. A failure of the final save, and
  its rollback, is not modelled either: the model's commit always succeeds.
- The clock is a parameter (`now`) of `SaleCreation.Create`, not a reading of
  the UTC clock.
- `decimal` arithmetic is modelled with exact rationals, with no 28-digit
  precision, rounding or overflow. `int` quantities and stock are unbounded,
  so a quantity large enough to overflow the product is not modelled.
- A missing item list (`null`) in a sale request is modelled as an empty
  list. Both are refused the same way.
- CategoryRegistry.GetAll: the query orders by name only, and the database
  gives no order among equal names (a rename can create them). The contract
  promises only the name order and the contents, so no order of ties is
  claimed.
- Sales are listed by instant, newest first, then by ascending id. The id
  tie-break comes from the query that loads the sale lines with `Include`,
  which orders by the sale's key after the requested order. The items of a
  sale are kept in insertion order, which is the order of their keys.
- Stored names are compared under the database's `lower()` and binary
  collation: only ASCII letters are folded and names are compared code point
  by code point. The request side of the duplicate check uses the runtime's
  culture-aware `ToLower`, which is not modelled. It is the unconstrained
  parameter `requestLower` of `CategoryRegistry.Create`, and a lemma that needs
  a particular folding states it as a precondition.
- The kind of a `DateTime` (UTC or unspecified) is not modelled. Creation
  answers with a UTC instant, while a sale read back from the database carries
  an instant of unspecified kind, so the two serialise with and without the
  `Z` suffix. The scale of a `decimal` is not modelled either: the database
  keeps amounts as text with trailing zeros trimmed, so a subtotal answered as
  `0.50` on creation is read back as `0.5`. `CreatedSaleIsFetchable` equates
  the instants and amounts themselves, not their serialised forms.
- The report's bounds arrive as parsed query-string instants. Parsing and
  time zones are not modelled.
- A product's stock and price changes made by other endpoints (product
  management) are not modelled. Those endpoints are not part of this model.
- CategoryRegistry.Create: the freshness of the new id and "exactly one
  added" are proved in `CreateAddsExactlyOne` only for a consistent database,
  because identity values are only fresh when the counter is above every key.
  That every other category keeps its name holds on any database.
- SaleQueries.GetById: on a database with repeated sale ids it returns the
  first in stored order. Identity keys make repeats impossible in a consistent
  database, where `GetByIdFindsStoredSale` pins the result.
