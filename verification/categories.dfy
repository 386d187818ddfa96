/**
  The category endpoints: a registry mapping ids to names, listed in name
  order, with case-insensitive duplicate detection on creation only, and
  deletion refused while any product still belongs to the category.
*/
module CategoryRegistry {
  import opened Results
  import opened Store
  import opened Text
  import opened Sorting

  datatype CategoryError =
    | NotFound        // no category has the requested id
    | DuplicateName   // an existing name matches the new one once both are lower-cased
    | HasProducts     // some product still belongs to the category

  /** The body the endpoints answer with. */
  datatype CategoryView = CategoryView(id: int, name: string)

  /** `OrderBy(c => c.Name)` under the database's binary collation. */
  predicate ByName(a: CategoryView, b: CategoryView)
  {
    OrdinalLe(a.name, b.name)
  }

  lemma ByNameOrders()
    ensures Total(ByName)
    ensures Transitive(ByName)
  {
    forall a: CategoryView, b: CategoryView
      ensures ByName(a, b) || ByName(b, a)
    {
      OrdinalTotal(a.name, b.name);
    }
    forall a: CategoryView, b: CategoryView, c: CategoryView | ByName(a, b) && ByName(b, c)
      ensures ByName(a, c)
    {
      OrdinalTransitive(a.name, b.name, c.name);
    }
  }

  /** `GET api/categories`: every category once, in name order. */
  method GetAll(categories: map<int, string>) returns (r: seq<CategoryView>)
    ensures forall i, j :: 0 <= i < j < |r| ==> OrdinalLe(r[i].name, r[j].name)
    ensures |r| == |categories|
    ensures forall v :: v in r <==> v.id in categories && categories[v.id] == v.name
  {
    var rest := categories.Keys;
    ghost var done: set<int> := {};
    var listed: seq<CategoryView> := [];
    while exists k :: k in rest
      invariant rest + done == categories.Keys && rest !! done
      invariant |listed| == |done|
      invariant forall v :: v in listed <==> v.id in done && categories[v.id] == v.name
      decreases |rest|
    {
      var id :| id in rest;
      listed := listed + [CategoryView(id, categories[id])];
      rest := rest - {id};
      done := done + {id};
    }
    assert rest == {};
    ByNameOrders();
    r := SortBy(listed, ByName);
    SortedPairwise(r, ByName);
    PermutationMembers(r, listed);
  }

  /** `GET api/categories/{id}`. */
  function GetById(categories: map<int, string>, id: int): (r: Result<CategoryView, CategoryError>)
    ensures r.Failure? <==> id !in categories
    ensures r.Failure? ==> r.error == NotFound
    ensures r.Success? ==> r.value.id == id && r.value.name == categories[id]
  {
    if id in categories then Success(CategoryView(id, categories[id])) else Failure(NotFound)
  }

  /**
    `POST api/categories`: refused when some stored name, lower-cased by the
    database, equals the new name lower-cased by the application; otherwise
    the name is stored under the next identity value. The query translates
    the stored side to SQL `lower()` (`Text.Lower`) but evaluates the request
    side in the application first, with the runtime's culture-aware
    `ToLower`, given here as `requestLower`.
  */
  function Create(db: Db, name: string, requestLower: string -> string): (r: (Db, Result<CategoryView, CategoryError>))
    ensures r.1.Failure? <==> exists c :: c in db.categories && Lower(db.categories[c]) == requestLower(name)
    ensures r.1.Failure? ==> r == (db, Failure(DuplicateName))
    ensures r.1.Success? ==> r.1.value == CategoryView(db.nextCategoryId, name)
    ensures r.1.Success? ==> r.0.categories.Keys == db.categories.Keys + {db.nextCategoryId}
    ensures r.1.Success? ==> r.0.categories[db.nextCategoryId] == name
    ensures r.1.Success? ==> forall c :: c in db.categories && c != db.nextCategoryId ==> r.0.categories[c] == db.categories[c]
    ensures r.1.Success? ==> r.0.nextCategoryId > db.nextCategoryId
    ensures r.0.products == db.products && r.0.sales == db.sales && r.0.nextSaleId == db.nextSaleId
  {
    if requestLower(name) in (set c | c in db.categories :: Lower(db.categories[c])) then
      (db, Failure(DuplicateName))
    else
      var id := db.nextCategoryId;
      (db.(categories := db.categories[id := name], nextCategoryId := id + 1), Success(CategoryView(id, name)))
  }

  /** On a consistent database a successful creation adds exactly one category and touches no other. */
  lemma CreateAddsExactlyOne(db: Db, name: string, requestLower: string -> string)
    requires Valid(db)
    requires Create(db, name, requestLower).1.Success?
    ensures db.nextCategoryId !in db.categories
    ensures |Create(db, name, requestLower).0.categories| == |db.categories| + 1
    ensures forall c :: c in db.categories ==> Create(db, name, requestLower).0.categories[c] == db.categories[c]
  {
    var after := Create(db, name, requestLower).0.categories;
    assert after.Keys == db.categories.Keys + {db.nextCategoryId};
  }

  /** The created category is what fetching its id returns. */
  lemma CreatedCategoryIsFetchable(db: Db, name: string, requestLower: string -> string)
    requires Create(db, name, requestLower).1.Success?
    ensures var (after, response) := Create(db, name, requestLower);
      GetById(after.categories, response.value.id) == response
  {
  }

  /**
    Changing only the case of the ASCII letters of an existing name does not
    get a second category in, given that the runtime folds those letters as
    the database does.
  */
  lemma CaseVariantRejected(requestLower: string -> string)
    requires requestLower("BOOKS") == "books"
    ensures var db := Db(map[1 := "Books"], map[], [], 2, 1);
      Create(db, "BOOKS", requestLower) == (db, Failure(DuplicateName))
  {
    var db := Db(map[1 := "Books"], map[], [], 2, 1);
    assert Lower(db.categories[1]) == "books";
  }

  /**
    The two sides fold differently: SQL `lower()` leaves a non-ASCII capital
    as it is, while the runtime lowers it. So the very name already stored is
    accepted a second time when it starts with such a capital.
  */
  lemma NonAsciiCapitalNotMatched(requestLower: string -> string)
    requires requestLower("\U{00C1}rbol") == "\U{00E1}rbol"
    ensures var db := Db(map[1 := "\U{00C1}rbol"], map[], [], 2, 1);
      Create(db, "\U{00C1}rbol", requestLower).1 == Success(CategoryView(2, "\U{00C1}rbol"))
  {
    var db := Db(map[1 := "\U{00C1}rbol"], map[], [], 2, 1);
    assert Lower(db.categories[1])[0] == '\U{00C1}';
  }

  /**
    Under a Turkic culture the runtime lowers the ASCII `I` to the dotless
    `ı`, while SQL `lower()` gives `i`: an all-ASCII name can then be stored twice.
  */
  lemma DotlessIDuplicate(requestLower: string -> string)
    requires requestLower("INFO") == "\U{0131}nfo"
    ensures var db := Db(map[1 := "INFO"], map[], [], 2, 1);
      Create(db, "INFO", requestLower).1 == Success(CategoryView(2, "INFO"))
  {
    var db := Db(map[1 := "INFO"], map[], [], 2, 1);
    assert Lower(db.categories[1]) == "info";
  }

  /** Conversely, a stored lower-case name blocks its capitalised form, which SQL `lower()` alone would not. */
  lemma NonAsciiCapitalMatchesLowerCase(requestLower: string -> string)
    requires requestLower("\U{00C1}rbol") == "\U{00E1}rbol"
    ensures var db := Db(map[1 := "\U{00E1}rbol"], map[], [], 2, 1);
      && Create(db, "\U{00C1}rbol", requestLower) == (db, Failure(DuplicateName))
      && Lower("\U{00C1}rbol") != Lower("\U{00E1}rbol")
  {
    var db := Db(map[1 := "\U{00E1}rbol"], map[], [], 2, 1);
    assert Lower(db.categories[1]) == "\U{00E1}rbol";
    assert Lower("\U{00C1}rbol")[0] == '\U{00C1}';
  }

  /** `PUT api/categories/{id}`: renames an existing category, with no duplicate check. */
  function Update(db: Db, id: int, name: string): (r: (Db, Result<(), CategoryError>))
    ensures r.1.Failure? <==> id !in db.categories
    ensures r.1.Failure? ==> r == (db, Failure(NotFound))
    ensures r.1.Success? ==> r.0.categories.Keys == db.categories.Keys && r.0.categories[id] == name
    ensures r.1.Success? ==> forall c :: c in db.categories && c != id ==> r.0.categories[c] == db.categories[c]
    ensures r.0.products == db.products && r.0.sales == db.sales
    ensures r.0.nextCategoryId == db.nextCategoryId && r.0.nextSaleId == db.nextSaleId
  {
    if id !in db.categories then
      (db, Failure(NotFound))
    else
      (db.(categories := db.categories[id := name]), Success(()))
  }

  /**
    Renaming skips the check creation makes: a category can be renamed to a
    case variant of another's name, leaving two names equal ignoring case.
  */
  lemma RenameCanDuplicate()
    ensures var db := Db(map[1 := "Books", 2 := "Toys"], map[], [], 3, 1);
      var after := Update(db, 2, "BOOKS").0;
      && Update(db, 2, "BOOKS").1.Success?
      && SameIgnoringCase(after.categories[1], after.categories[2])
  {
    CaseVariantsMatch("Books", "BOOKS");
  }

  /** Some product still belongs to the category. */
  predicate InUse(products: map<int, Product>, id: int)
  {
    exists p :: p in products && products[p].categoryId == id
  }

  /** `DELETE api/categories/{id}`: removes a category no product belongs to. */
  function Delete(db: Db, id: int): (r: (Db, Result<(), CategoryError>))
    ensures id !in db.categories ==> r == (db, Failure(NotFound))
    ensures id in db.categories ==> (r.1 == Failure(HasProducts) <==> InUse(db.products, id))
    ensures id in db.categories && !InUse(db.products, id) ==> r.1.Success?
    ensures r.1.Failure? ==> r.0 == db
    ensures r.1.Success? ==> id in db.categories && r.0.categories.Keys == db.categories.Keys - {id}
    ensures r.1.Success? ==> forall c :: c in r.0.categories ==> r.0.categories[c] == db.categories[c]
    ensures r.0.products == db.products && r.0.sales == db.sales
    ensures r.0.nextCategoryId == db.nextCategoryId && r.0.nextSaleId == db.nextSaleId
  {
    if id !in db.categories then
      (db, Failure(NotFound))
    else if InUse(db.products, id) then
      (db, Failure(HasProducts))
    else
      (db.(categories := db.categories - {id}), Success(()))
  }

  /** After a deletion the id is gone. */
  lemma DeletedCategoryIsNotFound(db: Db, id: int)
    requires Delete(db, id).1.Success?
    ensures GetById(Delete(db, id).0.categories, id) == Failure(NotFound)
  {
  }

  /** Creation keeps the database consistent. */
  lemma CreatePreservesValid(db: Db, name: string, requestLower: string -> string)
    requires Valid(db)
    ensures Valid(Create(db, name, requestLower).0)
  {
  }

  /** Renaming keeps the database consistent. */
  lemma UpdatePreservesValid(db: Db, id: int, name: string)
    requires Valid(db)
    ensures Valid(Update(db, id, name).0)
  {
  }

  /** Deletion keeps the database consistent: no product is left pointing at a missing category. */
  lemma DeletePreservesValid(db: Db, id: int)
    requires Valid(db)
    ensures Valid(Delete(db, id).0)
  {
  }
}
