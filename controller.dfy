/** The /products resource handler: list, search, find, create, update and
 *  delete, each answering with a response value in place of an HTTP
 *  ResponseEntity.
 */
module ProductController {
  import opened ProductModel
  import opened Sequences
  import opened ProductRepository

  /** The responses the handler produces. Ok carries the record it returns,
   *  or None for the empty body of a delete. */
  datatype Response =
    | Ok(body: Option<Product>)
    | Created(product: Product)
    | NotFound
    | BadRequest(statusCode: int, message: string)

  const StatusOk: int := 200
  const StatusCreated: int := 201
  const StatusBadRequest: int := 400
  const StatusNotFound: int := 404

  /** The HTTP status a response is sent with. */
  function Status(r: Response): int
  {
    match r
    case Ok(_) => StatusOk
    case Created(_) => StatusCreated
    case NotFound => StatusNotFound
    case BadRequest(code, _) => code
  }

  // -----------------------------------------------------------------------
  // The three filters of findByFilters, applied one after the other.
  // Each is defined only where Java would not dereference a null field.

  /** The query filter reads the description first and the name only when
   *  the description does not contain the query. */
  predicate QueryEvaluable(p: Product, query: Option<string>)
  {
    query.None?
    || (p.description.Some? && (Contains(p.description.value, query.value) || p.name.Some?))
  }

  /** No query, or the description or the name contains it. */
  predicate MatchesQuery(p: Product, query: Option<string>)
    requires QueryEvaluable(p, query)
  {
    query.None?
    || Contains(p.description.value, query.value)
    || Contains(p.name.value, query.value)
  }

  /** A lower bound compares against the price, which must then be there. */
  predicate MinEvaluable(p: Product, minPrice: Option<Price>)
  {
    minPrice.None? || p.price.Some?
  }

  /** No lower bound, or the price is at least the bound. */
  predicate MatchesMin(p: Product, minPrice: Option<Price>)
    requires MinEvaluable(p, minPrice)
  {
    minPrice.None? || minPrice.value <= p.price.value
  }

  predicate MaxEvaluable(p: Product, maxPrice: Option<Price>)
  {
    maxPrice.None? || p.price.Some?
  }

  /** No upper bound, or the price is at most the bound. */
  predicate MatchesMax(p: Product, maxPrice: Option<Price>)
    requires MaxEvaluable(p, maxPrice)
  {
    maxPrice.None? || p.price.value <= maxPrice.value
  }

  /** The stream passes a record to a filter only when the earlier filters
   *  kept it, so each filter need only be defined on what reaches it. */
  predicate Evaluable(p: Product, query: Option<string>, minPrice: Option<Price>, maxPrice: Option<Price>)
  {
    && QueryEvaluable(p, query)
    && (MatchesQuery(p, query) ==>
          MinEvaluable(p, minPrice) && (MatchesMin(p, minPrice) ==> MaxEvaluable(p, maxPrice)))
  }

  function QueryFilter(query: Option<string>): (f: Product --> bool)
    ensures forall p :: QueryEvaluable(p, query) ==> f.requires(p)
    ensures forall p :: QueryEvaluable(p, query) ==> (f(p) <==> MatchesQuery(p, query))
  {
    p requires QueryEvaluable(p, query) => MatchesQuery(p, query)
  }

  function MinFilter(minPrice: Option<Price>): (f: Product --> bool)
    ensures forall p :: MinEvaluable(p, minPrice) ==> f.requires(p)
    ensures forall p :: MinEvaluable(p, minPrice) ==> (f(p) <==> MatchesMin(p, minPrice))
  {
    p requires MinEvaluable(p, minPrice) => MatchesMin(p, minPrice)
  }

  function MaxFilter(maxPrice: Option<Price>): (f: Product --> bool)
    ensures forall p :: MaxEvaluable(p, maxPrice) ==> f.requires(p)
    ensures forall p :: MaxEvaluable(p, maxPrice) ==> (f(p) <==> MatchesMax(p, maxPrice))
  {
    p requires MaxEvaluable(p, maxPrice) => MatchesMax(p, maxPrice)
  }

  /** What findByFilters returns for the listed records `all`. */
  function FilterProducts(all: seq<Product>, query: Option<string>, minPrice: Option<Price>, maxPrice: Option<Price>): (r: seq<Product>)
    requires forall p :: p in all ==> Evaluable(p, query, minPrice, maxPrice)
    ensures forall p :: p in r ==>
      p in all && Evaluable(p, query, minPrice, maxPrice) && MatchesQuery(p, query) && MatchesMin(p, minPrice) && MatchesMax(p, maxPrice)
  {
    // Restated so that it is instantiated for the records each filter sees.
    assert forall p :: p in all ==> Evaluable(p, query, minPrice, maxPrice);
    var byQuery := Select(all, QueryFilter(query));
    var byMin := Select(byQuery, MinFilter(minPrice));
    Select(byMin, MaxFilter(maxPrice))
  }

  /** A record is in the result exactly when it is listed and passes all
   *  three filters; both price bounds are inclusive. */
  lemma FilterProductsMembership(all: seq<Product>, query: Option<string>, minPrice: Option<Price>, maxPrice: Option<Price>, p: Product)
    requires forall p :: p in all ==> Evaluable(p, query, minPrice, maxPrice)
    ensures p in FilterProducts(all, query, minPrice, maxPrice) <==>
      p in all && MatchesQuery(p, query) && MatchesMin(p, minPrice) && MatchesMax(p, maxPrice)
  {
  }

  /** The result lists some of the records, in the order they were listed. */
  lemma FilterProductsIsSubsequence(all: seq<Product>, query: Option<string>, minPrice: Option<Price>, maxPrice: Option<Price>)
    requires forall p :: p in all ==> Evaluable(p, query, minPrice, maxPrice)
    ensures IsSubsequence(FilterProducts(all, query, minPrice, maxPrice), all)
  {
    var byQuery := Select(all, QueryFilter(query));
    var byMin := Select(byQuery, MinFilter(minPrice));
    SubsequenceTransitive(byMin, byQuery, all);
    SubsequenceTransitive(FilterProducts(all, query, minPrice, maxPrice), byMin, all);
  }

  /** Without any parameter the search lists every record, as findAll does. */
  lemma FilterProductsWithoutParameters(all: seq<Product>)
    ensures FilterProducts(all, None, None, None) == all
  {
    SelectKeepingAll(all, QueryFilter(None));
    SelectKeepingAll(all, MinFilter(None));
    SelectKeepingAll(all, MaxFilter(None));
  }

  // -----------------------------------------------------------------------
  // Store-wide invariant kept by create and update

  /** Every stored record satisfies the field constraints. */
  predicate AllValid(records: seq<Product>)
  {
    forall i :: 0 <= i < |records| ==> IsValid(records[i])
  }

  /** The error body of a rejected request: the given status and the message
   *  of one violated constraint. Which one is the validator's choice. */
  method GenerateErrorMessage(violations: set<string>, status: int) returns (r: Response)
    requires violations != {}
    ensures r.BadRequest? && r.statusCode == status && r.message in violations
  {
    var message :| message in violations;
    r := BadRequest(status, message);
  }

  // -----------------------------------------------------------------------
  // The handler

  class Controller {
    const repository: Repository

    constructor (repository: Repository)
      ensures this.repository == repository
    {
      this.repository := repository;
    }

    /** GET /products: every stored record, in store order. */
    method FindAll() returns (r: seq<Product>)
      ensures r == repository.records
    {
      r := repository.FindAll();
    }

    /** GET /products/search: the stored records that pass the filters. */
    method FindByFilters(query: Option<string>, minPrice: Option<Price>, maxPrice: Option<Price>) returns (r: seq<Product>)
      requires forall p :: p in repository.records ==> Evaluable(p, query, minPrice, maxPrice)
      ensures r == FilterProducts(repository.records, query, minPrice, maxPrice)
      ensures IsSubsequence(r, repository.records)
      ensures forall p :: p in r <==>
        p in repository.records && MatchesQuery(p, query) && MatchesMin(p, minPrice) && MatchesMax(p, maxPrice)
    {
      var all := repository.FindAll();
      r := FilterProducts(all, query, minPrice, maxPrice);
      FilterProductsIsSubsequence(all, query, minPrice, maxPrice);
      forall p ensures p in r <==>
        p in all && MatchesQuery(p, query) && MatchesMin(p, minPrice) && MatchesMax(p, maxPrice)
      {
        FilterProductsMembership(all, query, minPrice, maxPrice, p);
      }
    }

    /** GET /products/{id}: the record with that id, or NotFound. */
    method FindById(id: string) returns (r: Response)
      ensures r.Ok? || r.NotFound?
      ensures r.Ok? <==> HasId(repository.records, id)
      ensures r.Ok? ==> r.body.Some? && r.body.value in repository.records && r.body.value.id == Some(id)
      ensures r == (if HasId(repository.records, id) then Ok(Find(repository.records, id)) else NotFound)
      ensures repository.Valid() ==> forall k :: 0 <= k < |repository.records| && repository.records[k].id == Some(id) ==>
        r == Ok(Some(repository.records[k]))
      ensures Status(r) == (if r.Ok? then StatusOk else StatusNotFound)
    {
      var found := repository.FindById(id);
      if found.Some? {
        r := Ok(Some(found.value));
      } else {
        r := NotFound;
      }
    }

    /** POST /products: a product with a violation is rejected with 400 and
     *  the store is untouched; otherwise it is saved (a product without an
     *  id getting `newId`) and returned with 201. */
    method Create(product: Product, newId: string) returns (r: Response)
      requires repository.Valid()
      requires product.id.None? ==> !HasId(repository.records, newId)
      modifies repository
      ensures repository.Valid()
      ensures Violations(product) != {} ==>
        && r.BadRequest? && r.statusCode == StatusBadRequest && r.message in Violations(product)
        && repository.records == old(repository.records)
      ensures Status(r) == (if Violations(product) == {} then StatusCreated else StatusBadRequest)
      ensures Violations(product) == {} ==>
        && r == Created(WithAssignedId(product, newId))
        && repository.records == AfterSave(old(repository.records), r.product)
        && Find(repository.records, r.product.id.value) == Some(r.product)
        && (forall id :: id != r.product.id.value ==>
              Find(repository.records, id) == Find(old(repository.records), id))
      ensures AllValid(old(repository.records)) ==> AllValid(repository.records)
    {
      var violations := Violations(product);
      if violations != {} {
        r := GenerateErrorMessage(violations, StatusBadRequest);
        return;
      }
      NoViolationsIffValid(product);
      IdIsUnconstrained(product, Some(newId));
      var created := repository.Save(product, newId);
      r := Created(created);
      AllValidAfterSave(old(repository.records), created);
    }

    /** PUT /products/{id}: a body with a violation is rejected with 400, an
     *  unknown id with NotFound, both leaving the store untouched. Otherwise
     *  the stored record takes the body's name, price and description (a
     *  null price included), keeps its own id whatever id the body carries,
     *  and is saved in place. */
    method Update(id: string, product: Product) returns (r: Response)
      requires repository.Valid()
      modifies repository
      ensures repository.Valid()
      ensures Violations(product) != {} ==>
        && r.BadRequest? && r.statusCode == StatusBadRequest && r.message in Violations(product)
        && repository.records == old(repository.records)
      ensures Violations(product) == {} && !HasId(old(repository.records), id) ==>
        r == NotFound && repository.records == old(repository.records)
      ensures Status(r) == (if Violations(product) != {} then StatusBadRequest
                            else if HasId(old(repository.records), id) then StatusOk else StatusNotFound)
      ensures Violations(product) == {} && HasId(old(repository.records), id) ==>
        var i := IndexOf(old(repository.records), id);
        var updated := Product(Some(id), product.name, product.description, product.price);
        && r == Ok(Some(updated))
        && repository.records == old(repository.records)[i := updated]
        && Find(repository.records, id) == Some(updated)
      ensures AllValid(old(repository.records)) ==> AllValid(repository.records)
    {
      var violations := Violations(product);
      if violations != {} {
        r := GenerateErrorMessage(violations, StatusBadRequest);
        return;
      }
      var found := repository.FindById(id);
      if found.None? {
        r := NotFound;
        return;
      }
      var record := found.value;
      record := SetName(record, product.name);
      record := SetPrice(record, product.price);
      record := SetDescription(record, product.description);
      NoViolationsIffValid(product);
      NoViolationsIffValid(record);
      // The record carries an id, so no new one is generated.
      var updated := repository.Save(record, id);
      r := Ok(Some(updated));
      AllValidAfterSave(old(repository.records), updated);
    }

    /** DELETE /products/{id}: an unknown id gives NotFound and leaves the
     *  store untouched; otherwise exactly that record is removed and the
     *  answer is an empty Ok. */
    method Delete(id: string) returns (r: Response)
      requires repository.Valid()
      modifies repository
      ensures repository.Valid()
      ensures !HasId(old(repository.records), id) ==>
        r == NotFound && repository.records == old(repository.records)
      ensures Status(r) == (if HasId(old(repository.records), id) then StatusOk else StatusNotFound)
      ensures HasId(old(repository.records), id) ==>
        && r == Ok(None)
        && repository.records == AfterDelete(old(repository.records), id)
        && (forall other :: other != id ==>
              Find(repository.records, other) == Find(old(repository.records), other))
      ensures !HasId(repository.records, id)
      ensures AllValid(old(repository.records)) ==> AllValid(repository.records)
    {
      var found := repository.FindById(id);
      if found.None? {
        r := NotFound;
        return;
      }
      repository.DeleteById(id);
      r := Ok(None);
      AllValidAfterDelete(old(repository.records), id);
    }
  }

  /** Saving a valid record keeps every stored record valid. */
  lemma AllValidAfterSave(records: seq<Product>, saved: Product)
    requires saved.id.Some? && IsValid(saved)
    ensures AllValid(records) ==> AllValid(AfterSave(records, saved))
  {
  }

  /** Removing a record keeps every remaining record valid. */
  lemma AllValidAfterDelete(records: seq<Product>, id: string)
    requires HasId(records, id)
    ensures AllValid(records) ==> AllValid(AfterDelete(records, id))
  {
  }
}
