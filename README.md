# Product catalogue service: a Dafny model

This project models the catalogue logic of a small Spring product service:
the `Product` entity with its field constraints, and the `/products`
resource handler that lists, searches, finds, creates, updates and deletes
products over a store.

- `product.dfy` (module `ProductModel`): the `Product` record with nullable
  `id`, `name`, `description` and `price`; its setters; the Bean Validation
  annotations as explicit checks (`@NotNull`, `@NotEmpty`, `@Positive`)
  that yield the set of violation messages; an independent field-by-field
  validity predicate and the lemmas relating the two.
- `sequences.dfy` (module `Sequences`): `String.contains` as a scan, with a
  lemma tying it to "occurs at some position"; the order-preserving filter
  of a stream pipeline (`Select`); the subsequence relation.
- `repository.dfy` (module `ProductRepository`): the store the handler
  calls (`findAll`, `findById`, `save`, `deleteById`), as a class holding the
  persisted records in listing order with unique ids, and the lemmas saying
  what save and delete do to every id.
- `controller.dfy` (module `ProductController`): the response values, the
  three search filters and `FilterProducts` (the pure pipeline of
  `findByFilters`), the error-body builder, and the `Controller` class whose
  methods change the store through `modifies` clauses and state the full
  new store, including "unchanged" on every error path.
- `scenarios.dfy` (module `ControllerScenarios`): concrete requests built from
  the records and expected answers of the controller's tests, each proved as
  the exact answer the handler gives. The lookups after a create and after a
  delete are added to check the resulting store. The update test sends the
  stored record itself as the body and gets the new values only from its
  stand-in store; `UpdateWithStoredBody` shows the handler answers the stored
  values for that body, and `UpdateNameAndDescription` sends the body the
  test evidently intends. `CreateWithEmptyName` is an added request for the
  rejection path, with no counterpart in the tests.

Prices are Dafny `real`s: a `BigDecimal` is an exact decimal, and
`compareTo` ignores scale, so 10 and 10.00 are one value. Strings are
`seq<char>`, so `contains` is case-sensitive as in Java. A Dafny `char` is a
Unicode scalar value while Java compares UTF-16 code units; the two agree on
well-formed text, but a Java string holding an unpaired surrogate cannot be
represented here. Java's `null` is
`None` of an `Option`.

Beyond the per-call contracts, the handler keeps one store-wide invariant:
if every stored record satisfies the field constraints before a create,
update or delete, it still does afterwards (`AllValid`).

Where the documented design and the code disagree, the model follows the code:
the price rule is `@Positive` (strictly greater than zero; an absent price
passes), not "non-negative", even though the handler's doc comments say
"cant be less then zero"; and the rejected request reports the message of
some violated constraint, with no fixed precedence, because the code takes
`getFieldError()` and the validator does not order its violations.

## Model

| member | source | states |
|---|---|---|
| `ProductModel.SetName` | src/main/java/br/com/compassouol/product/ms/model/Product.java:47-53 | after setting, the name getter returns the value set; id, description and price are unchanged |
| `ProductModel.SetDescription` | src/main/java/br/com/compassouol/product/ms/model/Product.java:55-61 | after setting, the description getter returns the value set; the other three fields are unchanged |
| `ProductModel.SetPrice` | src/main/java/br/com/compassouol/product/ms/model/Product.java:63-69 | after setting, the price getter returns the value set (null included); the other three fields are unchanged |
| `ProductModel.SetId` | src/main/java/br/com/compassouol/product/ms/model/Product.java:71-77 | after setting, the id getter returns the value set; name, description and price are unchanged |
| `ProductModel.Violations` | src/main/java/br/com/compassouol/product/ms/model/Product.java:33-45 | each of the five annotation messages is raised exactly when its constraint fails: "Name cant be null" iff name is null, "Name is mandatory" iff name is null or empty, the same pair for description, "Price must be positive" iff a price is present and not above zero; no other message is raised |
| `ProductModel.IsValid` | src/main/java/br/com/compassouol/product/ms/model/Product.java:33-45 | the field-by-field reading of the three annotations: name and description present and non-empty, price absent or above zero (the independent side of `NoViolationsIffValid`) |
| `ProductModel.NoViolationsIffValid` | src/main/java/br/com/compassouol/product/ms/model/Product.java:27-45 | a product has no violation exactly when name and description are non-null and non-empty and the price is null or above zero |
| `ProductModel.IdIsUnconstrained` | src/main/java/br/com/compassouol/product/ms/model/Product.java:27-31 | replacing the id never changes the set of violations |
| `ProductModel.NullFieldViolatesBoth` | src/main/java/br/com/compassouol/product/ms/model/Product.java:33-41 | a null name raises both the not-null and the not-empty message, and so does a null description |
| `ProductModel.EmptyFieldViolatesNotEmptyOnly` | src/main/java/br/com/compassouol/product/ms/model/Product.java:33-41 | an empty name or description raises the not-empty message and not the not-null one |
| `ProductModel.BlankNamePasses` | src/main/java/br/com/compassouol/product/ms/model/Product.java:34 | a name of one blank passes, since the constraint is not-empty rather than not-blank |
| `ProductModel.PriceRule` | src/main/java/br/com/compassouol/product/ms/model/Product.java:43-45 | an absent price passes; a present price passes exactly when it is strictly greater than zero, so zero and negatives fail |
| `Sequences.Contains` | src/main/java/br/com/compassouol/product/ms/controller/ProductController.java:58 | the empty query is contained in every text, and a query longer than the text is never contained |
| `Sequences.ContainsIffOccurs` | src/main/java/br/com/compassouol/product/ms/controller/ProductController.java:58 | the substring test used by the query filter holds exactly when the query occurs at some position of the text |
| `Sequences.Select` | src/main/java/br/com/compassouol/product/ms/controller/ProductController.java:56-61 | a stream filter's result is a subsequence of its input (same relative order), and an element is in it exactly when it is in the input and accepted |
| `ProductRepository.IndexOf` | src/main/java/br/com/compassouol/product/ms/controller/ProductController.java:70 | the position found carries the requested id and no earlier record does; -1 exactly when no record carries it |
| `ProductRepository.Find` | src/main/java/br/com/compassouol/product/ms/controller/ProductController.java:70 | the lookup yields a record exactly when some stored record has the id, and then a stored record with that id |
| `ProductRepository.FindUnique` | src/main/java/br/com/compassouol/product/ms/controller/ProductController.java:70 | with unique ids, looking up a stored record's id yields that very record |
| `ProductRepository.WithAssignedId` | src/main/java/br/com/compassouol/product/ms/controller/ProductController.java:84 | save keeps a record's own id and gives a record without one the generated id |
| `ProductRepository.AfterSave` | src/main/java/br/com/compassouol/product/ms/controller/ProductController.java:84 | the saved record is in the new store; when its id was stored the size stays the same, otherwise it is appended after the unchanged records; nothing but the saved record is new |
| `ProductRepository.AfterSaveProperties` | src/main/java/br/com/compassouol/product/ms/controller/ProductController.java:106 | saving keeps ids unique, makes the saved record what its id finds, and leaves what every other id finds unchanged |
| `ProductRepository.AfterDelete` | src/main/java/br/com/compassouol/product/ms/controller/ProductController.java:115 | the store shrinks by exactly one record and holds no record it did not hold before |
| `ProductRepository.AfterDeleteProperties` | src/main/java/br/com/compassouol/product/ms/controller/ProductController.java:115 | deleting keeps ids unique, removes exactly one record so none has the id, and leaves what every other id finds unchanged |
| `ProductRepository.Repository.constructor` | src/main/java/br/com/compassouol/product/ms/controller/ProductController.java:34 | the store starts with the given well-keyed records |
| `ProductRepository.Repository.FindAll` | src/main/java/br/com/compassouol/product/ms/controller/ProductController.java:42 | lists exactly the persisted records, each once under its own id when the store is valid |
| `ProductRepository.Repository.FindById` | src/main/java/br/com/compassouol/product/ms/controller/ProductController.java:70 | yields a record exactly when one carries the id, and then a stored record with that id; with unique ids it is the one record that carries it |
| `ProductRepository.Repository.Save` | src/main/java/br/com/compassouol/product/ms/controller/ProductController.java:84 | the saved record replaces the one with its id in place, or is appended; it is then what its id finds and every other id finds what it did before |
| `ProductRepository.Repository.DeleteById` | src/main/java/br/com/compassouol/product/ms/controller/ProductController.java:115 | the record with the id is removed, the others keep their order, and every other id finds what it did before |
| `ProductController.QueryFilter` | src/main/java/br/com/compassouol/product/ms/controller/ProductController.java:57-59 | the query filter is defined wherever Java would not dereference a null (no query, or a description, and a name when the description does not contain the query), and there accepts exactly the records with no query or whose description or name contains it |
| `ProductController.MinFilter` | src/main/java/br/com/compassouol/product/ms/controller/ProductController.java:60 | defined when there is no minimum or the price is present, and there accepts exactly the records with no minimum or minimum <= price |
| `ProductController.MaxFilter` | src/main/java/br/com/compassouol/product/ms/controller/ProductController.java:61 | defined when there is no maximum or the price is present, and there accepts exactly the records with no maximum or price <= maximum |
| `ProductController.FilterProducts` | src/main/java/br/com/compassouol/product/ms/controller/ProductController.java:56-61 | the pipeline of the three filters in turn over the listed records; every record it returns is listed and passes all three filters |
| `ProductController.FilterProductsMembership` | src/main/java/br/com/compassouol/product/ms/controller/ProductController.java:56-61 | a record is in the search result exactly when it is listed and (no query, or its description or name contains the query), (no minimum, or minimum <= price) and (no maximum, or price <= maximum) |
| `ProductController.FilterProductsIsSubsequence` | src/main/java/br/com/compassouol/product/ms/controller/ProductController.java:56-61 | the search result is a subsequence of the listed records, in their order |
| `ProductController.FilterProductsWithoutParameters` | src/main/java/br/com/compassouol/product/ms/controller/ProductController.java:45-61 | with all three parameters absent the search returns every listed record, in order |
| `ProductController.AllValidAfterSave` | src/main/java/br/com/compassouol/product/ms/controller/ProductController.java:84-85 | saving a record that passes the constraints keeps every stored record valid |
| `ProductController.AllValidAfterDelete` | src/main/java/br/com/compassouol/product/ms/controller/ProductController.java:113-117 | removing a record keeps every remaining record valid |
| `ProductController.GenerateErrorMessage` | src/main/java/br/com/compassouol/product/ms/controller/ProductController.java:127-133 | the error response carries the given status code and the message of one of the violations |
| `ProductController.Controller.constructor` | src/main/java/br/com/compassouol/product/ms/controller/ProductController.java:36-38 | the handler works on the repository it is given |
| `ProductController.Controller.FindAll` | src/main/java/br/com/compassouol/product/ms/controller/ProductController.java:40-43 | returns the store's records, in store order, and changes nothing |
| `ProductController.Controller.FindByFilters` | src/main/java/br/com/compassouol/product/ms/controller/ProductController.java:53-62 | returns the filtered records: a subsequence of the store's records, holding exactly the records that pass all three filters; changes nothing |
| `ProductController.Controller.FindById` | src/main/java/br/com/compassouol/product/ms/controller/ProductController.java:68-72 | Ok with the record `Find` yields when some stored record carries the id (with unique ids, the one record that carries it), status 200; NotFound with status 404 otherwise; changes nothing |
| `ProductController.Controller.Create` | src/main/java/br/com/compassouol/product/ms/controller/ProductController.java:80-86 | with a violation: BadRequest with status 400 and one violation's message, store unchanged; otherwise Created with status 201 and the saved record, which its id then finds, every other id unaffected; store-wide validity preserved |
| `ProductController.Controller.Update` | src/main/java/br/com/compassouol/product/ms/controller/ProductController.java:96-109 | with a violation: 400 and store unchanged; unknown id: NotFound (404) and store unchanged; otherwise status 200, the record at that position takes the body's name, description and price (null price included), keeps its own id, every other record is unchanged, and Ok carries the updated record |
| `ProductController.Controller.Delete` | src/main/java/br/com/compassouol/product/ms/controller/ProductController.java:111-119 | unknown id: NotFound (404) and store unchanged; otherwise exactly that record is removed, the answer is an empty Ok (200), and afterwards no record has the id |
| `ControllerScenarios.SearchByQueryAndPriceRange` | src/test/java/br/com/compassouol/product/ms/test/controller/ProductControllerTest.java:165-198 | searching q=test, min 10, max 40 over records "1" (described "Description test") and "2" (described "Description"), both priced 10, yields exactly record "1" |
| `ControllerScenarios.ListTwoRecords` | src/test/java/br/com/compassouol/product/ms/test/controller/ProductControllerTest.java:78-110 | listing a store of two records returns those two records in order |
| `ControllerScenarios.CreateWithEmptyName` | src/main/java/br/com/compassouol/product/ms/controller/ProductController.java:80-86 | creating a product with an empty name answers 400 with "Name is mandatory", the only violation |
| `ControllerScenarios.CreateThenFind` | src/test/java/br/com/compassouol/product/ms/test/controller/ProductControllerTest.java:46-76 | creating the test's product answers 201 with it under the generated id "1" as the test expects; the added lookup of "1" afterwards answers Ok with that record |
| `ControllerScenarios.UpdateNameAndDescription` | src/main/java/br/com/compassouol/product/ms/controller/ProductController.java:96-109 | updating stored record "1" with a body carrying the new name and description answers Ok with id "1", "name new" and "Description new", the record the update test expects; the body is the intended one, not the test's |
| `ControllerScenarios.UpdateWithStoredBody` | src/test/java/br/com/compassouol/product/ms/test/controller/ProductControllerTest.java:112-144 | with the update test's own body (the stored record itself) the handler answers Ok with the stored values unchanged |
| `ControllerScenarios.DeleteThenFind` | src/test/java/br/com/compassouol/product/ms/test/controller/ProductControllerTest.java:146-162 | deleting the test's record "1" answers an empty Ok as the test expects; the added lookup of "1" afterwards answers NotFound |

## Left out

- Spring plumbing: routing, request-parameter and path-variable binding, `ResponseEntity` construction, JSON mapping, Swagger annotations and the `System.out.println()` in update are framework glue; responses are the `Response` datatype.
- Lombok's generated `equals`/`hashCode`: Dafny datatype equality is structural, as Lombok's is, except that prices differing only in scale (10 and 10.00, which `BigDecimal.equals` tells apart) are equal here; the modelled code never calls `equals`.
- Database access and UUID generation: the store is a sequence of records in listing order, and the generated id is the `newId` parameter of `Create` and `Save`, required to be unused when the record has no id.
- Repository.Save: a record that already carries an id overwrites the record stored under it, or is added under that id; what JPA does with a generated-id entity whose id is set in a POST body is not part of this model.
- Repository.DeleteById: requires that the id be stored; the store does not accept unknown ids, and the handler only passes ids it has just found.
- Controller.FindByFilters: the null-pointer failures of the search (a null description or name when a query is given, a null price when a bound is given) are preconditions, not modelled exceptions; `Evaluable` follows Java's short-circuit order, so only fields a filter actually reads must be present.
- Controller.Create, Controller.Update: which violated constraint `getFieldError()` reports is not fixed by the validator, so the contract says only that the message is one of the violations.
- Controller.Update: the fetched entity is a value here; its fields are set one at a time on a copy that is then saved, so aliasing between that entity and the store is not modelled.
- Malformed request bodies and parameter type mismatches: no handler for them is in the modelled code.
- `BigDecimal` scale and representation: prices are exact reals.
- Concurrency: the handler is modelled one request at a time.
