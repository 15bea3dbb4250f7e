/** Concrete runs of the handler built from the records and expected answers
 *  of the controller's tests, each stated as what the handler answers. The
 *  lookups after a create and after a delete are additions that check the
 *  resulting store, and the update body carrying the new values is the
 *  request the update test evidently intends. `CreateWithEmptyName` is an
 *  added request for the rejection path, with no counterpart in the tests.
 */
module ControllerScenarios {
  import opened ProductModel
  import opened Sequences
  import opened ProductRepository
  import opened ProductController

  /** The two records of the search test; they differ in id and description. */
  const TestRecord := Product(Some("1"), Some("name"), Some("Description test"), Some(10.0))
  const PlainRecord := Product(Some("2"), Some("name"), Some("Description"), Some(10.0))

  /** Searching with q=test, min_price=10 and max_price=40 keeps only the
   *  record described "Description test". */
  lemma SearchByQueryAndPriceRange()
    ensures Evaluable(TestRecord, Some("test"), Some(10.0), Some(40.0))
    ensures Evaluable(PlainRecord, Some("test"), Some(10.0), Some(40.0))
    ensures FilterProducts([TestRecord, PlainRecord], Some("test"), Some(10.0), Some(40.0)) == [TestRecord]
  {
    assert MatchesQuery(TestRecord, Some("test")) by {
      ContainsIffOccurs("Description test", "test");
      assert OccursAt("Description test", "test", 12);
    }
    assert !MatchesQuery(PlainRecord, Some("test")) by {
      DescriptionLacksTest();
      ContainsIffOccurs("name", "test");
    }
    KeepsFirstOfTwo(TestRecord, PlainRecord, Some("test"), Some(10.0), Some(40.0));
  }

  /** Of two records, a search keeps only the first when the first passes
   *  every filter and the second fails the query filter. */
  lemma KeepsFirstOfTwo(first: Product, second: Product, query: Option<string>, minPrice: Option<Price>, maxPrice: Option<Price>)
    requires Evaluable(first, query, minPrice, maxPrice) && Evaluable(second, query, minPrice, maxPrice)
    requires MatchesQuery(first, query) && MatchesMin(first, minPrice) && MatchesMax(first, maxPrice)
    requires !MatchesQuery(second, query)
    ensures FilterProducts([first, second], query, minPrice, maxPrice) == [first]
  {
    var f := QueryFilter(query);
    assert [first, second][1..] == [second];
    assert Select([second], f) == [] by {
      assert [second][1..] == [];
    }
    assert Select([first, second], f) == [first];
    assert Select([first], MinFilter(minPrice)) == [first] by {
      assert [first][1..] == [];
    }
    assert Select([first], MaxFilter(maxPrice)) == [first] by {
      assert [first][1..] == [];
    }
  }

  /** "test" occurs nowhere in "Description". */
  lemma DescriptionLacksTest()
    ensures !Contains("Description", "test")
  {
    NoOccurrenceInDescription();
    ContainsIffOccurs("Description", "test");
  }

  /** At every position where "test" would fit in "Description", one of its
   *  first two characters differs. */
  lemma NoOccurrenceInDescription()
    ensures forall i :: !OccursAt("Description", "test", i)
  {
    var text := "Description";
    assert !OccursAt(text, "test", 0) by { assert text[0..4][0] != 't'; }
    assert !OccursAt(text, "test", 1) by { assert text[1..5][0] != 't'; }
    assert !OccursAt(text, "test", 2) by { assert text[2..6][0] != 't'; }
    assert !OccursAt(text, "test", 3) by { assert text[3..7][0] != 't'; }
    assert !OccursAt(text, "test", 4) by { assert text[4..8][0] != 't'; }
    assert !OccursAt(text, "test", 5) by { assert text[5..9][0] != 't'; }
    assert !OccursAt(text, "test", 6) by { assert text[6..10][0] != 't'; }
    assert !OccursAt(text, "test", 7) by { assert text[7..11][1] != 'e'; }
  }

  /** Listing returns the stored records as they are, in store order. */
  method ListTwoRecords() returns (r: seq<Product>)
    ensures r == [Product(Some("1"), Some("name"), Some("Description"), None),
                  Product(Some("2"), Some("name"), Some("Description"), None)]
  {
    var first := Product(Some("1"), Some("name"), Some("Description"), None);
    var second := Product(Some("2"), Some("name"), Some("Description"), None);
    var repository := new Repository([first, second]);
    var controller := new Controller(repository);
    r := controller.FindAll();
  }

  /** An empty name is the one violation, so its message is the answer. */
  method CreateWithEmptyName() returns (r: Response)
    ensures r == BadRequest(400, "Name is mandatory")
  {
    var repository := new Repository([]);
    var controller := new Controller(repository);
    var candidate := Product(None, Some(""), Some("Description"), Some(10.0));
    assert Violations(candidate) == {NameEmptyMessage};
    r := controller.Create(candidate, "1");
  }

  /** A created product is found afterwards under the id it was given. */
  method CreateThenFind() returns (created: Response, found: Response)
    ensures created == Created(Product(Some("1"), Some("name"), Some("Description"), Some(10.0)))
    ensures found == Ok(Some(created.product))
  {
    var repository := new Repository([]);
    var controller := new Controller(repository);
    created := controller.Create(Product(None, Some("name"), Some("Description"), Some(10.0)), "1");
    found := controller.FindById("1");
  }

  /** Updating record "1" gives it the new name and description and keeps
   *  its id. */
  method UpdateNameAndDescription() returns (r: Response)
    ensures r == Ok(Some(Product(Some("1"), Some("name new"), Some("Description new"), None)))
  {
    var repository := new Repository([Product(Some("1"), Some("name"), Some("Description"), None)]);
    var controller := new Controller(repository);
    assert HasId(repository.records, "1") by {
      assert repository.records[0].id == Some("1");
    }
    r := controller.Update("1", Product(None, Some("name new"), Some("Description new"), None));
  }

  /** The update test's own request: the body is the stored record itself.
   *  The handler then answers with the stored values unchanged; the new name
   *  and description that test expects come only from its stand-in store. */
  method UpdateWithStoredBody() returns (r: Response)
    ensures r == Ok(Some(Product(Some("1"), Some("name"), Some("Description"), None)))
  {
    var stored := Product(Some("1"), Some("name"), Some("Description"), None);
    var repository := new Repository([stored]);
    var controller := new Controller(repository);
    assert HasId(repository.records, "1") by {
      assert repository.records[0].id == Some("1");
    }
    r := controller.Update("1", stored);
  }

  /** After deleting record "1" it can no longer be found. */
  method DeleteThenFind() returns (deleted: Response, found: Response)
    ensures deleted == Ok(None)
    ensures found == NotFound
  {
    var repository := new Repository([Product(Some("1"), Some("name"), Some("Description"), None)]);
    var controller := new Controller(repository);
    assert HasId(repository.records, "1") by {
      assert repository.records[0].id == Some("1");
    }
    deleted := controller.Delete("1");
    found := controller.FindById("1");
  }
}
