/** The product store that the controller calls: findAll, findById, save and
 *  deleteById over the persisted records, kept in the order findAll lists
 *  them. Database access and identifier generation are outside the model:
 *  the store is a sequence of records, and a generated id is a parameter.
 */
module ProductRepository {
  import opened ProductModel

  // -----------------------------------------------------------------------
  // Records kept by id

  /** Some record carries `id`. */
  predicate HasId(records: seq<Product>, id: string)
  {
    exists i :: 0 <= i < |records| && records[i].id == Some(id)
  }

  /** Every record has been given an id, and no id is used twice. */
  predicate WellKeyed(records: seq<Product>)
  {
    && (forall i :: 0 <= i < |records| ==> records[i].id.Some?)
    && (forall i, j :: 0 <= i < j < |records| ==> records[i].id != records[j].id)
  }

  /** Position of the first record that carries `id`, or -1 when none does. */
  function IndexOf(records: seq<Product>, id: string): (i: int)
    ensures -1 <= i < |records|
    ensures i == -1 <==> !HasId(records, id)
    ensures 0 <= i ==> records[i].id == Some(id)
    ensures forall j :: 0 <= j < i ==> records[j].id != Some(id)
    decreases |records|
  {
    if records == [] then -1
    else if records[0].id == Some(id) then 0
    else
      var k := IndexOf(records[1..], id);
      assert forall j :: 0 < j < |records| ==> records[j] == records[1..][j - 1];
      if k < 0 then -1 else k + 1
  }

  /** The record with `id`, or None: what findById yields. */
  function Find(records: seq<Product>, id: string): (r: Option<Product>)
    ensures r.Some? <==> HasId(records, id)
    ensures r.Some? ==> r.value in records && r.value.id == Some(id)
  {
    var i := IndexOf(records, id);
    if i < 0 then None else Some(records[i])
  }

  /** With unique ids, the record found for an id is the one that carries it. */
  lemma FindUnique(records: seq<Product>, k: nat)
    requires WellKeyed(records) && k < |records|
    ensures Find(records, records[k].id.value) == Some(records[k])
  {
  }

  // -----------------------------------------------------------------------
  // What save and deleteById do to the records

  /** The record save stores: one without an id gets the generated `newId`. */
  function WithAssignedId(p: Product, newId: string): (r: Product)
    ensures r.id.Some?
    ensures p.id.Some? ==> r == p
    ensures p.id.None? ==> r == SetId(p, Some(newId))
  {
    if p.id.Some? then p else SetId(p, Some(newId))
  }

  /** The records after saving `saved`: it replaces, in place, the record
   *  with the same id, or is appended when there is none. */
  function AfterSave(records: seq<Product>, saved: Product): (r: seq<Product>)
    requires saved.id.Some?
    ensures saved in r
    ensures HasId(records, saved.id.value) ==> |r| == |records|
    ensures !HasId(records, saved.id.value) ==> |r| == |records| + 1 && r[..|records|] == records
    ensures forall x :: x in r ==> x == saved || x in records
  {
    var i := IndexOf(records, saved.id.value);
    if i < 0 then records + [saved]
    else
      assert records[i := saved][i] == saved;
      records[i := saved]
  }

  /** Saving keeps the ids unique, makes `saved` what findById yields for its
   *  id, and leaves what every other id yields as it was. */
  lemma AfterSaveProperties(records: seq<Product>, saved: Product)
    requires WellKeyed(records) && saved.id.Some?
    ensures WellKeyed(AfterSave(records, saved))
    ensures Find(AfterSave(records, saved), saved.id.value) == Some(saved)
    ensures forall id :: id != saved.id.value ==>
      Find(AfterSave(records, saved), id) == Find(records, id)
  {
    var r := AfterSave(records, saved);
    var i := IndexOf(records, saved.id.value);
    assert r[if i < 0 then |records| else i] == saved;
    FindUnique(r, if i < 0 then |records| else i);
    forall id | id != saved.id.value
      ensures Find(r, id) == Find(records, id)
    {
      if HasId(records, id) {
        var k := IndexOf(records, id);
        assert r[k] == records[k];
        FindUnique(r, k);
        FindUnique(records, k);
      } else {
        assert !HasId(r, id) by {
          forall j | 0 <= j < |r| ensures r[j].id != Some(id) {
            if j < |records| && j != i {
              assert r[j] == records[j];
            }
          }
        }
      }
    }
  }

  /** The records after removing the one with `id`; the others keep their order. */
  function AfterDelete(records: seq<Product>, id: string): (r: seq<Product>)
    requires HasId(records, id)
    ensures |r| == |records| - 1
    ensures forall x :: x in r ==> x in records
  {
    var i := IndexOf(records, id);
    records[..i] + records[i + 1..]
  }

  /** Deleting keeps the ids unique, leaves no record with `id`, and leaves
   *  what every other id yields as it was. */
  lemma AfterDeleteProperties(records: seq<Product>, id: string)
    requires WellKeyed(records) && HasId(records, id)
    ensures WellKeyed(AfterDelete(records, id))
    ensures !HasId(AfterDelete(records, id), id)
    ensures |AfterDelete(records, id)| == |records| - 1
    ensures forall other :: other != id ==>
      Find(AfterDelete(records, id), other) == Find(records, other)
  {
    var r := AfterDelete(records, id);
    var i := IndexOf(records, id);
    // Position j of r holds the record at j in records, or at j + 1 past the removed one.
    assert forall j :: 0 <= j < |r| ==> r[j] == records[if j < i then j else j + 1];
    forall j | 0 <= j < |r| ensures r[j].id != Some(id) {
      var old_j := if j < i then j else j + 1;
      assert records[old_j].id != records[i].id;
    }
    forall other | other != id
      ensures Find(r, other) == Find(records, other)
    {
      if HasId(records, other) {
        var k := IndexOf(records, other);
        var new_k := if k < i then k else k - 1;
        assert r[new_k] == records[k];
        FindUnique(r, new_k);
        FindUnique(records, k);
      }
    }
  }

  // -----------------------------------------------------------------------
  // The store

  class Repository {
    /** The persisted records, in the order findAll lists them. */
    var records: seq<Product>

    ghost predicate Valid()
      reads this
    {
      WellKeyed(records)
    }

    /** A store holding `initial`, as the database does at start-up. */
    constructor (initial: seq<Product>)
      requires WellKeyed(initial)
      ensures Valid() && records == initial
    {
      records := initial;
    }

    /** Every persisted record, each listed once under its own id. */
    function FindAll(): (r: seq<Product>)
      reads this
      ensures Valid() ==> WellKeyed(r)
      ensures forall p :: p in r <==> p in records
    {
      records
    }

    /** The record stored under `id`, or None; with unique ids it is the one
     *  record that carries the id. */
    function FindById(id: string): (r: Option<Product>)
      reads this
      ensures r.Some? <==> HasId(records, id)
      ensures r.Some? ==> r.value in records && r.value.id == Some(id)
      ensures Valid() ==> forall k :: 0 <= k < |records| && records[k].id == Some(id) ==> r == Some(records[k])
    {
      Find(records, id)
    }

    /** Stores `p`. A record without an id is given `newId`, which the id
     *  generator guarantees is not in use; a record with an id replaces the
     *  one stored under it, or is added when there is none. */
    method Save(p: Product, newId: string) returns (saved: Product)
      requires Valid()
      requires p.id.None? ==> !HasId(records, newId)
      modifies this
      ensures Valid()
      ensures saved == WithAssignedId(p, newId)
      ensures records == AfterSave(old(records), saved)
      ensures Find(records, saved.id.value) == Some(saved)
      ensures forall id :: id != saved.id.value ==> Find(records, id) == Find(old(records), id)
    {
      saved := WithAssignedId(p, newId);
      AfterSaveProperties(records, saved);
      var i := IndexOf(records, saved.id.value);
      if i < 0 {
        records := records + [saved];
      } else {
        records := records[i := saved];
      }
    }

    /** Removes the record with `id`. The store refuses ids it does not hold,
     *  and the controller only passes ids it has just found. */
    method DeleteById(id: string)
      requires Valid() && HasId(records, id)
      modifies this
      ensures Valid()
      ensures records == AfterDelete(old(records), id)
      ensures !HasId(records, id)
      ensures forall other :: other != id ==> Find(records, other) == Find(old(records), other)
    {
      AfterDeleteProperties(records, id);
      var i := IndexOf(records, id);
      records := records[..i] + records[i + 1..];
    }
  }
}
