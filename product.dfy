/** The Product entity: its four nullable fields, its setters, and the Bean
 *  Validation constraints declared on its fields (@NotNull and @NotEmpty on
 *  name and description, @Positive on price; no constraint on id).
 */
module ProductModel {

  /** A nullable Java reference: None stands for null. */
  datatype Option<T> = None | Some(value: T)

  /** The exact value of a BigDecimal price. BigDecimal.compareTo ignores
   *  scale, so 10 and 10.00 are the same price here. */
  type Price = real

  /** A product record. Every field may be null, as in the entity class; the
   *  id stays null until the store assigns one. */
  datatype Product = Product(
    id: Option<string>,
    name: Option<string>,
    description: Option<string>,
    price: Option<Price>)

  // The default messages given in the field annotations.
  const NameNullMessage: string := "Name cant be null"
  const NameEmptyMessage: string := "Name is mandatory"
  const DescriptionNullMessage: string := "Description cant be null"
  const DescriptionEmptyMessage: string := "Description is mandatory"
  const PriceNotPositiveMessage: string := "Price must be positive"

  /** Every message a Product can be rejected with. */
  const AllMessages: set<string> := {
    NameNullMessage, NameEmptyMessage,
    DescriptionNullMessage, DescriptionEmptyMessage,
    PriceNotPositiveMessage
  }

  // ---------------------------------------------------------------------
  // Setters. Each replaces one field and keeps the other three.

  function SetId(p: Product, id: Option<string>): (r: Product)
    ensures r.id == id
    ensures r.name == p.name && r.description == p.description && r.price == p.price
  {
    p.(id := id)
  }

  function SetName(p: Product, name: Option<string>): (r: Product)
    ensures r.name == name
    ensures r.id == p.id && r.description == p.description && r.price == p.price
  {
    p.(name := name)
  }

  function SetDescription(p: Product, description: Option<string>): (r: Product)
    ensures r.description == description
    ensures r.id == p.id && r.name == p.name && r.price == p.price
  {
    p.(description := description)
  }

  function SetPrice(p: Product, price: Option<Price>): (r: Product)
    ensures r.price == price
    ensures r.id == p.id && r.name == p.name && r.description == p.description
  {
    p.(price := price)
  }

  // ---------------------------------------------------------------------
  // One check per constraint kind; each yields the set of messages it raises.

  /** @NotNull: only null violates it. */
  function NotNull<T>(value: Option<T>, message: string): set<string>
  {
    if value.None? then {message} else {}
  }

  /** @NotEmpty on a string: null and the zero-length string violate it.
   *  Only the length counts, so a string of blanks satisfies it. */
  function NotEmpty(value: Option<string>, message: string): set<string>
  {
    if value.None? || |value.value| == 0 then {message} else {}
  }

  /** @Positive: null is valid; a value must be strictly greater than zero. */
  function Positive(value: Option<Price>, message: string): set<string>
  {
    if value.Some? && value.value <= 0.0 then {message} else {}
  }

  /** The messages of all constraints the product violates. */
  function Violations(p: Product): (v: set<string>)
    ensures v <= AllMessages
    ensures NameNullMessage in v <==> p.name.None?
    ensures NameEmptyMessage in v <==> p.name.None? || p.name.value == ""
    ensures DescriptionNullMessage in v <==> p.description.None?
    ensures DescriptionEmptyMessage in v <==> p.description.None? || p.description.value == ""
    ensures PriceNotPositiveMessage in v <==> p.price.Some? && p.price.value <= 0.0
  {
    NotNull(p.name, NameNullMessage) + NotEmpty(p.name, NameEmptyMessage)
    + NotNull(p.description, DescriptionNullMessage) + NotEmpty(p.description, DescriptionEmptyMessage)
    + Positive(p.price, PriceNotPositiveMessage)
  }

  /** The record a validator accepts, stated field by field. */
  predicate IsValid(p: Product)
  {
    && p.name.Some? && p.name.value != ""
    && p.description.Some? && p.description.value != ""
    && (p.price.None? || p.price.value > 0.0)
  }

  // ---------------------------------------------------------------------
  // Properties of the constraints.

  /** A product has no violation exactly when it is valid. */
  lemma NoViolationsIffValid(p: Product)
    ensures Violations(p) == {} <==> IsValid(p)
  {
  }

  /** The id carries no constraint: replacing it never changes the verdict. */
  lemma IdIsUnconstrained(p: Product, id: Option<string>)
    ensures Violations(SetId(p, id)) == Violations(p)
  {
  }

  /** A null name violates both of its constraints; so does a null description. */
  lemma NullFieldViolatesBoth(p: Product)
    ensures p.name.None? ==> {NameNullMessage, NameEmptyMessage} <= Violations(p)
    ensures p.description.None? ==> {DescriptionNullMessage, DescriptionEmptyMessage} <= Violations(p)
  {
  }

  /** An empty name or description violates @NotEmpty but not @NotNull. */
  lemma EmptyFieldViolatesNotEmptyOnly(p: Product)
    ensures p.name == Some("") ==>
      NameEmptyMessage in Violations(p) && NameNullMessage !in Violations(p)
    ensures p.description == Some("") ==>
      DescriptionEmptyMessage in Violations(p) && DescriptionNullMessage !in Violations(p)
  {
  }

  /** A blank name passes: the constraint is @NotEmpty, not @NotBlank. */
  lemma BlankNamePasses(description: string)
    requires description != ""
    ensures Violations(Product(None, Some(" "), Some(description), None)) == {}
  {
  }

  /** An absent price passes; a present one passes exactly when it is above zero. */
  lemma PriceRule(p: Product)
    ensures p.price.None? ==> PriceNotPositiveMessage !in Violations(p)
    ensures p.price.Some? ==> (PriceNotPositiveMessage !in Violations(p) <==> p.price.value > 0.0)
  {
  }
}
