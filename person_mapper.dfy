/** The person mapper (`PersonMapper`): converts between the person entity and
    its two transfer shapes. A transfer object names its color by name only;
    turning it back into an entity yields a name-only color that the person
    service then resolves. A null argument is `None`. */
module PersonMapping {
  import opened Entities
  import PersonServices

  /** The response shape: the person's fields with the color as its name. */
  datatype PersonDto = PersonDto(
    id: Option<int>,
    name: string,
    lastname: string,
    zipcode: string,
    city: string,
    color: Option<string>)

  /** The request shape of create and update; the same fields as PersonDto. */
  datatype PersonInputDto = PersonInputDto(
    id: Option<int>,
    name: string,
    lastname: string,
    zipcode: string,
    city: string,
    color: Option<string>)

  /** The name of a person's color, or nothing when the person has none. */
  function ColorName(p: Person): Option<string> {
    if p.color.Some? then Some(p.color.value.name) else None
  }

  /** A color reference that carries only a name, or no color at all. */
  predicate NameOnlyColor(p: Person) {
    p.color.Some? ==> p.color.value.id.None?
  }

  /** The person with its color reduced to the name alone. */
  function WithNameOnlyColor(p: Person): (q: Person)
    ensures NameOnlyColor(q) && ColorName(q) == ColorName(p)
    ensures q.(color := p.color) == p
  {
    p.(color := if p.color.Some? then Some(Color(None, p.color.value.name)) else None)
  }

  /** `toDto`: null maps to null; the scalar fields are copied and the color
      becomes its name. */
  function ToDto(person: Option<Person>): (dto: Option<PersonDto>)
    ensures dto.None? <==> person.None?
    ensures person.Some? ==> dto.value.color == ColorName(person.value)
  {
    match person
    case None => None
    case Some(p) => Some(PersonDto(p.id, p.name, p.lastname, p.zipcode, p.city, ColorName(p)))
  }

  /** `toEntity(PersonDto)`: null maps to null; the scalar fields are copied
      and a color name becomes a color with that name and no id. */
  function ToEntity(dto: Option<PersonDto>): (person: Option<Person>)
    ensures person.None? <==> dto.None?
    ensures person.Some? ==> NameOnlyColor(person.value) && ColorName(person.value) == dto.value.color
  {
    match dto
    case None => None
    case Some(d) =>
      Some(Person(d.id, d.name, d.lastname, d.zipcode, d.city,
                  if d.color.Some? then Some(Color(None, d.color.value)) else None))
  }

  /** `toEntity(PersonInputDto)`: the same mapping for the request shape. */
  function ToEntityFromInput(input: Option<PersonInputDto>): (person: Option<Person>)
    ensures person.None? <==> input.None?
    ensures person.Some? ==> NameOnlyColor(person.value) && ColorName(person.value) == input.value.color
  {
    match input
    case None => None
    case Some(i) =>
      Some(Person(i.id, i.name, i.lastname, i.zipcode, i.city,
                  if i.color.Some? then Some(Color(None, i.color.value)) else None))
  }

  /** The transfer object with the same fields as an input object. */
  function AsDto(i: PersonInputDto): PersonDto {
    PersonDto(i.id, i.name, i.lastname, i.zipcode, i.city, i.color)
  }

  /** The entity fields a transfer object copies unchanged. */
  predicate SameScalars(p: Person, d: PersonDto) {
    p.id == d.id && p.name == d.name && p.lastname == d.lastname &&
    p.zipcode == d.zipcode && p.city == d.city
  }

  /** Both directions copy id, name, lastname, zipcode and city unchanged. */
  lemma ScalarsCopied(p: Person, d: PersonDto)
    ensures SameScalars(p, ToDto(Some(p)).value)
    ensures SameScalars(ToEntity(Some(d)).value, d)
  {
  }

  /** Round trip: a transfer object turned into an entity and back is the
      same transfer object. */
  lemma DtoRoundTrip(d: PersonDto)
    ensures ToDto(ToEntity(Some(d))) == Some(d)
  {
  }

  /** The other round trip: an entity turned into a transfer object and back
      keeps every field except the color's id, which is dropped. */
  lemma EntityRoundTrip(p: Person)
    ensures ToEntity(ToDto(Some(p))) == Some(WithNameOnlyColor(p))
  {
  }

  /** Both `toEntity` overloads map the same fields the same way. */
  lemma InputMapsLikeDto(input: Option<PersonInputDto>)
    ensures ToEntityFromInput(input) ==
            ToEntity(if input.Some? then Some(AsDto(input.value)) else None)
  {
  }

  /** A request that names a color always sends the person service through
      the color lookup; one that names none never does. */
  lemma MappedColorNeedsLookup(input: PersonInputDto)
    ensures PersonServices.NeedsLookup(ToEntityFromInput(Some(input)).value) <==> input.color.Some?
  {
  }
}
