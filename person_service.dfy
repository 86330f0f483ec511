/** The person service (`PersonServiceImpl`): create, read, update and delete
    of persons, resolving a color given by name only to the stored color. */
module PersonServices {
  import opened Entities
  import opened IgnoreCase
  import opened Repositories

  /** The person's color carries a name but no id, so it must be looked up. */
  predicate NeedsLookup(p: Person) {
    p.color.Some? && p.color.value.id.None?
  }

  /** `resolved` is `person` after color resolution against `colors`: a
      name-only color is replaced by a stored color of that name (ignoring
      case); any other person is left as it is. */
  ghost predicate Resolves(colors: map<int, Color>, person: Person, resolved: Person) {
    if NeedsLookup(person) then
      && resolved.color.Some?
      && StoredColor(colors, resolved.color.value)
      && SameName(resolved.color.value.name, person.color.value.name)
      && resolved == person.(color := resolved.color)
    else
      resolved == person
  }

  /** Under unique color names the resolved color is THE stored color of that
      name, so the person is saved with a reference to it. */
  lemma ResolutionIsCanonical(colors: map<int, Color>, person: Person, resolved: Person, k: int)
    requires NamesUnique(colors)
    requires NeedsLookup(person) && Resolves(colors, person, resolved)
    requires k in colors && SameName(colors[k].name, person.color.value.name)
    ensures resolved.color == Some(colors[k])
  {
    var c := resolved.color.value;
    assert SameName(colors[c.id.value].name, colors[k].name);
    assert c.id.value == k;
  }

  /** A resolved person reads back from the row written for it exactly as it
      was saved, when the submitted color was name-only (resolution then puts
      in a stored color), absent, or equal to its stored row: `findById` then
      returns what the service returned. */
  lemma ResolvedReadsBack(colors: map<int, Color>, person: Person, saved: Person, id: int)
    requires Resolves(colors, person, saved.(id := person.id))
    requires saved.id == Some(id)
    requires person.color.Some? && person.color.value.id.Some? ==> StoredColor(colors, person.color.value)
    ensures Join(id, RowOf(saved), colors) == saved
  {
    ReadBackSaved(id, saved, colors);
  }

  class PersonService {
    const personRepository: PersonRepository
    const colorRepository: ColorRepository

    /** Both repositories work on one database: the person table's foreign
        keys point into the color table the service resolves against. */
    ghost predicate Valid()
      reads this, personRepository, colorRepository
    {
      && personRepository.colorTable == colorRepository
      && personRepository.Valid()
      && colorRepository.Valid()
    }

    constructor (personRepository: PersonRepository, colorRepository: ColorRepository)
      requires personRepository.colorTable == colorRepository
      requires personRepository.Valid() && colorRepository.Valid()
      ensures this.personRepository == personRepository && this.colorRepository == colorRepository
      ensures Valid()
    {
      this.personRepository := personRepository;
      this.colorRepository := colorRepository;
    }

    /** `getAllPersons`: every stored person, each once, with its current color. */
    method GetAllPersons() returns (persons: seq<Person>)
      requires Valid()
      ensures forall i :: 0 <= i < |persons| ==> personRepository.Stored(persons[i])
      ensures forall k :: k in personRepository.rows ==>
                Join(k, personRepository.rows[k], colorRepository.colors) in persons
      ensures forall i, j :: 0 <= i < j < |persons| ==> persons[i] != persons[j]
    {
      persons := personRepository.FindAll();
    }

    /** `getPersonById`: the person at `id`; absence is a normal outcome. */
    method GetPersonById(id: Int32) returns (found: Option<Person>)
      requires Valid()
      ensures found.Some? <==> id as int in personRepository.rows
      ensures found.Some? ==> found.value == Join(id as int, personRepository.rows[id as int], colorRepository.colors)
    {
      found := personRepository.FindById(id as int);
    }

    /** `getPersonsByColor`: exactly the stored persons whose current color's
        name equals `color` ignoring case, each once; neither store changes. */
    method GetPersonsByColor(color: string) returns (persons: seq<Person>)
      requires Valid()
      ensures forall i :: 0 <= i < |persons| ==>
                personRepository.Stored(persons[i]) && HasColorNamed(persons[i], color)
      ensures forall k ::
                (k in personRepository.rows &&
                 HasColorNamed(Join(k, personRepository.rows[k], colorRepository.colors), color)) ==>
                Join(k, personRepository.rows[k], colorRepository.colors) in persons
      ensures forall i, j :: 0 <= i < j < |persons| ==> persons[i] != persons[j]
    {
      persons := personRepository.FindByColorNameIgnoreCase(color);
    }

    /** The color-resolution step shared by `createPerson` and `updatePerson`:
        a person whose color has a name and no id gets the stored color found by
        a case-insensitive lookup, or the call fails when there is none. */
    method ResolveColor(person: Person) returns (r: Outcome<Person>)
      requires Valid()
      ensures r.Ok? || r.ColorNotFound?
      ensures r.ColorNotFound? <==> NeedsLookup(person) && !NameTaken(colorRepository.colors, person.color.value.name)
      ensures r.Ok? ==> Resolves(colorRepository.colors, person, r.value)
    {
      if person.color.Some? && person.color.value.id.None? {
        var existing := colorRepository.FindByNameIgnoreCase(person.color.value.name);
        if existing.None? {
          return ColorNotFound;
        }
        return Ok(person.(color := existing));
      }
      return Ok(person);
    }

    /** `createPerson`: resolves the color, then saves; an unresolvable color
        name fails and saves nothing. */
    method CreatePerson(person: Person) returns (r: Outcome<Person>)
      requires Valid()
      modifies personRepository
      ensures Valid()
      ensures r.Ok? || r.ColorNotFound?
      ensures r.ColorNotFound? <==> NeedsLookup(person) && !NameTaken(colorRepository.colors, person.color.value.name)
      ensures r.ColorNotFound? ==> personRepository.rows == old(personRepository.rows)
      ensures r.Ok? ==> Resolves(colorRepository.colors, person, r.value.(id := person.id))
      ensures r.Ok? ==> PersonSavedAs(old(personRepository.rows), personRepository.rows,
                                      r.value.(id := person.id), r.value)
    {
      var resolved := ResolveColor(person);
      if resolved.ColorNotFound? {
        return ColorNotFound;
      }
      var saved := personRepository.Save(resolved.value);
      return Ok(saved);
    }

    /** `updatePerson`: an unknown id gives an empty result before any color
        lookup; an unresolvable color name then fails; otherwise the id is
        forced to `id` and the whole record at `id` is replaced. */
    method UpdatePerson(id: Int32, person: Person) returns (r: Outcome<Option<Person>>)
      requires Valid()
      modifies personRepository
      ensures Valid()
      ensures r.Ok? || r.ColorNotFound?
      ensures id as int !in old(personRepository.rows) ==> r == Ok(None)
      ensures id as int in old(personRepository.rows) ==>
                (r.ColorNotFound? <==> NeedsLookup(person) && !NameTaken(colorRepository.colors, person.color.value.name))
      ensures id as int in old(personRepository.rows) && !r.ColorNotFound? ==> r.Ok? && r.value.Some?
      ensures !(r.Ok? && r.value.Some?) ==> personRepository.rows == old(personRepository.rows)
      ensures r.Ok? && r.value.Some? ==>
                && r.value.value.id == Some(id as int)
                && Resolves(colorRepository.colors, person, r.value.value.(id := person.id))
                && personRepository.rows == old(personRepository.rows)[id as int := RowOf(r.value.value)]
    {
      var existing := personRepository.FindById(id as int);
      if existing.None? {
        return Ok(None);
      }
      var resolved := ResolveColor(person);
      if resolved.ColorNotFound? {
        return ColorNotFound;
      }
      var updated := personRepository.Save(resolved.value.(id := Some(id as int)));
      return Ok(Some(updated));
    }

    /** `deletePerson`: `false` and no change for an unknown id; otherwise the
        person at `id` is removed and the answer is `true`. */
    method DeletePerson(id: Int32) returns (deleted: bool)
      requires Valid()
      modifies personRepository
      ensures Valid()
      ensures deleted <==> id as int in old(personRepository.rows)
      ensures personRepository.rows == old(personRepository.rows) - {id as int}
    {
      var existing := personRepository.FindById(id as int);
      if existing.None? {
        return false;
      }
      personRepository.DeleteById(id as int);
      return true;
    }
  }
}
