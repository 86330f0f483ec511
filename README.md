# Person and color services, modelled and proved in Dafny

This project models the layer between the REST controllers and the JPA
repositories of a Spring Boot backend. The backend stores persons and their
favourite colors. The model covers three parts.

- **Color service** (`ColorServiceImpl`). It runs create, read, update and
  delete over the color table. Color names are unique when compared without
  regard to letter case. Create rejects a name that is already taken. Update
  rejects an unknown id, and then a name that a *different* color has.
  Renaming a color to its own name in another casing is allowed. Delete
  rejects an unknown id and removes the color without checking whether
  persons still refer to it.
- **Person service** (`PersonServiceImpl`). It runs create, read, update and
  delete over the person table. A color submitted by name only (no id) is
  resolved to the stored color of that name, ignoring case. If there is
  none, the write fails. Update of an unknown id gives an empty result,
  before any color lookup. Delete of an unknown id answers `false`. Search
  by color returns the persons whose current color has that name, ignoring
  case.
- **Person mapper** (`PersonMapper`). It converts between the entity and its
  two transfer shapes. The color travels as its name.

## Layout

- `entities.dfy` (module `Entities`): the `Color` and `Person` records as
  datatypes. `Option` stands for Java's null. `Outcome` has the variants
  `Ok`, `NotFound`, `DuplicateName`, `NameConflict` and `ColorNotFound`.
  `Int32` is Java's `int`.
- `ignore_case.dfy` (module `IgnoreCase`): ASCII lower-casing (`Lower`) and
  the comparison `SameName`, with its equivalence-relation lemmas.
- `repositories.dfy` (module `Repositories`, classes `ColorRepository` and
  `PersonRepository`). Each table is a map from id to row. `save` assigns a
  fresh id when the id is absent and otherwise overwrites the row at that id.
  A person row holds its color as a foreign key (`colorId`). Every read
  joins the row with the color table (`Join`), as the `@ManyToOne` mapping
  does. So a person is always seen with its color's *current* name, and that
  is the name `findByColorNameIgnoreCase` compares against.
- `color_service.dfy` (module `ColorServices`, class `ColorService`) and
  `person_service.dfy` (module `PersonServices`, class `PersonService`): the
  two services. Each is a class holding its repositories. Methods that write
  carry `modifies` clauses, and their `ensures` give the whole new table in
  terms of the old one.
- `person_mapper.dfy` (module `PersonMapping`): the mapper, as pure
  functions.
- `scenarios.dfy` (module `Scenarios`): client methods that start from
  empty stores and prove the expected outcomes from the service contracts
  alone. They cover "rot" then "ROT", the "blau"/"grün" renames, resolving
  "rot", the unknown color "purple", and the unknown id 999. One scenario
  writes "x" and "X" straight into the color table and shows that update
  still reports the "grün" conflict there.

The main invariant is `NamesUnique`: no two stored colors have the same name
up to case. Every color-service write preserves it
(`ensures NamesUnique(old(...)) ==> NamesUnique(...)`). That preservation
follows directly from the map updates the repository contracts give. The
lemmas `InsertKeepsNamesUnique` and `RenameKeepsNamesUnique` state the same
two steps on plain maps, for clients reasoning about tables. Update's
"another color has the name, so NameConflict" needs less than `NamesUnique`:
it is promised whenever at most one stored color matches the submitted name
(`SingleMatch`).

Two behaviours follow directly from the code:

- `createPerson` saves a person that carries an id by overwriting the row at
  that id. `PersonInputDto` has an `id` field, so a create request with an
  id replaces that person.
- `updatePerson` of an unknown id returns `Optional.empty()`
  (`PersonServiceImpl.java:108-112`), and so does the model. The unit tests
  expect an exception there, and likewise for `deletePerson`. The model
  follows the implementation, not the tests.

## Model

| member | source | states |
|---|---|---|
| IgnoreCase.LowerChar | src/main/java/com/assecor/assessment/repository/PersonJpaRepository.java:24 | lowering leaves no ASCII upper-case letter and changes only upper-case letters, each by the fixed distance to its lower-case form |
| IgnoreCase.Lower | src/main/java/com/assecor/assessment/repository/PersonJpaRepository.java:24 | `LOWER(...)` keeps the length and lowers every character in place |
| IgnoreCase.SameName | src/main/java/com/assecor/assessment/repository/ColorJpaRepository.java:11 | the case-insensitive name comparison of `findByNameIgnoreCase` and of `LOWER(c.name) = LOWER(:colorName)` (PersonJpaRepository.java:24); equal names match, and matching names have equal length |
| IgnoreCase.SameNameIsEquivalence | src/main/java/com/assecor/assessment/repository/ColorJpaRepository.java:11 | comparing names without regard to case is reflexive, symmetric and transitive |
| IgnoreCase.LowerIdempotent | src/main/java/com/assecor/assessment/repository/PersonJpaRepository.java:24 | lowering an already lowered name changes nothing |
| IgnoreCase.SameAsLowered | src/main/java/com/assecor/assessment/repository/PersonJpaRepository.java:24 | every name is the same name as its lowered form |
| IgnoreCase.SameNameCharwise | src/main/java/com/assecor/assessment/repository/ColorJpaRepository.java:11 | two names are the same exactly when they have equal length and agree character by character after lowering (both directions) |
| IgnoreCase.DifferentLengthsDiffer | src/main/java/com/assecor/assessment/repository/ColorJpaRepository.java:11 | names of different lengths never match |
| Repositories.ColorRepository.constructor | src/main/java/com/assecor/assessment/repository/ColorJpaRepository.java:10 | a new color table is empty and valid |
| Repositories.ColorRepository.FindAll | src/main/java/com/assecor/assessment/repository/ColorJpaRepository.java:10 | `findAll` returns every stored color exactly once, and nothing else |
| Repositories.ColorRepository.FindById | src/main/java/com/assecor/assessment/repository/ColorJpaRepository.java:10 | `findById` finds a color exactly when the id is stored, and then returns that row |
| Repositories.ColorRepository.FindByNameIgnoreCase | src/main/java/com/assecor/assessment/repository/ColorJpaRepository.java:11 | the result is a stored color whose name matches ignoring case; nothing is returned exactly when no stored name matches |
| Repositories.ColorRepository.Save | src/main/java/com/assecor/assessment/model/Color.java:23-26 | a color without id gets a fresh id, one with an id overwrites that row; the table changes only at that id |
| Repositories.ColorRepository.DeleteById | src/main/java/com/assecor/assessment/repository/ColorJpaRepository.java:10 | exactly the row at the id is removed; an absent id changes nothing |
| Repositories.RowOf | src/main/java/com/assecor/assessment/model/Person.java:64-67 | the row written for a person refers to its color only by the color's id |
| Repositories.Join | src/main/java/com/assecor/assessment/model/Person.java:64-67 | a person read back has the row's key as id, and its color is the color currently stored under the foreign key, or none |
| Repositories.ReadBackSaved | src/main/java/com/assecor/assessment/model/Person.java:64-67 | a person whose color is stored under its own id reads back exactly as it was saved |
| Repositories.PersonRepository.constructor | src/main/java/com/assecor/assessment/repository/PersonJpaRepository.java:16 | a new person table is empty, valid, and joins with the given color table |
| Repositories.PersonRepository.FindAll | src/main/java/com/assecor/assessment/repository/PersonJpaRepository.java:16 | `findAll` returns every stored person exactly once, with its current color |
| Repositories.PersonRepository.FindById | src/main/java/com/assecor/assessment/repository/PersonJpaRepository.java:16 | `findById` finds a person exactly when the id is stored, and returns the joined row |
| Repositories.PersonRepository.FindByColorNameIgnoreCase | src/main/java/com/assecor/assessment/repository/PersonJpaRepository.java:24-25 | returns exactly the stored persons whose current color's name matches ignoring case, each once |
| Repositories.PersonRepository.Save | src/main/java/com/assecor/assessment/model/Person.java:35-38 | a person without id gets a fresh id, one with an id overwrites that row; the table changes only at that id |
| Repositories.PersonRepository.DeleteById | src/main/java/com/assecor/assessment/repository/PersonJpaRepository.java:16 | exactly the row at the id is removed; an absent id changes nothing |
| ColorServices.InsertKeepsNamesUnique | src/main/java/com/assecor/assessment/service/impl/ColorServiceImpl.java:52-61 | writing a color whose name no stored color has keeps names unique |
| ColorServices.RenameKeepsNamesUnique | src/main/java/com/assecor/assessment/service/impl/ColorServiceImpl.java:75-84 | renaming the color at an id to a name no other color has keeps names unique |
| ColorServices.UniqueNamesGiveSingleMatch | src/main/java/com/assecor/assessment/service/impl/ColorServiceImpl.java:76 | when all stored names are unique, every name has at most one case-insensitive match |
| ColorServices.SelfRenameIsNoConflict | src/main/java/com/assecor/assessment/service/impl/ColorServiceImpl.java:77 | under unique names, renaming a color to its own name in any casing collides with no other color |
| ColorServices.MatchAtIdExcludesOthers | src/main/java/com/assecor/assessment/service/impl/ColorServiceImpl.java:76-77 | when the name has at most one match, a name lookup that finds the color being updated rules out every other match |
| ColorServices.ColorService.constructor | src/main/java/com/assecor/assessment/service/impl/ColorServiceImpl.java:24-26 | the service works on the given color table |
| ColorServices.ColorService.GetAllColors | src/main/java/com/assecor/assessment/service/impl/ColorServiceImpl.java:29-34 | every stored color exactly once, unfiltered |
| ColorServices.ColorService.GetColorById | src/main/java/com/assecor/assessment/service/impl/ColorServiceImpl.java:37-46 | the color at the id, carrying that id, or none when absent |
| ColorServices.ColorService.CreateColor | src/main/java/com/assecor/assessment/service/impl/ColorServiceImpl.java:49-62 | fails with DuplicateName exactly when some stored name matches ignoring case, and then saves nothing; otherwise saves the candidate and returns it with its id; keeps names unique |
| ColorServices.ColorService.UpdateColor | src/main/java/com/assecor/assessment/service/impl/ColorServiceImpl.java:65-87 | NotFound exactly for an unknown id; NameConflict only when another color has the name, and always then when that name has at most one stored match; a self-rename succeeds; success forces the id and overwrites only that color; failure saves nothing; keeps names unique |
| ColorServices.ColorService.DeleteColor | src/main/java/com/assecor/assessment/service/impl/ColorServiceImpl.java:90-106 | NotFound exactly for an unknown id; otherwise removes exactly that color, with no check of referring persons; keeps names unique |
| PersonServices.ResolutionIsCanonical | src/main/java/com/assecor/assessment/service/impl/PersonServiceImpl.java:90-95 | under unique color names, resolution picks THE stored color with the submitted name |
| PersonServices.ResolvedReadsBack | src/main/java/com/assecor/assessment/service/impl/PersonServiceImpl.java:97 | a resolved person that was saved reads back by id exactly as the service returned it, provided its submitted color was name-only, absent, or equal to its stored row |
| PersonServices.PersonService.constructor | src/main/java/com/assecor/assessment/service/impl/PersonServiceImpl.java:34-36 | the service works on the given person and color tables of one database |
| PersonServices.PersonService.GetAllPersons | src/main/java/com/assecor/assessment/service/impl/PersonServiceImpl.java:55-61 | every stored person exactly once, with its current color |
| PersonServices.PersonService.GetPersonById | src/main/java/com/assecor/assessment/service/impl/PersonServiceImpl.java:64-74 | the person at the id widened to `long`, or none when absent |
| PersonServices.PersonService.GetPersonsByColor | src/main/java/com/assecor/assessment/service/impl/PersonServiceImpl.java:77-83 | exactly the stored persons whose current color's name matches ignoring case, each once; neither table changes |
| PersonServices.PersonService.ResolveColor | src/main/java/com/assecor/assessment/service/impl/PersonServiceImpl.java:90-95 | a name-only color is replaced by a stored color of that name; it fails with ColorNotFound exactly when none exists; a color with an id, or no color, is left alone |
| PersonServices.PersonService.CreatePerson | src/main/java/com/assecor/assessment/service/impl/PersonServiceImpl.java:86-100 | ColorNotFound exactly when a name-only color has no stored match, and then nothing is saved; otherwise the resolved person is saved and returned with its id |
| PersonServices.PersonService.UpdatePerson | src/main/java/com/assecor/assessment/service/impl/PersonServiceImpl.java:103-126 | unknown id gives an empty result and no change, whatever the color; otherwise ColorNotFound exactly for an unresolvable name, with no change; success forces the id, replaces the whole row at it, and returns the person wrapped |
| PersonServices.PersonService.DeletePerson | src/main/java/com/assecor/assessment/service/impl/PersonServiceImpl.java:129-143 | answers true exactly when the id was stored; removes exactly that id |
| PersonMapping.WithNameOnlyColor | src/main/java/com/assecor/assessment/dto/PersonMapper.java:37-42 | reduces a person's color to its name and changes nothing else |
| PersonMapping.ToDto | src/main/java/com/assecor/assessment/dto/PersonMapper.java:10-23 | null maps to null; the transfer color is the entity's color name, or null |
| PersonMapping.ToEntity | src/main/java/com/assecor/assessment/dto/PersonMapper.java:25-45 | null maps to null; the entity's color carries only a name, and it is the transfer color |
| PersonMapping.ToEntityFromInput | src/main/java/com/assecor/assessment/dto/PersonMapper.java:47-67 | the same for the request shape |
| PersonMapping.ScalarsCopied | src/main/java/com/assecor/assessment/dto/PersonMapper.java:15-35 | both directions copy id, name, lastname, zipcode and city unchanged |
| PersonMapping.DtoRoundTrip | src/main/java/com/assecor/assessment/dto/PersonMapper.java:10-45 | `toDto(toEntity(d)) == d` for every transfer object |
| PersonMapping.EntityRoundTrip | src/main/java/com/assecor/assessment/dto/PersonMapper.java:10-45 | `toEntity(toDto(p))` is `p` with only its color's id dropped |
| PersonMapping.InputMapsLikeDto | src/main/java/com/assecor/assessment/dto/PersonMapper.java:25-67 | the two `toEntity` overloads map the same fields the same way, null included |
| PersonMapping.MappedColorNeedsLookup | src/main/java/com/assecor/assessment/controller/PersonController.java:86-87 | a request's entity goes through color lookup exactly when the request names a color |
| Scenarios.ExampleNames | src/main/java/com/assecor/assessment/repository/ColorJpaRepository.java:11 | "rot" matches "ROT" and "blau" matches "BLAU"; "blau" and "grün" differ, as do "rot" and "purple" |
| Scenarios.DuplicateColorName | src/main/java/com/assecor/assessment/service/impl/ColorServiceImpl.java:53-57 | creating "rot" succeeds, and creating "ROT" afterwards is DuplicateName |
| Scenarios.RenameColor | src/main/java/com/assecor/assessment/service/impl/ColorServiceImpl.java:76-86 | with "blau" and "grün" stored, renaming "blau" to "grün" conflicts, and renaming it to "BLAU" succeeds and keeps its id |
| Scenarios.OneGruenBesideDuplicates | src/main/java/com/assecor/assessment/service/impl/ColorServiceImpl.java:76-79 | a table holding "blau", "grün", "x" and "X" breaks name uniqueness yet has a single match for "grün", held by a color other than "blau" |
| Scenarios.RenameBesideCaseDuplicates | src/main/java/com/assecor/assessment/service/impl/ColorServiceImpl.java:76-79 | renaming "blau" to "grün" conflicts even in a table that also holds both "x" and "X" |
| Scenarios.PersonColorResolution | src/main/java/com/assecor/assessment/service/impl/PersonServiceImpl.java:86-143 | deleting id 999 answers false; updating it gives an empty result; a person with color "rot" is saved with the stored "rot"; "purple" gives ColorNotFound |

## Left out

- Logging (SLF4J) and the Micrometer counters in `PersonServiceImpl`. They
  are side effects with no bearing on the results. `MetricsConfig.java` is
  not part of this model.
- The REST controllers and their HTTP status mapping, the service
  interfaces (declarations only), and the bean-validation annotations. The
  request layer enforces those before the services run, so the model
  accepts any strings.
- Mutation of arguments in place. The source calls `color.setId(id)`,
  `person.setColor(...)` and `person.setId(...)` on the caller's objects.
  The model treats records as values and returns the changed value, so the
  caller's object is not shown changing.
- Null strings. The model's `name`, `lastname`, `zipcode`, `city` and color
  name are never null. The mapper copies them unchanged in either case. Only
  the null person, the null transfer object and the null color are modelled.
- Repositories.ColorRepository.FindByNameIgnoreCase: when two stored colors
  match ignoring case, Spring Data raises an error for an `Optional` query.
  The model instead returns one of the matches. In this case every service
  contract either states what it does or is conditioned on `NamesUnique` or
  on the submitted name having a single match (`SingleMatch`).
- Repositories.PersonRepository.Save: for a person that carries an id, JPA's
  `merge` returns a managed copy whose color is reloaded from the color
  table. The model returns the candidate with its id. `ResolvedReadsBack`
  shows the two agree when the submitted color is name-only, since
  resolution then puts in a stored color, or is absent, or equals its stored
  row. Name-only colors are the only kind a request produces
  (`PersonMapper.java:38-42`). A color submitted with an id but a different
  name (say id 1 with name "whatever" while 1 holds "blau") is returned by
  the model as submitted, while the source's merge returns "blau".
- Save overwriting a given id that is not stored. The model inserts a row at
  that id. Real identity columns may instead throw or pick a new id.
- Database constraints: the `unique` and `nullable = false` columns and the
  foreign key on `color_id`. A person row that refers to a deleted color
  reads as having no color, and the search never matches it. Whether the
  database would have refused the delete is not modelled. Neither is the
  case-sensitive unique index as a backstop.
- Full Unicode case folding. `Lower` changes only ASCII letters.
- Id exhaustion. Ids are unbounded integers, so the 64-bit `long` range is
  not enforced.
- The race between the check and the write under concurrent requests. The
  model is sequential.
- Result order of `findAll` and the search. The model promises membership
  and no duplicates, not an order.
