/** The two persisted entities, colors and persons, as values, and the outcomes
    of the service operations. Java's nullable references become `Option`. */
module Entities {

  datatype Option<+T> = None | Some(value: T)

  /** Java's 32-bit `int`, the type of the person service's id parameters.
      Widening it to the store's `long` keys keeps its value. */
  type Int32 = x: int | -0x8000_0000 <= x < 0x8000_0000

  /** A color: a surrogate id (absent until the store assigns one) and a name. */
  datatype Color = Color(id: Option<int>, name: string)

  /** A person as the services see it: the color is the whole color entity,
      or absent. */
  datatype Person = Person(
    id: Option<int>,
    name: string,
    lastname: string,
    zipcode: string,
    city: string,
    color: Option<Color>)

  /** The result of a service operation: a value, or one of the failures the
      services signal (by exception in the source). */
  datatype Outcome<+T> =
    | Ok(value: T)
    | NotFound
    | DuplicateName
    | NameConflict
    | ColorNotFound
}
