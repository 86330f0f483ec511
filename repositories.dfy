/** The two stores the services talk to: the color table (`ColorJpaRepository`)
    and the person table (`PersonJpaRepository`). Each is a map from id to row.
    A person row holds its color as a foreign key, and every read joins it with
    the color table, so a person is always seen with the color's current name. */
module Repositories {
  import opened Entities
  import opened IgnoreCase

  // ---------------------------------------------------------------- colors

  /** Some stored color has `name`, ignoring case. */
  ghost predicate NameTaken(colors: map<int, Color>, name: string) {
    exists k :: k in colors && SameName(colors[k].name, name)
  }

  /** `c` is exactly the color stored under its own id. */
  ghost predicate StoredColor(colors: map<int, Color>, c: Color) {
    c.id.Some? && c.id.value in colors && colors[c.id.value] == c
  }

  /** No two stored colors have names that differ only in letter case. */
  ghost predicate NamesUnique(colors: map<int, Color>) {
    forall j, k :: j in colors && k in colors && SameName(colors[j].name, colors[k].name) ==> j == k
  }

  /** `save` of `candidate` turned the table `before` into `after` and returned
      `saved`: a candidate without id gets a fresh one, a candidate with an id
      overwrites the row at that id; either way the row holds `saved`. */
  ghost predicate ColorSavedAs(before: map<int, Color>, after: map<int, Color>, candidate: Color, saved: Color) {
    && saved.id.Some?
    && saved == candidate.(id := saved.id)
    && (candidate.id.Some? ==> saved.id == candidate.id)
    && (candidate.id.None? ==> saved.id.value !in before)
    && after == before[saved.id.value := saved]
  }

  class ColorRepository {
    var colors: map<int, Color>
    /** The next id the identity column hands out. */
    var nextId: int

    /** Every row carries its own key as id, and every key is below `nextId`. */
    ghost predicate Valid()
      reads this
    {
      forall k :: k in colors ==> colors[k].id == Some(k) && k < nextId
    }

    constructor ()
      ensures Valid() && colors == map[]
    {
      colors := map[];
      nextId := 1;
    }

    /** `findAll`: every stored color, each once, in no particular order. */
    method FindAll() returns (all: seq<Color>)
      requires Valid()
      ensures forall i :: 0 <= i < |all| ==> StoredColor(colors, all[i])
      ensures forall k :: k in colors ==> colors[k] in all
      ensures forall i, j :: 0 <= i < j < |all| ==> all[i] != all[j]
    {
      all := [];
      var remaining := colors.Keys;
      while remaining != {}
        invariant remaining <= colors.Keys
        invariant forall i :: 0 <= i < |all| ==> StoredColor(colors, all[i]) && all[i].id.value !in remaining
        invariant forall k :: k in colors.Keys - remaining ==> colors[k] in all
        invariant forall i, j :: 0 <= i < j < |all| ==> all[i] != all[j]
        decreases remaining
      {
        assert (forall x :: x !in remaining) ==> remaining == {};
        var k :| k in remaining;
        all := all + [colors[k]];
        remaining := remaining - {k};
      }
    }

    /** `findById`: the color at `id`, or nothing. */
    method FindById(id: int) returns (found: Option<Color>)
      ensures found.Some? <==> id in colors
      ensures found.Some? ==> found.value == colors[id]
    {
      found := if id in colors then Some(colors[id]) else None;
    }

    /** `findByNameIgnoreCase`: a stored color whose name equals `name` up to
        letter case, or nothing when there is none. */
    method FindByNameIgnoreCase(name: string) returns (found: Option<Color>)
      requires Valid()
      ensures found.Some? ==> StoredColor(colors, found.value) && SameName(found.value.name, name)
      ensures found.None? <==> !NameTaken(colors, name)
    {
      var remaining := colors.Keys;
      while remaining != {}
        invariant remaining <= colors.Keys
        invariant forall k :: k in colors.Keys - remaining ==> !SameName(colors[k].name, name)
        decreases remaining
      {
        assert (forall x :: x !in remaining) ==> remaining == {};
        var k :| k in remaining;
        if SameName(colors[k].name, name) {
          return Some(colors[k]);
        }
        remaining := remaining - {k};
      }
      return None;
    }

    /** `save`: inserts under a fresh id or overwrites the row at the given id. */
    method Save(color: Color) returns (saved: Color)
      requires Valid()
      modifies this
      ensures Valid()
      ensures ColorSavedAs(old(colors), colors, color, saved)
    {
      var key: int;
      if color.id.None? {
        key := nextId;
        nextId := nextId + 1;
      } else {
        key := color.id.value;
        if nextId <= key {
          nextId := key + 1;
        }
      }
      saved := color.(id := Some(key));
      colors := colors[key := saved];
    }

    /** `deleteById`: removes the row at `id`; an absent id is ignored. */
    method DeleteById(id: int)
      requires Valid()
      modifies this
      ensures Valid()
      ensures colors == old(colors) - {id}
    {
      colors := colors - {id};
    }
  }

  // ---------------------------------------------------------------- persons

  /** The columns of a person row; the color is held by its id only. */
  datatype PersonRow = PersonRow(
    name: string,
    lastname: string,
    zipcode: string,
    city: string,
    colorId: Option<int>)

  /** The row written for a person: its fields, and its color's id as the
      foreign key. */
  function RowOf(p: Person): (row: PersonRow)
    ensures row.colorId.Some? ==> p.color.Some? && row.colorId == p.color.value.id
  {
    PersonRow(p.name, p.lastname, p.zipcode, p.city,
              if p.color.Some? then p.color.value.id else None)
  }

  /** The person read back from row `row` at key `id`, joined with the color
      table; a reference to a color that is no longer stored reads as no color. */
  function Join(id: int, row: PersonRow, colors: map<int, Color>): (p: Person)
    ensures p.id == Some(id)
    ensures p.color.Some? <==> row.colorId.Some? && row.colorId.value in colors
    ensures p.color.Some? ==> p.color.value == colors[row.colorId.value]
  {
    Person(Some(id), row.name, row.lastname, row.zipcode, row.city,
           if row.colorId.Some? && row.colorId.value in colors
           then Some(colors[row.colorId.value]) else None)
  }

  /** A person whose color is absent or stored under its own id reads back
      unchanged from the row written for it. */
  lemma ReadBackSaved(id: int, p: Person, colors: map<int, Color>)
    requires p.id == Some(id)
    requires p.color.Some? ==> StoredColor(colors, p.color.value)
    ensures Join(id, RowOf(p), colors) == p
  {
  }

  /** The person's current color has `name`, ignoring case; a person without
      a color never matches (the query joins on the color). */
  predicate HasColorNamed(p: Person, name: string) {
    p.color.Some? && SameName(p.color.value.name, name)
  }

  /** `save` of `candidate` turned the rows `before` into `after` and returned
      `saved`, as for colors; the row holds the candidate's fields and the id
      of its color. */
  ghost predicate PersonSavedAs(before: map<int, PersonRow>, after: map<int, PersonRow>, candidate: Person, saved: Person) {
    && saved.id.Some?
    && saved == candidate.(id := saved.id)
    && (candidate.id.Some? ==> saved.id == candidate.id)
    && (candidate.id.None? ==> saved.id.value !in before)
    && after == before[saved.id.value := RowOf(saved)]
  }

  class PersonRepository {
    /** The color table the foreign keys point into. */
    const colorTable: ColorRepository
    var rows: map<int, PersonRow>
    var nextId: int

    ghost predicate Valid()
      reads this
    {
      forall k :: k in rows ==> k < nextId
    }

    constructor (colorTable: ColorRepository)
      ensures Valid() && rows == map[] && this.colorTable == colorTable
    {
      this.colorTable := colorTable;
      rows := map[];
      nextId := 1;
    }

    /** `p` is the person stored under its own id, as a read returns it. */
    ghost predicate Stored(p: Person)
      reads this, colorTable
    {
      p.id.Some? && p.id.value in rows && p == Join(p.id.value, rows[p.id.value], colorTable.colors)
    }

    /** `findAll`: every stored person, each once, with its current color. */
    method FindAll() returns (all: seq<Person>)
      ensures forall i :: 0 <= i < |all| ==> Stored(all[i])
      ensures forall k :: k in rows ==> Join(k, rows[k], colorTable.colors) in all
      ensures forall i, j :: 0 <= i < j < |all| ==> all[i] != all[j]
    {
      all := [];
      var remaining := rows.Keys;
      while remaining != {}
        invariant remaining <= rows.Keys
        invariant forall i :: 0 <= i < |all| ==> Stored(all[i]) && all[i].id.value !in remaining
        invariant forall k :: k in rows.Keys - remaining ==> Join(k, rows[k], colorTable.colors) in all
        invariant forall i, j :: 0 <= i < j < |all| ==> all[i] != all[j]
        decreases remaining
      {
        assert (forall x :: x !in remaining) ==> remaining == {};
        var k :| k in remaining;
        all := all + [Join(k, rows[k], colorTable.colors)];
        remaining := remaining - {k};
      }
    }

    /** `findById`: the person at `id` with its current color, or nothing. */
    method FindById(id: int) returns (found: Option<Person>)
      ensures found.Some? <==> id in rows
      ensures found.Some? ==> found.value == Join(id, rows[id], colorTable.colors)
    {
      found := if id in rows then Some(Join(id, rows[id], colorTable.colors)) else None;
    }

    /** `findByColorNameIgnoreCase`: exactly the stored persons whose current
        color's name equals `name` up to letter case, each once. */
    method FindByColorNameIgnoreCase(name: string) returns (found: seq<Person>)
      ensures forall i :: 0 <= i < |found| ==> Stored(found[i]) && HasColorNamed(found[i], name)
      ensures forall k :: k in rows && HasColorNamed(Join(k, rows[k], colorTable.colors), name) ==>
                Join(k, rows[k], colorTable.colors) in found
      ensures forall i, j :: 0 <= i < j < |found| ==> found[i] != found[j]
    {
      found := [];
      var remaining := rows.Keys;
      while remaining != {}
        invariant remaining <= rows.Keys
        invariant forall i :: 0 <= i < |found| ==>
                    Stored(found[i]) && HasColorNamed(found[i], name) && found[i].id.value !in remaining
        invariant forall k :: k in rows.Keys - remaining && HasColorNamed(Join(k, rows[k], colorTable.colors), name) ==>
                    Join(k, rows[k], colorTable.colors) in found
        invariant forall i, j :: 0 <= i < j < |found| ==> found[i] != found[j]
        decreases remaining
      {
        assert (forall x :: x !in remaining) ==> remaining == {};
        var k :| k in remaining;
        var p := Join(k, rows[k], colorTable.colors);
        if HasColorNamed(p, name) {
          found := found + [p];
        }
        remaining := remaining - {k};
      }
    }

    /** `save`: inserts under a fresh id or overwrites the row at the given id. */
    method Save(person: Person) returns (saved: Person)
      requires Valid()
      modifies this
      ensures Valid()
      ensures PersonSavedAs(old(rows), rows, person, saved)
    {
      var key: int;
      if person.id.None? {
        key := nextId;
        nextId := nextId + 1;
      } else {
        key := person.id.value;
        if nextId <= key {
          nextId := key + 1;
        }
      }
      saved := person.(id := Some(key));
      rows := rows[key := RowOf(saved)];
    }

    /** `deleteById`: removes the row at `id`; an absent id is ignored. */
    method DeleteById(id: int)
      requires Valid()
      modifies this
      ensures Valid()
      ensures rows == old(rows) - {id}
    {
      rows := rows - {id};
    }
  }
}
