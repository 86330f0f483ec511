/** The color service (`ColorServiceImpl`): create, read, update and delete of
    colors, keeping color names unique up to letter case. */
module ColorServices {
  import opened Entities
  import opened IgnoreCase
  import opened Repositories

  /** A color other than the one at `id` has `name`, ignoring case. */
  ghost predicate NameTakenByOther(colors: map<int, Color>, name: string, id: int) {
    exists k :: k in colors && k != id && SameName(colors[k].name, name)
  }

  /** At most one stored color has `name`, ignoring case: the case in which a
      case-insensitive lookup of `name` has a single possible answer. */
  ghost predicate SingleMatch(colors: map<int, Color>, name: string) {
    forall j, k ::
      (j in colors && k in colors &&
       SameName(colors[j].name, name) && SameName(colors[k].name, name)) ==> j == k
  }

  /** Unique names leave every name at most one match. */
  lemma UniqueNamesGiveSingleMatch(colors: map<int, Color>, name: string)
    requires NamesUnique(colors)
    ensures SingleMatch(colors, name)
  {
    forall j, k | j in colors && k in colors &&
      SameName(colors[j].name, name) && SameName(colors[k].name, name)
      ensures j == k
    {
      SameNameIsEquivalence();
      assert SameName(colors[j].name, colors[k].name);
    }
  }

  /** Writing a color whose name no stored color has keeps names unique,
      whether it lands on a fresh key or overwrites one. */
  lemma InsertKeepsNamesUnique(colors: map<int, Color>, key: int, c: Color)
    requires NamesUnique(colors)
    requires !NameTaken(colors, c.name)
    ensures NamesUnique(colors[key := c])
  {
    var after := colors[key := c];
    forall j, k | j in after && k in after && SameName(after[j].name, after[k].name)
      ensures j == k
    {
      if j != key && k != key {
        assert after[j] == colors[j] && after[k] == colors[k];
      }
    }
  }

  /** Renaming the color at `id` to a name no other color has keeps names unique. */
  lemma RenameKeepsNamesUnique(colors: map<int, Color>, id: int, c: Color)
    requires NamesUnique(colors)
    requires !NameTakenByOther(colors, c.name, id)
    ensures NamesUnique(colors[id := c])
  {
    var after := colors[id := c];
    forall j, k | j in after && k in after && SameName(after[j].name, after[k].name)
      ensures j == k
    {
      if j != id && k != id {
        assert after[j] == colors[j] && after[k] == colors[k];
      }
    }
  }

  /** Under unique names, the color at `id` renamed to its own name in any
      casing ("blau" to "BLAU") collides with no other color. */
  lemma SelfRenameIsNoConflict(colors: map<int, Color>, id: int, name: string)
    requires NamesUnique(colors)
    requires id in colors && SameName(colors[id].name, name)
    ensures !NameTakenByOther(colors, name, id)
  {
    if k :| k in colors && k != id && SameName(colors[k].name, name) {
      assert SameName(colors[k].name, colors[id].name);
      assert false;
    }
  }

  /** When the name has a single match, a lookup that finds the color at `id`
      means that no other color has the name. */
  lemma MatchAtIdExcludesOthers(colors: map<int, Color>, id: int, found: Color, name: string)
    requires SingleMatch(colors, name)
    requires StoredColor(colors, found) && found.id == Some(id) && SameName(found.name, name)
    ensures !NameTakenByOther(colors, name, id)
  {
  }

  class ColorService {
    const repository: ColorRepository

    constructor (repository: ColorRepository)
      ensures this.repository == repository
    {
      this.repository := repository;
    }

    /** `getAllColors`: every stored color, each once, unfiltered. */
    method GetAllColors() returns (colors: seq<Color>)
      requires repository.Valid()
      ensures forall i :: 0 <= i < |colors| ==> StoredColor(repository.colors, colors[i])
      ensures forall k :: k in repository.colors ==> repository.colors[k] in colors
      ensures forall i, j :: 0 <= i < j < |colors| ==> colors[i] != colors[j]
    {
      colors := repository.FindAll();
    }

    /** `getColorById`: the color at `id`; absence is a normal outcome. */
    method GetColorById(id: int) returns (found: Option<Color>)
      requires repository.Valid()
      ensures found.Some? <==> id in repository.colors
      ensures found.Some? ==> found.value == repository.colors[id] && found.value.id == Some(id)
    {
      found := repository.FindById(id);
    }

    /** `createColor`: rejects a name some color already has in any casing,
        and otherwise saves the candidate and returns it with its id. */
    method CreateColor(color: Color) returns (r: Outcome<Color>)
      requires repository.Valid()
      modifies repository
      ensures repository.Valid()
      ensures r.Ok? || r.DuplicateName?
      ensures r.DuplicateName? <==> NameTaken(old(repository.colors), color.name)
      ensures r.DuplicateName? ==> repository.colors == old(repository.colors)
      ensures r.Ok? ==> ColorSavedAs(old(repository.colors), repository.colors, color, r.value)
      ensures NamesUnique(old(repository.colors)) ==> NamesUnique(repository.colors)
    {
      var existing := repository.FindByNameIgnoreCase(color.name);
      if existing.Some? {
        return DuplicateName;
      }
      var saved := repository.Save(color);
      return Ok(saved);
    }

    /** `updateColor`: rejects an unknown id, then a name that a different
        color has in any casing; otherwise forces the id to `id` and overwrites
        the color there. */
    method UpdateColor(id: int, color: Color) returns (r: Outcome<Color>)
      requires repository.Valid()
      modifies repository
      ensures repository.Valid()
      ensures r.Ok? || r.NotFound? || r.NameConflict?
      ensures r.NotFound? <==> id !in old(repository.colors)
      ensures r.NameConflict? ==> NameTakenByOther(old(repository.colors), color.name, id)
      ensures id in old(repository.colors) && !NameTakenByOther(old(repository.colors), color.name, id) ==> r.Ok?
      ensures (SingleMatch(old(repository.colors), color.name) && id in old(repository.colors) &&
               NameTakenByOther(old(repository.colors), color.name, id)) ==> r.NameConflict?
      ensures !r.Ok? ==> repository.colors == old(repository.colors)
      ensures r.Ok? ==> r.value == color.(id := Some(id)) &&
                        repository.colors == old(repository.colors)[id := r.value]
      ensures NamesUnique(old(repository.colors)) ==> NamesUnique(repository.colors)
    {
      var existing := repository.FindById(id);
      if existing.None? {
        return NotFound;
      }
      var sameName := repository.FindByNameIgnoreCase(color.name);
      if sameName.Some? && sameName.value.id.value != id {
        return NameConflict;
      }
      var updated := repository.Save(color.(id := Some(id)));
      return Ok(updated);
    }

    /** `deleteColor`: rejects an unknown id, and otherwise removes exactly
        that color, whether or not persons refer to it. */
    method DeleteColor(id: int) returns (r: Outcome<()>)
      requires repository.Valid()
      modifies repository
      ensures repository.Valid()
      ensures r.Ok? || r.NotFound?
      ensures r.NotFound? <==> id !in old(repository.colors)
      ensures repository.colors == old(repository.colors) - {id}
      ensures NamesUnique(old(repository.colors)) ==> NamesUnique(repository.colors)
    {
      var existing := repository.FindById(id);
      if existing.None? {
        return NotFound;
      }
      repository.DeleteById(id);
      return Ok(());
    }
  }
}
