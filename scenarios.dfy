/** Worked scenarios for the two services, proved from their contracts alone:
    each starts from empty stores, as a client of the services would. */
module Scenarios {
  import opened Entities
  import opened IgnoreCase
  import opened Repositories
  import opened ColorServices
  import opened PersonServices

  /** "rot" and "ROT" differ only in letter case; "blau" and "grün" do not. */
  lemma ExampleNames()
    ensures SameName("rot", "ROT")
    ensures SameName("blau", "BLAU")
    ensures !SameName("blau", "grün")
    ensures !SameName("rot", "purple")
  {
    assert Lower("ROT") == "rot";
    assert Lower("rot") == "rot";
    assert Lower("BLAU") == "blau";
    assert Lower("blau") == "blau";
    assert Lower("grün")[0] == 'g';
    DifferentLengthsDiffer("rot", "purple");
  }

  /** Creating "rot" succeeds; creating "ROT" afterwards is rejected as a
      duplicate. */
  method DuplicateColorName() returns (first: Outcome<Color>, second: Outcome<Color>)
    ensures first.Ok? && first.value.name == "rot"
    ensures second.DuplicateName?
  {
    var colors := new ColorRepository();
    var service := new ColorService(colors);
    first := service.CreateColor(Color(None, "rot"));
    ExampleNames();
    var k := first.value.id.value;
    assert k in colors.colors && SameName(colors.colors[k].name, "ROT");
    assert NameTaken(colors.colors, "ROT");
    second := service.CreateColor(Color(None, "ROT"));
  }

  /** With "blau" and "grün" stored, renaming "blau" to "grün" conflicts, and
      renaming it to "BLAU" succeeds and keeps its id. */
  method RenameColor() returns (blau: Outcome<Color>, conflict: Outcome<Color>, selfRename: Outcome<Color>)
    ensures blau.Ok? && blau.value.name == "blau"
    ensures conflict.NameConflict?
    ensures selfRename.Ok? && selfRename.value.name == "BLAU" && selfRename.value.id == blau.value.id
  {
    var colors := new ColorRepository();
    var service := new ColorService(colors);
    ExampleNames();
    blau := service.CreateColor(Color(None, "blau"));
    var gruen := service.CreateColor(Color(None, "grün"));
    assert NamesUnique(colors.colors);
    var blauId := blau.value.id.value;
    var gruenId := gruen.value.id.value;
    assert colors.colors[gruenId].name == "grün";
    assert NameTakenByOther(colors.colors, "grün", blauId);
    conflict := service.UpdateColor(blauId, Color(None, "grün"));
    assert colors.colors[blauId].name == "blau";
    SelfRenameIsNoConflict(colors.colors, blauId, "BLAU");
    selfRename := service.UpdateColor(blauId, Color(None, "BLAU"));
  }

  /** A table holding "blau", "grün", "x" and "X" has a case duplicate, yet
      only one color named "grün", and that is not the one at `b`. */
  lemma OneGruenBesideDuplicates(colors: map<int, Color>, b: int, g: int, x: int, upperX: int)
    requires colors.Keys == {b, g, x, upperX} && x != upperX
    requires colors[b].name == "blau" && colors[g].name == "grün"
    requires colors[x].name == "x" && colors[upperX].name == "X"
    ensures !NamesUnique(colors)
    ensures SingleMatch(colors, "grün") && NameTakenByOther(colors, "grün", b)
  {
    assert SameName(colors[x].name, colors[upperX].name) by {
      assert Lower("X") == "x" == Lower("x");
    }
    assert SameName(colors[g].name, "grün");
    forall j | j in colors && SameName(colors[j].name, "grün")
      ensures j == g
    {
      if j == b {
        ExampleNames();
        assert false;
      } else if j == x || j == upperX {
        assert false;
      }
    }
  }

  /** Renaming "blau" to "grün" conflicts even in a table that already holds
      "x" and "X" (written past the service), because only one stored color
      is named "grün". */
  method RenameBesideCaseDuplicates() returns (conflict: Outcome<Color>)
    ensures conflict.NameConflict?
  {
    var colors := new ColorRepository();
    var service := new ColorService(colors);
    var blau := colors.Save(Color(None, "blau"));
    var gruen := colors.Save(Color(None, "grün"));
    var x := colors.Save(Color(None, "x"));
    var upperX := colors.Save(Color(None, "X"));
    OneGruenBesideDuplicates(colors.colors, blau.id.value, gruen.id.value, x.id.value, upperX.id.value);
    conflict := service.UpdateColor(blau.id.value, Color(None, "grün"));
  }

  /** Deleting an unknown id answers false; updating one gives an empty
      result even with an unknown color; a person submitted with color
      "rot" is saved with the stored color "rot" and its id; one submitted with
      "purple" fails and nothing is saved. */
  method PersonColorResolution()
    returns (deleted: bool, missing: Outcome<Option<Person>>, rot: Outcome<Color>,
             created: Outcome<Person>, unknown: Outcome<Person>)
    ensures rot.Ok? && rot.value.name == "rot" && rot.value.id.Some?
    ensures created.Ok? && created.value.color == Some(rot.value)
    ensures unknown.ColorNotFound?
    ensures !deleted
    ensures missing == Ok(None)
  {
    var colors := new ColorRepository();
    var persons := new PersonRepository(colors);
    var colorService := new ColorService(colors);
    var personService := new PersonService(persons, colors);
    deleted := personService.DeletePerson(999);
    missing := personService.UpdatePerson(999,
      Person(None, "John", "Doe", "12345", "TestCity", Some(Color(None, "purple"))));
    rot := colorService.CreateColor(Color(None, "rot"));
    ExampleNames();
    var rotId := rot.value.id.value;
    assert rotId in colors.colors && SameName(colors.colors[rotId].name, "rot");
    created := personService.CreatePerson(
      Person(None, "John", "Doe", "12345", "TestCity", Some(Color(None, "rot"))));
    assert NamesUnique(colors.colors);
    ResolutionIsCanonical(colors.colors,
      Person(None, "John", "Doe", "12345", "TestCity", Some(Color(None, "rot"))),
      created.value.(id := None), rotId);
    assert colors.colors.Keys == {rotId};
    unknown := personService.CreatePerson(
      Person(None, "Jane", "Doe", "12345", "TestCity", Some(Color(None, "purple"))));
    assert persons.rows.Keys == {created.value.id.value};
  }
}
