/** The Category routes: add a drawing to a category, delete a drawing from a
    category, delete a category, and list the drawings of a project. */
module CategoryRoutes {
  import opened Documents
  import opened RegisterSchema
  import opened RefLists
  import opened Database

  /** POST /:categoryId/add-drawing. The Drawing is saved BEFORE the category
      is looked up: with a missing category the answer is NotFound and the new
      Drawing stays behind, referenced by nothing. Only drawingNumber,
      description, title, size and revisions are taken from the body, so the
      Drawing never has a project number. */
  method AddDrawingToCategory(db: Store, categoryId: Id, body: DrawingBody) returns (r: Outcome<Category>)
    requires db.Valid()
    modifies db
    ensures db.Valid()
    ensures var id := old(db.nextId);
            var saved := old(db.State()).(drawings := old(db.drawings)[id := NewDrawing(body.(projectNumber := None))],
                                          nextId := id + 1);
            && id !in old(db.drawings)
            && if categoryId !in old(db.categories) then
                 r == NotFound && db.State() == saved
               else
                 var category := old(db.categories)[categoryId];
                 && r == Ok(category.(drawings := category.drawings + [id]))
                 && db.State() == saved.(categories := old(db.categories)[categoryId := r.value])
    ensures old(db.nextId) in db.drawings && db.drawings[old(db.nextId)].projectNumber.None?
    ensures old(db.State()).RefsResolve() ==> db.State().RefsResolve()
  {
    var drawing := NewDrawing(DrawingBody(body.drawingNumber, None, body.description, body.title,
                                          body.size, body.revisions));
    var id := db.FreshId();
    db.drawings := db.drawings[id := drawing];
    if categoryId !in db.categories {
      return NotFound;
    }
    var category := db.categories[categoryId];
    category := category.(drawings := category.drawings + [id]);
    db.categories := db.categories[categoryId := category];
    r := Ok(category);
  }

  /** DELETE /:categoryId/delete-drawing/:drawingId. NotFound without change
      when the category is missing or does not list the drawing. Otherwise
      every occurrence is filtered out of that category's list, and then the
      Drawing document is deleted. Other categories listing the same drawing
      are not touched and keep a dangling reference; references stay resolved
      when no other category lists it. */
  method DeleteDrawingFromCategory(db: Store, categoryId: Id, drawingId: Id) returns (r: Outcome<()>)
    requires db.Valid()
    modifies db
    ensures db.Valid()
    ensures categoryId !in old(db.categories) || drawingId !in old(db.categories)[categoryId].drawings ==>
              r == NotFound && db.State() == old(db.State())
    ensures categoryId in old(db.categories) && drawingId in old(db.categories)[categoryId].drawings ==>
              var category := old(db.categories)[categoryId];
              && r == Ok(())
              && db.State() == old(db.State()).(
                   categories := old(db.categories)[categoryId := category.(drawings := RemoveAll(category.drawings, drawingId))],
                   drawings := old(db.drawings) - {drawingId})
    ensures && old(db.State()).RefsResolve()
            && (forall c :: c in old(db.categories) && c != categoryId ==> drawingId !in old(db.categories)[c].drawings)
            ==> db.State().RefsResolve()
  {
    if categoryId !in db.categories {
      return NotFound;
    }
    var category := db.categories[categoryId];
    if drawingId !in category.drawings {
      return NotFound;
    }
    category := category.(drawings := RemoveAll(category.drawings, drawingId));
    db.categories := db.categories[categoryId := category];
    db.drawings := db.drawings - {drawingId};
    r := Ok(());
  }

  /** DELETE /:id: NotFound without change when the category is missing;
      otherwise only the Category is removed. Registers listing it keep the
      identifier, and its Drawings stay; references stay resolved when no
      register lists it. */
  method DeleteCategory(db: Store, id: Id) returns (r: Outcome<()>)
    requires db.Valid()
    modifies db
    ensures db.Valid()
    ensures id !in old(db.categories) ==> r == NotFound && db.State() == old(db.State())
    ensures id in old(db.categories) ==>
              r == Ok(()) && db.State() == old(db.State()).(categories := old(db.categories) - {id})
    ensures && old(db.State()).RefsResolve()
            && (forall g :: g in old(db.registers) ==> id !in old(db.registers)[g].categories)
            ==> db.State().RefsResolve()
  {
    if id !in db.categories {
      return NotFound;
    }
    db.categories := db.categories - {id};
    r := Ok(());
  }

  /** Resolving a list of Drawing identifiers into documents, as `populate`
      does: list order is kept and identifiers with no document are dropped. */
  function Resolve(ids: seq<Id>, drawings: map<Id, Drawing>): (r: seq<Drawing>)
    ensures |r| <= |ids|
    ensures forall d :: d in r ==> d in drawings.Values
  {
    if ids == [] then []
    else
      var last := ids[|ids| - 1];
      Resolve(ids[..|ids| - 1], drawings) + (if last in drawings then [drawings[last]] else [])
  }

  /** The populated drawings of a list of categories, concatenated in order. */
  function CategoriesDrawings(categoryIds: seq<Id>, categories: map<Id, Category>, drawings: map<Id, Drawing>): (r: seq<Drawing>)
    ensures forall d :: d in r ==> d in drawings.Values
  {
    if categoryIds == [] then []
    else
      var last := categoryIds[|categoryIds| - 1];
      CategoriesDrawings(categoryIds[..|categoryIds| - 1], categories, drawings)
        + (if last in categories then Resolve(categories[last].drawings, drawings) else [])
  }

  /** GET /drawings/:projectNumber: for each Register with that project
      number, in the collection's order, the populated drawings of each of its
      categories, in order, all concatenated. */
  function ProjectDrawings(registers: seq<Register>, projectNumber: int,
                           categories: map<Id, Category>, drawings: map<Id, Drawing>): (r: seq<Drawing>)
    ensures forall d :: d in r ==> d in drawings.Values
  {
    if registers == [] then []
    else
      var last := registers[|registers| - 1];
      ProjectDrawings(registers[..|registers| - 1], projectNumber, categories, drawings)
        + (if last.projectNumber == Some(projectNumber) then CategoriesDrawings(last.categories, categories, drawings) else [])
  }

  /** The nested `forEach`/`push` loops of the handler, over the registers of
      the collection in order (the query's filter is the `if`). */
  method CollectProjectDrawings(registers: seq<Register>, projectNumber: int,
                                categories: map<Id, Category>, drawings: map<Id, Drawing>)
    returns (all: seq<Drawing>)
    ensures all == ProjectDrawings(registers, projectNumber, categories, drawings)
  {
    all := [];
    var i := 0;
    while i < |registers|
      invariant 0 <= i <= |registers|
      invariant all == ProjectDrawings(registers[..i], projectNumber, categories, drawings)
    {
      var register := registers[i];
      assert registers[..i + 1][..i] == registers[..i];
      if register.projectNumber == Some(projectNumber) {
        var j := 0;
        while j < |register.categories|
          invariant 0 <= j <= |register.categories|
          invariant all == ProjectDrawings(registers[..i], projectNumber, categories, drawings)
                           + CategoriesDrawings(register.categories[..j], categories, drawings)
        {
          var c := register.categories[j];
          assert register.categories[..j + 1][..j] == register.categories[..j];
          if c in categories {
            all := all + Resolve(categories[c].drawings, drawings);
          }
          j := j + 1;
        }
        assert register.categories[..j] == register.categories;
      }
      i := i + 1;
    }
    assert registers[..i] == registers;
  }

  /** The listing distributes over the register collection: the drawings of
      earlier registers all come before those of later ones. */
  lemma {:induction false} ProjectDrawingsAppend(a: seq<Register>, b: seq<Register>, projectNumber: int,
                                                 categories: map<Id, Category>, drawings: map<Id, Drawing>)
    ensures ProjectDrawings(a + b, projectNumber, categories, drawings)
            == ProjectDrawings(a, projectNumber, categories, drawings) + ProjectDrawings(b, projectNumber, categories, drawings)
    decreases |b|
  {
    if b == [] {
      assert a + b == a;
    } else {
      var b' := b[..|b| - 1];
      assert (a + b)[..|a + b| - 1] == a + b';
      assert (a + b)[|a + b| - 1] == b[|b| - 1];
      ProjectDrawingsAppend(a, b', projectNumber, categories, drawings);
    }
  }

  /** Registers of other projects contribute nothing. */
  lemma {:induction false} ProjectDrawingsOtherProjects(registers: seq<Register>, projectNumber: int,
                                                        categories: map<Id, Category>, drawings: map<Id, Drawing>)
    requires forall g :: 0 <= g < |registers| ==> registers[g].projectNumber != Some(projectNumber)
    ensures ProjectDrawings(registers, projectNumber, categories, drawings) == []
    decreases |registers|
  {
    if registers != [] {
      ProjectDrawingsOtherProjects(registers[..|registers| - 1], projectNumber, categories, drawings);
    }
  }

  /** A drawing is resolved from a list exactly when some listed identifier
      names it. */
  lemma {:induction false} ResolveMembers(ids: seq<Id>, drawings: map<Id, Drawing>, d: Drawing)
    ensures d in Resolve(ids, drawings) <==> exists x :: x in ids && x in drawings && drawings[x] == d
    decreases |ids|
  {
    if ids != [] {
      var init := ids[..|ids| - 1];
      var last := ids[|ids| - 1];
      ResolveMembers(init, drawings, d);
      assert ids == init + [last];
      if d in Resolve(ids, drawings) && d !in Resolve(init, drawings) {
        assert last in ids && last in drawings && drawings[last] == d;
      }
      if exists x :: x in ids && x in drawings && drawings[x] == d {
        var x :| x in ids && x in drawings && drawings[x] == d;
        if x != last {
          assert x in init;
        }
      }
    }
  }

  /** A drawing is listed for a category list exactly when one of the stored
      categories in the list names it and it is stored. */
  lemma {:induction false} CategoriesDrawingsMembers(categoryIds: seq<Id>, categories: map<Id, Category>,
                                                     drawings: map<Id, Drawing>, d: Drawing)
    ensures d in CategoriesDrawings(categoryIds, categories, drawings) <==>
            exists c :: c in categoryIds && c in categories && d in Resolve(categories[c].drawings, drawings)
    decreases |categoryIds|
  {
    if categoryIds != [] {
      var init := categoryIds[..|categoryIds| - 1];
      var last := categoryIds[|categoryIds| - 1];
      CategoriesDrawingsMembers(init, categories, drawings, d);
      assert categoryIds == init + [last];
      if d in CategoriesDrawings(categoryIds, categories, drawings) && d !in CategoriesDrawings(init, categories, drawings) {
        assert last in categoryIds && last in categories && d in Resolve(categories[last].drawings, drawings);
      }
      if exists c :: c in categoryIds && c in categories && d in Resolve(categories[c].drawings, drawings) {
        var c :| c in categoryIds && c in categories && d in Resolve(categories[c].drawings, drawings);
        if c != last {
          assert c in init;
        }
      }
    }
  }

  /** A drawing is listed for a project exactly when a register of that
      project lists a stored category that lists it. */
  lemma {:induction false} ProjectDrawingsMembers(registers: seq<Register>, projectNumber: int,
                                                  categories: map<Id, Category>, drawings: map<Id, Drawing>, d: Drawing)
    ensures d in ProjectDrawings(registers, projectNumber, categories, drawings) <==>
            exists g :: 0 <= g < |registers| && registers[g].projectNumber == Some(projectNumber)
                        && d in CategoriesDrawings(registers[g].categories, categories, drawings)
    decreases |registers|
  {
    if registers != [] {
      var init := registers[..|registers| - 1];
      var n := |registers| - 1;
      ProjectDrawingsMembers(init, projectNumber, categories, drawings, d);
      if d in ProjectDrawings(registers, projectNumber, categories, drawings) && d !in ProjectDrawings(init, projectNumber, categories, drawings) {
        assert registers[n].projectNumber == Some(projectNumber)
               && d in CategoriesDrawings(registers[n].categories, categories, drawings);
      }
      if exists g :: 0 <= g < |registers| && registers[g].projectNumber == Some(projectNumber)
                     && d in CategoriesDrawings(registers[g].categories, categories, drawings) {
        var g :| 0 <= g < |registers| && registers[g].projectNumber == Some(projectNumber)
                 && d in CategoriesDrawings(registers[g].categories, categories, drawings);
        if g != n {
          assert init[g] == registers[g];
        }
      }
    }
  }
}
