/** The Register routes: create (with inline category titles), update (new
    categories placed first), add categories, delete a category from a
    register, and delete a register. */
module RegisterRoutes {
  import opened Documents
  import opened RegisterSchema
  import opened RefLists
  import opened Database

  /** `n` consecutive identifiers from `start`, in order. */
  function IdRange(start: Id, n: nat): (ids: seq<Id>)
    ensures |ids| == n
    ensures forall k :: 0 <= k < n ==> ids[k] == start + k
  {
    if n == 0 then [] else IdRange(start, n - 1) + [start + n - 1]
  }

  /** The Categories created from `bodies`, the k-th under identifier start + k. */
  function CreatedCategories(start: Id, bodies: seq<CategoryBody>): map<Id, Category>
    decreases |bodies|
  {
    if bodies == [] then map[]
    else
      var n := |bodies| - 1;
      CreatedCategories(start, bodies[..n])[start + n := NewCategory(bodies[n])]
  }

  /** The created map holds exactly the identifiers start .. start + |bodies| - 1,
      the k-th being the Category cast from the k-th body. */
  lemma {:induction false} CreatedCategoriesContent(start: Id, bodies: seq<CategoryBody>)
    ensures forall id :: id in CreatedCategories(start, bodies) <==> start <= id < start + |bodies|
    ensures forall k :: 0 <= k < |bodies| ==>
              start + k in CreatedCategories(start, bodies) && CreatedCategories(start, bodies)[start + k] == NewCategory(bodies[k])
    decreases |bodies|
  {
    if bodies != [] {
      var n := |bodies| - 1;
      CreatedCategoriesContent(start, bodies[..n]);
      forall k | 0 <= k < |bodies|
        ensures start + k in CreatedCategories(start, bodies)
        ensures CreatedCategories(start, bodies)[start + k] == NewCategory(bodies[k])
      {
        if k < n {
          assert bodies[..n][k] == bodies[k];
        }
      }
    }
  }

  /** The bodies `{ title: categoryData }` the create and update handlers build
      from a list of titles. */
  function TitleBodies(titles: seq<string>): (bodies: seq<CategoryBody>)
    ensures |bodies| == |titles|
    ensures forall k :: 0 <= k < |titles| ==> bodies[k] == CategoryBody(Some(titles[k]), None, None)
  {
    if titles == [] then [] else [CategoryBody(Some(titles[0]), None, None)] + TitleBodies(titles[1..])
  }

  lemma CreatedCategoriesStep(start: Id, bodies: seq<CategoryBody>, k: nat)
    requires k < |bodies|
    ensures CreatedCategories(start, bodies[..k + 1])
            == CreatedCategories(start, bodies[..k])[start + k := NewCategory(bodies[k])]
  {
    assert bodies[..k + 1][..k] == bodies[..k];
  }

  lemma UnionUpdate(a: map<Id, Category>, b: map<Id, Category>, x: Id, v: Category)
    ensures (a + b)[x := v] == a + b[x := v]
  {
  }

  /** The store after the Categories of `bodies` were created under fresh
      identifiers from `nextId` on. */
  ghost function WithCategories(s: Snapshot, bodies: seq<CategoryBody>): Snapshot {
    s.(categories := s.categories + CreatedCategories(s.nextId, bodies), nextId := s.nextId + |bodies|)
  }

  /** The k-th created Category is titled by the k-th title, with no
      description and no drawings. */
  lemma TitledCategories(s: Snapshot, titles: seq<string>)
    ensures forall k :: 0 <= k < |titles| ==>
              var c := s.nextId + k;
              c in WithCategories(s, TitleBodies(titles)).categories
              && WithCategories(s, TitleBodies(titles)).categories[c] == Category(Some(titles[k]), None, [])
  {
    CreatedCategoriesContent(s.nextId, TitleBodies(titles));
  }

  /** Creating Categories keeps every identifier below the advanced `nextId`. */
  lemma CreatedKeepsValid(s: Snapshot, bodies: seq<CategoryBody>)
    requires s.Valid()
    ensures WithCategories(s, bodies).Valid()
  {
    CreatedCategoriesContent(s.nextId, bodies);
  }

  /** Every Drawing identifier the bodies supply names a stored Drawing. */
  ghost predicate SuppliedDrawingsStored(bodies: seq<CategoryBody>, drawings: map<Id, Drawing>) {
    forall k, d :: 0 <= k < |bodies| && bodies[k].drawings.Some? && d in bodies[k].drawings.value ==> d in drawings
  }

  /** Creating Categories keeps every reference resolving when the drawing
      lists they are given name stored Drawings. */
  lemma CreatedKeepsRefs(s: Snapshot, bodies: seq<CategoryBody>)
    requires s.RefsResolve()
    requires SuppliedDrawingsStored(bodies, s.drawings)
    ensures WithCategories(s, bodies).RefsResolve()
  {
    CreatedCategoriesContent(s.nextId, bodies);
    var t := WithCategories(s, bodies);
    forall c, d | c in t.categories && d in t.categories[c].drawings
      ensures d in t.drawings
    {
      if c !in CreatedCategories(s.nextId, bodies) {
        assert t.categories[c] == s.categories[c];
      } else {
        var k := c - s.nextId;
        assert t.categories[c] == NewCategory(bodies[k]);
      }
    }
  }

  /** A title list supplies no drawings. */
  lemma TitleBodiesSupplyNoDrawings(titles: seq<string>, drawings: map<Id, Drawing>)
    ensures SuppliedDrawingsStored(TitleBodies(titles), drawings)
  {
  }

  /** Storing a Register whose categories all exist keeps every reference
      resolving. */
  lemma StoredRegisterKeepsRefs(s: Snapshot, id: Id, register: Register, nextId: Id)
    requires s.RefsResolve()
    requires forall c :: c in register.categories ==> c in s.categories
    ensures s.(registers := s.registers[id := register], nextId := nextId).RefsResolve()
  {
  }

  /** The identifiers of freshly created Categories name stored Categories. */
  lemma CreatedIdsResolve(s: Snapshot, bodies: seq<CategoryBody>)
    ensures forall c :: c in IdRange(s.nextId, |bodies|) ==> c in WithCategories(s, bodies).categories
  {
    CreatedCategoriesContent(s.nextId, bodies);
  }

  /** Creating one Category per body, in order, each under a fresh identifier;
      returns their identifiers in the same order. */
  method InsertCategories(db: Store, bodies: seq<CategoryBody>) returns (ids: seq<Id>)
    requires db.Valid()
    modifies db
    ensures db.Valid()
    ensures ids == IdRange(old(db.nextId), |bodies|)
    ensures forall k :: 0 <= k < |ids| ==> ids[k] !in old(db.categories)
    ensures db.State() == WithCategories(old(db.State()), bodies)
  {
    var start := db.nextId;
    var categories := db.categories;
    ids := [];
    var k := 0;
    while k < |bodies|
      invariant 0 <= k <= |bodies|
      invariant ids == IdRange(start, k)
      invariant categories == old(db.categories) + CreatedCategories(start, bodies[..k])
      modifies {}
    {
      // Category.create(...) under the next fresh identifier
      CreatedCategoriesStep(start, bodies, k);
      UnionUpdate(old(db.categories), CreatedCategories(start, bodies[..k]), start + k, NewCategory(bodies[k]));
      categories := categories[start + k := NewCategory(bodies[k])];
      ids := ids + [start + k];
      k := k + 1;
    }
    assert bodies[..k] == bodies;
    db.categories, db.nextId := categories, start + k;
    CreatedKeepsValid(old(db.State()), bodies);
    assert db.State() == WithCategories(old(db.State()), bodies);
  }

  /** POST /: with a category list, one Category titled by each element is
      created first, in order, and the Register is stored with exactly those
      identifiers in that order; without one, the Register is stored from the
      body as given, with an empty category list. */
  method CreateRegister(db: Store, body: RegisterBody, titles: Option<seq<string>>) returns (r: Outcome<Id>)
    requires db.Valid()
    modifies db
    ensures db.Valid()
    ensures titles.None? ==>
              var id := old(db.nextId);
              && r == Ok(id)
              && id !in old(db.registers)
              && db.State() == old(db.State()).(
                   registers := old(db.registers)[id := NewRegister(body, None)],
                   nextId := id + 1)
    ensures titles.Some? ==>
              var bodies := TitleBodies(titles.value);
              var id := old(db.nextId) + |bodies|;
              && r == Ok(id)
              && id !in old(db.registers)
              && db.State() == WithCategories(old(db.State()), bodies).(
                   registers := old(db.registers)[id := NewRegister(body, Some(IdRange(old(db.nextId), |bodies|)))],
                   nextId := id + 1)
    ensures old(db.State()).RefsResolve() ==> db.State().RefsResolve()
  {
    ghost var before := db.State();
    if titles.Some? {
      // the categories are saved first, one per title, in order
      var bodies := TitleBodies(titles.value);
      var ids := InsertCategories(db, bodies);
      ghost var mid := db.State();
      var id := db.InsertRegister(NewRegister(body, Some(ids)));
      r := Ok(id);
      if before.RefsResolve() {
        CreatedIdsResolve(before, bodies);
        TitleBodiesSupplyNoDrawings(titles.value, before.drawings);
        CreatedKeepsRefs(before, bodies);
        StoredRegisterKeepsRefs(mid, id, NewRegister(body, Some(ids)), id + 1);
      }
    } else {
      var id := db.InsertRegister(NewRegister(body, None));
      r := Ok(id);
    }
  }

  /** PUT /:id, restricted to its category list: non-empty new titles become
      Categories first; then, on a missing register, reading its categories
      fails and the Categories just created remain; otherwise the list becomes
      the new identifiers followed by the existing ones. */
  method UpdateRegister(db: Store, id: Id, titles: Option<seq<string>>) returns (r: Outcome<Register>)
    requires db.Valid()
    modifies db
    ensures db.Valid()
    ensures var start := old(db.nextId);
            var bodies := if titles.Some? then TitleBodies(titles.value) else [];
            var created := WithCategories(old(db.State()), bodies);
            if id !in old(db.registers) then
              r == Failed(NullRegister) && db.State() == created
            else
              var register := old(db.registers)[id];
              && r == Ok(register.(categories := IdRange(start, |bodies|) + register.categories))
              && db.State() == created.(registers := old(db.registers)[id := r.value])
    ensures old(db.State()).RefsResolve() ==> db.State().RefsResolve()
  {
    ghost var before := db.State();
    var bodies: seq<CategoryBody> := if titles.Some? then TitleBodies(titles.value) else [];
    var ids: seq<Id> := [];
    if |bodies| > 0 {
      ids := InsertCategories(db, bodies);
    } else {
      assert CreatedCategories(db.nextId, bodies) == map[];
      assert db.categories + map[] == db.categories;
    }
    if before.RefsResolve() {
      TitleBodiesSupplyNoDrawings(if titles.Some? then titles.value else [], before.drawings);
      CreatedKeepsRefs(before, bodies);
    }
    if id !in db.registers {
      // `register` is null and `register.categories` throws
      return Failed(NullRegister);
    }
    var register := db.registers[id];
    register := register.(categories := ids + register.categories);
    if before.RefsResolve() {
      CreatedIdsResolve(before, bodies);
      StoredRegisterKeepsRefs(db.State(), id, register, db.nextId);
    }
    db.registers := db.registers[id := register];
    r := Ok(register);
  }

  /** POST /:registerId/categories with an array body: the Categories are
      created first, each with whatever drawing list its element carries; a
      missing register gives NotFound and leaves them unreferenced; otherwise
      their identifiers are appended after the existing ones. References keep
      resolving only when the supplied drawing lists name stored Drawings. */
  method AddCategories(db: Store, registerId: Id, bodies: seq<CategoryBody>) returns (r: Outcome<Register>)
    requires db.Valid()
    modifies db
    ensures db.Valid()
    ensures var created := WithCategories(old(db.State()), bodies);
            if registerId !in old(db.registers) then
              r == NotFound && db.State() == created
            else
              var register := old(db.registers)[registerId];
              && r == Ok(register.(categories := register.categories + IdRange(old(db.nextId), |bodies|)))
              && db.State() == created.(registers := old(db.registers)[registerId := r.value])
    ensures old(db.State()).RefsResolve() && SuppliedDrawingsStored(bodies, old(db.drawings)) ==> db.State().RefsResolve()
  {
    ghost var before := db.State();
    var ids := InsertCategories(db, bodies);
    if before.RefsResolve() && SuppliedDrawingsStored(bodies, before.drawings) {
      CreatedKeepsRefs(before, bodies);
    }
    if registerId !in db.registers {
      return NotFound;
    }
    var register := db.registers[registerId];
    register := register.(categories := register.categories + ids);
    if before.RefsResolve() && SuppliedDrawingsStored(bodies, before.drawings) {
      CreatedIdsResolve(before, bodies);
      StoredRegisterKeepsRefs(db.State(), registerId, register, db.nextId);
    }
    db.registers := db.registers[registerId := register];
    r := Ok(register);
  }

  /** DELETE /:registerId/categories/:categoryId: NotFound without change when
      the register is missing or does not list the category; otherwise every
      occurrence is filtered out of its list, and then the Category document is
      deleted. Other registers listing it keep a dangling reference. */
  method DeleteCategoryFromRegister(db: Store, registerId: Id, categoryId: Id) returns (r: Outcome<()>)
    requires db.Valid()
    modifies db
    ensures db.Valid()
    ensures registerId !in old(db.registers) || categoryId !in old(db.registers)[registerId].categories ==>
              r == NotFound && db.State() == old(db.State())
    ensures registerId in old(db.registers) && categoryId in old(db.registers)[registerId].categories ==>
              var register := old(db.registers)[registerId];
              && r == Ok(())
              && db.State() == old(db.State()).(
                   registers := old(db.registers)[registerId := register.(categories := RemoveAll(register.categories, categoryId))],
                   categories := old(db.categories) - {categoryId})
    ensures && old(db.State()).RefsResolve()
            && (forall g :: g in old(db.registers) && g != registerId ==> categoryId !in old(db.registers)[g].categories)
            ==> db.State().RefsResolve()
  {
    if registerId !in db.registers {
      return NotFound;
    }
    var register := db.registers[registerId];
    if categoryId !in register.categories {
      return NotFound;
    }
    register := register.(categories := RemoveAll(register.categories, categoryId));
    db.registers := db.registers[registerId := register];
    db.categories := db.categories - {categoryId};
    r := Ok(());
  }

  /** DELETE /:id: NotFound without change when the register is missing;
      otherwise only the Register is removed, its Categories and Drawings stay. */
  method DeleteRegister(db: Store, id: Id) returns (r: Outcome<()>)
    requires db.Valid()
    modifies db
    ensures db.Valid()
    ensures id !in old(db.registers) ==> r == NotFound && db.State() == old(db.State())
    ensures id in old(db.registers) ==>
              r == Ok(()) && db.State() == old(db.State()).(registers := old(db.registers) - {id})
    ensures old(db.State()).RefsResolve() ==> db.State().RefsResolve()
  {
    if id !in db.registers {
      return NotFound;
    }
    db.registers := db.registers - {id};
    r := Ok(());
  }
}
