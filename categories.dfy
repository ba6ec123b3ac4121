/** The category handlers: the public listing and lookup, and the
    admin-only insert, partial update and guarded delete of `categories`. */
module CategoryController {
  import opened Common
  import opened Sorting
  import opened Schema

  /** `SELECT category_id FROM categories WHERE name = ?`: the categories
      called `name`. */
  function Named(t: Tables, name: string): (r: seq<(nat, Category)>)
    ensures forall row :: row in r ==> row.0 in t.categories && t.categories[row.0] == row.1 && row.1.name == name
  {
    Keep(t.CategoryRows(), (row: (nat, Category)) => row.1.name == name)
  }

  /** Some stored category is called `name`. */
  ghost predicate NameTaken(t: Tables, name: string) {
    exists k :: k in t.categories && t.categories[k].name == name
  }

  /** On a well-formed database the name query finds a row exactly when some
      category has that name. */
  lemma {:induction false} NamedFindsTaken(t: Tables, name: string)
    requires t.Wf()
    ensures |Named(t, name)| > 0 <==> NameTaken(t, name)
  {
    var r := Named(t, name);
    if |r| > 0 {
      assert r[0] in r;
    }
    if NameTaken(t, name) {
      var k :| k in t.categories && t.categories[k].name == name;
      ScansAreComplete(t);
      assert (k, t.categories[k]) in t.CategoryRows();
      assert (k, t.categories[k]) in r;
    }
  }

  /** No two categories share a name: what createCategory's duplicate check
      keeps, as long as updates do not rename. */
  ghost predicate NamesUnique(t: Tables) {
    forall k1, k2 :: k1 in t.categories && k2 in t.categories && t.categories[k1].name == t.categories[k2].name ==> k1 == k2
  }

  /** The body of POST /api/categories; absent fields are None. */
  datatype NewCategory = NewCategory(name: Option<string>, description: Option<string>, iconUrl: Option<string>)

  /** `createCategory`: 400 without a name or when the name is taken;
      otherwise one new row under the next id. Description and icon URL
      are stored as sent (absent becomes NULL). */
  function CreateCategoryStep(t: Tables, req: NewCategory): (s: Step<nat>)
    ensures s.result.Fail? <==> !Truthy(req.name) || |Named(t, req.name.value)| > 0
    ensures s.result.Fail? ==> s.result.error == BadRequest && s.tables == t
    ensures s.result.Ok? ==>
              var id := s.result.value;
              && id == t.nextCategory
              && (t.Wf() ==> id !in t.categories)
              && s.tables.categories == t.categories[id := Category(req.name.value, req.description, req.iconUrl)]
              && s.tables.categories[id].name != ""
              && s.tables == t.(categories := s.tables.categories, nextCategory := id + 1)
    ensures t.Wf() ==> s.tables.Wf()
  {
    if !Truthy(req.name) then Step(t, Fail(BadRequest))
    else if |Named(t, req.name.value)| > 0 then Step(t, Fail(BadRequest))
    else
      var id := t.nextCategory;
      InsertCategoryKeepsWf(t, Category(req.name.value, req.description, req.iconUrl));
      Step(t.(categories := t.categories[id := Category(req.name.value, req.description, req.iconUrl)], nextCategory := id + 1), Ok(id))
  }

  /** Inserting a category under the next id keeps the invariant. */
  lemma InsertCategoryKeepsWf(t: Tables, c: Category)
    ensures t.Wf() ==> t.(categories := t.categories[t.nextCategory := c], nextCategory := t.nextCategory + 1).Wf()
  {
  }

  /** On a well-formed database createCategory is refused exactly when the
      name is missing or empty or some category already has it. */
  lemma CreateRefusesTakenName(t: Tables, req: NewCategory)
    requires t.Wf()
    ensures CreateCategoryStep(t, req).result.Fail? <==> !Truthy(req.name) || NameTaken(t, req.name.value)
  {
    if Truthy(req.name) {
      NamedFindsTaken(t, req.name.value);
    }
  }

  /** Creation keeps category names unique: the duplicate check refuses a
      taken name and the new id is fresh. */
  lemma {:induction false} CreateKeepsNamesUnique(t: Tables, req: NewCategory)
    requires t.Wf() && NamesUnique(t)
    ensures NamesUnique(CreateCategoryStep(t, req).tables)
  {
    var s := CreateCategoryStep(t, req);
    if s.result.Ok? {
      NamedFindsTaken(t, req.name.value);
      assert forall k :: k in t.categories ==> k != s.result.value && t.categories[k].name != req.name.value;
    }
  }

  /** A category name is refused the second time. */
  lemma {:induction false} SecondCreateRefused(t: Tables, req: NewCategory)
    requires t.Wf() && Truthy(req.name)
    ensures var s := CreateCategoryStep(t, req);
            s.result.Ok? ==> CreateCategoryStep(s.tables, req).result == Fail(BadRequest)
  {
    var s := CreateCategoryStep(t, req);
    if s.result.Ok? {
      var id := s.result.value;
      assert s.tables.categories[id].name == req.name.value;
      assert NameTaken(s.tables, req.name.value);
      CreateRefusesTakenName(s.tables, req);
    }
  }

  /** The body of PUT /api/categories/:id; absent fields are None. */
  datatype CategoryPatch = CategoryPatch(name: Option<string>, description: Option<string>, iconUrl: Option<string>)

  /** The three `COALESCE(?, column)` assignments. */
  function MergeCategory(c: Category, p: CategoryPatch): Category {
    Category(Coalesce(p.name, c.name), CoalesceNullable(p.description, c.description), CoalesceNullable(p.iconUrl, c.iconUrl))
  }

  /** The partial-update laws: an empty body changes nothing, a repeated body
      changes nothing more, a supplied field replaces the old value (an
      empty name too: COALESCE only skips NULL) and an absent one keeps it. */
  lemma MergeCategoryLaws(c: Category, p: CategoryPatch)
    ensures MergeCategory(c, CategoryPatch(None, None, None)) == c
    ensures MergeCategory(MergeCategory(c, p), p) == MergeCategory(c, p)
    ensures p.name.Some? ==> MergeCategory(c, p).name == p.name.value
    ensures p.name.None? ==> MergeCategory(c, p).name == c.name
    ensures p.description.Some? ==> MergeCategory(c, p).description == p.description
    ensures p.description.None? ==> MergeCategory(c, p).description == c.description
    ensures p.iconUrl.Some? ==> MergeCategory(c, p).iconUrl == p.iconUrl
    ensures p.iconUrl.None? ==> MergeCategory(c, p).iconUrl == c.iconUrl
  {
  }

  /** `updateCategory`: 404 for an absent category; otherwise the patch is
      merged into that one row and nothing else changes. */
  function UpdateCategoryStep(t: Tables, id: nat, patch: CategoryPatch): (s: Step<()>)
    ensures s.result.Fail? <==> id !in t.categories
    ensures s.result.Fail? ==> s.result == Fail(NotFound) && s.tables == t
    ensures s.result.Ok? ==> s.tables == t.(categories := t.categories[id := MergeCategory(t.categories[id], patch)])
    ensures t.Wf() ==> s.tables.Wf()
  {
    if id !in t.categories then Step(t, Fail(NotFound))
    else Step(t.(categories := t.categories[id := MergeCategory(t.categories[id], patch)]), Ok(()))
  }

  /** The update performs no duplicate check: renaming a category to the
      name of another succeeds and leaves two categories with one name. */
  lemma {:induction false} RenameCanDuplicate(t: Tables, id: nat, other: nat)
    requires id in t.categories && other in t.categories && id != other
    ensures var s := UpdateCategoryStep(t, id, CategoryPatch(Some(t.categories[other].name), None, None));
            s.result.Ok? && !NamesUnique(s.tables)
  {
    var s := UpdateCategoryStep(t, id, CategoryPatch(Some(t.categories[other].name), None, None));
    assert s.tables.categories[id].name == s.tables.categories[other].name;
  }

  /** `SELECT COUNT(*) FROM services WHERE category_id = ?`: the services of
      the category, active or not. */
  function InCategory(t: Tables, id: nat): (r: seq<(nat, Service)>)
    ensures forall row :: row in r ==> row.0 in t.services && t.services[row.0] == row.1 && row.1.categoryId == id
  {
    Keep(t.ServiceRows(), (row: (nat, Service)) => row.1.categoryId == id)
  }

  /** Some stored service, active or not, names the category. */
  ghost predicate InUse(t: Tables, id: nat) {
    exists k :: k in t.services && t.services[k].categoryId == id
  }

  lemma {:induction false} InCategoryFindsUse(t: Tables, id: nat)
    requires t.Wf()
    ensures |InCategory(t, id)| > 0 <==> InUse(t, id)
  {
    var r := InCategory(t, id);
    if |r| > 0 {
      assert r[0] in r;
    }
    if InUse(t, id) {
      var k :| k in t.services && t.services[k].categoryId == id;
      ScansAreComplete(t);
      assert (k, t.services[k]) in t.ServiceRows();
      assert (k, t.services[k]) in r;
    }
  }

  /** Every service names a stored category. The service handlers do not
      check this, so it is not part of `Wf`; the delete guard keeps it. */
  ghost predicate CategoriesIntact(t: Tables) {
    forall k :: k in t.services ==> t.services[k].categoryId in t.categories
  }

  /** `deleteCategory`: 400 while any service names the category, checked
      before existence; then 404 when no row was deleted; otherwise exactly
      that row is gone. */
  function DeleteCategoryStep(t: Tables, id: nat): (s: Step<()>)
    ensures s.result == Fail(BadRequest) <==> |InCategory(t, id)| > 0
    ensures t.Wf() ==> (s.result == Fail(BadRequest) <==> InUse(t, id))
    ensures s.result == Fail(NotFound) <==> |InCategory(t, id)| == 0 && id !in t.categories
    ensures s.result.Ok? <==> |InCategory(t, id)| == 0 && id in t.categories
    ensures s.result.Fail? ==> s.tables == t
    ensures s.result.Ok? ==> s.tables == t.(categories := t.categories - {id}) && id in t.categories
    ensures t.Wf() ==> s.tables.Wf()
    ensures t.Wf() && CategoriesIntact(t) ==> CategoriesIntact(s.tables)
  {
    var s :=
      if |InCategory(t, id)| > 0 then Step(t, Fail(BadRequest))
      else if id !in t.categories then Step(t, Fail(NotFound))
      else Step(t.(categories := t.categories - {id}), Ok(()));
    assert t.Wf() ==> (s.result == Fail(BadRequest) <==> InUse(t, id)) && (s.result.Ok? ==> !InUse(t, id)) by {
      if t.Wf() {
        InCategoryFindsUse(t, id);
      }
    }
    s
  }

  /** An inactive service blocks deletion although the listing does not
      count it. */
  lemma {:induction false} InactiveServiceBlocksDelete(t: Tables, id: nat, k: nat)
    requires t.Wf()
    requires k in t.services && t.services[k].categoryId == id && !t.services[k].isActive
    ensures DeleteCategoryStep(t, id).result == Fail(BadRequest)
  {
    assert InUse(t, id);
  }

  /** The active services of the category: `COUNT(s.service_id)` of the
      LEFT JOIN, 0 when there is none. */
  function ActiveCount(t: Tables, id: nat): nat {
    |Keep(t.ServiceRows(), (row: (nat, Service)) => row.1.categoryId == id && row.1.isActive)|
  }

  /** The listing's count never exceeds the count the delete guard reads. */
  lemma ActiveCountAtMostInUse(t: Tables, id: nat)
    ensures ActiveCount(t, id) <= |InCategory(t, id)|
  {
    KeepMonotone(t.ServiceRows(), (row: (nat, Service)) => row.1.categoryId == id && row.1.isActive, (row: (nat, Service)) => row.1.categoryId == id);
  }

  /** A row of the category listing. */
  datatype CategoryEntry = CategoryEntry(id: nat, category: Category, serviceCount: nat)

  /** A listing entry is a stored category with its count of active services. */
  predicate EntryOf(t: Tables, e: CategoryEntry) {
    e.id in t.categories && e.category == t.categories[e.id] && e.serviceCount == ActiveCount(t, e.id)
  }

  /** `ORDER BY c.name ASC`. */
  predicate ByName(a: CategoryEntry, b: CategoryEntry) {
    LexLe(a.category.name, b.category.name)
  }

  lemma ByNameIsTotalPreorder()
    ensures TotalPreorder(ByName)
  {
    forall a: CategoryEntry, b: CategoryEntry ensures ByName(a, b) || ByName(b, a) {
      LexLeTotal(a.category.name, b.category.name);
    }
    forall a: CategoryEntry, b: CategoryEntry, c: CategoryEntry | ByName(a, b) && ByName(b, c) ensures ByName(a, c) {
      LexLeTransitive(a.category.name, b.category.name, c.category.name);
    }
  }

  /** Each scanned category with its count attached. */
  function Entries(t: Tables, rows: seq<(nat, Category)>): (r: seq<CategoryEntry>)
    ensures |r| == |rows|
    ensures forall i :: 0 <= i < |r| ==> r[i] == CategoryEntry(rows[i].0, rows[i].1, ActiveCount(t, rows[i].0))
  {
    if rows == [] then [] else [CategoryEntry(rows[0].0, rows[0].1, ActiveCount(t, rows[0].0))] + Entries(t, rows[1..])
  }

  lemma {:induction false} EntriesAreCategories(t: Tables)
    ensures forall e :: e in Entries(t, t.CategoryRows()) ==> EntryOf(t, e)
    ensures t.Wf() ==> forall id :: id in t.categories ==> CategoryEntry(id, t.categories[id], ActiveCount(t, id)) in Entries(t, t.CategoryRows())
  {
    var rows := t.CategoryRows();
    var c := Entries(t, rows);
    forall e | e in c ensures EntryOf(t, e) {
      var i :| 0 <= i < |c| && c[i] == e;
      assert rows[i] in rows;
    }
    if t.Wf() {
      ScansAreComplete(t);
      forall id | id in t.categories
        ensures CategoryEntry(id, t.categories[id], ActiveCount(t, id)) in c
      {
        assert (id, t.categories[id]) in rows;
        var i :| 0 <= i < |rows| && rows[i] == (id, t.categories[id]);
        assert c[i] == CategoryEntry(id, t.categories[id], ActiveCount(t, id));
      }
    }
  }

  /** GET /api/categories (`getAllCategories`): every category once, in name
      order, each with the number of its active services. */
  function GetAllCategories(t: Tables): (r: seq<CategoryEntry>)
    ensures SortedBy(r, ByName)
    ensures forall e :: e in r ==> EntryOf(t, e)
    ensures t.Wf() ==> forall id :: id in t.categories ==> CategoryEntry(id, t.categories[id], ActiveCount(t, id)) in r
    ensures t.Wf() ==> NoDuplicates(r)
  {
    var rows := t.CategoryRows();
    var c := Entries(t, rows);
    ByNameIsTotalPreorder();
    SortBySorted(c, ByName);
    SameElements(SortBy(c, ByName), c);
    EntriesAreCategories(t);
    assert Distinct(c) by {
      forall i, j | 0 <= i < j < |c| ensures c[i] != c[j] {
        assert c[i].id == rows[i].0 && c[j].id == rows[j].0;
      }
    }
    DistinctHasNoDuplicates(c);
    SortBy(c, ByName)
  }

  /** GET /api/categories/:id (`getCategoryById`): the stored row, or 404. */
  function GetCategoryById(t: Tables, id: nat): (r: Result<Category>)
    ensures r.Fail? <==> id !in t.categories
    ensures r.Fail? ==> r.error == NotFound
    ensures r.Ok? ==> r.value == t.categories[id]
  {
    if id in t.categories then Ok(t.categories[id]) else Fail(NotFound)
  }

  /** A created category can be looked up under the returned id, with the
      name it was created with. */
  lemma CreatedCategoryIsFound(t: Tables, req: NewCategory)
    ensures var s := CreateCategoryStep(t, req);
            s.result.Ok? ==> GetCategoryById(s.tables, s.result.value) == Ok(Category(req.name.value, req.description, req.iconUrl))
  {
  }

  /** A deleted category is no longer found, and the others are unaffected. */
  lemma DeletedCategoryIsGone(t: Tables, id: nat, other: nat)
    requires other != id
    ensures var s := DeleteCategoryStep(t, id);
            s.result.Ok? ==> GetCategoryById(s.tables, id) == Fail(NotFound) && GetCategoryById(s.tables, other) == GetCategoryById(t, other)
  {
  }

  /** POST /api/categories, behind `authorize("admin")`. */
  method CreateCategory(db: Database, actor: nat, req: NewCategory) returns (r: Result<nat>)
    requires db.Valid()
    requires actor in db.users && db.users[actor].role == Admin
    modifies db
    ensures db.Valid()
    ensures var s := CreateCategoryStep(old(db.State()), req);
            db.State() == s.tables && r == s.result
  {
    if !Truthy(req.name) {
      return Fail(BadRequest);
    }
    var existing := Named(db.State(), req.name.value);
    if |existing| > 0 {
      return Fail(BadRequest);
    }
    var id := db.nextCategory;
    db.categories := db.categories[id := Category(req.name.value, req.description, req.iconUrl)];
    db.nextCategory := id + 1;
    r := Ok(id);
  }

  /** PUT /api/categories/:id, behind `authorize("admin")`. */
  method UpdateCategory(db: Database, actor: nat, id: nat, patch: CategoryPatch) returns (r: Result<()>)
    requires db.Valid()
    requires actor in db.users && db.users[actor].role == Admin
    modifies db
    ensures db.Valid()
    ensures var s := UpdateCategoryStep(old(db.State()), id, patch);
            db.State() == s.tables && r == s.result
  {
    if id !in db.categories {
      return Fail(NotFound);
    }
    db.categories := db.categories[id := MergeCategory(db.categories[id], patch)];
    r := Ok(());
  }

  /** DELETE /api/categories/:id, behind `authorize("admin")`. */
  method DeleteCategory(db: Database, actor: nat, id: nat) returns (r: Result<()>)
    requires db.Valid()
    requires actor in db.users && db.users[actor].role == Admin
    modifies db
    ensures db.Valid()
    ensures var s := DeleteCategoryStep(old(db.State()), id);
            db.State() == s.tables && r == s.result
  {
    var services := InCategory(db.State(), id);
    if |services| > 0 {
      return Fail(BadRequest);
    }
    if id !in db.categories {
      return Fail(NotFound);
    }
    db.categories := db.categories - {id};
    r := Ok(());
  }
}
