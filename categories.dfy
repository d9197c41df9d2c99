/** The category service (administrator only): names are kept unique on
    create and update, a category still used by menus cannot be deleted,
    and the list is ordered by name. */
module Categories {
  import opened Common
  import opened Tables
  import opened Entities
  import opened Storage

  /** Some category has this name. */
  predicate NameTaken(categories: seq<Category>, name: string) {
    exists j :: 0 <= j < |categories| && categories[j].name == name
  }

  /** A category other than `id` has this name (`NOT: { id }`). */
  predicate NameTakenByOther(categories: seq<Category>, id: int, name: string) {
    exists j :: 0 <= j < |categories| && categories[j].name == name && categories[j].id != id
  }

  // ---------------------------------------------------------------------
  // Create

  /** `create`: Conflict when the name is taken, otherwise the new row. */
  function PlanCategory(categories: seq<Category>, newId: int, name: string, description: Option<string>): (r: Result<Category>)
    ensures r.Err? <==> NameTaken(categories, name)
    ensures r.Err? ==> r.error == Conflict
    ensures r.Ok? ==> r.value == Category(newId, name, description)
  {
    if NameTaken(categories, name) then Err(Conflict)
    else Ok(Category(newId, name, description))
  }

  /** Adding a row whose name no row has keeps names distinct. */
  lemma DistinctAfterAppend(categories: seq<Category>, c: Category)
    requires DistinctNames(categories) && !NameTaken(categories, c.name)
    ensures DistinctNames(categories + [c])
  {
    var r := categories + [c];
    forall i, j | 0 <= i < |r| && 0 <= j < |r| && i != j ensures r[i].name != r[j].name {
      if i < |categories| { assert r[i] == categories[i]; }
      if j < |categories| { assert r[j] == categories[j]; }
    }
  }

  /** `create` against the store: appended under the next id. */
  method CreateCategory(db: Store, name: string, description: Option<string>) returns (r: Result<Category>)
    requires db.Valid()
    modifies db`categories, db`nextCategoryId
    ensures db.Valid()
    ensures r == PlanCategory(old(db.categories), old(db.nextCategoryId), name, description)
    ensures r.Ok? ==> db.categories == old(db.categories) + [r.value] && db.nextCategoryId == old(db.nextCategoryId) + 1
    ensures r.Err? ==> db.categories == old(db.categories) && db.nextCategoryId == old(db.nextCategoryId)
  {
    r := PlanCategory(db.categories, db.nextCategoryId, name, description);
    if r.Ok? {
      UniqueAfterAppend(db.categories, CategoryId, db.nextCategoryId, r.value);
      DistinctAfterAppend(db.categories, r.value);
      db.categories := db.categories + [r.value];
      db.nextCategoryId := db.nextCategoryId + 1;
    }
  }

  // ---------------------------------------------------------------------
  // Update

  /** An update body: both fields optional; absent fields are left as
      they are. */
  datatype CategoryPatch = CategoryPatch(name: Option<string>, description: Option<string>)

  function Patched(c: Category, p: CategoryPatch): (r: Category)
    ensures r.id == c.id
    ensures r.name == p.name.GetOr(c.name)
    ensures r.description == if p.description.Some? then p.description else c.description
  {
    c.(name := p.name.GetOr(c.name),
       description := if p.description.Some? then p.description else c.description)
  }

  /** `update` as written: NotFound for an unknown id; the duplicate check
      runs only when the new name is truthy, so an empty name is written
      without it. */
  function UpdateCategoryAsWritten(categories: seq<Category>, id: int, p: CategoryPatch): (r: Result<Category>)
    ensures r == Err(NotFound) <==> Lookup(categories, CategoryId, id).None?
    ensures r == Err(Conflict) <==>
      Lookup(categories, CategoryId, id).Some? && TruthyString(p.name) && NameTakenByOther(categories, id, p.name.value)
    ensures r.Ok? ==> r.value == Patched(Lookup(categories, CategoryId, id).value, p)
  {
    match Lookup(categories, CategoryId, id)
    case None => Err(NotFound)
    case Some(c) =>
      if TruthyString(p.name) && NameTakenByOther(categories, id, p.name.value) then Err(Conflict)
      else Ok(Patched(c, p))
  }

  /** The gap: with one category already named "", renaming another one to
      "" is accepted and leaves two categories with the same name. */
  lemma EmptyNameBypassesUniqueness()
    ensures var cats := [Category(1, "", None), Category(2, "Drinks", None)];
      var r := UpdateCategoryAsWritten(cats, 2, CategoryPatch(Some(""), None));
      && DistinctNames(cats)
      && r.Ok?
      && !DistinctNames(cats[1 := r.value])
  {
    var cats := [Category(1, "", None), Category(2, "Drinks", None)];
    LookupUnique(cats, CategoryId, 1);
    var r := UpdateCategoryAsWritten(cats, 2, CategoryPatch(Some(""), None));
    assert cats[1 := r.value][0].name == cats[1 := r.value][1].name;
  }

  /** `update` with the duplicate check applied to every supplied name. */
  function UpdateCategoryChecked(categories: seq<Category>, id: int, p: CategoryPatch): (r: Result<Category>)
    ensures r == Err(NotFound) <==> Lookup(categories, CategoryId, id).None?
    ensures r == Err(Conflict) <==>
      Lookup(categories, CategoryId, id).Some? && p.name.Some? && NameTakenByOther(categories, id, p.name.value)
    ensures r.Ok? ==> r.value == Patched(Lookup(categories, CategoryId, id).value, p)
  {
    match Lookup(categories, CategoryId, id)
    case None => Err(NotFound)
    case Some(c) =>
      if p.name.Some? && NameTakenByOther(categories, id, p.name.value) then Err(Conflict)
      else Ok(Patched(c, p))
  }

  /** The corrected update differs from the written one only for the empty
      name. */
  lemma CheckedAgreesExceptEmptyName(categories: seq<Category>, id: int, p: CategoryPatch)
    requires p.name != Some("")
    ensures UpdateCategoryChecked(categories, id, p) == UpdateCategoryAsWritten(categories, id, p)
  {
  }

  /** The corrected update keeps category names distinct; keeping one's own
      name is allowed. */
  lemma CheckedKeepsNamesDistinct(categories: seq<Category>, id: int, p: CategoryPatch)
    requires DistinctNames(categories) && UniqueKeys(categories, CategoryId)
    requires UpdateCategoryChecked(categories, id, p).Ok?
    ensures FindIndex(categories, CategoryId, id).Some?
    ensures DistinctNames(categories[FindIndex(categories, CategoryId, id).value := UpdateCategoryChecked(categories, id, p).value])
  {
    var i := FindIndex(categories, CategoryId, id).value;
    var c := UpdateCategoryChecked(categories, id, p).value;
    var r := categories[i := c];
    forall a, b | 0 <= a < |r| && 0 <= b < |r| && a != b ensures r[a].name != r[b].name {
      if a == i {
        assert categories[b].id != id by { FindIndexUnique(categories, CategoryId, categories[b].id, b); }
      } else if b == i {
        assert categories[a].id != id by { FindIndexUnique(categories, CategoryId, categories[a].id, a); }
      }
    }
  }

  /** Renaming a category to its own name is never a conflict. */
  lemma KeepingOwnNameAllowed(categories: seq<Category>, i: nat, description: Option<string>)
    requires DistinctNames(categories) && UniqueKeys(categories, CategoryId) && i < |categories|
    ensures UpdateCategoryChecked(categories, categories[i].id, CategoryPatch(Some(categories[i].name), description)).Ok?
  {
    LookupUnique(categories, CategoryId, i);
    var id := categories[i].id;
    forall j | 0 <= j < |categories| && categories[j].name == categories[i].name ensures categories[j].id == id {
    }
  }

  /** `update` against the store, with the check on every supplied name. */
  method UpdateCategory(db: Store, id: int, p: CategoryPatch) returns (r: Result<Category>)
    requires db.Valid()
    modifies db`categories
    ensures db.Valid()
    ensures r == UpdateCategoryChecked(old(db.categories), id, p)
    ensures r.Ok? ==>
      && FindIndex(old(db.categories), CategoryId, id).Some?
      && db.categories == old(db.categories)[FindIndex(old(db.categories), CategoryId, id).value := r.value]
    ensures r.Err? ==> db.categories == old(db.categories)
  {
    r := UpdateCategoryChecked(db.categories, id, p);
    if r.Ok? {
      var i := FindIndex(db.categories, CategoryId, id).value;
      UniqueAfterUpdate(db.categories, CategoryId, i, r.value);
      BelowAfterUpdate(db.categories, CategoryId, db.nextCategoryId, i, r.value);
      CheckedKeepsNamesDistinct(db.categories, id, p);
      db.categories := db.categories[i := r.value];
    }
  }

  // ---------------------------------------------------------------------
  // Remove

  /** `_count.menus`: the menus filed under a category. */
  function MenuCount(menus: seq<Menu>, categoryId: int): nat {
    |Filter(menus, (m: Menu) => m.categoryId == Some(categoryId))|
  }

  /** No menu is filed under the category exactly when the count is 0. */
  lemma {:induction false} MenuCountZeroIff(menus: seq<Menu>, categoryId: int)
    ensures MenuCount(menus, categoryId) == 0 <==>
      forall j :: 0 <= j < |menus| ==> menus[j].categoryId != Some(categoryId)
  {
    if |menus| > 0 {
      MenuCountZeroIff(menus[1..], categoryId);
      assert forall j :: 1 <= j < |menus| ==> menus[j] == menus[1..][j - 1];
    }
  }

  /** `remove`: NotFound for an unknown id, Conflict while menus are filed
      under it, otherwise the row to delete. */
  function RemoveCategoryOutcome(categories: seq<Category>, menus: seq<Menu>, id: int): (r: Result<Category>)
    ensures r == Err(NotFound) <==> Lookup(categories, CategoryId, id).None?
    ensures r == Err(Conflict) <==>
      Lookup(categories, CategoryId, id).Some? && exists j :: 0 <= j < |menus| && menus[j].categoryId == Some(id)
    ensures r.Ok? ==> Some(r.value) == Lookup(categories, CategoryId, id)
  {
    MenuCountZeroIff(menus, id);
    match Lookup(categories, CategoryId, id)
    case None => Err(NotFound)
    case Some(c) => if MenuCount(menus, id) > 0 then Err(Conflict) else Ok(c)
  }

  lemma DistinctAfterRemove(categories: seq<Category>, i: nat)
    requires DistinctNames(categories) && i < |categories|
    ensures DistinctNames(RemoveAt(categories, i))
  {
    var r := RemoveAt(categories, i);
    forall a, b | 0 <= a < |r| && 0 <= b < |r| && a != b ensures r[a].name != r[b].name {
      assert r[a] == categories[if a < i then a else a + 1];
      assert r[b] == categories[if b < i then b else b + 1];
    }
  }

  /** `remove` against the store: exactly that row is deleted, and no menu
      refers to it. */
  method RemoveCategory(db: Store, id: int) returns (r: Result<Category>)
    requires db.Valid()
    modifies db`categories
    ensures db.Valid()
    ensures r == RemoveCategoryOutcome(old(db.categories), db.menus, id)
    ensures r.Err? ==> db.categories == old(db.categories)
    ensures r.Ok? ==>
      && FindIndex(old(db.categories), CategoryId, id).Some?
      && db.categories == RemoveAt(old(db.categories), FindIndex(old(db.categories), CategoryId, id).value)
      && (forall j :: 0 <= j < |db.categories| ==> db.categories[j].id != id)
      && (forall j :: 0 <= j < |db.menus| ==> db.menus[j].categoryId != Some(id))
  {
    r := RemoveCategoryOutcome(db.categories, db.menus, id);
    if r.Ok? {
      var i := FindIndex(db.categories, CategoryId, id).value;
      RemoveAtExactly(db.categories, CategoryId, i);
      UniqueAfterRemove(db.categories, CategoryId, i);
      BelowAfterRemove(db.categories, CategoryId, db.nextCategoryId, i);
      DistinctAfterRemove(db.categories, i);
      db.categories := RemoveAt(db.categories, i);
    }
  }

  // ---------------------------------------------------------------------
  // List

  /** One entry of the list: the category with its menu count. */
  datatype CategorySummary = CategorySummary(id: int, name: string, description: Option<string>, totalMenus: nat)

  function Summarize(c: Category, menus: seq<Menu>): CategorySummary {
    CategorySummary(c.id, c.name, c.description, MenuCount(menus, c.id))
  }

  function SummarizeAll(categories: seq<Category>, menus: seq<Menu>): (r: seq<CategorySummary>)
    ensures |r| == |categories|
    ensures forall i :: 0 <= i < |r| ==> r[i] == Summarize(categories[i], menus)
  {
    seq(|categories|, i requires 0 <= i < |categories| => Summarize(categories[i], menus))
  }

  /** Lexicographic order of names by character code. */
  predicate LexLeq(a: string, b: string) {
    |a| == 0 || (|b| > 0 && (a[0] < b[0] || (a[0] == b[0] && LexLeq(a[1..], b[1..]))))
  }

  /** Any two names are ordered one way or the other. */
  lemma {:induction false} LexTotal(a: string, b: string)
    ensures LexLeq(a, b) || LexLeq(b, a)
  {
    if |a| > 0 && |b| > 0 && a[0] == b[0] {
      LexTotal(a[1..], b[1..]);
    }
  }

  predicate SortedByName(s: seq<CategorySummary>) {
    forall i :: 0 <= i < |s| - 1 ==> LexLeq(s[i].name, s[i + 1].name)
  }

  function Insert(c: CategorySummary, s: seq<CategorySummary>): (r: seq<CategorySummary>)
    requires SortedByName(s)
    ensures SortedByName(r)
    ensures multiset(r) == multiset(s) + multiset{c}
    ensures |r| > 0 && (r[0] == c || (|s| > 0 && r[0] == s[0]))
  {
    if |s| == 0 then [c]
    else if LexLeq(c.name, s[0].name) then [c] + s
    else
      LexTotal(c.name, s[0].name);
      var rest := Insert(c, s[1..]);
      assert s == [s[0]] + s[1..];
      [s[0]] + rest
  }

  function SortByName(s: seq<CategorySummary>): (r: seq<CategorySummary>)
    ensures SortedByName(r)
    ensures multiset(r) == multiset(s)
  {
    if |s| == 0 then []
    else
      assert s == [s[0]] + s[1..];
      Insert(s[0], SortByName(s[1..]))
  }

  /** `findAll`: every category exactly once with its menu count, ordered
      by name; `total` is the number of categories. */
  function FindAllCategories(categories: seq<Category>, menus: seq<Menu>): (r: seq<CategorySummary>)
    ensures |r| == |categories|
    ensures SortedByName(r)
    ensures multiset(r) == multiset(SummarizeAll(categories, menus))
    ensures forall i :: 0 <= i < |r| ==> r[i].totalMenus == MenuCount(menus, r[i].id)
  {
    var r := SortByName(SummarizeAll(categories, menus));
    assert |r| == |multiset(r)|;
    forall i | 0 <= i < |r| ensures r[i].totalMenus == MenuCount(menus, r[i].id) {
      assert r[i] in multiset(r);
    }
    r
  }
}
