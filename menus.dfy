/** The menu service: a vendor creates, updates, deletes and toggles its
    own menus; anyone lists them through a filter or reads one. */
module Menus {
  import opened Common
  import opened Tables
  import opened Entities
  import opened MenuDto
  import opened Storage

  // ---------------------------------------------------------------------
  // Creation

  /** The menu `create` inserts, or the exception it throws first: no
      vendor profile, or a non-zero `categoryId` naming no category
      (NotFound). A `categoryId` of 0 skips the check (`if (categoryId)`)
      and is stored as given (`categoryId ?? null`); an omitted
      `available` takes the column default, true. */
  function PlanMenu(vendors: seq<Vendor>, categories: seq<Category>, menuId: int, userId: int, dto: CreateMenuDto): (r: Result<Menu>)
    ensures r.Err? ==> r.error == NotFound
    ensures r.Err? <==>
      || Lookup(vendors, VendorUserId, userId).None?
      || (TruthyInt(dto.categoryId) && Lookup(categories, CategoryId, dto.categoryId.value).None?)
    ensures r.Ok? ==>
      && r.value.id == menuId
      && Lookup(vendors, VendorUserId, userId).Some?
      && r.value.vendorId == Lookup(vendors, VendorUserId, userId).value.id
      && r.value.categoryId == dto.categoryId
      && r.value.name == dto.name && r.value.description == dto.description
      && r.value.price == dto.price && r.value.calories == dto.calories
      && r.value.imageUrl == dto.imageUrl
      && r.value.available == dto.available.GetOr(true)
  {
    match Lookup(vendors, VendorUserId, userId)
    case None => Err(NotFound)
    case Some(vendor) =>
      if TruthyInt(dto.categoryId) && Lookup(categories, CategoryId, dto.categoryId.value).None? then Err(NotFound)
      else Ok(Menu(menuId, vendor.id, dto.categoryId, dto.name, dto.description, dto.price,
                   dto.calories, dto.imageUrl, dto.available.GetOr(true)))
  }

  /** `create` against the store: the new menu is appended under the next
      id; on failure nothing is written. */
  method CreateMenu(db: Store, userId: int, dto: CreateMenuDto) returns (r: Result<Menu>)
    requires db.Valid() && ValidCreateMenu(dto)
    modifies db`menus, db`nextMenuId
    ensures db.Valid()
    ensures r == PlanMenu(db.vendors, db.categories, old(db.nextMenuId), userId, dto)
    ensures r.Ok? ==> db.menus == old(db.menus) + [r.value] && db.nextMenuId == old(db.nextMenuId) + 1
    ensures r.Err? ==> db.menus == old(db.menus) && db.nextMenuId == old(db.nextMenuId)
  {
    r := PlanMenu(db.vendors, db.categories, db.nextMenuId, userId, dto);
    if r.Ok? {
      UniqueAfterAppend(db.menus, MenuId, db.nextMenuId, r.value);
      db.menus := db.menus + [r.value];
      db.nextMenuId := db.nextMenuId + 1;
    }
  }

  // ---------------------------------------------------------------------
  // The ownership guard shared by update, remove and toggle

  /** `menu.vendor.user_id === userId`. */
  predicate OwnedBy(vendors: seq<Vendor>, m: Menu, userId: int) {
    VendorOfUser(vendors, m.vendorId, userId)
  }

  /** The menu the caller may change: NotFound when absent, Forbidden when
      it belongs to another vendor's user. */
  function MenuAccess(menus: seq<Menu>, vendors: seq<Vendor>, id: int, userId: int): (r: Result<Menu>)
    ensures r == Err(NotFound) <==> Lookup(menus, MenuId, id).None?
    ensures r == Err(Forbidden) <==>
      Lookup(menus, MenuId, id).Some? && !OwnedBy(vendors, Lookup(menus, MenuId, id).value, userId)
    ensures r.Ok? <==> Lookup(menus, MenuId, id).Some? && OwnedBy(vendors, Lookup(menus, MenuId, id).value, userId)
    ensures r.Ok? ==> Some(r.value) == Lookup(menus, MenuId, id)
  {
    match Lookup(menus, MenuId, id)
    case None => Err(NotFound)
    case Some(m) => if OwnedBy(vendors, m, userId) then Ok(m) else Err(Forbidden)
  }

  // ---------------------------------------------------------------------
  // Update

  /** The row after `update`: the fields present are written, and
      `category_id` only when `categoryId` is supplied; the id, the vendor
      and availability never change. */
  function Apply(m: Menu, dto: UpdateMenuDto): (r: Menu)
    ensures r.id == m.id && r.vendorId == m.vendorId && r.available == m.available
    ensures r.categoryId == if dto.categoryId.Some? then dto.categoryId else m.categoryId
    ensures r.name == dto.name.GetOr(m.name) && r.price == dto.price.GetOr(m.price)
    ensures r.description == if dto.description.Some? then dto.description else m.description
    ensures r.calories == if dto.calories.Some? then dto.calories else m.calories
    ensures r.imageUrl == if dto.imageUrl.Some? then dto.imageUrl else m.imageUrl
  {
    m.(name := dto.name.GetOr(m.name),
       description := if dto.description.Some? then dto.description else m.description,
       price := dto.price.GetOr(m.price),
       categoryId := if dto.categoryId.Some? then dto.categoryId else m.categoryId,
       calories := if dto.calories.Some? then dto.calories else m.calories,
       imageUrl := if dto.imageUrl.Some? then dto.imageUrl else m.imageUrl)
  }

  /** `update`: the guard, then a non-zero `categoryId` must name a
      category (NotFound), then the updated row. */
  function UpdateMenuOutcome(
    menus: seq<Menu>, vendors: seq<Vendor>, categories: seq<Category>,
    id: int, userId: int, dto: UpdateMenuDto): (r: Result<Menu>)
    ensures r.Err? ==> r.error == NotFound || r.error == Forbidden
    ensures MenuAccess(menus, vendors, id, userId).Err? ==> r == MenuAccess(menus, vendors, id, userId)
    ensures r.Ok? <==>
      && MenuAccess(menus, vendors, id, userId).Ok?
      && !(TruthyInt(dto.categoryId) && Lookup(categories, CategoryId, dto.categoryId.value).None?)
    ensures r.Ok? ==> r.value == Apply(Lookup(menus, MenuId, id).value, dto)
  {
    match MenuAccess(menus, vendors, id, userId)
    case Err(e) => Err(e)
    case Ok(m) =>
      if TruthyInt(dto.categoryId) && Lookup(categories, CategoryId, dto.categoryId.value).None? then Err(NotFound)
      else Ok(Apply(m, dto))
  }

  /** `update` against the store: only that menu's row changes. */
  method UpdateMenu(db: Store, id: int, userId: int, dto: UpdateMenuDto) returns (r: Result<Menu>)
    requires db.Valid() && ValidUpdateMenu(dto)
    modifies db`menus
    ensures db.Valid()
    ensures r == UpdateMenuOutcome(old(db.menus), db.vendors, db.categories, id, userId, dto)
    ensures r.Ok? ==>
      && FindIndex(old(db.menus), MenuId, id).Some?
      && db.menus == old(db.menus)[FindIndex(old(db.menus), MenuId, id).value := r.value]
    ensures r.Err? ==> db.menus == old(db.menus)
  {
    r := UpdateMenuOutcome(db.menus, db.vendors, db.categories, id, userId, dto);
    if r.Ok? {
      var i := FindIndex(db.menus, MenuId, id).value;
      UniqueAfterUpdate(db.menus, MenuId, i, r.value);
      BelowAfterUpdate(db.menus, MenuId, db.nextMenuId, i, r.value);
      db.menus := db.menus[i := r.value];
    }
  }

  // ---------------------------------------------------------------------
  // Remove

  /** `remove` against the store: after the guard, exactly that menu is
      deleted (the deleted row is returned); on failure nothing changes. */
  method RemoveMenu(db: Store, id: int, userId: int) returns (r: Result<Menu>)
    requires db.Valid()
    modifies db`menus
    ensures db.Valid()
    ensures r == MenuAccess(old(db.menus), db.vendors, id, userId)
    ensures r.Err? ==> db.menus == old(db.menus)
    ensures r.Ok? ==>
      && FindIndex(old(db.menus), MenuId, id).Some?
      && db.menus == RemoveAt(old(db.menus), FindIndex(old(db.menus), MenuId, id).value)
    ensures r.Ok? ==> forall j :: 0 <= j < |old(db.menus)| ==>
      (old(db.menus)[j] in db.menus <==> old(db.menus)[j].id != id)
  {
    r := MenuAccess(db.menus, db.vendors, id, userId);
    if r.Ok? {
      var i := FindIndex(db.menus, MenuId, id).value;
      RemoveAtExactly(db.menus, MenuId, i);
      UniqueAfterRemove(db.menus, MenuId, i);
      BelowAfterRemove(db.menus, MenuId, db.nextMenuId, i);
      db.menus := RemoveAt(db.menus, i);
    }
  }

  // ---------------------------------------------------------------------
  // Toggle

  /** `toggleAvailable`: after the guard, the menu with `available`
      negated and nothing else changed. */
  function ToggleOutcome(menus: seq<Menu>, vendors: seq<Vendor>, id: int, userId: int): (r: Result<Menu>)
    ensures r.Err? <==> MenuAccess(menus, vendors, id, userId).Err?
    ensures r.Err? ==> r == MenuAccess(menus, vendors, id, userId)
    ensures r.Ok? ==>
      var m := Lookup(menus, MenuId, id).value;
      r.value.available == !m.available && r.value.(available := m.available) == m
  {
    match MenuAccess(menus, vendors, id, userId)
    case Err(e) => Err(e)
    case Ok(m) => Ok(m.(available := !m.available))
  }

  /** `toggleAvailable` against the store. */
  method ToggleAvailable(db: Store, id: int, userId: int) returns (r: Result<Menu>)
    requires db.Valid()
    modifies db`menus
    ensures db.Valid()
    ensures r == ToggleOutcome(old(db.menus), db.vendors, id, userId)
    ensures r.Ok? ==>
      && FindIndex(old(db.menus), MenuId, id).Some?
      && db.menus == old(db.menus)[FindIndex(old(db.menus), MenuId, id).value := r.value]
    ensures r.Err? ==> db.menus == old(db.menus)
  {
    r := ToggleOutcome(db.menus, db.vendors, id, userId);
    if r.Ok? {
      var i := FindIndex(db.menus, MenuId, id).value;
      UniqueAfterUpdate(db.menus, MenuId, i, r.value);
      BelowAfterUpdate(db.menus, MenuId, db.nextMenuId, i, r.value);
      db.menus := db.menus[i := r.value];
    }
  }

  /** Toggling twice restores the menu table: the second toggle succeeds
      for the same caller and writes back the original row. */
  lemma ToggleTwiceRestores(menus: seq<Menu>, vendors: seq<Vendor>, id: int, userId: int)
    requires UniqueKeys(menus, MenuId)
    requires ToggleOutcome(menus, vendors, id, userId).Ok?
    ensures var i := FindIndex(menus, MenuId, id).value;
      var once := menus[i := ToggleOutcome(menus, vendors, id, userId).value];
      && ToggleOutcome(once, vendors, id, userId) == Ok(menus[i])
      && once[i := ToggleOutcome(once, vendors, id, userId).value] == menus
  {
    var i := FindIndex(menus, MenuId, id).value;
    var once := menus[i := ToggleOutcome(menus, vendors, id, userId).value];
    UniqueAfterUpdate(menus, MenuId, i, once[i]);
    LookupUnique(once, MenuId, i);
    assert Lookup(once, MenuId, id) == Some(once[i]);
  }

  // ---------------------------------------------------------------------
  // Reads

  /** `name: { contains: search }`: `sub` occurs in `s`. */
  predicate Contains(s: string, sub: string)
    decreases |s|
  {
    |sub| <= |s| && (s[..|sub|] == sub || Contains(s[1..], sub))
  }

  /** Every string contains itself (a search for a full name finds it). */
  lemma ContainsSelf(s: string)
    ensures Contains(s, s)
  {
    assert s[..|s|] == s;
  }

  /** The `where` clause of `findAll`: vendor, category and search apply
      only when truthy (0 and "" are ignored); a price bound applies when
      it is present at all. */
  predicate MatchesQuery(q: MenuQuery, m: Menu) {
    && (TruthyInt(q.vendorId) ==> m.vendorId == q.vendorId.value)
    && (TruthyInt(q.categoryId) ==> m.categoryId == q.categoryId)
    && (TruthyString(q.search) ==> Contains(m.name, q.search.value))
    && (q.minPrice.Some? ==> m.price >= q.minPrice.value)
    && (q.maxPrice.Some? ==> m.price <= q.maxPrice.value)
  }

  /** `findAll`: the menus satisfying every supplied filter, in table
      order; `total` is the length of the result. */
  function FindAllMenus(menus: seq<Menu>, q: MenuQuery): (r: seq<Menu>)
    ensures |r| <= |menus|
    ensures forall m :: m in r <==> m in menus && MatchesQuery(q, m)
    ensures forall i :: 0 <= i < |r| ==> MatchesQuery(q, r[i])
    ensures forall m :: multiset(r)[m] == if MatchesQuery(q, m) then multiset(menus)[m] else 0
  {
    forall m ensures multiset(Filter(menus, (m: Menu) => MatchesQuery(q, m)))[m]
      == if MatchesQuery(q, m) then multiset(menus)[m] else 0 {
      FilterMultiset(menus, (m: Menu) => MatchesQuery(q, m), m);
    }
    Filter(menus, (m: Menu) => MatchesQuery(q, m))
  }

  /** A range with its minimum above its maximum passes validation and
      matches no menu. */
  lemma {:induction false} InvertedRangeIsEmpty(menus: seq<Menu>, q: MenuQuery)
    requires q.minPrice.Some? && q.maxPrice.Some? && q.minPrice.value > q.maxPrice.value >= 0
    ensures ValidMenuQuery(q)
    ensures FindAllMenus(menus, q) == []
  {
    if |menus| > 0 {
      InvertedRangeIsEmpty(menus[1..], q);
    }
  }

  /** With no filters, the whole table is listed in order. */
  lemma {:induction false} EmptyQueryListsAll(menus: seq<Menu>)
    ensures FindAllMenus(menus, MenuQuery(None, None, None, None, None)) == menus
  {
    if |menus| > 0 {
      EmptyQueryListsAll(menus[1..]);
      assert menus == [menus[0]] + menus[1..];
    }
  }

  /** A vendor id or category id of 0 filters nothing, exactly as if it
      were omitted. */
  lemma ZeroIdsAreIgnored(menus: seq<Menu>, q: MenuQuery)
    ensures FindAllMenus(menus, q.(vendorId := Some(0))) == FindAllMenus(menus, q.(vendorId := None))
    ensures FindAllMenus(menus, q.(categoryId := Some(0))) == FindAllMenus(menus, q.(categoryId := None))
  {
    SameMatchSameList(menus, q.(vendorId := Some(0)), q.(vendorId := None));
    SameMatchSameList(menus, q.(categoryId := Some(0)), q.(categoryId := None));
  }

  /** Two queries that accept the same menus list the same menus. */
  lemma {:induction false} SameMatchSameList(menus: seq<Menu>, q: MenuQuery, q': MenuQuery)
    requires forall m :: MatchesQuery(q, m) == MatchesQuery(q', m)
    ensures FindAllMenus(menus, q) == FindAllMenus(menus, q')
  {
    if |menus| > 0 {
      SameMatchSameList(menus[1..], q, q');
    }
  }

  /** `findOne`: the menu, or NotFound. */
  function FindMenu(menus: seq<Menu>, id: int): (r: Result<Menu>)
    ensures r.Err? <==> forall j :: 0 <= j < |menus| ==> menus[j].id != id
    ensures r.Err? ==> r.error == NotFound
    ensures r.Ok? ==> r.value in menus && r.value.id == id
  {
    match Lookup(menus, MenuId, id)
    case None => Err(NotFound)
    case Some(m) => Ok(m)
  }
}
