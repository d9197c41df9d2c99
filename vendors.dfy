/** The vendor service: the public vendor list and detail, the owner's
    profile update, the administrator's delete, and the per-vendor order
    statistics. */
module Vendors {
  import opened Common
  import opened Tables
  import opened OrderStatus
  import opened Entities
  import opened Storage

  // ---------------------------------------------------------------------
  // Reads

  /** `findAll`: the active vendors, restricted to `city` when a non-empty
      city is given. */
  function FindAllVendors(vendors: seq<Vendor>, city: Option<string>): (r: seq<Vendor>)
    ensures |r| <= |vendors|
    ensures forall v :: v in r <==>
      v in vendors && v.isActive && (TruthyString(city) ==> v.city == city.value)
    ensures !TruthyString(city) ==> forall v :: v in r <==> v in vendors && v.isActive
    ensures forall v :: (multiset(r)[v] ==
      if v.isActive && (TruthyString(city) ==> v.city == city.value) then multiset(vendors)[v] else 0)
  {
    forall v ensures multiset(Filter(vendors, (v: Vendor) => v.isActive && (TruthyString(city) ==> v.city == city.value)))[v]
      == if v.isActive && (TruthyString(city) ==> v.city == city.value) then multiset(vendors)[v] else 0 {
      FilterMultiset(vendors, (v: Vendor) => v.isActive && (TruthyString(city) ==> v.city == city.value), v);
    }
    Filter(vendors, (v: Vendor) => v.isActive && (TruthyString(city) ==> v.city == city.value))
  }

  /** The detail `findOne` returns: the vendor with its available menus. */
  datatype VendorDetail = VendorDetail(vendor: Vendor, menus: seq<Menu>)

  /** `findOne`: NotFound for an unknown id; otherwise the vendor and the
      menus of that vendor that are available. */
  function FindVendor(vendors: seq<Vendor>, menus: seq<Menu>, id: int): (r: Result<VendorDetail>)
    ensures r.Err? <==> Lookup(vendors, VendorId, id).None?
    ensures r.Err? ==> r.error == NotFound
    ensures r.Ok? ==> r.value.vendor in vendors && r.value.vendor.id == id
    ensures r.Ok? ==> forall m :: m in r.value.menus <==> m in menus && m.vendorId == id && m.available
    ensures r.Ok? ==> forall m :: (multiset(r.value.menus)[m] ==
      if m.vendorId == id && m.available then multiset(menus)[m] else 0)
  {
    match Lookup(vendors, VendorId, id)
    case None => Err(NotFound)
    case Some(v) =>
      forall m ensures multiset(Filter(menus, (m: Menu) => m.vendorId == id && m.available))[m]
        == if m.vendorId == id && m.available then multiset(menus)[m] else 0 {
        FilterMultiset(menus, (m: Menu) => m.vendorId == id && m.available, m);
      }
      Ok(VendorDetail(v, Filter(menus, (m: Menu) => m.vendorId == id && m.available)))
  }

  /** `findVendorMenus`: NotFound for an unknown id; otherwise every menu of
      the vendor, available or not. */
  function FindVendorMenus(vendors: seq<Vendor>, menus: seq<Menu>, id: int): (r: Result<seq<Menu>>)
    ensures r.Err? <==> Lookup(vendors, VendorId, id).None?
    ensures r.Err? ==> r.error == NotFound
    ensures r.Ok? ==> forall m :: m in r.value <==> m in menus && m.vendorId == id
    ensures r.Ok? ==> forall m :: multiset(r.value)[m] == if m.vendorId == id then multiset(menus)[m] else 0
  {
    match Lookup(vendors, VendorId, id)
    case None => Err(NotFound)
    case Some(_) =>
      forall m ensures multiset(Filter(menus, (m: Menu) => m.vendorId == id))[m]
        == if m.vendorId == id then multiset(menus)[m] else 0 {
        FilterMultiset(menus, (m: Menu) => m.vendorId == id, m);
      }
      Ok(Filter(menus, (m: Menu) => m.vendorId == id))
  }

  /** The public detail lists a subset of what the vendor's own menu list
      shows: exactly its available menus. */
  lemma DetailMenusAreAvailableVendorMenus(vendors: seq<Vendor>, menus: seq<Menu>, id: int)
    ensures FindVendor(vendors, menus, id).Ok? <==> FindVendorMenus(vendors, menus, id).Ok?
    ensures FindVendor(vendors, menus, id).Ok? ==>
      forall m :: m in FindVendor(vendors, menus, id).value.menus <==>
        m in FindVendorMenus(vendors, menus, id).value && m.available
  {
  }

  // ---------------------------------------------------------------------
  // Update and delete

  /** The profile columns an update may carry; an absent field is left as
      it is. */
  datatype VendorPatch = VendorPatch(
    name: Option<string>, description: Option<string>, address: Option<string>,
    city: Option<string>, phone: Option<string>)

  /** The row after `update({ data })`. */
  function Patched(v: Vendor, p: VendorPatch): (r: Vendor)
    ensures r.id == v.id && r.userId == v.userId && r.isActive == v.isActive
    ensures r.name == p.name.GetOr(v.name) && r.address == p.address.GetOr(v.address)
    ensures r.city == p.city.GetOr(v.city) && r.phone == p.phone.GetOr(v.phone)
    ensures r.description == if p.description.Some? then p.description else v.description
  {
    v.(name := p.name.GetOr(v.name),
       description := if p.description.Some? then p.description else v.description,
       address := p.address.GetOr(v.address),
       city := p.city.GetOr(v.city),
       phone := p.phone.GetOr(v.phone))
  }

  /** An empty patch changes nothing. */
  lemma EmptyPatchIsIdentity(v: Vendor)
    ensures Patched(v, VendorPatch(None, None, None, None, None)) == v
  {
  }

  /** `update`: NotFound without a vendor profile for the caller; otherwise
      the caller's own vendor row, patched. */
  function UpdateVendorOutcome(vendors: seq<Vendor>, userId: int, p: VendorPatch): (r: Result<Vendor>)
    ensures r.Err? <==> Lookup(vendors, VendorUserId, userId).None?
    ensures r.Err? ==> r.error == NotFound
    ensures r.Ok? ==> r.value.userId == userId && r.value == Patched(Lookup(vendors, VendorUserId, userId).value, p)
  {
    match Lookup(vendors, VendorUserId, userId)
    case None => Err(NotFound)
    case Some(v) => Ok(Patched(v, p))
  }

  /** `update` against the store: only the caller's row changes. */
  method UpdateVendor(db: Store, userId: int, p: VendorPatch) returns (r: Result<Vendor>)
    requires db.Valid()
    modifies db`vendors
    ensures db.Valid()
    ensures r == UpdateVendorOutcome(old(db.vendors), userId, p)
    ensures r.Ok? ==>
      && FindIndex(old(db.vendors), VendorUserId, userId).Some?
      && db.vendors == old(db.vendors)[FindIndex(old(db.vendors), VendorUserId, userId).value := r.value]
    ensures r.Err? ==> db.vendors == old(db.vendors)
  {
    r := UpdateVendorOutcome(db.vendors, userId, p);
    if r.Ok? {
      var i := FindIndex(db.vendors, VendorUserId, userId).value;
      UniqueAfterUpdate(db.vendors, VendorId, i, r.value);
      UniqueAfterUpdate(db.vendors, VendorUserId, i, r.value);
      db.vendors := db.vendors[i := r.value];
    }
  }

  /** `remove`: NotFound for an unknown id and nothing deleted; otherwise
      exactly that vendor row is deleted (the deleted row is returned). */
  method RemoveVendor(db: Store, id: int) returns (r: Result<Vendor>)
    requires db.Valid()
    modifies db`vendors
    ensures db.Valid()
    ensures r.Err? <==> Lookup(old(db.vendors), VendorId, id).None?
    ensures r.Err? ==> r.error == NotFound && db.vendors == old(db.vendors)
    ensures r.Ok? ==>
      && Some(r.value) == Lookup(old(db.vendors), VendorId, id)
      && FindIndex(old(db.vendors), VendorId, id).Some?
      && db.vendors == RemoveAt(old(db.vendors), FindIndex(old(db.vendors), VendorId, id).value)
    ensures r.Ok? ==> forall j :: 0 <= j < |old(db.vendors)| ==>
      (old(db.vendors)[j] in db.vendors <==> old(db.vendors)[j].id != id)
  {
    var k := FindIndex(db.vendors, VendorId, id);
    if k.None? {
      return Err(NotFound);
    }
    var i := k.value;
    r := Ok(db.vendors[i]);
    RemoveAtExactly(db.vendors, VendorId, i);
    UniqueAfterRemove(db.vendors, VendorId, i);
    UniqueAfterRemove(db.vendors, VendorUserId, i);
    forall j | 0 <= j < |db.vendors| && j != i ensures db.vendors[j].id != id {
    }
    db.vendors := RemoveAt(db.vendors, i);
  }

  // ---------------------------------------------------------------------
  // Order statistics

  /** `orders.filter((o) => o.status === s)`. */
  function OfStatus(orders: seq<Order>, s: Status): seq<Order> {
    Filter(orders, (o: Order) => o.status == s)
  }

  /** Sum of `total` over a list of orders. */
  function SumTotals(orders: seq<Order>): int {
    if |orders| == 0 then 0 else orders[0].total + SumTotals(orders[1..])
  }

  /** `totalRevenue`: the totals of the delivered orders, summed. */
  function Revenue(orders: seq<Order>): int {
    SumTotals(OfStatus(orders, Delivered))
  }

  datatype Statistics = Statistics(
    totalOrders: nat, pendingOrders: nat, confirmedOrders: nat, preparingOrders: nat,
    readyOrders: nat, onDeliveryOrders: nat, deliveredOrders: nat, cancelledOrders: nat,
    totalRevenue: int)

  /** The seven statuses, in the order the statistics list them. */
  const Statuses: seq<Status> := Flow + [Cancelled]

  /** The number of orders in each status, in the order of `Statuses`.
      Every status is one of the seven, so the counts partition the list. */
  function CountsOf(orders: seq<Order>): (r: seq<nat>)
    ensures |r| == |Statuses| == 7
    ensures forall k :: 0 <= k < 7 ==> r[k] == |OfStatus(orders, Statuses[k])|
    ensures r[0] + r[1] + r[2] + r[3] + r[4] + r[5] + r[6] == |orders|
    ensures forall k :: 0 <= k < 7 ==> r[k] <= |orders|
  {
    CountsPartition(orders);
    [|OfStatus(orders, Pending)|, |OfStatus(orders, Confirmed)|, |OfStatus(orders, Preparing)|,
     |OfStatus(orders, Ready)|, |OfStatus(orders, OnDelivery)|, |OfStatus(orders, Delivered)|,
     |OfStatus(orders, Cancelled)|]
  }

  lemma {:induction false} CountsPartition(orders: seq<Order>)
    ensures |OfStatus(orders, Pending)| + |OfStatus(orders, Confirmed)| + |OfStatus(orders, Preparing)|
      + |OfStatus(orders, Ready)| + |OfStatus(orders, OnDelivery)| + |OfStatus(orders, Delivered)|
      + |OfStatus(orders, Cancelled)| == |orders|
  {
    if |orders| > 0 {
      CountsPartition(orders[1..]);
    }
  }

  /** The field of `st` that counts the orders in status `s`. */
  function CountOf(st: Statistics, s: Status): nat {
    match s
    case Pending => st.pendingOrders
    case Confirmed => st.confirmedOrders
    case Preparing => st.preparingOrders
    case Ready => st.readyOrders
    case OnDelivery => st.onDeliveryOrders
    case Delivered => st.deliveredOrders
    case Cancelled => st.cancelledOrders
  }

  /** The `stats` object of `findVendorOrders`: the number of orders, the
      number in each status, and the revenue of the delivered ones. */
  function Stats(orders: seq<Order>): (r: Statistics)
    ensures r.totalOrders == |orders|
    ensures forall s :: CountOf(r, s) == |OfStatus(orders, s)|
    ensures r.totalRevenue == Revenue(orders)
    ensures r.pendingOrders + r.confirmedOrders + r.preparingOrders + r.readyOrders
      + r.onDeliveryOrders + r.deliveredOrders + r.cancelledOrders == r.totalOrders
    ensures r.deliveredOrders == 0 ==> r.totalRevenue == 0
  {
    var c := CountsOf(orders);
    Statistics(|orders|, c[0], c[1], c[2], c[3], c[4], c[5], c[6], Revenue(orders))
  }

  /** The statistics of one order: it counts once, in its own status, and
      contributes its total to the revenue only when delivered. */
  lemma StatsOfOne(o: Order)
    ensures Stats([o]).totalOrders == 1
    ensures forall s :: CountOf(Stats([o]), s) == if o.status == s then 1 else 0
    ensures Stats([o]).totalRevenue == if o.status == Delivered then o.total else 0
  {
    assert [o][1..] == [];
    forall s ensures |OfStatus([o], s)| == if o.status == s then 1 else 0 {
      assert OfStatus([o], s) == (if o.status == s then [o] else []) + OfStatus([], s);
    }
    RevenueOfOne(o);
  }

  /** The statistics of two lists of orders together are the field-wise
      sums of their statistics. With `StatsOfOne` this determines `Stats`
      on every list. */
  lemma StatsAppend(a: seq<Order>, b: seq<Order>)
    ensures Stats(a + b).totalOrders == Stats(a).totalOrders + Stats(b).totalOrders
    ensures forall s :: CountOf(Stats(a + b), s) == CountOf(Stats(a), s) + CountOf(Stats(b), s)
    ensures Stats(a + b).totalRevenue == Stats(a).totalRevenue + Stats(b).totalRevenue
  {
    forall s ensures |OfStatus(a + b, s)| == |OfStatus(a, s)| + |OfStatus(b, s)| {
      FilterAppend(a, b, (o: Order) => o.status == s);
    }
    RevenueAppend(a, b);
  }

  /** Revenue is additive over lists of orders... */
  lemma {:induction false} RevenueAppend(a: seq<Order>, b: seq<Order>)
    ensures Revenue(a + b) == Revenue(a) + Revenue(b)
  {
    FilterAppend(a, b, (o: Order) => o.status == Delivered);
    SumTotalsAppend(OfStatus(a, Delivered), OfStatus(b, Delivered));
  }

  lemma {:induction false} SumTotalsAppend(a: seq<Order>, b: seq<Order>)
    ensures SumTotals(a + b) == SumTotals(a) + SumTotals(b)
  {
    if |a| == 0 {
      assert a + b == b;
    } else {
      assert (a + b)[1..] == a[1..] + b;
      SumTotalsAppend(a[1..], b);
    }
  }

  /** ...and one order contributes its total when delivered and nothing in
      any other status (pending, in progress or cancelled). */
  lemma RevenueOfOne(o: Order)
    ensures Revenue([o]) == if o.status == Delivered then o.total else 0
  {
    assert [o][1..] == [];
    var delivered := OfStatus([o], Delivered);
    if o.status == Delivered {
      assert delivered == [o];
      assert SumTotals([o]) == o.total + SumTotals([o][1..]);
    } else {
      assert delivered == [];
    }
  }

  /** Every order the store holds has a total of at least 0, so the revenue
      over any of them is at least 0. */
  lemma {:induction false} RevenueNonNegative(orders: seq<Order>)
    requires forall i :: 0 <= i < |orders| ==> ConsistentOrder(orders[i])
    ensures Revenue(orders) >= 0
  {
    if |orders| > 0 {
      RevenueNonNegative(orders[1..]);
      assert orders == [orders[0]] + orders[1..];
      RevenueAppend([orders[0]], orders[1..]);
      RevenueOfOne(orders[0]);
      SubtotalsNonNegative(orders[0].items);
    }
  }

  lemma {:induction false} SubtotalsNonNegative(items: seq<OrderItem>)
    requires forall k :: 0 <= k < |items| ==> ConsistentLine(items[k])
    ensures SumSubtotals(items) >= 0
  {
    if |items| > 0 {
      SubtotalsNonNegative(items[1..]);
    }
  }

  /** What `findVendorOrders` returns. */
  datatype VendorOrders = VendorOrders(vendor: Vendor, statistics: Statistics, data: seq<Order>)

  /** `findVendorOrders`: NotFound without a vendor profile; otherwise
      exactly the orders of the caller's vendor and their statistics. */
  function FindVendorOrders(vendors: seq<Vendor>, orders: seq<Order>, userId: int): (r: Result<VendorOrders>)
    ensures r.Err? <==> Lookup(vendors, VendorUserId, userId).None?
    ensures r.Err? ==> r.error == NotFound
    ensures r.Ok? ==> Some(r.value.vendor) == Lookup(vendors, VendorUserId, userId)
    ensures r.Ok? ==> forall o :: o in r.value.data <==> o in orders && o.vendorId == r.value.vendor.id
    ensures r.Ok? ==> r.value.statistics == Stats(r.value.data)
    ensures r.Ok? ==> forall o :: (multiset(r.value.data)[o] ==
      if o.vendorId == r.value.vendor.id then multiset(orders)[o] else 0)
  {
    match Lookup(vendors, VendorUserId, userId)
    case None => Err(NotFound)
    case Some(v) =>
      var mine := Filter(orders, (o: Order) => o.vendorId == v.id);
      forall o ensures multiset(mine)[o] == if o.vendorId == v.id then multiset(orders)[o] else 0 {
        FilterMultiset(orders, (o: Order) => o.vendorId == v.id, o);
      }
      Ok(VendorOrders(v, Stats(mine), mine))
  }

  /** Over the store's orders, the reported revenue is never negative. */
  lemma ReportedRevenueNonNegative(db: Store, userId: int)
    requires db.Valid()
    requires FindVendorOrders(db.vendors, db.orders, userId).Ok?
    ensures FindVendorOrders(db.vendors, db.orders, userId).value.statistics.totalRevenue >= 0
  {
    var data := FindVendorOrders(db.vendors, db.orders, userId).value.data;
    forall i | 0 <= i < |data| ensures ConsistentOrder(data[i]) {
      var j :| 0 <= j < |db.orders| && db.orders[j] == data[i];
    }
    RevenueNonNegative(data);
  }
}
