/** The order service: the order builder (`create`), the status machine
    (`updateStatus`), cancellation (`cancel`) and the role-scoped reads
    (`findAll`, `findOne`). Each operation that writes is a pure outcome
    function, holding its guards in the source's order and the row it
    writes, and a method that runs it against the store and commits. */
module Orders {
  import opened Common
  import opened Tables
  import opened OrderStatus
  import opened Entities
  import opened OrderDto
  import opened Storage

  // ---------------------------------------------------------------------
  // Lookups the service makes

  function CustomerByUser(customers: seq<Customer>, userId: int): Option<Customer> {
    Lookup(customers, CustomerUserId, userId)
  }

  function VendorById(vendors: seq<Vendor>, id: int): Option<Vendor> {
    Lookup(vendors, VendorId, id)
  }

  function VendorByUser(vendors: seq<Vendor>, userId: int): Option<Vendor> {
    Lookup(vendors, VendorUserId, userId)
  }

  function MenuById(menus: seq<Menu>, id: int): Option<Menu> {
    Lookup(menus, MenuId, id)
  }

  function OrderById(orders: seq<Order>, id: int): Option<Order> {
    Lookup(orders, OrderId, id)
  }

  /** `order.customer.user.id === userId`. */
  predicate CustomerOwns(customers: seq<Customer>, o: Order, userId: int) {
    var c := Lookup(customers, CustomerId, o.customerId);
    c.Some? && c.value.userId == userId
  }

  /** `order.vendor.user_id === userId`. */
  predicate VendorOwns(vendors: seq<Vendor>, o: Order, userId: int) {
    VendorOfUser(vendors, o.vendorId, userId)
  }

  // ---------------------------------------------------------------------
  // Order builder: the menu check

  /** `items.map((item) => item.menuId)`. */
  function MenuIds(items: seq<OrderItemDto>): (ids: seq<int>)
    ensures |ids| == |items| && forall i :: 0 <= i < |items| ==> ids[i] == items[i].menuId
  {
    seq(|items|, i requires 0 <= i < |items| => items[i].menuId)
  }

  /** `menus.findMany({ where: { id: { in: ids }, vendor_id } })`. */
  function Matching(menus: seq<Menu>, ids: seq<int>, vendorId: int): seq<Menu> {
    Filter(menus, (m: Menu) => m.id in ids && m.vendorId == vendorId)
  }

  /** The menu with this id exists and belongs to the vendor. */
  predicate Offers(menus: seq<Menu>, vendorId: int, id: int) {
    var m := MenuById(menus, id);
    m.Some? && m.value.vendorId == vendorId
  }

  /** ... and can be ordered now. */
  predicate Orderable(menus: seq<Menu>, vendorId: int, id: int) {
    Offers(menus, vendorId, id) && MenuById(menus, id).value.available
  }

  /** The rows a query returns from a table with unique ids carry distinct
      ids. */
  lemma MatchingIds(menus: seq<Menu>, ids: seq<int>, vendorId: int)
    requires UniqueKeys(menus, MenuId)
    ensures var found := Matching(menus, ids, vendorId);
      |set m | m in found :: m.id| == |found|
  {
    FilterUnique(menus, MenuId, (m: Menu) => m.id in ids && m.vendorId == vendorId);
    var found := Matching(menus, ids, vendorId);
    UniqueKeyCount(found, MenuId);
    var ids := set m | m in found :: m.id;
    forall k ensures k in Keys(found, MenuId) <==> k in ids {
      if k in Keys(found, MenuId) {
        var m :| m in found && MenuId(m) == k;
      }
      if k in ids {
        var m :| m in found && m.id == k;
        assert MenuId(m) == k;
      }
    }
    assert Keys(found, MenuId) == ids;
  }

  /** The count comparison `menus.length !== menuIds.length`: the query
      finds exactly as many rows as there are items if and only if no menu
      id is requested twice and every requested menu exists and belongs to
      the vendor. */
  lemma MatchCountIff(menus: seq<Menu>, ids: seq<int>, vendorId: int)
    requires UniqueKeys(menus, MenuId)
    ensures |Matching(menus, ids, vendorId)| == |ids| <==>
      Distinct(ids) && forall i :: 0 <= i < |ids| ==> Offers(menus, vendorId, ids[i])
  {
    var found := Matching(menus, ids, vendorId);
    var foundIds := set m | m in found :: m.id;
    var wanted := set x | x in ids;
    MatchingIds(menus, ids, vendorId);
    DistinctCard(ids);
    assert foundIds <= wanted;
    SubsetCard(foundIds, wanted);
    if |found| == |ids| {
      forall i | 0 <= i < |ids| ensures Offers(menus, vendorId, ids[i]) {
        assert ids[i] in foundIds;
        var m :| m in found && m.id == ids[i];
        var j :| 0 <= j < |menus| && menus[j] == m;
        LookupUnique(menus, MenuId, j);
      }
    }
    if Distinct(ids) && forall i :: 0 <= i < |ids| ==> Offers(menus, vendorId, ids[i]) {
      forall x | x in wanted ensures x in foundIds {
        var i :| 0 <= i < |ids| && ids[i] == x;
        assert Offers(menus, vendorId, ids[i]);
        var m := MenuById(menus, x).value;
        var j :| 0 <= j < |menus| && menus[j] == m;
        assert m in found;
      }
      SubsetCard(wanted, foundIds);
    }
  }

  /** After the count check, every requested id is found among the
      returned rows, and that row is the table's menu with this id. */
  lemma MatchedFound(menus: seq<Menu>, ids: seq<int>, vendorId: int)
    requires UniqueKeys(menus, MenuId)
    requires |Matching(menus, ids, vendorId)| == |ids|
    ensures forall i :: 0 <= i < |ids| ==>
      var k := FindIndex(Matching(menus, ids, vendorId), MenuId, ids[i]);
      k.Some? && Some(Matching(menus, ids, vendorId)[k.value]) == MenuById(menus, ids[i])
  {
    MatchCountIff(menus, ids, vendorId);
    var found := Matching(menus, ids, vendorId);
    forall i | 0 <= i < |ids|
      ensures var k := FindIndex(found, MenuId, ids[i]);
        k.Some? && Some(found[k.value]) == MenuById(menus, ids[i])
    {
      var m := MenuById(menus, ids[i]).value;
      var j :| 0 <= j < |menus| && menus[j] == m;
      assert m in found;
      var k := FindIndex(found, MenuId, ids[i]);
      var f := found[k.value];
      var j' :| 0 <= j' < |menus| && menus[j'] == f;
      LookupUnique(menus, MenuId, j');
    }
  }

  // ---------------------------------------------------------------------
  // Order builder: prices and totals

  /** One order line: the menu's current price is captured in the line. */
  function LineFor(item: OrderItemDto, menu: Menu): OrderItem {
    OrderItem(item.menuId, item.quantity, menu.price, menu.price * item.quantity)
  }

  /** `items.map(...)` over the rows the check returned, each item priced
      by the row `menus.find(m => m.id === item.menuId)` gives. */
  function Lines(items: seq<OrderItemDto>, found: seq<Menu>): (r: seq<OrderItem>)
    requires forall i :: 0 <= i < |items| ==> FindIndex(found, MenuId, items[i].menuId).Some?
    ensures |r| == |items|
    ensures forall i :: 0 <= i < |items| ==>
      r[i] == LineFor(items[i], found[FindIndex(found, MenuId, items[i].menuId).value])
  {
    seq(|items|, i requires 0 <= i < |items| =>
      LineFor(items[i], found[FindIndex(found, MenuId, items[i].menuId).value]))
  }

  /** The reference definition of what an order costs before delivery:
      the sum of quantity x current menu price over the requested items. */
  function Cost(items: seq<OrderItemDto>, menus: seq<Menu>): int
    requires forall i :: 0 <= i < |items| ==> MenuById(menus, items[i].menuId).Some?
  {
    if |items| == 0 then 0
    else items[0].quantity * MenuById(menus, items[0].menuId).value.price + Cost(items[1..], menus)
  }

  /** The subtotals of the lines add up to the cost of the items. */
  lemma {:induction false} SubtotalsAreCost(lines: seq<OrderItem>, items: seq<OrderItemDto>, menus: seq<Menu>)
    requires |lines| == |items|
    requires forall i :: 0 <= i < |items| ==> MenuById(menus, items[i].menuId).Some?
    requires forall i :: 0 <= i < |items| ==>
      lines[i].subtotal == MenuById(menus, items[i].menuId).value.price * items[i].quantity
    ensures SumSubtotals(lines) == Cost(items, menus)
  {
    if |items| > 0 {
      SubtotalsAreCost(lines[1..], items[1..], menus);
    }
  }

  /** The order `create` writes, or the exception it throws first:
      no customer profile, unknown vendor (NotFound); inactive vendor, a
      menu count mismatch, an unavailable menu (BadRequest). The status is
      the column default, pending. */
  function PlanOrder(
    customers: seq<Customer>, vendors: seq<Vendor>, menus: seq<Menu>,
    orderId: int, userId: int, dto: CreateOrderDto): (r: Result<Order>)
    requires UniqueKeys(menus, MenuId) && ValidCreateOrder(dto)
    ensures r.Err? ==> r.error == NotFound || r.error == BadRequest
    ensures r == Err(NotFound) <==>
      CustomerByUser(customers, userId).None? || VendorById(vendors, dto.vendorId).None?
    ensures r.Ok? ==> r.value.id == orderId && r.value.status == Pending
    ensures r.Ok? ==> Some(r.value.customerId) == (match CustomerByUser(customers, userId)
                                                   case Some(c) => Some(c.id)
                                                   case None => None)
    ensures r.Ok? ==> r.value.vendorId == dto.vendorId && r.value.notes == dto.notes
  {
    match CustomerByUser(customers, userId)
    case None => Err(NotFound)
    case Some(customer) =>
      match VendorById(vendors, dto.vendorId)
      case None => Err(NotFound)
      case Some(vendor) =>
        if !vendor.isActive then Err(BadRequest)
        else
          var ids := MenuIds(dto.items);
          var found := Matching(menus, ids, vendor.id);
          if |found| != |ids| then Err(BadRequest)
          else if exists k :: 0 <= k < |found| && !found[k].available then Err(BadRequest)
          else
            MatchedFound(menus, ids, vendor.id);
            var lines := Lines(dto.items, found);
            var fee := DeliveryFee(dto);
            Ok(Order(orderId, customer.id, vendor.id, Pending, SumSubtotals(lines) + fee, fee, dto.notes, lines))
  }

  /** The rows the check returned are all available exactly when every
      requested menu can be ordered. */
  lemma AvailableIff(menus: seq<Menu>, ids: seq<int>, vendorId: int)
    requires UniqueKeys(menus, MenuId)
    requires |Matching(menus, ids, vendorId)| == |ids|
    ensures (forall k :: 0 <= k < |Matching(menus, ids, vendorId)| ==> Matching(menus, ids, vendorId)[k].available)
      <==> forall i :: 0 <= i < |ids| ==> Orderable(menus, vendorId, ids[i])
  {
    var found := Matching(menus, ids, vendorId);
    MatchedFound(menus, ids, vendorId);
    MatchCountIff(menus, ids, vendorId);
    if forall k :: 0 <= k < |found| ==> found[k].available {
      forall i | 0 <= i < |ids| ensures Orderable(menus, vendorId, ids[i]) {
        var k := FindIndex(found, MenuId, ids[i]).value;
        assert found[k].available;
      }
    } else {
      var k :| 0 <= k < |found| && !found[k].available;
      var j :| 0 <= j < |menus| && menus[j] == found[k];
      LookupUnique(menus, MenuId, j);
      var i :| 0 <= i < |ids| && ids[i] == found[k].id;
      assert !Orderable(menus, vendorId, ids[i]);
    }
  }

  /** `create` succeeds exactly when the caller has a customer profile, the
      vendor exists and is active, no menu id is repeated, and every
      requested menu exists, belongs to the vendor and is available. */
  lemma PlanOrderSucceedsIff(
    customers: seq<Customer>, vendors: seq<Vendor>, menus: seq<Menu>,
    orderId: int, userId: int, dto: CreateOrderDto)
    requires UniqueKeys(menus, MenuId) && ValidCreateOrder(dto)
    ensures PlanOrder(customers, vendors, menus, orderId, userId, dto).Ok? <==>
      && CustomerByUser(customers, userId).Some?
      && VendorById(vendors, dto.vendorId).Some?
      && VendorById(vendors, dto.vendorId).value.isActive
      && Distinct(MenuIds(dto.items))
      && forall i :: 0 <= i < |dto.items| ==> Orderable(menus, dto.vendorId, dto.items[i].menuId)
  {
    var ids := MenuIds(dto.items);
    MatchCountIff(menus, ids, dto.vendorId);
    if |Matching(menus, ids, dto.vendorId)| == |ids| {
      AvailableIff(menus, ids, dto.vendorId);
    }
    assert (forall i :: 0 <= i < |dto.items| ==> Orderable(menus, dto.vendorId, dto.items[i].menuId))
      <==> (forall i :: 0 <= i < |ids| ==> Orderable(menus, dto.vendorId, ids[i]));
    assert (forall i :: 0 <= i < |ids| ==> Orderable(menus, dto.vendorId, ids[i]))
      ==> (forall i :: 0 <= i < |ids| ==> Offers(menus, dto.vendorId, ids[i]));
  }

  /** A request naming the same menu twice is refused, like one naming a
      missing menu or another vendor's menu. */
  lemma DuplicateMenuRejected(
    customers: seq<Customer>, vendors: seq<Vendor>, menus: seq<Menu>,
    orderId: int, userId: int, dto: CreateOrderDto, i: nat, j: nat)
    requires UniqueKeys(menus, MenuId) && ValidCreateOrder(dto)
    requires i < j < |dto.items| && dto.items[i].menuId == dto.items[j].menuId
    ensures PlanOrder(customers, vendors, menus, orderId, userId, dto).Err?
  {
    PlanOrderSucceedsIff(customers, vendors, menus, orderId, userId, dto);
    assert MenuIds(dto.items)[i] == MenuIds(dto.items)[j];
  }

  /** The order written: every line carries the menu's current price and
      subtotal = price x quantity; total = cost of the items + delivery
      fee, the fee (0 when omitted) is also stored; the order is
      consistent in the sense the store keeps. */
  lemma PlanOrderPricing(
    customers: seq<Customer>, vendors: seq<Vendor>, menus: seq<Menu>,
    orderId: int, userId: int, dto: CreateOrderDto)
    requires UniqueKeys(menus, MenuId) && ValidCreateOrder(dto)
    requires forall k :: 0 <= k < |menus| ==> menus[k].price >= 0
    requires PlanOrder(customers, vendors, menus, orderId, userId, dto).Ok?
    ensures var o := PlanOrder(customers, vendors, menus, orderId, userId, dto).value;
      && |o.items| == |dto.items|
      && (forall i :: 0 <= i < |dto.items| ==>
            && MenuById(menus, dto.items[i].menuId).Some?
            && o.items[i].menuId == dto.items[i].menuId
            && o.items[i].quantity == dto.items[i].quantity
            && o.items[i].price == MenuById(menus, dto.items[i].menuId).value.price
            && o.items[i].subtotal == o.items[i].price * o.items[i].quantity)
      && o.deliveryFee == DeliveryFee(dto)
      && o.total == Cost(dto.items, menus) + o.deliveryFee
      && ConsistentOrder(o)
  {
    var o := PlanOrder(customers, vendors, menus, orderId, userId, dto).value;
    var ids := MenuIds(dto.items);
    var found := Matching(menus, ids, dto.vendorId);
    MatchedFound(menus, ids, dto.vendorId);
    assert o.items == Lines(dto.items, found);
    forall i | 0 <= i < |dto.items|
      ensures MenuById(menus, dto.items[i].menuId).Some?
      ensures o.items[i].price == MenuById(menus, dto.items[i].menuId).value.price
    {
      assert ids[i] == dto.items[i].menuId;
    }
    SubtotalsAreCost(o.items, dto.items, menus);
    forall k | 0 <= k < |o.items| ensures ConsistentLine(o.items[k]) {
      var m := MenuById(menus, dto.items[k].menuId).value;
      assert m.price >= 0;
    }
  }

  // A worked example: an active vendor offers M1 (10000, available) and
  // M2 (5000, unavailable).
  const ExampleCustomers: seq<Customer> := [Customer(1, 10, "0812", None, None)]
  const ExampleVendors: seq<Vendor> := [Vendor(1, 20, "V", None, "Jl. A", "Bandung", "0813", true)]
  const ExampleMenus: seq<Menu> :=
    [Menu(1, 1, None, "M1", None, 10000, None, None, true),
     Menu(2, 1, None, "M2", None, 5000, None, None, false)]

  /** Two of M1 make a pending order of 20000 with no delivery fee. */
  lemma ExampleOrderAccepted()
    ensures PlanOrder(ExampleCustomers, ExampleVendors, ExampleMenus, 7, 10, CreateOrderDto(1, [OrderItemDto(1, 2)], None, None))
      == Ok(Order(7, 1, 1, Pending, 20000, 0, None, [OrderItem(1, 2, 10000, 20000)]))
  {
    var menus := ExampleMenus;
    var dto := CreateOrderDto(1, [OrderItemDto(1, 2)], None, None);
    assert UniqueKeys(menus, MenuId);
    LookupUnique(menus, MenuId, 0);
    LookupUnique(ExampleCustomers, CustomerUserId, 0);
    LookupUnique(ExampleVendors, VendorId, 0);
    assert Distinct(MenuIds(dto.items));
    PlanOrderSucceedsIff(ExampleCustomers, ExampleVendors, menus, 7, 10, dto);
    PlanOrderPricing(ExampleCustomers, ExampleVendors, menus, 7, 10, dto);
    var o := PlanOrder(ExampleCustomers, ExampleVendors, menus, 7, 10, dto).value;
    assert MenuById(menus, 1) == Some(menus[0]);
    assert Cost(dto.items, menus) == 2 * 10000 + Cost(dto.items[1..], menus);
    assert o.items[0] == OrderItem(1, 2, 10000, 20000);
    assert o.items == [OrderItem(1, 2, 10000, 20000)];
    assert o.total == 20000 && o.deliveryFee == 0;
    assert o.id == 7 && o.status == Pending && o.customerId == 1 && o.vendorId == 1 && o.notes == None;
  }

  /** Adding one M2 to the same request is refused. */
  lemma ExampleUnavailableRefused()
    ensures PlanOrder(ExampleCustomers, ExampleVendors, ExampleMenus, 7, 10,
                      CreateOrderDto(1, [OrderItemDto(1, 2), OrderItemDto(2, 1)], None, None))
      == Err(BadRequest)
  {
    var menus := ExampleMenus;
    var dto := CreateOrderDto(1, [OrderItemDto(1, 2), OrderItemDto(2, 1)], None, None);
    assert UniqueKeys(menus, MenuId);
    LookupUnique(menus, MenuId, 1);
    LookupUnique(ExampleCustomers, CustomerUserId, 0);
    LookupUnique(ExampleVendors, VendorId, 0);
    PlanOrderSucceedsIff(ExampleCustomers, ExampleVendors, menus, 7, 10, dto);
    assert !Orderable(menus, 1, dto.items[1].menuId);
  }

  /** `create`: runs the builder against the store and, on success, inserts
      the order under the next id; on failure nothing is written. */
  method Create(db: Store, userId: int, dto: CreateOrderDto) returns (r: Result<Order>)
    requires db.Valid() && ValidCreateOrder(dto)
    modifies db`orders, db`nextOrderId
    ensures db.Valid()
    ensures r == PlanOrder(db.customers, db.vendors, db.menus, old(db.nextOrderId), userId, dto)
    ensures r.Ok? ==> db.orders == old(db.orders) + [r.value] && db.nextOrderId == old(db.nextOrderId) + 1
    ensures r.Err? ==> db.orders == old(db.orders) && db.nextOrderId == old(db.nextOrderId)
  {
    r := PlanOrder(db.customers, db.vendors, db.menus, db.nextOrderId, userId, dto);
    if r.Ok? {
      PlanOrderPricing(db.customers, db.vendors, db.menus, db.nextOrderId, userId, dto);
      UniqueAfterAppend(db.orders, OrderId, db.nextOrderId, r.value);
      db.orders := db.orders + [r.value];
      db.nextOrderId := db.nextOrderId + 1;
    }
  }

  // ---------------------------------------------------------------------
  // Status machine

  /** `updateStatus`: the order with its new status, or the exception
      thrown first: unknown order (NotFound), caller not the vendor's user
      (Forbidden), a status with no successor or a request that is not
      exactly the successor (BadRequest). */
  function AdvanceOutcome(orders: seq<Order>, vendors: seq<Vendor>, id: int, userId: int, requested: Status): (r: Result<Order>)
    ensures r == Err(NotFound) <==> OrderById(orders, id).None?
    ensures r == Err(Forbidden) <==>
      OrderById(orders, id).Some? && !VendorOwns(vendors, OrderById(orders, id).value, userId)
    ensures r.Ok? <==>
      && OrderById(orders, id).Some?
      && VendorOwns(vendors, OrderById(orders, id).value, userId)
      && NextStatus(OrderById(orders, id).value.status) == Some(requested)
    ensures r.Err? ==> r.error != Conflict
    ensures r.Ok? ==>
      && r.value == OrderById(orders, id).value.(status := requested)
      && LegalStep(OrderById(orders, id).value.status, requested)
      && requested in Requestable
  {
    match OrderById(orders, id)
    case None => Err(NotFound)
    case Some(order) =>
      if !VendorOwns(vendors, order, userId) then Err(Forbidden)
      else
        match NextStatus(order.status)
        case None => Err(BadRequest)
        case Some(expected) =>
          if requested != expected then Err(BadRequest)
          else Ok(order.(status := requested))
  }

  /** `updateStatus` against the store: on success only that order's
      status changes. */
  method UpdateStatus(db: Store, id: int, userId: int, requested: Status) returns (r: Result<Order>)
    requires db.Valid()
    modifies db`orders
    ensures db.Valid()
    ensures r == AdvanceOutcome(old(db.orders), db.vendors, id, userId, requested)
    ensures r.Ok? ==>
      && FindIndex(old(db.orders), OrderId, id).Some?
      && db.orders == old(db.orders)[FindIndex(old(db.orders), OrderId, id).value := r.value]
    ensures r.Err? ==> db.orders == old(db.orders)
  {
    r := AdvanceOutcome(db.orders, db.vendors, id, userId, requested);
    if r.Ok? {
      var i := FindIndex(db.orders, OrderId, id).value;
      UniqueAfterUpdate(db.orders, OrderId, i, r.value);
      BelowAfterUpdate(db.orders, OrderId, db.nextOrderId, i, r.value);
      db.orders := db.orders[i := r.value];
    }
  }

  // ---------------------------------------------------------------------
  // Cancellation

  /** `cancel`: the cancelled order, or the exception thrown first: unknown
      order (NotFound), a customer or vendor who does not own it
      (Forbidden), a status outside the caller's cancellation window
      (BadRequest). */
  function CancelOutcome(
    orders: seq<Order>, customers: seq<Customer>, vendors: seq<Vendor>,
    id: int, userId: int, role: Role): (r: Result<Order>)
    ensures r == Err(NotFound) <==> OrderById(orders, id).None?
    ensures r == Err(Forbidden) <==>
      && OrderById(orders, id).Some?
      && ((role == CUSTOMER && !CustomerOwns(customers, OrderById(orders, id).value, userId))
          || (role == VENDOR && !VendorOwns(vendors, OrderById(orders, id).value, userId)))
    ensures r.Err? ==> r.error != Conflict
    ensures r.Ok? ==> r.value == OrderById(orders, id).value.(status := Cancelled)
    ensures r.Ok? && role == CUSTOMER ==> OrderById(orders, id).value.status == Pending
    ensures r.Ok? && role == VENDOR ==> OrderById(orders, id).value.status in {Pending, Confirmed}
    ensures r.Ok? && role != ADMIN ==> LegalStep(OrderById(orders, id).value.status, Cancelled)
  {
    match OrderById(orders, id)
    case None => Err(NotFound)
    case Some(order) =>
      if role == CUSTOMER && !CustomerOwns(customers, order, userId) then Err(Forbidden)
      else if role == VENDOR && !VendorOwns(vendors, order, userId) then Err(Forbidden)
      else if !CancelAllowed(role, order.status) then Err(BadRequest)
      else Ok(order.(status := Cancelled))
  }

  /** For an order its caller owns, cancellation succeeds exactly inside
      the caller's window: pending for a customer, pending or confirmed for
      a vendor. */
  lemma CancelSucceedsIff(
    orders: seq<Order>, customers: seq<Customer>, vendors: seq<Vendor>,
    id: int, userId: int, role: Role)
    requires OrderById(orders, id).Some?
    requires role == CUSTOMER ==> CustomerOwns(customers, OrderById(orders, id).value, userId)
    requires role == VENDOR ==> VendorOwns(vendors, OrderById(orders, id).value, userId)
    ensures role == CUSTOMER ==>
      (CancelOutcome(orders, customers, vendors, id, userId, role).Ok? <==> OrderById(orders, id).value.status == Pending)
    ensures role == VENDOR ==>
      (CancelOutcome(orders, customers, vendors, id, userId, role).Ok? <==>
         OrderById(orders, id).value.status in {Pending, Confirmed})
  {
  }

  /** `cancel` against the store; the controller admits only customers and
      vendors. On success only that order's status changes. */
  method Cancel(db: Store, id: int, userId: int, role: Role) returns (r: Result<Order>)
    requires db.Valid()
    requires role == CUSTOMER || role == VENDOR
    modifies db`orders
    ensures db.Valid()
    ensures r == CancelOutcome(old(db.orders), db.customers, db.vendors, id, userId, role)
    ensures r.Ok? ==>
      && FindIndex(old(db.orders), OrderId, id).Some?
      && db.orders == old(db.orders)[FindIndex(old(db.orders), OrderId, id).value := r.value]
    ensures r.Err? ==> db.orders == old(db.orders)
  {
    r := CancelOutcome(db.orders, db.customers, db.vendors, id, userId, role);
    if r.Ok? {
      var i := FindIndex(db.orders, OrderId, id).value;
      UniqueAfterUpdate(db.orders, OrderId, i, r.value);
      BelowAfterUpdate(db.orders, OrderId, db.nextOrderId, i, r.value);
      db.orders := db.orders[i := r.value];
    }
  }

  /** Once cancelled, an order can be neither advanced nor cancelled again
      by anyone the controllers admit. */
  lemma CancelledIsFinal(
    orders: seq<Order>, customers: seq<Customer>, vendors: seq<Vendor>,
    id: int, userId: int, role: Role, userId': int, role': Role, requested: Status)
    requires UniqueKeys(orders, OrderId)
    requires role != ADMIN && role' != ADMIN
    requires CancelOutcome(orders, customers, vendors, id, userId, role).Ok?
    ensures var i := FindIndex(orders, OrderId, id).value;
      var after := orders[i := CancelOutcome(orders, customers, vendors, id, userId, role).value];
      && AdvanceOutcome(after, vendors, id, userId', requested).Err?
      && CancelOutcome(after, customers, vendors, id, userId', role').Err?
  {
    var i := FindIndex(orders, OrderId, id).value;
    var o := CancelOutcome(orders, customers, vendors, id, userId, role).value;
    var after := orders[i := o];
    UniqueAfterUpdate(orders, OrderId, i, o);
    LookupUnique(after, OrderId, i);
    assert OrderById(after, id) == Some(o);
  }

  // ---------------------------------------------------------------------
  // Role-scoped reads

  /** The `whereClause` of `findAll`, as an explicit choice. */
  datatype Scope = AllOrders | OfCustomer(customerId: int) | OfVendor(vendorId: int)

  predicate InScope(o: Order, scope: Scope) {
    match scope
    case AllOrders => true
    case OfCustomer(c) => o.customerId == c
    case OfVendor(v) => o.vendorId == v
  }

  /** The scope for the caller: their own customer or vendor id, NotFound
      without that profile; every other role reads everything. */
  function ScopeFor(customers: seq<Customer>, vendors: seq<Vendor>, userId: int, role: Role): (r: Result<Scope>)
    ensures r.Err? ==> r.error == NotFound && role != ADMIN
    ensures role == CUSTOMER ==>
      (r.Ok? <==> CustomerByUser(customers, userId).Some?)
      && (r.Ok? ==> r.value == OfCustomer(CustomerByUser(customers, userId).value.id))
    ensures role == VENDOR ==>
      (r.Ok? <==> VendorByUser(vendors, userId).Some?)
      && (r.Ok? ==> r.value == OfVendor(VendorByUser(vendors, userId).value.id))
    ensures role == ADMIN ==> r == Ok(AllOrders)
  {
    if role == CUSTOMER then
      match CustomerByUser(customers, userId)
      case None => Err(NotFound)
      case Some(c) => Ok(OfCustomer(c.id))
    else if role == VENDOR then
      match VendorByUser(vendors, userId)
      case None => Err(NotFound)
      case Some(v) => Ok(OfVendor(v.id))
    else Ok(AllOrders)
  }

  /** `findAll`: the orders in the caller's scope (`total` is the length). */
  function FindAllOrders(orders: seq<Order>, customers: seq<Customer>, vendors: seq<Vendor>, userId: int, role: Role): (r: Result<seq<Order>>)
    ensures r.Err? <==> ScopeFor(customers, vendors, userId, role).Err?
    ensures r.Err? ==> r.error == NotFound
    ensures r.Ok? ==> |r.value| <= |orders|
    ensures r.Ok? ==> forall o :: o in r.value <==> o in orders && InScope(o, ScopeFor(customers, vendors, userId, role).value)
    ensures r.Ok? ==> forall o :: (multiset(r.value)[o] ==
      if InScope(o, ScopeFor(customers, vendors, userId, role).value) then multiset(orders)[o] else 0)
  {
    match ScopeFor(customers, vendors, userId, role)
    case Err(e) => Err(e)
    case Ok(scope) =>
      forall o ensures multiset(Filter(orders, (o: Order) => InScope(o, scope)))[o]
        == if InScope(o, scope) then multiset(orders)[o] else 0 {
        FilterMultiset(orders, (o: Order) => InScope(o, scope), o);
      }
      Ok(Filter(orders, (o: Order) => InScope(o, scope)))
  }

  /** `findOne`: the order, NotFound when absent, Forbidden to a customer or
      vendor who does not own it; an administrator reads any order. */
  function FindOneOrder(orders: seq<Order>, customers: seq<Customer>, vendors: seq<Vendor>, id: int, userId: int, role: Role): (r: Result<Order>)
    ensures r == Err(NotFound) <==> OrderById(orders, id).None?
    ensures r.Ok? ==> OrderById(orders, id) == Some(r.value)
    ensures r == Err(Forbidden) <==>
      && OrderById(orders, id).Some?
      && ((role == CUSTOMER && !CustomerOwns(customers, OrderById(orders, id).value, userId))
          || (role == VENDOR && !VendorOwns(vendors, OrderById(orders, id).value, userId)))
    ensures role == ADMIN ==> (r.Ok? <==> OrderById(orders, id).Some?)
  {
    match OrderById(orders, id)
    case None => Err(NotFound)
    case Some(order) =>
      if role == CUSTOMER && !CustomerOwns(customers, order, userId) then Err(Forbidden)
      else if role == VENDOR && !VendorOwns(vendors, order, userId) then Err(Forbidden)
      else Ok(order)
  }

  /** The list and the detail agree: for a customer or a vendor, an order of
      the store is in `findAll`'s result exactly when `findOne` gives it to
      the same caller. */
  lemma ListedIffReadable(db: Store, userId: int, role: Role, i: nat)
    requires db.Valid()
    requires role == CUSTOMER || role == VENDOR
    requires FindAllOrders(db.orders, db.customers, db.vendors, userId, role).Ok?
    requires i < |db.orders|
    ensures db.orders[i] in FindAllOrders(db.orders, db.customers, db.vendors, userId, role).value
      <==> FindOneOrder(db.orders, db.customers, db.vendors, db.orders[i].id, userId, role).Ok?
  {
    var o := db.orders[i];
    LookupUnique(db.orders, OrderId, i);
    assert OrderById(db.orders, o.id) == Some(o);
    if role == CUSTOMER {
      var c := CustomerByUser(db.customers, userId).value;
      var j :| 0 <= j < |db.customers| && db.customers[j] == c;
      LookupUnique(db.customers, CustomerId, j);
      var owner := Lookup(db.customers, CustomerId, o.customerId);
      if owner.Some? && owner.value.userId == userId {
        var j' :| 0 <= j' < |db.customers| && db.customers[j'] == owner.value;
        LookupUnique(db.customers, CustomerUserId, j');
      }
    } else {
      var v := VendorByUser(db.vendors, userId).value;
      var j :| 0 <= j < |db.vendors| && db.vendors[j] == v;
      LookupUnique(db.vendors, VendorId, j);
      var owner := VendorById(db.vendors, o.vendorId);
      if owner.Some? && owner.value.userId == userId {
        var j' :| 0 <= j' < |db.vendors| && db.vendors[j'] == owner.value;
        LookupUnique(db.vendors, VendorUserId, j');
      }
    }
  }
}
