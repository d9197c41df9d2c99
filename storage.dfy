/** The database every service shares: one sequence of rows per table, the
    auto-increment counters of the tables the services insert into, and the
    invariant the services keep. */
module Storage {
  import opened Common
  import opened Tables
  import opened Entities

  /** Sum of the line subtotals of an order. */
  function SumSubtotals(items: seq<OrderItem>): int {
    if |items| == 0 then 0 else items[0].subtotal + SumSubtotals(items[1..])
  }

  /** An order line as `create` writes it: a positive quantity, a price of
      at least 0 and subtotal = price x quantity. */
  predicate ConsistentLine(item: OrderItem) {
    item.quantity >= 1 && item.price >= 0 && item.subtotal == item.price * item.quantity
  }

  /** An order as `create` writes it: at least one consistent line and
      total = sum of the subtotals + delivery fee, with a fee of at least 0. */
  predicate ConsistentOrder(o: Order) {
    && |o.items| >= 1
    && (forall k :: 0 <= k < |o.items| ==> ConsistentLine(o.items[k]))
    && o.deliveryFee >= 0
    && o.total == SumSubtotals(o.items) + o.deliveryFee
  }

  /** Distinct categories carry distinct names. */
  ghost predicate DistinctNames(categories: seq<Category>) {
    forall i, j :: 0 <= i < |categories| && 0 <= j < |categories| && i != j ==>
      categories[i].name != categories[j].name
  }

  /** The vendor with id `vendorId` exists and belongs to the user: the
      check `…vendor.user_id === userId` that guards the changes a vendor
      makes to its menus and orders. */
  predicate VendorOfUser(vendors: seq<Vendor>, vendorId: int, userId: int) {
    var v := Lookup(vendors, VendorId, vendorId);
    v.Some? && v.value.userId == userId
  }

  class Store {
    var users: seq<User>
    var customers: seq<Customer>
    var vendors: seq<Vendor>
    var categories: seq<Category>
    var menus: seq<Menu>
    var orders: seq<Order>
    var nextCategoryId: int
    var nextMenuId: int
    var nextOrderId: int

    ghost predicate Valid()
      reads this
    {
      && UniqueKeys(users, UserId)
      && UniqueKeys(customers, CustomerId) && UniqueKeys(customers, CustomerUserId)
      && UniqueKeys(vendors, VendorId) && UniqueKeys(vendors, VendorUserId)
      && UniqueKeys(categories, CategoryId) && KeysBelow(categories, CategoryId, nextCategoryId)
      && DistinctNames(categories)
      && UniqueKeys(menus, MenuId) && KeysBelow(menus, MenuId, nextMenuId)
      && (forall i :: 0 <= i < |menus| ==> menus[i].price >= 0)
      && UniqueKeys(orders, OrderId) && KeysBelow(orders, OrderId, nextOrderId)
      && (forall i :: 0 <= i < |orders| ==> ConsistentOrder(orders[i]))
    }

    /** An empty database whose counters start at 1. */
    constructor ()
      ensures Valid()
      ensures users == [] && customers == [] && vendors == []
      ensures categories == [] && menus == [] && orders == []
      ensures nextCategoryId == 1 && nextMenuId == 1 && nextOrderId == 1
    {
      users, customers, vendors := [], [], [];
      categories, menus, orders := [], [], [];
      nextCategoryId, nextMenuId, nextOrderId := 1, 1, 1;
    }
  }
}
