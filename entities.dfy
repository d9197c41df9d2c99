/** The rows of the tables the services read and write. Money (prices,
    totals, fees) is held in integer minor units. */
module Entities {
  import opened Common
  import opened OrderStatus

  datatype User = User(id: int, email: string, name: string, role: Role)

  datatype Customer = Customer(
    id: int, userId: int, phone: string, address: Option<string>, city: Option<string>)

  datatype Vendor = Vendor(
    id: int, userId: int, name: string, description: Option<string>,
    address: string, city: string, phone: string, isActive: bool)

  datatype Category = Category(id: int, name: string, description: Option<string>)

  datatype Menu = Menu(
    id: int, vendorId: int, categoryId: Option<int>, name: string,
    description: Option<string>, price: int, calories: Option<int>,
    imageUrl: Option<string>, available: bool)

  /** One order line; `price` is the menu price captured when ordering. */
  datatype OrderItem = OrderItem(menuId: int, quantity: int, price: int, subtotal: int)

  datatype Order = Order(
    id: int, customerId: int, vendorId: int, status: Status,
    total: int, deliveryFee: int, notes: Option<string>, items: seq<OrderItem>)

  // Key columns, as functions for the generic table lookups.
  function UserId(u: User): int { u.id }
  function CustomerId(c: Customer): int { c.id }
  function CustomerUserId(c: Customer): int { c.userId }
  function VendorId(v: Vendor): int { v.id }
  function VendorUserId(v: Vendor): int { v.userId }
  function CategoryId(c: Category): int { c.id }
  function MenuId(m: Menu): int { m.id }
  function OrderId(o: Order): int { o.id }
}
