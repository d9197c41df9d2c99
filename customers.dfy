/** The customer service: the administrator's list and delete, the
    ownership-guarded profile read, and the customer's own update and
    account deletion. */
module Customers {
  import opened Common
  import opened Tables
  import opened Entities
  import opened Storage

  // ---------------------------------------------------------------------
  // Reads

  /** One entry of the administrator's list: the customer and the number
      of its orders. */
  datatype CustomerSummary = CustomerSummary(customer: Customer, totalOrders: nat)

  /** `_count.orders`: the number of orders placed by the customer. */
  function OrderCount(orders: seq<Order>, customerId: int): (n: nat)
    ensures n <= |orders|
    ensures forall o :: o in orders && o.customerId == customerId ==> n > 0
  {
    |Filter(orders, (o: Order) => o.customerId == customerId)|
  }

  /** `findAll`: every customer, in table order, with its order count;
      `total` is the number of customers. */
  function FindAllCustomers(customers: seq<Customer>, orders: seq<Order>): (r: seq<CustomerSummary>)
    ensures |r| == |customers|
    ensures forall i :: 0 <= i < |r| ==> r[i].customer == customers[i]
    ensures forall i :: 0 <= i < |r| ==> r[i].totalOrders == OrderCount(orders, customers[i].id)
    ensures forall i :: 0 <= i < |r| ==> r[i].totalOrders <= |orders|
    ensures forall i :: 0 <= i < |r| ==>
      (r[i].totalOrders == 0 <==> forall j :: 0 <= j < |orders| ==> orders[j].customerId != customers[i].id)
  {
    forall i | 0 <= i < |customers| {
      OrderCountZeroIff(orders, customers[i].id);
    }
    seq(|customers|, i requires 0 <= i < |customers| =>
      CustomerSummary(customers[i], OrderCount(orders, customers[i].id)))
  }

  lemma {:induction false} OrderCountZeroIff(orders: seq<Order>, customerId: int)
    ensures OrderCount(orders, customerId) == 0 <==>
      forall j :: 0 <= j < |orders| ==> orders[j].customerId != customerId
  {
    if |orders| > 0 {
      OrderCountZeroIff(orders[1..], customerId);
      assert forall j :: 1 <= j < |orders| ==> orders[j] == orders[1..][j - 1];
    }
  }

  /** `findOne`: NotFound for an unknown id, Forbidden when a customer asks
      for another customer's profile; an administrator reads any. */
  function FindCustomer(customers: seq<Customer>, id: int, userId: int, role: Role): (r: Result<Customer>)
    ensures r == Err(NotFound) <==> Lookup(customers, CustomerId, id).None?
    ensures r == Err(Forbidden) <==>
      Lookup(customers, CustomerId, id).Some? && role == CUSTOMER && Lookup(customers, CustomerId, id).value.userId != userId
    ensures r.Ok? ==> Some(r.value) == Lookup(customers, CustomerId, id)
    ensures role == ADMIN ==> (r.Ok? <==> Lookup(customers, CustomerId, id).Some?)
  {
    match Lookup(customers, CustomerId, id)
    case None => Err(NotFound)
    case Some(c) => if role == CUSTOMER && c.userId != userId then Err(Forbidden) else Ok(c)
  }

  /** A customer can read exactly one profile: its own. */
  lemma CustomerReadsOnlyOwnProfile(customers: seq<Customer>, id: int, userId: int)
    requires UniqueKeys(customers, CustomerId) && UniqueKeys(customers, CustomerUserId)
    ensures FindCustomer(customers, id, userId, CUSTOMER).Ok? <==>
      Lookup(customers, CustomerUserId, userId).Some? && Lookup(customers, CustomerUserId, userId).value.id == id
  {
    var own := Lookup(customers, CustomerUserId, userId);
    if own.Some? {
      var j :| 0 <= j < |customers| && customers[j] == own.value;
      LookupUnique(customers, CustomerId, j);
    }
    var byId := Lookup(customers, CustomerId, id);
    if byId.Some? && byId.value.userId == userId {
      var j :| 0 <= j < |customers| && customers[j] == byId.value;
      LookupUnique(customers, CustomerUserId, j);
    }
  }

  // ---------------------------------------------------------------------
  // Update

  /** An update body: every field optional; absent fields are left as
      they are. */
  datatype CustomerPatch = CustomerPatch(phone: Option<string>, address: Option<string>, city: Option<string>)

  /** The bounds of the update body: a phone of at most 20 characters and a
      city of at most 100. */
  predicate ValidCustomerPatch(p: CustomerPatch) {
    && (p.phone.Some? ==> |p.phone.value| <= 20)
    && (p.city.Some? ==> |p.city.value| <= 100)
  }

  function Patched(c: Customer, p: CustomerPatch): (r: Customer)
    ensures r.id == c.id && r.userId == c.userId
    ensures r.phone == p.phone.GetOr(c.phone)
    ensures r.address == if p.address.Some? then p.address else c.address
    ensures r.city == if p.city.Some? then p.city else c.city
  {
    c.(phone := p.phone.GetOr(c.phone),
       address := if p.address.Some? then p.address else c.address,
       city := if p.city.Some? then p.city else c.city)
  }

  /** `update`: NotFound without a customer profile; otherwise the caller's
      own row, patched. */
  function UpdateCustomerOutcome(customers: seq<Customer>, userId: int, p: CustomerPatch): (r: Result<Customer>)
    ensures r.Err? <==> Lookup(customers, CustomerUserId, userId).None?
    ensures r.Err? ==> r.error == NotFound
    ensures r.Ok? ==> r.value.userId == userId && r.value == Patched(Lookup(customers, CustomerUserId, userId).value, p)
  {
    match Lookup(customers, CustomerUserId, userId)
    case None => Err(NotFound)
    case Some(c) => Ok(Patched(c, p))
  }

  /** `update` against the store: only the caller's row changes. */
  method UpdateCustomer(db: Store, userId: int, p: CustomerPatch) returns (r: Result<Customer>)
    requires db.Valid() && ValidCustomerPatch(p)
    modifies db`customers
    ensures db.Valid()
    ensures r == UpdateCustomerOutcome(old(db.customers), userId, p)
    ensures r.Ok? ==>
      && FindIndex(old(db.customers), CustomerUserId, userId).Some?
      && db.customers == old(db.customers)[FindIndex(old(db.customers), CustomerUserId, userId).value := r.value]
    ensures r.Err? ==> db.customers == old(db.customers)
  {
    r := UpdateCustomerOutcome(db.customers, userId, p);
    if r.Ok? {
      var i := FindIndex(db.customers, CustomerUserId, userId).value;
      UniqueAfterUpdate(db.customers, CustomerId, i, r.value);
      UniqueAfterUpdate(db.customers, CustomerUserId, i, r.value);
      db.customers := db.customers[i := r.value];
    }
  }

  // ---------------------------------------------------------------------
  // Account deletion

  /** `users.delete({ where: { id } })`: the users table without that user. */
  function WithoutUser(users: seq<User>, id: int): (r: seq<User>)
    requires UniqueKeys(users, UserId)
    ensures UniqueKeys(r, UserId)
    ensures forall j :: 0 <= j < |r| ==> r[j].id != id
    ensures forall j :: 0 <= j < |users| ==> (users[j] in r <==> users[j].id != id)
    ensures FindIndex(users, UserId, id).None? ==> r == users
    ensures FindIndex(users, UserId, id).Some? ==> r == RemoveAt(users, FindIndex(users, UserId, id).value)
  {
    match FindIndex(users, UserId, id)
    case None => users
    case Some(i) =>
      RemoveAtExactly(users, UserId, i);
      UniqueAfterRemove(users, UserId, i);
      RemoveAt(users, i)
  }

  /** Deletes the user and, by the cascade the schema declares, its
      customer row at position `i`. */
  method DeleteAccount(db: Store, i: nat)
    requires db.Valid() && i < |db.customers|
    modifies db`users, db`customers
    ensures db.Valid()
    ensures db.users == WithoutUser(old(db.users), old(db.customers)[i].userId)
    ensures db.customers == RemoveAt(old(db.customers), i)
  {
    var c := db.customers[i];
    UniqueAfterRemove(db.customers, CustomerId, i);
    UniqueAfterRemove(db.customers, CustomerUserId, i);
    db.users := WithoutUser(db.users, c.userId);
    db.customers := RemoveAt(db.customers, i);
  }

  /** `removeSelf`: NotFound without a customer profile; otherwise the
      caller's user and customer rows are deleted and no other. */
  method RemoveSelf(db: Store, userId: int) returns (r: Result<Customer>)
    requires db.Valid()
    modifies db`users, db`customers
    ensures db.Valid()
    ensures r.Err? <==> Lookup(old(db.customers), CustomerUserId, userId).None?
    ensures r.Err? ==> r.error == NotFound && db.users == old(db.users) && db.customers == old(db.customers)
    ensures r.Ok? ==>
      && Some(r.value) == Lookup(old(db.customers), CustomerUserId, userId)
      && db.users == WithoutUser(old(db.users), userId)
      && FindIndex(old(db.customers), CustomerUserId, userId).Some?
      && db.customers == RemoveAt(old(db.customers), FindIndex(old(db.customers), CustomerUserId, userId).value)
      && (forall j :: 0 <= j < |old(db.customers)| ==>
            (old(db.customers)[j] in db.customers <==> old(db.customers)[j].userId != userId))
  {
    var k := FindIndex(db.customers, CustomerUserId, userId);
    if k.None? {
      return Err(NotFound);
    }
    r := Ok(db.customers[k.value]);
    RemoveAtExactly(db.customers, CustomerUserId, k.value);
    DeleteAccount(db, k.value);
  }

  /** `remove` (administrator): NotFound for an unknown id; otherwise that
      customer's user and customer rows are deleted and no other. */
  method RemoveCustomer(db: Store, id: int) returns (r: Result<Customer>)
    requires db.Valid()
    modifies db`users, db`customers
    ensures db.Valid()
    ensures r.Err? <==> Lookup(old(db.customers), CustomerId, id).None?
    ensures r.Err? ==> r.error == NotFound && db.users == old(db.users) && db.customers == old(db.customers)
    ensures r.Ok? ==>
      && Some(r.value) == Lookup(old(db.customers), CustomerId, id)
      && db.users == WithoutUser(old(db.users), r.value.userId)
      && FindIndex(old(db.customers), CustomerId, id).Some?
      && db.customers == RemoveAt(old(db.customers), FindIndex(old(db.customers), CustomerId, id).value)
      && (forall j :: 0 <= j < |old(db.customers)| ==>
            (old(db.customers)[j] in db.customers <==> old(db.customers)[j].id != id))
  {
    var k := FindIndex(db.customers, CustomerId, id);
    if k.None? {
      return Err(NotFound);
    }
    r := Ok(db.customers[k.value]);
    RemoveAtExactly(db.customers, CustomerId, k.value);
    DeleteAccount(db, k.value);
  }
}
