/** Request bodies of the order endpoints and the validation rules the
    request pipeline applies to them before the service runs. */
module OrderDto {
  import opened Common
  import opened OrderStatus

  /** `menuId` and `quantity` must be integers; the types say so here. */
  datatype OrderItemDto = OrderItemDto(menuId: int, quantity: int)

  datatype CreateOrderDto = CreateOrderDto(
    vendorId: int, items: seq<OrderItemDto>, notes: Option<string>, deliveryFee: Option<int>)

  /** The accepted create-order bodies: at least one item, every quantity
      at least 1, and a delivery fee, when given, not negative. */
  predicate ValidCreateOrder(dto: CreateOrderDto) {
    && |dto.items| >= 1
    && (forall i :: 0 <= i < |dto.items| ==> dto.items[i].quantity >= 1)
    && (dto.deliveryFee.Some? ==> dto.deliveryFee.value >= 0)
  }

  /** `delivery_fee ?? 0`: the fee charged, which is never negative. */
  function DeliveryFee(dto: CreateOrderDto): (fee: int)
    requires ValidCreateOrder(dto)
    ensures fee >= 0
    ensures dto.deliveryFee.None? ==> fee == 0
    ensures dto.deliveryFee.Some? ==> fee == dto.deliveryFee.value
  {
    dto.deliveryFee.GetOr(0)
  }

  /** The OrderStatusFlow enum: the statuses a vendor may ask for. */
  const Requestable: set<Status> := {Confirmed, Preparing, Ready, OnDelivery, Delivered}

  /** `@IsEnum(OrderStatusFlow)` on the `status` field of a status update:
      accepts exactly the tokens of the five requestable statuses. */
  function ParseStatusRequest(token: string): (r: Option<Status>)
    ensures r.Some? ==> r.value in Requestable && Token(r.value) == token
    ensures r.None? ==> forall s :: s in Requestable ==> Token(s) != token
    ensures r != Some(Pending) && r != Some(Cancelled)
  {
    if token == "confirmed" then Some(Confirmed)
    else if token == "preparing" then Some(Preparing)
    else if token == "ready" then Some(Ready)
    else if token == "on_delivery" then Some(OnDelivery)
    else if token == "delivered" then Some(Delivered)
    else None
  }

  /** The requestable statuses are exactly the values STATUS_FLOW can move
      an order to: nothing can be asked to go back to pending, and
      cancelling is not a status update. */
  lemma RequestableAreSuccessors(s: Status)
    ensures s in Requestable <==> exists p :: NextStatus(p) == Some(s)
  {
    if s in Requestable {
      var p := match s
        case Confirmed => Pending
        case Preparing => Confirmed
        case Ready => Preparing
        case OnDelivery => Ready
        case _ => OnDelivery;
      assert NextStatus(p) == Some(s);
    }
  }
}
