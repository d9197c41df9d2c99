/** The order status values and the two rule sets over them: the forward
    flow a vendor drives one step at a time (STATUS_FLOW), and the
    separate, role-dependent cancellation window. */
module OrderStatus {
  import opened Common

  datatype Status = Pending | Confirmed | Preparing | Ready | OnDelivery | Delivered | Cancelled

  /** The fulfilment chain, in order; `cancelled` is not part of it. */
  const Flow: seq<Status> := [Pending, Confirmed, Preparing, Ready, OnDelivery, Delivered]

  /** The lowercase token stored in the `status` column. */
  function Token(s: Status): string {
    match s
    case Pending => "pending"
    case Confirmed => "confirmed"
    case Preparing => "preparing"
    case Ready => "ready"
    case OnDelivery => "on_delivery"
    case Delivered => "delivered"
    case Cancelled => "cancelled"
  }

  /** Reads a stored token back; any other string is not a status. */
  function ParseToken(t: string): (r: Option<Status>)
    ensures r.Some? ==> Token(r.value) == t
  {
    if t == "pending" then Some(Pending)
    else if t == "confirmed" then Some(Confirmed)
    else if t == "preparing" then Some(Preparing)
    else if t == "ready" then Some(Ready)
    else if t == "on_delivery" then Some(OnDelivery)
    else if t == "delivered" then Some(Delivered)
    else if t == "cancelled" then Some(Cancelled)
    else None
  }

  /** Tokens and statuses correspond one to one. */
  lemma TokenRoundTrip(s: Status, t: string)
    ensures ParseToken(Token(s)) == Some(s)
    ensures ParseToken(t) == Some(s) <==> Token(s) == t
  {
  }

  /** STATUS_FLOW: the only status an order may move to next, if any. */
  function NextStatus(s: Status): (r: Option<Status>)
    ensures forall i :: 0 <= i < |Flow| - 1 && Flow[i] == s ==> r == Some(Flow[i + 1])
    ensures r.None? <==> s == Delivered || s == Cancelled
  {
    match s
    case Pending => Some(Confirmed)
    case Confirmed => Some(Preparing)
    case Preparing => Some(Ready)
    case Ready => Some(OnDelivery)
    case OnDelivery => Some(Delivered)
    case _ => None
  }

  /** The cancellation rule of `cancel`, after its ownership checks: a
      customer only while the order is pending, a vendor while it is pending
      or confirmed; no other role is checked here. */
  predicate CancelAllowed(role: Role, s: Status) {
    && !(role == CUSTOMER && s != Pending)
    && !(role == VENDOR && s != Pending && s != Confirmed)
  }

  /** The per-role window of `cancel`: which statuses each role may cancel from. */
  lemma CancelWindow(s: Status)
    ensures CancelAllowed(CUSTOMER, s) <==> s == Pending
    ensures CancelAllowed(VENDOR, s) <==> s == Pending || s == Confirmed
    ensures s == Cancelled ==> !CancelAllowed(CUSTOMER, s) && !CancelAllowed(VENDOR, s)
  {
  }

  /** A status change either operation can make: one forward step, or a
      cancellation that a customer or a vendor is allowed to make. */
  predicate LegalStep(s: Status, t: Status) {
    NextStatus(s) == Some(t) || (t == Cancelled && (CancelAllowed(CUSTOMER, s) || CancelAllowed(VENDOR, s)))
  }

  /** A status history an order can have: it starts pending (the column's
      default) and every change is a legal step. */
  ghost predicate Lifecycle(trace: seq<Status>) {
    && |trace| > 0
    && trace[0] == Pending
    && forall k :: 0 < k < |trace| ==> LegalStep(trace[k - 1], trace[k])
  }

  /** Every history walks the fulfilment chain from its start, one step at
      a time, and may end with one jump to cancelled, taken from pending or
      confirmed only; so a status never repeats and never goes back, and
      nothing follows cancelled or delivered. */
  lemma {:induction false} LifecycleShape(trace: seq<Status>)
    requires Lifecycle(trace)
    ensures |trace| <= |Flow|
    ensures forall k :: 0 <= k < |trace| - 1 ==> trace[k] == Flow[k]
    ensures trace[|trace| - 1] == Flow[|trace| - 1] || trace[|trace| - 1] == Cancelled
    ensures trace[|trace| - 1] == Cancelled ==> |trace| == 2 || |trace| == 3
    ensures forall i, j :: 0 <= i < j < |trace| ==> trace[i] != trace[j]
  {
    var n := |trace|;
    if n > 1 {
      var prefix := trace[..n - 1];
      assert Lifecycle(prefix) by {
        forall k | 0 < k < |prefix| ensures LegalStep(prefix[k - 1], prefix[k]) {
          assert prefix[k - 1] == trace[k - 1] && prefix[k] == trace[k];
        }
      }
      LifecycleShape(prefix);
      var last := trace[n - 2];
      assert LegalStep(last, trace[n - 1]);
      if last == Cancelled {
        assert false;
      }
      assert last == Flow[n - 2];
      assert forall k :: 0 <= k < n - 1 ==> trace[k] == Flow[k];
      if trace[n - 1] != Cancelled {
        assert NextStatus(last) == Some(trace[n - 1]);
        assert n - 2 < |Flow| - 1;
        assert trace[n - 1] == Flow[n - 1];
      }
    }
  }
}
