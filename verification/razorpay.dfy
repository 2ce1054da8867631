/** The payment gateway as the controllers see it: an order service that hands out
    fresh order ids, and the HMAC-SHA256 signature (RFC 2104) that binds a payment to
    its order. The hash itself is a parameter: nothing is assumed of it. */
module Razorpay {
  import opened Base
  import opened Strings
  import opened Seqs

  /** The `notes` attached to an order. */
  datatype OrderNotes = OrderNotes(courseId: Id, studentId: Id, enrollmentId: Id)

  /** An order as the gateway returns it; `amount` is in paise. */
  datatype GatewayOrder = GatewayOrder(id: string, amount: int, currency: string, notes: OrderNotes)

  /** How a fetch from the gateway ends: its answer; an error answer of the gateway's
      API, which the SDK rejects with an object carrying the HTTP `statusCode`; or no
      answer at all, which the SDK rejects with a network error without one. */
  datatype Reply<T> = Answer(value: T) | Rejected(statusCode: int) | Unreachable

  /** The status of the gateway's `BAD_REQUEST_ERROR`, its answer to a fetch of an
      order id it never issued. */
  const UnknownIdStatus := 400

  /** The id the gateway gives its k-th order. */
  function OrderIdText(k: nat): (t: string)
    ensures '|' !in t
  {
    "order_" + NatDecimal(k)
  }

  /** Different orders have different ids. */
  lemma OrderIdsDistinct(j: nat, k: nat)
    requires OrderIdText(j) == OrderIdText(k)
    ensures j == k
  {
    assert OrderIdText(j)[6..] == NatDecimal(j);
    assert OrderIdText(k)[6..] == NatDecimal(k);
    NatDecimalInjective(j, k);
  }

  /** `razorpay.orders.fetch(id)`: the position of the order with that id. */
  function OrderNamed(orders: seq<GatewayOrder>, id: string): Option<nat> {
    FindFirst(orders, (o: GatewayOrder) => o.id == id)
  }

  class Gateway {
    /** Every order created so far, oldest first. */
    var orders: seq<GatewayOrder>
    /** Whether the gateway answers; a call to an unreachable gateway rejects. */
    var online: bool

    ghost predicate Valid()
      reads this
    {
      forall k :: 0 <= k < |orders| ==> orders[k].id == OrderIdText(k)
    }

    constructor(online: bool)
      ensures Valid() && orders == [] && this.online == online
    {
      orders := [];
      this.online := online;
    }

    /** `razorpay.orders.create(...)`: a new order under an id never handed out before. */
    method CreateOrder(amount: int, currency: string, notes: OrderNotes) returns (r: Option<GatewayOrder>)
      requires Valid()
      modifies this
      ensures Valid() && online == old(online)
      ensures !online ==> r.None? && orders == old(orders)
      ensures online ==> r == Some(GatewayOrder(OrderIdText(|old(orders)|), amount, currency, notes))
      ensures online ==> orders == old(orders) + [r.value]
      ensures r.Some? ==> OrderNamed(old(orders), r.value.id).None?
    {
      if !online {
        return None;
      }
      var order := GatewayOrder(OrderIdText(|orders|), amount, currency, notes);
      forall k | 0 <= k < |orders|
        ensures orders[k].id != order.id
      {
        if orders[k].id == order.id {
          OrderIdsDistinct(k, |orders|);
        }
      }
      orders := orders + [order];
      r := Some(order);
    }

    /** `razorpay.orders.fetch(id)`: the order created under that id; an id the
        gateway never issued is a bad request. */
    method FetchOrder(id: string) returns (r: Reply<GatewayOrder>)
      requires Valid()
      ensures !online <==> r.Unreachable?
      ensures online && OrderNamed(orders, id).None? <==> r == Rejected(UnknownIdStatus)
      ensures r.Answer? <==> online && OrderNamed(orders, id).Some?
      ensures forall k :: online && 0 <= k < |orders| && orders[k].id == id ==> r == Answer(orders[k])
    {
      var k := OrderNamed(orders, id);
      if !online {
        return Unreachable;
      }
      if k.None? {
        return Rejected(UnknownIdStatus);
      }
      forall j | 0 <= j < |orders| && orders[j].id == id
        ensures j == k.value
      {
        OrderIdsDistinct(j, k.value);
      }
      r := Answer(orders[k.value]);
    }
  }

  /** The text the gateway signs: `${orderId}|${paymentId}`. */
  function SignedText(orderId: string, paymentId: string): string {
    orderId + "|" + paymentId
  }

  /** The signature a genuine callback carries for an order and a payment, under the
      hex HMAC-SHA256 `sign` keyed with the merchant secret. */
  function ExpectedSignature(sign: (string, string) -> string, secret: string,
                             orderId: string, paymentId: string): string {
    sign(secret, SignedText(orderId, paymentId))
  }

  /** In the signed text of an order id without `|`, the first `|` ends the order id. */
  lemma FirstBar(o: string, p: string)
    requires '|' !in o
    ensures SignedText(o, p)[|o|] == '|'
    ensures forall i :: 0 <= i < |o| ==> SignedText(o, p)[i] != '|'
  {
    assert forall i :: 0 <= i < |o| ==> SignedText(o, p)[i] == o[i];
  }

  /** An order id without `|` is recovered from the signed text, so two callbacks
      that sign the same text name the same order and the same payment. */
  lemma SignedTextDetermines(o1: string, p1: string, o2: string, p2: string)
    requires '|' !in o1 && '|' !in o2
    requires SignedText(o1, p1) == SignedText(o2, p2)
    ensures o1 == o2 && p1 == p2
  {
    var t := SignedText(o1, p1);
    FirstBar(o1, p1);
    FirstBar(o2, p2);
    assert |o1| == |o2|;
    assert o1 == t[..|o1|] == o2;
    assert p1 == t[|o1| + 1..] == p2;
  }
}
