/** The order store's pure part: placed orders are kept newest first, and a
    new order is only ever put in front of the existing ones. */
module Orders {
  import opened Common
  import opened Cart

  /** Where and by when an order is delivered; the estimate is a timestamp
      in milliseconds since the epoch. */
  datatype DeliveryDetails = DeliveryDetails(
    name: string,
    address: string,
    phone: string,
    estimatedDelivery: int)

  /** A placed order. `placedAt` is the creation timestamp in milliseconds;
      `items` is the cart as it stood when the order was confirmed. */
  datatype Order = Order(
    orderId: string,
    placedAt: int,
    total: real,
    status: string,
    items: Lines,
    delivery: DeliveryDetails)

  /** `addOrder(order)`: the new order goes in front; the older ones follow
      unchanged and in the same order. */
  function AddOrder(os: seq<Order>, o: Order): (r: seq<Order>)
    ensures |r| == |os| + 1
    ensures r[0] == o
    ensures forall i :: 0 <= i < |os| ==> r[i + 1] == os[i]
  {
    [o] + os
  }

  /** Adding the orders of `placed` one after the other, oldest first. */
  function AddOrders(os: seq<Order>, placed: seq<Order>): seq<Order>
    decreases |placed|
  {
    if |placed| == 0 then os
    else AddOrders(AddOrder(os, placed[0]), placed[1..])
  }

  /** Whatever orders are placed, the list reads newest first: the placed
      orders in reverse, followed by the orders that were already there. */
  lemma {:induction false} AddOrdersNewestFirst(os: seq<Order>, placed: seq<Order>)
    ensures AddOrders(os, placed) == Reverse(placed) + os
    decreases |placed|
  {
    if |placed| > 0 {
      var rest := placed[1..];
      var next := AddOrder(os, placed[0]);
      assert next == [placed[0]] + os;
      assert AddOrders(os, placed) == AddOrders(next, rest);
      AddOrdersNewestFirst(next, rest);
      ReverseCons(placed);
      ConcatAssoc(Reverse(rest), [placed[0]], os);
    }
  }

  /** Placing `a` and then `b` on an empty history lists `b` first. */
  lemma TwoOrdersNewestFirst(a: Order, b: Order)
    ensures AddOrder(AddOrder([], a), b) == [b, a]
  {
  }
}
