/** Confirming an order on the checkout page: the cart is snapshotted into a
    new order, the order is put in front of the history, and the cart is
    emptied. `now` is the clock reading in milliseconds. */
module Checkout {
  import opened Common
  import opened Cart
  import opened CartActions
  import opened Orders
  import opened Session
  import opened Storage
  import opened Storefront

  /** Three days, in milliseconds. */
  const DeliveryDelay := 3 * 24 * 60 * 60 * 1000

  const Confirmed := "Confirmed"

  /** `ORD-${Date.now()}`: the prefix followed by the instant's digits. */
  function OrderId(now: nat): (r: string)
    ensures |r| > 4 && r[..4] == "ORD-"
    ensures forall i :: 4 <= i < |r| ==> IsDigit(r[i])
    ensures |r| > 5 ==> r[4] != '0'
    ensures DigitsValue(r[4..]) == now
  {
    var digits := Decimal(now);
    DecimalRoundTrip(now);
    assert ("ORD-" + digits)[4..] == digits;
    "ORD-" + digits
  }

  /** Orders confirmed at different instants get different identifiers. */
  lemma OrderIdsDiffer(t1: nat, t2: nat)
    requires t1 != t2
    ensures OrderId(t1) != OrderId(t2)
  {
  }

  /** The page offers the order button only for a non-empty cart. */
  predicate CheckoutOffered(a: App) {
    |a.cart| > 0
  }

  datatype CheckoutError =
    | EmptyCart     // the page shows "Your Cart is Empty" instead of the form
    | NotSignedIn   // reading the delivery details of a missing user fails

  /** `handleConfirmOrder`. */
  function ConfirmOrder(a: App, now: nat): (r: Result<App, CheckoutError>)
    ensures !CheckoutOffered(a) ==> r == Err(EmptyCart)
    ensures CheckoutOffered(a) && a.user.None? ==> r == Err(NotSignedIn)
    ensures r.Ok? <==> CheckoutOffered(a) && a.user.Some?
    ensures r.Ok? ==> |r.value.orders| == |a.orders| + 1
    ensures r.Ok? ==>
      var o := r.value.orders[0];
      var u := a.user.value;
      && r.value.orders == [o] + a.orders
      && o.items == a.cart
      && o.total == CartTotal(a.cart)
      && o.status == Confirmed
      && o.orderId == OrderId(now)
      && o.placedAt == now
      && o.delivery == DeliveryDetails(u.name, u.address, u.phone, now + DeliveryDelay)
    ensures r.Ok? ==> r.value.cart == [] && r.value.user == a.user
    ensures r.Ok? && Persisted(a) ==> Persisted(r.value)
  {
    if |a.cart| == 0 then Err(EmptyCart)
    else if a.user.None? then Err(NotSignedIn)
    else
      var u := a.user.value;
      var order := Order(
        OrderId(now), now, CartTotal(a.cart), Confirmed, a.cart,
        DeliveryDetails(u.name, u.address, u.phone, now + DeliveryDelay));
      Ok(DoCart(PlaceOrder(a, order), Clear))
  }

  /** After confirming, however the cart is changed, the new order still
      heads the history and still lists the cart as it was at confirmation. */
  lemma OrderSnapshotSurvivesCartChanges(a: App, now: nat, acts: seq<CartAction>)
    requires ConfirmOrder(a, now).Ok?
    ensures var b := RunCart(ConfirmOrder(a, now).value, acts);
      && |b.orders| == |a.orders| + 1
      && b.orders[0].items == a.cart
      && b.orders[1..] == a.orders
  {
    RunCartKeepsOrdersAndUser(ConfirmOrder(a, now).value, acts);
  }
}
