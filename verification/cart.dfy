/** The cart store's pure part: the line list kept by the cart context, its
    four updates (add-or-increment, remove, set-quantity, clear) and the two
    derived values shown in the navigation bar and on the cart page. Every
    update builds a fresh sequence; nothing is mutated in place. */
module Cart {
  import opened Common
  import opened Catalog

  /** `{ ...product, qty }`: the product snapshot plus the chosen quantity. */
  datatype CartLine = CartLine(product: Product, qty: int)

  type Lines = seq<CartLine>

  /** The key lines are matched on, `item.product_id`. */
  function IdOf(l: CartLine): int {
    l.product.productId
  }

  ghost predicate HasLine(c: Lines, id: int) {
    exists i :: 0 <= i < |c| && IdOf(c[i]) == id
  }

  /** The cart invariant: no two lines share a product identifier. */
  ghost predicate UniqueIds(c: Lines) {
    UniqueBy(c, IdOf)
  }

  /** Every line holds at least one unit. */
  ghost predicate PositiveQuantities(c: Lines) {
    forall i :: 0 <= i < |c| ==> c[i].qty >= 1
  }

  /** `cart.find(item => item.product_id === id)`. */
  function Find(c: Lines, id: int): (r: Option<CartLine>)
    ensures r.None? <==> !HasLine(c, id)
    ensures r.Some? ==> r.value in c && IdOf(r.value) == id
  {
    if |c| == 0 then None
    else if IdOf(c[0]) == id then Some(c[0])
    else
      var r := Find(c[1..], id);
      assert HasLine(c[1..], id) ==> HasLine(c, id) by {
        if HasLine(c[1..], id) {
          var i :| 0 <= i < |c[1..]| && IdOf(c[1..][i]) == id;
          assert c[i + 1] == c[1..][i];
        }
      }
      assert HasLine(c, id) ==> HasLine(c[1..], id) by {
        if HasLine(c, id) {
          var i :| 0 <= i < |c| && IdOf(c[i]) == id;
          assert i > 0 && c[1..][i - 1] == c[i];
        }
      }
      r
  }

  /** `cart.map(item => item.product_id === id ? { ...item, qty: f(item.qty) } : item)`. */
  function Rewrite(c: Lines, id: int, f: int -> int): Lines {
    seq(|c|, i requires 0 <= i < |c| =>
      if IdOf(c[i]) == id then c[i].(qty := f(c[i].qty)) else c[i])
  }

  /** The quantity used when `addToCart` is called without one. */
  const DefaultQty := 1

  /** `addToCart(product, qty)`: increment the matching line, or append a
      new line at the end when the product is not in the cart yet. */
  function AddToCart(c: Lines, p: Product, qty: int): (r: Lines)
    ensures HasLine(c, p.productId) ==>
      |r| == |c| &&
      forall i :: 0 <= i < |c| ==>
        r[i] == (if IdOf(c[i]) == p.productId then c[i].(qty := c[i].qty + qty) else c[i])
    ensures !HasLine(c, p.productId) ==> r == c + [CartLine(p, qty)]
  {
    if Find(c, p.productId).Some? then Rewrite(c, p.productId, q => q + qty)
    else c + [CartLine(p, qty)]
  }

  /** `removeFromCart(id)`: keep the lines of the other products. */
  function RemoveFromCart(c: Lines, id: int): (r: Lines)
    ensures forall l :: l in r <==> l in c && IdOf(l) != id
    ensures forall l :: multiset(r)[l] == if IdOf(l) != id then multiset(c)[l] else 0
    ensures IsSubsequence(r, c)
  {
    var keep := (l: CartLine) => IdOf(l) != id;
    KeepIsSubsequence(c, keep);
    KeepMembers(c, keep);
    KeepMultiset(c, keep);
    Keep(c, keep)
  }

  /** `updateQty(id, qty)`: below one unit the line is removed; otherwise the
      matching line gets exactly `qty` and no line is ever inserted. */
  function UpdateQty(c: Lines, id: int, qty: int): (r: Lines)
    ensures qty < 1 ==> r == RemoveFromCart(c, id)
    ensures qty >= 1 ==>
      |r| == |c| &&
      forall i :: 0 <= i < |c| ==>
        r[i] == (if IdOf(c[i]) == id then c[i].(qty := qty) else c[i])
    ensures qty >= 1 && !HasLine(c, id) ==> r == c
  {
    if qty < 1 then RemoveFromCart(c, id)
    else Rewrite(c, id, _ => qty)
  }

  /** `cartCount`: the quantities added up, in the order `reduce` visits them. */
  function CartCount(c: Lines): (n: int)
    ensures PositiveQuantities(c) ==> n >= |c|
  {
    if |c| == 0 then 0 else CartCount(c[..|c| - 1]) + c[|c| - 1].qty
  }

  /** What one line contributes to `cartTotal`. */
  function LineTotal(l: CartLine): real {
    DiscountedPrice(l.product) * (l.qty as real)
  }

  /** `cartTotal`: the line totals added up, in the order `reduce` visits them. */
  function CartTotal(c: Lines): real {
    if |c| == 0 then 0.0 else CartTotal(c[..|c| - 1]) + LineTotal(c[|c| - 1])
  }

  /** Lines that carry a non-negative price and quantity never make the
      total negative. */
  lemma {:induction false} TotalNonNegative(c: Lines)
    requires forall i :: 0 <= i < |c| ==> DiscountedPrice(c[i].product) >= 0.0 && c[i].qty >= 0
    ensures CartTotal(c) >= 0.0
    decreases |c|
  {
    if |c| > 0 {
      var last := c[|c| - 1];
      TotalNonNegative(c[..|c| - 1]);
      assert LineTotal(last) >= 0.0;
    }
  }

  /** `clearCart()`: a cart with nothing to count and nothing to pay. */
  function ClearCart(): (r: Lines)
    ensures CartCount(r) == 0 && CartTotal(r) == 0.0
    ensures forall id :: !HasLine(r, id)
  {
    []
  }

  // ---------------------------------------------------------------------
  // The derived values are sums over lines.

  lemma {:induction false} CountConcat(a: Lines, b: Lines)
    ensures CartCount(a + b) == CartCount(a) + CartCount(b)
    decreases |b|
  {
    if |b| == 0 {
      assert a + b == a;
    } else {
      var b' := b[..|b| - 1];
      CountConcat(a, b');
      assert (a + b)[..|a + b| - 1] == a + b';
    }
  }

  lemma {:induction false} TotalConcat(a: Lines, b: Lines)
    ensures CartTotal(a + b) == CartTotal(a) + CartTotal(b)
    decreases |b|
  {
    if |b| == 0 {
      assert a + b == a;
    } else {
      var b' := b[..|b| - 1];
      TotalConcat(a, b');
      assert (a + b)[..|a + b| - 1] == a + b';
    }
  }

  /** A cart of positive quantities counts zero exactly when it is empty. */
  lemma CountZeroIffEmpty(c: Lines)
    requires PositiveQuantities(c)
    ensures CartCount(c) == 0 <==> |c| == 0
  {
  }

  /** Changing one line changes the sums by that line's difference. */
  lemma SumsAfterOneLineChanges(a: Lines, b: Lines, k: nat)
    requires |a| == |b| && k < |a|
    requires forall i :: 0 <= i < |a| && i != k ==> a[i] == b[i]
    ensures CartCount(b) == CartCount(a) - a[k].qty + b[k].qty
    ensures CartTotal(b) == CartTotal(a) - LineTotal(a[k]) + LineTotal(b[k])
  {
    assert a == a[..k] + [a[k]] + a[k + 1..];
    assert b == a[..k] + [b[k]] + a[k + 1..];
    CountConcat(a[..k] + [a[k]], a[k + 1..]);
    CountConcat(a[..k], [a[k]]);
    CountConcat(a[..k] + [b[k]], a[k + 1..]);
    CountConcat(a[..k], [b[k]]);
    TotalConcat(a[..k] + [a[k]], a[k + 1..]);
    TotalConcat(a[..k], [a[k]]);
    TotalConcat(a[..k] + [b[k]], a[k + 1..]);
    TotalConcat(a[..k], [b[k]]);
    assert [a[k]][..0] == [] && [b[k]][..0] == [];
  }

  /** With unique identifiers, a line with identifier `id` sits at exactly one position. */
  lemma OnlyMatch(c: Lines, k: nat, id: int)
    requires UniqueIds(c) && k < |c| && IdOf(c[k]) == id
    ensures forall i :: 0 <= i < |c| && i != k ==> IdOf(c[i]) != id
  {
  }

  // ---------------------------------------------------------------------
  // addToCart

  lemma AddToCartKeepsIdsUnique(c: Lines, p: Product, qty: int)
    requires UniqueIds(c)
    ensures UniqueIds(AddToCart(c, p, qty))
  {
    var r := AddToCart(c, p, qty);
    if HasLine(c, p.productId) {
      assert forall i :: 0 <= i < |c| ==> IdOf(r[i]) == IdOf(c[i]);
    } else {
      forall i, j | 0 <= i < j < |r|
        ensures IdOf(r[i]) != IdOf(r[j])
      {
        if j == |c| {
          assert r[i] == c[i];
        } else {
          assert r[i] == c[i] && r[j] == c[j];
        }
      }
    }
  }

  lemma AddToCartKeepsQuantitiesPositive(c: Lines, p: Product, qty: int)
    requires PositiveQuantities(c) && qty >= 1
    ensures PositiveQuantities(AddToCart(c, p, qty))
  {
  }

  lemma AddExistingShape(c: Lines, p: Product, qty: int, k: nat)
    requires UniqueIds(c) && k < |c| && IdOf(c[k]) == p.productId
    ensures AddToCart(c, p, qty) == c[k := c[k].(qty := c[k].qty + qty)]
  {
    OnlyMatch(c, k, p.productId);
    assert HasLine(c, p.productId);
  }

  /** Adding `qty` units of a product already in the cart raises its line by
      `qty` and the count by `qty`; the total grows by that line's price. */
  lemma AddExistingProduct(c: Lines, p: Product, qty: int, k: nat)
    requires UniqueIds(c) && k < |c| && IdOf(c[k]) == p.productId
    ensures var r := AddToCart(c, p, qty);
      && r == c[k := c[k].(qty := c[k].qty + qty)]
      && CartCount(r) == CartCount(c) + qty
      && CartTotal(r) == CartTotal(c) + DiscountedPrice(c[k].product) * (qty as real)
  {
    AddExistingShape(c, p, qty, k);
    SumsAfterIncrement(c, k, qty);
  }

  lemma SumsAfterIncrement(c: Lines, k: nat, n: int)
    requires k < |c|
    ensures CartCount(c[k := c[k].(qty := c[k].qty + n)]) == CartCount(c) + n
    ensures CartTotal(c[k := c[k].(qty := c[k].qty + n)])
         == CartTotal(c) + DiscountedPrice(c[k].product) * (n as real)
  {
    var line := c[k].(qty := c[k].qty + n);
    var c2 := c[k := line];
    SumsAfterOneLineChanges(c, c2, k);
    assert c2[k] == line;
    var before, after, extra := LineTotal(c[k]), LineTotal(line), DiscountedPrice(c[k].product) * (n as real);
    LineTotalAfterIncrement(c[k], n);
    assert after == before + extra;
    assert CartTotal(c2) == CartTotal(c) - before + after;
  }

  /** `n` more units of a line cost `n` more times its unit price. */
  lemma LineTotalAfterIncrement(l: CartLine, n: int)
    ensures LineTotal(l.(qty := l.qty + n)) == LineTotal(l) + DiscountedPrice(l.product) * (n as real)
  {
    var d := DiscountedPrice(l.product);
    assert ((l.qty + n) as real) == (l.qty as real) + (n as real);
    assert d * ((l.qty as real) + (n as real)) == d * (l.qty as real) + d * (n as real);
  }

  /** `addToCart(product)` without a quantity adds one unit: the count goes
      up by one whether or not the product was already in the cart. */
  lemma AddWithoutQuantity(c: Lines, p: Product)
    requires UniqueIds(c)
    ensures CartCount(AddToCart(c, p, DefaultQty)) == CartCount(c) + 1
  {
    if HasLine(c, p.productId) {
      var k :| 0 <= k < |c| && IdOf(c[k]) == p.productId;
      AddExistingProduct(c, p, DefaultQty, k);
    } else {
      AddNewProduct(c, p, DefaultQty);
    }
  }

  /** Adding a product not yet in the cart appends one line at the end. */
  lemma AddNewProduct(c: Lines, p: Product, qty: int)
    requires !HasLine(c, p.productId)
    ensures var r := AddToCart(c, p, qty);
      && |r| == |c| + 1
      && r[..|c|] == c && r[|c|] == CartLine(p, qty)
      && CartCount(r) == CartCount(c) + qty
      && CartTotal(r) == CartTotal(c) + DiscountedPrice(p) * (qty as real)
  {
    var r := AddToCart(c, p, qty);
    assert r[..|r| - 1] == c;
  }

  // ---------------------------------------------------------------------
  // removeFromCart

  lemma RemoveKeepsIdsUnique(c: Lines, id: int)
    requires UniqueIds(c)
    ensures UniqueIds(RemoveFromCart(c, id))
  {
    KeepPreservesUniqueBy(c, (l: CartLine) => IdOf(l) != id, IdOf);
  }

  lemma RemoveKeepsQuantitiesPositive(c: Lines, id: int)
    requires PositiveQuantities(c)
    ensures PositiveQuantities(RemoveFromCart(c, id))
  {
    var r := RemoveFromCart(c, id);
    forall i | 0 <= i < |r| ensures r[i].qty >= 1 {
      assert r[i] in c;
    }
  }

  /** With unique identifiers, removing a present product deletes exactly
      its line and keeps the rest in order, lowering the sums by that line. */
  lemma {:induction false} RemovePresentProduct(c: Lines, id: int, k: nat)
    requires UniqueIds(c) && k < |c| && IdOf(c[k]) == id
    ensures var r := RemoveFromCart(c, id);
      && r == c[..k] + c[k + 1..]
      && CartCount(r) == CartCount(c) - c[k].qty
      && CartTotal(r) == CartTotal(c) - LineTotal(c[k])
  {
    var keep := (l: CartLine) => IdOf(l) != id;
    OnlyMatch(c, k, id);
    assert c == c[..k] + ([c[k]] + c[k + 1..]);
    KeepConcat(c[..k], [c[k]] + c[k + 1..], keep);
    KeepConcat([c[k]], c[k + 1..], keep);
    assert Keep([c[k]], keep) == [];
    KeepEverything(c[..k], keep);
    KeepEverything(c[k + 1..], keep);
    CountConcat(c[..k], [c[k]] + c[k + 1..]);
    CountConcat([c[k]], c[k + 1..]);
    CountConcat(c[..k], c[k + 1..]);
    TotalConcat(c[..k], [c[k]] + c[k + 1..]);
    TotalConcat([c[k]], c[k + 1..]);
    TotalConcat(c[..k], c[k + 1..]);
    assert [c[k]][..0] == [];
  }

  /** Removing a product that is not in the cart changes nothing. */
  lemma RemoveAbsentProduct(c: Lines, id: int)
    requires !HasLine(c, id)
    ensures RemoveFromCart(c, id) == c
  {
    KeepEverything(c, (l: CartLine) => IdOf(l) != id);
  }

  /** Removing twice is removing once. */
  lemma RemoveIsIdempotent(c: Lines, id: int)
    ensures RemoveFromCart(RemoveFromCart(c, id), id) == RemoveFromCart(c, id)
  {
    var r := RemoveFromCart(c, id);
    assert forall i :: 0 <= i < |r| ==> r[i] in r;
    RemoveAbsentProduct(r, id);
  }

  // ---------------------------------------------------------------------
  // updateQty

  lemma UpdateQtyKeepsIdsUnique(c: Lines, id: int, qty: int)
    requires UniqueIds(c)
    ensures UniqueIds(UpdateQty(c, id, qty))
  {
    if qty < 1 {
      RemoveKeepsIdsUnique(c, id);
    } else {
      var r := UpdateQty(c, id, qty);
      assert forall i :: 0 <= i < |c| ==> IdOf(r[i]) == IdOf(c[i]);
    }
  }

  lemma UpdateQtyKeepsQuantitiesPositive(c: Lines, id: int, qty: int)
    requires PositiveQuantities(c)
    ensures PositiveQuantities(UpdateQty(c, id, qty))
  {
    if qty < 1 {
      RemoveKeepsQuantitiesPositive(c, id);
    }
  }

  /** Setting a present product's quantity to `qty >= 1` changes that line
      only, and the count moves from its old quantity to `qty`. */
  lemma UpdatePresentProduct(c: Lines, id: int, qty: int, k: nat)
    requires UniqueIds(c) && k < |c| && IdOf(c[k]) == id && qty >= 1
    ensures var r := UpdateQty(c, id, qty);
      && r == c[k := c[k].(qty := qty)]
      && CartCount(r) == CartCount(c) - c[k].qty + qty
  {
    var r := UpdateQty(c, id, qty);
    OnlyMatch(c, k, id);
    SumsAfterOneLineChanges(c, r, k);
    assert r == c[k := c[k].(qty := qty)];
  }
}

/** The cart operations as one action type, so that arbitrary runs of them
    can be stated and reasoned about. */
module CartActions {
  import opened Catalog
  import opened Cart

  datatype CartAction =
    | Add(product: Product, qty: int)
    | Remove(id: int)
    | SetQty(id: int, qty: int)
    | Clear

  function Apply(c: Lines, act: CartAction): Lines {
    match act
    case Add(p, qty) => AddToCart(c, p, qty)
    case Remove(id) => RemoveFromCart(c, id)
    case SetQty(id, qty) => UpdateQty(c, id, qty)
    case Clear => ClearCart()
  }

  function Run(c: Lines, acts: seq<CartAction>): Lines
    decreases |acts|
  {
    if |acts| == 0 then c else Run(Apply(c, acts[0]), acts[1..])
  }

  /** Only adds with a positive quantity, which is all the pages issue. */
  ghost predicate AddsArePositive(acts: seq<CartAction>) {
    forall i :: 0 <= i < |acts| && acts[i].Add? ==> acts[i].qty >= 1
  }

  /** No run of cart operations ever puts two lines for one product into
      the cart, and none leaves a line with fewer than one unit when every
      add carries at least one. */
  lemma {:induction false} RunKeepsCartWellFormed(c: Lines, acts: seq<CartAction>)
    requires UniqueIds(c)
    ensures UniqueIds(Run(c, acts))
    ensures PositiveQuantities(c) && AddsArePositive(acts) ==> PositiveQuantities(Run(c, acts))
    decreases |acts|
  {
    if |acts| > 0 {
      var c' := Apply(c, acts[0]);
      match acts[0] {
        case Add(p, qty) =>
          AddToCartKeepsIdsUnique(c, p, qty);
          if qty >= 1 && PositiveQuantities(c) { AddToCartKeepsQuantitiesPositive(c, p, qty); }
        case Remove(id) =>
          RemoveKeepsIdsUnique(c, id);
          if PositiveQuantities(c) { RemoveKeepsQuantitiesPositive(c, id); }
        case SetQty(id, qty) =>
          UpdateQtyKeepsIdsUnique(c, id, qty);
          if PositiveQuantities(c) { UpdateQtyKeepsQuantitiesPositive(c, id, qty); }
        case Clear =>
      }
      RunKeepsCartWellFormed(c', acts[1..]);
      if AddsArePositive(acts) {
        assert AddsArePositive(acts[1..]) by {
          forall i | 0 <= i < |acts[1..]| && acts[1..][i].Add?
            ensures acts[1..][i].qty >= 1
          {
            assert acts[1..][i] == acts[i + 1];
          }
        }
      }
    }
  }
}
