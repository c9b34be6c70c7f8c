/** The product page: finding the product by its slug, choosing related
    products, the quantity stepper and the add-to-cart button. */
module Details {
  import opened Common
  import opened Catalog
  import opened Cart

  /** `products.find(p => p.slug === slug)`: the first product with that slug. */
  function FindBySlug(ps: seq<Product>, slug: string): (r: Option<Product>)
    ensures r.None? <==> forall i :: 0 <= i < |ps| ==> ps[i].slug != slug
    ensures r.Some? ==> exists k :: 0 <= k < |ps| && ps[k] == r.value && r.value.slug == slug &&
                          forall i :: 0 <= i < k ==> ps[i].slug != slug
  {
    if |ps| == 0 then None
    else if ps[0].slug == slug then Some(ps[0])
    else
      var r := FindBySlug(ps[1..], slug);
      assert forall i :: 1 <= i < |ps| ==> ps[i] == ps[1..][i - 1];
      r
  }

  /** A related product: same disease category, different slug. */
  function IsRelated(found: Product, slug: string): Product -> bool {
    (p: Product) => p.diseaseCategory == found.diseaseCategory && p.slug != slug
  }

  const MaxRelated := 5

  /** `products.filter(same category and other slug).slice(0, 5)`. */
  function Related(ps: seq<Product>, found: Product, slug: string): (r: seq<Product>)
    ensures var all := Keep(ps, IsRelated(found, slug));
      |r| == if |all| < MaxRelated then |all| else MaxRelated
    ensures forall i :: 0 <= i < |r| ==>
      r[i] in ps && r[i].diseaseCategory == found.diseaseCategory && r[i].slug != slug
    ensures r == Keep(ps, IsRelated(found, slug))[..|r|]
  {
    KeepMembers(ps, IsRelated(found, slug));
    JsSlice(Keep(ps, IsRelated(found, slug)), 0, MaxRelated)
  }

  /** What the page shows once the catalogue is fetched. */
  datatype DetailsView =
    | NotFound                                            // the page redirects to /404
    | Showing(product: Product, related: seq<Product>)

  function OpenProduct(ps: seq<Product>, slug: string): (r: DetailsView)
    ensures r.NotFound? <==> forall i :: 0 <= i < |ps| ==> ps[i].slug != slug
    ensures r.Showing? ==> r.product in ps && r.product.slug == slug
    ensures r.Showing? ==> r.product !in r.related && |r.related| <= MaxRelated
    ensures r.Showing? ==> r.product == FindBySlug(ps, slug).value && r.related == Related(ps, r.product, slug)
  {
    match FindBySlug(ps, slug)
    case None => NotFound
    case Some(found) => Showing(found, Related(ps, found, slug))
  }

  /** The two stepper buttons. */
  datatype Press = Minus | Plus

  /** `setQty(q => Math.max(1, q - 1))` and `setQty(q => q + 1)`. */
  function Step(q: int, b: Press): (r: int)
    ensures b == Minus ==> r >= 1 && r <= (if q > 1 then q else 1) && (q > 1 ==> r == q - 1)
    ensures b == Plus ==> r == q + 1
  {
    match b
    case Minus => if q - 1 > 1 then q - 1 else 1
    case Plus => q + 1
  }

  function Steps(q: int, presses: seq<Press>): int
    decreases |presses|
  {
    if |presses| == 0 then q else Steps(Step(q, presses[0]), presses[1..])
  }

  /** From any quantity of at least one, no sequence of presses gets the
      quantity below one. */
  lemma {:induction false} StepsStayPositive(q: int, presses: seq<Press>)
    requires q >= 1
    ensures Steps(q, presses) >= 1
    decreases |presses|
  {
    if |presses| > 0 {
      StepsStayPositive(Step(q, presses[0]), presses[1..]);
    }
  }

  /** `handleAddToCart`: adds the chosen quantity only when a product is shown. */
  function AddFromPage(c: Lines, view: DetailsView, qty: int): (r: Lines)
    ensures view.NotFound? ==> r == c
    ensures view.Showing? ==> r == AddToCart(c, view.product, qty)
  {
    match view
    case NotFound => c
    case Showing(p, _) => AddToCart(c, p, qty)
  }

  /** For a product not yet in the cart, the price shown on the page is the
      one the cart charges per unit. */
  lemma PagePriceIsCartPrice(view: DetailsView, c: Lines, qty: int)
    requires view.Showing? && !HasLine(c, view.product.productId)
    ensures CartTotal(AddFromPage(c, view, qty)) == CartTotal(c) + DiscountedPrice(view.product) * (qty as real)
  {
    AddNewProduct(c, view.product, qty);
  }

  /** For a product already in the cart, the added units are charged at the
      price of the snapshot stored in its line when it was first added, not
      at the price the page shows; the two agree only when the snapshot is
      the product shown. */
  lemma StoredPriceIsCharged(view: DetailsView, c: Lines, qty: int, k: nat)
    requires view.Showing? && UniqueIds(c) && k < |c| && IdOf(c[k]) == view.product.productId
    ensures CartTotal(AddFromPage(c, view, qty)) == CartTotal(c) + DiscountedPrice(c[k].product) * (qty as real)
  {
    AddExistingProduct(c, view.product, qty, k);
  }

  /** A stored snapshot at 10 and a page showing 20: adding two units
      raises the total by 20, not by 40. */
  lemma StalePriceExample()
    ensures var stored := Product(7, "p", "P", "C", "D", "T", false, 10.0, 0.0, 5);
      var shown := stored.(mrp := 20.0);
      var c := [CartLine(stored, 1)];
      DiscountedPrice(shown) == 20.0 &&
      CartTotal(AddFromPage(c, Showing(shown, []), 2)) == CartTotal(c) + 20.0
  {
    var stored := Product(7, "p", "P", "C", "D", "T", false, 10.0, 0.0, 5);
    var shown := stored.(mrp := 20.0);
    StoredPriceIsCharged(Showing(shown, []), [CartLine(stored, 1)], 2, 0);
  }
}
