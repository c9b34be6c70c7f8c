/** The three stores together, as the application holds them in memory, and
    the browser storage they write to. Each store writes its slot whenever
    its value changes, so after every operation the storage holds exactly
    what is in memory; reloading the page reads it back. */
module Storefront {
  import opened Common
  import opened Cart
  import opened CartActions
  import opened Orders
  import opened Session
  import opened Storage

  datatype App = App(cart: Lines, orders: seq<Order>, user: Option<User>, store: Store)

  /** Storage mirrors memory: both lists are saved, and the user slot holds
      the signed-in user or nothing. */
  ghost predicate Persisted(a: App) {
    && a.store.cart == Saved(a.cart)
    && a.store.orders == Saved(a.orders)
    && (if a.user.Some? then a.store.user == Saved(a.user.value) else a.store.user.Missing?)
  }

  /** A page load: each provider reads its slot, then the cart and order
      effects write back what was read. Only unparsable user text stops it. */
  function Boot(s: Store): (r: Result<App, LoadError>)
    ensures r.Err? <==> s.user.Unparsable?
    ensures r.Ok? ==> Persisted(r.value)
    ensures r.Ok? ==> r.value.cart == LoadList(s.cart) && r.value.orders == LoadList(s.orders)
    ensures r.Ok? ==> r.value.user == (if s.user.Saved? then Some(s.user.value) else None)
  {
    match LoadUser(s.user)
    case Err(e) => Err(e)
    case Ok(u) =>
      var cart := LoadList(s.cart);
      var orders := LoadList(s.orders);
      Ok(App(cart, orders, u, Store(Saved(cart), Saved(orders), s.user)))
  }

  /** Reloading after any sequence of operations restores the same state. */
  lemma ReloadRestoresState(a: App)
    requires Persisted(a)
    ensures Boot(a.store) == Ok(a)
  {
  }

  /** The cart store applies one operation and writes the new cart. */
  function DoCart(a: App, act: CartAction): (r: App)
    ensures r.cart == Apply(a.cart, act)
    ensures r.orders == a.orders && r.user == a.user
    ensures r.store.orders == a.store.orders && r.store.user == a.store.user
    ensures Persisted(a) ==> Persisted(r)
  {
    var c := Apply(a.cart, act);
    a.(cart := c, store := a.store.(cart := Saved(c)))
  }

  function RunCart(a: App, acts: seq<CartAction>): (r: App)
    decreases |acts|
  {
    if |acts| == 0 then a else RunCart(DoCart(a, acts[0]), acts[1..])
  }

  /** Cart operations never touch the orders or the session. */
  lemma {:induction false} RunCartKeepsOrdersAndUser(a: App, acts: seq<CartAction>)
    ensures RunCart(a, acts).orders == a.orders
    ensures RunCart(a, acts).user == a.user
    ensures RunCart(a, acts).cart == Run(a.cart, acts)
    decreases |acts|
  {
    if |acts| > 0 {
      RunCartKeepsOrdersAndUser(DoCart(a, acts[0]), acts[1..]);
    }
  }

  /** The order store prepends an order and writes the new list. */
  function PlaceOrder(a: App, o: Order): (r: App)
    ensures r.orders == AddOrder(a.orders, o)
    ensures r.cart == a.cart && r.user == a.user
    ensures r.store.orders == Saved(r.orders)
    ensures r.store.cart == a.store.cart && r.store.user == a.store.user
    ensures Persisted(a) ==> Persisted(r)
  {
    var os := AddOrder(a.orders, o);
    a.(orders := os, store := a.store.(orders := Saved(os)))
  }

  /** `login`: on success the user becomes the mock user for that email and
      is written to storage; on failure nothing changes. */
  function LogIn(a: App, email: string, password: string): (r: (App, Result<User, LoginError>))
    ensures r.1 == Login(email, password)
    ensures r.1.Ok? ==> r.0.user == Some(r.1.value) && r.0.user.value.email == email
    ensures r.1.Ok? ==> r.0.store.user == Saved(r.1.value)
    ensures r.1.Err? ==> r.0 == a
    ensures r.0.cart == a.cart && r.0.orders == a.orders
    ensures Persisted(a) ==> Persisted(r.0)
  {
    match Login(email, password)
    case Ok(u) => (a.(user := Some(u), store := a.store.(user := Saved(u))), Ok(u))
    case Err(e) => (a, Err(e))
  }

  /** `logout`: the user, order and cart keys are removed and the page is
      reloaded, so every store comes back empty. */
  function LogOut(a: App): (r: App)
    ensures r.user == None && r.cart == [] && r.orders == []
    ensures r.store == Store(Saved([]), Saved([]), Missing)
    ensures Boot(r.store) == Ok(r)
  {
    var cleared := a.store.(cart := Missing, orders := Missing, user := Missing);
    var booted := Boot(cleared);
    assert booted.Ok?;
    booted.value
  }

  /** `updateUser(data)`: the user is replaced wholesale and written. */
  function UpdateUser(a: App, data: User): (r: App)
    ensures r.user == Some(data) && r.store.user == Saved(data)
    ensures r.cart == a.cart && r.orders == a.orders
    ensures r.store.cart == a.store.cart && r.store.orders == a.store.orders
    ensures Persisted(a) ==> Persisted(r)
  {
    a.(user := Some(data), store := a.store.(user := Saved(data)))
  }

  /** `signup(formData)`: always reports success and signs nobody in. */
  function SignUp<F>(a: App, formData: F): (r: (App, bool))
    ensures r.0 == a && r.1
  {
    (a, true)
  }

  /** `updatePassword(current, next)`: checks nothing and changes nothing. */
  function UpdatePassword(a: App, currentPassword: string, newPassword: string): (r: App)
    ensures r == a
  {
    a
  }
}
