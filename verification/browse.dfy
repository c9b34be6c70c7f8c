/** The catalogue page: a chain of optional filters, a page of nine products
    at a time, and the distinct values offered in the filter drop-downs. */
module Browse {
  import opened Common
  import opened Catalog

  /** The four filter controls; an empty string or an unticked box means
      "no constraint". */
  datatype Filters = Filters(category: string, company: string, productType: string, trending: bool)

  /** What the reset buttons set. */
  const ResetFilters := Filters("", "", "", false)

  const PageSize := 9

  /** A product passes every active filter. */
  predicate Matches(p: Product, f: Filters) {
    && (f.category == "" || p.diseaseCategory == f.category)
    && (f.company == "" || p.company == f.company)
    && (f.productType == "" || p.productType == f.productType)
    && (!f.trending || p.trending)
  }

  function HasCategory(c: string): Product -> bool {
    (p: Product) => p.diseaseCategory == c
  }

  function HasCompany(c: string): Product -> bool {
    (p: Product) => p.company == c
  }

  function HasType(t: string): Product -> bool {
    (p: Product) => p.productType == t
  }

  function IsTrending(): Product -> bool {
    (p: Product) => p.trending
  }

  /** One optional step of the chain: `if (active) result = result.filter(pred)`. */
  function Narrow(s: seq<Product>, active: bool, pred: Product -> bool): seq<Product> {
    if active then Keep(s, pred) else s
  }

  /** The filter effect: each active control narrows the previous result. */
  function ApplyFilters(ps: seq<Product>, f: Filters): seq<Product> {
    var byCategory := Narrow(ps, f.category != "", HasCategory(f.category));
    var byCompany := Narrow(byCategory, f.company != "", HasCompany(f.company));
    var byType := Narrow(byCompany, f.productType != "", HasType(f.productType));
    Narrow(byType, f.trending, IsTrending())
  }

  /** An optional step is a filter by "inactive, or satisfied". */
  lemma NarrowIsKeep(s: seq<Product>, active: bool, pred: Product -> bool, q: Product -> bool)
    requires forall x :: q(x) == (!active || pred(x))
    ensures Narrow(s, active, pred) == Keep(s, q)
  {
    if active {
      KeepTwice(s, pred, (x: Product) => true, q);
      KeepEverything(Keep(s, pred), (x: Product) => true);
    } else {
      KeepEverything(s, q);
    }
  }

  /** One more optional step after a filter by `q` is a filter by `q` and
      the step's condition. */
  lemma NarrowAfterKeep(ps: seq<Product>, q: Product -> bool, active: bool, pred: Product -> bool,
                        step: Product -> bool, both: Product -> bool)
    requires forall x :: step(x) == (!active || pred(x))
    requires forall x :: both(x) == (q(x) && step(x))
    ensures Narrow(Keep(ps, q), active, pred) == Keep(ps, both)
  {
    NarrowIsKeep(Keep(ps, q), active, pred, step);
    KeepTwice(ps, q, step, both);
  }

  /** The chain of filters keeps exactly what one pass with the conjunction
      of all active filters keeps, in catalogue order. */
  lemma FilterChainIsConjunction(ps: seq<Product>, f: Filters)
    ensures ApplyFilters(ps, f) == Keep(ps, (p: Product) => Matches(p, f))
  {
    var q1 := (p: Product) => f.category == "" || p.diseaseCategory == f.category;
    var q2 := (p: Product) => f.company == "" || p.company == f.company;
    var q3 := (p: Product) => f.productType == "" || p.productType == f.productType;
    var q4 := (p: Product) => !f.trending || p.trending;
    var q12 := (p: Product) => q1(p) && q2(p);
    var q123 := (p: Product) => q12(p) && q3(p);
    var all := (p: Product) => Matches(p, f);

    var s1 := Narrow(ps, f.category != "", HasCategory(f.category));
    NarrowIsKeep(ps, f.category != "", HasCategory(f.category), q1);
    var s2 := Narrow(s1, f.company != "", HasCompany(f.company));
    NarrowAfterKeep(ps, q1, f.company != "", HasCompany(f.company), q2, q12);
    var s3 := Narrow(s2, f.productType != "", HasType(f.productType));
    NarrowAfterKeep(ps, q12, f.productType != "", HasType(f.productType), q3, q123);
    NarrowAfterKeep(ps, q123, f.trending, IsTrending(), q4, all);
  }

  /** Every product shown passes every active filter, every product that
      passes them all is shown, and the catalogue order is kept. */
  lemma FilteredIsExactlyTheMatches(ps: seq<Product>, f: Filters)
    ensures forall p :: p in ApplyFilters(ps, f) <==> p in ps && Matches(p, f)
    ensures IsSubsequence(ApplyFilters(ps, f), ps)
  {
    FilterChainIsConjunction(ps, f);
    KeepIsSubsequence(ps, (p: Product) => Matches(p, f));
    KeepMembers(ps, (p: Product) => Matches(p, f));
  }

  /** With the reset filters nothing is filtered out. */
  lemma ResetShowsEverything(ps: seq<Product>)
    ensures ApplyFilters(ps, ResetFilters) == ps
  {
    FilterChainIsConjunction(ps, ResetFilters);
    KeepEverything(ps, (p: Product) => Matches(p, ResetFilters));
  }

  /** The page's state: the loaded catalogue, the controls, the filtered
      list and the current page number. */
  datatype HomeView = HomeView(products: seq<Product>, filters: Filters, filtered: seq<Product>, page: int)

  /** The state before the catalogue is fetched. */
  const InitialView := HomeView([], ResetFilters, [], 1)

  /** The effect that reruns whenever the catalogue or the filters change:
      it recomputes the filtered list and goes back to page one. */
  function Refilter(v: HomeView): (r: HomeView)
    ensures r.page == 1
    ensures r.products == v.products && r.filters == v.filters
    ensures forall p :: p in r.filtered <==> p in v.products && Matches(p, v.filters)
    ensures IsSubsequence(r.filtered, v.products)
    ensures r.filtered == Keep(v.products, (p: Product) => Matches(p, v.filters))
  {
    FilteredIsExactlyTheMatches(v.products, v.filters);
    FilterChainIsConjunction(v.products, v.filters);
    v.(filtered := ApplyFilters(v.products, v.filters), page := 1)
  }

  function ChangeFilters(v: HomeView, f: Filters): (r: HomeView)
    ensures r.page == 1 && r.filters == f && r.products == v.products
    ensures forall p :: p in r.filtered <==> p in v.products && Matches(p, f)
    ensures IsSubsequence(r.filtered, v.products)
    ensures r.filtered == Keep(v.products, (p: Product) => Matches(p, f))
  {
    Refilter(v.(filters := f))
  }

  function CatalogueLoaded(v: HomeView, ps: seq<Product>): (r: HomeView)
    ensures r.page == 1 && r.products == ps && r.filters == v.filters
    ensures forall p :: p in r.filtered <==> p in ps && Matches(p, v.filters)
    ensures IsSubsequence(r.filtered, ps)
    ensures r.filtered == Keep(ps, (p: Product) => Matches(p, v.filters))
  {
    Refilter(v.(products := ps))
  }

  /** The page starts with no products, the reset filters and page one;
      when the catalogue arrives every product is listed, in catalogue
      order. */
  lemma FirstLoadShowsEverything(ps: seq<Product>)
    ensures CatalogueLoaded(InitialView, ps) == HomeView(ps, ResetFilters, ps, 1)
  {
    ResetShowsEverything(ps);
  }

  // ---------------------------------------------------------------------
  // Pagination

  function Min(a: int, b: int): int {
    if a < b then a else b
  }

  /** `filtered.slice((page - 1) * pageSize, page * pageSize)`. */
  function Paginated(s: seq<Product>, page: int): (r: seq<Product>)
    ensures |r| <= PageSize
    ensures page >= 1 ==> r == s[Min((page - 1) * PageSize, |s|)..Min(page * PageSize, |s|)]
  {
    JsSlice(s, (page - 1) * PageSize, page * PageSize)
  }

  /** `Math.ceil(filtered.length / pageSize)`: the fewest pages of nine that
      hold `n` products. */
  function TotalPages(n: nat): (k: nat)
    ensures k * PageSize >= n
    ensures k == 0 || (k - 1) * PageSize < n
  {
    (n + PageSize - 1) / PageSize
  }

  /** Every page up to the last holds products; all but the last are full. */
  lemma PageSizes(s: seq<Product>, page: int)
    requires 1 <= page <= TotalPages(|s|)
    ensures |Paginated(s, page)| >= 1
    ensures page < TotalPages(|s|) ==> |Paginated(s, page)| == PageSize
  {
  }

  /** Pages `1..k` laid end to end. */
  function PagesUpTo(s: seq<Product>, k: nat): seq<Product> {
    if k == 0 then [] else PagesUpTo(s, k - 1) + Paginated(s, k)
  }

  lemma {:induction false} PagesUpToIsPrefix(s: seq<Product>, k: nat)
    ensures PagesUpTo(s, k) == s[..Min(k * PageSize, |s|)]
  {
    if k > 0 {
      PagesUpToIsPrefix(s, k - 1);
      var a := Min((k - 1) * PageSize, |s|);
      var b := Min(k * PageSize, |s|);
      assert s[..a] + s[a..b] == s[..b];
    }
  }

  /** The pages `1..TotalPages` put together give back the filtered list. */
  lemma PagesCoverEverything(s: seq<Product>)
    ensures PagesUpTo(s, TotalPages(|s|)) == s
  {
    PagesUpToIsPrefix(s, TotalPages(|s|));
  }

  // ---------------------------------------------------------------------
  // Drop-down values

  /** `[...new Set(products.map(field))]`. */
  function Values(ps: seq<Product>, field: Product -> string): (r: seq<string>)
    ensures NoDuplicates(r)
    ensures forall v :: v in r <==> exists i :: 0 <= i < |ps| && field(ps[i]) == v
  {
    var all := seq(|ps|, i requires 0 <= i < |ps| => field(ps[i]));
    assert forall v :: v in all <==> exists i :: 0 <= i < |ps| && field(ps[i]) == v by {
      forall v ensures v in all <==> exists i :: 0 <= i < |ps| && field(ps[i]) == v {
        if v in all {
          var i :| 0 <= i < |all| && all[i] == v;
          assert field(ps[i]) == v;
        }
        if exists i :: 0 <= i < |ps| && field(ps[i]) == v {
          var i :| 0 <= i < |ps| && field(ps[i]) == v;
          assert all[i] == v;
        }
      }
    }
    Distinct(all)
  }

  function Categories(ps: seq<Product>): seq<string> {
    Values(ps, (p: Product) => p.diseaseCategory)
  }

  function Companies(ps: seq<Product>): seq<string> {
    Values(ps, (p: Product) => p.company)
  }

  function Types(ps: seq<Product>): seq<string> {
    Values(ps, (p: Product) => p.productType)
  }
}
