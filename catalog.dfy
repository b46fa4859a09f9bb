/**
 * The `/productos` handler (server.js): listing pages 1 to 10 are fetched in order, every
 * fragment of a fetched page is extracted, records with a name are kept, a page whose
 * fetch fails is skipped, and the kept records become the cards of the catalog page.
 */
module Catalog {

  import opened Text
  import opened Extraction
  import opened Card

  /** What fetching one listing page gives: an error, or the product fragments in document order. */
  datatype PageResult = FetchError | Listing(fragments: seq<Fragment>)

  const PageCount := 10
  const ListingBase := "https://gmnimportados.mitiendanube.com/productos/page/"

  function PageUrl(i: nat): string {
    ListingBase + DecimalString(i)
  }

  /** The extractor the handler applies to every fragment. */
  function Extractor(markup: string -> string): Fragment -> Product {
    f => ProductOf(f, markup)
  }

  /** The records of the first `n` fragments that have a name, in fragment order. */
  function NamedPrefix(fs: seq<Fragment>, n: nat, extract: Fragment -> Product): seq<Product>
    requires n <= |fs|
  {
    if n == 0 then []
    else
      var p := extract(fs[n - 1]);
      NamedPrefix(fs, n - 1, extract) + (if p.productName != "" then [p] else [])
  }

  /** The records of the fragments that have a name, in fragment order. */
  function Named(fs: seq<Fragment>, extract: Fragment -> Product): seq<Product> {
    NamedPrefix(fs, |fs|, extract)
  }

  /** What one page adds to the catalog. */
  function PageProducts(r: PageResult, extract: Fragment -> Product): seq<Product> {
    match r
    case FetchError => []
    case Listing(fs) => Named(fs, extract)
  }

  /** Per-page contributions `lo` to `hi`, concatenated in page order. */
  function Concat<T>(page: nat -> seq<T>, lo: nat, hi: int): seq<T>
    decreases hi - lo
  {
    if hi < lo then [] else Concat(page, lo, hi - 1) + page(hi)
  }

  /** What each page number contributes: its listing URL fetched, its named records kept. */
  function PagesOf(fetch: string -> PageResult, extract: Fragment -> Product): nat -> seq<Product> {
    (i: nat) => PageProducts(fetch(PageUrl(i)), extract)
  }

  /** The whole catalog: pages 1 to 10. */
  function CatalogOf(fetch: string -> PageResult, markup: string -> string): seq<Product> {
    Concat(PagesOf(fetch, Extractor(markup)), 1, PageCount)
  }

  /** The visible result of the handler: the count line and one card per product. */
  datatype CatalogPage = CatalogPage(countLine: string, cards: seq<seq<Segment>>)

  function CountLine(n: nat): string {
    "Encontramos " + DecimalString(n) + " productos"
  }

  function RenderCatalog(products: seq<Product>, encode: string -> string): (page: CatalogPage)
    ensures |page.cards| == |products|
    ensures forall k :: 0 <= k < |products| ==> page.cards[k] == ProductCard(products[k], encode)
  {
    CatalogPage(CountLine(|products|), seq(|products|, k requires 0 <= k < |products| => ProductCard(products[k], encode)))
  }

  /** One step of the inner loop: the fragment is extracted and its record pushed when it has a name. */
  method PushIfNamed(products: seq<Product>, f: Fragment, markup: string -> string) returns (extended: seq<Product>)
    ensures var p := Extractor(markup)(f);
            extended == products + (if p.productName != "" then [p] else [])
  {
    var productData := ExtractProductData(f, markup);
    assert Extractor(markup)(f) == productData;
    extended := products;
    if productData.productName != "" {
      extended := extended + [productData];
    } else {
      assert products + [] == products;
    }
  }

  /** The inner loop of the handler: every fragment of the page, in order. */
  method PushNamed(products: seq<Product>, fs: seq<Fragment>, markup: string -> string) returns (extended: seq<Product>)
    ensures extended == products + Named(fs, Extractor(markup))
  {
    extended := products;
    var j := 0;
    assert products + [] == products;
    while j < |fs|
      invariant 0 <= j <= |fs|
      invariant extended == products + NamedPrefix(fs, j, Extractor(markup))
    {
      PushStep(products, fs, j, Extractor(markup));
      extended := PushIfNamed(extended, fs[j], markup);
      j := j + 1;
    }
  }

  /**
   * One inner step, as a fact about the specification: the kept prefix grows by the
   * record of fragment `j` when it has a name. Stated apart from the loop so that the
   * loop's proof does not have to re-derive it among its other facts.
   */
  lemma PushStep(products: seq<Product>, fs: seq<Fragment>, j: nat, extract: Fragment -> Product)
    requires j < |fs|
    ensures var p := extract(fs[j]);
            products + NamedPrefix(fs, j + 1, extract) == products + NamedPrefix(fs, j, extract) + (if p.productName != "" then [p] else [])
  {
  }

  /**
   * The handler. `fetch` stands for the headless-browser page load (an error or the
   * outer markup of the list items), `markup` for the price formatting and `encode`
   * for `encodeURIComponent`.
   */
  method Productos(fetch: string -> PageResult, markup: string -> string, encode: string -> string)
    returns (products: seq<Product>, page: CatalogPage)
    ensures products == CatalogOf(fetch, markup)
    ensures page == RenderCatalog(products, encode)
  {
    ghost var extract := Extractor(markup);
    ghost var pages := PagesOf(fetch, extract);
    products := [];
    var i := 1;
    while i <= PageCount
      invariant 1 <= i <= PageCount + 1
      invariant products == Concat(pages, 1, i - 1)
      decreases PageCount + 1 - i
    {
      var result := fetch(PageUrl(i));
      assert Concat(pages, 1, i) == Concat(pages, 1, i - 1) + PageProducts(result, extract);
      match result {
        case FetchError =>
          // the error is logged and the page skipped
          assert products + [] == products;
        case Listing(fs) =>
          products := PushNamed(products, fs, markup);
      }
      i := i + 1;
    }
    page := RenderCatalog(products, encode);
  }

  // ---------------------------------------------------------------------------
  // Properties of the gathered catalog

  /** Every page URL names its own page. */
  lemma PageUrlInjective(i: nat, j: nat)
    ensures PageUrl(i) == PageUrl(j) ==> i == j
  {
    if PageUrl(i) == PageUrl(j) {
      assert DecimalString(i) == PageUrl(i)[|ListingBase|..];
      assert DecimalString(j) == PageUrl(j)[|ListingBase|..];
      DecimalStringInjective(i, j);
    }
  }

  /** A prefix of the fragments lying in `a` gives the same records as in `a` alone. */
  lemma {:induction false} NamedPrefixOfFront(a: seq<Fragment>, b: seq<Fragment>, n: nat, extract: Fragment -> Product)
    requires n <= |a|
    ensures NamedPrefix(a + b, n, extract) == NamedPrefix(a, n, extract)
  {
    if n > 0 {
      NamedPrefixOfFront(a, b, n - 1, extract);
      assert (a + b)[n - 1] == a[n - 1];
    }
  }

  lemma {:induction false} NamedPrefixAppend(a: seq<Fragment>, b: seq<Fragment>, m: nat, extract: Fragment -> Product)
    requires m <= |b|
    ensures NamedPrefix(a + b, |a| + m, extract) == Named(a, extract) + NamedPrefix(b, m, extract)
  {
    if m == 0 {
      NamedPrefixOfFront(a, b, |a|, extract);
      assert Named(a, extract) + [] == Named(a, extract);
    } else {
      NamedPrefixAppend(a, b, m - 1, extract);
      assert (a + b)[|a| + m - 1] == b[m - 1];
    }
  }

  /** Filtering distributes over concatenation: the order of fragments is kept. */
  lemma NamedAppend(a: seq<Fragment>, b: seq<Fragment>, extract: Fragment -> Product)
    ensures Named(a + b, extract) == Named(a, extract) + Named(b, extract)
  {
    NamedPrefixAppend(a, b, |b|, extract);
  }

  lemma {:induction false} NamedPrefixMembership(fs: seq<Fragment>, n: nat, extract: Fragment -> Product, p: Product)
    requires n <= |fs|
    ensures p in NamedPrefix(fs, n, extract) <==>
            p.productName != "" && exists k :: 0 <= k < n && extract(fs[k]) == p
  {
    if n > 0 {
      NamedPrefixMembership(fs, n - 1, extract, p);
    }
  }

  /** A record is kept exactly when it was extracted from one of the fragments and has a name. */
  lemma NamedMembership(fs: seq<Fragment>, extract: Fragment -> Product, p: Product)
    ensures p in Named(fs, extract) <==>
            p.productName != "" && exists k :: 0 <= k < |fs| && extract(fs[k]) == p
  {
    NamedPrefixMembership(fs, |fs|, extract, p);
  }

  /** Concatenating pages `lo..hi` is concatenating `lo..mid` and then `mid+1..hi`. */
  lemma {:induction false} ConcatSplit<T>(page: nat -> seq<T>, lo: nat, mid: int, hi: int)
    requires lo - 1 <= mid <= hi
    ensures Concat(page, lo, hi) == Concat(page, lo, mid) + Concat(page, mid + 1, hi)
    decreases hi - mid
  {
    if hi > mid {
      ConcatSplit(page, lo, mid, hi - 1);
    }
  }

  /** An element is in the concatenation exactly when it is in one of its pages. */
  lemma {:induction false} ConcatMembership<T>(page: nat -> seq<T>, lo: nat, hi: int, x: T)
    ensures x in Concat(page, lo, hi) <==> exists i: nat :: lo <= i <= hi && x in page(i)
    decreases hi - lo
  {
    if hi >= lo {
      ConcatMembership(page, lo, hi - 1, x);
    }
  }

  /** Page `k` contributes its own records between those of the earlier and the later pages, whatever they fetched. */
  lemma CatalogAroundPage(fetch: string -> PageResult, markup: string -> string, k: nat)
    requires 1 <= k <= PageCount
    ensures var pages := PagesOf(fetch, Extractor(markup));
            CatalogOf(fetch, markup) ==
            Concat(pages, 1, k - 1) + PageProducts(fetch(PageUrl(k)), Extractor(markup)) + Concat(pages, k + 1, PageCount)
  {
    ConcatAround(PagesOf(fetch, Extractor(markup)), 1, k, PageCount);
  }

  /** Page `k` sits between pages `lo..k-1` and `k+1..hi`. */
  lemma ConcatAround<T>(page: nat -> seq<T>, lo: nat, k: nat, hi: int)
    requires lo <= k <= hi
    ensures Concat(page, lo, hi) == Concat(page, lo, k - 1) + page(k) + Concat(page, k + 1, hi)
  {
    ConcatSplit(page, lo, k, hi);
    ConcatSplit(page, lo, k - 1, k);
  }

  /** A page whose fetch fails contributes nothing, and the pages after it are still gathered. */
  lemma FailedPageSkipped(fetch: string -> PageResult, markup: string -> string, k: nat)
    requires 1 <= k <= PageCount && fetch(PageUrl(k)).FetchError?
    ensures var pages := PagesOf(fetch, Extractor(markup));
            CatalogOf(fetch, markup) == Concat(pages, 1, k - 1) + Concat(pages, k + 1, PageCount)
  {
    var pages := PagesOf(fetch, Extractor(markup));
    ConcatAround(pages, 1, k, PageCount);
    assert pages(k) == [];
    assert Concat(pages, 1, k - 1) + [] == Concat(pages, 1, k - 1);
  }

  /** A record is gathered exactly when it has a name and was extracted from a fragment of a fetched page. */
  lemma GatheredMembership(fetch: string -> PageResult, extract: Fragment -> Product, p: Product)
    ensures p in Concat(PagesOf(fetch, extract), 1, PageCount) <==>
            p.productName != "" &&
            exists i: nat, k :: 1 <= i <= PageCount && fetch(PageUrl(i)).Listing? &&
              0 <= k < |fetch(PageUrl(i)).fragments| && extract(fetch(PageUrl(i)).fragments[k]) == p
  {
    var pages := PagesOf(fetch, extract);
    ConcatMembership(pages, 1, PageCount, p);
    forall i: nat | 1 <= i <= PageCount
      ensures p in pages(i) <==>
              (fetch(PageUrl(i)).Listing? && p.productName != "" &&
               exists k :: 0 <= k < |fetch(PageUrl(i)).fragments| && extract(fetch(PageUrl(i)).fragments[k]) == p)
    {
      if fetch(PageUrl(i)).Listing? {
        NamedMembership(fetch(PageUrl(i)).fragments, extract, p);
      }
    }
  }

  /** A record is in the catalog exactly when it has a name and was extracted from a fragment of a fetched page. */
  lemma CatalogMembership(fetch: string -> PageResult, markup: string -> string, p: Product)
    ensures p in CatalogOf(fetch, markup) <==>
            p.productName != "" &&
            exists i: nat, k :: 1 <= i <= PageCount && fetch(PageUrl(i)).Listing? &&
              0 <= k < |fetch(PageUrl(i)).fragments| && ProductOf(fetch(PageUrl(i)).fragments[k], markup) == p
  {
    GatheredMembership(fetch, Extractor(markup), p);
  }

  /** The count line shows the number of cards on the page. */
  lemma CountLineShowsCards(products: seq<Product>, encode: string -> string)
    ensures var page := RenderCatalog(products, encode);
            var line := page.countLine;
            && |line| > 22
            && line[..12] == "Encontramos " && line[|line| - 10..] == " productos"
            && ParseDecimal(line[12..|line| - 10]) == |page.cards|
  {
    var line := CountLine(|products|);
    assert line[12..|line| - 10] == DecimalString(|products|);
    DecimalRoundTrip(|products|);
  }
}
