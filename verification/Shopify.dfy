/** Watching a whole shop collection, page by page. */
module Shopify {
  import opened Model
  import opened Amount
  import opened Text
  import Keys

  datatype Variant = Variant(available: bool, price: string)

  datatype Item = Item(id: int, title: string, handle: string, variants: seq<Variant>)

  /** What a page request yields; missing is a 404 or 410, failed any other error. */
  datatype Page = Missing | Failed | Items(items: seq<Item>)

  const PAGE_SIZE := 250
  const MAX_PAGES := 20

  // ----- the price of one product

  function PriceOf(v: Variant): Option<real> {
    if v.available then ParseAmount(v.price) else None
  }

  /** The readable prices of available variants. */
  function Offered(variants: seq<Variant>): set<real> {
    if variants == [] then {}
    else
      var p := PriceOf(variants[|variants| - 1]);
      Offered(variants[..|variants| - 1]) + if p.Some? then {p.value} else {}
  }

  /** The least offered price, or none when no available variant has a readable one. */
  ghost predicate IsLeast(variants: seq<Variant>, price: Option<real>) {
    match price
    case None => Offered(variants) == {}
    case Some(p) => p in Offered(variants) && forall v :: v in Offered(variants) ==> p <= v
  }

  predicate AnyAvailable(variants: seq<Variant>) {
    exists i :: 0 <= i < |variants| && variants[i].available
  }

  lemma OfferedSnoc(vs: seq<Variant>, v: Variant)
    ensures Offered(vs + [v]) == Offered(vs) + if PriceOf(v).Some? then {PriceOf(v).value} else {}
  {
    assert (vs + [v])[..|vs|] == vs;
  }

  method MinAvailablePrice(variants: seq<Variant>) returns (min: Option<real>, available: bool)
    ensures IsLeast(variants, min)
    ensures available <==> AnyAvailable(variants)
  {
    min, available := None, false;
    for i := 0 to |variants|
      invariant available <==> exists j :: 0 <= j < i && variants[j].available
      invariant IsLeast(variants[..i], min)
    {
      OfferedSnoc(variants[..i], variants[i]);
      assert variants[..i + 1] == variants[..i] + [variants[i]];
      if !variants[i].available {
        continue;
      }
      available := true;
      var p := ParseAmount(variants[i].price);
      if p.Some? && (min.None? || p.value < min.value) {
        min := p;
      }
    }
    assert variants[..|variants|] == variants;
  }

  /** This variant is available, at this readable price. */
  predicate Asks(v: Variant, p: real) {
    v.available && ParseAmount(v.price) == Some(p)
  }

  ghost predicate Asked(variants: seq<Variant>, p: real) {
    exists i :: 0 <= i < |variants| && Asks(variants[i], p)
  }

  /** The least price that a variant asks, or none exactly when none asks any. */
  ghost predicate IsCheapest(variants: seq<Variant>, price: Option<real>) {
    match price
    case None => forall p :: !Asked(variants, p)
    case Some(p) => Asked(variants, p) && forall q :: Asked(variants, q) ==> p <= q
  }

  lemma AskedSnoc(vs: seq<Variant>, v: Variant, p: real)
    ensures Asked(vs + [v], p) <==> Asked(vs, p) || Asks(v, p)
  {
    assert (vs + [v])[|vs|] == v;
    if Asked(vs, p) {
      var i :| 0 <= i < |vs| && Asks(vs[i], p);
      assert (vs + [v])[i] == vs[i];
    }
  }

  lemma {:induction false} OfferedExact(variants: seq<Variant>, p: real)
    ensures p in Offered(variants) <==> Asked(variants, p)
  {
    if variants == [] {
    } else {
      var front, v := variants[..|variants| - 1], variants[|variants| - 1];
      assert variants == front + [v];
      OfferedExact(front, p);
      OfferedSnoc(front, v);
      AskedSnoc(front, v, p);
    }
  }

  lemma LeastIsCheapest(variants: seq<Variant>, price: Option<real>)
    requires IsLeast(variants, price)
    ensures IsCheapest(variants, price)
  {
    forall p ensures p in Offered(variants) <==> Asked(variants, p) {
      OfferedExact(variants, p);
    }
  }

  lemma LeastIsUnique(variants: seq<Variant>, a: Option<real>, b: Option<real>)
    requires IsLeast(variants, a) && IsLeast(variants, b)
    ensures a == b
  {
  }

  // ----- the offers of a list of products

  function FormatInt(n: int): string {
    if n < 0 then "-" + Digits(-n) else Digits(n)
  }

  lemma FormatIntInjective(m: int, n: int)
    requires FormatInt(m) == FormatInt(n)
    ensures m == n
  {
    assert m < 0 <==> FormatInt(m)[0] == '-' by {
      assert IsDigit(Digits(if m < 0 then -m else m)[0]);
    }
    assert n < 0 <==> FormatInt(n)[0] == '-' by {
      assert IsDigit(Digits(if n < 0 then -n else n)[0]);
    }
    if m < 0 {
      assert FormatInt(m)[1..] == Digits(-m) && FormatInt(n)[1..] == Digits(-n);
    }
  }

  /** Different products of a collection never share a key. */
  lemma ItemKeysInjective(base: string, storeName: string, a: Item, b: Item, p: Option<real>, q: Option<real>)
    requires OfferOf(base, storeName, a, p).key == OfferOf(base, storeName, b, q).key
    ensures a.id == b.id
  {
    Keys.FirstColon("shopify-collection", FormatInt(a.id), "shopify-collection", FormatInt(b.id));
    FormatIntInjective(a.id, b.id);
  }

  function OfferOf(base: string, storeName: string, it: Item, price: Option<real>): Offer {
    Offer("shopify-collection", it.title, it.title, 1, price, base + "/products/" + it.handle,
          storeName, Online, "", false, false, 0, Keys.SourceKey("shopify-collection", FormatInt(it.id)))
  }

  /** An available product's offer, at its least offered price. */
  ghost predicate IsOffer(base: string, storeName: string, it: Item, o: Offer) {
    exists p :: IsLeast(it.variants, p) && o == OfferOf(base, storeName, it, p)
  }

  /** The offers of exactly the available products, in order, each at its least offered price. */
  ghost predicate IsFiltered(base: string, storeName: string, items: seq<Item>, out: seq<Offer>)
    decreases |items|
  {
    if items == [] then out == []
    else
      var n := |items| - 1;
      if AnyAvailable(items[n].variants) then
        && out != []
        && IsFiltered(base, storeName, items[..n], out[..|out| - 1])
        && IsOffer(base, storeName, items[n], out[|out| - 1])
      else IsFiltered(base, storeName, items[..n], out)
  }

  lemma FilteredMore(base: string, storeName: string, items: seq<Item>, it: Item, out: seq<Offer>, o: Offer)
    requires IsFiltered(base, storeName, items, out)
    ensures AnyAvailable(it.variants) && IsOffer(base, storeName, it, o) ==>
              IsFiltered(base, storeName, items + [it], out + [o])
    ensures !AnyAvailable(it.variants) ==> IsFiltered(base, storeName, items + [it], out)
  {
    assert (items + [it])[..|items|] == items && (out + [o])[..|out|] == out;
  }

  lemma {:induction false} FilteredConcat(base: string, storeName: string, a: seq<Item>, b: seq<Item>, x: seq<Offer>,
                                          y: seq<Offer>)
    requires IsFiltered(base, storeName, a, x) && IsFiltered(base, storeName, b, y)
    ensures IsFiltered(base, storeName, a + b, x + y)
    decreases |b|
  {
    if b == [] {
      assert a + b == a && x + y == x;
    } else {
      var n, m := |b| - 1, |y| - 1;
      assert a + b == (a + b[..n]) + [b[n]];
      if AnyAvailable(b[n].variants) {
        FilteredConcat(base, storeName, a, b[..n], x, y[..m]);
        FilteredMore(base, storeName, a + b[..n], b[n], x + y[..m], y[m]);
        assert x + y == (x + y[..m]) + [y[m]];
      } else {
        FilteredConcat(base, storeName, a, b[..n], x, y);
        FilteredMore(base, storeName, a + b[..n], b[n], x + y, OfferOf("", "", b[n], None));
      }
    }
  }

  lemma {:induction false} FilteredIsUnique(base: string, storeName: string, items: seq<Item>, x: seq<Offer>,
                                            y: seq<Offer>)
    requires IsFiltered(base, storeName, items, x) && IsFiltered(base, storeName, items, y)
    ensures x == y
    decreases |items|
  {
    if items == [] {
    } else {
      var n := |items| - 1;
      if AnyAvailable(items[n].variants) {
        FilteredIsUnique(base, storeName, items[..n], x[..|x| - 1], y[..|y| - 1]);
        var p :| IsLeast(items[n].variants, p) && x[|x| - 1] == OfferOf(base, storeName, items[n], p);
        var q :| IsLeast(items[n].variants, q) && y[|y| - 1] == OfferOf(base, storeName, items[n], q);
        LeastIsUnique(items[n].variants, p, q);
        assert x == x[..|x| - 1] + [x[|x| - 1]];
      } else {
        FilteredIsUnique(base, storeName, items[..n], x, y);
      }
    }
  }

  /** What the offer for a product tells: its cheapest price, its page, and its key by id. */
  ghost predicate Tells(base: string, storeName: string, it: Item, o: Offer) {
    && o.source == "shopify-collection" && o.storeName == it.title && o.productName == it.title
    && o.stock == 1 && IsCheapest(it.variants, o.price)
    && o.url == base + "/products/" + it.handle && o.location == storeName
    && o.channel == Online && o.plz == "" && !o.targeted && !o.preOrder
    && o.key == "shopify-collection:" + FormatInt(it.id)
  }

  lemma OfferTells(base: string, storeName: string, it: Item, o: Offer)
    requires IsOffer(base, storeName, it, o)
    ensures Tells(base, storeName, it, o)
  {
    var p :| IsLeast(it.variants, p) && o == OfferOf(base, storeName, it, p);
    LeastIsCheapest(it.variants, p);
    Regroup("shopify-collection", ":", FormatInt(it.id));
    assert "shopify-collection" + ":" == "shopify-collection:";
  }

  /** A product's offer, if it is available, tells it. */
  ghost function Telling(base: string, storeName: string): (Item, Option<Offer>) -> bool {
    (it: Item, o: Option<Offer>) =>
      (o.Some? <==> AnyAvailable(it.variants)) && (o.Some? ==> Tells(base, storeName, it, o.value))
  }

  /**
   What being the filter means for every product and every offer: one telling offer
   for each available product, in order, and no other; idx are the products.
   */
  lemma {:induction false} FilteredTells(base: string, storeName: string, items: seq<Item>, out: seq<Offer>)
    returns (offers: seq<Option<Offer>>, idx: seq<nat>)
    requires IsFiltered(base, storeName, items, out)
    ensures AllPairs(Telling(base, storeName), items, offers) && Picked(offers, out, idx)
    decreases |items|
  {
    if items == [] {
      offers, idx := [], [];
    } else {
      var n, m := |items| - 1, |out| - 1;
      var front, at := [], [];
      var o: Option<Offer> := None;
      if AnyAvailable(items[n].variants) {
        front, at := FilteredTells(base, storeName, items[..n], out[..m]);
        o := Some(out[m]);
        OfferTells(base, storeName, items[n], out[m]);
        PickMore(front, out[..m], at, o);
        assert out == out[..m] + [out[m]];
        idx := at + [|front|];
      } else {
        front, at := FilteredTells(base, storeName, items[..n], out);
        PickMore(front, out, at, o);
        idx := at;
      }
      offers := front + [o];
      PairMore(Telling(base, storeName), items[..n], front, items[n], o);
      assert items == items[..n] + [items[n]];
    }
  }

  method FilterPage(base: string, storeName: string, items: seq<Item>, out: seq<Offer>)
    returns (r: seq<Offer>, ghost more: seq<Offer>)
    ensures r == out + more && IsFiltered(base, storeName, items, more)
  {
    r, more := out, [];
    for i := 0 to |items|
      invariant r == out + more && IsFiltered(base, storeName, items[..i], more)
    {
      assert items[..i + 1][..i] == items[..i];
      var price, available := MinAvailablePrice(items[i].variants);
      if !available {
        continue;
      }
      var o := OfferOf(base, storeName, items[i], price);
      assert IsOffer(base, storeName, items[i], o);
      r := r + [o];
      assert (more + [o])[..|more|] == more;
      more := more + [o];
    }
    assert items[..|items|] == items;
  }

  // ----- the page loop

  /** The loop goes on after this page. */
  predicate Full(p: Page) {
    p.Items? && |p.items| >= PAGE_SIZE
  }

  /** All pages before page n were full, so page n is requested. */
  ghost predicate Reaches(pages: nat -> Page, n: nat) {
    1 <= n <= MAX_PAGES && forall i: nat :: 1 <= i < n ==> Full(pages(i))
  }

  /** The products of pages 1 to n. */
  function Gathered(pages: nat -> Page, n: nat): seq<Item> {
    if n == 0 then []
    else Gathered(pages, n - 1) + (if pages(n).Items? then pages(n).items else [])
  }

  /** `out` is the filter of pages 1 to n, all of them full. */
  ghost predicate SoFar(base: string, storeName: string, pages: nat -> Page, n: nat, out: seq<Offer>) {
    && (forall i: nat :: 1 <= i <= n ==> Full(pages(i)))
    && IsFiltered(base, storeName, Gathered(pages, n), out)
  }

  /** One more page of products. */
  lemma OnePageMore(base: string, storeName: string, pages: nat -> Page, n: nat, items: seq<Item>, out: seq<Offer>,
                    more: seq<Offer>)
    requires SoFar(base, storeName, pages, n, out)
    requires pages(n + 1) == Items(items) && IsFiltered(base, storeName, items, more)
    ensures IsFiltered(base, storeName, Gathered(pages, n + 1), out + more)
    ensures |items| >= PAGE_SIZE ==> SoFar(base, storeName, pages, n + 1, out + more)
  {
    FilteredConcat(base, storeName, Gathered(pages, n), items, out, more);
  }

  /**
   The right answer of the page loop: it requests pages up to the first that is not
   full, or to the last allowed one; an error there discards everything, otherwise
   the result is the filter of all pages so far.
   */
  ghost predicate Answers(base: string, storeName: string, pages: nat -> Page, r: Option<seq<Offer>>, fetches: nat) {
    && Reaches(pages, fetches) && (Full(pages(fetches)) ==> fetches == MAX_PAGES)
    && (r.None? <==> pages(fetches).Failed?)
    && (r.Some? ==> IsFiltered(base, storeName, Gathered(pages, fetches), r.value))
  }

  /** Stopping at a page without products. */
  lemma StopEmpty(base: string, storeName: string, pages: nat -> Page, n: nat, out: seq<Offer>)
    requires 1 <= n <= MAX_PAGES && SoFar(base, storeName, pages, n - 1, out) && !pages(n).Items?
    ensures Answers(base, storeName, pages, if pages(n).Failed? then None else Some(out), n)
  {
    assert Gathered(pages, n) == Gathered(pages, n - 1);
  }

  /** Stopping after a page of products: a short one, or the last allowed one. */
  lemma StopAfter(base: string, storeName: string, pages: nat -> Page, n: nat, out: seq<Offer>)
    requires 1 <= n <= MAX_PAGES && pages(n).Items? && (Full(pages(n)) ==> n == MAX_PAGES)
    requires forall i: nat :: 1 <= i < n ==> Full(pages(i))
    requires IsFiltered(base, storeName, Gathered(pages, n), out)
    ensures Answers(base, storeName, pages, Some(out), n)
  {
  }

  /** The page loop against any server; `fetches` is the last page it requests. */
  method CheckOne(base: string, storeName: string, pages: nat -> Page) returns (r: Option<seq<Offer>>, fetches: nat)
    ensures Answers(base, storeName, pages, r, fetches)
  {
    var out: seq<Offer> := [];
    var page := 1;
    while page <= MAX_PAGES
      invariant 1 <= page <= MAX_PAGES + 1
      invariant SoFar(base, storeName, pages, page - 1, out)
    {
      var resp := pages(page);
      if resp.Missing? {
        StopEmpty(base, storeName, pages, page, out);
        return Some(out), page;
      }
      if resp.Failed? {
        StopEmpty(base, storeName, pages, page, out);
        return None, page;
      }
      var next, more := FilterPage(base, storeName, resp.items, out);
      OnePageMore(base, storeName, pages, page - 1, resp.items, out, more);
      out := next;
      if |resp.items| == 0 || |resp.items| < PAGE_SIZE {
        StopAfter(base, storeName, pages, page, out);
        return Some(out), page;
      }
      page := page + 1;
    }
    StopAfter(base, storeName, pages, MAX_PAGES, out);
    return Some(out), MAX_PAGES;
  }

  // ----- against a server that slices one list

  function Min(a: int, b: int): int { if a < b then a else b }

  /** Page n of a list cut into full pages; empty beyond its end. */
  function Slice(items: seq<Item>, n: nat): Page {
    if n == 0 then Missing
    else
      var from := Min(PAGE_SIZE * (n - 1), |items|);
      Items(items[from..Min(from + PAGE_SIZE, |items|)])
  }

  function Server(items: seq<Item>): nat -> Page {
    (n: nat) => Slice(items, n)
  }

  lemma {:induction false} SlicesGather(items: seq<Item>, n: nat)
    ensures Gathered(Server(items), n) == items[..Min(PAGE_SIZE * n, |items|)]
  {
    if n > 0 {
      SlicesGather(items, n - 1);
      var from := Min(PAGE_SIZE * (n - 1), |items|);
      assert items[..from] + items[from..Min(from + PAGE_SIZE, |items|)] == items[..Min(PAGE_SIZE * n, |items|)];
    } else {
      assert items[..0] == [];
    }
  }

  lemma SliceFull(items: seq<Item>, n: nat)
    requires n > 0
    ensures Full(Slice(items, n)) <==> PAGE_SIZE * n <= |items|
  {
  }

  /**
   Pagination refines a flat filter: against a server that slices N products,
   whatever satisfies the loop's contract is the filter of the first
   min(N, 5000) products, after min(20, N / 250 + 1) requests.
   */
  lemma PaginationIsFlat(base: string, storeName: string, items: seq<Item>, r: Option<seq<Offer>>, fetches: nat)
    requires Answers(base, storeName, Server(items), r, fetches)
    ensures fetches == Min(20, |items| / 250 + 1)
    ensures r.Some? && IsFiltered(base, storeName, items[..Min(|items|, 5000)], r.value)
  {
    FetchCount(items, fetches);
    FirstFiveThousand(items, fetches);
    assert Server(items)(fetches).Items?;
  }

  lemma FirstFiveThousand(items: seq<Item>, fetches: nat)
    requires fetches == Min(20, |items| / 250 + 1)
    ensures Gathered(Server(items), fetches) == items[..Min(|items|, 5000)]
  {
    SlicesGather(items, fetches);
  }

  lemma FetchCount(items: seq<Item>, fetches: nat)
    requires Reaches(Server(items), fetches)
    requires Full(Slice(items, fetches)) ==> fetches == MAX_PAGES
    ensures fetches == Min(MAX_PAGES, |items| / PAGE_SIZE + 1)
  {
    SliceFull(items, fetches);
    if fetches > 1 {
      assert Full(Server(items)(fetches - 1));
      SliceFull(items, fetches - 1);
    }
  }

  /** The whole loop against a slicing server. */
  method CheckSliced(base: string, storeName: string, items: seq<Item>) returns (r: seq<Offer>, fetches: nat)
    ensures fetches == Min(20, |items| / 250 + 1)
    ensures IsFiltered(base, storeName, items[..Min(|items|, 5000)], r)
  {
    var pages := Server(items);
    var got, n := CheckOne(base, storeName, pages);
    PaginationIsFlat(base, storeName, items, got, n);
    return got.value, n;
  }
}
