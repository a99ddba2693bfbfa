/** The verdict of the page scraper, from markers in the page text. */
module WebCheck {
  import opened Model
  import opened Text
  import Keys

  // ----- normalising a page

  function LowerChar(c: char): char {
    if 'A' <= c <= 'Z' then (c as int + 32) as char else c
  }

  function Lower(s: string): (r: string)
    ensures |r| == |s|
    ensures forall i :: 0 <= i < |s| ==> r[i] == LowerChar(s[i])
  {
    seq(|s|, i requires 0 <= i < |s| => LowerChar(s[i]))
  }

  /** Turns each escaped slash into a slash, left to right. */
  function Unslash(s: string): string {
    if |s| >= 2 && s[0] == '\\' && s[1] == '/' then ['/'] + Unslash(s[2..])
    else if s == [] then []
    else [s[0]] + Unslash(s[1..])
  }

  function Normal(page: string): string {
    Unslash(Lower(page))
  }

  // ----- the verdict, declaratively

  /** Some marker of the list is on the normalised page. */
  ghost predicate Hit(html: string, markers: seq<string>) {
    exists i :: 0 <= i < |markers| && Contains(html, Lower(markers[i]))
  }

  datatype Markers = Markers(outOfStock: seq<string>, inStock: seq<string>, preOrder: seq<string>)

  /** None is not available; otherwise whether it is a pre-order. An empty token is no guard. */
  ghost function Verdict(html: string, token: string, m: Markers): Option<bool> {
    if (token == "" || Contains(html, Lower(token)))
       && !Hit(html, m.outOfStock)
       && (Hit(html, m.inStock) || Hit(html, m.preOrder))
    then Some(Hit(html, m.preOrder))
    else None
  }

  lemma HitEither(html: string, a: seq<string>, b: seq<string>)
    ensures Hit(html, a + b) <==> Hit(html, a) || Hit(html, b)
  {
    if i :| 0 <= i < |a| && Contains(html, Lower(a[i])) {
      assert (a + b)[i] == a[i];
    }
    if i :| 0 <= i < |b| && Contains(html, Lower(b[i])) {
      assert (a + b)[|a| + i] == b[i];
    }
  }

  lemma VerdictIs(html: string, token: string, m: Markers)
    ensures IsVerdict(html, token, m, Verdict(html, token, m))
  {
    HitEither(html, m.inStock, m.preOrder);
  }

  /**
   The guard against delisted products: a page without the product's token yields
   no result, whatever its markers say; on any other the token makes no difference.
   */
  lemma TokenGuards(html: string, token: string, m: Markers)
    ensures token != "" && !Contains(html, Lower(token)) ==> Verdict(html, token, m) == None
    ensures token == "" || Contains(html, Lower(token)) ==> Verdict(html, token, m) == Verdict(html, "", m)
  {
    VerdictIs(html, token, m);
  }

  /** What a page without escaped slashes is searched as: itself in lower case. */
  lemma NormalIsLower(page: string)
    requires !Contains(page, "\\/")
    ensures Normal(page) == Lower(page)
  {
    LowerHasNoNewSlashes(page);
    UnslashPlain(Lower(page));
  }

  // ----- the loops

  method AnyMarker(html: string, markers: seq<string>) returns (hit: bool)
    ensures hit <==> Hit(html, markers)
  {
    for i := 0 to |markers|
      invariant forall j :: 0 <= j < i ==> !Contains(html, Lower(markers[j]))
    {
      if Has(html, Lower(markers[i])) {
        return true;
      }
    }
    return false;
  }

  /** There is a result exactly when nothing speaks against the product and something for it. */
  ghost predicate IsVerdict(html: string, token: string, m: Markers, r: Option<bool>) {
    && (r.Some? <==>
          && (token != "" ==> Contains(html, Lower(token)))
          && (forall i :: 0 <= i < |m.outOfStock| ==> !Contains(html, Lower(m.outOfStock[i])))
          && (exists i :: 0 <= i < |m.inStock + m.preOrder| && Contains(html, Lower((m.inStock + m.preOrder)[i]))))
    && (r.Some? ==> (r.value <==> exists i :: 0 <= i < |m.preOrder| && Contains(html, Lower(m.preOrder[i]))))
  }

  method Decide(page: string, token: string, m: Markers) returns (r: Option<bool>)
    ensures r == Verdict(Normal(page), token, m)
    ensures IsVerdict(Normal(page), token, m, r)
  {
    var html := Normal(page);
    VerdictIs(html, token, m);
    if token != "" && !Has(html, Lower(token)) {
      return None;
    }
    var out := AnyMarker(html, m.outOfStock);
    if out {
      return None;
    }
    var available := AnyMarker(html, m.inStock);
    var preOrder := AnyMarker(html, m.preOrder);
    if preOrder {
      available := true;
    }
    if !available {
      return None;
    }
    return Some(preOrder);
  }

  // ----- spelling does not matter

  /** The same character, or one ASCII letter in its two cases. */
  predicate SameLetter(c: char, d: char) {
    || c == d
    || ('A' <= c <= 'Z' && 'a' <= d <= 'z' && c as int - 'A' as int == d as int - 'a' as int)
    || ('a' <= c <= 'z' && 'A' <= d <= 'Z' && c as int - 'a' as int == d as int - 'A' as int)
  }

  /** Lower-casing identifies exactly the two cases of a letter, and yields no capitals. */
  lemma LowerReads(c: char, d: char)
    ensures LowerChar(c) == LowerChar(d) <==> SameLetter(c, d)
    ensures SameLetter(c, LowerChar(c)) && !('A' <= LowerChar(c) <= 'Z')
  {
  }

  ghost predicate SameUpToCase(p: string, q: string) {
    |p| == |q| && forall i :: 0 <= i < |p| ==> SameLetter(p[i], q[i])
  }

  ghost predicate SameListUpToCase(a: seq<string>, b: seq<string>) {
    |a| == |b| && forall i :: 0 <= i < |a| ==> SameUpToCase(a[i], b[i])
  }

  lemma SameLower(p: string, q: string)
    requires SameUpToCase(p, q)
    ensures Lower(p) == Lower(q)
  {
  }

  lemma SameHits(html: string, a: seq<string>, b: seq<string>)
    requires SameListUpToCase(a, b)
    ensures Hit(html, a) <==> Hit(html, b)
  {
    forall i | 0 <= i < |a| ensures Lower(a[i]) == Lower(b[i]) {
      SameLower(a[i], b[i]);
    }
  }

  /** The case of page, token and markers is irrelevant. */
  lemma CaseIsIrrelevant(p: string, q: string, s: string, t: string, m: Markers, n: Markers)
    requires SameUpToCase(p, q) && SameUpToCase(s, t)
    requires SameListUpToCase(m.outOfStock, n.outOfStock)
    requires SameListUpToCase(m.inStock, n.inStock) && SameListUpToCase(m.preOrder, n.preOrder)
    ensures Verdict(Normal(p), s, m) == Verdict(Normal(q), t, n)
  {
    SameLower(p, q);
    SameLower(s, t);
    SameHits(Normal(p), m.outOfStock, n.outOfStock);
    SameHits(Normal(p), m.inStock, n.inStock);
    SameHits(Normal(p), m.preOrder, n.preOrder);
  }

  /** The page as a JSON encoder that escapes slashes writes it. */
  function EscapeSlashes(s: string): string {
    if s == [] then [] else (if s[0] == '/' then "\\/" else [s[0]]) + EscapeSlashes(s[1..])
  }

  lemma {:induction false} UnslashEscaped(s: string)
    ensures Unslash(EscapeSlashes(s)) == s
  {
    if s == [] {
    } else {
      var rest := EscapeSlashes(s[1..]);
      UnslashEscaped(s[1..]);
      assert rest != [] ==> rest[0] != '/';
      if s[0] == '/' {
        assert ("\\/" + rest)[2..] == rest;
      } else {
        assert ([s[0]] + rest)[1..] == rest;
      }
    }
  }

  lemma {:induction false} LowerEscaped(s: string)
    ensures Lower(EscapeSlashes(s)) == EscapeSlashes(Lower(s))
  {
    if s == [] {
    } else {
      LowerEscaped(s[1..]);
      assert Lower(s)[1..] == Lower(s[1..]);
      var first := if s[0] == '/' then "\\/" else [s[0]];
      LowerConcat(first, EscapeSlashes(s[1..]));
      assert LowerChar(s[0]) == '/' <==> s[0] == '/';
      assert Lower(first) == if s[0] == '/' then "\\/" else [LowerChar(s[0])];
    }
  }

  lemma LowerConcat(a: string, b: string)
    ensures Lower(a + b) == Lower(a) + Lower(b)
  {
  }

  lemma EscapeInFront(s: string)
    ensures |s| >= 2 && s[0] == '\\' && s[1] == '/' ==> Contains(s, "\\/")
  {
    if |s| >= 2 && s[0] == '\\' && s[1] == '/' {
      assert At(s, "\\/", 0);
    }
  }

  lemma {:induction false} UnslashPlain(s: string)
    requires !Contains(s, "\\/")
    ensures Unslash(s) == s
  {
    if s == [] {
    } else {
      EscapeInFront(s);
      TailContains(s, "\\/");
      UnslashPlain(s[1..]);
    }
  }

  lemma LowerHasNoNewSlashes(s: string)
    ensures Contains(Lower(s), "\\/") ==> Contains(s, "\\/")
  {
    if Contains(Lower(s), "\\/") {
      var i :| At(Lower(s), "\\/", i);
      var t := Lower(s)[i..];
      assert t[0] == '\\' && t[1] == '/';
      assert LowerChar(s[i]) == '\\' && LowerChar(s[i + 1]) == '/';
      assert s[i..][0] == '\\' && s[i..][1] == '/';
      assert At(s, "\\/", i);
    }
  }

  /** Escaping every slash of a page that has no escaped one changes no verdict. */
  lemma EscapingIsIrrelevant(page: string, token: string, m: Markers)
    requires !Contains(page, "\\/")
    ensures Verdict(Normal(EscapeSlashes(page)), token, m) == Verdict(Normal(page), token, m)
  {
    LowerEscaped(page);
    UnslashEscaped(Lower(page));
    LowerHasNoNewSlashes(page);
    UnslashPlain(Lower(page));
  }

  lemma {:induction false} UnslashLength(s: string)
    ensures |Unslash(s)| <= |s|
  {
    if |s| >= 2 && s[0] == '\\' && s[1] == '/' {
      UnslashLength(s[2..]);
    } else if s != [] {
      UnslashLength(s[1..]);
    }
  }

  lemma {:induction false} UnslashShortens(s: string, i: nat)
    requires i + 1 < |s| && s[i] == '\\' && s[i + 1] == '/'
    ensures |Unslash(s)| < |s|
  {
    if s[0] == '\\' && s[1] == '/' {
      UnslashLength(s[2..]);
    } else {
      UnslashShortens(s[1..], i - 1);
    }
  }

  lemma EscapedSlashShortens(page: string)
    requires Contains(page, "\\/")
    ensures |Normal(page)| < |Lower(page)|
  {
    var i :| At(page, "\\/", i);
    assert page[i..][0] == '\\' && page[i..][1] == '/';
    assert page[i] == '\\' && page[i + 1] == '/';
    UnslashShortens(Lower(page), i);
  }

  /** The page itself as the one in-stock marker tells the two spellings apart. */
  lemma EscapingMatters(page: string)
    requires Contains(page, "\\/")
    ensures var m := Markers([], [page], []);
            Verdict(Normal(EscapeSlashes(page)), "", m) != Verdict(Normal(page), "", m)
  {
    var low := Lower(page);
    EscapedReads(page);
    EscapedSlashShortens(page);
    assert low[0..] == low && At(low, low, 0);
    assert [page][0] == page;
    assert Hit(low, [page]) && !Hit(low, []);
    assert !Contains(Normal(page), low) && !Hit(Normal(page), [page]) && !Hit(Normal(page), []);
  }

  ghost predicate EscapingIgnored(page: string, token: string, m: Markers) {
    Verdict(Normal(EscapeSlashes(page)), token, m) == Verdict(Normal(page), token, m)
  }

  /** Escaping every slash of a page is invisible to all scrapers exactly when the page has no escaped slash yet. */
  lemma EscapingIgnoredExactly(page: string)
    ensures (forall token, m :: EscapingIgnored(page, token, m)) <==> !Contains(page, "\\/")
  {
    if Contains(page, "\\/") {
      EscapingMatters(page);
      assert !EscapingIgnored(page, "", Markers([], [page], []));
    } else {
      forall token, m ensures EscapingIgnored(page, token, m) {
        EscapingIsIrrelevant(page, token, m);
      }
    }
  }

  // ----- more page, more markers

  /** Only a backslash that meets a slash across the seam is lost. */
  ghost predicate Seam(a: string, b: string) {
    a != [] && b != [] && a[|a| - 1] == '\\' && b[0] == '/'
  }

  lemma UnslashPair(x: string, rest: string)
    requires |x| == 2 && x[0] == '\\' && x[1] == '/'
    ensures Unslash(x + rest) == ['/'] + Unslash(rest)
  {
    assert (x + rest)[2..] == rest;
  }

  lemma UnslashOne(c: char, rest: string)
    requires c == '\\' ==> rest == "" || rest[0] != '/'
    ensures Unslash([c] + rest) == [c] + Unslash(rest)
  {
    assert ([c] + rest)[1..] == rest;
  }

  lemma {:induction false} UnslashConcat(a: string, b: string)
    requires !Seam(a, b)
    ensures Unslash(a + b) == Unslash(a) + Unslash(b)
    decreases |a|
  {
    if a == [] {
      assert a + b == b;
    } else {
      var n := if |a| >= 2 && a[0] == '\\' && a[1] == '/' then 2 else 1;
      var head, tail := a[..n], a[n..];
      assert a == head + tail;
      Regroup(head, tail, b);
      UnslashConcat(tail, b);
      if n == 2 {
        UnslashPair(head, tail);
        UnslashPair(head, tail + b);
        Regroup(['/'], Unslash(tail), Unslash(b));
      } else {
        UnslashOne(a[0], tail);
        UnslashOne(a[0], tail + b);
        Regroup([a[0]], Unslash(tail), Unslash(b));
      }
    }
  }

  lemma UnslashSeam(a: string, b: string)
    requires Seam(a, b)
    ensures Unslash(a) == Unslash(a[..|a| - 1]) + ['\\']
    ensures Unslash(a + b) == Unslash(a[..|a| - 1]) + Unslash(b)
  {
    var front := a[..|a| - 1];
    UnslashConcat(front, ['\\']);
    assert Unslash(['\\']) == ['\\'] + Unslash([]);
    assert a == front + ['\\'];
    var c := ['\\'] + b;
    UnslashConcat(front, c);
    assert a + b == front + c;
    assert c[2..] == b[1..];
    assert Unslash(b) == ['/'] + Unslash(b[1..]);
  }

  /** What is on the right of a seam survives whole. */
  lemma SurvivesLeft(a: string, p: string, marker: string)
    requires Contains(Unslash(p), marker)
    ensures Contains(Unslash(a + p), marker)
  {
    if Seam(a, p) {
      UnslashSeam(a, p);
      ContainsLeft(Unslash(a[..|a| - 1]), Unslash(p), marker);
    } else {
      UnslashConcat(a, p);
      ContainsLeft(Unslash(a), Unslash(p), marker);
    }
  }

  predicate EndsInBackslash(s: string) {
    s != "" && s[|s| - 1] == '\\'
  }

  /** A marker that does not end in a backslash cannot use the one a seam removes. */
  lemma SurvivesRight(p: string, b: string, marker: string)
    requires Contains(Unslash(p), marker) && !EndsInBackslash(marker)
    ensures Contains(Unslash(p + b), marker)
  {
    if Seam(p, b) {
      var kept := Unslash(p[..|p| - 1]);
      UnslashSeam(p, b);
      WithoutLast(kept, '\\', marker);
      ContainsRight(kept, Unslash(b), marker);
    } else {
      UnslashConcat(p, b);
      ContainsRight(Unslash(p), Unslash(b), marker);
    }
  }

  lemma WithoutLast(s: string, c: char, marker: string)
    requires Contains(s + [c], marker) && (marker == "" || marker[|marker| - 1] != c)
    ensures Contains(s, marker)
  {
    var t := s + [c];
    var i :| At(t, marker, i);
    if marker == "" {
      assert At(s, marker, 0);
    } else {
      assert t[i..][|marker| - 1] == marker[|marker| - 1];
      assert i + |marker| <= |s|;
      assert s[i..] == t[i..][..|s| - i];
      assert At(s, marker, i);
    }
  }

  /** A hit of this marker on a page is a hit on the page with this around it. */
  ghost predicate KeepsHit(marker: string, before: string, page: string, after: string) {
    Contains(Normal(page), Lower(marker)) ==> Contains(Normal(before + page + after), Lower(marker))
  }

  lemma HitPersists(marker: string, before: string, page: string, after: string)
    requires !EndsInBackslash(marker)
    ensures KeepsHit(marker, before, page, after)
  {
    if Contains(Normal(page), Lower(marker)) {
      var a, p, b := Lower(before), Lower(page), Lower(after);
      LowerConcat(before, page);
      LowerConcat(before + page, after);
      assert !EndsInBackslash(Lower(marker));
      SurvivesLeft(a, p, Lower(marker));
      SurvivesRight(a + p, b, Lower(marker));
    }
  }

  lemma {:induction false} EscapedEnd(s: string)
    requires EndsInBackslash(s)
    ensures EndsInBackslash(EscapeSlashes(s))
  {
    if |s| <= 1 {
    } else {
      EscapedEnd(s[1..]);
    }
  }

  lemma EscapedReads(s: string)
    ensures Normal(EscapeSlashes(s)) == Lower(s)
  {
    LowerEscaped(s);
    UnslashEscaped(Lower(s));
  }

  /** A slash behind a page that ends in a backslash takes its place. */
  lemma SlashTakesPlace(p: string)
    requires EndsInBackslash(p)
    ensures var u := Unslash(p); EndsInBackslash(u) && Unslash(p + "/") == u[..|u| - 1] + "/"
  {
    UnslashSeam(p, "/");
    assert Unslash("/") == "/";
  }

  lemma SameEnd(s: string, pat: string)
    requires |s| == |pat| > 0 && Contains(s, pat)
    ensures s[|s| - 1] == pat[|pat| - 1]
  {
    var i :| At(s, pat, i);
    assert s[i..][|pat| - 1] == pat[|pat| - 1];
  }

  lemma WholeHitVanishes(p: string)
    requires EndsInBackslash(p)
    ensures Contains(Unslash(p), Unslash(p)) && !Contains(Unslash(p + "/"), Unslash(p))
  {
    var low := Unslash(p);
    assert low[0..] == low && At(low, low, 0);
    SlashTakesPlace(p);
    if Contains(Unslash(p + "/"), low) {
      SameEnd(Unslash(p + "/"), low);
    }
  }

  lemma LowerEnd(s: string)
    ensures EndsInBackslash(Lower(s)) <==> EndsInBackslash(s)
  {
  }

  lemma NormalBehind(page: string, after: string)
    requires Lower(after) == after
    ensures Normal([] + page + after) == Unslash(Lower(page) + after)
  {
    assert [] + page == page;
    LowerConcat(page, after);
  }

  /** Write the marker itself as a page, with its slashes escaped: a slash behind it takes its last character. */
  lemma HitVanishes(marker: string, page: string, slash: string)
    requires EndsInBackslash(marker)
    requires page == EscapeSlashes(marker) && slash == "/"
    ensures !KeepsHit(marker, [], page, slash)
  {
    EscapedReads(marker);
    EscapedEnd(marker);
    LowerEnd(page);
    WholeHitVanishes(Lower(page));
    assert Lower(slash) == slash;
    NormalBehind(page, slash);
  }

  /**
   A marker's hits persist in every page around a page that has them exactly when
   the marker does not end in a backslash.
   */
  lemma HitsPersistExactly(marker: string)
    ensures (forall before, page, after :: KeepsHit(marker, before, page, after)) <==> !EndsInBackslash(marker)
  {
    if EndsInBackslash(marker) {
      HitVanishes(marker, EscapeSlashes(marker), "/");
    } else {
      forall before, page, after ensures KeepsHit(marker, before, page, after) {
        HitPersists(marker, before, page, after);
      }
    }
  }

  /** So an out-of-stock page stays out of stock whatever is put around it. */
  lemma OutOfStockPersists(before: string, page: string, after: string, token: string, m: Markers, i: int)
    requires 0 <= i < |m.outOfStock| && !EndsInBackslash(m.outOfStock[i])
    requires Contains(Normal(page), Lower(m.outOfStock[i]))
    ensures Verdict(Normal(before + page + after), token, m) == None
  {
    HitPersists(m.outOfStock[i], before, page, after);
  }

  ghost predicate Includes(more: seq<string>, markers: seq<string>) {
    forall i :: 0 <= i < |markers| ==> markers[i] in more
  }

  lemma MoreHits(html: string, more: seq<string>, markers: seq<string>)
    requires Includes(more, markers) && Hit(html, markers)
    ensures Hit(html, more)
  {
    var i :| 0 <= i < |markers| && Contains(html, Lower(markers[i]));
    assert markers[i] in more;
  }

  /**
   More out-of-stock markers only take results away and leave the others as they
   are; more in-stock and pre-order markers only add results, and never take a
   pre-order flag away.
   */
  lemma MarkersAreMonotone(html: string, token: string, m: Markers, n: Markers)
    ensures Includes(n.outOfStock, m.outOfStock) && n.inStock == m.inStock && n.preOrder == m.preOrder ==>
              Verdict(html, token, n) == None || Verdict(html, token, n) == Verdict(html, token, m)
    ensures n.outOfStock == m.outOfStock && Includes(n.inStock, m.inStock) && Includes(n.preOrder, m.preOrder) ==>
              (Verdict(html, token, m).Some? ==>
                 Verdict(html, token, n).Some? && (Verdict(html, token, m).value ==> Verdict(html, token, n).value))
  {
    if Includes(n.outOfStock, m.outOfStock) && Hit(html, m.outOfStock) {
      MoreHits(html, n.outOfStock, m.outOfStock);
    }
    if Includes(n.inStock, m.inStock) && Hit(html, m.inStock) {
      MoreHits(html, n.inStock, m.inStock);
    }
    if Includes(n.preOrder, m.preOrder) && Hit(html, m.preOrder) {
      MoreHits(html, n.preOrder, m.preOrder);
    }
  }

  // ----- the source over its URLs

  /** A fetched page; gone is a 404 or 410, broken any other failure. */
  datatype Fetch = Gone | Broken | Page(body: string)

  /** A configured scraper; its token and price readers are given. */
  datatype Scraper = Scraper(
    name: string,
    storeName: string,
    product: string,
    channel: Channel,
    markers: Markers,
    tokenFn: string -> string,
    priceFn: string -> Option<real>)

  /** The offer for a URL whose page passed the verdict. */
  function OfferOf(s: Scraper, url: string, page: string, preOrder: bool): Offer {
    Offer(s.name, s.storeName, s.product, 1, s.priceFn(Normal(page)), url,
          if s.channel == InStore then s.storeName else "Online",
          s.channel, "", false, preOrder, 0, Keys.SourceKey(s.name, url))
  }

  /** What one URL contributes. */
  ghost function FromUrl(s: Scraper, url: string, f: Fetch): seq<Offer> {
    if !f.Page? then []
    else
      var v := Verdict(Normal(f.body), s.tokenFn(url), s.markers);
      if v.None? then [] else [OfferOf(s, url, f.body, v.value)]
  }

  ghost function FromUrls(s: Scraper, urls: seq<string>, fetches: seq<Fetch>): seq<Offer>
    requires |fetches| == |urls|
  {
    if urls == [] then []
    else
      var n := |urls| - 1;
      FromUrls(s, urls[..n], fetches[..n]) + FromUrl(s, urls[n], fetches[n])
  }

  /** What the offer for a URL tells: price as read off the normalised page, one piece, its key by name and URL. */
  predicate Tells(o: Offer, s: Scraper, url: string, body: string) {
    && o.source == s.name && o.storeName == s.storeName && o.productName == s.product
    && o.url == url && o.key == s.name + ":" + url
    && o.price == s.priceFn(Normal(body)) && o.stock == 1
    && o.channel == s.channel && o.location == (if s.channel == InStore then s.storeName else "Online")
    && o.plz == "" && !o.targeted
  }

  /** The offer for a URL, if its page is in stock by its token and the markers. */
  ghost function OfferIf(s: Scraper, url: string, f: Fetch): (r: Option<Offer>)
    ensures f.Page? ==> IsVerdict(Normal(f.body), s.tokenFn(url), s.markers,
                                  if r.None? then None else Some(r.value.preOrder))
    ensures r.Some? ==> f.Page? && Tells(r.value, s, url, f.body)
  {
    if !f.Page? then None
    else
      VerdictIs(Normal(f.body), s.tokenFn(url), s.markers);
      var v := Verdict(Normal(f.body), s.tokenFn(url), s.markers);
      if v.None? then None else Some(OfferOf(s, url, f.body, v.value))
  }

  ghost function OffersIf(s: Scraper, urls: seq<string>, fetches: seq<Fetch>): (r: seq<Option<Offer>>)
    requires |fetches| == |urls|
    ensures |r| == |urls| && forall i :: 0 <= i < |urls| ==> r[i] == OfferIf(s, urls[i], fetches[i])
  {
    seq(|urls|, i requires 0 <= i < |urls| => OfferIf(s, urls[i], fetches[i]))
  }

  /** One telling offer for each page in stock, in the order of the URLs, and no other. */
  lemma {:induction false} OffersTell(s: Scraper, urls: seq<string>, fetches: seq<Fetch>) returns (idx: seq<nat>)
    requires |fetches| == |urls|
    ensures Picked(OffersIf(s, urls, fetches), FromUrls(s, urls, fetches), idx)
  {
    if urls == [] {
      idx := [];
    } else {
      var n := |urls| - 1;
      var x := OfferIf(s, urls[n], fetches[n]);
      var front := OffersTell(s, urls[..n], fetches[..n]);
      assert OffersIf(s, urls, fetches) == OffersIf(s, urls[..n], fetches[..n]) + [x];
      PickMore(OffersIf(s, urls[..n], fetches[..n]), FromUrls(s, urls[..n], fetches[..n]), front, x);
      var before := FromUrls(s, urls[..n], fetches[..n]);
      idx := if x.Some? then front + [n] else front;
      assert FromUrls(s, urls, fetches) == if x.Some? then before + [x.value] else before + [];
      assert before + [] == before;
    }
  }

  lemma OneUrlMore(s: Scraper, urls: seq<string>, fetches: seq<Fetch>, i: nat)
    requires i < |fetches| == |urls|
    ensures FromUrls(s, urls[..i + 1], fetches[..i + 1]) ==
            FromUrls(s, urls[..i], fetches[..i]) + FromUrl(s, urls[i], fetches[i])
    ensures Broken in fetches[..i + 1] <==> Broken in fetches[..i] || fetches[i] == Broken
  {
    assert urls[..i + 1][..i] == urls[..i] && fetches[..i + 1][..i] == fetches[..i];
    assert fetches[..i + 1] == fetches[..i] + [fetches[i]];
  }

  /** None is an error: nothing found, and some page broke. */
  method Check(s: Scraper, urls: seq<string>, fetches: seq<Fetch>) returns (r: Option<seq<Offer>>)
    requires |fetches| == |urls|
    ensures r.None? <==> Errs(s, urls, fetches)
    ensures r.Some? ==> r.value == FromUrls(s, urls, fetches)
  {
    var out: seq<Offer> := [];
    var failed := false;
    for i := 0 to |urls|
      invariant out == FromUrls(s, urls[..i], fetches[..i])
      invariant failed <==> Broken in fetches[..i]
    {
      OneUrlMore(s, urls, fetches, i);
      match fetches[i] {
        case Gone =>
        case Broken => failed := true;
        case Page(body) =>
          var v := Decide(body, s.tokenFn(urls[i]), s.markers);
          if v.Some? {
            out := out + [OfferOf(s, urls[i], body, v.value)];
          }
      }
    }
    assert urls[..|urls|] == urls && fetches[..|urls|] == fetches;
    return if out == [] && failed then None else Some(out);
  }

  // ----- when an error means that every URL failed

  /** The check reports an error. */
  ghost predicate Errs(s: Scraper, urls: seq<string>, fetches: seq<Fetch>)
    requires |fetches| == |urls|
  {
    FromUrls(s, urls, fetches) == [] && Broken in fetches
  }

  predicate AllBroken(fetches: seq<Fetch>) {
    forall i :: 0 <= i < |fetches| ==> fetches[i] == Broken
  }

  /** A scraper that finds nothing in stock anywhere. */
  function Markerless(): Scraper {
    Scraper("", "", "", Online, Markers([], [], []), (url: string) => "", (html: string) => None)
  }

  lemma {:induction false} MarkerlessFindsNothing(urls: seq<string>, fetches: seq<Fetch>)
    requires |fetches| == |urls|
    ensures FromUrls(Markerless(), urls, fetches) == []
  {
    if urls == [] {
    } else {
      MarkerlessFindsNothing(urls[..|urls| - 1], fetches[..|urls| - 1]);
    }
  }

  /**
   For these fetches an error of any scraper means that every URL failed, if and
   only if none did or all did: one broken page among others that merely have
   nothing in stock is reported as an error.
   */
  lemma ErrorMeansAllFailedExactly(urls: seq<string>, fetches: seq<Fetch>)
    requires |fetches| == |urls|
    ensures (forall s :: Errs(s, urls, fetches) ==> AllBroken(fetches)) <==>
            Broken !in fetches || AllBroken(fetches)
  {
    MarkerlessFindsNothing(urls, fetches);
    assert Errs(Markerless(), urls, fetches) <==> Broken in fetches;
  }

  /** The failing input: a delisted product and a failed request. */
  lemma OneOfTwoFails(gone: string, broken: string)
    ensures Errs(Markerless(), [gone, broken], [Gone, Broken]) && !AllBroken([Gone, Broken])
  {
    MarkerlessFindsNothing([gone, broken], [Gone, Broken]);
    assert [Gone, Broken][0] == Gone && [Gone, Broken][1] == Broken;
  }
}
