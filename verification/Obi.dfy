/** The OBI source: one request per product and postal code, unpriced offers. */
module Obi {
  import opened Model
  import opened DedupStore
  import opened WithProduct
  import opened Tick
  import opened Reconcile
  import opened RunLaw
  import opened Keys
  import opened Text
  import opened Amount

  // ----- reading loosely shaped entries

  datatype Json = JString(s: string) | JNumber(n: real) | JOther

  type Entry = map<string, Json>

  /** The first non-empty string under any of the names. */
  function PickStr(m: Entry, names: seq<string>): string {
    if names == [] then ""
    else if names[0] in m && m[names[0]].JString? && m[names[0]].s != "" then m[names[0]].s
    else PickStr(m, names[1..])
  }

  /** A number's integer part, cut towards zero. */
  function Truncated(x: real): int {
    if x < 0.0 then -((-x).Floor) else x.Floor
  }

  function ParseInt(s: string): Option<int> {
    var signed := s != "" && (s[0] == '-' || s[0] == '+');
    var digits := if signed then s[1..] else s;
    if digits == "" || !AllDigits(digits) then None
    else Some(if signed && s[0] == '-' then -(IntValue(digits) as int) else IntValue(digits))
  }

  /** The first integer under any of the names, or zero. */
  function PickInt(m: Entry, names: seq<string>): int {
    if names == [] then 0
    else if names[0] in m && m[names[0]].JNumber? then Truncated(m[names[0]].n)
    else if names[0] in m && m[names[0]].JString? && ParseInt(m[names[0]].s).Some? then ParseInt(m[names[0]].s).value
    else PickInt(m, names[1..])
  }

  function FirstNonEmpty(a: string, b: string): string { if a != "" then a else b }

  function AtLeastOne(n: int): int { if n < 1 then 1 else n }

  function PickupId(e: Entry): string { PickStr(e, ["id", "storeId", "storeNo", "filialId"]) }

  function SellerId(e: Entry): string { PickStr(e, ["sellerId", "sellerName", "id"]) }

  function PickupOffer(productID: string, plz: string, e: Entry): Offer {
    Offer("obi",
          FirstNonEmpty(PickStr(e, ["name", "storeName", "title", "city"]), "OBI Filiale"),
          "OBI #" + productID,
          AtLeastOne(PickInt(e, ["stock", "quantity", "availableStockQuantity", "availableQuantity"])),
          None,
          "https://www.obi.de/p/" + productID,
          FirstNonEmpty(PickStr(e, ["city", "address", "street"]), plz),
          InStore,
          FirstNonEmpty(PickStr(e, ["postalCode", "zipCode", "plz"]), plz),
          true, false, 0,
          PickupKey(productID, PickupId(e)))
  }

  function DeliveryOffer(productID: string, plz: string, e: Entry): Offer {
    Offer("obi",
          FirstNonEmpty(PickStr(e, ["sellerName", "seller", "name"]), "OBI Online"),
          "OBI #" + productID,
          AtLeastOne(PickInt(e, ["stock", "quantity", "availableStockQuantity"])),
          None,
          "https://www.obi.de/p/" + productID,
          "Online · PLZ " + plz,
          Online, "", false, false, 0,
          DeliveryKey(productID, SellerId(e)))
  }

  // ----- what is read

  /** A non-empty string is found under this name. */
  predicate StrAt(m: Entry, n: string) {
    n in m && m[n].JString? && m[n].s != ""
  }

  /** The first name that has a non-empty string has this one; empty exactly when none has any. */
  ghost predicate IsFirstStr(m: Entry, names: seq<string>, s: string) {
    && (s == "" <==> forall i :: 0 <= i < |names| ==> !StrAt(m, names[i]))
    && (s != "" ==> exists i :: IsStrOf(m, names, i, s))
  }

  predicate IsStrOf(m: Entry, names: seq<string>, i: int, s: string) {
    0 <= i < |names| && StrAt(m, names[i]) && m[names[i]].s == s && forall j :: 0 <= j < i ==> !StrAt(m, names[j])
  }

  lemma {:induction false} PickStrFirst(m: Entry, names: seq<string>)
    ensures IsFirstStr(m, names, PickStr(m, names))
  {
    if names == [] {
    } else {
      var rest := names[1..];
      assert names == [names[0]] + rest;
      PickStrFirst(m, rest);
      if StrAt(m, names[0]) {
        assert IsStrOf(m, names, 0, PickStr(m, names));
      } else if PickStr(m, rest) != "" {
        var i :| IsStrOf(m, rest, i, PickStr(m, rest));
        assert IsStrOf(m, names, i + 1, PickStr(m, names));
      } else {
        assert forall i :: 1 <= i < |names| ==> names[i] == rest[i - 1];
      }
    }
  }

  /** This value reads as c: a number cut towards zero, or a string that spells an integer. */
  predicate ReadsAs(v: Json, c: int) {
    match v
    case JNumber(x) => (x >= 0.0 ==> c as real <= x < c as real + 1.0) && (x < 0.0 ==> c as real - 1.0 < x <= c as real)
    case JString(s) => ParseInt(s) == Some(c)
    case JOther => false
  }

  /** An integer is found under this name. */
  predicate IntAt(m: Entry, n: string) {
    n in m && (m[n].JNumber? || (m[n].JString? && ParseInt(m[n].s).Some?))
  }

  predicate IsIntOf(m: Entry, names: seq<string>, i: int, c: int) {
    0 <= i < |names| && IntAt(m, names[i]) && ReadsAs(m[names[i]], c) && forall j :: 0 <= j < i ==> !IntAt(m, names[j])
  }

  /** The first name that has an integer has this one; zero when none has any. */
  ghost predicate IsFirstInt(m: Entry, names: seq<string>, c: int) {
    if forall i :: 0 <= i < |names| ==> !IntAt(m, names[i]) then c == 0 else exists i :: IsIntOf(m, names, i, c)
  }

  lemma {:induction false} PickIntFirst(m: Entry, names: seq<string>)
    ensures IsFirstInt(m, names, PickInt(m, names))
  {
    if names == [] {
    } else {
      var rest := names[1..];
      assert names == [names[0]] + rest;
      PickIntFirst(m, rest);
      if IntAt(m, names[0]) {
        assert IsIntOf(m, names, 0, PickInt(m, names));
      } else if i :| 0 <= i < |rest| && IntAt(m, rest[i]) {
        var j :| IsIntOf(m, rest, j, PickInt(m, rest));
        assert IsIntOf(m, names, j + 1, PickInt(m, names));
      } else {
        assert forall i :: 1 <= i < |names| ==> names[i] == rest[i - 1];
      }
    }
  }

  /** Which strings spell an integer, and which one. */
  lemma ParseIntReads(n: nat, s: string)
    ensures ParseInt(Digits(n)) == ParseInt("+" + Digits(n)) == Some(n)
    ensures ParseInt("-" + Digits(n)).Some? && ParseInt("-" + Digits(n)).value + n == 0
    ensures ParseInt(s).Some? <==>
            (s != "" && AllDigits(s)) || (|s| > 1 && (s[0] == '-' || s[0] == '+') && AllDigits(s[1..]))
  {
    var d := Digits(n);
    assert IsDigit(d[0]);
    assert ("+" + d)[1..] == d && ("-" + d)[1..] == d;
    if s != "" && (s[0] == '-' || s[0] == '+') {
      assert !AllDigits(s);
    }
  }

  /** What the offer for a store tells. */
  predicate StoreTells(o: Offer, productID: string, plz: string, e: Entry) {
    var name := PickStr(e, ["name", "storeName", "title", "city"]);
    var place := PickStr(e, ["city", "address", "street"]);
    var code := PickStr(e, ["postalCode", "zipCode", "plz"]);
    var count := PickInt(e, ["stock", "quantity", "availableStockQuantity", "availableQuantity"]);
    && o.source == "obi" && o.productName == "OBI #" + productID && o.url == "https://www.obi.de/p/" + productID
    && o.storeName == (if name == "" then "OBI Filiale" else name)
    && o.location == (if place == "" then plz else place)
    && o.plz == (if code == "" then plz else code)
    && o.stock >= 1 && (count >= 1 ==> o.stock == count) && (count < 1 ==> o.stock == 1)
    && o.price.None? && o.channel == InStore && o.targeted
    && o.key == "obi:" + productID + ":pickup:" + PickStr(e, ["id", "storeId", "storeNo", "filialId"])
  }

  /** What the offer for a seller tells. */
  predicate SellerTells(o: Offer, productID: string, plz: string, e: Entry) {
    var name := PickStr(e, ["sellerName", "seller", "name"]);
    var count := PickInt(e, ["stock", "quantity", "availableStockQuantity"]);
    && o.source == "obi" && o.productName == "OBI #" + productID && o.url == "https://www.obi.de/p/" + productID
    && o.storeName == (if name == "" then "OBI Online" else name)
    && o.location == "Online · PLZ " + plz && o.plz == ""
    && o.stock >= 1 && (count >= 1 ==> o.stock == count) && (count < 1 ==> o.stock == 1)
    && o.price.None? && o.channel == Online && !o.targeted
    && o.key == "obi:" + productID + ":delivery:" + PickStr(e, ["sellerId", "sellerName", "id"])
  }

  lemma OfferTells(productID: string, plz: string, e: Entry)
    ensures StoreTells(PickupOffer(productID, plz, e), productID, plz, e)
    ensures SellerTells(DeliveryOffer(productID, plz, e), productID, plz, e)
  {
  }

  // ----- the source's loops

  datatype Response = Response(delivery: seq<Entry>, pickup: seq<Entry>)

  function Stores(productID: string, plz: string, entries: seq<Entry>): seq<Offer> {
    if entries == [] then []
    else
      var n := |entries| - 1;
      Stores(productID, plz, entries[..n]) + [PickupOffer(productID, plz, entries[n])]
  }

  function Sellers(productID: string, plz: string, entries: seq<Entry>): seq<Offer> {
    if entries == [] then []
    else
      var n := |entries| - 1;
      Sellers(productID, plz, entries[..n]) + [DeliveryOffer(productID, plz, entries[n])]
  }

  /** The offers of one reply: stores first, then sellers. */
  function OffersOf(productID: string, plz: string, reply: Option<Response>): seq<Offer> {
    if reply.None? then []
    else Stores(productID, plz, reply.value.pickup) + Sellers(productID, plz, reply.value.delivery)
  }

  function OffersOfProduct(productID: string, plzs: seq<string>, row: seq<Option<Response>>): seq<Offer>
    requires |row| == |plzs|
  {
    if plzs == [] then []
    else
      var n := |plzs| - 1;
      OffersOfProduct(productID, plzs[..n], row[..n]) + OffersOf(productID, plzs[n], row[n])
  }

  /** One row of replies per product, one reply per postal code. */
  ghost predicate Shaped(products: seq<string>, plzs: seq<string>, rows: seq<seq<Option<Response>>>) {
    |rows| == |products| && forall i :: 0 <= i < |rows| ==> |rows[i]| == |plzs|
  }

  function OffersOfAll(products: seq<string>, plzs: seq<string>, rows: seq<seq<Option<Response>>>): seq<Offer>
    requires Shaped(products, plzs, rows)
  {
    if products == [] then []
    else
      var n := |products| - 1;
      OffersOfAll(products[..n], plzs, rows[..n]) + OffersOfProduct(products[n], plzs, rows[n])
  }

  predicate AnyFailed(rows: seq<seq<Option<Response>>>) {
    rows != [] && (AnyFailed(rows[..|rows| - 1]) || None in rows[|rows| - 1])
  }

  /** One offer for every store, then one for every seller, each in order. */
  ghost predicate AnswersReply(out: seq<Offer>, productID: string, plz: string, res: Response) {
    && |out| == |res.pickup| + |res.delivery|
    && (forall i :: 0 <= i < |res.pickup| ==> out[i] == PickupOffer(productID, plz, res.pickup[i]))
    && (forall i :: 0 <= i < |res.delivery| ==>
          out[|res.pickup| + i] == DeliveryOffer(productID, plz, res.delivery[i]))
  }

  lemma {:induction false} StoresAt(productID: string, plz: string, entries: seq<Entry>, i: nat)
    ensures |Stores(productID, plz, entries)| == |entries|
    ensures i < |entries| ==> Stores(productID, plz, entries)[i] == PickupOffer(productID, plz, entries[i])
  {
    if entries == [] {
    } else {
      StoresAt(productID, plz, entries[..|entries| - 1], i);
    }
  }

  lemma {:induction false} SellersAt(productID: string, plz: string, entries: seq<Entry>, i: nat)
    ensures |Sellers(productID, plz, entries)| == |entries|
    ensures i < |entries| ==> Sellers(productID, plz, entries)[i] == DeliveryOffer(productID, plz, entries[i])
  {
    if entries == [] {
    } else {
      SellersAt(productID, plz, entries[..|entries| - 1], i);
    }
  }

  lemma StoresAll(productID: string, plz: string, entries: seq<Entry>)
    ensures |Stores(productID, plz, entries)| == |entries|
    ensures forall i :: 0 <= i < |entries| ==>
              Stores(productID, plz, entries)[i] == PickupOffer(productID, plz, entries[i])
  {
    StoresAt(productID, plz, entries, 0);
    forall i | 0 <= i < |entries|
      ensures Stores(productID, plz, entries)[i] == PickupOffer(productID, plz, entries[i])
    {
      StoresAt(productID, plz, entries, i);
    }
  }

  lemma SellersAll(productID: string, plz: string, entries: seq<Entry>)
    ensures |Sellers(productID, plz, entries)| == |entries|
    ensures forall i :: 0 <= i < |entries| ==>
              Sellers(productID, plz, entries)[i] == DeliveryOffer(productID, plz, entries[i])
  {
    SellersAt(productID, plz, entries, 0);
    forall i | 0 <= i < |entries|
      ensures Sellers(productID, plz, entries)[i] == DeliveryOffer(productID, plz, entries[i])
    {
      SellersAt(productID, plz, entries, i);
    }
  }

  lemma ReplyAnswered(productID: string, plz: string, res: Response)
    ensures OffersOf(productID, plz, None) == []
    ensures AnswersReply(OffersOf(productID, plz, Some(res)), productID, plz, res)
  {
    StoresAll(productID, plz, res.pickup);
    SellersAll(productID, plz, res.delivery);
  }

  /** The replies' offers, postal code by postal code; a failed request adds none. */
  lemma {:induction false} ProductLaidOut(productID: string, plzs: seq<string>, row: seq<Option<Response>>)
    returns (parts: seq<seq<Offer>>, cuts: seq<nat>)
    requires |row| == |plzs|
    ensures |parts| == |row| && LaidOut(parts, OffersOfProduct(productID, plzs, row), cuts)
    ensures forall j :: 0 <= j < |row| ==> parts[j] == OffersOf(productID, plzs[j], row[j])
  {
    if plzs == [] {
      parts, cuts := [], [0];
    } else {
      var n := |plzs| - 1;
      var front, at := ProductLaidOut(productID, plzs[..n], row[..n]);
      var before, last := OffersOfProduct(productID, plzs[..n], row[..n]), OffersOf(productID, plzs[n], row[n]);
      LayMore(front, before, at, last);
      parts, cuts := front + [last], at + [|before + last|];
      forall j | 0 <= j < |row| ensures parts[j] == OffersOf(productID, plzs[j], row[j]) {
        if j < n {
          assert plzs[..n][j] == plzs[j] && row[..n][j] == row[j];
        }
      }
    }
  }

  /** The products' offers, product by product. */
  lemma {:induction false} AllLaidOut(products: seq<string>, plzs: seq<string>, rows: seq<seq<Option<Response>>>)
    returns (parts: seq<seq<Offer>>, cuts: seq<nat>)
    requires Shaped(products, plzs, rows)
    ensures |parts| == |rows| && LaidOut(parts, OffersOfAll(products, plzs, rows), cuts)
    ensures forall i :: 0 <= i < |rows| ==> parts[i] == OffersOfProduct(products[i], plzs, rows[i])
  {
    if products == [] {
      parts, cuts := [], [0];
    } else {
      var n := |products| - 1;
      var front, at := AllLaidOut(products[..n], plzs, rows[..n]);
      var before, last := OffersOfAll(products[..n], plzs, rows[..n]), OffersOfProduct(products[n], plzs, rows[n]);
      LayMore(front, before, at, last);
      parts, cuts := front + [last], at + [|before + last|];
      forall i | 0 <= i < |rows| ensures parts[i] == OffersOfProduct(products[i], plzs, rows[i]) {
        if i < n {
          assert products[..n][i] == products[i] && rows[..n][i] == rows[i];
        }
      }
    }
  }

  ghost predicate SomeFailed(rows: seq<seq<Option<Response>>>) {
    exists i, j :: 0 <= i < |rows| && 0 <= j < |rows[i]| && rows[i][j].None?
  }

  lemma {:induction false} AnyFailedExact(rows: seq<seq<Option<Response>>>)
    ensures AnyFailed(rows) <==> SomeFailed(rows)
  {
    if rows == [] {
    } else {
      var n := |rows| - 1;
      AnyFailedExact(rows[..n]);
      if SomeFailed(rows[..n]) {
        var i, j :| 0 <= i < n && 0 <= j < |rows[..n][i]| && rows[..n][i][j].None?;
        assert rows[i][j].None?;
      }
      if i, j :| 0 <= i < |rows| && 0 <= j < |rows[i]| && rows[i][j].None? {
        assert i < n ==> rows[..n][i][j].None?;
        assert i == n ==> rows[n][j] in rows[n];
      }
      if None in rows[n] {
        var j :| 0 <= j < |rows[n]| && rows[n][j] == None;
      }
    }
  }

  method CheckOne(productID: string, plz: string, res: Response) returns (out: seq<Offer>)
    ensures out == OffersOf(productID, plz, Some(res))
    ensures AnswersReply(out, productID, plz, res)
  {
    out := [];
    for i := 0 to |res.pickup|
      invariant out == Stores(productID, plz, res.pickup[..i])
    {
      OneStoreMore(productID, plz, res.pickup, i);
      out := out + [PickupOffer(productID, plz, res.pickup[i])];
    }
    assert res.pickup[..|res.pickup|] == res.pickup;
    ghost var stores := out;
    for i := 0 to |res.delivery|
      invariant out == stores + Sellers(productID, plz, res.delivery[..i])
    {
      OneSellerMore(productID, plz, res.delivery, i);
      out := out + [DeliveryOffer(productID, plz, res.delivery[i])];
    }
    assert res.delivery[..|res.delivery|] == res.delivery;
    ReplyAnswered(productID, plz, res);
  }

  lemma OneReplyMore(productID: string, plzs: seq<string>, row: seq<Option<Response>>, j: nat)
    requires j < |row| == |plzs|
    ensures OffersOfProduct(productID, plzs[..j + 1], row[..j + 1]) ==
            OffersOfProduct(productID, plzs[..j], row[..j]) + OffersOf(productID, plzs[j], row[j])
    ensures None in row[..j + 1] <==> None in row[..j] || row[j].None?
  {
    assert plzs[..j + 1][..j] == plzs[..j] && row[..j + 1][..j] == row[..j];
    assert row[..j + 1] == row[..j] + [row[j]];
  }

  lemma OneStoreMore(productID: string, plz: string, entries: seq<Entry>, i: nat)
    requires i < |entries|
    ensures Stores(productID, plz, entries[..i + 1]) ==
            Stores(productID, plz, entries[..i]) + [PickupOffer(productID, plz, entries[i])]
  {
    assert entries[..i + 1][..i] == entries[..i];
  }

  lemma OneSellerMore(productID: string, plz: string, entries: seq<Entry>, i: nat)
    requires i < |entries|
    ensures Sellers(productID, plz, entries[..i + 1]) ==
            Sellers(productID, plz, entries[..i]) + [DeliveryOffer(productID, plz, entries[i])]
  {
    assert entries[..i + 1][..i] == entries[..i];
  }

  method CheckProduct(productID: string, plzs: seq<string>, row: seq<Option<Response>>)
    returns (out: seq<Offer>, failed: bool)
    requires |row| == |plzs|
    ensures out == OffersOfProduct(productID, plzs, row)
    ensures failed <==> None in row
  {
    out, failed := [], false;
    for j := 0 to |plzs|
      invariant out == OffersOfProduct(productID, plzs[..j], row[..j])
      invariant failed <==> None in row[..j]
    {
      OneReplyMore(productID, plzs, row, j);
      if row[j].None? {
        failed := true;
        continue;
      }
      var avail := CheckOne(productID, plzs[j], row[j].value);
      out := out + avail;
    }
    assert plzs[..|plzs|] == plzs && row[..|plzs|] == row;
  }

  /** One request per product and postal code; None is an error: nothing found, and a request failed. */
  method Check(products: seq<string>, plzs: seq<string>,
               rows: seq<seq<Option<Response>>>) returns (r: Option<seq<Offer>>)
    requires Shaped(products, plzs, rows)
    ensures r.None? <==> OffersOfAll(products, plzs, rows) == [] && SomeFailed(rows)
    ensures r.Some? ==> r.value == OffersOfAll(products, plzs, rows)
  {
    var out: seq<Offer> := [];
    var failed := false;
    for i := 0 to |products|
      invariant out == OffersOfAll(products[..i], plzs, rows[..i])
      invariant failed <==> AnyFailed(rows[..i])
    {
      assert products[..i + 1][..i] == products[..i] && rows[..i + 1][..i] == rows[..i];
      var more, bad := CheckProduct(products[i], plzs, rows[i]);
      out := out + more;
      failed := failed || bad;
    }
    assert products[..|products|] == products && rows[..|products|] == rows;
    AnyFailedExact(rows);
    return if out == [] && failed then None else Some(out);
  }

  /** What an OBI offer is: unpriced and keyed by product, channel and id. */
  ghost predicate FromObi(products: seq<string>, o: Offer) {
    && o.source == "obi" && o.price.None? && o.stock >= 1
    && exists p, id :: p in products && (o.key == PickupKey(p, id) || o.key == DeliveryKey(p, id))
  }

  lemma {:induction false} EntriesAreFromObi(products: seq<string>, productID: string, plz: string, entries: seq<Entry>)
    requires productID in products
    ensures forall o :: o in Stores(productID, plz, entries) ==> FromObi(products, o)
    ensures forall o :: o in Sellers(productID, plz, entries) ==> FromObi(products, o)
  {
    if entries == [] {
    } else {
      var n := |entries| - 1;
      EntriesAreFromObi(products, productID, plz, entries[..n]);
      OneIsFromObi(products, productID, plz, entries[n]);
    }
  }

  lemma OneIsFromObi(products: seq<string>, productID: string, plz: string, e: Entry)
    requires productID in products
    ensures FromObi(products, PickupOffer(productID, plz, e))
    ensures FromObi(products, DeliveryOffer(productID, plz, e))
  {
    assert PickupOffer(productID, plz, e).key == PickupKey(productID, PickupId(e));
    assert DeliveryOffer(productID, plz, e).key == DeliveryKey(productID, SellerId(e));
  }

  lemma {:induction false} ProductIsFromObi(products: seq<string>, productID: string, plzs: seq<string>,
                                            row: seq<Option<Response>>)
    requires productID in products && |row| == |plzs|
    ensures forall o :: o in OffersOfProduct(productID, plzs, row) ==> FromObi(products, o)
  {
    if plzs == [] {
    } else {
      var n := |plzs| - 1;
      ProductIsFromObi(products, productID, plzs[..n], row[..n]);
      if row[n].Some? {
        EntriesAreFromObi(products, productID, plzs[n], row[n].value.pickup);
        EntriesAreFromObi(products, productID, plzs[n], row[n].value.delivery);
      }
    }
  }

  /** Everything the source returns is unpriced and carries one of its keys. */
  lemma {:induction false} AllIsFromObi(products: seq<string>, all: seq<string>, plzs: seq<string>,
                                        rows: seq<seq<Option<Response>>>)
    requires Shaped(products, plzs, rows) && forall p :: p in products ==> p in all
    ensures forall o :: o in OffersOfAll(products, plzs, rows) ==> FromObi(all, o)
  {
    if products == [] {
    } else {
      var n := |products| - 1;
      assert products == products[..n] + [products[n]];
      AllIsFromObi(products[..n], all, plzs, rows[..n]);
      ProductIsFromObi(all, products[n], plzs, rows[n]);
    }
  }

  // ----- repeats of one key in one tick

  /** Handling one unpriced offer: told at most if there was no row, and then there is one. */
  lemma UnpricedHandle(rows: Table, a: Offer, f: Faults, k: Key)
    requires a.key == k ==> a.price.None? && f.writeOk
    ensures var h := Handle(rows, a, f);
            && (k in rows ==> k in h.rows)
            && Notices(k, h.events) <= (if k in rows then 0 else 1)
            && (Notices(k, h.events) == 1 ==> k in h.rows)
  {
    var h := Handle(rows, a, f);
    if a.key == k && k !in rows && f.lookupOk && f.notifyOk {
      NoticesOne(k, h.events, 1);
    } else {
      NoticesNone(k, h.events);
    }
  }

  lemma {:induction false} UnpricedProcess(rows: Table, current: seq<Offer>, r: Round, i: nat, k: Key)
    requires forall j :: i <= j < |current| && current[j].key == k ==> current[j].price.None? && FaultAt(r, j).writeOk
    ensures Notices(k, Process(rows, current, r, i).events) <= if k in rows then 0 else 1
    decreases |current| - i
  {
    if i >= |current| {
    } else {
      var h := Handle(rows, current[i], FaultAt(r, i));
      UnpricedHandle(rows, current[i], FaultAt(r, i), k);
      UnpricedProcess(h.rows, current, r, i + 1, k);
      NoticesConcat(k, h.events, Process(h.rows, current, r, i + 1).events);
    }
  }

  /**
   However often a tick sees an unpriced key, say one seller under many postal
   codes, it delivers at most one notification, and none when the key has a row,
   as long as no write for it fails. Lookups and notifications may fail.
   */
  lemma UnpricedKeyOncePerTick(prefixes: seq<string>, p: Product, rows: Table, r: Round, k: Key)
    requires forall a :: Returned(p, r.polls, 0, a) && a.key == k ==> a.price.None?
    requires forall i: nat :: FaultAt(r, i).writeOk
    ensures Notices(k, TickOutcome(prefixes, p, rows, r).events) <= if k in rows then 0 else 1
  {
    var current := Current(prefixes, p, r);
    var swept := Swept(p, rows, current, r);
    var done := Process(swept.rows, current, r, 0);
    SilentBefore(p, rows, current, r, k);
    NoticesConcat(k, PollEvents(r.polls, 0) + swept.events, done.events);
    SweptExact(p, rows, current, r);
    forall j | 0 <= j < |current| && current[j].key == k ensures current[j].price.None? {
      CurrentExact(prefixes, p, r, current[j]);
    }
    UnpricedProcess(swept.rows, current, r, 0, k);
    if k !in KeySet(current) {
      ProcessSilentAbout(swept.rows, current, r, 0, k);
    }
  }

  lemma {:induction false} ProcessSilentAbout(rows: Table, current: seq<Offer>, r: Round, i: nat, k: Key)
    requires k !in KeySet(current)
    ensures Notices(k, Process(rows, current, r, i).events) == 0
    decreases |current| - i
  {
    if i < |current| {
      var h := Handle(rows, current[i], FaultAt(r, i));
      assert current[i].key != k;
      NoticesNone(k, h.events);
      ProcessSilentAbout(h.rows, current, r, i + 1, k);
      NoticesConcat(k, h.events, Process(h.rows, current, r, i + 1).events);
    } else {
      NoticesNone(k, Process(rows, current, r, i).events);
    }
  }

  /** A tick of one product whose polls of the OBI source all went through its check. */
  ghost predicate ObiPolls(products: seq<string>, r: Round) {
    forall j :: 0 <= j < |r.polls| && r.polls[j].result.Some? ==>
      if r.polls[j].source == "obi" then forall o :: o in r.polls[j].result.value ==> FromObi(products, o)
      else forall o :: o in r.polls[j].result.value ==>
        ColonFree(r.polls[j].source) && OfSource(r.polls[j].source, o.key)
  }

  /**
   OBI offers, whatever other sources the product has: one delivery per key and
   tick at most, and keys tell product, channel and id apart.
   */
  lemma ObiNotifiesOnce(prefixes: seq<string>, p: Product, rows: Table, r: Round, products: seq<string>,
                        productID: string, id: string)
    requires ObiPolls(products, r)
    requires forall i: nat :: FaultAt(r, i).writeOk
    ensures Notices(PickupKey(productID, id), TickOutcome(prefixes, p, rows, r).events) <= 1
    ensures Notices(DeliveryKey(productID, id), TickOutcome(prefixes, p, rows, r).events) <= 1
  {
    KeysNameTheirSource("", "", productID, id, "");
    ObiKeyIsUnpriced(p, r, products, PickupKey(productID, id));
    ObiKeyIsUnpriced(p, r, products, DeliveryKey(productID, id));
    UnpricedKeyOncePerTick(prefixes, p, rows, r, PickupKey(productID, id));
    UnpricedKeyOncePerTick(prefixes, p, rows, r, DeliveryKey(productID, id));
  }

  lemma ObiKeyIsUnpriced(p: Product, r: Round, products: seq<string>, k: Key)
    requires ObiPolls(products, r) && OfSource("obi", k)
    ensures forall a :: Returned(p, r.polls, 0, a) && a.key == k ==> a.price.None?
  {
    forall a | Returned(p, r.polls, 0, a) && a.key == k ensures a.price.None? {
      var j :| 0 <= j < |r.polls| && ReturnedBy(p, r.polls[j], a);
      var i :| 0 <= i < |r.polls[j].result.value| && Stamped(p, r.polls[j].result.value[i]) == a;
      var o := r.polls[j].result.value[i];
      assert o in r.polls[j].result.value;
      if r.polls[j].source != "obi" {
        SourcesNeverCollide(r.polls[j].source, "obi", o.key, k);
      }
    }
  }
}
