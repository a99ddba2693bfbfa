/** Dedup keys: when two of them can be equal. */
module Keys {
  import opened Model
  import opened Text

  predicate ColonFree(s: string) { ':' !in s }

  /** Most sources key an offer by their name and its URL or id. */
  function SourceKey(source: string, rest: string): string { source + ":" + rest }

  function PickupKey(productID: string, id: string): string { "obi:" + productID + ":pickup:" + id }

  function DeliveryKey(productID: string, id: string): string { "obi:" + productID + ":delivery:" + id }

  function BauhausKey(storeID: string, productID: string): string { "bauhaus-store:" + storeID + ":" + productID }

  /** The first colon splits a key in only one way. */
  lemma FirstColon(a: string, x: string, b: string, y: string)
    requires ColonFree(a) && ColonFree(b)
    requires a + ":" + x == b + ":" + y
    ensures a == b && x == y
  {
    FindAfter(a, ':', x);
    FindAfter(b, ':', y);
    assert (a + ":" + x)[..|a|] == a && (b + ":" + y)[..|b|] == b;
    assert (a + ":" + x)[|a| + 1..] == x && (b + ":" + y)[|b| + 1..] == y;
  }

  /** A key that belongs to the source of this name. */
  ghost predicate OfSource(name: string, key: string) {
    exists rest :: key == name + ":" + rest
  }

  /** Keys of two differently named sources never collide. */
  lemma SourcesNeverCollide(a: string, b: string, k: string, l: string)
    requires ColonFree(a) && ColonFree(b) && a != b
    requires OfSource(a, k) && OfSource(b, l)
    ensures k != l
  {
    var x :| k == a + ":" + x;
    var y :| l == b + ":" + y;
    if k == l {
      FirstColon(a, x, b, y);
    }
  }

  /** All key forms carry their source's name up to the first colon. */
  lemma KeysNameTheirSource(source: string, url: string, productID: string, id: string, storeID: string)
    ensures OfSource(source, SourceKey(source, url))
    ensures OfSource("obi", PickupKey(productID, id)) && OfSource("obi", DeliveryKey(productID, id))
    ensures OfSource("bauhaus-store", BauhausKey(storeID, productID))
  {
    assert SourceKey(source, url) == source + ":" + url;
    assert PickupKey(productID, id) == "obi" + ":" + (productID + ":pickup:" + id);
    assert DeliveryKey(productID, id) == "obi" + ":" + (productID + ":delivery:" + id);
    assert BauhausKey(storeID, productID) == "bauhaus-store" + ":" + (storeID + ":" + productID);
  }

  lemma Tail(prefix: string, a: string, b: string)
    requires prefix + a == prefix + b
    ensures a == b
  {
    assert (prefix + a)[|prefix|..] == a && (prefix + b)[|prefix|..] == b;
  }

  /** OBI keys determine product, channel and id as soon as product ids have no colon; ids may. */
  lemma ObiKeysInjective(p: string, i: string, q: string, j: string)
    requires ColonFree(p) && ColonFree(q)
    ensures PickupKey(p, i) == PickupKey(q, j) ==> p == q && i == j
    ensures DeliveryKey(p, i) == DeliveryKey(q, j) ==> p == q && i == j
    ensures PickupKey(p, i) != DeliveryKey(q, j)
  {
    Same(p, "pickup:", i, q, "pickup:", j);
    Same(p, "delivery:", i, q, "delivery:", j);
    Same(p, "pickup:", i, q, "delivery:", j);
    assert PickupKey(p, i) == "obi:" + (p + ":" + ("pickup:" + i));
    assert PickupKey(q, j) == "obi:" + (q + ":" + ("pickup:" + j));
    assert DeliveryKey(p, i) == "obi:" + (p + ":" + ("delivery:" + i));
    assert DeliveryKey(q, j) == "obi:" + (q + ":" + ("delivery:" + j));
    assert ("pickup:" + i)[0] == 'p' && ("delivery:" + j)[0] == 'd';
  }

  lemma Same(p: string, c: string, i: string, q: string, d: string, j: string)
    requires ColonFree(p) && ColonFree(q)
    ensures "obi:" + (p + ":" + (c + i)) == "obi:" + (q + ":" + (d + j)) ==> p == q && c + i == d + j
    ensures "obi:" + (p + ":" + (c + i)) == "obi:" + (q + ":" + (d + j)) && c == d ==> i == j
  {
    if "obi:" + (p + ":" + (c + i)) == "obi:" + (q + ":" + (d + j)) {
      Tail("obi:", p + ":" + (c + i), q + ":" + (d + j));
      FirstColon(p, c + i, q, d + j);
      if c == d {
        Tail(c, i, j);
      }
    }
  }

  lemma Collide(a: string, b: string, x: string, y: string)
    requires a + x == b + y
    ensures a <= b || b <= a
  {
    var s := a + x;
    assert a == s[..|a|] && b == s[..|b|];
  }

  /** An OBI key without its id; the channel is pickup or delivery. */
  function ObiForm(productID: string, pickup: bool): string {
    productID + (if pickup then ":pickup:" else ":delivery:")
  }

  function ObiKey(productID: string, pickup: bool, id: string): string {
    if pickup then PickupKey(productID, id) else DeliveryKey(productID, id)
  }

  lemma ObiKeyForm(p: string, pickup: bool, i: string)
    ensures ObiKey(p, pickup, i) == "obi:" + (ObiForm(p, pickup) + i)
  {
    Regroup("obi:", p, if pickup then ":pickup:" else ":delivery:");
    Regroup("obi:", ObiForm(p, pickup), i);
  }

  /**
   Two products and channels can share a key exactly when one, written up to the
   id, begins the other. Only a colon in a product id can make that happen to
   different ones.
   */
  lemma ObiKeysCollide(p: string, c: bool, q: string, d: bool)
    ensures (exists i, j :: ObiKey(p, c, i) == ObiKey(q, d, j)) <==>
            ObiForm(p, c) <= ObiForm(q, d) || ObiForm(q, d) <= ObiForm(p, c)
  {
    var a, b := ObiForm(p, c), ObiForm(q, d);
    if i, j :| ObiKey(p, c, i) == ObiKey(q, d, j) {
      ObiKeyForm(p, c, i);
      ObiKeyForm(q, d, j);
      Tail("obi:", a + i, b + j);
      Collide(a, b, i, j);
    }
    if a <= b {
      PrefixCollides(p, c, q, d);
    }
    if b <= a {
      PrefixCollides(q, d, p, c);
      assert ObiKey(p, c, "") == ObiKey(q, d, a[|b|..]);
    }
  }

  lemma PrefixCollides(p: string, c: bool, q: string, d: bool)
    requires ObiForm(p, c) <= ObiForm(q, d)
    ensures ObiKey(p, c, ObiForm(q, d)[|ObiForm(p, c)|..]) == ObiKey(q, d, "")
  {
    var a, b := ObiForm(p, c), ObiForm(q, d);
    assert b == a + b[|a|..] && b + "" == b;
    ObiKeyForm(p, c, b[|a|..]);
    ObiKeyForm(q, d, "");
  }

  /** Bauhaus keys determine store and product as soon as store ids have no colon. */
  lemma BauhausKeysInjective(s: string, p: string, t: string, q: string)
    requires ColonFree(s) && ColonFree(t)
    requires BauhausKey(s, p) == BauhausKey(t, q)
    ensures s == t && p == q
  {
    assert BauhausKey(s, p) == "bauhaus-store:" + (s + ":" + p);
    assert BauhausKey(t, q) == "bauhaus-store:" + (t + ":" + q);
    Tail("bauhaus-store:", s + ":" + p, t + ":" + q);
    FirstColon(s, p, t, q);
  }

  /** Two stores can share a key exactly when one id, up to its colon, begins the other. */
  lemma BauhausKeysCollide(s: string, t: string)
    ensures (exists p, q :: BauhausKey(s, p) == BauhausKey(t, q)) <==> s + ":" <= t + ":" || t + ":" <= s + ":"
  {
    var a, b := s + ":", t + ":";
    if p, q :| BauhausKey(s, p) == BauhausKey(t, q) {
      assert BauhausKey(s, p) == "bauhaus-store:" + (a + p);
      assert BauhausKey(t, q) == "bauhaus-store:" + (b + q);
      Tail("bauhaus-store:", a + p, b + q);
      Collide(a, b, p, q);
    }
    if a <= b {
      assert BauhausKey(s, b[|a|..]) == "bauhaus-store:" + (a + b[|a|..]);
      assert BauhausKey(t, "") == "bauhaus-store:" + (b + "");
      assert BauhausKey(s, b[|a|..]) == BauhausKey(t, "");
    }
    if b <= a {
      assert BauhausKey(t, a[|b|..]) == "bauhaus-store:" + (b + a[|b|..]);
      assert BauhausKey(s, "") == "bauhaus-store:" + (a + "");
      assert BauhausKey(s, "") == BauhausKey(t, a[|b|..]);
    }
  }
}
