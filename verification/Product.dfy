/** The wrapper that makes a source speak for one configured product. */
module WithProduct {
  import opened Model

  /** A monitored product: the name its rows carry and its effective price cap. */
  datatype Product = Product(name: string, cap: int)

  /** The product's own cap, or the global one when it sets none. */
  function EffectiveCap(own: int, global: int): (cap: int)
    ensures cap <= 0 <==> own <= 0 && global <= 0
    ensures own > 0 ==> cap == own
    ensures own <= 0 ==> cap == global
  {
    if own > 0 then own else global
  }

  /** A product as configured: its name and its own cap, not positive when it sets none. */
  datatype Configured = Configured(name: string, own: int)

  /** The products the service starts with, each with its effective cap. */
  function Wired(entries: seq<Configured>, global: int): (r: seq<Product>)
    ensures |r| == |entries|
    ensures forall i | 0 <= i < |r| :: r[i] == Product(entries[i].name, EffectiveCap(entries[i].own, global))
  {
    seq(|entries|, i requires 0 <= i < |entries| => Product(entries[i].name, EffectiveCap(entries[i].own, global)))
  }

  function Stamped(p: Product, a: Offer): Offer {
    a.(productName := p.name, priceMax := p.cap)
  }

  function Stamp(p: Product, offers: seq<Offer>): (r: seq<Offer>)
    ensures |r| == |offers|
    ensures forall i | 0 <= i < |r| :: r[i] == Stamped(p, offers[i])
  {
    seq(|offers|, i requires 0 <= i < |offers| => Stamped(p, offers[i]))
  }

  /** The loop over the source's slice, overwriting two fields of each element. */
  method StampInPlace(p: Product, avail: array<Offer>)
    modifies avail
    ensures avail[..] == Stamp(p, old(avail[..]))
    ensures forall i | 0 <= i < avail.Length :: avail[i] == old(avail[i]).(productName := p.name, priceMax := p.cap)
  {
    var i := 0;
    while i < avail.Length
      invariant 0 <= i <= avail.Length
      invariant forall j | 0 <= j < i :: avail[j] == Stamped(p, old(avail[j]))
      invariant forall j | i <= j < avail.Length :: avail[j] == old(avail[j])
    {
      avail[i] := avail[i].(productName := p.name, priceMax := p.cap);
      i := i + 1;
    }
  }
}
