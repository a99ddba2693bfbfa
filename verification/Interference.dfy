/**
 Why the two configuration assumptions matter: nothing checks them, and without
 them products do interfere.
 */
module Interference {
  import opened Model
  import opened DedupStore
  import opened WithProduct
  import opened Tick
  import opened KeyTrace
  import opened Reconcile
  import opened RunLaw
  import opened Baseline

  /** A fault-free tick that offers a key without a row tells about it once and stores its price. */
  lemma NewKeyIsTold(prefixes: seq<string>, p: Product, rows: Table, a: Offer)
    requires WithinBudget(Stamped(p, a)) && IsLocal(prefixes, a)
    requires Pure(p, rows) && a.key !in rows
    ensures var t := TickOutcome(prefixes, p, rows, OneOffer(a));
            Notices(a.key, t.events) == 1 && StoredAt(t.rows, a.key) == Some(a.price)
  {
    VisitCurrent(prefixes, p, a, NO_FAULTS);
    OneOfferIsFaultFree(a);
    OneSighting(a, p);
    TickLaw(prefixes, p, rows, OneOffer(a), a.key, []);
    DueSnoc([], Seen(a.price));
    assert [] + [Seen(a.price)] == [Seen(a.price)];
  }

  /** One that offers a key stored at the same price says nothing, whoever stored it. */
  lemma KnownKeyIsSilent(prefixes: seq<string>, q: Product, rows: Table, a: Offer)
    requires WithinBudget(Stamped(q, a)) && IsLocal(prefixes, a)
    requires StoredAt(rows, a.key) == Some(a.price)
    ensures Notices(a.key, TickOutcome(prefixes, q, rows, OneOffer(a)).events) == 0
  {
    var r, current, before := OneOffer(a), [Stamped(q, a)], [Seen(a.price)];
    VisitCurrent(prefixes, q, a, NO_FAULTS);
    OneOfferIsFaultFree(a);
    assert current[0].key == a.key;
    var swept := Swept(q, rows, current, r);
    SweptExact(q, rows, current, r);
    assert SightingsIn(current, a.key, 1) == [];
    DueSnoc(before, Seen(a.price));
    ProcessLaw(swept.rows, current, r, 0, a.key, before);
    SilentBefore(q, rows, current, r, a.key);
    NoticesConcat(a.key, PollEvents(r.polls, 0) + swept.events, Process(swept.rows, current, r, 0).events);
  }

  /**
   Two products that watch the same key: once the first has been told, the
   second is not, though alone it would be told exactly once.
   */
  lemma SharedKeyIsTakenOver(prefixes: seq<string>, p: Product, q: Product, a: Offer)
    requires WithinBudget(Stamped(p, a)) && WithinBudget(Stamped(q, a)) && IsLocal(prefixes, a)
    ensures var first := TickOutcome(prefixes, p, map[], OneOffer(a));
            && Notices(a.key, first.events) == 1
            && Notices(a.key, TickOutcome(prefixes, q, first.rows, OneOffer(a)).events) == 0
            && Notices(a.key, TickOutcome(prefixes, q, map[], OneOffer(a)).events) == 1
  {
    NewKeyIsTold(prefixes, p, map[], a);
    NewKeyIsTold(prefixes, q, map[], a);
    KnownKeyIsSilent(prefixes, q, TickOutcome(prefixes, p, map[], OneOffer(a)).rows, a);
  }

  /**
   Two products with one name: a tick of the second drops every row of the first
   it does not offer itself, and the first notifies again an offer that never left.
   */
  lemma SharedNameRenotifies(prefixes: seq<string>, p: Product, q: Product, rows: Table, a: Offer, r: Round)
    requires p.name == q.name && Pure(p, rows) && a.key in rows
    requires WithinBudget(Stamped(p, a)) && IsLocal(prefixes, a)
    requires FaultFree(r) && a.key !in KeySet(Current(prefixes, q, r))
    ensures var between := TickOutcome(prefixes, q, rows, r).rows;
            && a.key !in between
            && Notices(a.key, TickOutcome(prefixes, p, between, OneOffer(a)).events) == 1
  {
    ReconcileExact(prefixes, q, rows, r, a.key);
    TickStaysPure(prefixes, q, rows, r);
    NewKeyIsTold(prefixes, p, TickOutcome(prefixes, q, rows, r).rows, a);
  }
}
