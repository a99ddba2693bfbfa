/** No run ever notifies about, or stores, an offer the filters reject. */
module FilterLaw {
  import opened Model
  import opened DedupStore
  import opened WithProduct
  import opened Tick
  import opened Steps
  import opened Watchers
  import opened Reconcile

  /** The offer an event is about. */
  function Subject(e: Event): Option<Offer> {
    match e
    case LookedUp(a, _) => Some(a)
    case Sent(a, _) => Some(a)
    case Refreshed(a, _) => Some(a)
    case Inserted(a, _) => Some(a)
    case _ => None
  }

  /** An offer that product w wants, under its name and cap. */
  ghost predicate Wanted(c: Config, w: nat, a: Offer)
    requires w < |c.products|
  {
    Wants(c.prefixes, c.products[w], a)
  }

  ghost predicate AllWanted(c: Config, w: nat, offers: seq<Offer>)
    requires w < |c.products|
  {
    forall i :: 0 <= i < |offers| ==> Wanted(c, w, offers[i])
  }

  ghost predicate LogWanted(c: Config, log: seq<Entry>) {
    forall i :: 0 <= i < |log| && Subject(log[i].event).Some? ==>
      log[i].who < |c.products| && Wanted(c, log[i].who, Subject(log[i].event).value)
  }

  /** Between ticks or with a list that has passed the filters. */
  ghost predicate PcsWanted(c: Config, s: System)
    requires Fitting(c, s)
  {
    forall w :: 0 <= w < |s.pcs| && !s.pcs[w].Idle? ==> AllWanted(c, w, s.pcs[w].current)
  }

  lemma ContributionWanted(c: Config, w: nat, poll: Poll)
    requires w < |c.products|
    ensures AllWanted(c, w, Contribution(c.prefixes, c.products[w], poll))
  {
    var more := Contribution(c.prefixes, c.products[w], poll);
    forall i | 0 <= i < |more| ensures Wanted(c, w, more[i]) {
      ContributionExact(c.prefixes, c.products[w], poll, more[i]);
      var raw :| 0 <= raw < |poll.result.value| && Stamped(c.products[w], poll.result.value[raw]) == more[i];
      WantsExactly(c.prefixes, c.products[w], poll.result.value[raw]);
    }
  }

  lemma GoWantedPc(c: Config, w: nat, rows: Table, pc: Pc)
    requires w < |c.products| && pc.Fits() && (!pc.Idle? ==> AllWanted(c, w, pc.current))
    ensures var n := NextPc(c.prefixes, c.products[w], rows, pc);
            !n.Idle? ==> AllWanted(c, w, n.current)
  {
    if pc.Polling? && pc.j < |pc.r.polls| {
      ContributionWanted(c, w, pc.r.polls[pc.j]);
    }
  }

  lemma GoWantedEvent(c: Config, w: nat, rows: Table, pc: Pc)
    requires w < |c.products| && pc.Fits() && (!pc.Idle? ==> AllWanted(c, w, pc.current))
    ensures var e := Emitted(rows, pc);
            |e| <= 1 && (e != [] && Subject(e[0]).Some? ==> Wanted(c, w, Subject(e[0]).value))
  {
  }

  lemma GoWanted(c: Config, s: System, w: nat)
    requires Fitting(c, s) && PcsWanted(c, s) && LogWanted(c, s.log) && w < |s.pcs|
    ensures PcsWanted(c, Next(c, s, Go(w))) && LogWanted(c, Next(c, s, Go(w)).log)
  {
    GoShape(c, s, w);
    GoWantedPc(c, w, s.rows, s.pcs[w]);
    GoWantedEvent(c, w, s.rows, s.pcs[w]);
  }

  /** The filter law, for every run of any configuration, with any faults and crashes. */
  lemma {:induction false} OnlyWantedOffers(c: Config, s: System, acts: seq<Action>)
    requires Fitting(c, s) && PcsWanted(c, s) && LogWanted(c, s.log)
    ensures PcsWanted(c, Run(c, s, acts)) && LogWanted(c, Run(c, s, acts).log)
  {
    if acts == [] {
    } else {
      var n := |acts| - 1;
      var mid := Run(c, s, acts[..n]);
      OnlyWantedOffers(c, s, acts[..n]);
      match acts[n]
      case Begin(_, _) =>
      case Go(w) =>
        if w < |mid.pcs| {
          GoWanted(c, mid, w);
        }
      case Crash =>
    }
  }

  /** From a start: whatever the service notifies about is wanted by the product that notifies. */
  lemma OnlyWantedNotifications(c: Config, s: System, acts: seq<Action>, i: nat)
    requires Fitting(c, s) && s.log == [] && forall w :: 0 <= w < |s.pcs| ==> s.pcs[w].Idle?
    requires i < |Run(c, s, acts).log| && Run(c, s, acts).log[i].event.Sent?
    ensures var e := Run(c, s, acts).log[i];
            e.who < |c.products| && Wanted(c, e.who, e.event.offer)
  {
    OnlyWantedOffers(c, s, acts);
    assert Subject(Run(c, s, acts).log[i].event).Some?;
  }

  /**
   End to end, from the configuration: a notification is only ever attempted for an
   offer that is within the product's own cap, or within the global one when it
   has no cap of its own, or of unknown price, or that no cap is set for.
   */
  lemma OnlyWithinCaps(prefixes: seq<string>, entries: seq<Configured>, global: int, s: System, acts: seq<Action>,
                       i: nat)
    requires var c := Config(prefixes, Wired(entries, global));
             && Fitting(c, s) && s.log == [] && (forall w :: 0 <= w < |s.pcs| ==> s.pcs[w].Idle?)
             && i < |Run(c, s, acts).log| && Run(c, s, acts).log[i].event.Sent?
    ensures var e := Run(Config(prefixes, Wired(entries, global)), s, acts).log[i];
            && e.who < |entries| && e.event.offer.productName == entries[e.who].name
            && (e.event.offer.price.Some? ==>
                  var price, own := e.event.offer.price.value, entries[e.who].own;
                  && (own > 0 ==> price <= own as real)
                  && (own <= 0 && global > 0 ==> price <= global as real))
  {
    OnlyWantedNotifications(Config(prefixes, Wired(entries, global)), s, acts, i);
  }
}
