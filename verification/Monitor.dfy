/** The reconcile loop: polls, drops stale rows, notifies, records. */
module Monitor {
  import opened Model
  import opened DedupStore
  import opened WithProduct
  import opened Tick
  import opened Metrics
  import Steps
  import PollLaw

  class Monitor {
    const prefixes: seq<string>
    const store: Store
    const metrics: Recorder?
    /** Everything that happened, in order. */
    ghost var log: seq<Event>

    /** The metrics, when there are any, have seen exactly what the log says. */
    ghost predicate Valid()
      reads this, metrics
    {
      && this as object != store
      && metrics as object? != store
      && metrics as object? != this
      && (metrics != null ==> metrics.src == ObservedAll(map[], log))
    }

    constructor (prefixes: seq<string>, store: Store, metrics: Recorder?)
      requires metrics as object? != store
      requires metrics != null ==> metrics.src == map[]
      ensures Valid()
      ensures this.prefixes == prefixes && this.store == store && this.metrics == metrics && log == []
    {
      this.prefixes, this.store, this.metrics := prefixes, store, metrics;
      log := [];
    }

    // ----- filters and statistics

    /** The prefix loop of the local-store filter. */
    method CheckLocal(a: Offer) returns (r: bool)
      ensures r <==> IsLocal(prefixes, a)
      ensures r <==> (a.channel == InStore && !a.targeted && prefixes != [] ==>
                        exists i :: 0 <= i < |prefixes| && prefixes[i] <= a.plz)
    {
      if a.targeted || a.channel != InStore || |prefixes| == 0 {
        return true;
      }
      for i := 0 to |prefixes|
        invariant forall j :: 0 <= j < i ==> !(prefixes[j] <= a.plz)
      {
        if prefixes[i] <= a.plz {
          return true;
        }
      }
      return false;
    }

    /** One pass over a poll's offers: total stock and lowest known price. */
    method AvailStats(avail: seq<Offer>) returns (stock: int, minPrice: Option<real>)
      ensures stock == StockFrom(avail, 0)
      ensures minPrice == MinPrice(avail) && IsMinPrice(avail, minPrice)
    {
      stock, minPrice := 0, None;
      var i := 0;
      while i < |avail|
        invariant 0 <= i <= |avail|
        invariant stock + StockFrom(avail, i) == StockFrom(avail, 0)
        invariant minPrice == MinPrice(avail[..i])
      {
        assert avail[..i + 1][..i] == avail[..i];
        stock := stock + avail[i].stock;
        if avail[i].price.Some? && (minPrice.None? || avail[i].price.value < minPrice.value) {
          minPrice := avail[i].price;
        }
        i := i + 1;
      }
      assert avail[..i] == avail;
    }

    method Filter(avail: seq<Offer>, current: seq<Offer>) returns (r: seq<Offer>)
      ensures r == current + Admitted(prefixes, avail, 0)
    {
      r := current;
      var i := 0;
      while i < |avail|
        invariant 0 <= i <= |avail|
        invariant r + Admitted(prefixes, avail, i) == current + Admitted(prefixes, avail, 0)
      {
        ghost var before := r;
        ghost var rest := Admitted(prefixes, avail, i + 1);
        var a := avail[i];
        i := i + 1;
        if !WithinBudget(a) {
          continue;
        }
        var local := CheckLocal(a);
        if !local {
          continue;
        }
        r := r + [a];
        assert before + ([a] + rest) == r + rest;
      }
    }

    // ----- the log and the metrics

    /** Logs an event the metrics do not see. */
    ghost method Emit(e: Event)
      requires Valid() && !e.Polled? && !e.Counted?
      modifies this
      ensures Valid() && log == old(log) + [e]
    {
      log := log + [e];
      assert log[..|log| - 1] == old(log);
    }

    /** Logs an event and passes it to the metrics, when there are any. */
    method Observe(e: Event)
      requires Valid() && (e.Polled? || e.Counted?)
      modifies this, metrics
      ensures Valid() && log == old(log) + [e]
    {
      log := log + [e];
      assert log[..|log| - 1] == old(log);
      if metrics != null {
        match e {
          case Polled(source, at, good, available, stock, minPrice) =>
            metrics.ObserveCheck(source, at, good, available, stock, minPrice);
          case Counted(source) => metrics.ObserveNotification(source);
        }
      }
    }

    // ----- the phases of a tick

    /** Polls one wrapped source and keeps what passes both filters. */
    method PollOne(p: Product, poll: Poll, current: seq<Offer>) returns (r: seq<Offer>)
      requires Valid()
      modifies this, metrics
      ensures Valid() && log == old(log) + [PollEvent(poll)]
      ensures r == current + Contribution(prefixes, p, poll)
    {
      r := current;
      if poll.result.None? {
        Observe(Polled(poll.source, poll.at, false, 0, 0, None));
        return;
      }
      var raw := poll.result.value;
      var avail := new Offer[|raw|](i requires 0 <= i < |raw| => raw[i]);
      assert avail[..] == raw;
      StampInPlace(p, avail);
      var stamped := avail[..];
      var stock, minPrice := AvailStats(stamped);
      StockOfStamp(p, raw, 0);
      MinPriceOfStamp(p, raw);
      Observe(Polled(poll.source, poll.at, true, |stamped|, stock, minPrice));
      r := Filter(stamped, current);
    }

    method Gather(p: Product, polls: seq<Poll>) returns (current: seq<Offer>)
      requires Valid()
      modifies this, metrics
      ensures Valid() && log == old(log) + PollEvents(polls, 0)
      ensures current == Gathered(prefixes, p, polls, 0)
    {
      current := [];
      var j := 0;
      ghost var offers, events := Gathered(prefixes, p, polls, 0), log + PollEvents(polls, 0);
      assert [] + offers == offers;
      while j < |polls|
        invariant 0 <= j <= |polls| && Valid()
        invariant StillToPoll(prefixes, p, polls, j, current, log, offers, events)
      {
        GatherOne(prefixes, p, polls, j, current, log, offers, events);
        current := PollOne(p, polls[j], current);
        j := j + 1;
      }
      NoneToPoll(prefixes, p, polls, current, log, offers, events);
    }

    method CollectKeys(current: seq<Offer>) returns (keys: set<Key>)
      ensures keys == KeySet(current)
    {
      keys := {};
      for i := 0 to |current|
        invariant keys == KeySet(current[..i])
      {
        keys := keys + {current[i].key};
        assert forall k :: k in KeySet(current[..i + 1]) <==> k in KeySet(current[..i]) || k == current[i].key by {
          assert current[..i + 1] == current[..i] + [current[i]];
          assert current[..i + 1][i] == current[i];
        }
      }
      assert current[..|current|] == current;
    }

    method DropUnlessKept(existing: seq<Key>, keep: set<Key>, fails: set<Key>)
      requires Valid()
      modifies this, store
      ensures Valid()
      ensures var s := Sweep(old(store.rows), keep, fails, existing);
              store.rows == s.rows && log == old(log) + s.events
    {
      var i := 0;
      ghost var goal := Sweep(store.rows, keep, fails, existing);
      assert existing[0..] == existing;
      while i < |existing|
        invariant 0 <= i <= |existing| && Valid()
        invariant Sweep(store.rows, keep, fails, existing[i..]).rows == goal.rows
        invariant log + Sweep(store.rows, keep, fails, existing[i..]).events == old(log) + goal.events
      {
        var k := existing[i];
        assert existing[i..][1..] == existing[i + 1..];
        if k !in keep {
          var gone := DropOne(k, k !in fails);
        }
        i := i + 1;
      }
      assert existing[i..] == [];
    }

    method DropOne(k: Key, dbOk: bool) returns (ok: bool)
      requires Valid()
      modifies this, store
      ensures Valid() && ok == dbOk && log == old(log) + [Dropped(k, dbOk)]
      ensures store.rows == if dbOk then Deleted(old(store.rows), k) else old(store.rows)
    {
      ok := store.Delete(k, dbOk);
      assert ok ==> store.rows == Deleted(old(store.rows), k);
      Emit(Dropped(k, ok));
    }

    /** Announces a price drop, if it is one, and refreshes the row. */
    method RefreshKnown(a: Offer, prevPrice: Option<real>, f: Faults)
      requires Valid() && a.key in store.rows && prevPrice == store.rows[a.key].price
      modifies this, store, metrics
      ensures Valid()
      ensures store.rows == HandleKnown(old(store.rows), a, f).rows
      ensures log == old(log) + HandleKnown(old(store.rows), a, f).events
    {
      if a.price.Some? && prevPrice.Some? && a.price.value < prevPrice.value {
        Emit(Sent(a, f.notifyOk));
        if !f.notifyOk {
          return;
        }
        Observe(Counted(a.source));
      }
      var touched := store.Touch(a, f.writeOk);
      assert touched ==> store.rows == Touched(old(store.rows), a);
      Emit(Refreshed(a, touched));
    }

    /** Announces a new availability and records it. */
    method AnnounceNew(a: Offer, f: Faults)
      requires Valid() && a.key !in store.rows
      modifies this, store, metrics
      ensures Valid()
      ensures store.rows == HandleNew(old(store.rows), a, f).rows
      ensures log == old(log) + HandleNew(old(store.rows), a, f).events
    {
      Emit(Sent(a, f.notifyOk));
      if !f.notifyOk {
        return;
      }
      var recorded := store.Record(a, f.writeOk);
      Emit(Inserted(a, recorded));
      Observe(Counted(a.source));
    }

    /** Lookup, then notify and write as the stored price demands. */
    method HandleOffer(a: Offer, f: Faults)
      requires Valid()
      modifies this, store, metrics
      ensures Valid()
      ensures store.rows == Handle(old(store.rows), a, f).rows
      ensures log == old(log) + Handle(old(store.rows), a, f).events
    {
      var prevPrice, known, ok := store.Lookup(a.key, f.lookupOk);
      Emit(LookedUp(a, ok));
      if !ok {
        return;
      }
      if known {
        RefreshKnown(a, prevPrice, f);
      } else {
        AnnounceNew(a, f);
      }
    }

    method HandleAll(current: seq<Offer>, r: Round)
      requires Valid()
      modifies this, store, metrics
      ensures Valid()
      ensures store.rows == Process(old(store.rows), current, r, 0).rows
      ensures log == old(log) + Process(old(store.rows), current, r, 0).events
    {
      var i := 0;
      ghost var goal := Process(store.rows, current, r, 0);
      while i < |current|
        invariant 0 <= i <= |current| && Valid()
        invariant Process(store.rows, current, r, i).rows == goal.rows
        invariant log + Process(store.rows, current, r, i).events == old(log) + goal.events
      {
        ghost var before, h := log, Handle(store.rows, current[i], FaultAt(r, i));
        HandleOffer(current[i], FaultAt(r, i));
        Regroup(before, h.events, Process(h.rows, current, r, i + 1).events);
        i := i + 1;
      }
    }

    /** Drops the rows of keys no longer offered. */
    method DropStale(p: Product, current: seq<Offer>, r: Round) returns (ghost order: seq<Key>)
      requires Valid()
      modifies this, store
      ensures Valid()
      ensures store.rows == Swept(p, old(store.rows), current, r.(order := order)).rows
      ensures log == old(log) + Swept(p, old(store.rows), current, r.(order := order)).events
    {
      var keys := CollectKeys(current);
      var existing, ok := store.ProductKeys(p.name, r.keysOk);
      order := existing;
      if ok {
        ArrangeOfEnumeration(existing, KeysOf(store.rows, p.name));
        DropUnlessKept(existing, keys, r.deleteFails);
      }
    }

    /**
     One tick. Its effect is the one `TickOutcome` describes, for the order the
     store's keys came in, and so that of the step machine run to its end.
     */
    method Tick(p: Product, r: Round) returns (ghost order: seq<Key>)
      requires Valid()
      modifies this, store, metrics
      ensures Valid()
      ensures store.rows == TickOutcome(prefixes, p, old(store.rows), r.(order := order)).rows
      ensures log == old(log) + TickOutcome(prefixes, p, old(store.rows), r.(order := order)).events
      ensures |old(log)| + |r.polls| <= |log|
      ensures forall i :: 0 <= i < |r.polls| ==> PollLaw.Reports(log[|old(log)| + i], r.polls[i])
      ensures Steps.Local(store.rows, Steps.Idle, log) ==
              Steps.Finish(prefixes, p,
                           Steps.Local(old(store.rows), Steps.Polling(r.(order := order), 0, []), old(log)))
    {
      ghost var rows0, log0 := store.rows, log;
      var current := Gather(p, r.polls);
      order := DropStale(p, current, r);
      ghost var rows1, log1 := store.rows, log;
      ProcessIgnoresOrder(rows1, current, r, order, 0);
      if |current| > 0 {
        HandleAll(current, r);
      }
      ghost var r' := r.(order := order);
      ghost var swept, done := Swept(p, rows0, current, r'), Process(rows1, current, r', 0);
      assert store.rows == done.rows && log == log1 + done.events;
      TickInParts(prefixes, p, rows0, r');
      Regroup(log0, PollEvents(r.polls, 0) + swept.events, done.events);
      Regroup(log0, PollEvents(r.polls, 0), swept.events);
      Steps.FinishIsTick(prefixes, p, rows0, r', log0);
      var d := PollLaw.TickReports(prefixes, p, rows0, r');
    }
  }

  /** What is gathered and logged so far, with what the polls from j on add, makes up the whole. */
  ghost predicate StillToPoll(prefixes: seq<string>, p: Product, polls: seq<Poll>, j: nat,
                              current: seq<Offer>, log: seq<Event>, offers: seq<Offer>, events: seq<Event>) {
    current + Gathered(prefixes, p, polls, j) == offers && log + PollEvents(polls, j) == events
  }

  lemma GatherOne(prefixes: seq<string>, p: Product, polls: seq<Poll>, j: nat,
                  current: seq<Offer>, log: seq<Event>, offers: seq<Offer>, events: seq<Event>)
    requires j < |polls| && StillToPoll(prefixes, p, polls, j, current, log, offers, events)
    ensures StillToPoll(prefixes, p, polls, j + 1, current + Contribution(prefixes, p, polls[j]),
                        log + [PollEvent(polls[j])], offers, events)
  {
    Regroup(current, Contribution(prefixes, p, polls[j]), Gathered(prefixes, p, polls, j + 1));
    Regroup(log, [PollEvent(polls[j])], PollEvents(polls, j + 1));
  }

  lemma NoneToPoll(prefixes: seq<string>, p: Product, polls: seq<Poll>,
                   current: seq<Offer>, log: seq<Event>, offers: seq<Offer>, events: seq<Event>)
    requires StillToPoll(prefixes, p, polls, |polls|, current, log, offers, events)
    ensures current == offers && log == events
  {
    assert current + [] == current && log + [] == log;
  }

  lemma TickInParts(prefixes: seq<string>, p: Product, rows: Table, r: Round)
    ensures var current := Gathered(prefixes, p, r.polls, 0);
            var swept := Swept(p, rows, current, r);
            var done := Process(swept.rows, current, r, 0);
            TickOutcome(prefixes, p, rows, r) ==
            Outcome(done.rows, PollEvents(r.polls, 0) + swept.events + done.events)
  {
  }

  /** Stamping name and cap changes neither stock nor prices. */
  lemma {:induction false} StockOfStamp(p: Product, raw: seq<Offer>, i: nat)
    ensures StockFrom(Stamp(p, raw), i) == StockFrom(raw, i)
    decreases |raw| - i
  {
    if i >= |raw| {
    } else {
      StockOfStamp(p, raw, i + 1);
    }
  }

  lemma {:induction false} MinPriceOfStamp(p: Product, raw: seq<Offer>)
    ensures MinPrice(Stamp(p, raw)) == MinPrice(raw)
  {
    if raw == [] {
    } else {
      var n := |raw| - 1;
      assert Stamp(p, raw)[..n] == Stamp(p, raw[..n]);
      MinPriceOfStamp(p, raw[..n]);
    }
  }

  lemma {:induction false} ProcessIgnoresOrder(rows: Table, current: seq<Offer>, r: Round, order: seq<Key>, i: nat)
    ensures Process(rows, current, r.(order := order), i) == Process(rows, current, r, i)
    decreases |current| - i
  {
    if i >= |current| {
    } else {
      var h := Handle(rows, current[i], FaultAt(r, i));
      ProcessIgnoresOrder(h.rows, current, r, order, i + 1);
    }
  }
}
