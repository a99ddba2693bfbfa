/** How often a key is notified over a whole run without faults. */
module RunLaw {
  import opened Model
  import opened DedupStore
  import opened WithProduct
  import opened Tick
  import opened Steps
  import opened Watchers
  import opened KeyTrace
  import opened Reconcile

  /** One key's observations, tick after tick: absent, or seen with a price. */
  datatype Sighting = Gap | Seen(price: Option<real>)

  function SightingsIn(current: seq<Offer>, k: Key, i: nat): seq<Sighting>
    decreases |current| - i
  {
    if i >= |current| then []
    else (if current[i].key == k then [Seen(current[i].price)] else []) + SightingsIn(current, k, i + 1)
  }

  function TickSightings(current: seq<Offer>, k: Key): seq<Sighting> {
    if k in KeySet(current) then SightingsIn(current, k, 0) else [Gap]
  }

  /** The flattened observations of a run; a key may be seen several times in a tick. */
  function Sightings(prefixes: seq<string>, p: Product, rounds: seq<Round>, k: Key): seq<Sighting> {
    if rounds == [] then []
    else
      var n := |rounds| - 1;
      Sightings(prefixes, p, rounds[..n], k) + TickSightings(Current(prefixes, p, rounds[n]), k)
  }

  /** Maximal blocks of presence: sightings that nothing, or a gap, precedes. */
  function Blocks(s: seq<Sighting>): nat {
    if s == [] then 0
    else
      var n := |s| - 1;
      Blocks(s[..n]) + if s[n].Seen? && (n == 0 || s[n - 1].Gap?) then 1 else 0
  }

  /** Strict descents between neighbouring sightings whose prices are both known. */
  function Descents(s: seq<Sighting>): nat {
    if |s| < 2 then 0
    else
      var n := |s| - 1;
      Descents(s[..n]) + if s[n - 1].Seen? && s[n].Seen? && IsDrop(s[n - 1].price, s[n].price) then 1 else 0
  }

  function Due(s: seq<Sighting>): nat {
    Blocks(s) + Descents(s)
  }

  /** A delivered notification about k. */
  predicate Tells(k: Key, e: Event) { Delivered(e) && e.offer.key == k }

  /** The delivered notifications about k. */
  function Notices(k: Key, events: seq<Event>): nat {
    if events == [] then 0
    else
      var n := |events| - 1;
      Notices(k, events[..n]) + if Tells(k, events[n]) then 1 else 0
  }

  lemma NoticesSnoc(k: Key, a: seq<Event>, e: Event)
    ensures Notices(k, a + [e]) == Notices(k, a) + if Tells(k, e) then 1 else 0
  {
    assert (a + [e])[..|a|] == a;
  }

  lemma CountSnoc(es: seq<Event>, e: Event)
    ensures CountDelivered(es + [e]) == CountDelivered(es) + if Delivered(e) then 1 else 0
  {
    assert (es + [e])[..|es|] == es;
  }

  /** Both ways of counting agree. */
  lemma {:induction false} NoticesAreDelivered(k: Key, events: seq<Event>)
    ensures Notices(k, events) == CountDelivered(KeyEvents(k, events))
  {
    if events == [] {
    } else {
      var n := |events| - 1;
      NoticesAreDelivered(k, events[..n]);
      var before, e := KeyEvents(k, events[..n]), events[n];
      if Relevant(k, e) {
        CountSnoc(before, e);
        assert Delivered(e) <==> Tells(k, e);
      } else {
        assert before + [] == before;
      }
    }
  }

  lemma {:induction false} NoticesConcat(k: Key, a: seq<Event>, b: seq<Event>)
    ensures Notices(k, a + b) == Notices(k, a) + Notices(k, b)
  {
    if b == [] {
      assert a + b == a;
    } else {
      var n := |b| - 1;
      NoticesConcat(k, a, b[..n]);
      assert b == b[..n] + [b[n]];
      Regroup(a, b[..n], [b[n]]);
      NoticesSnoc(k, a + b[..n], b[n]);
      NoticesSnoc(k, b[..n], b[n]);
    }
  }

  lemma {:induction false} NoticesNone(k: Key, events: seq<Event>)
    requires forall i :: 0 <= i < |events| ==> !Tells(k, events[i])
    ensures Notices(k, events) == 0
  {
    if events == [] {
    } else {
      var n := |events| - 1;
      NoticesNone(k, events[..n]);
      NoticesSnoc(k, events[..n], events[n]);
      assert events == events[..n] + [events[n]];
    }
  }

  lemma {:induction false} NoticesOne(k: Key, events: seq<Event>, j: nat)
    requires j < |events| && Tells(k, events[j])
    requires forall i :: 0 <= i < |events| && i != j ==> !Tells(k, events[i])
    ensures Notices(k, events) == 1
  {
    var n := |events| - 1;
    NoticesSnoc(k, events[..n], events[n]);
    assert events == events[..n] + [events[n]];
    if j == n {
      NoticesNone(k, events[..n]);
    } else {
      NoticesOne(k, events[..n], j);
    }
  }

  /** What the table should hold after these sightings. */
  function StoredAfter(s: seq<Sighting>): Stored {
    if s == [] || s[|s| - 1].Gap? then None else Some(s[|s| - 1].price)
  }

  lemma DueSnoc(s: seq<Sighting>, x: Sighting)
    ensures Due(s + [x]) == Due(s) +
            if x.Gap? then 0
            else if StoredAfter(s).None? then 1
            else if IsDrop(StoredAfter(s).value, x.price) then 1 else 0
  {
    assert (s + [x])[..|s|] == s;
  }

  /** Notices of the events `Handle` logs for one offer. */
  lemma HandleNotices(rows: Table, a: Offer, f: Faults, k: Key)
    requires f == Faults(true, true, true)
    ensures var h := Handle(rows, a, f);
            if a.key != k then Notices(k, h.events) == 0 && StoredAt(h.rows, k) == StoredAt(rows, k)
            else
              && StoredAt(h.rows, k) == Some(a.price)
              && Notices(k, h.events) ==
                 if k !in rows || IsDrop(rows[k].price, a.price) then 1 else 0
  {
    var h := Handle(rows, a, f);
    if a.key != k || (k in rows && !IsDrop(rows[k].price, a.price)) {
      NoticesNone(k, h.events);
    } else {
      NoticesOne(k, h.events, 1);
    }
  }

  /**
   Handling an offer whose key has a row, without faults, leaves stock and price as
   they are and notifies nobody exactly when the offer repeats both.
   */
  lemma JustRefreshedExactly(rows: Table, a: Offer, f: Faults)
    requires f == Faults(true, true, true) && a.key in rows
    ensures var h := Handle(rows, a, f);
            h.rows == rows && Notices(a.key, h.events) == 0 <==>
            a.stock == rows[a.key].stock && a.price == rows[a.key].price
  {
    var h := Handle(rows, a, f);
    HandleNotices(rows, a, f, a.key);
    assert h.rows == Touched(rows, a);
    assert h.rows[a.key] == rows[a.key].(stock := a.stock, price := a.price);
    if a.stock == rows[a.key].stock && a.price == rows[a.key].price {
      assert rows[a.key].(stock := a.stock, price := a.price) == rows[a.key];
    }
  }

  /** What handling one offer adds, as a sighting of k or none. */
  lemma HandleLaw(rows: Table, a: Offer, f: Faults, k: Key, before: seq<Sighting>, seen: seq<Sighting>)
    requires f == Faults(true, true, true)
    requires StoredAt(rows, k) == StoredAfter(before)
    requires seen == if a.key == k then [Seen(a.price)] else []
    ensures var h := Handle(rows, a, f);
            && StoredAt(h.rows, k) == StoredAfter(before + seen)
            && Due(before) + Notices(k, h.events) == Due(before + seen)
  {
    HandleNotices(rows, a, f, k);
    if a.key == k {
      DueSnoc(before, Seen(a.price));
    } else {
      assert before + seen == before;
    }
  }

  /** Handling offers from i on notifies as often as the sightings demand. */
  lemma {:induction false} ProcessLaw(rows: Table, current: seq<Offer>, r: Round, i: nat, k: Key, before: seq<Sighting>)
    requires FaultFree(r)
    requires StoredAt(rows, k) == StoredAfter(before)
    ensures var done := Process(rows, current, r, i);
            var all := before + SightingsIn(current, k, i);
            && StoredAt(done.rows, k) == StoredAfter(all)
            && Due(before) + Notices(k, done.events) == Due(all)
    decreases |current| - i
  {
    if i < |current| {
      assert AllOk(r, i);
      var h := Handle(rows, current[i], FaultAt(r, i));
      var seen := if current[i].key == k then [Seen(current[i].price)] else [];
      HandleLaw(rows, current[i], FaultAt(r, i), k, before, seen);
      ProcessLaw(h.rows, current, r, i + 1, k, before + seen);
      Regroup(before, seen, SightingsIn(current, k, i + 1));
      NoticesConcat(k, h.events, Process(h.rows, current, r, i + 1).events);
    } else {
      assert before + [] == before;
    }
  }

  lemma {:induction false} AbsentHasNoSightings(current: seq<Offer>, k: Key, i: nat)
    requires k !in KeySet(current)
    ensures SightingsIn(current, k, i) == []
    decreases |current| - i
  {
    if i >= |current| {
    } else {
      AbsentHasNoSightings(current, k, i + 1);
    }
  }

  lemma {:induction false} SweepDelivers(rows: Table, keep: set<Key>, fails: set<Key>, todo: seq<Key>)
    ensures forall i :: 0 <= i < |Sweep(rows, keep, fails, todo).events| ==>
              Sweep(rows, keep, fails, todo).events[i].Dropped?
  {
    if todo == [] {
    } else {
      SweepDelivers(if todo[0] in keep || todo[0] in fails then rows else Deleted(rows, todo[0]), keep, fails,
                    todo[1..]);
    }
  }

  lemma {:induction false} PollsDeliver(polls: seq<Poll>, j: nat)
    ensures forall i :: 0 <= i < |PollEvents(polls, j)| ==> PollEvents(polls, j)[i].Polled?
    decreases |polls| - j
  {
    if j >= |polls| {
    } else {
      PollsDeliver(polls, j + 1);
    }
  }

  /** Polls and deletes notify nobody. */
  lemma SilentBefore(p: Product, rows: Table, current: seq<Offer>, r: Round, k: Key)
    ensures Notices(k, PollEvents(r.polls, 0) + Swept(p, rows, current, r).events) == 0
  {
    PollsDeliver(r.polls, 0);
    SweepDelivers(rows, KeySet(current), r.deleteFails, Arrange(r.order, KeysOf(rows, p.name)));
    NoticesNone(k, PollEvents(r.polls, 0) + Swept(p, rows, current, r).events);
  }

  /** All rows are this product's. */
  ghost predicate Pure(p: Product, rows: Table) {
    forall k :: k in rows ==> rows[k].product == p.name
  }

  lemma TickLaw(prefixes: seq<string>, p: Product, rows: Table, r: Round, k: Key, before: seq<Sighting>)
    requires FaultFree(r) && Pure(p, rows)
    requires StoredAt(rows, k) == StoredAfter(before)
    ensures var t := TickOutcome(prefixes, p, rows, r);
            var all := before + TickSightings(Current(prefixes, p, r), k);
            && StoredAt(t.rows, k) == StoredAfter(all)
            && Due(before) + Notices(k, t.events) == Due(all)
  {
    var current := Current(prefixes, p, r);
    var swept := Swept(p, rows, current, r);
    var done := Process(swept.rows, current, r, 0);
    SweptExact(p, rows, current, r);
    SilentBefore(p, rows, current, r, k);
    NoticesConcat(k, PollEvents(r.polls, 0) + swept.events, done.events);
    if k in KeySet(current) {
      ProcessLaw(swept.rows, current, r, 0, k, before);
    } else {
      AbsentHasNoSightings(current, k, 0);
      DueSnoc(before, Gap);
      ProcessLaw(swept.rows, current, r, 0, k, before + [Gap]);
      assert before + [Gap] + [] == before + [Gap];
    }
  }

  lemma {:induction false} GatheredNamed(prefixes: seq<string>, p: Product, r: Round)
    ensures forall a :: a in Current(prefixes, p, r) ==> a.productName == p.name
  {
    forall a | a in Current(prefixes, p, r) ensures a.productName == p.name {
      CurrentExact(prefixes, p, r, a);
    }
  }

  lemma {:induction false} ProcessStaysPure(p: Product, rows: Table, current: seq<Offer>, r: Round, i: nat)
    requires Pure(p, rows) && forall a :: a in current ==> a.productName == p.name
    ensures Pure(p, Process(rows, current, r, i).rows)
    decreases |current| - i
  {
    if i >= |current| {
    } else {
      assert current[i] in current;
      var h := Handle(rows, current[i], FaultAt(r, i)).rows;
      HandleExact(rows, current[i], FaultAt(r, i));
      ProcessStaysPure(p, h, current, r, i + 1);
    }
  }

  lemma TickStaysPure(prefixes: seq<string>, p: Product, rows: Table, r: Round)
    requires Pure(p, rows)
    ensures Pure(p, TickOutcome(prefixes, p, rows, r).rows)
  {
    var current := Current(prefixes, p, r);
    SweptExact(p, rows, current, r);
    GatheredNamed(prefixes, p, r);
    ProcessStaysPure(p, Swept(p, rows, current, r).rows, current, r, 0);
  }

  ghost predicate AllFaultFree(rounds: seq<Round>) {
    forall m :: 0 <= m < |rounds| ==> FaultFree(rounds[m])
  }

  lemma AllFaultFreeSplit(rounds: seq<Round>)
    requires AllFaultFree(rounds) && rounds != []
    ensures AllFaultFree(rounds[..|rounds| - 1]) && FaultFree(rounds[|rounds| - 1])
  {
    assert forall m :: 0 <= m < |rounds| - 1 ==> rounds[..|rounds| - 1][m] == rounds[m];
  }

  /**
   The notification law from any table: if the table says what the sightings so
   far say, it does so after further ticks without faults, and exactly the
   notifications that the new sightings add have been delivered.
   */
  lemma {:induction false} TicksLaw(prefixes: seq<string>, p: Product, rows: Table, rounds: seq<Round>, k: Key,
                                    before: seq<Sighting>)
    requires AllFaultFree(rounds) && Pure(p, rows)
    requires StoredAt(rows, k) == StoredAfter(before)
    ensures var t := RunRounds(prefixes, p, rows, rounds);
            var all := before + Sightings(prefixes, p, rounds, k);
            && Pure(p, t.rows)
            && StoredAt(t.rows, k) == StoredAfter(all)
            && Due(before) + Notices(k, t.events) == Due(all)
  {
    if rounds == [] {
      assert before + [] == before;
    } else {
      var n := |rounds| - 1;
      AllFaultFreeSplit(rounds);
      TicksLaw(prefixes, p, rows, rounds[..n], k, before);
      var mid, seen := RunRounds(prefixes, p, rows, rounds[..n]), Sightings(prefixes, p, rounds[..n], k);
      TickLaw(prefixes, p, mid.rows, rounds[n], k, before + seen);
      TickStaysPure(prefixes, p, mid.rows, rounds[n]);
      Regroup(before, seen, TickSightings(Current(prefixes, p, rounds[n]), k));
      NoticesConcat(k, mid.events, TickOutcome(prefixes, p, mid.rows, rounds[n]).events);
    }
  }

  /**
   The whole-run law: in a run without faults, from an empty table, a key is
   notified once per maximal block of presence and once per strict descent
   between neighbouring sightings with known prices.
   */
  lemma WholeRunLaw(prefixes: seq<string>, p: Product, rounds: seq<Round>, k: Key)
    requires AllFaultFree(rounds)
    ensures var t := RunRounds(prefixes, p, map[], rounds);
            var seen := Sightings(prefixes, p, rounds, k);
            && StoredAt(t.rows, k) == StoredAfter(seen)
            && Notices(k, t.events) == Blocks(seen) + Descents(seen)
  {
    var seen := Sightings(prefixes, p, rounds, k);
    TicksLaw(prefixes, p, map[], rounds, k, []);
    assert [] + seen == seen;
    assert Due([]) == 0;
  }

  // ----- and for watchers that interleave

  /** The ticks watcher w really begins in a stretch of a run. */
  ghost function TicksOf(c: Config, owner: Owner, s: System, acts: seq<Action>, w: nat): seq<Round>
    requires Fitting(c, s) && w < |c.products|
  {
    Begun(c.prefixes, c.products[w], View(owner, s, w), ActsOf(w, acts))
  }

  ghost predicate NoCrash(acts: seq<Action>) {
    forall i :: 0 <= i < |acts| ==> !acts[i].Crash?
  }

  lemma {:induction false} NoCrashNoHalt(w: nat, acts: seq<Action>)
    requires NoCrash(acts)
    ensures CrashFree(ActsOf(w, acts))
  {
    if acts == [] {
    } else {
      NoCrashNoHalt(w, acts[..|acts| - 1]);
    }
  }

  /**
   A crash-free stretch of a run, between two ticks of watcher w at both ends.
   It may start anywhere: every state of an admissible run satisfies `Inv`.
   */
  ghost predicate Stretch(c: Config, owner: Owner, s: System, acts: seq<Action>, w: nat) {
    && DistinctNames(c) && ActsOwned(owner, acts) && Inv(c, owner, s) && NoCrash(acts)
    && w < |c.products| && s.pcs[w].Idle? && Run(c, s, acts).pcs[w].Idle?
  }

  /**
   Interleaving changes nothing: over a stretch a watcher's rows and events are
   those of its own ticks run one after the other on its own rows.
   */
  lemma InterleavedTicks(c: Config, owner: Owner, s: System, acts: seq<Action>, w: nat)
    requires Stretch(c, owner, s, acts, w)
    ensures var n := Run(c, s, acts);
            var t := RunRounds(c.prefixes, c.products[w], Share(owner, w, s.rows), TicksOf(c, owner, s, acts, w));
            Share(owner, w, n.rows) == t.rows && LogOf(w, n.log) == LogOf(w, s.log) + t.events
  {
    NonInterference(c, owner, s, acts, w);
    NoCrashNoHalt(w, acts);
    AloneIsTicks(c.prefixes, c.products[w], View(owner, s, w), ActsOf(w, acts));
  }

  /** The sighting a table remembers of a key. */
  function Remembered(rows: Table, k: Key): seq<Sighting> {
    if k in rows then [Seen(rows[k].price)] else []
  }

  /**
   The notification law holds for every product over every fault-free stretch of
   every interleaving. The sightings go on from what the table remembers; for a
   key without a row the deliveries are its blocks and descents.
   */
  lemma InterleavedRunLaw(c: Config, owner: Owner, s: System, acts: seq<Action>, k: Key)
    requires Stretch(c, owner, s, acts, owner(k))
    requires AllFaultFree(TicksOf(c, owner, s, acts, owner(k)))
    ensures var n := Run(c, s, acts);
            var was := Remembered(s.rows, k);
            var seen := Sightings(c.prefixes, c.products[owner(k)], TicksOf(c, owner, s, acts, owner(k)), k);
            && StoredAt(n.rows, k) == StoredAfter(was + seen)
            && CountDelivered(KeyLog(k, n.log)) - CountDelivered(KeyLog(k, s.log)) == Due(was + seen) - Due(was)
            && (k !in s.rows ==> Due(was + seen) - Due(was) == Blocks(seen) + Descents(seen))
  {
    var w, n := owner(k), Run(c, s, acts);
    var rows, rounds := Share(owner, w, s.rows), TicksOf(c, owner, s, acts, w);
    var was := Remembered(s.rows, k);
    InterleavedTicks(c, owner, s, acts, w);
    NonInterference(c, owner, s, acts, w);
    TicksLaw(c.prefixes, c.products[w], rows, rounds, k, was);
    DeliveriesAreNotices(owner, s.log, k);
    DeliveriesAreNotices(owner, n.log, k);
    NoticesConcat(k, LogOf(w, s.log), RunRounds(c.prefixes, c.products[w], rows, rounds).events);
    var seen := Sightings(c.prefixes, c.products[w], rounds, k);
    assert k !in s.rows ==> was + seen == seen;
  }

  lemma DeliveriesAreNotices(owner: Owner, log: seq<Entry>, k: Key)
    requires LogOwned(owner, log)
    ensures CountDelivered(KeyLog(k, log)) == Notices(k, LogOf(owner(k), log))
  {
    KeyLogIsOwners(owner, log, k);
    NoticesAreDelivered(k, LogOf(owner(k), log));
  }

  /**
   So does at-least-once, over every stretch: a key that is offered in all of its
   product's ticks there and has no row at the end met a fault on every offer.
   */
  lemma InterleavedAtLeastOnce(c: Config, owner: Owner, s: System, acts: seq<Action>, k: Key, m: nat)
    requires Stretch(c, owner, s, acts, owner(k))
    requires Present(c.prefixes, c.products[owner(k)], TicksOf(c, owner, s, acts, owner(k)), k)
    requires k !in Run(c, s, acts).rows
    requires m < |TicksOf(c, owner, s, acts, owner(k))|
    ensures var r := TicksOf(c, owner, s, acts, owner(k))[m];
            var current := Current(c.prefixes, c.products[owner(k)], r);
            forall i :: 0 <= i < |current| && current[i].key == k ==> !AllOk(r, i)
  {
    var w := owner(k);
    var rounds := TicksOf(c, owner, s, acts, w);
    InterleavedTicks(c, owner, s, acts, w);
    assert k !in Share(owner, w, Run(c, s, acts).rows);
    AtLeastOnce(c.prefixes, c.products[w], Share(owner, w, s.rows), rounds, k);
    var current := Current(c.prefixes, c.products[w], rounds[m]);
    assert Thwarted(c.prefixes, c.products[w], rounds[m], k);
    forall i | 0 <= i < |current| && current[i].key == k ensures !AllOk(rounds[m], i) {
      assert !Succeeds(current, rounds[m], 0, k);
    }
  }

  /**
   Where stretches come from: cut any admissible run, crashes and faults included,
   at a moment when watcher w is between ticks, and again at a later one with no
   crash in between. What lies in between is a stretch.
   */
  lemma StretchOfRun(c: Config, owner: Owner, s: System, before: seq<Action>, acts: seq<Action>, w: nat)
    requires Admissible(c, owner, s, before + acts) && w < |c.products| && NoCrash(acts)
    requires Run(c, s, before).pcs[w].Idle? && Run(c, s, before + acts).pcs[w].Idle?
    ensures Stretch(c, owner, Run(c, s, before), acts, w)
    ensures Run(c, s, before + acts) == Run(c, Run(c, s, before), acts)
  {
    assert forall i :: 0 <= i < |before| ==> (before + acts)[i] == before[i];
    assert forall i :: 0 <= i < |acts| ==> (before + acts)[|before| + i] == acts[i];
    NonInterference(c, owner, s, before, w);
    RunSplit(c, s, before, acts);
  }

  lemma {:induction false} RunSplit(c: Config, s: System, a: seq<Action>, b: seq<Action>)
    requires Fitting(c, s)
    ensures Run(c, s, a + b) == Run(c, Run(c, s, a), b)
  {
    if b == [] {
      assert a + b == a;
    } else {
      assert (a + b)[..|a + b| - 1] == a + b[..|b| - 1];
      RunSplit(c, s, a, b[..|b| - 1]);
    }
  }
}
